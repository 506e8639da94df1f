/**
The syscall interception protocol: one tracee, the tracer's handling of
syscall stops and seccomp stops, and a kernel that reports the seccomp stop
either before ("old") or after ("new") the syscall-enter stop.

`Tracee` holds the fields of the tracer's record that the protocol reads and
writes.  The handlers of the guest's syscalls are outside this module: what
they ask of the protocol arrives as an `EnterOutcome` or an `ExitOutcome`.
 */
module Interception {

  /** 0, PTRACE_CONT and PTRACE_SYSCALL. */
  datatype Request = Nothing | Cont | Syscall

  datatype Acceleration = Disabled | Disabling | Enabled

  /** `chain` is None when no chain exists; a chain whose queue is empty still exists. */
  datatype Chain = NoChain | Queued(left: nat)

  /** Instrumentation: how often each stage of translate_syscall() ran for the
      current syscall, how often the guest's own handlers ran in them, whether an
      enter handler asked for the exit stage, and whether the number of the
      syscall was replaced by the avoider. */
  datatype Stages = Stages(enters: nat, guestEnters: nat, exits: nat, guestExits: nat, asked: bool, voided: bool)

  const NO_STAGES := Stages(0, 0, 0, 0, false, false)

  datatype Tracee = Tracee(
    status: int,
    restartHow: Request,
    lastRestartHow: Request,
    sysexitPending: bool,
    alreadyHandled: bool,
    voidedCancelled: bool,
    seccomp: Acceleration,
    chain: Chain,
    stages: Stages)
  {
    predicate InSysenter() { status == 0 }
    predicate SysexitNecessary() { sysexitPending || chain.Queued? }
  }

  /** The tracer-wide statics: was the order detected, and is it the new one? */
  datatype Tracer = Tracer(detected: bool, afterEnter: bool)

  /** What an enter handler did: `pending` and `restart` are the two fields it
      may set to ask for the exit stage, `error` is its status (negative on
      failure), `void` tells whether it replaced the syscall by the avoider. */
  datatype EnterOutcome = EnterOutcome(pending: bool, restart: bool, error: int, void: bool)

  /** What an exit handler did: stay in PTRACE_SYSCALL mode, append `chained`
      syscalls to the chain, or turn the acceleration off. */
  datatype ExitOutcome = ExitOutcome(keep: bool, chained: nat, disable: bool)

  /** A handler set `sysexit_pending` only, and nothing sets `restart_how` in its place. */
  predicate HalfAsked(negativeAvoider: bool, e: EnterOutcome) {
    e.pending && !e.restart && (e.error >= 0 || negativeAvoider)
  }

  // ---------------------------------------------------------------------
  // The tracer
  // ---------------------------------------------------------------------

  /** The first half of the enter stage of translate_syscall(): the handlers, if
      the syscall is the guest's own. */
  function Entered(t: Tracee, e: EnterOutcome): Tracee {
    var guest := t.chain.NoChain?;
    var s := t.stages;
    t.(restartHow := if !guest || e.restart then Syscall else t.restartHow,
    sysexitPending := t.sysexitPending || (guest && e.pending),
    stages := s.(enters := s.enters + 1,
    guestEnters := s.guestEnters + if guest then 1 else 0,
    asked := s.asked || (guest && e.restart)))
  }

  /** The enter stage of translate_syscall().  `negativeAvoider` is false for
      the one architecture (ARM EABI) whose avoider is a real syscall number. */
  function TranslateEnter(negativeAvoider: bool, t0: Tracee, e: EnterOutcome): Tracee {
    var t := Entered(t0, e);
    var failed := e.error < 0;
    var how := if failed && !negativeAvoider then Syscall else t.restartHow;
    t.(status := if how == Cont then 0 else if failed then e.error else 1,
    restartHow := how,
    voidedCancelled := negativeAvoider && t.chain.NoChain? && (failed || e.void),
    stages := t.stages.(asked := t.stages.asked || (failed && !negativeAvoider),
    voided := t.chain.NoChain? && (failed || e.void)))
  }

  /** The first half of the exit stage: the handlers, and the syscalls they chain. */
  function Exited(t: Tracee, x: ExitOutcome): Tracee {
    var guest := t.chain.NoChain?;
    var s := t.stages;
    t.(stages := s.(exits := s.exits + 1, guestExits := s.guestExits + if guest then 1 else 0),
    sysexitPending := t.sysexitPending || x.keep,
    restartHow := if x.keep then Syscall else t.restartHow,
    chain := if x.chained == 0 then t.chain else Queued((if guest then 0 else t.chain.left) + x.chained),
    seccomp := if guest && x.disable && t.seccomp == Enabled then Disabling else t.seccomp)
  }

  /** chain_next_syscall(), as far as the protocol goes. */
  function Chained(t: Tracee): Tracee {
    match t.chain
    case NoChain => t
    case Queued(left) =>
      if left == 0 then t.(chain := NoChain) else t.(chain := Queued(left - 1), restartHow := Syscall)
  }

  /** The exit stage of translate_syscall(). */
  function TranslateExit(t: Tracee, x: ExitOutcome): Tracee {
    Chained(Exited(t, x).(status := 0))
  }

  function Translated(negativeAvoider: bool, t: Tracee, e: EnterOutcome, x: ExitOutcome): Tracee {
    if t.InSysenter() then TranslateEnter(negativeAvoider, t, e) else TranslateExit(t, x)
  }

  /** What every event does first: pick the default restart request. */
  function WithDefaultRestart(t: Tracee): Tracee {
    if t.restartHow != Nothing then t
    else t.(restartHow := if t.seccomp == Enabled && !t.SysexitNecessary() then Cont else Syscall)
  }

  /** The result of handling one stop; `ok` is false when an assertion failed. */
  datatype Handled = Handled(tracer: Tracer, tracee: Tracee, ok: bool)

  /** SIGTRAP | 0x80: a syscall-enter or a syscall-exit stop. */
  function OnSyscallStop(negativeAvoider: bool, tr: Tracer, t0: Tracee, e: EnterOutcome, x: ExitOutcome): Handled {
    var t := WithDefaultRestart(t0);
    if t.seccomp == Disabling then
      Handled(tr, t.(seccomp := Disabled, status := if t.InSysenter() then 1 else t.status), true)
    else
      var t1 := if t.seccomp != Enabled then t
                else if t.InSysenter() then t.(restartHow := Syscall, sysexitPending := true)
                else t.(restartHow := Cont, sysexitPending := false);
      var ok := t1.alreadyHandled ==> !t1.InSysenter() && !tr.afterEnter;
      var t2 := if !t1.alreadyHandled then Translated(negativeAvoider, t1, e, x)
                else t1.(alreadyHandled := false, restartHow := Syscall);
      var t3 := if t2.seccomp == Disabling then t2.(restartHow := Syscall, seccomp := Disabled) else t2;
      Handled(tr, t3, ok)
  }

  /** How the fast path goes on after the enter stage. */
  function EntryDecided(afterEnter: bool, t: Tracee): Tracee {
    var how := if t.sysexitPending || t.seccomp == Disabling then Syscall else t.restartHow;
    t.(restartHow := how,
    alreadyHandled := t.alreadyHandled || (!afterEnter && how == Syscall && !t.voidedCancelled))
  }

  /** The fast path of a seccomp stop: the enter stage is handled right there. */
  function EntryNow(negativeAvoider: bool, afterEnter: bool, t: Tracee, e: EnterOutcome, x: ExitOutcome): Tracee {
    EntryDecided(afterEnter, Translated(negativeAvoider, t.(restartHow := Cont), e, x))
  }

  /** The first seccomp stop tells the order: is the enter stage already behind? */
  function Detect(tr: Tracer, t: Tracee): (Tracer, Tracee) {
    var c := if t.voidedCancelled then t.(alreadyHandled := false) else t;
    if tr.detected then (tr, c) else (Tracer(true, !c.InSysenter()), c.(seccomp := Enabled))
  }

  /** A seccomp stop once the order is known; `slow`: the exit is to be seen. */
  function OnReport(negativeAvoider: bool, tr: Tracer, t: Tracee, slow: bool, e: EnterOutcome,
                    x: ExitOutcome): Handled {
    if tr.afterEnter && !t.InSysenter() then
      Handled(tr, t.(restartHow := t.lastRestartHow), t.lastRestartHow != Cont)
    else if t.seccomp != Enabled then
      Handled(tr, t, t.InSysenter())
    else if slow then
      var t1 := if tr.afterEnter
                then Translated(negativeAvoider, t.(restartHow := Syscall), e, x)
                else t;
      Handled(tr, t1.(restartHow := Syscall), t.InSysenter())
    else
      Handled(tr, EntryNow(negativeAvoider, tr.afterEnter, t, e, x), t.InSysenter())
  }

  /** SIGTRAP | PTRACE_EVENT_SECCOMP << 8; `sysexit` is the FILTER_SYSEXIT bit of the event message. */
  function OnSeccompStop(negativeAvoider: bool, tr0: Tracer, t0: Tracee, sysexit: bool, e: EnterOutcome, x: ExitOutcome)
    : Handled
  {
    var (tr, t) := Detect(tr0, WithDefaultRestart(t0));
    OnReport(negativeAvoider, tr, t, sysexit || t0.SysexitNecessary(), e, x)
  }

  /** PTRACE_EVENT_FORK, VFORK and CLONE: the default request stays. */
  function OnForkStop(tr: Tracer, t: Tracee): Handled {
    Handled(tr, WithDefaultRestart(t), true)
  }

  /** PTRACE_EVENT_EXEC, EXIT and VFORK_DONE: restart as last time. */
  function OnExecStop(tr: Tracer, t: Tracee): Handled {
    var d := WithDefaultRestart(t);
    Handled(tr, if d.lastRestartHow != Nothing then d.(restartHow := d.lastRestartHow) else d, true)
  }

  /** restart_tracee(): its assertion is that a request was chosen. */
  function Restart(h: Handled): Handled {
    Handled(h.tracer,
            h.tracee.(lastRestartHow := h.tracee.restartHow, restartHow := Nothing),
            h.ok && h.tracee.restartHow != Nothing)
  }

  // ---------------------------------------------------------------------
  // The kernel
  // ---------------------------------------------------------------------

  datatype Order = Old | New

  /** Where the running tracee is: in user code, between the two possible
      entry stops of a syscall, or in the syscall itself. */
  datatype Point = User | Mid | Body

  /** The syscall being made: issued by a chain or by the guest, reported by
      the filter (`sysexit`: with FILTER_SYSEXIT), and whether the tracee was
      then under PTRACE_SYSCALL.  `slow`: that mode was not left at its entry,
      which happens only when the first seccomp stop turns the acceleration on. */
  datatype Call = Call(chained: bool, traced: bool, sysexit: bool, stopped: bool, slow: bool)

  /** A finished syscall with the stages it went through. */
  datatype Record = Record(call: Call, stages: Stages)

  datatype World = World(order: Order, negativeAvoider: bool, tracer: Tracer, tracee: Tracee,
    mode: Request, point: Point, call: Call, log: seq<Record>, ok: bool)

  /** The environment's next move, with what the handlers would do on the way. */
  datatype Choice =
    | Issue(traced: bool, sysexit: bool, e: EnterOutcome, x: ExitOutcome)
    | Proceed(retraced: bool, e: EnterOutcome, x: ExitOutcome)
    | Fork
    | Exec
    | Finish(e: EnterOutcome, x: ExitOutcome)
    | Signal

  /** The tracee is restarted: the kernel's trace flag follows the request. */
  function Resume(w: World, h: Handled, point: Point): World {
    var r := Restart(h);
    w.(tracer := r.tracer, tracee := r.tracee, mode := r.tracee.lastRestartHow,
    point := point, ok := w.ok && r.ok)
  }

  function EnterOrExitStop(w: World, point: Point, e: EnterOutcome, x: ExitOutcome): World {
    Resume(w, OnSyscallStop(w.negativeAvoider, w.tracer, w.tracee, e, x), point)
  }

  function SeccompStop(w: World, point: Point, e: EnterOutcome, x: ExitOutcome): World {
    Resume(w, OnSeccompStop(w.negativeAvoider, w.tracer, w.tracee, w.call.sysexit, e, x), point)
  }

  predicate Allowed(w: World, c: Choice) {
    match c
    case Issue(_, _, _, _) => w.point == User
    case Proceed(_, _, _) => w.point == Mid
    case Fork => w.point == Body
    case Exec => w.point == Body
    case Finish(_, _) => w.point == Body
    case Signal => w.point == User
  }

  function NewCall(w: World, traced: bool, sysexit: bool): Call {
    var stopped := w.mode == Syscall;
    var turnsOn := w.order == Old && traced && !w.tracer.detected && !w.tracee.SysexitNecessary();
    Call(w.tracee.chain.Queued?, traced, traced && sysexit, stopped, stopped && !turnsOn)
  }

  function Next(w: World, c: Choice): World
    requires Allowed(w, c)
  {
    match c
    case Issue(traced, sysexit, e, x) =>
      var w1 := w.(call := NewCall(w, traced, sysexit), tracee := w.tracee.(stages := NO_STAGES));
      if w.order == Old && traced then SeccompStop(w1, Mid, e, x)
      else if w.order == New && w1.call.stopped then EnterOrExitStop(w1, Mid, e, x)
      else w1.(point := Mid)
    case Proceed(retraced, e, x) =>
      var entered := w.tracee.stages.enters > 0;
      if w.order == Old then
        // A syscall whose number became negative is cancelled: it goes straight to its exit.
        if w.mode == Syscall && !(entered && w.negativeAvoider && w.tracee.stages.voided)
        then EnterOrExitStop(w, Body, e, x)
        else w.(point := Body)
      else
        // The enter stop may have changed the number the filter sees.
        if (if entered then retraced else w.call.traced) then SeccompStop(w, Body, e, x)
        else w.(point := Body)
    case Fork => Resume(w, OnForkStop(w.tracer, w.tracee), Body)
    case Exec => Resume(w, OnExecStop(w.tracer, w.tracee), Body)
    case Finish(e, x) =>
      var w1 := if w.mode == Syscall then EnterOrExitStop(w, User, e, x) else w.(point := User);
      w1.(log := w1.log + [Record(w1.call, w1.tracee.stages)])
    case Signal => Resume(w, OnForkStop(w.tracer, w.tracee), User)
  }

  // ---------------------------------------------------------------------
  // Safety over whole runs
  // ---------------------------------------------------------------------

  /** The entry has to be seen by the tracer. */
  predicate Must(c: Call) { c.traced || c.stopped }

  /** The exit has to be seen by the tracer. */
  predicate Requested(c: Call, s: Stages) { c.sysexit || c.slow || s.asked }

  /** A finished syscall was entered exactly once if it had to be, exited
      exactly once if that was requested, and the guest's handlers ran for it
      exactly when it was not issued by a chain. */
  predicate Faithful(r: Record) {
    var s := r.stages;
    && s.enters == (if Must(r.call) then 1 else 0)
    && s.exits == (if Must(r.call) && Requested(r.call, s) then 1 else 0)
    && s.guestEnters == (if r.call.chained then 0 else s.enters)
    && s.guestExits == (if r.call.chained then 0 else s.exits)
  }

  predicate InitialTracee(t: Tracee, mode: Request) {
    && t.status == 0 && t.restartHow == Nothing && t.lastRestartHow == mode
    && !t.sysexitPending && !t.alreadyHandled && !t.voidedCancelled
    && t.chain == NoChain && t.seccomp != Disabling
  }

  /** Either nothing was detected yet and the tracee is not accelerated, or the
      order is known and the tracee is or is not accelerated. */
  predicate Initial(w: World) {
    && w.ok && w.log == [] && w.point == User
    && InitialTracee(w.tracee, w.mode)
    && (w.tracer.detected ==> (w.tracer.afterEnter <==> w.order == New))
    && (!w.tracer.detected ==> w.tracee.seccomp == Disabled)
    && w.mode == (if w.tracee.seccomp == Enabled then Cont else Syscall)
  }

  /** Holds at every point. */
  predicate Common(w: World) {
    Steady(w) && forall r <- w.log :: Faithful(r)
  }

  predicate Steady(w: World) {
    var t := w.tracee;
    && w.ok
    && t.restartHow == Nothing && t.lastRestartHow == w.mode && w.mode != Nothing
    && t.seccomp != Disabling
    && (w.tracer.detected ==> (w.tracer.afterEnter <==> w.order == New))
    && (!w.tracer.detected ==> t.seccomp == Disabled)
    && (t.seccomp == Disabled ==> w.mode == Syscall)
  }

  predicate AtUser(w: World) {
    var t := w.tracee;
    && t.status == 0 && !t.alreadyHandled
    && (t.seccomp == Enabled ==> (w.mode == Syscall <==> t.SysexitNecessary()))
  }

  predicate GuestCounts(w: World) {
    var s := w.tracee.stages;
    && s.guestEnters == (if w.call.chained then 0 else s.enters)
    && s.guestExits == 0 && s.exits == 0
    && (w.call.chained <==> w.tracee.chain.Queued?)
    && (w.call.sysexit ==> w.call.traced)
  }

  /** Entry seen and the exit will be. */
  predicate Tracked(w: World) {
    && w.tracee.status != 0 && w.mode == Syscall && w.tracee.stages.enters == 1
    && Must(w.call) && Requested(w.call, w.tracee.stages)
  }

  /** Nothing more to be seen of this syscall. */
  predicate Released(w: World) {
    && w.tracee.status == 0 && w.mode == Cont && !w.tracee.alreadyHandled
    && w.tracee.seccomp == Enabled && !w.tracee.SysexitNecessary()
    && w.tracee.stages.enters == (if Must(w.call) then 1 else 0)
    && !Requested(w.call, w.tracee.stages)
  }

  predicate AtMid(w: World) {
    var t := w.tracee;
    && GuestCounts(w)
    && if t.stages.enters > 0 then
         && t.voidedCancelled == (w.negativeAvoider && t.stages.voided)
         && (|| (w.order == New && Tracked(w) && !t.alreadyHandled)
             || (w.order == Old && Tracked(w) && t.alreadyHandled == !t.voidedCancelled && w.tracer.detected)
             || (w.order == Old && Released(w)))
       else
         && t.stages == NO_STAGES && t.status == 0 && !t.alreadyHandled
         && (t.seccomp == Enabled && w.mode == Cont ==> !t.SysexitNecessary())
         && (w.order == New ==> w.mode == Cont && !w.call.stopped && !w.call.slow)
         && (w.order == Old && w.mode == Syscall ==> Must(w.call) && Requested(w.call, t.stages))
         && (w.order == Old && w.mode == Cont ==> !Must(w.call) && !Requested(w.call, t.stages))
  }

  predicate AtBody(w: World) {
    && GuestCounts(w)
    && !w.tracee.alreadyHandled
    && (Tracked(w) || Released(w))
  }

  predicate Inv(w: World) {
    && Common(w)
    && match w.point
       case User => AtUser(w)
       case Mid => AtMid(w)
       case Body => AtBody(w)
  }

  /** The default request of a fork event keeps the exit stop of a tracked syscall. */
  predicate ForkKeepsExit(w: World) {
    w.tracee.status != 0 && w.tracee.seccomp == Enabled ==> w.tracee.SysexitNecessary()
  }

  /** The entry is handled by a seccomp stop that is not to see the exit. */
  predicate TakesFastPath(w: World, c: Choice) {
    && !w.tracee.SysexitNecessary()
    && match c
       case Issue(traced, sysexit, _, _) =>
         w.order == Old && traced && !sysexit && (w.tracee.seccomp == Enabled || !w.tracer.detected)
       case Proceed(_, _, _) =>
         && w.order == New && w.call.traced && !w.call.sysexit
         && w.tracee.seccomp == Enabled && w.tracee.stages.enters == 0
       case _ => false
  }

  /** Handlers on the fast path ask for the exit in full, and fork events come
      only where their default request keeps a requested exit stop. */
  predicate Benign(w: World, c: Choice) {
    match c
    case Issue(_, _, e, _) => TakesFastPath(w, c) ==> !HalfAsked(w.negativeAvoider, e)
    case Proceed(_, e, _) => TakesFastPath(w, c) ==> !HalfAsked(w.negativeAvoider, e)
    case Fork => ForkKeepsExit(w)
    case _ => true
  }

  lemma {:induction false} InitialInv(w: World)
    requires Initial(w)
    ensures Inv(w)
  {
  }

  lemma {:induction false} IssueOldDetectionSlow(w: World, c: Choice)
    requires Inv(w) && Allowed(w, c) && Benign(w, c) && c.Issue? && w.order == Old && c.traced && !w.tracer.detected
    requires c.sysexit || w.tracee.SysexitNecessary()
    ensures Inv(Next(w, c))
  {
  }

  lemma {:induction false} IssueOldDetectionFast(w: World, c: Choice)
    requires Inv(w) && Allowed(w, c) && Benign(w, c) && c.Issue? && w.order == Old && c.traced && !w.tracer.detected
    requires !c.sysexit && !w.tracee.SysexitNecessary()
    ensures Inv(Next(w, c))
  {
  }

  lemma {:induction false} IssueOldDetection(w: World, c: Choice)
    requires Inv(w) && Allowed(w, c) && Benign(w, c) && c.Issue? && w.order == Old && c.traced && !w.tracer.detected
    ensures Inv(Next(w, c))
  {
    if c.sysexit || w.tracee.SysexitNecessary() {
      IssueOldDetectionSlow(w, c);
    } else {
      IssueOldDetectionFast(w, c);
    }
  }

  /** A tracee on the fast path, at a seccomp stop of the guest. */
  predicate Fast(t: Tracee) {
    && t.status == 0 && t.restartHow == Nothing && t.seccomp == Enabled && !t.SysexitNecessary()
    && !t.alreadyHandled && t.stages == NO_STAGES
  }

  /** What the fast path makes of it, with the old order. */
  function FastEntry(negativeAvoider: bool, t: Tracee, e: EnterOutcome): Tracee {
    var failed := e.error < 0;
    var asks := e.restart || (failed && !negativeAvoider);
    var voided := negativeAvoider && (failed || e.void);
    t.(status := if !asks then 0 else if failed then e.error else 1,
    restartHow := if asks then Syscall else Cont,
    sysexitPending := e.pending,
    alreadyHandled := asks && !voided,
    voidedCancelled := voided,
    stages := Stages(1, 1, 0, 0, asks, failed || e.void))
  }

  lemma {:induction false} FastEntryIs(negativeAvoider: bool, tr: Tracer, t: Tracee, e: EnterOutcome, x: ExitOutcome)
    requires Fast(t) && tr.detected && !tr.afterEnter && !HalfAsked(negativeAvoider, e)
    ensures OnSeccompStop(negativeAvoider, tr, t, false, e, x) == Handled(tr, FastEntry(negativeAvoider, t, e), true)
  {
    var d := t.(restartHow := Cont);
    assert WithDefaultRestart(t) == d;
    assert Detect(tr, d) == (tr, d);
    assert Entered(d, e).chain == NoChain;
  }

  lemma {:induction false} IssueOldFast(w: World, c: Choice)
    requires Inv(w) && Allowed(w, c) && Benign(w, c) && c.Issue? && w.order == Old && c.traced && w.tracer.detected
    requires w.mode == Cont && !c.sysexit
    ensures Inv(Next(w, c))
  {
    FastIssueIs(w, c);
    FastMid(FastCall(w), c.e);
  }

  /** The world at the seccomp stop of a traced syscall. */
  function FastCall(w: World): World {
    w.(call := NewCall(w, true, false), tracee := w.tracee.(stages := NO_STAGES))
  }

  lemma {:induction false} FastIssueIs(w: World, c: Choice)
    requires Inv(w) && Allowed(w, c) && Benign(w, c) && c.Issue? && w.order == Old && c.traced && w.tracer.detected
    requires w.mode == Cont && !c.sysexit
    ensures var w1 := FastCall(w);
            Next(w, c) == Resume(w1, Handled(w.tracer, FastEntry(w.negativeAvoider, w1.tracee, c.e), true), Mid)
  {
    FastEntryIs(w.negativeAvoider, w.tracer, w.tracee.(stages := NO_STAGES), c.e, c.x);
  }

  lemma {:induction false} FastMid(w: World, e: EnterOutcome)
    requires Common(w) && w.order == Old && w.tracer.detected && w.mode == Cont && Fast(w.tracee)
    requires w.call == Call(false, true, false, false, false) && !HalfAsked(w.negativeAvoider, e)
    ensures Inv(Resume(w, Handled(w.tracer, FastEntry(w.negativeAvoider, w.tracee, e), true), Mid))
  {
  }

  lemma {:induction false} IssueOldSeccompStop(w: World, c: Choice)
    requires Inv(w) && Allowed(w, c) && Benign(w, c) && c.Issue? && w.order == Old && c.traced
    ensures Inv(Next(w, c))
  {
    if !w.tracer.detected {
      IssueOldDetection(w, c);
    } else if w.mode == Cont && !c.sysexit {
      IssueOldFast(w, c);
    }
  }

  lemma {:induction false} IssueNewEnterStop(w: World, c: Choice)
    requires Inv(w) && Allowed(w, c) && Benign(w, c) && c.Issue? && w.order == New && w.mode == Syscall
    ensures Inv(Next(w, c))
  {
  }

  lemma {:induction false} IssueKeepsInv(w: World, c: Choice)
    requires Inv(w) && Allowed(w, c) && Benign(w, c) && c.Issue?
    ensures Inv(Next(w, c))
  {
    if w.order == Old && c.traced {
      IssueOldSeccompStop(w, c);
    } else if w.order == New && w.mode == Syscall {
      IssueNewEnterStop(w, c);
    }
  }

  lemma {:induction false} ProceedOldAlreadyHandled(w: World, c: Choice)
    requires Inv(w) && Allowed(w, c) && Benign(w, c) && c.Proceed? && w.order == Old && w.mode == Syscall
    requires w.tracee.stages.enters > 0
    ensures Inv(Next(w, c))
  {
  }

  lemma {:induction false} ProceedOldFast(w: World, c: Choice)
    requires Inv(w) && Allowed(w, c) && Benign(w, c) && c.Proceed? && w.order == Old && w.mode == Syscall
    requires w.tracee.stages.enters == 0 && w.tracee.seccomp == Enabled
    ensures Inv(Next(w, c))
  {
  }

  lemma {:induction false} ProceedOldSlow(w: World, c: Choice)
    requires Inv(w) && Allowed(w, c) && Benign(w, c) && c.Proceed? && w.order == Old && w.mode == Syscall
    requires w.tracee.stages.enters == 0 && w.tracee.seccomp != Enabled
    ensures Inv(Next(w, c))
  {
  }

  lemma {:induction false} ProceedOldEnterStop(w: World, c: Choice)
    requires Inv(w) && Allowed(w, c) && Benign(w, c) && c.Proceed? && w.order == Old && w.mode == Syscall
    requires w.tracee.stages.enters == 0
    ensures Inv(Next(w, c))
  {
    if w.tracee.seccomp == Enabled {
      ProceedOldFast(w, c);
    } else {
      ProceedOldSlow(w, c);
    }
  }

  lemma {:induction false} ProceedNewAgain(w: World, c: Choice)
    requires Inv(w) && Allowed(w, c) && Benign(w, c) && c.Proceed? && w.order == New
    requires w.tracee.stages.enters > 0 && c.retraced && w.tracer.detected
    ensures Inv(Next(w, c))
  {
  }

  lemma {:induction false} ProceedNewDetection(w: World, c: Choice)
    requires Inv(w) && Allowed(w, c) && Benign(w, c) && c.Proceed? && w.order == New
    requires w.tracee.stages.enters > 0 && c.retraced && !w.tracer.detected
    ensures Inv(Next(w, c))
  {
  }

  lemma {:induction false} ProceedNewEntered(w: World, c: Choice)
    requires Inv(w) && Allowed(w, c) && Benign(w, c) && c.Proceed? && w.order == New
    requires w.tracee.stages.enters > 0
    ensures Inv(Next(w, c))
  {
    if c.retraced {
      if w.tracer.detected {
        ProceedNewAgain(w, c);
      } else {
        ProceedNewDetection(w, c);
      }
    }
  }

  lemma {:induction false} ProceedNewTraced(w: World, c: Choice)
    requires Inv(w) && Allowed(w, c) && Benign(w, c) && c.Proceed? && w.order == New
    requires w.tracee.stages.enters == 0 && w.call.traced && !w.call.sysexit
    ensures Inv(Next(w, c))
  {
  }

  lemma {:induction false} ProceedNewSysexit(w: World, c: Choice)
    requires Inv(w) && Allowed(w, c) && Benign(w, c) && c.Proceed? && w.order == New
    requires w.tracee.stages.enters == 0 && w.call.traced && w.call.sysexit
    ensures Inv(Next(w, c))
  {
  }

  lemma {:induction false} ProceedNewSeccompStop(w: World, c: Choice)
    requires Inv(w) && Allowed(w, c) && Benign(w, c) && c.Proceed? && w.order == New
    requires w.tracee.stages.enters == 0
    ensures Inv(Next(w, c))
  {
    if w.call.traced {
      if w.call.sysexit {
        ProceedNewSysexit(w, c);
      } else {
        ProceedNewTraced(w, c);
      }
    }
  }

  lemma {:induction false} ProceedKeepsInv(w: World, c: Choice)
    requires Inv(w) && Allowed(w, c) && Benign(w, c) && c.Proceed?
    ensures Inv(Next(w, c))
  {
    if w.order == New {
      if w.tracee.stages.enters > 0 {
        ProceedNewEntered(w, c);
      } else {
        ProceedNewSeccompStop(w, c);
      }
    } else if w.mode == Syscall {
      if w.tracee.stages.enters > 0 {
        ProceedOldAlreadyHandled(w, c);
      } else {
        ProceedOldEnterStop(w, c);
      }
    }
  }

  lemma {:induction false} LogGrows(log: seq<Record>, r: Record)
    requires (forall x <- log :: Faithful(x)) && Faithful(r)
    ensures forall x <- log + [r] :: Faithful(x)
  {
  }

  lemma {:induction false} FinishGuestFast(w: World, c: Choice)
    requires Steady(w) && AtBody(w) && Allowed(w, c) && c.Finish? && w.mode == Syscall && w.tracee.chain.NoChain?
    requires w.tracee.seccomp == Enabled
    ensures var d := Next(w, c); Steady(d) && AtUser(d) && d.point == User && Faithful(Record(d.call, d.tracee.stages))
  {
  }

  lemma {:induction false} FinishGuestSlow(w: World, c: Choice)
    requires Steady(w) && AtBody(w) && Allowed(w, c) && c.Finish? && w.mode == Syscall && w.tracee.chain.NoChain?
    requires w.tracee.seccomp != Enabled
    ensures var d := Next(w, c); Steady(d) && AtUser(d) && d.point == User && Faithful(Record(d.call, d.tracee.stages))
  {
  }

  lemma {:induction false} FinishGuest(w: World, c: Choice)
    requires Steady(w) && AtBody(w) && Allowed(w, c) && c.Finish? && w.mode == Syscall && w.tracee.chain.NoChain?
    ensures var d := Next(w, c); Steady(d) && AtUser(d) && d.point == User && Faithful(Record(d.call, d.tracee.stages))
  {
    if w.tracee.seccomp == Enabled {
      FinishGuestFast(w, c);
    } else {
      FinishGuestSlow(w, c);
    }
  }

  lemma {:induction false} FinishChainedFast(w: World, c: Choice)
    requires Steady(w) && AtBody(w) && Allowed(w, c) && c.Finish? && w.mode == Syscall && w.tracee.chain.Queued?
    requires w.tracee.seccomp == Enabled
    ensures var d := Next(w, c); Steady(d) && AtUser(d) && d.point == User && Faithful(Record(d.call, d.tracee.stages))
  {
  }

  lemma {:induction false} FinishChainedSlow(w: World, c: Choice)
    requires Steady(w) && AtBody(w) && Allowed(w, c) && c.Finish? && w.mode == Syscall && w.tracee.chain.Queued?
    requires w.tracee.seccomp != Enabled
    ensures var d := Next(w, c); Steady(d) && AtUser(d) && d.point == User && Faithful(Record(d.call, d.tracee.stages))
  {
  }

  lemma {:induction false} FinishChained(w: World, c: Choice)
    requires Steady(w) && AtBody(w) && Allowed(w, c) && c.Finish? && w.mode == Syscall && w.tracee.chain.Queued?
    ensures var d := Next(w, c); Steady(d) && AtUser(d) && d.point == User && Faithful(Record(d.call, d.tracee.stages))
  {
    if w.tracee.seccomp == Enabled {
      FinishChainedFast(w, c);
    } else {
      FinishChainedSlow(w, c);
    }
  }

  lemma {:induction false} FinishReleased(w: World, c: Choice)
    requires Steady(w) && AtBody(w) && Allowed(w, c) && c.Finish? && w.mode != Syscall
    ensures var d := Next(w, c); Steady(d) && AtUser(d) && d.point == User && Faithful(Record(d.call, d.tracee.stages))
  {
  }

  lemma {:induction false} FinishKeepsInv(w: World, c: Choice)
    requires Inv(w) && Allowed(w, c) && c.Finish?
    ensures Inv(Next(w, c))
  {
    if w.mode != Syscall {
      FinishReleased(w, c);
    } else if w.tracee.chain.NoChain? {
      FinishGuest(w, c);
    } else {
      FinishChained(w, c);
    }
    var d := Next(w, c);
    FinishLogs(w, c);
    LogGrows(w.log, Record(d.call, d.tracee.stages));
  }

  lemma {:induction false} FinishLogs(w: World, c: Choice)
    requires Allowed(w, c) && c.Finish?
    ensures var d := Next(w, c); d.log == w.log + [Record(d.call, d.tracee.stages)]
  {
  }

  lemma {:induction false} EventKeepsInv(w: World, c: Choice)
    requires Inv(w) && Allowed(w, c) && Benign(w, c) && (c.Exec? || c.Signal? || c.Fork?)
    ensures Inv(Next(w, c))
  {
  }

  /** A step keeps the invariant exactly if it is benign. */
  lemma {:induction false} StepKeepsInvIff(w: World, c: Choice)
    requires Inv(w) && Allowed(w, c)
    ensures Inv(Next(w, c)) <==> Benign(w, c)
  {
    if Benign(w, c) {
      match c {
        case Issue(_, _, _, _) => IssueKeepsInv(w, c);
        case Proceed(_, _, _) => ProceedKeepsInv(w, c);
        case Finish(_, _) => FinishKeepsInv(w, c);
        case _ => EventKeepsInv(w, c);
      }
    } else if !c.Fork? {
      HalfAskedIs(w, c);
    }
  }

  /** Asking for the exit with one flag only, on the fast path: the tracee is
      stopped at its exit, and the tracer has forgotten that it was entered. */
  lemma {:induction false} HalfAskedIs(w: World, c: Choice)
    requires Inv(w) && Allowed(w, c) && TakesFastPath(w, c) && HalfAsked(w.negativeAvoider, c.e)
    ensures var d := Next(w, c);
            && d.mode == Syscall && d.tracee.status == 0 && d.tracee.stages.enters == 1 && d.order == w.order
            && d.tracee.alreadyHandled == (w.order == Old && !d.tracee.voidedCancelled)
            && d.tracee.seccomp == Enabled && d.tracee.chain == NoChain
            && d.tracee.voidedCancelled == (w.negativeAvoider && (c.e.error < 0 || c.e.void))
  {
  }

  /** With the old order the enter stop then trips the assertion that the entry
      was handled. */
  lemma {:induction false} HalfAskedAsserts(w: World, c: Choice, p: Choice)
    requires Inv(w) && Allowed(w, c) && TakesFastPath(w, c) && HalfAsked(w.negativeAvoider, c.e) && p.Proceed?
    requires w.order == Old && !(w.negativeAvoider && (c.e.error < 0 || c.e.void))
    ensures !Next(Next(w, c), p).ok
  {
    HalfAskedIs(w, c);
  }

  /** With the new order, and for a cancelled syscall, the exit stop is taken for
      an entry: the syscall is translated twice. */
  lemma {:induction false} HalfAskedEntersTwice(w: World, f: Choice)
    requires w.point == Body && f.Finish? && w.mode == Syscall && w.tracee.status == 0 && !w.tracee.alreadyHandled
    requires w.tracee.stages.enters == 1 && w.tracee.seccomp == Enabled && w.tracee.chain == NoChain
    ensures var d := Next(w, f); d.log == w.log + [Record(d.call, d.tracee.stages)] && d.tracee.stages.enters == 2
  {
  }

  /** Where that leads, for every handler that asks by halves on the fast path. */
  lemma {:induction false} HalfAskedBreaks(w: World, c: Choice, p: Choice, f: Choice)
    requires Inv(w) && Allowed(w, c) && TakesFastPath(w, c) && HalfAsked(w.negativeAvoider, c.e)
    requires p.Proceed? && f.Finish?
    ensures var d := Next(w, c);
            if w.order == New then !Faithful(Last(Next(d, f)))
            else if d.tracee.voidedCancelled then !Faithful(Last(Next(Next(d, p), f)))
            else !Next(d, p).ok
  {
    HalfAskedIs(w, c);
    var d := Next(w, c);
    if w.order == New {
      HalfAskedEntersTwice(d, f);
    } else if d.tracee.voidedCancelled {
      HalfAskedEntersTwice(Next(d, p), f);
    } else {
      HalfAskedAsserts(w, c, p);
    }
  }

  function Last(w: World): Record {
    if w.log == [] then Record(w.call, NO_STAGES) else w.log[|w.log| - 1]
  }

  /** An accelerated tracee in user code, its acceleration detected. */
  function Accelerated(order: Order): World {
    World(order, true, Tracer(true, order == New),
          Tracee(0, Nothing, Cont, false, false, false, Enabled, NoChain, NO_STAGES),
          Cont, User, Call(false, false, false, false, false), [], true)
  }

  /** The handler of ioctl(FICLONE), for instance. */
  lemma {:induction false} FicloneIsHalfAsked(x: ExitOutcome)
    ensures var w := Accelerated(Old); var e := EnterOutcome(true, false, 0, false); var c := Issue(true, false, e, x);
            && Initial(w) && TakesFastPath(w, c) && HalfAsked(w.negativeAvoider, e)
            && !Next(Next(w, c), Proceed(false, e, x)).ok
  {
    var w := Accelerated(Old);
    var e := EnterOutcome(true, false, 0, false);
    InitialInv(w);
    HalfAskedAsserts(w, Issue(true, false, e, x), Proceed(false, e, x));
  }

  /** These moves may be played in turn. */
  predicate Playable(w: World, cs: seq<Choice>)
    decreases |cs|
  {
    cs == [] || (Allowed(w, cs[0]) && Benign(w, cs[0]) && Playable(Next(w, cs[0]), cs[1..]))
  }

  function Play(w: World, cs: seq<Choice>): World
    requires Playable(w, cs)
    decreases |cs|
  {
    if cs == [] then w else Play(Next(w, cs[0]), cs[1..])
  }

  lemma {:induction false} PlayKeepsInv(w: World, cs: seq<Choice>)
    requires Inv(w) && Playable(w, cs)
    ensures Inv(Play(w, cs))
    decreases |cs|
  {
    if cs != [] {
      var c := cs[0];
      StepKeepsInvIff(w, c);
      PlayKeepsInv(Next(w, c), cs[1..]);
    }
  }

  /** Over every run and either kernel order: no assertion fires, the detected
      order is the kernel's, and every finished syscall was translated exactly
      once at its entry and, if requested, exactly once at its exit. */
  lemma {:induction false} RunsAreFaithful(w: World, cs: seq<Choice>)
    requires Initial(w) && Playable(w, cs)
    ensures var f := Play(w, cs);
            && f.ok
            && (f.tracer.detected ==> (f.tracer.afterEnter <==> f.order == New))
            && (forall r <- f.log :: Faithful(r))
            && (f.point == User ==> f.tracee.status == 0 && !f.tracee.alreadyHandled)
  {
    InitialInv(w);
    PlayKeepsInv(w, cs);
  }

  // ---------------------------------------------------------------------
  // Fork events
  // ---------------------------------------------------------------------

  /** In a reachable world, a fork event is survived exactly when the exit stage
      is not owed or one of the two flags that force PTRACE_SYSCALL is set. */
  lemma {:induction false} ForkKeepsInvIff(w: World)
    requires Inv(w) && w.point == Body
    ensures Inv(Next(w, Fork)) <==> ForkKeepsExit(w)
  {
    if ForkKeepsExit(w) {
      EventKeepsInv(w, Fork);
    }
  }

  /** What force_fork_sysexit() does. */
  predicate ForcesForkSysexit(e: EnterOutcome) {
    e.pending && e.restart && e.error >= 0 && !e.void
  }

  /** An accelerated tracee in user code is about to make a fork-like syscall of its own. */
  predicate AboutToFork(w: World, e: EnterOutcome) {
    && Inv(w) && w.point == User && w.tracee.seccomp == Enabled && w.tracer.detected && w.tracee.chain == NoChain
    && ForcesForkSysexit(e)
  }

  /** The world in which that syscall runs, its entry handled. */
  function Forking(w: World, sysexit: bool, retraced: bool, e: EnterOutcome, x: ExitOutcome): (f: World)
    requires AboutToFork(w, e)
    ensures f.point == Body
  {
    var c := Issue(true, sysexit, e, x);
    IssueKeepsInv(w, c);
    Next(Next(w, c), Proceed(retraced, e, x))
  }

  /** Forcing the exit stage of a fork works exactly with the new order, with a
      filter that asks for the exit itself, or under PTRACE_SYSCALL. */
  predicate ForcingWorks(w: World, sysexit: bool) {
    w.order == New || sysexit || w.mode == Syscall
  }

  lemma {:induction false} ForkEntryKeepsInv(w: World, sysexit: bool, retraced: bool, e: EnterOutcome, x: ExitOutcome)
    requires AboutToFork(w, e)
    ensures Inv(Forking(w, sysexit, retraced, e, x))
  {
    var c := Issue(true, sysexit, e, x);
    IssueKeepsInv(w, c);
    ProceedKeepsInv(Next(w, c), Proceed(retraced, e, x));
  }

  lemma {:induction false} ForkEntryNew(w: World, sysexit: bool, retraced: bool, e: EnterOutcome, x: ExitOutcome)
    requires AboutToFork(w, e) && w.order == New
    ensures ForkKeepsExit(Forking(w, sysexit, retraced, e, x))
  {
  }

  lemma {:induction false} ForkEntryOldSlow(w: World, sysexit: bool, retraced: bool, e: EnterOutcome, x: ExitOutcome)
    requires AboutToFork(w, e) && w.order == Old && (sysexit || w.mode == Syscall)
    ensures ForkKeepsExit(Forking(w, sysexit, retraced, e, x))
  {
  }

  lemma {:induction false} ForkEntryOldFast(w: World, retraced: bool, e: EnterOutcome, x: ExitOutcome)
    requires AboutToFork(w, e) && w.order == Old && w.mode == Cont
    ensures Forking(w, false, retraced, e, x) == FastFork(w, e)
    ensures !ForkKeepsExit(Forking(w, false, retraced, e, x))
  {
    FastIssueIs(w, Issue(true, false, e, x));
  }

  /** The world in which the fork runs then: its exit is owed, and nothing tells. */
  function FastFork(w: World, e: EnterOutcome): World {
    w.(call := NewCall(w, true, false), mode := Syscall, point := Body,
    tracee := w.tracee.(status := 1, lastRestartHow := Syscall, sysexitPending := false, alreadyHandled := false,
    voidedCancelled := false, stages := Stages(1, 1, 0, 0, true, false)))
  }

  lemma {:induction false} ForkEntryIff(w: World, sysexit: bool, retraced: bool, e: EnterOutcome, x: ExitOutcome)
    requires AboutToFork(w, e)
    ensures Inv(Forking(w, sysexit, retraced, e, x))
    ensures ForkKeepsExit(Forking(w, sysexit, retraced, e, x)) <==> ForcingWorks(w, sysexit)
  {
    ForkEntryKeepsInv(w, sysexit, retraced, e, x);
    if w.order == New {
      ForkEntryNew(w, sysexit, retraced, e, x);
    } else if sysexit || w.mode == Syscall {
      ForkEntryOldSlow(w, sysexit, retraced, e, x);
    } else {
      ForkEntryOldFast(w, retraced, e, x);
    }
  }

  /** The fork event that follows is survived in exactly these cases. */
  lemma {:induction false} ForkSurvivedIff(w: World, sysexit: bool, retraced: bool, e: EnterOutcome, x: ExitOutcome)
    requires AboutToFork(w, e)
    ensures Inv(Next(Forking(w, sysexit, retraced, e, x), Fork)) <==> ForcingWorks(w, sysexit)
  {
    ForkEntryIff(w, sysexit, retraced, e, x);
    ForkKeepsInvIff(Forking(w, sysexit, retraced, e, x));
  }

  /** Otherwise the enter stop that follows the handled seccomp stop clears
      `sysexit_pending`, the fork event restarts with PTRACE_CONT, the exit
      stage is lost, and the next traced syscall trips the assertion that the
      tracee is in its enter stage. */
  lemma {:induction false} OldOrderForkLosesExit(w: World, retraced: bool, e: EnterOutcome, x: ExitOutcome,
                                                 next: Choice)
    requires AboutToFork(w, e) && !ForcingWorks(w, false)
    requires next.Issue? && next.traced
    ensures var f := Forking(w, false, retraced, e, x);
            var d := Next(Next(f, Fork), Finish(e, x));
            && d.log == w.log + [Record(d.call, d.tracee.stages)]
            && Requested(d.call, d.tracee.stages) && d.tracee.stages.exits == 0
            && d.point == User && !Next(d, next).ok
  {
    ForkEntryOldFast(w, retraced, e, x);
  }

  /** For instance, the first fork of an accelerated tracee. */
  lemma {:induction false} FirstForkLosesExit(retraced: bool, x: ExitOutcome, next: Choice)
    requires next.Issue? && next.traced
    ensures var w := Accelerated(Old); var e := EnterOutcome(true, true, 0, false);
            && Initial(w) && AboutToFork(w, e) && !ForcingWorks(w, false)
            && !Next(Next(Next(Forking(w, false, retraced, e, x), Fork), Finish(e, x)), next).ok
  {
    var w := Accelerated(Old);
    InitialInv(w);
    OldOrderForkLosesExit(w, retraced, EnterOutcome(true, true, 0, false), x, next);
  }

  // ---------------------------------------------------------------------
  // Chains and the fast path
  // ---------------------------------------------------------------------

  /** Exit stages, one after the other. */
  function Exits(t: Tracee, xs: seq<ExitOutcome>): Tracee {
    if xs == [] then t else TranslateExit(Exits(t, xs[..|xs| - 1]), xs[|xs| - 1])
  }

  /** How many syscalls their handlers chain. */
  function Registered(xs: seq<ExitOutcome>): nat {
    if xs == [] then 0 else Registered(xs[..|xs| - 1]) + xs[|xs| - 1].chained
  }

  /** Before each of these stages there were syscalls left of the chain. */
  ghost predicate Outlasts(left: nat, xs: seq<ExitOutcome>) {
    forall i :: 0 <= i < |xs| ==> i <= left + Registered(xs[..i])
  }

  /** A chain begins at the exit of a syscall of the guest, with the first of the syscalls
      that its handlers register, and the tracee is then under PTRACE_SYSCALL; the next
      syscall is the chain's. */
  lemma {:induction false} ChainBegins(w: World, e: EnterOutcome, x: ExitOutcome)
    requires Inv(w) && w.point == Body && w.mode == Syscall && w.tracee.chain.NoChain?
    ensures var d := Next(w, Finish(e, x));
            && (x.chained == 0 ==> d.tracee.chain == NoChain)
            && (x.chained > 0 ==> d.tracee.chain == Queued(x.chained - 1) && d.mode == Syscall)
            && (forall traced, sysexit :: NewCall(d, traced, sysexit).chained <==> x.chained > 0)
  {
  }

  /** A chain ends right after as many exit stages as syscalls were registered and one
      more, those registered on the way included; until then the exits are seen. */
  lemma {:induction false} ChainEndsIff(t: Tracee, xs: seq<ExitOutcome>)
    requires t.chain.Queued? && Outlasts(t.chain.left, xs)
    ensures var d := Exits(t, xs); var left := t.chain.left + Registered(xs);
            && (d.chain.NoChain? <==> |xs| > left)
            && (d.chain.Queued? ==> d.chain.left == left - |xs|)
            && (xs != [] && d.chain.Queued? ==> d.restartHow == Syscall)
            && d.stages.guestExits == t.stages.guestExits
  {
    if xs != [] {
      var ys := xs[..|xs| - 1];
      forall i | 0 <= i < |ys| ensures i <= t.chain.left + Registered(ys[..i]) {
        assert ys[..i] == xs[..i];
      }
      ChainEndsIff(t, ys);
      assert |xs| - 1 <= t.chain.left + Registered(xs[..|xs| - 1]);
    }
  }

  /** On the fast path, whatever the order and the handler: the status of the entry
      is kept exactly if the exit will be seen, unless the handler asked by halves. */
  lemma {:induction false} StatusKeptIff(negativeAvoider: bool, afterEnter: bool, t: Tracee, e: EnterOutcome,
                                         x: ExitOutcome)
    requires Fast(t)
    ensures var d := EntryNow(negativeAvoider, afterEnter, t, e, x);
            && ((d.status != 0 <==> d.restartHow == Syscall) <==> !HalfAsked(negativeAvoider, e))
            && (d.status != 0 ==> d.status == if e.error < 0 then e.error else 1)
            && (d.restartHow == Syscall <==> d.stages.asked || e.pending)
            && (d.alreadyHandled <==> !afterEnter && d.restartHow == Syscall && !d.voidedCancelled)
  {
    assert Entered(t.(restartHow := Cont), e).chain == NoChain;
  }

  // ---------------------------------------------------------------------
  // What exit handlers ask for
  // ---------------------------------------------------------------------

  /** The acceleration goes off exactly at the exit of a syscall of the guest whose handler
      asks for that, and the tracee is then under PTRACE_SYSCALL. */
  lemma {:induction false} DisableHonoured(w: World, e: EnterOutcome, x: ExitOutcome)
    requires Inv(w) && w.point == Body && w.mode == Syscall && w.tracee.seccomp == Enabled
    ensures var d := Next(w, Finish(e, x));
            if x.disable && w.tracee.chain.NoChain? then d.tracee.seccomp == Disabled && d.mode == Syscall
            else d.tracee.seccomp == Enabled
  {
    if x.disable && w.tracee.chain.NoChain? {
      GuestDisables(w, e, x);
    } else {
      OtherExits(w, e, x);
    }
  }

  lemma {:induction false} GuestDisables(w: World, e: EnterOutcome, x: ExitOutcome)
    requires Inv(w) && w.point == Body && w.mode == Syscall && w.tracee.seccomp == Enabled
    requires x.disable && w.tracee.chain.NoChain?
    ensures var d := Next(w, Finish(e, x)); d.tracee.seccomp == Disabled && d.mode == Syscall
  {
  }

  lemma {:induction false} OtherExits(w: World, e: EnterOutcome, x: ExitOutcome)
    requires Inv(w) && w.point == Body && w.mode == Syscall && w.tracee.seccomp == Enabled
    requires !(x.disable && w.tracee.chain.NoChain?)
    ensures Next(w, Finish(e, x)).tracee.seccomp == Enabled
  {
  }

  /** Every syscall that is being made is seen at its entry and at its exit. */
  predicate Watched(w: World) {
    w.point != User ==> w.call.stopped && w.call.slow
  }

  /** The acceleration is off for good. */
  predicate Off(w: World) {
    w.tracer.detected && w.tracee.seccomp == Disabled && Watched(w)
  }

  lemma {:induction false} OffIssue(w: World, c: Choice)
    requires Inv(w) && Off(w) && Allowed(w, c) && c.Issue?
    ensures Off(Next(w, c)) && Next(w, c).log == w.log
  {
  }

  lemma {:induction false} OffProceed(w: World, c: Choice)
    requires Inv(w) && Off(w) && Allowed(w, c) && c.Proceed?
    ensures Off(Next(w, c)) && Next(w, c).log == w.log
  {
  }

  lemma {:induction false} OffFinish(w: World, c: Choice)
    requires Inv(w) && Off(w) && Allowed(w, c) && c.Finish?
    ensures var d := Next(w, c); Off(d) && d.log == w.log + [Record(w.call, d.tracee.stages)]
  {
  }

  lemma {:induction false} OffEvent(w: World, c: Choice)
    requires Inv(w) && Off(w) && Allowed(w, c) && (c.Fork? || c.Exec? || c.Signal?)
    ensures Off(Next(w, c)) && Next(w, c).log == w.log
  {
  }

  /** Both stages ran, once each. */
  predicate SeenWhole(r: Record) {
    r.stages.enters == 1 && r.stages.exits == 1
  }

  /** Once off, it stays off, and every syscall is stopped at its entry and at its exit,
      listed by the filter or not. */
  lemma {:induction false} StaysOff(w: World, cs: seq<Choice>)
    requires Inv(w) && Off(w) && Playable(w, cs)
    ensures var f := Play(w, cs);
            && f.tracee.seccomp == Disabled && f.mode == Syscall && w.log <= f.log
            && forall i :: |w.log| <= i < |f.log| ==> SeenWhole(f.log[i])
    decreases |cs|
  {
    PlayKeepsInv(w, cs);
    if cs != [] {
      var c := cs[0];
      var d := Next(w, c);
      OffStep(w, c);
      StepKeepsInvIff(w, c);
      StaysOff(d, cs[1..]);
      if c.Finish? {
        assert d.log[|w.log|] == Record(w.call, d.tracee.stages);
        assert Faithful(d.log[|w.log|]);
      }
    }
  }

  lemma {:induction false} OffStep(w: World, c: Choice)
    requires Inv(w) && Off(w) && Allowed(w, c)
    ensures var d := Next(w, c);
            Off(d) && d.log == if c.Finish? then w.log + [Record(w.call, d.tracee.stages)] else w.log
  {
    match c {
      case Issue(_, _, _, _) => OffIssue(w, c);
      case Proceed(_, _, _) => OffProceed(w, c);
      case Finish(_, _) => OffFinish(w, c);
      case _ => OffEvent(w, c);
    }
  }

  /** From the exit at which the acceleration was turned off, over every run. */
  lemma {:induction false} DisabledForGood(w: World, e: EnterOutcome, x: ExitOutcome, cs: seq<Choice>)
    requires Inv(w) && w.point == Body && w.mode == Syscall && w.tracee.seccomp == Enabled
    requires w.tracee.chain.NoChain? && x.disable && Playable(Next(w, Finish(e, x)), cs)
    ensures var d, f := Next(w, Finish(e, x)), Play(Next(w, Finish(e, x)), cs);
            && f.tracee.seccomp == Disabled && f.mode == Syscall && d.log <= f.log
            && forall i :: |d.log| <= i < |f.log| ==> SeenWhole(f.log[i])
  {
    DisableHonoured(w, e, x);
    FinishKeepsInv(w, Finish(e, x));
    DetectedStays(w, e, x);
    StaysOff(Next(w, Finish(e, x)), cs);
  }

  lemma {:induction false} DetectedStays(w: World, e: EnterOutcome, x: ExitOutcome)
    requires Inv(w) && w.point == Body && w.tracee.seccomp == Enabled
    ensures var d := Next(w, Finish(e, x)); d.tracer.detected && d.point == User
  {
  }

  /** A handler asked to see the exit of the next syscall, which is not made yet or is
      being made. */
  predicate Kept(w: World) {
    if w.point == User then w.mode == Syscall && w.tracee.sysexitPending else w.call.stopped && w.call.slow
  }

  lemma {:induction false} KeepHonoured(w: World, e: EnterOutcome, x: ExitOutcome)
    requires Inv(w) && w.point == Body && w.mode == Syscall && x.keep
    ensures Kept(Next(w, Finish(e, x)))
  {
  }

  lemma {:induction false} KeptIssue(w: World, c: Choice)
    requires Inv(w) && Kept(w) && Allowed(w, c) && (c.Issue? || c.Signal?)
    ensures Kept(Next(w, c)) && Next(w, c).log == w.log
  {
  }

  lemma {:induction false} KeptProceed(w: World, c: Choice)
    requires Inv(w) && Kept(w) && Allowed(w, c) && (c.Proceed? || c.Fork? || c.Exec?)
    ensures Kept(Next(w, c)) && Next(w, c).log == w.log
  {
  }

  /** The next syscall that ends was seen at its entry and at its exit. */
  lemma {:induction false} KeptIsSeen(w: World, cs: seq<Choice>)
    requires Inv(w) && Kept(w) && Playable(w, cs)
    ensures var f := Play(w, cs); |w.log| <= |f.log| && (|f.log| > |w.log| ==> SeenWhole(f.log[|w.log|]))
    decreases |cs|
  {
    if cs != [] {
      var c := cs[0];
      var d := Next(w, c);
      StepKeepsInvIff(w, c);
      LogOnlyGrows(d, cs[1..]);
      if c.Finish? {
        FinishLogs(w, c);
        CallStays(w, c);
        assert Faithful(d.log[|w.log|]);
      } else {
        if c.Issue? || c.Signal? {
          KeptIssue(w, c);
        } else {
          KeptProceed(w, c);
        }
        KeptIsSeen(d, cs[1..]);
      }
    }
  }

  lemma {:induction false} CallStays(w: World, c: Choice)
    requires Allowed(w, c) && c.Finish?
    ensures Next(w, c).call == w.call
  {
  }

  lemma {:induction false} LogStep(w: World, c: Choice)
    requires Allowed(w, c)
    ensures w.log <= Next(w, c).log
  {
  }

  lemma {:induction false} LogOnlyGrows(w: World, cs: seq<Choice>)
    requires Playable(w, cs)
    ensures w.log <= Play(w, cs).log
    decreases |cs|
  {
    if cs != [] {
      LogStep(w, cs[0]);
      LogOnlyGrows(Next(w, cs[0]), cs[1..]);
    }
  }

  /** So a handler that asks for it at an exit sees the exit of the syscall after. */
  lemma {:induction false} NextExitIsSeen(w: World, e: EnterOutcome, x: ExitOutcome, cs: seq<Choice>)
    requires Inv(w) && w.point == Body && w.mode == Syscall && x.keep && Playable(Next(w, Finish(e, x)), cs)
    ensures var d, f := Next(w, Finish(e, x)), Play(Next(w, Finish(e, x)), cs);
            |f.log| > |d.log| ==> SeenWhole(f.log[|d.log|])
  {
    KeepHonoured(w, e, x);
    FinishKeepsInv(w, Finish(e, x));
    KeptIsSeen(Next(w, Finish(e, x)), cs);
  }

  // ---------------------------------------------------------------------
  // The tracer's record, updated in place
  // ---------------------------------------------------------------------

  class TraceeRecord {
    var status: int
    var restartHow: Request
    var lastRestartHow: Request
    var sysexitPending: bool
    var alreadyHandled: bool
    var voidedCancelled: bool
    var seccomp: Acceleration
    var chain: Chain
    ghost var stages: Stages

    ghost function State(): Tracee
      reads this
    {
      Tracee(status, restartHow, lastRestartHow, sysexitPending, alreadyHandled, voidedCancelled,
             seccomp, chain, stages)
    }

    /** translate_syscall(); `e` and `x` are what the handlers do when called. */
    method TranslateSyscall(negativeAvoider: bool, e: EnterOutcome, x: ExitOutcome)
      modifies this
      ensures State() == Translated(negativeAvoider, old(State()), e, x)
    {
      if status == 0 {
        TranslateEnterStage(negativeAvoider, e);
      } else {
        TranslateExitStage(x);
      }
    }

    method TranslateEnterStage(negativeAvoider: bool, e: EnterOutcome)
      modifies this
      ensures State() == TranslateEnter(negativeAvoider, old(State()), e)
    {
      CallEnterHandlers(e);
      stages := stages.(voided := chain.NoChain? && (e.error < 0 || e.void));
      if e.error < 0 {
        status := e.error;
        if !negativeAvoider {
          stages := stages.(asked := true);
          restartHow := Syscall;
        }
      } else {
        status := 1;
      }
      if restartHow == Cont {
        status := 0;
      }
      voidedCancelled := negativeAvoider && chain.NoChain? && (e.error < 0 || e.void);
    }

    method CallEnterHandlers(e: EnterOutcome)
      modifies this
      ensures State() == Entered(old(State()), e)
    {
      stages := stages.(enters := stages.enters + 1);
      if chain.NoChain? {
        stages := stages.(guestEnters := stages.guestEnters + 1, asked := stages.asked || e.restart);
        if e.pending { sysexitPending := true; }
        if e.restart { restartHow := Syscall; }
      } else {
        restartHow := Syscall;
      }
    }

    method TranslateExitStage(x: ExitOutcome)
      modifies this
      ensures State() == TranslateExit(old(State()), x)
    {
      CallExitHandlers(x);
      status := 0;
      if chain.Queued? {
        ChainNextSyscall();
      }
    }

    method CallExitHandlers(x: ExitOutcome)
      modifies this
      ensures State() == Exited(old(State()), x)
    {
      var guest := chain.NoChain?;
      stages := stages.(exits := stages.exits + 1);
      if guest {
        stages := stages.(guestExits := stages.guestExits + 1);
        if x.disable && seccomp == Enabled { seccomp := Disabling; }
      }
      if x.keep { sysexitPending := true; restartHow := Syscall; }
      if x.chained > 0 {
        chain := Queued((if guest then 0 else chain.left) + x.chained);
      }
    }

    method ChainNextSyscall()
      requires chain.Queued?
      modifies `chain, `restartHow
      ensures State() == Chained(old(State()))
    {
      if chain.left == 0 {
        chain := NoChain;
      } else {
        chain := Queued(chain.left - 1);
        restartHow := Syscall;
      }
    }

    method ChooseDefaultRestart() returns (sysexitNecessary: bool)
      modifies `restartHow
      ensures sysexitNecessary == old(State()).SysexitNecessary()
      ensures State() == WithDefaultRestart(old(State()))
    {
      sysexitNecessary := sysexitPending || chain.Queued?;
      if restartHow == Nothing {
        if seccomp == Enabled && !sysexitNecessary {
          restartHow := Cont;
        } else {
          restartHow := Syscall;
        }
      }
    }

    /** The SIGTRAP | 0x80 case of handle_tracee_event(). */
    method HandleSyscallStop(negativeAvoider: bool, tr: Tracer, e: EnterOutcome, x: ExitOutcome) returns (ok: bool)
      modifies this
      ensures Handled(tr, State(), ok) == OnSyscallStop(negativeAvoider, tr, old(State()), e, x)
    {
      ok := true;
      var _ := ChooseDefaultRestart();
      if seccomp == Disabling {
        seccomp := Disabled;
        if status == 0 { status := 1; }
        return;
      }
      if seccomp == Enabled {
        if status == 0 {
          restartHow := Syscall;
          sysexitPending := true;
        } else {
          restartHow := Cont;
          sysexitPending := false;
        }
      }
      if !alreadyHandled {
        TranslateSyscall(negativeAvoider, e, x);
      } else {
        ok := status != 0 && !tr.afterEnter;
        alreadyHandled := false;
        restartHow := Syscall;
      }
      if seccomp == Disabling {
        restartHow := Syscall;
        seccomp := Disabled;
      }
    }

    method DetectOrder(tr0: Tracer) returns (tr: Tracer)
      modifies `alreadyHandled, `seccomp
      ensures (tr, State()) == Detect(tr0, old(State()))
    {
      tr := tr0;
      if voidedCancelled {
        alreadyHandled := false;
      }
      if !tr.detected {
        seccomp := Enabled;
        tr := Tracer(true, status != 0);
      }
    }

    /** The PTRACE_EVENT_SECCOMP case of handle_tracee_event(). */
    method HandleSeccompStop(negativeAvoider: bool, tr0: Tracer, sysexit: bool, e: EnterOutcome, x: ExitOutcome)
      returns (tr: Tracer, ok: bool)
      modifies this
      ensures Handled(tr, State(), ok) == OnSeccompStop(negativeAvoider, tr0, old(State()), sysexit, e, x)
    {
      var sysexitNecessary := ChooseDefaultRestart();
      tr := DetectOrder(tr0);
      ok := HandleReport(negativeAvoider, tr, sysexit || sysexitNecessary, e, x);
    }

    /** A seccomp stop once the order is known. */
    method HandleReport(negativeAvoider: bool, tr: Tracer, slow: bool, e: EnterOutcome, x: ExitOutcome)
      returns (ok: bool)
      modifies this
      ensures Handled(tr, State(), ok) == OnReport(negativeAvoider, tr, old(State()), slow, e, x)
    {
      if tr.afterEnter && status != 0 {
        restartHow := lastRestartHow;
        ok := restartHow != Cont;
        return;
      }
      ok := status == 0;
      if seccomp != Enabled {
        return;
      }
      if slow {
        if tr.afterEnter {
          restartHow := Syscall;
          TranslateSyscall(negativeAvoider, e, x);
        }
        restartHow := Syscall;
        return;
      }
      HandleEntryNow(negativeAvoider, tr.afterEnter, e, x);
    }

    /** The fast path: the enter stage is handled at the seccomp stop. */
    method HandleEntryNow(negativeAvoider: bool, afterEnter: bool, e: EnterOutcome, x: ExitOutcome)
      modifies this
      ensures State() == EntryNow(negativeAvoider, afterEnter, old(State()), e, x)
    {
      restartHow := Cont;
      TranslateSyscall(negativeAvoider, e, x);
      ChooseEntryRestart(afterEnter);
    }

    method ChooseEntryRestart(afterEnter: bool)
      modifies this
      ensures State() == EntryDecided(afterEnter, old(State()))
    {
      if sysexitPending {
        restartHow := Syscall;
      }
      if seccomp == Disabling {
        restartHow := Syscall;
      }
      if !afterEnter && restartHow == Syscall && !voidedCancelled {
        alreadyHandled := true;
      }
    }

    /** restart_tracee(), when the request is granted. */
    method RestartTracee(tr: Tracer) returns (ok: bool)
      modifies `lastRestartHow, `restartHow
      ensures Handled(tr, State(), ok) == Restart(Handled(tr, old(State()), true))
    {
      ok := restartHow != Nothing;
      lastRestartHow := restartHow;
      restartHow := Nothing;
    }
  }
}
