/**
Chained syscalls: at the exit of a syscall of the guest, the tracer makes the
process execute its trap again, any number of times, then restores the
registers of the guest.
 */
module Chaining {
  import opened Common

  // ---------------------------------------------------------------------
  // Registers
  // ---------------------------------------------------------------------

  /** On ARM the result register is also the first argument, and the trap reads the
      syscall number from its own register; on x86 from the result register. */
  datatype Arch = X86 | Arm

  datatype Reg = Num | Arg(i: nat) | Result | StackPointer | InstrPointer

  datatype Bank = Bank(num: nat, arg1: nat, arg2: nat, arg3: nat, arg4: nat, arg5: nat, arg6: nat,
                       result: nat, sp: nat, ip: nat)

  function Peek(a: Arch, b: Bank, r: Reg): nat {
    match r
    case Num => b.num
    case Result => b.result
    case StackPointer => b.sp
    case InstrPointer => b.ip
    case Arg(i) =>
      if i == 1 then (if a.Arm? then b.result else b.arg1)
      else if i == 2 then b.arg2
      else if i == 3 then b.arg3
      else if i == 4 then b.arg4
      else if i == 5 then b.arg5
      else b.arg6
  }

  function Poked(a: Arch, b: Bank, r: Reg, v: nat): Bank {
    match r
    case Num => b.(num := v)
    case Result => b.(result := v)
    case StackPointer => b.(sp := v)
    case InstrPointer => b.(ip := v)
    case Arg(i) =>
      if i == 1 then (if a.Arm? then b.(result := v) else b.(arg1 := v))
      else if i == 2 then b.(arg2 := v)
      else if i == 3 then b.(arg3 := v)
      else if i == 4 then b.(arg4 := v)
      else if i == 5 then b.(arg5 := v)
      else b.(arg6 := v)
  }

  type SixArgs = s: seq<nat> | |s| == 6 witness [0, 0, 0, 0, 0, 0]

  function Arguments(a: Arch, b: Bank): SixArgs {
    seq(6, i requires 0 <= i < 6 => Peek(a, b, Arg(i + 1)))
  }

  /** SYSTRAP_NUM */
  function TrapRegister(a: Arch): Reg {
    if a.X86? then Result else Num
  }

  /** What is restored at the very end of a syscall: all but the result. */
  function Restored(a: Arch, current: Bank, original: Bank): Bank {
    Bank(original.num, if a.Arm? then current.arg1 else original.arg1,
         original.arg2, original.arg3, original.arg4, original.arg5, original.arg6,
         current.result, original.sp, current.ip)
  }

  // ---------------------------------------------------------------------
  // The tracer
  // ---------------------------------------------------------------------

  /** A syscall to issue; its number is already that of the ABI. */
  datatype Call = Call(num: nat, args: SixArgs)

  datatype State = State(current: Bank, original: Bank, changed: bool, restore: bool,
                         chain: Option<seq<Call>>, forced: Option<nat>)

  function WithReg(a: Arch, s: State, r: Reg, v: nat): State {
    if Peek(a, s.current, r) == v then s else s.(current := Poked(a, s.current, r, v), changed := true)
  }

  function WithArgs(a: Arch, s: State, args: SixArgs, n: nat): State
    requires n <= 6
  {
    if n == 0 then s else WithReg(a, WithArgs(a, s, args, n - 1), Arg(n), args[n - 1])
  }

  /** The registers that make the trap issue `c` again. */
  function Forged(a: Arch, trap: nat, s: State, c: Call): State
    requires trap <= s.current.ip
  {
    Renumbered(a, WithArgs(a, s, c.args, 6), c.num, s.current.ip - trap)
  }

  /** With this number, and back at the trap. */
  function Renumbered(a: Arch, s: State, num: nat, ip: nat): State {
    WithReg(a, WithReg(a, s, TrapRegister(a), num), InstrPointer, ip)
  }

  function ChainedNext(a: Arch, trap: nat, s: State): State
    requires s.chain.Some? && trap <= s.current.ip
  {
    var q := s.chain.value;
    if q == [] then
      var s1 := s.(chain := None);
      var s2 := if s.forced.Some? then WithReg(a, s1, Result, s.forced.value) else s1;
      s2.(forced := None)
    else
      Forged(a, trap, s.(restore := false, chain := Some(q[1..])), q[0])
  }

  /** The tracer's state and the registers of the process, after pushing. */
  function Pushed(a: Arch, s: State, kernel: Bank): (State, Bank) {
    if s.changed then
      var s1 := if s.restore then s.(current := Restored(a, s.current, s.original)) else s;
      (s1, s1.current)
    else (s, kernel)
  }

  /** The exit stage, for a syscall whose translation does not touch the chain. */
  function ExitStage(a: Arch, trap: nat, s: State, kernel: Bank): (State, Bank)
    requires trap <= kernel.ip
  {
    var s1 := s.(current := kernel, restore := true);
    Pushed(a, if s1.chain.Some? then ChainedNext(a, trap, s1) else s1, kernel)
  }

  /** The enter stage of a chained syscall: no translation. */
  function ChainedEnterStage(a: Arch, s: State, kernel: Bank): (r: (State, Bank))
    ensures r.1 == kernel
  {
    Pushed(a, s.(current := kernel, restore := false), kernel)
  }

  /** What the handlers of a syscall do to its chain: queue a call, or force the
      result that the guest will see. */
  datatype Action = Register(c: Call, atFront: bool) | Force(v: nat)

  function Performed(s: State, act: Action): State {
    match act
    case Force(v) => s.(forced := Some(v))
    case Register(c, atFront) =>
      var q := if s.chain.Some? then s.chain.value else [];
      s.(chain := Some(if atFront then [c] + q else q + [c]))
  }

  function PerformedAll(s: State, acts: seq<Action>): State {
    if acts == [] then s else Performed(PerformedAll(s, acts[..|acts| - 1]), acts[|acts| - 1])
  }

  /** The calls queued at the front, the last one first. */
  function Fronts(acts: seq<Action>): seq<Call> {
    if acts == [] then []
    else
      match acts[|acts| - 1]
      case Register(c, true) => [c] + Fronts(acts[..|acts| - 1])
      case _ => Fronts(acts[..|acts| - 1])
  }

  /** The other calls, in order. */
  function Backs(acts: seq<Action>): seq<Call> {
    if acts == [] then []
    else
      match acts[|acts| - 1]
      case Register(c, false) => Backs(acts[..|acts| - 1]) + [c]
      case _ => Backs(acts[..|acts| - 1])
  }

  function LastForced(acts: seq<Action>): Option<nat> {
    if acts == [] then None
    else
      match acts[|acts| - 1]
      case Force(v) => Some(v)
      case _ => LastForced(acts[..|acts| - 1])
  }

  /** The cached registers, updated in place. */
  class Tracee {
    const arch: Arch
    const trap: nat
    var kernel: Bank
    var current: Bank
    var original: Bank
    var changed: bool
    var restore: bool
    var chain: Option<seq<Call>>
    var forced: Option<nat>

    constructor (arch: Arch, trap: nat, kernel: Bank, s: State)
      ensures this.arch == arch && this.trap == trap && this.kernel == kernel && Abstract() == s
    {
      this.arch, this.trap, this.kernel := arch, trap, kernel;
      current, original, changed, restore := s.current, s.original, s.changed, s.restore;
      chain, forced := s.chain, s.forced;
    }

    function Abstract(): State
      reads this
    {
      State(current, original, changed, restore, chain, forced)
    }

    /** poke_reg() */
    method PokeReg(r: Reg, v: nat)
      modifies this`current, this`changed
      ensures Abstract() == WithReg(arch, old(Abstract()), r, v)
    {
      if Peek(arch, current, r) == v {
        return;
      }
      current := Poked(arch, current, r, v);
      changed := true;
    }

    /** push_specific_regs() */
    method PushRegs()
      modifies this`current, this`kernel
      ensures (Abstract(), kernel) == Pushed(arch, old(Abstract()), old(kernel))
    {
      if changed {
        if restore {
          current := current.(num := original.num, arg2 := original.arg2, arg3 := original.arg3,
            arg4 := original.arg4, arg5 := original.arg5, arg6 := original.arg6, sp := original.sp);
          if !arch.Arm? {
            current := current.(arg1 := original.arg1);
          }
        }
        kernel := current;
      }
    }

    /** register_chained_syscall_internal(): at the head or at the tail of the queue. */
    method RegisterChained(c: Call, atFront: bool)
      modifies this`chain
      ensures Abstract() == Performed(old(Abstract()), Register(c, atFront))
    {
      if chain.None? {
        chain := Some([]);
      }
      chain := Some(if atFront then [c] + chain.value else chain.value + [c]);
    }

    /** force_chain_final_result() */
    method ForceFinalResult(v: nat)
      modifies this`forced
      ensures Abstract() == Performed(old(Abstract()), Force(v))
    {
      forced := Some(v);
    }

    /** What handlers do, in turn. */
    method Perform(acts: seq<Action>)
      modifies this`chain, this`forced
      ensures Abstract() == PerformedAll(old(Abstract()), acts)
    {
      var i := 0;
      ghost var s := Abstract();
      while i < |acts|
        invariant 0 <= i <= |acts| && Abstract() == PerformedAll(s, acts[..i])
      {
        assert acts[..i + 1][..i] == acts[..i];
        match acts[i] {
          case Register(c, atFront) => RegisterChained(c, atFront);
          case Force(v) => ForceFinalResult(v);
        }
        i := i + 1;
      }
      assert acts[..|acts|] == acts;
    }

    /** chain_next_syscall() */
    method ChainNext()
      requires chain.Some? && trap <= current.ip
      modifies this`current, this`changed, this`restore, this`chain, this`forced
      ensures Abstract() == ChainedNext(arch, trap, old(Abstract()))
    {
      if chain.value == [] {
        chain := None;
        if forced.Some? {
          PokeReg(Result, forced.value);
        }
        forced := None;
        return;
      }
      restore := false;
      var c := chain.value[0];
      chain := Some(chain.value[1..]);
      ghost var s := Abstract();
      var i := 0;
      while i < 6
        invariant 0 <= i <= 6 && Abstract() == WithArgs(arch, s, c.args, i)
      {
        PokeReg(Arg(i + 1), c.args[i]);
        i := i + 1;
      }
      PokeReg(TrapRegister(arch), c.num);
      KeepsIp(arch, s, c);
      PokeReg(InstrPointer, current.ip - trap);
    }

    /** The end of translate_syscall() at the exit stage. */
    method Exit()
      requires trap <= kernel.ip
      modifies this
      ensures (Abstract(), kernel) == ExitStage(arch, trap, old(Abstract()), old(kernel))
      ensures old(chain).None? ==> Resumes(arch, old(changed), old(original), old(kernel), kernel)
    {
      current := kernel;
      restore := true;
      if chain.Some? {
        ChainNext();
      }
      PushRegs();
    }
  }

  lemma {:induction false} KeepsIp(a: Arch, s: State, c: Call)
    ensures WithReg(a, WithArgs(a, s, c.args, 6), TrapRegister(a), c.num).current.ip == s.current.ip
  {
    WithArgsIs(a, s, c.args, 6);
  }

  /** Poking the arguments changes them and nothing else. */
  lemma {:induction false} WithArgsIs(a: Arch, s: State, args: SixArgs, n: nat)
    requires n <= 6
    ensures var t := WithArgs(a, s, args, n);
            && (forall i :: 1 <= i <= n ==> Peek(a, t.current, Arg(i)) == args[i - 1])
            && t.current.num == s.current.num && t.current.ip == s.current.ip && t.current.sp == s.current.sp
            && (a.X86? ==> t.current.result == s.current.result)
            && t.original == s.original && t.restore == s.restore && t.chain == s.chain && t.forced == s.forced
            && (s.changed ==> t.changed)
  {
    if n > 0 {
      WithArgsIs(a, s, args, n - 1);
    }
  }

  // ---------------------------------------------------------------------
  // The machine
  // ---------------------------------------------------------------------

  const ENOSYS: nat := 0xffff_ffff_ffff_ffda

  /** The process executes its trap: x86 saves the number and clears the result. */
  function Trapped(a: Arch, trap: nat, k: Bank): Bank {
    if a.X86? then k.(num := k.result, result := ENOSYS, ip := k.ip + trap) else k.(ip := k.ip + trap)
  }

  /** What the kernel is asked for. */
  function Issued(a: Arch, k: Bank): Call {
    Call(k.num, Arguments(a, k))
  }

  datatype World = World(tracer: State, kernel: Bank, log: seq<Call>)

  /** How a chained syscall ends: the answer of the kernel, or the one that the extensions
      told about it put in its place, and what these do to the chain. */
  datatype Reply = Reply(answer: nat, acts: seq<Action>)

  /** One more execution of the trap, up to the end of its exit stage. */
  function Round(a: Arch, trap: nat, w: World, r: Reply): World {
    var (s1, k1) := ChainedEnterStage(a, w.tracer, Trapped(a, trap, w.kernel));
    var (s2, k2) := ExitStage(a, trap, PerformedAll(s1, r.acts), k1.(result := r.answer));
    World(s2, k2, w.log + [Issued(a, k1)])
  }

  /** As long as the kernel answers and the chain is not finished. */
  function Run(a: Arch, trap: nat, w: World, replies: seq<Reply>): World
    decreases |replies|
  {
    if replies == [] || w.tracer.chain.None? then w
    else Run(a, trap, Round(a, trap, w, replies[0]), replies[1..])
  }

  /** What only the registers tell apart. */
  predicate SameBut(s: State, t: State) {
    t.original == s.original && t.restore == s.restore && t.chain == s.chain && t.forced == s.forced
  }

  /** The number and the instruction pointer leave the arguments alone. */
  lemma {:induction false} NumberAndTrap(a: Arch, s: State, num: nat, ip: nat, i: nat)
    requires 1 <= i <= 6
    ensures var t := Renumbered(a, s, num, ip);
            && t.current.ip == ip && Peek(a, t.current, TrapRegister(a)) == num
            && Peek(a, t.current, Arg(i)) == Peek(a, s.current, Arg(i))
            && SameBut(s, t) && (s.current.ip != ip ==> t.changed)
  {
  }

  /** Forging: the trap is next, and it will read exactly the call. */
  lemma {:induction false} ForgedIs(a: Arch, trap: nat, s: State, c: Call)
    requires trap <= s.current.ip
    ensures var t := Forged(a, trap, s, c);
            && t.current.ip + trap == s.current.ip
            && Peek(a, t.current, TrapRegister(a)) == c.num
            && Arguments(a, t.current) == c.args
            && t.original == s.original && t.restore == s.restore && t.chain == s.chain && t.forced == s.forced
            && (trap > 0 ==> t.changed)
  {
    var s1 := WithArgs(a, s, c.args, 6);
    WithArgsIs(a, s, c.args, 6);
    RenumberedIs(a, s1, c, s.current.ip - trap);
  }

  lemma {:induction false} RenumberedIs(a: Arch, s: State, c: Call, ip: nat)
    requires forall i :: 1 <= i <= 6 ==> Peek(a, s.current, Arg(i)) == c.args[i - 1]
    ensures var t := Renumbered(a, s, c.num, ip);
            && t.current.ip == ip && Peek(a, t.current, TrapRegister(a)) == c.num && Arguments(a, t.current) == c.args
            && SameBut(s, t) && (s.current.ip != ip ==> t.changed)
  {
    var t := Renumbered(a, s, c.num, ip);
    NumberAndTrap(a, s, c.num, ip, 1);
    forall i | 0 <= i < 6 ensures Arguments(a, t.current)[i] == c.args[i] {
      NumberAndTrap(a, s, c.num, ip, i + 1);
      assert Peek(a, s.current, Arg(i + 1)) == c.args[i];
    }
  }

  // ---------------------------------------------------------------------
  // What a chain does
  // ---------------------------------------------------------------------

  /** A register that is poked has its new value, no other one changes but the one that it
      aliases, and the bank counts as changed exactly if it did before or the value is
      another. */
  lemma {:induction false} PokeIs(a: Arch, s: State, reg: Reg, v: nat, other: Reg)
    requires (reg.Arg? ==> 1 <= reg.i <= 6) && (other.Arg? ==> 1 <= other.i <= 6)
    ensures var t := WithReg(a, s, reg, v);
            && Peek(a, t.current, reg) == v
            && (t.changed <==> s.changed || Peek(a, s.current, reg) != v)
            && (other != reg && !(a == Arm && {reg, other} == {Arg(1), Result}) ==>
                  Peek(a, t.current, other) == Peek(a, s.current, other))
            && t.original == s.original && t.chain == s.chain && t.forced == s.forced && t.restore == s.restore
  {
  }

  /** A queue after these actions: what was put at its front, then what was there. */
  function QueueAfter(q: seq<Call>, acts: seq<Action>): seq<Call> {
    Fronts(acts) + q + Backs(acts)
  }

  function ForcedAfter(forced: Option<nat>, acts: seq<Action>): Option<nat> {
    if LastForced(acts).Some? then LastForced(acts) else forced
  }

  function Queue(s: State): seq<Call> {
    if s.chain.Some? then s.chain.value else []
  }

  lemma {:induction false} PerformedAllIs(s: State, acts: seq<Action>)
    ensures var q := QueueAfter(Queue(s), acts);
            PerformedAll(s, acts) == s.(chain := if q == [] then s.chain else Some(q),
                                        forced := ForcedAfter(s.forced, acts))
    decreases |acts|
  {
    if acts == [] {
      assert QueueAfter(Queue(s), acts) == Queue(s);
    } else {
      var init := acts[..|acts| - 1];
      PerformedAllIs(s, init);
      match acts[|acts| - 1] {
        case Force(_) =>
        case Register(c, atFront) =>
          assert ([c] + Fronts(init)) + Queue(s) + Backs(init) == [c] + (Fronts(init) + Queue(s) + Backs(init));
          assert Fronts(init) + Queue(s) + (Backs(init) + [c]) == (Fronts(init) + Queue(s) + Backs(init)) + [c];
      }
    }
  }

  /** The exit of a syscall that chains nothing: if the tracer changed a register since the
      entry, the guest gets its own number, arguments and stack pointer back, but for what
      holds the result; else the process is left as it is. */
  lemma {:induction false} OrdinaryExit(a: Arch, trap: nat, s: State, kernel: Bank)
    requires s.chain.None? && trap <= kernel.ip
    ensures var (s', k) := ExitStage(a, trap, s, kernel);
            && s'.chain.None? && s'.forced == s.forced && s'.original == s.original
            && Resumes(a, s.changed, s.original, kernel, k)
  {
  }

  /** What the guest goes on with. */
  ghost predicate Resumes(a: Arch, changed: bool, original: Bank, kernel: Bank, k: Bank) {
    if !changed then k == kernel
    else
      && k.num == original.num && (a == X86 ==> k.arg1 == original.arg1) && k.arg2 == original.arg2
      && k.arg3 == original.arg3 && k.arg4 == original.arg4 && k.arg5 == original.arg5 && k.arg6 == original.arg6
      && k.sp == original.sp && k.result == kernel.result && k.ip == kernel.ip
  }

  /** The process is about to execute its trap for `c`, with `rest` to follow. */
  ghost predicate Ready(a: Arch, trap: nat, w: World, c: Call, rest: seq<Call>) {
    && trap > 0 && w.tracer.chain == Some(rest) && w.tracer.changed
    && w.kernel.ip + trap == w.tracer.original.ip
    && Peek(a, w.kernel, TrapRegister(a)) == c.num && Arguments(a, w.kernel) == c.args
  }

  /** The guest sees its own registers again, past its trap, and a result. */
  ghost predicate GuestSees(a: Arch, k: Bank, original: Bank, result: nat) {
    && k.ip == original.ip && k.sp == original.sp && k.num == original.num && k.result == result
    && forall i :: 1 <= i <= 6 && !(a.Arm? && i == 1) ==> Peek(a, k, Arg(i)) == Peek(a, original, Arg(i))
  }

  function ResultOf(forced: Option<nat>, answer: nat): nat {
    if forced.Some? then forced.value else answer
  }

  /** The chain is over, and the guest goes on with this result. */
  ghost predicate Over(a: Arch, w: World, original: Bank, result: nat) {
    w.tracer.chain == None && w.tracer.forced == None && GuestSees(a, w.kernel, original, result)
  }

  /** The exit stage of the guest's syscall starts the chain. */
  lemma {:induction false} ChainStarts(a: Arch, trap: nat, s: State, kernel: Bank, log: seq<Call>)
    requires s.chain.Some? && s.chain.value != []
    requires 0 < trap <= kernel.ip == s.original.ip
    ensures var (s', k') := ExitStage(a, trap, s, kernel);
            && Ready(a, trap, World(s', k', log), s.chain.value[0], s.chain.value[1..])
            && s'.original == s.original && s'.forced == s.forced
  {
    var q := s.chain.value;
    var s1 := s.(current := kernel, restore := false, chain := Some(q[1..]));
    ForgedIs(a, trap, s1, q[0]);
  }

  /** The last exit stage gives back the guest's registers. */
  lemma {:induction false} ChainEnds(a: Arch, trap: nat, s: State, kernel: Bank, log: seq<Call>)
    requires s.chain == Some([]) && s.changed && trap <= kernel.ip == s.original.ip
    ensures var (s', k') := ExitStage(a, trap, s, kernel);
            Over(a, World(s', k', log), s.original, ResultOf(s.forced, kernel.result)) && s'.original == s.original
  {
  }

  /** One round issues its call, then makes ready for the next or gives back the guest's
      registers. */
  lemma {:induction false} RoundIs(a: Arch, trap: nat, w: World, c: Call, rest: seq<Call>, r: Reply)
    requires Ready(a, trap, w, c, rest)
    ensures var w' := Round(a, trap, w, r);
            var q, forced := QueueAfter(rest, r.acts), ForcedAfter(w.tracer.forced, r.acts);
            && w'.log == w.log + [c] && w'.tracer.original == w.tracer.original
            && (q != [] ==> Ready(a, trap, w', q[0], q[1..]) && w'.tracer.forced == forced)
            && (q == [] ==> Over(a, w', w.tracer.original, ResultOf(forced, r.answer)))
  {
    var k1 := Trapped(a, trap, w.kernel);
    IssuedIs(a, trap, w.kernel, c);
    var s1 := ChainedEnterStage(a, w.tracer, k1).0;
    assert s1 == w.tracer.(current := k1, restore := false);
    PerformedAllIs(s1, r.acts);
    var s2, k2 := PerformedAll(s1, r.acts), k1.(result := r.answer);
    if QueueAfter(rest, r.acts) != [] {
      ChainStarts(a, trap, s2, k2, w.log + [c]);
    } else {
      ChainEnds(a, trap, s2, k2, w.log + [c]);
    }
  }

  lemma {:induction false} IssuedIs(a: Arch, trap: nat, k: Bank, c: Call)
    requires Peek(a, k, TrapRegister(a)) == c.num && Arguments(a, k) == c.args
    ensures Issued(a, Trapped(a, trap, k)) == c
  {
    var t := Trapped(a, trap, k);
    assert forall i :: 0 <= i < 6 ==> Arguments(a, t)[i] == Arguments(a, k)[i];
    assert Arguments(a, t) == Arguments(a, k);
  }

  /** The calls of a queue that these replies extend on the way, in order. */
  function Calls(q: seq<Call>, replies: seq<Reply>): seq<Call>
    decreases |replies|
  {
    if q == [] || replies == [] then [] else [q[0]] + Calls(QueueAfter(q[1..], replies[0].acts), replies[1..])
  }

  /** The queue is exhausted right after the last of these replies. */
  predicate Exhausted(q: seq<Call>, replies: seq<Reply>)
    decreases |replies|
  {
    if q == [] || replies == [] then q == [] && replies == []
    else Exhausted(QueueAfter(q[1..], replies[0].acts), replies[1..])
  }

  /** The result forced last, before or during the chain. */
  function FinallyForced(forced: Option<nat>, replies: seq<Reply>): Option<nat>
    decreases |replies|
  {
    if replies == [] then forced else FinallyForced(ForcedAfter(forced, replies[0].acts), replies[1..])
  }

  /** Any chain, from its first forged call. */
  lemma {:induction false} ChainRuns(a: Arch, trap: nat, w: World, c: Call, rest: seq<Call>, replies: seq<Reply>)
    requires Ready(a, trap, w, c, rest) && Exhausted([c] + rest, replies)
    ensures replies != []
    ensures var w' := Run(a, trap, w, replies);
            && w'.log == w.log + Calls([c] + rest, replies)
            && Over(a, w', w.tracer.original,
                    ResultOf(FinallyForced(w.tracer.forced, replies), replies[|replies| - 1].answer))
    decreases |replies|
  {
    var r := replies[0];
    assert ([c] + rest)[0] == c && ([c] + rest)[1..] == rest;
    RoundIs(a, trap, w, c, rest, r);
    var w1, q := Round(a, trap, w, r), QueueAfter(rest, r.acts);
    Regroup(w.log, [c], Calls(q, replies[1..]));
    if q != [] {
      assert [q[0]] + q[1..] == q;
      ChainRuns(a, trap, w1, q[0], q[1..], replies[1..]);
    } else {
      assert replies[1..] == [] && w.log + [c] + [] == w.log + [c];
    }
  }

  /** From the exit stage of a guest's syscall whose handlers queued `q`, and whatever the
      extensions register and force on the way: every call is issued once, in order and
      without translation of the guest; then the guest continues after its trap with its
      own registers and the result of the last call, or the one forced last. */
  lemma {:induction false} ChainIsFaithful(a: Arch, trap: nat, s: State, kernel: Bank, q: seq<Call>,
                                           replies: seq<Reply>)
    requires s.chain == Some(q) && q != [] && Exhausted(q, replies)
    requires 0 < trap <= kernel.ip == s.original.ip
    ensures replies != []
    ensures var (s', k') := ExitStage(a, trap, s, kernel);
            var w := Run(a, trap, World(s', k', []), replies);
            && w.log == Calls(q, replies)
            && Over(a, w, s.original, ResultOf(FinallyForced(s.forced, replies), replies[|replies| - 1].answer))
  {
    ChainStarts(a, trap, s, kernel, []);
    var (s', k') := ExitStage(a, trap, s, kernel);
    assert [q[0]] + q[1..] == q;
    ChainRuns(a, trap, World(s', k', []), q[0], q[1..], replies);
    assert [] + Calls(q, replies) == Calls(q, replies);
  }

  /** Replies of extensions that leave the chain alone. */
  function Plain(answers: seq<nat>): seq<Reply> {
    if answers == [] then [] else [Reply(answers[0], [])] + Plain(answers[1..])
  }

  lemma {:induction false} PlainReplies(q: seq<Call>, answers: seq<nat>, forced: Option<nat>)
    requires |answers| == |q|
    ensures Calls(q, Plain(answers)) == q && Exhausted(q, Plain(answers))
    ensures FinallyForced(forced, Plain(answers)) == forced && |Plain(answers)| == |answers|
    ensures q != [] ==> Plain(answers)[|q| - 1].answer == answers[|q| - 1]
  {
    if q != [] {
      assert QueueAfter(q[1..], []) == q[1..];
      assert Plain(answers)[1..] == Plain(answers[1..]);
      PlainReplies(q[1..], answers[1..], forced);
    }
  }

  /** Whatever the handlers of a syscall register and force, in whatever order:
      the calls queued at the front are issued first, the last of them before
      the others, then the rest in order; and the guest sees the result forced
      last, or else that of the last call. */
  lemma {:induction false} HandlersAreHonoured(a: Arch, trap: nat, s: State, kernel: Bank, acts: seq<Action>,
                                               answers: seq<nat>)
    requires s.chain.None? && s.forced.None?
    requires |answers| == |Fronts(acts) + Backs(acts)| > 0
    requires 0 < trap <= kernel.ip == s.original.ip
    ensures var (s', k') := ExitStage(a, trap, PerformedAll(s, acts), kernel);
            var w := Run(a, trap, World(s', k', []), Plain(answers));
            && w.log == Fronts(acts) + Backs(acts)
            && Over(a, w, s.original, ResultOf(LastForced(acts), answers[|answers| - 1]))
  {
    var q := Fronts(acts) + Backs(acts);
    PerformedAllIs(s, acts);
    assert QueueAfter([], acts) == q;
    PlainReplies(q, answers, LastForced(acts));
    ChainIsFaithful(a, trap, PerformedAll(s, acts), kernel, q, Plain(answers));
  }

  /** restart_original_syscall(): what is queued. */
  function OriginalCall(a: Arch, s: State): Call {
    Call(s.original.num, Arguments(a, s.original))
  }

  /** Restarting the original syscall issues exactly what the guest asked for, and the
      guest gets its answer. */
  lemma {:induction false} RestartOriginal(a: Arch, trap: nat, s: State, kernel: Bank, answer: nat)
    requires s.chain == Some([OriginalCall(a, s)]) && s.forced == None
    requires 0 < trap <= kernel.ip == s.original.ip
    ensures var (s', k') := ExitStage(a, trap, s, kernel);
            var w := Run(a, trap, World(s', k', []), Plain([answer]));
            w.log == [Issued(a, s.original)] && Over(a, w, s.original, answer)
  {
    PlainReplies([OriginalCall(a, s)], [answer], None);
    ChainIsFaithful(a, trap, s, kernel, [OriginalCall(a, s)], Plain([answer]));
  }
}
