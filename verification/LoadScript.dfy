/**
The load script: statements coded as words, the loader that interprets them,
and the process image that it leaves.
 */
module LoadScript {
  import opened Common
  import opened Loading
  import opened Pages

  datatype StartArgs = StartArgs(stackPointer: nat, entryPoint: nat, atPhdr: nat, atPhent: nat, atPhnum: nat,
                                 atEntry: nat, atExecfn: nat)

  datatype Statement =
    | OpenNext(path: nat)
    | Open(path: nat)
    | MmapFile(mapping: Mapping)
    | MmapAnonymous(mapping: Mapping)
    | MakeStackExec(start: nat)
    | StartTraced(args: StartArgs)
    | Start(args: StartArgs)

  // ---------------------------------------------------------------------
  // Words
  // ---------------------------------------------------------------------

  function Words(st: Statement): seq<nat> {
    match st
    case OpenNext(path) => [0, path]
    case Open(path) => [1, path]
    case MmapFile(p) => [2, p.addr, p.length, p.prot, p.offset, p.clearLength]
    case MmapAnonymous(p) => [3, p.addr, p.length, p.prot, p.offset, p.clearLength]
    case MakeStackExec(start) => [4, start]
    case StartTraced(a) => [5] + ArgWords(a)
    case Start(a) => [6] + ArgWords(a)
  }

  function ArgWords(a: StartArgs): seq<nat> {
    [a.stackPointer, a.entryPoint, a.atPhdr, a.atPhent, a.atPhnum, a.atEntry, a.atExecfn]
  }

  function AllWords(script: seq<Statement>): seq<nat> {
    if script == [] then [] else Words(script[0]) + AllWords(script[1..])
  }

  /** The statement of a mapping. */
  function StatementOf(p: Mapping): Statement {
    if p.anonymous then MmapAnonymous(p) else MmapFile(p)
  }

  function StatementsOf(ms: seq<Mapping>): seq<Statement> {
    if ms == [] then [] else [StatementOf(ms[0])] + StatementsOf(ms[1..])
  }

  /** Statements that words can express. */
  predicate Coded(st: Statement) {
    match st
    case MmapFile(p) => !p.anonymous && p.clearLength <= p.addr + p.length
    case MmapAnonymous(p) => p.anonymous
    case _ => true
  }

  /** The script ends by starting the program, and only there. */
  predicate Complete(script: seq<Statement>) {
    && script != []
    && (forall i :: 0 <= i < |script| ==> Coded(script[i]))
    && (forall i :: 0 <= i < |script| ==> (Starting(script[i]) <==> i == |script| - 1))
  }

  predicate Starting(st: Statement) {
    st.Start? || st.StartTraced?
  }

  // ---------------------------------------------------------------------
  // Meaning of a script
  // ---------------------------------------------------------------------

  /** What the loader needs of the kernel: the page size, and the file at each path address. */
  datatype Kernel = Kernel(page: nat, files: map<nat, File>)

  datatype Loader = Loader(memory: Memory, fd: Option<File>, atBase: nat, resetAtBase: bool)

  datatype Outcome =
    | Running(loader: Loader)
    | Started(loader: Loader, args: StartArgs, traced: bool)
    | Fatal
    | Killed

  function OpenFile(k: Kernel, path: nat, l: Loader): Outcome {
    if path in k.files then Running(l.(fd := Some(k.files[path]), resetAtBase := true)) else Fatal
  }

  /** What mmap(2) accepts with MAP_FIXED. */
  predicate Mappable(p: Mapping, page: nat)
    requires page > 0
  {
    p.length > 0 && p.addr % page == 0 && p.offset % page == 0
  }

  function MapOne(k: Kernel, p: Mapping, file: File, l: Loader): Outcome
    requires k.page > 0 && p.clearLength <= p.addr + p.length
  {
    if !Mappable(p, k.page) then Fatal
    else
      match MapStep(l.memory, p, file, k.page)
      case None => Killed
      case Some(m) =>
        if !p.anonymous && l.resetAtBase
        then Running(l.(memory := m, atBase := p.addr, resetAtBase := false))
        else Running(l.(memory := m))
  }

  function Step(k: Kernel, st: Statement, l: Loader): Outcome
    requires k.page > 0 && Coded(st)
  {
    match st
    case OpenNext(path) => if l.fd.None? then Fatal else OpenFile(k, path, l)
    case Open(path) => OpenFile(k, path, l)
    case MmapFile(p) => if l.fd.None? then Fatal else MapOne(k, p, l.fd.value, l)
    case MmapAnonymous(p) => MapOne(k, p.(offset := 0, clearLength := 0), [], l)
    case MakeStackExec(start) => Running(l)
    case StartTraced(args) => if l.fd.None? then Fatal else Started(l, args, true)
    case Start(args) => if l.fd.None? then Fatal else Started(l, args, false)
  }

  function Execute(k: Kernel, script: seq<Statement>, l: Loader): Outcome
    requires k.page > 0 && forall i :: 0 <= i < |script| ==> Coded(script[i])
    decreases |script|
  {
    if script == [] then Running(l)
    else
      match Step(k, script[0], l)
      case Running(l') => Execute(k, script[1..], l')
      case other => other
  }

  // ---------------------------------------------------------------------
  // The loader
  // ---------------------------------------------------------------------

  lemma {:induction false} AllWordsCons(script: seq<Statement>, words: seq<nat>, cursor: nat)
    requires script != [] && cursor <= |words| && words[cursor..] == AllWords(script)
    ensures var n := |Words(script[0])|;
            && cursor + n <= |words| && Words(script[0]) <= words[cursor..]
            && words[cursor + n..] == AllWords(script[1..])
  {
    var n := |Words(script[0])|;
    assert words[cursor + n..] == words[cursor..][n..];
  }

  /** What clear() leaves of a memory. */
  ghost predicate IsCleared(m: Memory, start: nat, end: nat, r: Option<Memory>) {
    start <= end && r == ClearedIn(m, start, end)
  }

  lemma {:induction false} MappedOnly(m: Memory, p: Mapping, file: File, page: nat)
    requires page > 0 && p.clearLength <= p.addr + p.length && (p.anonymous || p.clearLength == 0)
    ensures MapStep(m, p, file, page) == Some(Mapped(m, p, file, page))
  {
  }

  lemma {:induction false} MappedAndCleared(m: Memory, p: Mapping, file: File, page: nat, r: Option<Memory>)
    requires page > 0 && p.clearLength <= p.addr + p.length && !p.anonymous && p.clearLength > 0
    requires IsCleared(Mapped(m, p, file, page), p.addr + p.length - p.clearLength, p.addr + p.length, r)
    ensures MapStep(m, p, file, page) == r
  {
  }

  /** The interpreter's variables, with the address space it maps. */
  class Interpreter {
    const k: Kernel
    var memory: Memory
    var fd: Option<File>
    var atBase: nat
    var resetAtBase: bool

    constructor (k: Kernel, memory: Memory)
      ensures this.k == k && State() == Loader(memory, None, 0, true)
    {
      this.k, this.memory, fd, atBase, resetAtBase := k, memory, None, 0, true;
    }

    function State(): Loader
      reads this
    {
      Loader(memory, fd, atBase, resetAtBase)
    }

    method OpenPath(path: nat) returns (ok: bool)
      modifies this`fd, this`resetAtBase
      ensures OpenFile(k, path, old(State())) == if ok then Running(State()) else Fatal
    {
      if path !in k.files {
        return false;
      }
      fd := Some(k.files[path]);
      resetAtBase := true;
      return true;
    }

    /** mmap(2) and clear(): the new memory, unless it kills the process. */
    method MapPages(p: Mapping, file: File) returns (r: Option<Memory>)
      requires k.page > 0 && p.clearLength <= p.addr + p.length
      ensures r == MapStep(memory, p, file, k.page)
    {
      var mapped := Mapped(memory, p, file, k.page);
      if p.anonymous || p.clearLength == 0 {
        MappedOnly(memory, p, file, k.page);
        return Some(mapped);
      }
      r := ClearEnd(mapped, p.addr + p.length - p.clearLength, p.addr + p.length);
      MappedAndCleared(memory, p, file, k.page, r);
    }

    static method ClearEnd(mapped: Memory, start: nat, end: nat) returns (r: Option<Memory>)
      requires start <= end
      ensures IsCleared(mapped, start, end, r)
    {
      var space := new AddressSpace();
      space.memory := mapped;
      var alive := space.Clear(start, end);
      r := if alive then Some(space.memory) else None;
    }

    /** A mmap statement. */
    method MapStatement(p: Mapping, file: File) returns (outcome: Outcome)
      requires k.page > 0 && p.clearLength <= p.addr + p.length
      modifies this
      ensures outcome == MapOne(k, p, file, old(State()))
      ensures outcome.Running? ==> outcome.loader == State()
    {
      if !Mappable(p, k.page) {
        return Fatal;
      }
      var r := MapPages(p, file);
      if r.None? {
        return Killed;
      }
      memory := r.value;
      if !p.anonymous && resetAtBase {
        atBase := p.addr;
        resetAtBase := false;
      }
      return Running(State());
    }

    /** The statement at the head of `words`: its outcome, and the number of its words. */
    method StepWords(words: seq<nat>, ghost st: Statement) returns (outcome: Outcome, size: nat)
      requires k.page > 0 && Coded(st) && Words(st) <= words
      modifies this
      ensures outcome == Step(k, st, old(State()))
      ensures outcome.Running? ==> outcome.loader == State() && size == |Words(st)|
    {
      assert forall i :: 0 <= i < |Words(st)| ==> words[i] == Words(st)[i];
      var action := words[0];
      size := 2;
      if action == 0 || action == 1 {
        if action == 0 && fd.None? {
          return Fatal, 0;
        }
        var ok := OpenPath(words[1]);
        outcome := if ok then Running(State()) else Fatal;
      } else if action == 2 {
        size := 6;
        if fd.None? {
          return Fatal, 0;
        }
        outcome := MapStatement(Mapping(words[1], words[2], words[3], words[4], words[5], false), fd.value);
      } else if action == 3 {
        size := 6;
        outcome := MapStatement(Mapping(words[1], words[2], words[3], 0, 0, true), []);
      } else if action == 4 {
        outcome := Running(State());
      } else {
        if fd.None? {
          return Fatal, 0;
        }
        var args := StartArgs(words[1], words[2], words[3], words[4], words[5], words[6], words[7]);
        outcome := Started(State(), args, action == 5);
      }
    }

    /** _start(): on the words of a complete script, the meaning of the script. */
    method Interpret(words: seq<nat>, ghost script: seq<Statement>) returns (outcome: Outcome)
      requires k.page > 0 && Complete(script) && words == AllWords(script)
      modifies this
      ensures outcome == Execute(k, script, old(State()))
    {
      var cursor: nat := 0;
      ghost var rest := script;
      while true
        invariant cursor <= |words| && words[cursor..] == AllWords(rest) && Complete(rest)
        invariant Execute(k, script, old(State())) == Execute(k, rest, State())
        decreases |rest|
      {
        AllWordsCons(rest, words, cursor);
        CompleteRest(rest);
        var size;
        outcome, size := StepWords(words[cursor..], rest[0]);
        if !outcome.Running? {
          return;
        }
        cursor := cursor + size;
        rest := rest[1..];
      }
    }
  }

  lemma {:induction false} CompleteRest(script: seq<Statement>)
    requires Complete(script)
    ensures Starting(script[0]) || Complete(script[1..])
  {
    var rest := script[1..];
    assert forall i :: 0 <= i < |rest| ==> rest[i] == script[i + 1];
  }

  // ---------------------------------------------------------------------
  // The script of a program
  // ---------------------------------------------------------------------

  /** An object to load: its segments, its load base and the address of its path. */
  datatype Object = Object(segments: seq<Segment>, base: nat, path: nat)

  function ObjectMappings(o: Object, page: nat): seq<Mapping>
    requires page > 0
  {
    Shift(AllMappings(o.segments, page), o.base)
  }

  function ObjectPart(opening: Statement, ms: seq<Mapping>): seq<Statement> {
    [opening] + StatementsOf(ms)
  }

  function LastPart(stackExec: Option<nat>, args: StartArgs, traced: bool): seq<Statement> {
    (match stackExec case None => [] case Some(start) => [MakeStackExec(start)]) +
    [if traced then StartTraced(args) else Start(args)]
  }

  /** The mappings of the interpreter, with the address of its path. */
  datatype Interp = Interp(path: nat, mappings: seq<Mapping>)

  function InterpPart(interp: Option<Interp>): seq<Statement> {
    match interp case None => [] case Some(o) => ObjectPart(OpenNext(o.path), o.mappings)
  }

  /** The script that transfer_load_script() writes. */
  function ScriptOf(path: nat, ms: seq<Mapping>, interp: Option<Interp>, stackExec: Option<nat>, args: StartArgs,
                    traced: bool): seq<Statement>
  {
    ObjectPart(Open(path), ms) + (InterpPart(interp) + LastPart(stackExec, args, traced))
  }

  function InterpOf(o: Option<Object>, page: nat): Option<Interp>
    requires page > 0
  {
    match o case None => None case Some(o) => Some(Interp(o.path, ObjectMappings(o, page)))
  }

  /** The script of a program and its interpreter. */
  function Script(k: Kernel, program: Object, interp: Option<Object>, stackExec: Option<nat>, args: StartArgs,
                  traced: bool): seq<Statement>
    requires k.page > 0
  {
    ScriptOf(program.path, ObjectMappings(program, k.page), InterpOf(interp, k.page), stackExec, args, traced)
  }

  ghost predicate AllCoded(script: seq<Statement>) {
    forall i :: 0 <= i < |script| ==> Coded(script[i])
  }

  lemma {:induction false} ExecuteAppend(k: Kernel, a: seq<Statement>, b: seq<Statement>, l: Loader)
    requires k.page > 0 && AllCoded(a) && AllCoded(b)
    ensures Execute(k, a + b, l) ==
            match Execute(k, a, l) case Running(l') => Execute(k, b, l') case other => other
    decreases |a|
  {
    if a == [] {
      assert a + b == b;
    } else {
      assert (a + b)[0] == a[0] && (a + b)[1..] == a[1..] + b;
      match Step(k, a[0], l)
      case Running(l') => ExecuteAppend(k, a[1..], b, l');
      case other =>
    }
  }

  lemma {:induction false} ExecuteOne(k: Kernel, st: Statement, l: Loader)
    requires k.page > 0 && Coded(st)
    ensures Execute(k, [st], l) == Step(k, st, l)
  {
    assert [st][1..] == [];
    if Step(k, st, l).Running? {
      assert Execute(k, [], Step(k, st, l).loader) == Step(k, st, l);
    }
  }

  ghost predicate AllMappable(ms: seq<Mapping>, page: nat)
    requires page > 0
  {
    forall i :: 0 <= i < |ms| ==> Mappable(ms[i], page)
  }

  lemma {:induction false} AnonymousIgnores(m: Memory, p: Mapping, file: File, page: nat)
    requires page > 0 && p.anonymous && p.clearLength <= p.addr + p.length
    ensures MapStep(m, p.(offset := 0, clearLength := 0), [], page) == MapStep(m, p, file, page)
  {
    assert Mapped(m, p.(offset := 0, clearLength := 0), [], page) == Mapped(m, p, file, page);
  }

  /** The loader after mapping at `addr` from an open file. */
  function Based(l: Loader, m: Memory, p: Mapping): Loader {
    if !p.anonymous && l.resetAtBase then l.(memory := m, atBase := p.addr, resetAtBase := false)
    else l.(memory := m)
  }

  lemma {:induction false} StepMapping(k: Kernel, p: Mapping, l: Loader)
    requires k.page > 0 && l.fd.Some? && Mappable(p, k.page) && p.clearLength <= p.addr + p.length
    ensures Coded(StatementOf(p))
    ensures Step(k, StatementOf(p), l) ==
            match MapStep(l.memory, p, l.fd.value, k.page) case None => Killed case Some(m) => Running(Based(l, m, p))
  {
    if p.anonymous {
      AnonymousIgnores(l.memory, p, l.fd.value, k.page);
      ZeroAligned(k.page);
    }
  }

  lemma {:induction false} ZeroAligned(page: nat)
    requires page > 0
    ensures 0 % page == 0
  {
  }

  /** The statements of mappings do what the mappings do. */
  lemma {:induction false} ExecuteMappings(k: Kernel, ms: seq<Mapping>, l: Loader)
    requires k.page > 0 && l.fd.Some? && Sane(ms) && AllMappable(ms, k.page) && !l.resetAtBase
    ensures AllCoded(StatementsOf(ms))
    ensures Execute(k, StatementsOf(ms), l) ==
            match MapAll(l.memory, ms, l.fd.value, k.page)
            case None => Killed
            case Some(m) => Running(l.(memory := m))
    decreases |ms|
  {
    if ms != [] {
      var p, rest := ms[0], ms[1..];
      assert StatementsOf(ms)[0] == StatementOf(p) && StatementsOf(ms)[1..] == StatementsOf(rest);
      StepMapping(k, p, l);
      match MapStep(l.memory, p, l.fd.value, k.page)
      case None => ExecuteMappings(k, rest, l);
      case Some(m) => ExecuteMappings(k, rest, l.(memory := m));
    }
  }

  /** The first mapping of a newly opened file also gives its base. */
  lemma {:induction false} ExecuteObject(k: Kernel, ms: seq<Mapping>, l: Loader)
    requires k.page > 0 && l.fd.Some? && Sane(ms) && AllMappable(ms, k.page)
    requires ms != [] && !ms[0].anonymous && l.resetAtBase
    ensures AllCoded(StatementsOf(ms))
    ensures Execute(k, StatementsOf(ms), l) ==
            match MapAll(l.memory, ms, l.fd.value, k.page)
            case None => Killed
            case Some(m) => Running(l.(memory := m, atBase := ms[0].addr, resetAtBase := false))
  {
    var p, rest := ms[0], ms[1..];
    assert StatementsOf(ms)[0] == StatementOf(p) && StatementsOf(ms)[1..] == StatementsOf(rest);
    StepMapping(k, p, l);
    var l' := l.(atBase := p.addr, resetAtBase := false);
    match MapStep(l.memory, p, l.fd.value, k.page)
    case None => ExecuteMappings(k, rest, l');
    case Some(m) => ExecuteMappings(k, rest, l'.(memory := m));
  }

  // ---------------------------------------------------------------------
  // The process image
  // ---------------------------------------------------------------------

  /** An object whose file can be opened and whose segments can be loaded. */
  ghost predicate Ready(k: Kernel, o: Object) {
    && k.page > 0 && o.path in k.files && o.segments != []
    && AllLoadable(o.segments, o.base, k.files[o.path], k.page) && Ascending(o.segments, k.page)
  }

  ghost predicate Survivable(k: Kernel, o: Object)
    requires Ready(k, o)
  {
    AllSurvive(o.segments, k.files[o.path], k.page)
  }

  ghost predicate Present(k: Kernel, o: Object, m: Memory)
    requires Ready(k, o)
  {
    Images(m, o.segments, o.base, k.files[o.path], k.page)
  }

  function LoadAddress(o: Object, page: nat): nat
    requires page > 0 && o.segments != []
  {
    Floor(o.segments[0].vaddr, page) + o.base
  }

  lemma {:induction false} SegmentMappable(s: Segment, base: nat, file: File, page: nat)
    requires Loadable(s, base, file, page)
    ensures AllMappable(Shift(Mappings(s, page), base), page)
  {
    var ms := Shift(Mappings(s, page), base);
    FileMappingBounds(s, base, file, page);
    MovedMappings(s, base, page);
    ZeroAligned(page);
    assert Mappable(ms[0], page);
    if |ms| == 2 {
      assert ms[1].addr == FileEnd(s, page) + base;
      assert Mappable(ms[1], page);
    }
  }

  lemma {:induction false} ObjectMappable(ss: seq<Segment>, base: nat, file: File, page: nat)
    requires AllLoadable(ss, base, file, page)
    ensures AllMappable(Shift(AllMappings(ss, page), base), page)
    decreases |ss|
  {
    if ss != [] {
      var n := |ss| - 1;
      assert forall i :: 0 <= i < n ==> ss[..n][i] == ss[i];
      ObjectMappable(ss[..n], base, file, page);
      SegmentMappable(ss[n], base, file, page);
      ShiftAppend(AllMappings(ss[..n], page), Mappings(ss[n], page), base);
    }
  }

  lemma {:induction false} FirstMapping(ss: seq<Segment>, base: nat, page: nat)
    requires page > 0 && ss != []
    ensures var ms := Shift(AllMappings(ss, page), base);
            ms != [] && !ms[0].anonymous && ms[0].addr == Floor(ss[0].vaddr, page) + base
    decreases |ss|
  {
    var n := |ss| - 1;
    if n > 0 {
      FirstMapping(ss[..n], base, page);
    } else {
      assert ss[..n] == [];
      assert AllMappings(ss, page) == Mappings(ss[0], page);
    }
  }

  /** The state after loading an object: its image, its base, and nothing else. */
  ghost predicate ObjectDone(k: Kernel, o: Object, l: Loader, outcome: Outcome)
    requires Ready(k, o)
  {
    if Survivable(k, o) then
      && outcome.Running?
      && outcome.loader.fd == Some(k.files[o.path])
      && outcome.loader.atBase == LoadAddress(o, k.page)
      && Present(k, o, outcome.loader.memory)
      && SameElsewhere(l.memory, outcome.loader.memory, o.segments, o.base, k.page)
    else outcome == Killed
  }

  lemma {:induction false} ObjectPhase(k: Kernel, o: Object, opening: Statement, l: Loader)
    requires Ready(k, o)
    requires opening == Open(o.path) || (opening == OpenNext(o.path) && l.fd.Some?)
    ensures var script := ObjectPart(opening, ObjectMappings(o, k.page));
            AllCoded(script) && ObjectDone(k, o, l, Execute(k, script, l))
  {
    var ms := ObjectMappings(o, k.page);
    var file := k.files[o.path];
    ObjectMappable(o.segments, o.base, file, k.page);
    FirstMapping(o.segments, o.base, k.page);
    ObjectLoads(l.memory, o.segments, o.base, file, k.page);
    var l' := l.(fd := Some(file), resetAtBase := true);
    ExecuteOne(k, opening, l);
    assert Step(k, opening, l) == Running(l');
    ExecuteObject(k, ms, l');
    ExecuteAppend(k, [opening], StatementsOf(ms), l);
  }

  /** The pages of the interpreter leave the program alone. */
  ghost predicate Apart(k: Kernel, program: Object, interp: Object)
    requires k.page > 0
  {
    forall i, a: nat ::
      0 <= i < |program.segments|
      && program.segments[i].vaddr + program.base <= a
         < program.segments[i].vaddr + program.base + program.segments[i].memsz ==>
        Untouched(interp.segments, interp.base, k.page, a)
  }

  lemma {:induction false} PresentKept(k: Kernel, program: Object, interp: Object, m: Memory, m': Memory)
    requires Ready(k, program) && Ready(k, interp) && Apart(k, program, interp)
    requires Present(k, program, m) && SameElsewhere(m, m', interp.segments, interp.base, k.page)
    ensures Present(k, program, m')
  {
    var file := k.files[program.path];
    forall i | 0 <= i < |program.segments| ensures Image(m', program.segments[i], program.base, file) {
      var s := program.segments[i];
      assert Image(m, s, program.base, file);
      forall a: nat | s.vaddr + program.base <= a < s.vaddr + program.base + s.memsz
        ensures a in m' && m'[a] == Cell(Content(s, file, a - s.vaddr - program.base), SegmentRights(s))
      {
        assert Untouched(interp.segments, interp.base, k.page, a);
      }
    }
  }

  /** Loading a program and its interpreter. */
  ghost predicate ProgramReady(k: Kernel, program: Object, interp: Option<Object>) {
    && Ready(k, program)
    && (interp.Some? ==> Ready(k, interp.value) && Apart(k, program, interp.value))
  }

  /** The end of the script: make the stack executable if needed, then start. */
  lemma {:induction false} LastPhase(k: Kernel, stackExec: Option<nat>, args: StartArgs, traced: bool, l: Loader)
    requires k.page > 0
    ensures AllCoded(LastPart(stackExec, args, traced))
    ensures l.fd.Some? ==> Execute(k, LastPart(stackExec, args, traced), l) == Started(l, args, traced)
  {
    var a := match stackExec case None => [] case Some(start) => [MakeStackExec(start)];
    var b := [if traced then StartTraced(args) else Start(args)];
    ExecuteOne(k, b[0], l);
    if stackExec.Some? {
      ExecuteOne(k, a[0], l);
    }
    ExecuteAppend(k, a, b, l);
  }

  ghost predicate InterpSurvives(k: Kernel, program: Object, interp: Option<Object>)
    requires ProgramReady(k, program, interp)
  {
    interp.Some? ==> Survivable(k, interp.value)
  }

  /** The program starts with everything in place, or its process is killed. */
  ghost predicate ProcessDone(k: Kernel, program: Object, interp: Option<Object>, args: StartArgs, traced: bool,
                              survives: bool, outcome: Outcome)
    requires ProgramReady(k, program, interp)
  {
    if survives then
      && outcome.Started? && outcome.args == args && outcome.traced == traced
      && Present(k, program, outcome.loader.memory)
      && (interp.Some? ==> Present(k, interp.value, outcome.loader.memory))
      && outcome.loader.atBase == LoadAddress(if interp.Some? then interp.value else program, k.page)
    else outcome == Killed
  }

  /** Loading preserves meaning: on any machine, the script of a program that can be
      loaded either kills the process, exactly when some segment can not be cleared, or
      starts it with every segment of the program and of its interpreter in place. */
  lemma {:induction false} ProcessImage(k: Kernel, program: Object, interp: Option<Object>, stackExec: Option<nat>,
                                        args: StartArgs,
                     traced: bool, l: Loader)
    requires ProgramReady(k, program, interp)
    ensures var script := Script(k, program, interp, stackExec, args, traced);
            && AllCoded(script)
            && ProcessDone(k, program, interp, args, traced,
                           Survivable(k, program) && InterpSurvives(k, program, interp), Execute(k, script, l))
  {
    var one := ObjectPart(Open(program.path), ObjectMappings(program, k.page));
    ObjectPhase(k, program, Open(program.path), l);
    var outcome := Execute(k, one, l);
    var l' := if outcome.Running? then outcome.loader else l.(fd := Some([]));
    AfterProgram(k, program, interp, stackExec, args, traced, l');
    ExecuteAppend(k, one, InterpPart(InterpOf(interp, k.page)) + LastPart(stackExec, args, traced), l);
  }

  lemma {:induction false} AfterProgram(k: Kernel, program: Object, interp: Option<Object>, stackExec: Option<nat>,
                                        args: StartArgs,
                     traced: bool, l: Loader)
    requires ProgramReady(k, program, interp) && l.fd.Some?
    ensures var script := InterpPart(InterpOf(interp, k.page)) + LastPart(stackExec, args, traced);
            && AllCoded(script)
            && (Present(k, program, l.memory) && l.atBase == LoadAddress(program, k.page) ==>
                  ProcessDone(k, program, interp, args, traced, InterpSurvives(k, program, interp),
                              Execute(k, script, l)))
  {
    var last := LastPart(stackExec, args, traced);
    LastPhase(k, stackExec, args, traced, l);
    match interp
    case None =>
      assert [] + last == last;
    case Some(o) =>
      var two := InterpPart(InterpOf(interp, k.page));
      ObjectPhase(k, o, OpenNext(o.path), l);
      ExecuteAppend(k, two, last, l);
      if Survivable(k, o) {
        var l' := Execute(k, two, l).loader;
        LastPhase(k, stackExec, args, traced, l');
        if Present(k, program, l.memory) {
          PresentKept(k, program, o, l.memory, l'.memory);
        }
      }
  }

  // ---------------------------------------------------------------------
  // From load information to words
  // ---------------------------------------------------------------------

  lemma {:induction false} NoStart(ms: seq<Mapping>)
    ensures forall i :: 0 <= i < |StatementsOf(ms)| ==> !Starting(StatementsOf(ms)[i])
  {
    if ms != [] {
      NoStart(ms[1..]);
    }
  }

  /** Only the last statement starts the program. */
  lemma {:induction false} ScriptComplete(path: nat, ms: seq<Mapping>, interp: Option<Interp>, stackExec: Option<nat>,
                                          args: StartArgs,
                       traced: bool)
    requires AllCoded(ScriptOf(path, ms, interp, stackExec, args, traced))
    ensures Complete(ScriptOf(path, ms, interp, stackExec, args, traced))
  {
    NoStart(ms);
    if interp.Some? {
      NoStart(interp.value.mappings);
    }
    var one, two := ObjectPart(Open(path), ms), InterpPart(interp);
    var three := LastPart(stackExec, args, traced);
    assert forall i :: 0 <= i < |one| ==> !Starting(one[i]);
    assert forall i :: 0 <= i < |two| ==> !Starting(two[i]);
    assert forall i :: 0 <= i < |three| ==> (Starting(three[i]) <==> i == |three| - 1);
    var script := ScriptOf(path, ms, interp, stackExec, args, traced);
    forall i | 0 <= i < |script| ensures Starting(script[i]) <==> i == |script| - 1 {
      if i < |one| {
        assert script[i] == one[i];
      } else if i < |one| + |two| {
        assert script[i] == two[i - |one|];
      } else {
        assert script[i] == three[i - |one| - |two|];
      }
    }
  }

  /** The compiled script, run from its words by the loader, makes the process image. */
  method LoadProcess(k: Kernel, ghost program: Object, ghost interp: Option<Object>, ghost stackExec: Option<nat>,
                     ghost args: StartArgs, ghost traced: bool, words: seq<nat>, memory: Memory)
    returns (outcome: Outcome)
    requires ProgramReady(k, program, interp)
    requires words == AllWords(Script(k, program, interp, stackExec, args, traced))
    ensures ProcessDone(k, program, interp, args, traced,
                        Survivable(k, program) && InterpSurvives(k, program, interp), outcome)
  {
    ghost var script := Script(k, program, interp, stackExec, args, traced);
    ProcessImage(k, program, interp, stackExec, args, traced, Loader(memory, None, 0, true));
    ScriptComplete(program.path, ObjectMappings(program, k.page), InterpOf(interp, k.page), stackExec, args, traced);
    var interpreter := new Interpreter(k, memory);
    outcome := interpreter.Interpret(words, script);
  }
}
