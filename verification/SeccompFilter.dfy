/**
The seccomp filter: lists of syscalls compiled to classic BPF, and the
meaning of the compiled program for every architecture and syscall number.
 */
module SeccompFilter {
  import opened Common
  import opened Sequences

  type Sysnum = nat
  const VOID: Sysnum := 0

  /** The flags of a filtered syscall, as the set of its bits: or is union. */
  type Flags = set<nat>

  /** What a filter returns; TRACE carries the flags as its data. */
  datatype Action = Kill | Trace(flags: Flags) | Allow

  const UINT32_MAX: nat := 0xffff_ffff

  /** The numbers of one ABI: entry `i` is the syscall numbered `offset + i`. */
  datatype Abi = Abi(table: seq<Sysnum>, offset: nat)

  datatype Arch = Arch(value: nat, abis: seq<Abi>)

  datatype Filtered = Filtered(value: Sysnum, flags: Flags)

  // ---------------------------------------------------------------------
  // Syscall numbers
  // ---------------------------------------------------------------------

  /** detranslate_sysnum(): None stands for the avoider. */
  function Detranslate(abi: Abi, s: Sysnum): Option<nat> {
    if s == VOID then None
    else
      var k := IndexOf(abi.table, s);
      if k < |abi.table| then Some(k + abi.offset) else None
  }

  method DetranslateSysnum(abi: Abi, s: Sysnum) returns (r: Option<nat>)
    ensures r == Detranslate(abi, s)
  {
    if s == VOID {
      return None;
    }
    var i := 0;
    while i < |abi.table|
      invariant 0 <= i <= |abi.table|
      invariant forall j :: 0 <= j < i ==> abi.table[j] != s
    {
      if abi.table[i] == s {
        return Some(i + abi.offset);
      }
      i := i + 1;
    }
    return None;
  }

  /** translate_sysnum(): its bound is one too large, so that the number just past
      the table gives whatever is stored `beyond` it. */
  function TranslateSysnum(abi: Abi, beyond: Sysnum, nr: nat): Sysnum {
    if nr < abi.offset then VOID
    else if nr - abi.offset > |abi.table| then VOID
    else if nr - abi.offset == |abi.table| then beyond
    else abi.table[nr - abi.offset]
  }

  /** The syscall that a number stands for. */
  function Translate(abi: Abi, nr: nat): Sysnum {
    if nr < abi.offset then VOID
    else if nr - abi.offset >= |abi.table| then VOID
    else abi.table[nr - abi.offset]
  }

  /** Every syscall has at most one number. */
  ghost predicate Injective(abi: Abi) {
    forall i, j :: 0 <= i < j < |abi.table| && abi.table[i] == abi.table[j] ==> abi.table[i] == VOID
  }

  /** translate_sysnum() finds the syscall of every number if and only if no
      syscall is stored just past the table. */
  lemma {:induction false} TranslateSysnumIff(abi: Abi, beyond: Sysnum)
    ensures (forall nr: nat :: TranslateSysnum(abi, beyond, nr) == Translate(abi, nr)) <==> beyond == VOID
  {
    var past := abi.offset + |abi.table|;
    assert TranslateSysnum(abi, beyond, past) == beyond && Translate(abi, past) == VOID;
  }

  /** Numbers and syscalls correspond. */
  lemma {:induction false} TranslateIff(abi: Abi, s: Sysnum, nr: nat)
    requires Injective(abi) && s != VOID
    ensures Detranslate(abi, s) == Some(nr) <==> Translate(abi, nr) == s
  {
    var k := IndexOf(abi.table, s);
    if Translate(abi, nr) == s {
      var i := nr - abi.offset;
      assert abi.table[i] == s;
      assert k <= i;
    }
  }

  // ---------------------------------------------------------------------
  // Lists of filtered syscalls
  // ---------------------------------------------------------------------

  ghost predicate Listed(l: seq<Filtered>, s: Sysnum) {
    exists i :: 0 <= i < |l| && l[i].value == s
  }

  /** All the flags given to `s`, or-ed. */
  function FlagsOf(l: seq<Filtered>, s: Sysnum): Flags {
    if l == [] then {}
    else FlagsOf(l[..|l| - 1], s) + (if l[|l| - 1].value == s then l[|l| - 1].flags else {})
  }

  ghost predicate Unique(l: seq<Filtered>) {
    forall i, j :: 0 <= i < j < |l| ==> l[i].value != l[j].value
  }

  ghost predicate NoVoid(l: seq<Filtered>) {
    forall i :: 0 <= i < |l| ==> l[i].value != VOID
  }

  lemma {:induction false} FlagsOfUnlisted(l: seq<Filtered>, s: Sysnum)
    requires !Listed(l, s)
    ensures FlagsOf(l, s) == {}
  {
    if l != [] {
      var init := l[..|l| - 1];
      assert forall i :: 0 <= i < |init| ==> init[i] == l[i];
      FlagsOfUnlisted(init, s);
      assert l[|l| - 1].value != s;
    }
  }

  /** In a list without duplicates, the flags are those of the one entry. */
  lemma {:induction false} FlagsOfUnique(l: seq<Filtered>, i: nat)
    requires Unique(l) && i < |l|
    ensures FlagsOf(l, l[i].value) == l[i].flags
  {
    var init, last := l[..|l| - 1], l[|l| - 1];
    if i < |l| - 1 {
      assert init[i] == l[i];
      FlagsOfUnique(init, i);
      assert last.value != l[i].value;
    } else {
      assert !Listed(init, last.value);
      FlagsOfUnlisted(init, last.value);
    }
  }

  /** Or-ing flags into entry `k` changes the flags of that syscall only. */
  lemma {:induction false} FlagsOfUpdate(l: seq<Filtered>, k: nat, extra: Flags, s: Sysnum)
    requires Unique(l) && k < |l|
    ensures var r := l[k := Filtered(l[k].value, l[k].flags + extra)];
            && Unique(r) && (Listed(r, s) <==> Listed(l, s))
            && FlagsOf(r, s) == FlagsOf(l, s) + (if s == l[k].value then extra else {})
  {
    var r := l[k := Filtered(l[k].value, l[k].flags + extra)];
    assert forall i :: 0 <= i < |l| ==> r[i].value == l[i].value;
    if Listed(l, s) {
      var i :| 0 <= i < |l| && l[i].value == s;
      FlagsOfUnique(l, i);
      FlagsOfUnique(r, i);
      assert i != k ==> l[i].value != l[k].value;
    } else {
      assert !Listed(r, s);
      FlagsOfUnlisted(l, s);
      FlagsOfUnlisted(r, s);
    }
  }

  /** One entry merged: or-ed into the entry of its syscall, else appended. */
  function MergedOne(l: seq<Filtered>, f: Filtered): seq<Filtered> {
    var k := PositionOf(l, f.value);
    if k < |l| then l[k := Filtered(l[k].value, l[k].flags + f.flags)] else l + [f]
  }

  function PositionOf(l: seq<Filtered>, s: Sysnum): (k: nat)
    ensures k <= |l|
    ensures forall i :: 0 <= i < k ==> l[i].value != s
    ensures k < |l| ==> l[k].value == s
  {
    if l == [] then 0 else if l[0].value == s then 0 else 1 + PositionOf(l[1..], s)
  }

  function Merged(l: seq<Filtered>, new': seq<Filtered>): seq<Filtered> {
    if new' == [] then l else MergedOne(Merged(l, new'[..|new'| - 1]), new'[|new'| - 1])
  }

  lemma {:induction false} MergedOneKeeps(l: seq<Filtered>, f: Filtered, s: Sysnum)
    requires Unique(l)
    ensures Unique(MergedOne(l, f))
    ensures Listed(MergedOne(l, f), s) <==> Listed(l, s) || f.value == s
    ensures FlagsOf(MergedOne(l, f), s) == FlagsOf(l, s) + (if f.value == s then f.flags else {})
  {
    var k := PositionOf(l, f.value);
    if k < |l| {
      FlagsOfUpdate(l, k, f.flags, s);
      assert Listed(l, f.value);
    } else {
      AddedKeeps(l, f, s);
    }
  }

  lemma {:induction false} AddedKeeps(l: seq<Filtered>, f: Filtered, s: Sysnum)
    requires Unique(l) && forall i :: 0 <= i < |l| ==> l[i].value != f.value
    ensures Unique(l + [f])
    ensures Listed(l + [f], s) <==> Listed(l, s) || f.value == s
    ensures FlagsOf(l + [f], s) == FlagsOf(l, s) + (if f.value == s then f.flags else {})
  {
    var r := l + [f];
    assert r[..|r| - 1] == l;
    ListedSnoc(r, s);
  }

  /** Merging keeps one entry per syscall, forgets none, and or-s all flags. */
  lemma {:induction false} MergedKeeps(l: seq<Filtered>, new': seq<Filtered>, s: Sysnum)
    requires Unique(l)
    ensures Unique(Merged(l, new'))
    ensures Listed(Merged(l, new'), s) <==> Listed(l, s) || Listed(new', s)
    ensures FlagsOf(Merged(l, new'), s) == FlagsOf(l, s) + FlagsOf(new', s)
  {
    if new' == [] {
      assert !Listed(new', s) && FlagsOf(new', s) == {};
    } else {
      var n := |new'| - 1;
      MergedKeeps(l, new'[..n], s);
      MergedOneKeeps(Merged(l, new'[..n]), new'[n], s);
      ListedSnoc(new', s);
      Reunion(FlagsOf(l, s), FlagsOf(new'[..n], s), if new'[n].value == s then new'[n].flags else {});
    }
  }

  lemma {:induction false} Reunion(a: Flags, b: Flags, c: Flags)
    ensures (a + b) + c == a + (b + c)
  {
  }

  lemma {:induction false} ListedSnoc(l: seq<Filtered>, s: Sysnum)
    requires l != []
    ensures Listed(l, s) <==> Listed(l[..|l| - 1], s) || l[|l| - 1].value == s
    ensures FlagsOf(l, s) == FlagsOf(l[..|l| - 1], s) + (if l[|l| - 1].value == s then l[|l| - 1].flags else {})
  {
    var init := l[..|l| - 1];
    assert forall i :: 0 <= i < |init| ==> init[i] == l[i];
    if Listed(l, s) && l[|l| - 1].value != s {
      var i :| 0 <= i < |l| && l[i].value == s;
      assert init[i].value == s;
    }
  }

  /** merge_filtered_sysnums() */
  method MergeFilteredSysnums(l: seq<Filtered>, new': seq<Filtered>) returns (r: seq<Filtered>)
    ensures r == Merged(l, new')
  {
    r := l;
    var i := 0;
    while i < |new'|
      invariant 0 <= i <= |new'| && r == Merged(l, new'[..i])
    {
      var j := 0;
      while j < |r| && r[j].value != new'[i].value
        invariant 0 <= j <= |r| && forall k :: 0 <= k < j ==> r[k].value != new'[i].value
      {
        j := j + 1;
      }
      assert j == PositionOf(r, new'[i].value);
      assert new'[..i + 1][..i] == new'[..i];
      if j == |r| {
        r := r + [new'[i]];
      } else {
        r := r[j := Filtered(r[j].value, r[j].flags + new'[i].flags)];
      }
      i := i + 1;
    }
    assert new'[..|new'|] == new';
  }

  // ---------------------------------------------------------------------
  // The target: classic BPF
  // ---------------------------------------------------------------------

  /** The statements that are emitted: load a field of seccomp_data, compare the
      accumulator and skip, skip, return. */
  datatype Insn =
    | LoadArch
    | LoadNr
    | JumpIfEqual(k: nat, jt: nat, jf: nat)
    | Jump(k: nat)
    | Return(action: Action)

  /** Execution from the first of `code`; all jumps go forward.  None: ran off the end. */
  function Run(code: seq<Insn>, acc: nat, arch: nat, nr: nat): Option<Action>
    decreases |code|
  {
    if code == [] then None
    else
      match code[0]
      case LoadArch => Run(code[1..], arch, arch, nr)
      case LoadNr => Run(code[1..], nr, arch, nr)
      case JumpIfEqual(k, jt, jf) =>
        var skip := 1 + if acc == k then jt else jf;
        if skip <= |code| then Run(code[skip..], acc, arch, nr) else None
      case Jump(k) => if 1 + k <= |code| then Run(code[1 + k..], acc, arch, nr) else None
      case Return(action) => Some(action)
  }

  // ---------------------------------------------------------------------
  // The compiler, as a function
  // ---------------------------------------------------------------------

  /** A traced syscall number with its flags. */
  datatype Traced = Traced(nr: nat, flags: Flags)

  function TracedOne(abi: Abi, f: Filtered): seq<Traced> {
    match Detranslate(abi, f.value)
    case None => []
    case Some(nr) => [Traced(nr, f.flags)]
  }

  function TracedFor(abi: Abi, l: seq<Filtered>): seq<Traced> {
    if l == [] then [] else TracedFor(abi, l[..|l| - 1]) + TracedOne(abi, l[|l| - 1])
  }

  function TracedIn(abis: seq<Abi>, l: seq<Filtered>): seq<Traced> {
    if abis == [] then [] else TracedIn(abis[..|abis| - 1], l) + TracedFor(abis[|abis| - 1], l)
  }

  function Body(ts: seq<Traced>): seq<Insn> {
    if ts == [] then []
    else Body(ts[..|ts| - 1]) + [JumpIfEqual(ts[|ts| - 1].nr, 0, 1), Return(Trace(ts[|ts| - 1].flags))]
  }

  function Start(value: nat, nb: nat): seq<Insn> {
    [LoadArch, JumpIfEqual(value, 1, 0), Jump(1 + nb * 2 + 1), LoadNr]
  }

  function Section(a: Arch, l: seq<Filtered>): seq<Insn> {
    var ts := TracedIn(a.abis, l);
    Start(a.value, |ts|) + Body(ts) + [Return(Allow)]
  }

  function SectionList(archs: seq<Arch>, l: seq<Filtered>): seq<seq<Insn>> {
    seq(|archs|, i requires 0 <= i < |archs| => Section(archs[i], l))
  }

  function Sections(archs: seq<Arch>, l: seq<Filtered>): seq<Insn> {
    Flat(SectionList(archs, l))
  }

  function Compiled(archs: seq<Arch>, l: seq<Filtered>): seq<Insn> {
    Sections(archs, l) + [Return(Kill)]
  }

  lemma {:induction false} BodyLength(ts: seq<Traced>)
    ensures |Body(ts)| == 2 * |ts|
    decreases |ts|
  {
    if ts != [] {
      BodyLength(ts[..|ts| - 1]);
    }
  }

  // ---------------------------------------------------------------------
  // What the program decides
  // ---------------------------------------------------------------------

  /** The flags of the first entry for `nr`. */
  function Lookup(ts: seq<Traced>, nr: nat): Option<Flags> {
    if ts == [] then None else if ts[0].nr == nr then Some(ts[0].flags) else Lookup(ts[1..], nr)
  }

  /** The action for a handled architecture. */
  function Decision(a: Arch, l: seq<Filtered>, nr: nat): Action {
    match Lookup(TracedIn(a.abis, l), nr) case Some(f) => Trace(f) case None => Allow
  }

  lemma {:induction false} BodyCons(ts: seq<Traced>)
    requires ts != []
    ensures Body(ts) == [JumpIfEqual(ts[0].nr, 0, 1), Return(Trace(ts[0].flags))] + Body(ts[1..])
  {
    if |ts| > 1 {
      var n := |ts| - 1;
      BodyCons(ts[..n]);
      assert ts[..n][1..] == ts[1..][..n - 1];
    }
  }

  lemma {:induction false} RunBody(ts: seq<Traced>, rest: seq<Insn>, arch: nat, nr: nat)
    ensures Run(Body(ts) + [Return(Allow)] + rest, nr, arch, nr)
            == Some(match Lookup(ts, nr) case Some(f) => Trace(f) case None => Allow)
  {
    var code := Body(ts) + [Return(Allow)] + rest;
    if ts == [] {
      assert code[0] == Return(Allow);
    } else {
      BodyCons(ts);
      var after := Body(ts[1..]) + [Return(Allow)] + rest;
      assert code == [JumpIfEqual(ts[0].nr, 0, 1), Return(Trace(ts[0].flags))] + after;
      assert code[1..][0] == Return(Trace(ts[0].flags)) && code[2..] == after;
      RunBody(ts[1..], rest, arch, nr);
    }
  }

  /** The head of a section loads the number for its architecture, and otherwise
      skips the section. */
  lemma {:induction false} RunStart(value: nat, nb: nat, tail: seq<Insn>, acc: nat, arch: nat, nr: nat)
    requires 2 * nb + 1 <= |tail|
    ensures Run(Start(value, nb) + tail, acc, arch, nr) ==
            if arch == value then Run(tail, nr, arch, nr) else Run(tail[2 * nb + 1..], arch, arch, nr)
  {
    var code := Start(value, nb) + tail;
    var code1, code2, code3 := code[1..], code[2..], code[3..];
    StartParts(value, nb, tail);
    assert Run(code, acc, arch, nr) == Run(code1, arch, arch, nr);
    assert Run(code1, arch, arch, nr) == Run(if arch == value then code3 else code2, arch, arch, nr);
  }

  lemma {:induction false} StartParts(value: nat, nb: nat, tail: seq<Insn>)
    requires 2 * nb + 1 <= |tail|
    ensures var code := Start(value, nb) + tail; var code1, code2, code3 := code[1..], code[2..], code[3..];
            && code[0] == LoadArch
            && code1[0] == JumpIfEqual(value, 1, 0) && code1[1..] == code2 && code1[2..] == code3
            && code2[0] == Jump(1 + nb * 2 + 1) && code2[1 + (1 + nb * 2 + 1)..] == tail[2 * nb + 1..]
            && code3[0] == LoadNr && code3[1..] == tail
  {
  }

  lemma {:induction false} RunSection(a: Arch, l: seq<Filtered>, rest: seq<Insn>, acc: nat, arch: nat, nr: nat)
    ensures Run(Section(a, l) + rest, acc, arch, nr) ==
            if arch == a.value then Some(Decision(a, l, nr)) else Run(rest, arch, arch, nr)
  {
    var ts := TracedIn(a.abis, l);
    var tail := Body(ts) + [Return(Allow)] + rest;
    BodyLength(ts);
    assert Section(a, l) + rest == Start(a.value, |ts|) + tail;
    assert tail[2 * |ts| + 1..] == rest;
    RunStart(a.value, |ts|, tail, acc, arch, nr);
    RunBody(ts, rest, arch, nr);
  }

  /** The first architecture of that value decides, and none kills. */
  function Expected(archs: seq<Arch>, l: seq<Filtered>, arch: nat, nr: nat): Action {
    if archs == [] then Kill
    else if archs[0].value == arch then Decision(archs[0], l, nr)
    else Expected(archs[1..], l, arch, nr)
  }

  lemma {:induction false} SectionsCons(archs: seq<Arch>, l: seq<Filtered>)
    requires archs != []
    ensures Sections(archs, l) == Section(archs[0], l) + Sections(archs[1..], l)
  {
    assert SectionList(archs, l)[1..] == SectionList(archs[1..], l);
    FlatCons(SectionList(archs, l));
  }

  /** Correctness of the compiler: the program halts on every input and decides
      as specified. */
  lemma {:induction false} CompiledDecides(archs: seq<Arch>, l: seq<Filtered>, acc: nat, arch: nat, nr: nat)
    ensures Run(Compiled(archs, l), acc, arch, nr) == Some(Expected(archs, l, arch, nr))
  {
    if archs != [] {
      SectionsCons(archs, l);
      assert Compiled(archs, l) == Section(archs[0], l) + Compiled(archs[1..], l);
      RunSection(archs[0], l, Compiled(archs[1..], l), acc, arch, nr);
      CompiledDecides(archs[1..], l, arch, arch, nr);
    }
  }

  // ---------------------------------------------------------------------
  // Against the syscall tables
  // ---------------------------------------------------------------------

  lemma {:induction false} LookupAppend(a: seq<Traced>, b: seq<Traced>, nr: nat)
    ensures Lookup(a + b, nr) == if Lookup(a, nr).Some? then Lookup(a, nr) else Lookup(b, nr)
  {
    if a == [] {
      assert a + b == b;
    } else {
      assert (a + b)[1..] == a[1..] + b;
      LookupAppend(a[1..], b, nr);
    }
  }

  /** One more entry: found by the numbers of its syscall, if not found before. */
  lemma {:induction false} LookupLast(abi: Abi, l: seq<Filtered>, nr: nat)
    requires Injective(abi) && NoVoid(l) && l != []
    ensures var n := |l| - 1; var before := Lookup(TracedFor(abi, l[..n]), nr);
            Lookup(TracedFor(abi, l), nr) ==
            if before.Some? then before else if l[n].value == Translate(abi, nr) then Some(l[n].flags) else None
  {
    var n := |l| - 1;
    LookupAppend(TracedFor(abi, l[..n]), TracedOne(abi, l[n]), nr);
    TranslateIff(abi, l[n].value, nr);
  }

  /** One more entry of a list without duplicates. */
  lemma {:induction false} ListedLast(l: seq<Filtered>, s: Sysnum)
    requires Unique(l) && NoVoid(l) && l != []
    ensures var init, last := l[..|l| - 1], l[|l| - 1];
            && Unique(init) && NoVoid(init)
            && (Listed(l, s) <==> Listed(init, s) || last.value == s)
            && (last.value == s ==> !Listed(init, s) && FlagsOf(l, s) == last.flags)
            && (last.value != s ==> FlagsOf(l, s) == FlagsOf(init, s))
  {
    var n := |l| - 1;
    var init := l[..n];
    assert forall i :: 0 <= i < n ==> init[i] == l[i];
    FlagsOfUnique(l, n);
    if Listed(l, s) && l[n].value != s {
      var i :| 0 <= i < |l| && l[i].value == s;
      assert init[i].value == s;
    }
  }

  /** Within one ABI, the flags found for a number are those listed for its syscall. */
  lemma {:induction false} LookupFor(abi: Abi, l: seq<Filtered>, nr: nat)
    requires Injective(abi) && Unique(l) && NoVoid(l)
    ensures var s := Translate(abi, nr);
            Lookup(TracedFor(abi, l), nr) == if Listed(l, s) then Some(FlagsOf(l, s)) else None
  {
    var s := Translate(abi, nr);
    if l != [] {
      ListedLast(l, s);
      LookupLast(abi, l, nr);
      LookupFor(abi, l[..|l| - 1], nr);
    }
  }

  /** No number belongs to two ABIs of an architecture. */
  ghost predicate Disjoint(abis: seq<Abi>) {
    forall i, j, nr: nat :: 0 <= i < j < |abis| && Translate(abis[i], nr) != VOID ==> Translate(abis[j], nr) == VOID
  }

  ghost predicate WellFormed(abis: seq<Abi>) {
    Disjoint(abis) && forall i :: 0 <= i < |abis| ==> Injective(abis[i])
  }

  /** The syscall that a number stands for on an architecture. */
  function SyscallOf(abis: seq<Abi>, nr: nat): Sysnum {
    if abis == [] then VOID
    else
      var n := |abis| - 1;
      if Translate(abis[n], nr) != VOID then Translate(abis[n], nr) else SyscallOf(abis[..n], nr)
  }

  lemma {:induction false} SyscallOfIs(abis: seq<Abi>, i: nat, nr: nat)
    requires Disjoint(abis) && i < |abis| && Translate(abis[i], nr) != VOID
    ensures SyscallOf(abis, nr) == Translate(abis[i], nr)
  {
    var n := |abis| - 1;
    if i < n {
      assert Translate(abis[n], nr) == VOID;
      assert forall k :: 0 <= k < n ==> abis[..n][k] == abis[k];
      SyscallOfIs(abis[..n], i, nr);
    }
  }

  lemma {:induction false} LookupIn(abis: seq<Abi>, l: seq<Filtered>, nr: nat)
    requires WellFormed(abis) && Unique(l) && NoVoid(l)
    ensures var s := SyscallOf(abis, nr);
            Lookup(TracedIn(abis, l), nr) == if Listed(l, s) then Some(FlagsOf(l, s)) else None
  {
    if abis != [] {
      var n := |abis| - 1;
      var init := abis[..n];
      assert forall k :: 0 <= k < n ==> init[k] == abis[k];
      LookupIn(init, l, nr);
      LookupFor(abis[n], l, nr);
      LookupAppend(TracedIn(init, l), TracedFor(abis[n], l), nr);
      assert !Listed(l, VOID);
      OneAbi(abis, nr);
    }
  }

  lemma {:induction false} OneAbi(abis: seq<Abi>, nr: nat)
    requires Disjoint(abis) && abis != []
    ensures var n := |abis| - 1; Translate(abis[n], nr) == VOID || SyscallOf(abis[..n], nr) == VOID
  {
    var n := |abis| - 1;
    if SyscallOf(abis[..n], nr) != VOID {
      var i := AbiOf(abis[..n], nr);
      assert Translate(abis[i], nr) != VOID;
    }
  }

  lemma {:induction false} AbiOf(abis: seq<Abi>, nr: nat) returns (i: nat)
    requires SyscallOf(abis, nr) != VOID
    ensures i < |abis| && Translate(abis[i], nr) == SyscallOf(abis, nr)
  {
    var n := |abis| - 1;
    if Translate(abis[n], nr) != VOID {
      i := n;
    } else {
      i := AbiOf(abis[..n], nr);
    }
  }

  /** What the tracer promises of the filter: an unhandled architecture is
      killed, a listed syscall is traced with all its flags, any other allowed. */
  lemma {:induction false} FilterIsFaithful(archs: seq<Arch>, l: seq<Filtered>, acc: nat, arch: nat, nr: nat)
    requires Unique(l) && NoVoid(l) && forall i :: 0 <= i < |archs| ==> WellFormed(archs[i].abis)
    requires forall i, j :: 0 <= i < j < |archs| ==> archs[i].value != archs[j].value
    ensures (forall i :: 0 <= i < |archs| ==> archs[i].value != arch) ==>
              Run(Compiled(archs, l), acc, arch, nr) == Some(Kill)
    ensures forall i :: 0 <= i < |archs| && archs[i].value == arch ==>
              var s := SyscallOf(archs[i].abis, nr);
              Run(Compiled(archs, l), acc, arch, nr)
              == Some(if Listed(l, s) then Trace(FlagsOf(l, s)) else Allow)
  {
    CompiledDecides(archs, l, acc, arch, nr);
    ExpectedIs(archs, l, arch, nr);
    forall i | 0 <= i < |archs| && archs[i].value == arch
      ensures var s := SyscallOf(archs[i].abis, nr);
              Expected(archs, l, arch, nr) == if Listed(l, s) then Trace(FlagsOf(l, s)) else Allow
    {
      LookupIn(archs[i].abis, l, nr);
    }
  }

  lemma {:induction false} ExpectedIs(archs: seq<Arch>, l: seq<Filtered>, arch: nat, nr: nat)
    requires forall i, j :: 0 <= i < j < |archs| ==> archs[i].value != archs[j].value
    ensures (forall i :: 0 <= i < |archs| ==> archs[i].value != arch) ==> Expected(archs, l, arch, nr) == Kill
    ensures forall i :: 0 <= i < |archs| && archs[i].value == arch ==>
              Expected(archs, l, arch, nr) == Decision(archs[i], l, nr)
  {
    if archs != [] {
      assert forall i :: 0 <= i < |archs[1..]| ==> archs[1..][i] == archs[i + 1];
      ExpectedIs(archs[1..], l, arch, nr);
      forall i | 0 <= i < |archs| && archs[i].value == arch
        ensures Expected(archs, l, arch, nr) == Decision(archs[i], l, nr)
      {
        if i > 0 {
          assert archs[1..][i - 1] == archs[i];
        }
      }
    }
  }

  // ---------------------------------------------------------------------
  // Sorting does not matter
  // ---------------------------------------------------------------------

  /** A permutation of a list without duplicates gives every syscall the same flags. */
  lemma {:induction false} PermutedKeeps(l: seq<Filtered>, sorted: seq<Filtered>, s: Sysnum)
    requires Unique(l) && NoVoid(l) && multiset(sorted) == multiset(l)
    ensures Unique(sorted) && NoVoid(sorted)
    ensures Listed(sorted, s) <==> Listed(l, s)
    ensures FlagsOf(sorted, s) == FlagsOf(l, s)
  {
    forall f ensures f in l <==> f in sorted {
      assert f in multiset(l) <==> f in multiset(sorted);
    }
    PermutedUnique(l, sorted);
    forall i | 0 <= i < |sorted| ensures sorted[i].value != VOID {
      assert sorted[i] in l;
    }
    if Listed(l, s) {
      var i :| 0 <= i < |l| && l[i].value == s;
      assert l[i] in sorted;
      var j :| 0 <= j < |sorted| && sorted[j] == l[i];
      FlagsOfUnique(l, i);
      FlagsOfUnique(sorted, j);
    } else {
      assert forall j :: 0 <= j < |sorted| ==> sorted[j] in l;
      FlagsOfUnlisted(l, s);
      FlagsOfUnlisted(sorted, s);
    }
  }

  lemma {:induction false} PermutedUnique(l: seq<Filtered>, sorted: seq<Filtered>)
    requires Unique(l) && multiset(sorted) == multiset(l)
    ensures Unique(sorted)
  {
    forall i, j | 0 <= i < j < |sorted| ensures sorted[i].value != sorted[j].value {
      var x, y := sorted[i], sorted[j];
      assert x in multiset(l) && y in multiset(l);
      assert x in l && y in l;
      if x == y {
        TwiceIn(sorted, i, j);
        OnceIn(l, x);
      }
    }
  }

  lemma {:induction false} TwiceIn(l: seq<Filtered>, i: nat, j: nat)
    requires i < j < |l| && l[i] == l[j]
    ensures multiset(l)[l[i]] >= 2
  {
    assert l == l[..i] + [l[i]] + l[i + 1..j] + [l[j]] + l[j + 1..];
  }

  lemma {:induction false} OnceIn(l: seq<Filtered>, x: Filtered)
    requires Unique(l)
    ensures multiset(l)[x] <= 1
  {
    if x in l {
      var i :| 0 <= i < |l| && l[i] == x;
      OnlyAt(l, i);
      CountOfOne(l[..i], x, l[i + 1..]);
      assert l == l[..i] + [x] + l[i + 1..];
    }
  }

  lemma {:induction false} OnlyAt(l: seq<Filtered>, i: nat)
    requires Unique(l) && i < |l|
    ensures l[i] !in l[..i] && l[i] !in l[i + 1..]
  {
    assert forall k :: 0 <= k < i ==> l[..i][k] == l[k];
    var b := l[i + 1..];
    assert forall k :: 0 <= k < |b| ==> b[k] == l[i + 1 + k];
  }

  lemma {:induction false} CountOfOne(a: seq<Filtered>, x: Filtered, b: seq<Filtered>)
    requires x !in a && x !in b
    ensures multiset(a + [x] + b)[x] == 1
  {
    assert multiset(a + [x] + b) == multiset(a) + multiset{x} + multiset(b);
  }

  // ---------------------------------------------------------------------
  // The compiler, as it runs
  // ---------------------------------------------------------------------

  datatype Status = Done | OutOfRange

  /** The length of a program is stored in 16 bits. */
  const LEN_RANGE: nat := 0x1_0000

  /** The statements that start a section. */
  const START: nat := 4

  /** struct sock_fprog while it is being built. */
  class Program {
    var filter: seq<Insn>
    var len: nat

    constructor ()
      ensures filter == [] && len == 0
    {
      filter, len := [], 0;
    }

    /** start_arch_section() */
    method StartArchSection(value: nat, nb: nat) returns (status: Status)
      modifies this
      ensures status == if 1 + nb * 2 > UINT32_MAX - 1 then OutOfRange else Done
      ensures status == Done ==> filter == old(filter) + Start(value, nb)
      ensures status == Done ==> len < LEN_RANGE && (len == |filter| <==> |filter| < LEN_RANGE) && len <= |filter|
    {
      var sectionLength := 1 + nb * 2;
      if sectionLength > UINT32_MAX - 1 {
        return OutOfRange;
      }
      filter := filter + [LoadArch, JumpIfEqual(value, 1, 0), Jump(sectionLength + 1), LoadNr];
      len := |filter| % LEN_RANGE;
      return Done;
    }

    /** add_trace_syscall() */
    method AddTraceSyscall(nr: nat, flags: Flags) returns (status: Status)
      modifies this`filter
      ensures status == if nr > UINT32_MAX then OutOfRange else Done
      ensures status == Done ==>
                filter == old(filter) + [JumpIfEqual(nr, 0, 1), Return(Trace(flags))]
    {
      if nr > UINT32_MAX {
        return OutOfRange;
      }
      filter := filter + [JumpIfEqual(nr, 0, 1), Return(Trace(flags))];
      return Done;
    }

    /** end_arch_section(), with its check of the length of the section */
    method EndArchSection(nb: nat) returns (status: Status)
      requires len <= |filter|
      modifies this`filter
      ensures filter == old(filter) + [Return(Allow)]
      ensures status == if |filter| - len != 1 + nb * 2 then OutOfRange else Done
    {
      filter := filter + [Return(Allow)];
      if |filter| - len != 1 + nb * 2 {
        return OutOfRange;
      }
      return Done;
    }

    /** One syscall, unless the ABI does not have it. */
    method AddFiltered(abi: Abi, f: Filtered, ghost before: seq<Insn>, ghost ts: seq<Traced>) returns (status: Status)
      requires filter == before + Body(ts)
      modifies this`filter
      ensures status == if Fits(TracedOne(abi, f)) then Done else OutOfRange
      ensures status == Done ==> filter == before + Body(ts + TracedOne(abi, f))
    {
      var nr := DetranslateSysnum(abi, f.value);
      if nr.None? {
        assert ts + TracedOne(abi, f) == ts;
        return Done;
      }
      ghost var t := Traced(nr.value, f.flags);
      assert TracedOne(abi, f) == [t] && [t][0].nr == nr.value;
      BodySnoc(ts, t);
      status := AddTraceSyscall(nr.value, f.flags);
    }

    /** The traced syscalls of one ABI. */
    method AddAbi(abi: Abi, l: seq<Filtered>) returns (status: Status)
      modifies this`filter
      ensures status == if Fits(TracedFor(abi, l)) then Done else OutOfRange
      ensures status == Done ==> filter == old(filter) + Body(TracedFor(abi, l))
    {
      ghost var ts := [];
      var k := 0;
      while k < |l|
        invariant 0 <= k <= |l|
        invariant ts == TracedFor(abi, l[..k]) && Fits(ts)
        invariant filter == old(filter) + Body(ts)
      {
        TracedForStep(abi, l, k);
        status := AddFiltered(abi, l[k], old(filter), ts);
        ghost var more := TracedOne(abi, l[k]);
        if status != Done {
          TracedForPrefix(abi, l, k + 1);
          FitsParts(ts, more, TracedFor(abi, l));
          return;
        }
        FitsBoth(ts, more);
        ts := ts + more;
        k := k + 1;
      }
      assert l[..|l|] == l;
      return Done;
    }

    method AddNextAbi(abi: Abi, l: seq<Filtered>, ghost before: seq<Insn>, ghost ts: seq<Traced>)
      returns (status: Status)
      requires filter == before + Body(ts)
      modifies this`filter
      ensures status == if Fits(TracedFor(abi, l)) then Done else OutOfRange
      ensures status == Done ==> filter == before + Body(ts + TracedFor(abi, l))
    {
      ghost var more := TracedFor(abi, l);
      BodyAppend(ts, more);
      Regroup(before, Body(ts), Body(more));
      status := AddAbi(abi, l);
    }

    /** The traced syscalls of all the ABIs of an architecture. */
    method AddAbis(abis: seq<Abi>, l: seq<Filtered>) returns (status: Status)
      modifies this`filter
      ensures status == if Fits(TracedIn(abis, l)) then Done else OutOfRange
      ensures status == Done ==> filter == old(filter) + Body(TracedIn(abis, l))
    {
      ghost var ts := [];
      var j := 0;
      while j < |abis|
        invariant 0 <= j <= |abis|
        invariant ts == TracedIn(abis[..j], l) && Fits(ts)
        invariant filter == old(filter) + Body(ts)
      {
        TracedInStep(abis, l, j);
        ghost var more := TracedFor(abis[j], l);
        status := AddNextAbi(abis[j], l, old(filter), ts);
        if status != Done {
          TracedInPrefix(abis, l, j + 1);
          FitsParts(ts, more, TracedIn(abis, l));
          return;
        }
        FitsBoth(ts, more);
        ts := ts + more;
        j := j + 1;
      }
      assert abis[..|abis|] == abis;
      return Done;
    }

    method AddNextArch(archs: seq<Arch>, i: nat, l: seq<Filtered>) returns (status: Status)
      requires i < |archs| && filter == Sections(archs[..i], l)
      modifies this
      ensures status == if EmitsAt(archs, i, l) then Done else OutOfRange
      ensures status == Done ==> filter == Sections(archs[..i + 1], l)
    {
      SectionsStep(archs, i, l);
      status := AddArch(archs[i], l);
    }

    /** finalize_program_filter() */
    method Finalize()
      modifies this
      ensures filter == old(filter) + [Return(Kill)]
      ensures len < LEN_RANGE && (len == |filter| <==> |filter| < LEN_RANGE)
    {
      filter := filter + [Return(Kill)];
      len := |filter| % LEN_RANGE;
    }

    /** One iteration of set_seccomp_filters(): the check of the length of the
        section fails only when the section starts out of the range of the length. */
    method AddArch(a: Arch, l: seq<Filtered>) returns (status: Status)
      modifies this
      ensures status == if Emits(a, l) && |old(filter)| + START < LEN_RANGE then Done else OutOfRange
      ensures status == Done ==> filter == old(filter) + Section(a, l)
    {
      ghost var ts := TracedIn(a.abis, l);
      BodyLength(ts);
      var nb := CountTraced(a.abis, l);
      status := StartArchSection(a.value, nb);
      if status != Done {
        return;
      }
      status := AddAbis(a.abis, l);
      if status != Done {
        return;
      }
      status := EndArchSection(nb);
      assert filter == old(filter) + (Start(a.value, |ts|) + Body(ts) + [Return(Allow)]);
    }
  }

  lemma {:induction false} TracedInStep(abis: seq<Abi>, l: seq<Filtered>, j: nat)
    requires j < |abis|
    ensures TracedIn(abis[..j + 1], l) == TracedIn(abis[..j], l) + TracedFor(abis[j], l)
  {
    assert abis[..j + 1][..j] == abis[..j];
  }

  lemma {:induction false} TracedForStep(abi: Abi, l: seq<Filtered>, k: nat)
    requires k < |l|
    ensures TracedFor(abi, l[..k + 1]) == TracedFor(abi, l[..k]) + TracedOne(abi, l[k])
  {
    assert l[..k + 1][..k] == l[..k];
  }

  lemma {:induction false} BodySnoc(ts: seq<Traced>, t: Traced)
    ensures Body(ts + [t]) == Body(ts) + [JumpIfEqual(t.nr, 0, 1), Return(Trace(t.flags))]
  {
    assert (ts + [t])[..|ts|] == ts;
  }

  ghost predicate Fits(ts: seq<Traced>) {
    forall i :: 0 <= i < |ts| ==> ts[i].nr <= UINT32_MAX
  }

  /** The numbers of the section and its length fit 32 bits. */
  ghost predicate Emits(a: Arch, l: seq<Filtered>) {
    var ts := TracedIn(a.abis, l);
    Fits(ts) && 1 + |ts| * 2 <= UINT32_MAX - 1
  }

  lemma {:induction false} BodyAppend(a: seq<Traced>, b: seq<Traced>)
    ensures Body(a + b) == Body(a) + Body(b)
  {
    if b == [] {
      assert a + b == a;
    } else {
      var n := |b| - 1;
      assert (a + b)[..|a| + n] == a + b[..n];
      BodyAppend(a, b[..n]);
    }
  }

  lemma {:induction false} TracedForPrefix(abi: Abi, l: seq<Filtered>, k: nat)
    requires k <= |l|
    ensures TracedFor(abi, l[..k]) <= TracedFor(abi, l)
    decreases |l|
  {
    if k < |l| {
      assert l[..|l| - 1][..k] == l[..k];
      TracedForPrefix(abi, l[..|l| - 1], k);
    } else {
      assert l[..k] == l;
    }
  }

  lemma {:induction false} TracedInPrefix(abis: seq<Abi>, l: seq<Filtered>, k: nat)
    requires k <= |abis|
    ensures TracedIn(abis[..k], l) <= TracedIn(abis, l)
    decreases |abis|
  {
    if k < |abis| {
      assert abis[..|abis| - 1][..k] == abis[..k];
      TracedInPrefix(abis[..|abis| - 1], l, k);
    } else {
      assert abis[..k] == abis;
    }
  }

  lemma {:induction false} FitsBoth(a: seq<Traced>, b: seq<Traced>)
    requires Fits(a) && Fits(b)
    ensures Fits(a + b)
  {
  }

  lemma {:induction false} FitsParts(a: seq<Traced>, b: seq<Traced>, all: seq<Traced>)
    requires a + b <= all && !Fits(b)
    ensures !Fits(all)
  {
    var i :| 0 <= i < |b| && b[i].nr > UINT32_MAX;
    assert all[|a| + i] == (a + b)[|a| + i];
  }

  /** The number of traced syscalls, computed in advance. */
  method CountTraced(abis: seq<Abi>, l: seq<Filtered>) returns (nb: nat)
    ensures nb == |TracedIn(abis, l)|
  {
    nb := 0;
    var j := 0;
    while j < |abis|
      invariant 0 <= j <= |abis|
      invariant nb == |TracedIn(abis[..j], l)|
    {
      TracedInStep(abis, l, j);
      var more := CountFor(abis[j], l);
      nb := nb + more;
      j := j + 1;
    }
    assert abis[..|abis|] == abis;
  }

  method CountFor(abi: Abi, l: seq<Filtered>) returns (nb: nat)
    ensures nb == |TracedFor(abi, l)|
  {
    nb := 0;
    var k := 0;
    while k < |l|
      invariant 0 <= k <= |l|
      invariant nb == |TracedFor(abi, l[..k])|
    {
      TracedForStep(abi, l, k);
      var nr := DetranslateSysnum(abi, l[k].value);
      if nr.Some? {
        nb := nb + 1;
      }
      k := k + 1;
    }
    assert l[..|l|] == l;
  }

  lemma {:induction false} SectionsStep(archs: seq<Arch>, i: nat, l: seq<Filtered>)
    requires i < |archs|
    ensures Sections(archs[..i + 1], l) == Sections(archs[..i], l) + Section(archs[i], l)
  {
    assert SectionList(archs[..i + 1], l) == SectionList(archs[..i], l) + [Section(archs[i], l)];
    FlatSnoc(SectionList(archs[..i], l), Section(archs[i], l));
  }

  /** The section of architecture `i` fits, and starts where its length can be checked. */
  ghost predicate EmitsAt(archs: seq<Arch>, i: nat, l: seq<Filtered>)
    requires i < |archs|
  {
    Emits(archs[i], l) && |Sections(archs[..i], l)| + START < LEN_RANGE
  }

  /** So do the sections of the first `n` architectures. */
  ghost predicate AllEmit(archs: seq<Arch>, n: nat, l: seq<Filtered>)
    requires n <= |archs|
  {
    n == 0 || (AllEmit(archs, n - 1, l) && EmitsAt(archs, n - 1, l))
  }

  lemma {:induction false} OneFails(archs: seq<Arch>, n: nat, l: seq<Filtered>, i: nat)
    requires i < n <= |archs| && !EmitsAt(archs, i, l)
    ensures !AllEmit(archs, n, l)
    decreases n
  {
    if i < n - 1 {
      OneFails(archs, n - 1, l, i);
    }
  }

  /** set_seccomp_filters(), from the sorted list: the code, and the length of it
      that the kernel is told. */
  method SetSeccompFilters(archs: seq<Arch>, l: seq<Filtered>) returns (status: Status, code: seq<Insn>, len: nat)
    ensures status == Done <==> AllEmit(archs, |archs|, l)
    ensures status == Done ==> code == Compiled(archs, l) && (len == |code| <==> |code| < LEN_RANGE)
  {
    var program := new Program();
    var i := 0;
    while i < |archs|
      invariant 0 <= i <= |archs|
      invariant program.filter == Sections(archs[..i], l)
      invariant AllEmit(archs, i, l)
    {
      status := program.AddNextArch(archs, i, l);
      if status != Done {
        OneFails(archs, |archs|, l, i);
        return status, program.filter, program.len;
      }
      i := i + 1;
    }
    assert archs[..|archs|] == archs;
    program.Finalize();
    return Done, program.filter, program.len;
  }

  // ---------------------------------------------------------------------
  // The whole filter
  // ---------------------------------------------------------------------

  /** The lists of the tracer and of its extensions, merged one after the other. */
  function MergedAll(lists: seq<seq<Filtered>>): seq<Filtered> {
    if lists == [] then [] else Merged(MergedAll(lists[..|lists| - 1]), lists[|lists| - 1])
  }

  ghost predicate ListedAny(lists: seq<seq<Filtered>>, s: Sysnum) {
    exists i :: 0 <= i < |lists| && Listed(lists[i], s)
  }

  function FlagsOfAll(lists: seq<seq<Filtered>>, s: Sysnum): Flags {
    if lists == [] then {} else FlagsOfAll(lists[..|lists| - 1], s) + FlagsOf(lists[|lists| - 1], s)
  }

  /** filtered_sysnum_flags(), over the same lists. */
  method FilteredSysnumFlags(lists: seq<seq<Filtered>>, s: Sysnum) returns (flags: Flags)
    ensures flags == FlagsOfAll(lists, s)
  {
    flags := {};
    var j := 0;
    while j < |lists|
      invariant 0 <= j <= |lists| && flags == FlagsOfAll(lists[..j], s)
    {
      ghost var before := flags;
      var l := lists[j];
      var i := 0;
      while i < |l|
        invariant 0 <= i <= |l| && flags == before + FlagsOf(l[..i], s)
      {
        assert l[..i + 1][..i] == l[..i];
        if l[i].value == s {
          flags := flags + l[i].flags;
        }
        i := i + 1;
      }
      assert l[..|l|] == l;
      assert lists[..j + 1][..j] == lists[..j];
      j := j + 1;
    }
    assert lists[..|lists|] == lists;
  }

  lemma {:induction false} MergedAllKeeps(lists: seq<seq<Filtered>>, s: Sysnum)
    ensures Unique(MergedAll(lists))
    ensures Listed(MergedAll(lists), s) <==> ListedAny(lists, s)
    ensures FlagsOf(MergedAll(lists), s) == FlagsOfAll(lists, s)
  {
    if lists != [] {
      var n := |lists| - 1;
      var init := lists[..n];
      MergedAllKeeps(init, s);
      MergedKeeps(MergedAll(init), lists[n], s);
      assert forall i :: 0 <= i < n ==> init[i] == lists[i];
      assert ListedAny(init, s) ==> ListedAny(lists, s);
    }
  }

  /** enable_syscall_filtering() against filtered_sysnum_flags(): the kernel kills
      unhandled architectures, reports a syscall of any of the lists with exactly the
      flags that the tracer recomputes later, and does not stop for any other. */
  lemma {:induction false} FilterAgreesWithTracer(archs: seq<Arch>, lists: seq<seq<Filtered>>, sorted: seq<Filtered>,
                               arch: nat, nr: nat)
    requires forall i :: 0 <= i < |lists| ==> NoVoid(lists[i])
    requires multiset(sorted) == multiset(MergedAll(lists))
    requires forall i :: 0 <= i < |archs| ==> WellFormed(archs[i].abis)
    requires forall i, j :: 0 <= i < j < |archs| ==> archs[i].value != archs[j].value
    ensures (forall i :: 0 <= i < |archs| ==> archs[i].value != arch) ==>
              Run(Compiled(archs, sorted), 0, arch, nr) == Some(Kill)
    ensures forall i :: 0 <= i < |archs| && archs[i].value == arch ==>
              var s := SyscallOf(archs[i].abis, nr);
              Run(Compiled(archs, sorted), 0, arch, nr)
              == Some(if ListedAny(lists, s) then Trace(FlagsOfAll(lists, s)) else Allow)
  {
    var l := MergedAll(lists);
    MergedAllKeeps(lists, VOID);
    assert !ListedAny(lists, VOID);
    assert NoVoid(l);
    PermutedKeeps(l, sorted, VOID);
    FilterIsFaithful(archs, sorted, 0, arch, nr);
    forall i | 0 <= i < |archs| && archs[i].value == arch
      ensures var s := SyscallOf(archs[i].abis, nr);
              && (Listed(sorted, s) <==> ListedAny(lists, s))
              && FlagsOf(sorted, s) == FlagsOfAll(lists, s)
    {
      var s := SyscallOf(archs[i].abis, nr);
      MergedAllKeeps(lists, s);
      PermutedKeeps(l, sorted, s);
    }
  }
}
