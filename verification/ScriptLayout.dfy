/**
The block that is transferred below the stack pointer of a starting program:
the words of its load script, narrowed in place for a 32-bit program, then
the strings that the script points to.
 */
module ScriptLayout {
  import opened Buffers
  import opened Common
  import opened Loading
  import opened LoadScript
  import opened Pages
  import opened WordBytes

  // ---------------------------------------------------------------------
  // Sizes of scripts
  // ---------------------------------------------------------------------

  lemma {:induction false} AllWordsAppend(a: seq<Statement>, b: seq<Statement>)
    ensures AllWords(a + b) == AllWords(a) + AllWords(b)
  {
    if a == [] {
      assert a + b == b;
    } else {
      assert (a + b)[1..] == a[1..] + b;
      AllWordsAppend(a[1..], b);
    }
  }

  lemma {:induction false} MappingWords(ms: seq<Mapping>)
    ensures |AllWords(StatementsOf(ms))| == 6 * |ms|
  {
    if ms != [] {
      assert StatementsOf(ms)[1..] == StatementsOf(ms[1..]);
      MappingWords(ms[1..]);
    }
  }

  lemma {:induction false} OneStatement(st: Statement)
    ensures AllWords([st]) == Words(st)
  {
    assert [st][1..] == [];
  }

  // ---------------------------------------------------------------------
  // Writing through a cursor
  // ---------------------------------------------------------------------

  lemma {:induction false} WideStep(words: seq<nat>, i: nat)
    requires i < |words|
    ensures Wide(words[..i + 1]) == Wide(words[..i]) + Bytes(words[i], 8)
  {
    assert words[..i + 1] == words[..i] + [words[i]];
    WideAppend(words[..i], [words[i]]);
    WideOne(words[i]);
  }

  method WriteWords(buffer: array<nat>, cursor: nat, words: seq<nat>) returns (next: nat)
    requires cursor + 8 * |words| <= buffer.Length
    modifies buffer
    ensures next == cursor + 8 * |words|
    ensures buffer[..] == Put(old(buffer[..]), cursor, Wide(words))
  {
    next := cursor;
    ghost var before := buffer[..];
    ghost var done, now := [], before;
    var i := 0;
    while i < |words|
      invariant 0 <= i <= |words| && next == cursor + 8 * i
      invariant done == Wide(words[..i])
      invariant |done| == 8 * i
      invariant now == buffer[..]
      invariant now == Put(before, cursor, done)
    {
      WideStep(words, i);
      ghost var word, n, was := Bytes(words[i], 8), next, now;
      next := CopyBytes(buffer, next, Bytes(words[i], 8));
      now := buffer[..];
      PutNext(before, was, now, cursor, done, word, n);
      done := done + word;
      i := i + 1;
    }
    assert words[..|words|] == words;
  }

  /** The words of one statement. */
  method WriteStatement(buffer: array<nat>, cursor: nat, st: Statement) returns (next: nat)
    requires cursor + 8 * |Words(st)| <= buffer.Length
    modifies buffer
    ensures next == cursor + 8 * |Words(st)|
    ensures buffer[..] == Put(old(buffer[..]), cursor, Wide(Words(st)))
  {
    next := WriteWords(buffer, cursor, Words(st));
  }

  /** transcript_mappings() */
  method TranscriptMappings(buffer: array<nat>, cursor: nat, ms: seq<Mapping>) returns (next: nat)
    requires cursor + 48 * |ms| <= buffer.Length
    modifies buffer
    ensures next == cursor + 48 * |ms|
    ensures |AllWords(StatementsOf(ms))| == 6 * |ms|
    ensures buffer[..] == Put(old(buffer[..]), cursor, Wide(AllWords(StatementsOf(ms))))
  {
    next := cursor;
    ghost var before := buffer[..];
    ghost var done, now := [], before;
    var i := 0;
    while i < |ms|
      invariant 0 <= i <= |ms| && next == cursor + 48 * i
      invariant done == Wide(AllWords(StatementsOf(ms[..i])))
      invariant |done| == 48 * i
      invariant now == buffer[..]
      invariant now == Put(before, cursor, done)
    {
      var st := StatementOf(ms[i]);
      TranscriptStep(ms, i);
      ghost var more, n, was := Wide(Words(st)), next, now;
      next := WriteStatement(buffer, next, st);
      now := buffer[..];
      PutNext(before, was, now, cursor, done, more, n);
      done := done + more;
      i := i + 1;
    }
    assert ms[..|ms|] == ms;
    MappingWords(ms);
  }

  lemma {:induction false} StatementsAppend(a: seq<Mapping>, b: seq<Mapping>)
    ensures StatementsOf(a + b) == StatementsOf(a) + StatementsOf(b)
  {
    if a == [] {
      assert a + b == b;
    } else {
      assert (a + b)[1..] == a[1..] + b;
      StatementsAppend(a[1..], b);
    }
  }

  lemma {:induction false} TranscriptStep(ms: seq<Mapping>, i: nat)
    requires i < |ms|
    ensures Wide(AllWords(StatementsOf(ms[..i + 1])))
            == Wide(AllWords(StatementsOf(ms[..i]))) + Wide(Words(StatementOf(ms[i])))
    ensures |Words(StatementOf(ms[i]))| == 6
  {
    var st := StatementOf(ms[i]);
    assert ms[..i + 1] == ms[..i] + [ms[i]];
    StatementsAppend(ms[..i], [ms[i]]);
    assert StatementsOf([ms[i]]) == [st];
    AllWordsAppend(StatementsOf(ms[..i]), [st]);
    OneStatement(st);
    WideAppend(AllWords(StatementsOf(ms[..i])), Words(st));
  }

  // ---------------------------------------------------------------------
  // Narrowing in place
  // ---------------------------------------------------------------------

  /** The low half of each of the first n words is moved to its slot of four bytes;
      the rest is untouched. */
  function Narrowed(s: seq<nat>, n: nat): (r: seq<nat>)
    requires 8 * n <= |s|
    ensures |r| == |s|
  {
    if n == 0 then s
    else Put(Narrowed(s, n - 1), 4 * (n - 1), s[8 * (n - 1)..8 * (n - 1) + 4])
  }

  lemma {:induction false} NarrowedRest(s: seq<nat>, n: nat)
    requires 8 * n <= |s|
    ensures Narrowed(s, n)[4 * n..] == s[4 * n..]
  {
    if n > 0 {
      var k := n - 1;
      NarrowedRest(s, k);
      PutSuffix(Narrowed(s, k), 4 * k, s[8 * k..8 * k + 4]);
      assert Narrowed(s, k)[4 * n..] == Narrowed(s, k)[4 * k..][4..] == s[4 * k..][4..] == s[4 * n..];
    }
  }

  lemma {:induction false} PutSuffix(s: seq<nat>, at: nat, bs: seq<nat>)
    requires at + |bs| <= |s|
    ensures Put(s, at, bs)[at + |bs|..] == s[at + |bs|..]
  {
    PutIs(s, at, bs);
  }

  lemma {:induction false} NarrowedTail(s: seq<nat>, n: nat)
    requires 8 * n + 8 <= |s|
    ensures Narrowed(s, n)[8 * n..8 * n + 4] == s[8 * n..8 * n + 4]
  {
    NarrowedRest(s, n);
    assert Narrowed(s, n)[8 * n..8 * n + 4] == Narrowed(s, n)[4 * n..][4 * n..4 * n + 4];
    assert s[8 * n..8 * n + 4] == s[4 * n..][4 * n..4 * n + 4];
  }

  lemma {:induction false} NarrowedStep(s: seq<nat>, i: nat, now: seq<nat>, half: seq<nat>, next: seq<nat>)
    requires 8 * i + 8 <= |s| && now == Narrowed(s, i) && half == s[8 * i..8 * i + 4] && next == Put(now, 4 * i, half)
    ensures next == Narrowed(s, i + 1)
  {
  }

  /** The low half of word i is moved to its slot. */
  method NarrowWord(buffer: array<nat>, i: nat, ghost before: seq<nat>, ghost was: seq<nat>)
    returns (ghost now: seq<nat>)
    requires 8 * i + 8 <= buffer.Length == |before| && was == buffer[..] && IsNarrowed(before, i, was)
    modifies buffer
    ensures now == buffer[..] && IsNarrowed(before, i + 1, now)
  {
    NarrowedTail(before, i);
    var half := buffer[8 * i..8 * i + 4];
    assert half == was[8 * i..8 * i + 4];
    var _ := CopyBytes(buffer, 4 * i, half);
    now := buffer[..];
    NarrowedStep(before, i, was, half, now);
  }

  ghost predicate IsNarrowed(s: seq<nat>, n: nat, r: seq<nat>) {
    8 * n <= |s| && r == Narrowed(s, n)
  }

  /** The conversion to 32 bits, over the first n words. */
  method Narrow(buffer: array<nat>, n: nat)
    requires 8 * n <= buffer.Length
    modifies buffer
    ensures buffer[..] == Narrowed(old(buffer[..]), n)
  {
    ghost var before, now := buffer[..], buffer[..];
    var i := 0;
    while i < n
      invariant 0 <= i <= n
      invariant now == buffer[..]
      invariant IsNarrowed(before, i, now)
    {
      now := NarrowWord(buffer, i, before, now);
      i := i + 1;
    }
  }

  lemma {:induction false} PutPrefix(s: seq<nat>, at: nat, bs: seq<nat>)
    requires at + |bs| <= |s|
    ensures Put(s, at, bs)[..at + |bs|] == s[..at] + bs
  {
    PutIs(s, at, bs);
  }

  lemma {:induction false} LowHalf(words: seq<nat>, rest: seq<nat>, k: nat)
    requires k < |words|
    ensures (Wide(words) + rest)[8 * k..8 * k + 4] == Bytes(words[k], 4)
  {
    WideSlice(words, k);
    LowBytes(words[k], 4, 8);
    assert (Wide(words) + rest)[8 * k..8 * k + 4] == Wide(words)[8 * k..8 * k + 8][..4];
  }

  lemma {:induction false} NarrowedPrefix(words: seq<nat>, rest: seq<nat>, n: nat)
    requires n <= |words|
    ensures Narrowed(Wide(words) + rest, n)[..4 * n] == Thin(words[..n])
  {
    if n > 0 {
      var k := n - 1;
      var wide := Wide(words) + rest;
      NarrowedPrefix(words, rest, k);
      LowHalf(words, rest, k);
      NarrowedMore(wide, k, Narrowed(wide, k), Bytes(words[k], 4));
      ThinMore(words, k);
    }
  }

  lemma {:induction false} NarrowedMore(s: seq<nat>, k: nat, now: seq<nat>, half: seq<nat>)
    requires 8 * k + 8 <= |s| && now == Narrowed(s, k) && half == s[8 * k..8 * k + 4]
    ensures Narrowed(s, k + 1)[..4 * (k + 1)] == now[..4 * k] + half
  {
    NarrowedStep(s, k, now, half, Put(now, 4 * k, half));
    PutPrefix(now, 4 * k, half);
  }

  lemma {:induction false} ThinMore(words: seq<nat>, k: nat)
    requires k < |words|
    ensures Thin(words[..k + 1]) == Thin(words[..k]) + Bytes(words[k], 4)
  {
    assert words[..k + 1][..k] == words[..k];
  }

  /** What a narrowed block reads as: every word modulo 2^32, and the same strings. */
  lemma {:induction false} NarrowedReads(words: seq<nat>, rest: seq<nat>)
    ensures var n := |words|;
            var s := Narrowed(Wide(words) + rest, n);
            s[..4 * n] == Thin(words) && s[8 * n..] == rest
  {
    var n := |words|;
    NarrowedPrefix(words, rest, n);
    assert words[..n] == words;
    NarrowedRest(Wide(words) + rest, n);
    var s, t := Narrowed(Wide(words) + rest, n), Wide(words) + rest;
    assert s[8 * n..] == s[4 * n..][4 * n..] == t[4 * n..][4 * n..] == t[8 * n..];
  }

  // ---------------------------------------------------------------------
  // The transferred block
  // ---------------------------------------------------------------------

  datatype InterpInfo = InterpInfo(userPath: seq<nat>, mappings: seq<Mapping>, entry: nat)

  /** What is to be loaded; rawPath is None when it is the user path itself. */
  datatype Request = Request(
    stackPointer: nat,
    userPath: seq<nat>,
    rawPath: Option<seq<nat>>,
    mappings: seq<Mapping>,
    entry: nat,
    phoff: nat,
    phentsize: nat,
    phnum: nat,
    interp: Option<InterpInfo>,
    stackExec: bool,
    ptraced: bool)

  function Terminated(path: seq<nat>): seq<nat> {
    path + [0]
  }

  function InterpString(r: Request): seq<nat> {
    match r.interp case None => [] case Some(i) => Terminated(i.userPath)
  }

  function RawString(r: Request): seq<nat> {
    match r.rawPath case None => [] case Some(p) => Terminated(p)
  }

  /** The strings area, without its padding. */
  function Strings(r: Request): seq<nat> {
    Terminated(r.userPath) + InterpString(r) + RawString(r)
  }

  function Padding(r: Request, align: nat): nat
    requires align > 0 && |Strings(r)| <= r.stackPointer
  {
    (r.stackPointer - |Strings(r)|) % align
  }

  /** Room enough below the stack pointer. */
  predicate Fits(r: Request, align: nat) {
    && align in {4, 8, 16} && r.mappings != []
    && |Strings(r)| + align + ScriptSize(r) <= r.stackPointer
  }

  function StringsSize(r: Request, align: nat): nat
    requires Fits(r, align)
  {
    |Strings(r)| + Padding(r, align)
  }

  function ScriptSize(r: Request): nat {
    16 + 48 * |r.mappings| +
    (match r.interp case None => 0 case Some(i) => 16 + 48 * |i.mappings|) +
    (if r.stackExec then 16 else 0) + 64
  }

  function UserPathAddress(r: Request, align: nat): nat
    requires Fits(r, align)
  {
    r.stackPointer - StringsSize(r, align)
  }

  function InterpPathAddress(r: Request, align: nat): nat
    requires Fits(r, align)
  {
    InterpAddress(r, UserPathAddress(r, align))
  }

  function RawPathAddress(r: Request, align: nat): nat
    requires Fits(r, align)
  {
    RawAddress(r, UserPathAddress(r, align))
  }

  /** The paths follow each other: if that of the user is at `u`, these are the others. */
  function InterpAddress(r: Request, u: nat): nat {
    u + |r.userPath| + 1
  }

  function RawAddress(r: Request, u: nat): nat {
    if r.rawPath.None? then u else InterpAddress(r, u) + |InterpString(r)|
  }

  function Arguments(r: Request, align: nat): StartArgs
    requires Fits(r, align)
  {
    StartArgs(r.stackPointer, match r.interp case None => r.entry case Some(i) => i.entry,
              r.phoff + r.mappings[0].addr, r.phentsize, r.phnum, r.entry, RawPathAddress(r, align))
  }

  function InterpIn(r: Request, align: nat): Option<Interp>
    requires Fits(r, align)
  {
    match r.interp case None => None case Some(i) => Some(Interp(InterpPathAddress(r, align), i.mappings))
  }

  function TheScript(r: Request, align: nat, page: nat): seq<Statement>
    requires Fits(r, align) && page > 0
  {
    ScriptOf(UserPathAddress(r, align), r.mappings, InterpIn(r, align),
             if r.stackExec then Some(Floor(r.stackPointer, page)) else None, Arguments(r, align), r.ptraced)
  }

  lemma {:induction false} ObjectPartWords(opening: Statement, ms: seq<Mapping>)
    requires opening.Open? || opening.OpenNext?
    ensures AllWords(ObjectPart(opening, ms)) == Words(opening) + AllWords(StatementsOf(ms))
    ensures |AllWords(ObjectPart(opening, ms))| == 2 + 6 * |ms|
  {
    AllWordsAppend([opening], StatementsOf(ms));
    OneStatement(opening);
    MappingWords(ms);
  }

  lemma {:induction false} LastPartWords(stackExec: Option<nat>, args: StartArgs, traced: bool)
    ensures AllWords(LastPart(stackExec, args, traced)) ==
            (match stackExec case None => [] case Some(start) => Words(MakeStackExec(start))) +
            Words(if traced then StartTraced(args) else Start(args))
    ensures |AllWords(LastPart(stackExec, args, traced))| == (if stackExec.Some? then 2 else 0) + 8
  {
    var a := match stackExec case None => [] case Some(start) => [MakeStackExec(start)];
    var b := [if traced then StartTraced(args) else Start(args)];
    AllWordsAppend(a, b);
    OneStatement(b[0]);
    if stackExec.Some? {
      OneStatement(a[0]);
    }
  }

  lemma {:induction false} ScriptParts(path: nat, ms: seq<Mapping>, interp: Option<Interp>, stackExec: Option<nat>,
                                       args: StartArgs,
                    traced: bool)
    ensures AllWords(ScriptOf(path, ms, interp, stackExec, args, traced)) ==
            AllWords(ObjectPart(Open(path), ms)) +
            (AllWords(InterpPart(interp)) + AllWords(LastPart(stackExec, args, traced)))
  {
    var last := LastPart(stackExec, args, traced);
    AllWordsAppend(ObjectPart(Open(path), ms), InterpPart(interp) + last);
    AllWordsAppend(InterpPart(interp), last);
  }

  /** The computed size is the size of the script. */
  lemma {:induction false} ScriptSizeIs(r: Request, align: nat, page: nat)
    requires Fits(r, align) && page > 0
    ensures 8 * |AllWords(TheScript(r, align, page))| == ScriptSize(r)
  {
    var exec := if r.stackExec then Some(Floor(r.stackPointer, page)) else None;
    ScriptParts(UserPathAddress(r, align), r.mappings, InterpIn(r, align), exec, Arguments(r, align), r.ptraced);
    ObjectPartWords(Open(UserPathAddress(r, align)), r.mappings);
    LastPartWords(exec, Arguments(r, align), r.ptraced);
    if r.interp.Some? {
      ObjectPartWords(OpenNext(InterpPathAddress(r, align)), r.interp.value.mappings);
    }
  }

  lemma {:induction false} ScriptSizeAligned(r: Request, align: nat)
    requires align in {4, 8, 16}
    ensures ScriptSize(r) % align == 0
  {
    var k := 5 + 3 * |r.mappings| + (match r.interp case None => 0 case Some(i) => 1 + 3 * |i.mappings|)
      + if r.stackExec then 1 else 0;
    assert ScriptSize(r) == 16 * k;
    ModUnique(ScriptSize(r), align, 16 / align * k, 0);
  }

  /** The new stack pointer keeps the alignment: sixteen bytes on ARM64. */
  lemma {:induction false} NewStackPointerAligned(r: Request, align: nat)
    requires Fits(r, align)
    ensures ScriptSize(r) + StringsSize(r, align) <= r.stackPointer
    ensures (r.stackPointer - ScriptSize(r) - StringsSize(r, align)) % align == 0
  {
    var x := r.stackPointer - |Strings(r)|;
    FloorPage(x, align);
    ScriptSizeAligned(r, align);
    AlignedGap(ScriptSize(r), Floor(x, align), align);
  }

  /** These bytes are found at `at`, one after the other. */
  predicate HoldsAt(block: seq<nat>, at: nat, bs: seq<nat>)
    decreases |bs|
  {
    bs == [] || (at < |block| && block[at] == bs[0] && HoldsAt(block, at + 1, bs[1..]))
  }

  lemma {:induction false} HoldsAtIs(block: seq<nat>, at: nat, bs: seq<nat>)
    requires HoldsAt(block, at, bs)
    ensures bs != [] ==> at + |bs| <= |block|
    ensures forall i :: 0 <= i < |bs| ==> at + i < |block| && block[at + i] == bs[i]
    decreases |bs|
  {
    if bs != [] {
      HoldsAtIs(block, at + 1, bs[1..]);
      forall i | 0 <= i < |bs| ensures at + i < |block| && block[at + i] == bs[i] {
        if i > 0 {
          assert block[(at + 1) + (i - 1)] == bs[1..][i - 1];
        }
      }
    }
  }

  lemma {:induction false} HoldsMiddle(a: seq<nat>, bs: seq<nat>, b: seq<nat>)
    ensures HoldsAt(a + bs + b, |a|, bs)
    decreases |bs|
  {
    if bs != [] {
      HoldsMiddle(a + [bs[0]], bs[1..], b);
      assert (a + [bs[0]]) + bs[1..] + b == a + bs + b;
    }
  }

  /** A NUL-terminated path can be read at `addr` of a block placed at `base`. */
  ghost predicate StringAt(block: seq<nat>, base: nat, addr: nat, path: seq<nat>) {
    base <= addr && HoldsAt(block, addr - base, Terminated(path))
  }

  /** The address of each path in a block placed at `base` holds that path, if that
      of the user is at `u`. */
  ghost predicate StringsFrom(r: Request, block: seq<nat>, base: nat, u: nat) {
    && StringAt(block, base, u, r.userPath)
    && (r.interp.Some? ==> StringAt(block, base, InterpAddress(r, u), r.interp.value.userPath))
    && (r.rawPath.Some? ==> StringAt(block, base, RawAddress(r, u), r.rawPath.value))
  }

  ghost predicate PathsReadable(r: Request, align: nat, block: seq<nat>, base: nat)
    requires Fits(r, align)
  {
    StringsFrom(r, block, base, UserPathAddress(r, align))
  }

  /** How a request is to be started: at the entry point of the interpreter if there is
      one, with the program's own headers, entry point and name for the auxiliary vector. */
  ghost predicate StartsAs(r: Request, args: StartArgs, block: seq<nat>, base: nat)
    requires r.mappings != []
  {
    && args.stackPointer == r.stackPointer
    && args.entryPoint == (if r.interp.Some? then r.interp.value.entry else r.entry)
    && args.atEntry == r.entry
    && args.atPhdr == r.mappings[0].addr + r.phoff && args.atPhent == r.phentsize && args.atPhnum == r.phnum
    && StringAt(block, base, args.atExecfn, if r.rawPath.Some? then r.rawPath.value else r.userPath)
  }

  lemma {:induction false} ArgumentsStart(r: Request, align: nat, block: seq<nat>, base: nat)
    requires Fits(r, align) && PathsReadable(r, align, block, base)
    ensures StartsAs(r, Arguments(r, align), block, base)
  {
  }

  lemma {:induction false} LastStarts(r: Request, align: nat, page: nat)
    requires Fits(r, align) && page > 0
    ensures var script, args := TheScript(r, align, page), Arguments(r, align);
            && |script| >= 2
            && script[|script| - 1] == (if r.ptraced then StartTraced(args) else Start(args))
            && (r.stackExec ==> script[|script| - 2] == MakeStackExec(Floor(r.stackPointer, page)))
            && (!r.stackExec ==> !script[|script| - 2].MakeStackExec?)
  {
    if !r.stackExec {
      BeforeStart(r, align);
    }
  }

  /** The statement before the last one opens or maps something. */
  lemma {:induction false} BeforeStart(r: Request, align: nat)
    requires Fits(r, align)
    ensures var parts := ObjectPart(Open(UserPathAddress(r, align)), r.mappings) + InterpPart(InterpIn(r, align));
            parts != [] && !parts[|parts| - 1].MakeStackExec?
  {
    var one := ObjectPart(Open(UserPathAddress(r, align)), r.mappings);
    LastOfPart(Open(UserPathAddress(r, align)), r.mappings);
    if r.interp.Some? {
      LastOfPart(OpenNext(InterpPathAddress(r, align)), r.interp.value.mappings);
    } else {
      assert one + [] == one;
    }
  }

  lemma {:induction false} LastOfPart(opening: Statement, ms: seq<Mapping>)
    requires opening.Open? || opening.OpenNext?
    ensures var part := ObjectPart(opening, ms); !part[|part| - 1].MakeStackExec?
  {
    if ms != [] {
      LastMapping(ms);
    }
  }

  lemma {:induction false} LastMapping(ms: seq<Mapping>)
    requires ms != []
    ensures var sts := StatementsOf(ms); sts != [] && !sts[|sts| - 1].MakeStackExec?
  {
    if |ms| > 1 {
      LastMapping(ms[1..]);
    }
  }

  /** The script ends by starting the request, right after the page of the stack pointer
      was made executable, if it has to be. */
  ghost predicate EndsStarting(r: Request, script: seq<Statement>, block: seq<nat>, base: nat, page: nat)
    requires r.mappings != [] && page > 0
  {
    && |script| >= 2
    && var before, last := script[|script| - 2], script[|script| - 1];
    && (if r.ptraced then last.StartTraced? else last.Start?) && StartsAs(r, last.args, block, base)
    && (r.stackExec <==> before.MakeStackExec?)
    && (r.stackExec ==> before.start <= r.stackPointer < before.start + page && before.start % page == 0)
  }

  /** Every path address of the script holds its path. */
  lemma {:induction false} StringsInPlace(r: Request, script: seq<nat>, padding: seq<nat>, base: nat, block: seq<nat>,
                                          u: nat)
    requires block == script + Strings(r) + padding && u == base + |script|
    ensures StringsFrom(r, block, base, u)
  {
    UserInPlace(r, script, padding, base, block);
    var interp := InterpAddress(r, u);
    if r.interp.Some? {
      InterpInPlace(r, script, padding, base, block);
      assert StringAt(block, base, interp, r.interp.value.userPath);
    }
    var raw := RawAddress(r, u);
    if r.rawPath.Some? {
      RawInPlace(r, script, padding, base, block);
      assert StringAt(block, base, raw, r.rawPath.value);
    }
    StringsAre(r, block, base, u, interp, raw);
  }

  lemma {:induction false} StringsAre(r: Request, block: seq<nat>, base: nat, u: nat, interp: nat, raw: nat)
    requires StringAt(block, base, u, r.userPath) && interp == InterpAddress(r, u) && raw == RawAddress(r, u)
    requires r.interp.Some? ==> StringAt(block, base, interp, r.interp.value.userPath)
    requires r.rawPath.Some? ==> StringAt(block, base, raw, r.rawPath.value)
    ensures StringsFrom(r, block, base, u)
  {
  }

  lemma {:induction false} UserInPlace(r: Request, script: seq<nat>, padding: seq<nat>, base: nat, block: seq<nat>)
    requires block == script + Strings(r) + padding
    ensures StringAt(block, base, base + |script|, r.userPath)
  {
    var user, interp, raw := Terminated(r.userPath), InterpString(r), RawString(r);
    SliceAt(script, user, interp + raw + padding, base, r.userPath);
    Concatenated(script, user, interp, raw, padding);
  }

  lemma {:induction false} InterpInPlace(r: Request, script: seq<nat>, padding: seq<nat>, base: nat, block: seq<nat>)
    requires r.interp.Some? && block == script + Strings(r) + padding
    ensures StringAt(block, base, base + |script| + |r.userPath| + 1, r.interp.value.userPath)
  {
    var user, interp, raw := Terminated(r.userPath), InterpString(r), RawString(r);
    SliceAt(script + user, interp, raw + padding, base, r.interp.value.userPath);
    Concatenated(script, user, interp, raw, padding);
  }

  lemma {:induction false} RawInPlace(r: Request, script: seq<nat>, padding: seq<nat>, base: nat, block: seq<nat>)
    requires r.rawPath.Some? && block == script + Strings(r) + padding
    ensures StringAt(block, base, base + |script| + |r.userPath| + 1 + |InterpString(r)|, r.rawPath.value)
  {
    var user, interp, raw := Terminated(r.userPath), InterpString(r), RawString(r);
    SliceAt(script + user + interp, raw, padding, base, r.rawPath.value);
    Concatenated(script, user, interp, raw, padding);
  }

  lemma {:induction false} SliceAt(a: seq<nat>, s: seq<nat>, b: seq<nat>, base: nat, path: seq<nat>)
    requires s == Terminated(path)
    ensures StringAt(a + s + b, base, base + |a|, path)
  {
    HoldsMiddle(a, s, b);
  }

  lemma {:induction false} Concatenated(a: seq<nat>, b: seq<nat>, c: seq<nat>, d: seq<nat>, e: seq<nat>)
    ensures a + (b + c + d) + e == a + b + (c + d + e) == (a + b) + c + (d + e) == (a + b + c) + d + e
  {
  }

  /** An open statement and the mappings of its file: the bytes `bs`. */
  method WriteObject(buffer: array<nat>, cursor: nat, opening: Statement, ms: seq<Mapping>)
    returns (next: nat, ghost bs: seq<nat>)
    requires (opening.Open? || opening.OpenNext?) && cursor + 16 + 48 * |ms| <= buffer.Length
    modifies buffer
    ensures bs == Wide(AllWords(ObjectPart(opening, ms))) && |bs| == 16 + 48 * |ms|
    ensures next == cursor + |bs| <= buffer.Length
    ensures buffer[..] == Put(old(buffer[..]), cursor, bs)
  {
    ghost var a, b := Words(opening), AllWords(StatementsOf(ms));
    ObjectPartWords(opening, ms);
    WideAppend(a, b);
    bs := Wide(a) + Wide(b);
    ghost var s0 := buffer[..];
    next := WriteStatement(buffer, cursor, opening);
    ghost var s1, n := buffer[..], next;
    next := TranscriptMappings(buffer, next, ms);
    PutNext(s0, s1, buffer[..], cursor, Wide(a), Wide(b), n);
  }

  method WriteInterp(buffer: array<nat>, cursor: nat, interp: Option<Interp>) returns (next: nat, ghost bs: seq<nat>)
    requires cursor + (if interp.Some? then 16 + 48 * |interp.value.mappings| else 0) <= buffer.Length
    modifies buffer
    ensures bs == Wide(AllWords(InterpPart(interp)))
    ensures |bs| == if interp.Some? then 16 + 48 * |interp.value.mappings| else 0
    ensures next == cursor + |bs| <= buffer.Length
    ensures buffer[..] == Put(old(buffer[..]), cursor, bs)
  {
    next, bs := cursor, [];
    if interp.Some? {
      next, bs := WriteObject(buffer, cursor, OpenNext(interp.value.path), interp.value.mappings);
    }
  }

  method WriteLast(buffer: array<nat>, cursor: nat, stackExec: Option<nat>, args: StartArgs, traced: bool)
    returns (next: nat, ghost bs: seq<nat>)
    requires cursor + (if stackExec.Some? then 16 else 0) + 64 <= buffer.Length
    modifies buffer
    ensures bs == Wide(AllWords(LastPart(stackExec, args, traced)))
    ensures |bs| == (if stackExec.Some? then 16 else 0) + 64
    ensures next == cursor + |bs| <= buffer.Length
    ensures buffer[..] == Put(old(buffer[..]), cursor, bs)
  {
    var a := match stackExec case None => [] case Some(start) => Words(MakeStackExec(start));
    var b := Words(if traced then StartTraced(args) else Start(args));
    LastPartWords(stackExec, args, traced);
    bs := Wide(a + b);
    next := WriteBoth(buffer, cursor, a, b);
  }

  method WriteBoth(buffer: array<nat>, cursor: nat, a: seq<nat>, b: seq<nat>) returns (next: nat)
    requires cursor + 8 * |a| + 8 * |b| <= buffer.Length
    modifies buffer
    ensures next == cursor + 8 * |a + b| && buffer[..] == Put(old(buffer[..]), cursor, Wide(a + b))
  {
    WideAppend(a, b);
    ghost var s0 := buffer[..];
    next := WriteWords(buffer, cursor, a);
    ghost var s1, n := buffer[..], next;
    next := WriteWords(buffer, next, b);
    PutNext(s0, s1, buffer[..], cursor, Wide(a), Wide(b), n);
  }

  /** The program and its interpreter: the bytes `bs`. */
  method WriteObjects(buffer: array<nat>, path: nat, ms: seq<Mapping>, interp: Option<Interp>)
    returns (next: nat, ghost bs: seq<nat>)
    requires 16 + 48 * |ms| + (if interp.Some? then 16 + 48 * |interp.value.mappings| else 0) <= buffer.Length
    modifies buffer
    ensures bs == Wide(AllWords(ObjectPart(Open(path), ms))) + Wide(AllWords(InterpPart(interp)))
    ensures |bs| == 16 + 48 * |ms| + (if interp.Some? then 16 + 48 * |interp.value.mappings| else 0)
    ensures next == |bs|
    ensures buffer[..] == Put(old(buffer[..]), 0, bs)
  {
    ghost var s0 := buffer[..];
    ghost var a, b;
    next, a := WriteObject(buffer, 0, Open(path), ms);
    ghost var s1, n := buffer[..], next;
    next, b := WriteInterp(buffer, next, interp);
    PutNext(s0, s1, buffer[..], 0, a, b, n);
    bs := a + b;
  }

  /** The three parts of a script, one after the other: the bytes `bs`. */
  method WriteParts(buffer: array<nat>, path: nat, ms: seq<Mapping>, interp: Option<Interp>, stackExec: Option<nat>,
                    args: StartArgs, traced: bool) returns (next: nat, ghost bs: seq<nat>)
    requires 16 + 48 * |ms| + (if interp.Some? then 16 + 48 * |interp.value.mappings| else 0)
             + (if stackExec.Some? then 16 else 0) + 64 <= buffer.Length
    modifies buffer
    ensures bs == Wide(AllWords(ObjectPart(Open(path), ms))) + Wide(AllWords(InterpPart(interp))) +
                  Wide(AllWords(LastPart(stackExec, args, traced)))
    ensures |bs| <= buffer.Length
    ensures next == |bs|
    ensures buffer[..] == Put(old(buffer[..]), 0, bs)
  {
    ghost var s0 := buffer[..];
    ghost var a, b;
    next, a := WriteObjects(buffer, path, ms, interp);
    ghost var s1, n := buffer[..], next;
    next, b := WriteLast(buffer, next, stackExec, args, traced);
    PutNext(s0, s1, buffer[..], 0, a, b, n);
    bs := a + b;
  }

  ghost predicate IsWritten(before: seq<nat>, words: seq<nat>, written: seq<nat>) {
    8 * |words| <= |before| && written == Put(before, 0, Wide(words))
  }

  /** All the words of the script, in order. */
  method WriteScript(buffer: array<nat>, path: nat, ms: seq<Mapping>, interp: Option<Interp>, stackExec: Option<nat>,
                     args: StartArgs, traced: bool, ghost words: seq<nat>) returns (next: nat)
    requires words == AllWords(ScriptOf(path, ms, interp, stackExec, args, traced)) && 8 * |words| <= buffer.Length
    modifies buffer
    ensures next == 8 * |words|
    ensures IsWritten(old(buffer[..]), words, buffer[..])
  {
    WideScript(path, ms, interp, stackExec, args, traced);
    ScriptLength(path, ms, interp, stackExec, args, traced);
    ghost var bs;
    next, bs := WriteParts(buffer, path, ms, interp, stackExec, args, traced);
  }

  lemma {:induction false} ScriptLength(path: nat, ms: seq<Mapping>, interp: Option<Interp>, stackExec: Option<nat>,
                                        args: StartArgs, traced: bool)
    ensures 8 * |AllWords(ScriptOf(path, ms, interp, stackExec, args, traced))|
            == 16 + 48 * |ms| + (if interp.Some? then 16 + 48 * |interp.value.mappings| else 0)
               + (if stackExec.Some? then 16 else 0) + 64
  {
    ScriptParts(path, ms, interp, stackExec, args, traced);
    PartLengths(path, ms, interp, stackExec, args, traced);
  }

  lemma {:induction false} WideScript(path: nat, ms: seq<Mapping>, interp: Option<Interp>, stackExec: Option<nat>,
                                      args: StartArgs,
                   traced: bool)
    ensures Wide(AllWords(ScriptOf(path, ms, interp, stackExec, args, traced))) ==
            Wide(AllWords(ObjectPart(Open(path), ms))) + Wide(AllWords(InterpPart(interp))) +
            Wide(AllWords(LastPart(stackExec, args, traced)))
  {
    var a, b := AllWords(ObjectPart(Open(path), ms)), AllWords(InterpPart(interp));
    var c := AllWords(LastPart(stackExec, args, traced));
    ScriptParts(path, ms, interp, stackExec, args, traced);
    WideAppend(a, b + c);
    WideAppend(b, c);
  }

  lemma {:induction false} PartLengths(path: nat, ms: seq<Mapping>, interp: Option<Interp>, stackExec: Option<nat>,
                                       args: StartArgs,
                    traced: bool)
    ensures |AllWords(ObjectPart(Open(path), ms))| == 2 + 6 * |ms|
    ensures |AllWords(InterpPart(interp))| == if interp.Some? then 2 + 6 * |interp.value.mappings| else 0
    ensures |AllWords(LastPart(stackExec, args, traced))| == (if stackExec.Some? then 2 else 0) + 8
  {
    ObjectPartWords(Open(path), ms);
    LastPartWords(stackExec, args, traced);
    if interp.Some? {
      ObjectPartWords(OpenNext(interp.value.path), interp.value.mappings);
    }
  }

  /** Up to three strings, one after the other. */
  method CopyStrings(buffer: array<nat>, cursor: nat, user: seq<nat>, interp: seq<nat>, raw: seq<nat>)
    returns (next: nat)
    requires cursor + |user| + |interp| + |raw| <= buffer.Length
    modifies buffer
    ensures next == cursor + |user| + |interp| + |raw|
    ensures buffer[..] == Put(old(buffer[..]), cursor, user + interp + raw)
  {
    ghost var s0 := buffer[..];
    next := CopyBytes(buffer, cursor, user);
    ghost var s1, n1 := buffer[..], next;
    next := CopyBytes(buffer, next, interp);
    ghost var s2, n2 := buffer[..], next;
    PutNext(s0, s1, s2, cursor, user, interp, n1);
    next := CopyBytes(buffer, next, raw);
    PutNext(s0, s2, buffer[..], cursor, user + interp, raw, n2);
  }

  /** What is written behind the words is not affected by narrowing them. */
  lemma {:induction false} PutNarrow(s: seq<nat>, n: nat, at: nat, bs: seq<nat>)
    requires 8 * n <= at && at + |bs| <= |s|
    ensures Put(Narrowed(s, n), at, bs) == Narrowed(Put(s, at, bs), n)
  {
    if n > 0 {
      var k := n - 1;
      PutNarrow(s, k, at, bs);
      SliceKept(s, at, bs, 8 * k, 8 * k + 4);
      PutApart(Narrowed(s, k), 4 * k, s[8 * k..8 * k + 4], at, bs);
    }
  }

  lemma {:induction false} SliceKept(s: seq<nat>, at: nat, bs: seq<nat>, i: nat, j: nat)
    requires i <= j <= at && at + |bs| <= |s|
    ensures Put(s, at, bs)[i..j] == s[i..j]
  {
    PutIs(s, at, bs);
  }

  lemma {:induction false} PutInZeroes(n: nat, bs: seq<nat>)
    requires |bs| <= n
    ensures Put(Zeroes(n), 0, bs) == bs + Zeroes(n - |bs|)
  {
    PutIs(Zeroes(n), 0, bs);
  }

  /** The transferred block: the words, then `rest`. */
  function Transferred(words: seq<nat>, rest: seq<nat>, narrow: bool): seq<nat> {
    if narrow then Narrowed(Wide(words) + rest, |words|) else Wide(words) + rest
  }

  /** The words are narrowed if need be, and the strings follow. */
  ghost predicate IsCompleted(written: seq<nat>, n: nat, narrow: bool, strings: seq<nat>, block: seq<nat>) {
    && 8 * n + |strings| <= |written|
    && block == Put(if narrow then Narrowed(written, n) else written, 8 * n, strings)
  }

  lemma {:induction false} BlockIs(words: seq<nat>, strings: seq<nat>, size: nat, narrow: bool,
                                   written: seq<nat>, block: seq<nat>, end: nat)
    requires 8 * |words| + |strings| == end <= size && IsWritten(Zeroes(size), words, written)
    requires IsCompleted(written, |words|, narrow, strings, block)
    ensures block == Transferred(words, strings + Zeroes(size - end), narrow)
  {
    WholeIs(Wide(words), strings, size, written, Put(written, 8 * |words|, strings), end);
    PutNarrow(written, |words|, 8 * |words|, strings);
  }

  lemma {:induction false} WholeIs(wide: seq<nat>, strings: seq<nat>, size: nat, written: seq<nat>, whole: seq<nat>,
                                   end: nat)
    requires |wide| + |strings| == end <= size
    requires written == Put(Zeroes(size), 0, wide) && whole == Put(written, |wide|, strings)
    ensures whole == wide + (strings + Zeroes(size - end))
  {
    PutNext(Zeroes(size), written, whole, 0, wide, strings, |wide|);
    PutInZeroes(size, wide + strings);
  }

  method ZeroedBuffer(size: nat) returns (buffer: array<nat>)
    ensures fresh(buffer) && buffer.Length == size && buffer[..] == Zeroes(size)
  {
    buffer := new nat[size](_ => 0);
  }

  /** A zeroed buffer, the script, its narrowing and the strings. */
  method FillBuffer(size: nat, path: nat, ms: seq<Mapping>, interp: Option<Interp>, stackExec: Option<nat>,
                    args: StartArgs, traced: bool, narrow: bool, s1: seq<nat>, s2: seq<nat>, s3: seq<nat>,
                    ghost words: seq<nat>, ghost strings: seq<nat>, ghost padding: nat)
    returns (buffer: array<nat>, cursor: nat)
    requires words == AllWords(ScriptOf(path, ms, interp, stackExec, args, traced))
    requires strings == s1 + s2 + s3 && size == 8 * |words| + |strings| + padding
    ensures fresh(buffer) && buffer.Length == size
    ensures cursor + padding == size
    ensures buffer[..] == Transferred(words, strings + Zeroes(padding), narrow)
  {
    buffer := ZeroedBuffer(size);
    cursor := WriteScript(buffer, path, ms, interp, stackExec, args, traced, words);
    ghost var written := buffer[..];
    cursor := NarrowAndCopy(buffer, cursor, narrow, s1, s2, s3, |words|, strings);
    BlockIs(words, strings, size, narrow, written, buffer[..], cursor);
  }

  /** The size of the block: with the padding the buffer is full. */
  lemma {:induction false} BlockSize(r: Request, align: nat, page: nat, words: seq<nat>, size: nat)
    requires Fits(r, align) && page > 0 && words == AllWords(TheScript(r, align, page))
    requires size == ScriptSize(r) + StringsSize(r, align)
    ensures size == 8 * |words| + |Strings(r)| + Padding(r, align) <= r.stackPointer
    ensures (r.stackPointer - size) % align == 0
  {
    NewStackPointerAligned(r, align);
    ScriptSizeIs(r, align, page);
  }

  /** A block of the computed size, for these words. */
  method MakeBlock(r: Request, u: nat, interp: Option<Interp>, stackExec: Option<nat>, args: StartArgs, narrow: bool,
                   size: nat, ghost words: seq<nat>, ghost padding: nat) returns (buffer: array<nat>)
    requires words == AllWords(ScriptOf(u, r.mappings, interp, stackExec, args, r.ptraced))
    requires size == 8 * |words| + |Strings(r)| + padding
    ensures fresh(buffer) && buffer.Length == size
    ensures buffer[..] == Transferred(words, Strings(r) + Zeroes(padding), narrow)
  {
    var cursor;
    buffer, cursor := FillBuffer(size, u, r.mappings, interp, stackExec, args, r.ptraced, narrow,
                                 Terminated(r.userPath), InterpString(r), RawString(r), words, Strings(r), padding);
    assert cursor + padding == buffer.Length;
  }

  lemma {:induction false} BlockAligned(r: Request, align: nat, size: nat, stackPointer: nat)
    requires Fits(r, align) && size == ScriptSize(r) + StringsSize(r, align) && stackPointer + size == r.stackPointer
    ensures stackPointer % align == 0
    ensures stackPointer + ScriptSize(r) == UserPathAddress(r, align)
  {
    NewStackPointerAligned(r, align);
  }

  method TransferBlock(r: Request, align: nat, page: nat, narrow: bool, ghost words: seq<nat>)
    returns (buffer: array<nat>, stackPointer: nat)
    requires Fits(r, align) && page > 0 && words == AllWords(TheScript(r, align, page))
    ensures fresh(buffer)
    ensures buffer.Length == ScriptSize(r) + StringsSize(r, align)
    ensures stackPointer + buffer.Length == r.stackPointer
    ensures buffer[..] == Transferred(words, Strings(r) + Zeroes(Padding(r, align)), narrow)
  {
    var size := ScriptSize(r) + StringsSize(r, align);
    ghost var padding := Padding(r, align);
    BlockSize(r, align, page, words, size);
    stackPointer := r.stackPointer - size;
    var start := if r.stackExec then Some(Floor(r.stackPointer, page)) else None;
    var user, interp, args := UserPathAddress(r, align), InterpIn(r, align), Arguments(r, align);
    buffer := MakeBlock(r, user, interp, start, args, narrow, size, words, padding);
  }

  /** transfer_load_script(): below the stack pointer and aligned, the loader finds the
      words of the script, of its own width, and every path where the script says. */
  method TransferLoadScript(r: Request, align: nat, page: nat, narrow: bool)
    returns (buffer: array<nat>, stackPointer: nat)
    requires Fits(r, align) && page > 0
    ensures fresh(buffer) && buffer.Length == ScriptSize(r) + StringsSize(r, align)
    ensures stackPointer + buffer.Length == r.stackPointer && stackPointer % align == 0
    ensures WordsReadable(AllWords(TheScript(r, align, page)), buffer[..], narrow)
    ensures PathsReadable(r, align, buffer[..], stackPointer)
    ensures EndsStarting(r, TheScript(r, align, page), buffer[..], stackPointer, page)
  {
    ghost var words := AllWords(TheScript(r, align, page));
    ScriptSizeIs(r, align, page);
    buffer, stackPointer := TransferBlock(r, align, page, narrow, words);
    BlockAligned(r, align, buffer.Length, stackPointer);
    TransferredReads(r, align, words, narrow, stackPointer);
    ArgumentsStart(r, align, buffer[..], stackPointer);
    LastStarts(r, align, page);
    FloorPage(r.stackPointer, page);
  }

  method NarrowAndCopy(buffer: array<nat>, cursor: nat, narrow: bool, user: seq<nat>, interp: seq<nat>, raw: seq<nat>,
                       ghost n: nat, ghost strings: seq<nat>) returns (next: nat)
    requires cursor == 8 * n && strings == user + interp + raw && cursor + |strings| <= buffer.Length
    modifies buffer
    ensures next == cursor + |strings|
    ensures IsCompleted(old(buffer[..]), n, narrow, strings, buffer[..])
  {
    if narrow {
      assert cursor / 8 == n;
      Narrow(buffer, cursor / 8);
    }
    next := CopyStrings(buffer, cursor, user, interp, raw);
  }

  /** Every word is found in its slot. */
  ghost predicate WordsReadable(words: seq<nat>, block: seq<nat>, narrow: bool) {
    8 * |words| <= |block| && forall i :: 0 <= i < |words| ==> ReadsAt(block, i, words[i], narrow)
  }

  /** Slot i of the block holds the word, as far as it fits. */
  ghost predicate ReadsAt(block: seq<nat>, i: nat, word: nat, narrow: bool) {
    if narrow then 4 * i + 4 <= |block| && Value(block[4 * i..4 * i + 4]) == word % 0x1_0000_0000
    else 8 * i + 8 <= |block| && Value(block[8 * i..8 * i + 8]) == word % 0x1_0000_0000_0000_0000
  }

  lemma {:induction false} BlockReads(words: seq<nat>, rest: seq<nat>, narrow: bool)
    ensures var block := Transferred(words, rest, narrow);
            WordsReadable(words, block, narrow) && block == block[..8 * |words|] + rest
  {
    var block := Transferred(words, rest, narrow);
    if narrow {
      NarrowedReads(words, rest);
    }
    forall i | 0 <= i < |words| ensures ReadsAt(block, i, words[i], narrow) {
      if narrow {
        ThinReads(words, block, i);
      } else {
        WideReads(words, block, i);
      }
    }
  }

  /** In a transferred block, the loader finds every word of the script, of its own
      width, and every path where the script says. */
  lemma {:induction false} TransferredReads(r: Request, align: nat, words: seq<nat>, narrow: bool, base: nat)
    requires Fits(r, align) && 8 * |words| == ScriptSize(r)
    requires base + ScriptSize(r) == UserPathAddress(r, align)
    ensures var block := Transferred(words, Strings(r) + Zeroes(Padding(r, align)), narrow);
            WordsReadable(words, block, narrow) && PathsReadable(r, align, block, base)
  {
    var rest := Strings(r) + Zeroes(Padding(r, align));
    var block := Transferred(words, rest, narrow);
    BlockReads(words, rest, narrow);
    var script := block[..8 * |words|];
    Reassociate(block, script, Strings(r), Zeroes(Padding(r, align)));
    StringsInPlace(r, script, Zeroes(Padding(r, align)), base, block, UserPathAddress(r, align));
  }

  lemma {:induction false} Reassociate(block: seq<nat>, a: seq<nat>, b: seq<nat>, c: seq<nat>)
    requires block == a + (b + c)
    ensures block == a + b + c
  {
  }

  lemma {:induction false} ThinReads(words: seq<nat>, block: seq<nat>, i: nat)
    requires Thin(words) <= block && i < |words|
    ensures ReadsAt(block, i, words[i], true)
  {
    ThinWord(words, i);
    SliceOfPrefix(Thin(words), block, 4 * i, 4 * i + 4);
  }

  lemma {:induction false} WideReads(words: seq<nat>, block: seq<nat>, i: nat)
    requires Wide(words) <= block && i < |words|
    ensures ReadsAt(block, i, words[i], false)
  {
    WideWord(words, i);
    SliceOfPrefix(Wide(words), block, 8 * i, 8 * i + 8);
  }

  lemma {:induction false} SliceOfPrefix(a: seq<nat>, block: seq<nat>, i: nat, j: nat)
    requires a <= block && i <= j <= |a|
    ensures block[i..j] == a[i..j]
  {
  }
}
