/**
The load script in the memory that it fills: the loader reads its own script
word by word from a memory that the mappings change around it.
 */
module ScriptMemory {
  import opened Common
  import opened Loading
  import opened LoadScript
  import opened Pages
  import opened ScriptLayout
  import opened WordBytes

  function WordLimit(narrow: bool): nat {
    if narrow then 0x1_0000_0000 else 0x1_0000_0000_0000_0000
  }

  ghost predicate AllBelow(words: seq<nat>, limit: nat) {
    forall i :: 0 <= i < |words| ==> words[i] < limit
  }

  /** The size of a word of the program. */
  function Width(narrow: bool): nat {
    if narrow then 4 else 8
  }

  predicate HoldsByte(m: Memory, a: nat, v: nat) {
    a in m && m[a].Cell? && m[a].value == v
  }

  /** A block of bytes at an address. */
  ghost predicate Stored(m: Memory, base: nat, block: seq<nat>) {
    forall i :: 0 <= i < |block| ==> HoldsByte(m, base + i, block[i])
  }

  function BlockCell(base: nat, block: seq<nat>, a: nat): Cell
    requires base <= a < base + |block|
  {
    Cell(block[a - base], Rights(true, true, false))
  }

  /** The memory with a block written into it. */
  function WithBlock(m: Memory, base: nat, block: seq<nat>): Memory {
    m + map a: nat | base <= a < base + |block| :: BlockCell(base, block, a)
  }

  lemma {:induction false} BlockStored(m: Memory, base: nat, block: seq<nat>)
    ensures Stored(WithBlock(m, base, block), base, block)
  {
    forall i | 0 <= i < |block| ensures HoldsByte(WithBlock(m, base, block), base + i, block[i]) {
      assert WithBlock(m, base, block)[base + i] == BlockCell(base, block, base + i);
    }
  }

  // ---------------------------------------------------------------------
  // What the statements leave alone
  // ---------------------------------------------------------------------

  predicate SparesAt(p: Mapping, a: nat) {
    !(p.addr <= a < p.addr + p.length) && p.clearLength <= p.length && (p.addr + p.length) % WORD == 0
  }

  predicate Spares(st: Statement, a: nat) {
    match st
    case MmapFile(p) => SparesAt(p, a)
    case MmapAnonymous(p) => SparesAt(p, a)
    case _ => true
  }

  /** No statement changes these addresses. */
  ghost predicate SparesAll(script: seq<Statement>, lo: nat, hi: nat) {
    forall i, a :: 0 <= i < |script| && lo <= a < hi ==> Spares(script[i], a)
  }

  lemma {:induction false} MapStepSpares(m: Memory, p: Mapping, file: File, page: nat, a: nat)
    requires page > 0 && SparesAt(p, a) && MapStep(m, p, file, page).Some?
    ensures var m' := MapStep(m, p, file, page).value; (a in m <==> a in m') && (a in m ==> m'[a] == m[a])
  {
    ExactEnd(p.addr + p.length - p.clearLength, p.addr + p.length);
  }

  lemma {:induction false} StepSpares(k: Kernel, st: Statement, l: Loader, a: nat)
    requires k.page > 0 && Coded(st) && Spares(st, a) && Step(k, st, l).Running?
    ensures var m, m' := l.memory, Step(k, st, l).loader.memory;
            (a in m <==> a in m') && (a in m ==> m'[a] == m[a])
  {
    match st {
      case MmapFile(p) => MapStepSpares(l.memory, p, l.fd.value, k.page, a);
      case MmapAnonymous(p) => MapStepSpares(l.memory, p.(offset := 0, clearLength := 0), [], k.page, a);
      case _ =>
    }
  }

  /** A block outside all the mappings is still there after a statement. */
  lemma {:induction false} StepKeepsBlock(k: Kernel, st: Statement, l: Loader, base: nat, block: seq<nat>)
    requires k.page > 0 && Coded(st) && Step(k, st, l).Running? && Stored(l.memory, base, block)
    requires forall a :: base <= a < base + |block| ==> Spares(st, a)
    ensures Stored(Step(k, st, l).loader.memory, base, block)
  {
    forall i | 0 <= i < |block| ensures HoldsByte(Step(k, st, l).loader.memory, base + i, block[i]) {
      StepSpares(k, st, l, base + i);
      assert HoldsByte(l.memory, base + i, block[i]);
    }
  }

  ghost predicate AllSpare(ms: seq<Mapping>, a: nat) {
    forall i :: 0 <= i < |ms| ==> SparesAt(ms[i], a)
  }

  /** The mappings of a segment stay within its pages. */
  lemma {:induction false} SegmentSpares(s: Segment, base: nat, file: File, page: nat, a: nat)
    requires Loadable(s, base, file, page)
    requires !(Floor(s.vaddr, page) + base <= a < MapEnd(s, page) + base)
    ensures AllSpare(Shift(Mappings(s, page), base), a)
  {
    var ms := Shift(Mappings(s, page), base);
    FileMappingSpares(s, base, file, page, a);
    assert ms[0] == FileMapping(s, page).(addr := FileMapping(s, page).addr + base);
    if |ms| == 2 {
      AnonymousSpares(s, base, file, page, a);
    }
  }

  lemma {:induction false} FileMappingSpares(s: Segment, base: nat, file: File, page: nat, a: nat)
    requires Loadable(s, base, file, page)
    requires !(Floor(s.vaddr, page) + base <= a < MapEnd(s, page) + base)
    ensures var p := FileMapping(s, page); SparesAt(p.(addr := p.addr + base), a)
  {
    FileMappingBounds(s, base, file, page);
    MapEndBounds(s, page);
  }

  lemma {:induction false} AnonymousSpares(s: Segment, base: nat, file: File, page: nat, a: nat)
    requires Loadable(s, base, file, page) && MapEnd(s, page) > FileEnd(s, page)
    requires !(Floor(s.vaddr, page) + base <= a < MapEnd(s, page) + base)
    ensures SparesAt(Mapping(FileEnd(s, page) + base, MapEnd(s, page) - FileEnd(s, page), Prot(s), 0, 0, true), a)
  {
    MapEndBounds(s, page);
    FloorPage(s.vaddr + s.memsz + page, page);
    AlignedSum(MapEnd(s, page), base, page);
    AlignedDown(MapEnd(s, page) + base, page, WORD);
  }

  lemma {:induction false} ObjectSpares(ss: seq<Segment>, base: nat, file: File, page: nat, a: nat)
    requires AllLoadable(ss, base, file, page) && Untouched(ss, base, page, a)
    ensures AllSpare(Shift(AllMappings(ss, page), base), a)
    decreases |ss|
  {
    if ss != [] {
      var n := |ss| - 1;
      assert forall i :: 0 <= i < n ==> ss[..n][i] == ss[i];
      ObjectSpares(ss[..n], base, file, page, a);
      SegmentSpares(ss[n], base, file, page, a);
      ShiftAppend(AllMappings(ss[..n], page), Mappings(ss[n], page), base);
    }
  }

  lemma {:induction false} StatementsSpare(ms: seq<Mapping>, a: nat, i: nat)
    requires AllSpare(ms, a) && i < |StatementsOf(ms)|
    ensures Spares(StatementsOf(ms)[i], a)
  {
    assert SparesAt(ms[0], a);
    if i > 0 {
      assert forall j :: 0 <= j < |ms| - 1 ==> ms[1..][j] == ms[j + 1];
      StatementsSpare(ms[1..], a, i - 1);
    }
  }

  lemma {:induction false} PartSpares(opening: Statement, ms: seq<Mapping>, a: nat, i: nat)
    requires AllSpare(ms, a) && (opening.Open? || opening.OpenNext?) && i < |ObjectPart(opening, ms)|
    ensures Spares(ObjectPart(opening, ms)[i], a)
  {
    if i > 0 {
      StatementsSpare(ms, a, i - 1);
    }
  }

  /** The script of objects whose pages are elsewhere spares an address. */
  lemma {:induction false} ScriptSpares(path: nat, ms: seq<Mapping>, interp: Option<Interp>, stackExec: Option<nat>,
                                        args: StartArgs, traced: bool, a: nat, i: nat)
    requires AllSpare(ms, a) && (interp.Some? ==> AllSpare(interp.value.mappings, a))
    requires i < |ScriptOf(path, ms, interp, stackExec, args, traced)|
    ensures Spares(ScriptOf(path, ms, interp, stackExec, args, traced)[i], a)
  {
    var one, two := ObjectPart(Open(path), ms), InterpPart(interp);
    if i < |one| {
      PartSpares(Open(path), ms, a, i);
    } else if i < |one| + |two| {
      PartSpares(OpenNext(interp.value.path), interp.value.mappings, a, i - |one|);
    }
  }

  // ---------------------------------------------------------------------
  // Words read from memory
  // ---------------------------------------------------------------------

  method LoadBytes(m: Memory, a: nat, n: nat, ghost bytes: seq<nat>) returns (r: seq<nat>)
    requires |bytes| == n && Stored(m, a, bytes)
    ensures r == bytes
  {
    r := [];
    var i := 0;
    while i < n
      invariant 0 <= i <= n && r == bytes[..i]
    {
      assert HoldsByte(m, a + i, bytes[i]);
      r := r + [m[a + i].value];
      i := i + 1;
    }
  }

  lemma {:induction false} StoredSlice(m: Memory, base: nat, block: seq<nat>, lo: nat, hi: nat)
    requires Stored(m, base, block) && lo <= hi <= |block|
    ensures Stored(m, base + lo, block[lo..hi])
  {
    forall i | 0 <= i < hi - lo ensures HoldsByte(m, base + lo + i, block[lo..hi][i]) {
      assert HoldsByte(m, base + (lo + i), block[lo + i]);
    }
  }

  lemma {:induction false} SmallWord(w: nat, narrow: bool)
    requires w < WordLimit(narrow)
    ensures w % WordLimit(narrow) == w
  {
  }

  /** Word `i` of the script, from the memory. */
  method LoadWord(m: Memory, address: nat, narrow: bool, ghost base: nat, ghost block: seq<nat>, ghost i: nat,
                  ghost word: nat) returns (w: nat)
    requires Stored(m, base, block) && address == base + Width(narrow) * i
    requires ReadsAt(block, i, word, narrow) && word < WordLimit(narrow)
    ensures w == word
  {
    ghost var lo := Width(narrow) * i;
    StoredSlice(m, base, block, lo, lo + Width(narrow));
    SmallWord(word, narrow);
    var bytes := LoadBytes(m, address, Width(narrow), block[lo..lo + Width(narrow)]);
    w := Value(bytes);
  }

  /** Words `n` to `n + count` of the script. */
  method LoadWords(m: Memory, cursor: nat, count: nat, narrow: bool, ghost base: nat, ghost block: seq<nat>,
                   ghost words: seq<nat>, ghost n: nat) returns (r: seq<nat>)
    requires Stored(m, base, block) && WordsReadable(words, block, narrow) && AllBelow(words, WordLimit(narrow))
    requires cursor == base + Width(narrow) * n && n + count <= |words|
    ensures r == words[n..n + count]
  {
    r := [];
    while |r| < count
      invariant |r| <= count && r == words[n..n + |r|]
      decreases count - |r|
    {
      ghost var i := n + |r|;
      assert ReadsAt(block, i, words[i], narrow);
      NextAddress(base, narrow, n, |r|);
      var w := LoadWord(m, cursor + Width(narrow) * |r|, narrow, base, block, i, words[i]);
      r := r + [w];
    }
  }

  /** The number of words of a statement, by its action. */
  function Length(action: nat): nat {
    if action == 2 || action == 3 then 6 else if action == 5 || action == 6 then 8 else 2
  }

  lemma {:induction false} LengthIs(st: Statement)
    ensures |Words(st)| == Length(Words(st)[0]) && |Words(st)| > 0
  {
  }

  /** The words from `n` on are those of a statement. */
  ghost predicate AtWord(words: seq<nat>, n: nat, st: Statement) {
    n + |Words(st)| <= |words| && words[n..n + |Words(st)|] == Words(st)
  }

  /** The statement at the cursor: its action, then as many words as it has. */
  method LoadStatement(m: Memory, cursor: nat, narrow: bool, ghost base: nat, ghost block: seq<nat>,
                       ghost words: seq<nat>, ghost n: nat, ghost st: Statement) returns (r: seq<nat>)
    requires Stored(m, base, block) && WordsReadable(words, block, narrow) && AllBelow(words, WordLimit(narrow))
    requires cursor == base + Width(narrow) * n && AtWord(words, n, st)
    ensures r == Words(st)
  {
    LengthIs(st);
    r := LoadWords(m, cursor, 1, narrow, base, block, words, n);
    assert r[0] == words[n] == words[n..n + |Words(st)|][0];
    r := LoadWords(m, cursor, Length(r[0]), narrow, base, block, words, n);
  }

  lemma {:induction false} NextAddress(base: nat, narrow: bool, n: nat, k: nat)
    ensures base + Width(narrow) * n + Width(narrow) * k == base + Width(narrow) * (n + k)
  {
  }

  /** Where the loader is in its script. */
  ghost predicate Reading(words: seq<nat>, n: nat, rest: seq<Statement>) {
    n <= |words| && words[n..] == AllWords(rest) && Complete(rest)
  }

  lemma {:induction false} ReadingNext(words: seq<nat>, n: nat, rest: seq<Statement>)
    requires Reading(words, n, rest)
    ensures AtWord(words, n, rest[0])
    ensures !Starting(rest[0]) ==> Reading(words, n + |Words(rest[0])|, rest[1..])
  {
    CompleteRest(rest);
    HeadOf(words, n, Words(rest[0]), AllWords(rest[1..]));
  }

  lemma {:induction false} HeadOf(words: seq<nat>, n: nat, head: seq<nat>, tail: seq<nat>)
    requires n <= |words| && words[n..] == head + tail
    ensures n + |head| <= |words| && words[n..n + |head|] == head && words[n + |head|..] == tail
  {
    assert words[n..n + |head|] == words[n..][..|head|];
    assert words[n + |head|..] == words[n..][|head|..];
  }

  lemma {:induction false} SparesRest(script: seq<Statement>, lo: nat, hi: nat)
    requires script != [] && SparesAll(script, lo, hi)
    ensures SparesAll(script[1..], lo, hi)
  {
    forall i, a | 0 <= i < |script[1..]| && lo <= a < hi ensures Spares(script[1..][i], a) {
      assert Spares(script[i + 1], a);
    }
  }

  /** One statement, read from the memory and carried out. */
  method StepAt(loader: Interpreter, cursor: nat, narrow: bool, ghost base: nat, ghost block: seq<nat>,
                ghost words: seq<nat>, ghost n: nat, ghost rest: seq<Statement>)
    returns (outcome: Outcome, size: nat)
    requires loader.k.page > 0 && Reading(words, n, rest) && cursor == base + Width(narrow) * n
    requires Stored(loader.memory, base, block)
    requires WordsReadable(words, block, narrow) && AllBelow(words, WordLimit(narrow))
    modifies loader
    ensures outcome == Step(loader.k, rest[0], old(loader.State()))
    ensures outcome.Running? ==> outcome.loader == loader.State() && size == |Words(rest[0])|
  {
    ghost var st := rest[0];
    ReadingNext(words, n, rest);
    var statement := LoadStatement(loader.memory, cursor, narrow, base, block, words, n, st);
    outcome, size := loader.StepWords(statement, st);
  }

  lemma {:induction false} StepLeavesBlock(k: Kernel, st: Statement, l: Loader, base: nat, block: seq<nat>,
                                           outcome: Outcome)
    requires k.page > 0 && Coded(st) && outcome == Step(k, st, l) && Stored(l.memory, base, block)
    requires forall a :: base <= a < base + |block| ==> Spares(st, a)
    ensures outcome.Running? || outcome.Started? ==> Stored(outcome.loader.memory, base, block)
  {
    if outcome.Running? {
      StepKeepsBlock(k, st, l, base, block);
    }
  }

  /** What holds while the loader is under way in its script. */
  ghost predicate Underway(k: Kernel, words: seq<nat>, n: nat, rest: seq<Statement>, now: Loader, base: nat,
                           block: seq<nat>, whole: Outcome)
    requires k.page > 0
  {
    && Reading(words, n, rest) && Stored(now.memory, base, block) && SparesAll(rest, base, base + |block|)
    && Execute(k, rest, now) == whole
  }

  lemma {:induction false} UnderwayStep(k: Kernel, words: seq<nat>, n: nat, rest: seq<Statement>, now: Loader,
                                        base: nat, block: seq<nat>, whole: Outcome)
    requires k.page > 0 && Underway(k, words, n, rest, now, base, block, whole)
    ensures var outcome := Step(k, rest[0], now);
            if outcome.Running? then
              Underway(k, words, n + |Words(rest[0])|, rest[1..], outcome.loader, base, block, whole)
            else outcome == whole && (outcome.Started? ==> Stored(outcome.loader.memory, base, block))
  {
    ReadingNext(words, n, rest);
    SparesRest(rest, base, base + |block|);
    StepLeavesBlock(k, rest[0], now, base, block, Step(k, rest[0], now));
  }

  /** _start(), reading from memory: since no statement changes the script, the loader
      does what its script means, and the script stays in the memory to the end. */
  method InterpretAt(loader: Interpreter, base: nat, narrow: bool, ghost block: seq<nat>, ghost script: seq<Statement>)
    returns (outcome: Outcome)
    requires loader.k.page > 0 && Complete(script) && Stored(loader.memory, base, block)
    requires WordsReadable(AllWords(script), block, narrow) && AllBelow(AllWords(script), WordLimit(narrow))
    requires SparesAll(script, base, base + |block|)
    modifies loader
    ensures outcome == Execute(loader.k, script, old(loader.State()))
    ensures outcome.Started? ==> Stored(outcome.loader.memory, base, block)
  {
    var cursor := base;
    ghost var words, n, rest, now := AllWords(script), 0, script, loader.State();
    ghost var whole := Execute(loader.k, script, now);
    assert words[0..] == words;
    while true
      invariant now == loader.State()
      invariant cursor == base + Width(narrow) * n
      invariant Underway(loader.k, words, n, rest, now, base, block, whole)
      decreases |rest|
    {
      var size;
      UnderwayStep(loader.k, words, n, rest, now, base, block, whole);
      outcome, size := StepAt(loader, cursor, narrow, base, block, words, n, rest);
      if !outcome.Running? {
        return;
      }
      NextAddress(base, narrow, n, size);
      cursor := cursor + Width(narrow) * size;
      n, rest, now := n + size, rest[1..], loader.State();
    }
  }
}
