/**
Arrays of pointers to strings of a tracee, where each entry is either still
remote or a local copy, against plain lists of strings.
 */
module RemoteArray {
  import opened Common
  import opened RemoteString
  import opened WordBytes

  const ARG_MAX: nat := 131072

  type Text = seq<nat>

  // ---------------------------------------------------------------------
  // Memory
  // ---------------------------------------------------------------------

  ghost predicate Holds(m: Mem, at: nat, bs: seq<nat>) {
    forall a: nat :: at <= a < at + |bs| ==> a in m && m[a] == bs[a - at]
  }

  function Written(m: Mem, at: nat, bs: seq<nat>): Mem {
    m + map a: nat | at <= a < at + |bs| && InBlock(at, bs, a) :: bs[a - at]
  }

  predicate InBlock(at: nat, bs: seq<nat>, a: nat) {
    at <= a < at + |bs|
  }

  lemma {:induction false} WrittenHolds(m: Mem, at: nat, bs: seq<nat>)
    ensures Holds(Written(m, at, bs), at, bs)
  {
  }

  lemma {:induction false} HoldsPart(m: Mem, at: nat, bs: seq<nat>, i: nat, j: nat)
    requires Holds(m, at, bs) && i <= j <= |bs|
    ensures Holds(m, at + i, bs[i..j])
  {
  }

  lemma {:induction false} HoldsElsewhere(m: Mem, at: nat, bs: seq<nat>, a: nat, t: seq<nat>)
    requires Holds(m, a, t) && (a + |t| <= at || at + |bs| <= a)
    ensures Holds(Written(m, at, bs), a, t)
  {
  }

  predicate NoNul(s: Text) {
    forall i :: 0 <= i < |s| ==> s[i] != 0
  }

  /** A NUL-terminated string. */
  ghost predicate HoldsText(m: Mem, at: nat, s: Text) {
    NoNul(s) && Holds(m, at, s + [0])
  }

  /** At an address there is at most one string. */
  lemma {:induction false} TextUnique(m: Mem, at: nat, s: Text, t: Text)
    requires HoldsText(m, at, s) && HoldsText(m, at, t)
    ensures s == t
  {
    NotLonger(m, at, s, t);
    NotLonger(m, at, t, s);
    forall i | 0 <= i < |s| ensures s[i] == t[i] {
      assert at + i in m && (s + [0])[i] == s[i] && (t + [0])[i] == t[i];
    }
  }

  lemma {:induction false} NotLonger(m: Mem, at: nat, s: Text, t: Text)
    requires HoldsText(m, at, s) && HoldsText(m, at, t)
    ensures |t| <= |s|
  {
    var end := at + |s|;
    assert end in m && m[end] == (s + [0])[|s|] == 0;
    assert forall i :: 0 <= i < |t| ==> (t + [0])[i] == t[i] != 0;
  }

  // ---------------------------------------------------------------------
  // Mixed pointers
  // ---------------------------------------------------------------------

  datatype XPointer = XPointer(remote: nat, local: Option<Text>)

  /** What an entry stands for; None is the NULL pointer. */
  ghost predicate Denotes(m: Mem, x: XPointer, v: Option<Text>) {
    if x.local.Some? then v == x.local && NoNul(x.local.value)
    else if x.remote == 0 then v == None
    else v.Some? && HoldsText(m, x.remote, v.value)
  }

  ghost predicate Represents(m: Mem, xs: seq<XPointer>, vs: seq<Option<Text>>) {
    |xs| == |vs| && forall i :: 0 <= i < |xs| ==> Denotes(m, xs[i], vs[i])
  }

  function Repeated(n: nat): seq<Option<Text>> {
    seq(n, i requires 0 <= i < n => None)
  }

  /** `delta` NULL entries inserted, or as many entries removed, before `index`. */
  function Resized(vs: seq<Option<Text>>, index: nat, delta: int): seq<Option<Text>>
    requires index < |vs| && 0 <= index + delta
  {
    if delta >= 0 then vs[..index] + Repeated(delta) + vs[index..] else vs[..index + delta] + vs[index..]
  }

  function ResizedEntries(xs: seq<XPointer>, index: nat, delta: int): seq<XPointer>
    requires index < |xs| && 0 <= index + delta
  {
    if delta >= 0
    then xs[..index] + seq(delta, i requires 0 <= i < delta => XPointer(0, None)) + xs[index..]
    else xs[..index + delta] + xs[index..]
  }

  /** Resizing commutes with the meaning. */
  lemma {:induction false} ResizedRepresents(m: Mem, xs: seq<XPointer>, vs: seq<Option<Text>>, index: nat, delta: int)
    requires Represents(m, xs, vs) && index < |xs| && 0 <= index + delta
    ensures Represents(m, ResizedEntries(xs, index, delta), Resized(vs, index, delta))
  {
  }

  // ---------------------------------------------------------------------
  // Pointer tables
  // ---------------------------------------------------------------------

  function WordSize(is32: bool): nat {
    if is32 then 4 else 8
  }

  /** The bytes of n words. */
  function Size(n: nat, is32: bool): nat {
    if is32 then 4 * n else 8 * n
  }

  function Table(ps: seq<nat>, is32: bool): (r: seq<nat>)
    ensures |r| == Size(|ps|, is32)
  {
    if is32 then Thin(ps) else Wide(ps)
  }

  predicate Addressable(p: nat, is32: bool) {
    p < if is32 then 0x1_0000_0000 else 0x1_0000_0000_0000_0000
  }

  /** Word `i` of a table in memory. */
  ghost predicate PointsTo(m: Mem, at: nat, is32: bool, i: nat, p: nat) {
    Addressable(p, is32) && Holds(m, at + Size(i, is32), Bytes(p, WordSize(is32)))
  }

  /** `table` holds the words `ps`. */
  ghost predicate IsTable(table: seq<nat>, ps: seq<nat>, is32: bool) {
    && |table| == Size(|ps|, is32)
    && forall i :: 0 <= i < |ps| ==> table[Size(i, is32)..Size(i + 1, is32)] == Bytes(ps[i], WordSize(is32))
  }

  lemma {:induction false} ThinIs(ps: seq<nat>)
    ensures IsTable(Thin(ps), ps, true)
  {
    forall i | 0 <= i < |ps| ensures Thin(ps)[Size(i, true)..Size(i + 1, true)] == Bytes(ps[i], WordSize(true)) {
      ThinWord(ps, i);
    }
  }

  lemma {:induction false} WideIs(ps: seq<nat>)
    ensures IsTable(Wide(ps), ps, false)
  {
    forall i | 0 <= i < |ps| ensures Wide(ps)[Size(i, false)..Size(i + 1, false)] == Bytes(ps[i], WordSize(false)) {
      WideWord(ps, i);
    }
  }

  lemma {:induction false} TableIs(ps: seq<nat>, is32: bool)
    ensures IsTable(Table(ps, is32), ps, is32)
  {
    ThinIs(ps);
    WideIs(ps);
  }

  lemma {:induction false} TablePoints(m: Mem, at: nat, table: seq<nat>, ps: seq<nat>, is32: bool, i: nat)
    requires IsTable(table, ps, is32)
    requires Holds(m, at, table) && i < |ps| && Addressable(ps[i], is32)
    ensures PointsTo(m, at, is32, i, ps[i])
  {
    HoldsPart(m, at, table, Size(i, is32), Size(i + 1, is32));
    assert table[Size(i, is32)..Size(i + 1, is32)] == Bytes(ps[i], WordSize(is32));
  }

  // ---------------------------------------------------------------------
  // The block that is pushed
  // ---------------------------------------------------------------------

  /** The local strings, one after the other. */
  function Locals(xs: seq<XPointer>): seq<nat> {
    if xs == [] then []
    else
      Locals(xs[..|xs| - 1]) +
      match xs[|xs| - 1].local case None => [] case Some(s) => s + [0]
  }

  /** Where entry `i` will point to, in a block at `ptr`. */
  function Pointer(xs: seq<XPointer>, i: nat, ptr: nat, is32: bool): nat
    requires i < |xs|
  {
    if xs[i].local.None? then xs[i].remote else ptr + Size(|xs|, is32) + |Locals(xs[..i])|
  }

  function Pointers(xs: seq<XPointer>, ptr: nat, is32: bool): seq<nat> {
    seq(|xs|, i requires 0 <= i < |xs| => Pointer(xs, i, ptr, is32))
  }

  function Block(xs: seq<XPointer>, ptr: nat, is32: bool): seq<nat> {
    Table(Pointers(xs, ptr, is32), is32) + Locals(xs)
  }

  /** A local string is a slice of the locals. */
  lemma {:induction false} LocalSlice(xs: seq<XPointer>, i: nat)
    requires i < |xs| && xs[i].local.Some?
    ensures var s := xs[i].local.value; var at := |Locals(xs[..i])|;
            at + |s| + 1 <= |Locals(xs)| && Locals(xs)[at..at + |s| + 1] == s + [0]
    decreases |xs|
  {
    var n := |xs| - 1;
    if i < n {
      LocalSlice(xs[..n], i);
      assert xs[..n][..i] == xs[..i];
    }
  }

  ghost predicate AllAddressable(ps: seq<nat>, is32: bool) {
    forall i :: 0 <= i < |ps| ==> Addressable(ps[i], is32)
  }

  /** The strings that stay remote do not overlap the block. */
  ghost predicate Clear(xs: seq<XPointer>, vs: seq<Option<Text>>, ptr: nat, size: nat)
    requires |xs| == |vs|
  {
    forall i :: 0 <= i < |xs| && xs[i].local.None? && vs[i].Some? ==>
      xs[i].remote + |vs[i].value| + 1 <= ptr || ptr + size <= xs[i].remote
  }

  /** Word `i` of the table at `ptr` points to `v`. */
  ghost predicate EntryOf(m: Mem, ptr: nat, is32: bool, i: nat, v: Option<Text>) {
    exists p: nat :: PointsTo(m, ptr, is32, i, p) && Denotes(m, XPointer(p, None), v)
  }

  /** The list that a table at `ptr` describes. */
  ghost predicate TableOf(m: Mem, ptr: nat, is32: bool, vs: seq<Option<Text>>) {
    forall i :: 0 <= i < |vs| ==> EntryOf(m, ptr, is32, i, vs[i])
  }

  /** The pushed block reads back as the same list. */
  lemma {:induction false} BlockReadsBack(m: Mem, xs: seq<XPointer>, vs: seq<Option<Text>>, ptr: nat, is32: bool)
    requires Represents(m, xs, vs) && ptr > 0
    requires AllAddressable(Pointers(xs, ptr, is32), is32)
    requires Clear(xs, vs, ptr, |Block(xs, ptr, is32)|)
    ensures TableOf(Written(m, ptr, Block(xs, ptr, is32)), ptr, is32, vs)
  {
    TableIs(Pointers(xs, ptr, is32), is32);
    TableReadsBack(m, xs, vs, ptr, is32, Table(Pointers(xs, ptr, is32), is32));
  }

  lemma {:induction false} TableReadsBack(m: Mem, xs: seq<XPointer>, vs: seq<Option<Text>>, ptr: nat, is32: bool,
                                          table: seq<nat>)
    requires Represents(m, xs, vs) && ptr > 0
    requires AllAddressable(Pointers(xs, ptr, is32), is32) && IsTable(table, Pointers(xs, ptr, is32), is32)
    requires Clear(xs, vs, ptr, |table + Locals(xs)|)
    ensures TableOf(Written(m, ptr, table + Locals(xs)), ptr, is32, vs)
  {
    var block := table + Locals(xs);
    var ps := Pointers(xs, ptr, is32);
    var m' := Written(m, ptr, block);
    WrittenHolds(m, ptr, block);
    HoldsPart(m', ptr, block, 0, |table|);
    assert block[0..|table|] == table;
    forall i | 0 <= i < |vs| ensures EntryOf(m', ptr, is32, i, vs[i]) {
      TablePoints(m', ptr, table, ps, is32, i);
      EntryReadsBack(m, xs, vs, ptr, is32, table, i);
      var p := ps[i];
      assert p == Pointer(xs, i, ptr, is32);
      assert PointsTo(m', ptr, is32, i, p) && Denotes(m', XPointer(p, None), vs[i]);
    }
  }

  lemma {:induction false} LocalHeld(m: Mem, ptr: nat, table: seq<nat>, locals: seq<nat>, s: Text, at: nat, p: nat)
    requires at + |s| + 1 <= |locals| && locals[at..at + |s| + 1] == s + [0] && NoNul(s)
    requires p == ptr + |table| + at && p > 0
    ensures Denotes(Written(m, ptr, table + locals), XPointer(p, None), Some(s))
  {
    var block := table + locals;
    WrittenHolds(m, ptr, block);
    HoldsPart(Written(m, ptr, block), ptr, block, |table| + at, |table| + at + |s| + 1);
    assert block[|table| + at..|table| + at + |s| + 1] == s + [0];
  }

  lemma {:induction false} EntryReadsBack(m: Mem, xs: seq<XPointer>, vs: seq<Option<Text>>, ptr: nat, is32: bool,
                                          table: seq<nat>,
                       i: nat)
    requires Represents(m, xs, vs) && ptr > 0 && i < |xs| && |table| == Size(|xs|, is32)
    requires Clear(xs, vs, ptr, |table + Locals(xs)|)
    ensures Denotes(Written(m, ptr, table + Locals(xs)), XPointer(Pointer(xs, i, ptr, is32), None), vs[i])
  {
    var block := table + Locals(xs);
    assert Denotes(m, xs[i], vs[i]);
    if xs[i].local.Some? {
      LocalSlice(xs, i);
      LocalHeld(m, ptr, table, Locals(xs), xs[i].local.value, |Locals(xs[..i])|, Pointer(xs, i, ptr, is32));
    } else if vs[i].Some? {
      HoldsElsewhere(m, ptr, block, xs[i].remote, vs[i].value + [0]);
    }
  }

  // ---------------------------------------------------------------------
  // Reading the tracee
  // ---------------------------------------------------------------------

  /** The n bytes at `a`, if they are mapped. */
  function Load(m: Mem, a: nat, n: nat): Option<seq<nat>> {
    if n == 0 then Some([])
    else
      match Load(m, a, n - 1)
      case None => None
      case Some(bs) => if a + n - 1 in m then Some(bs + [m[a + n - 1]]) else None
  }

  lemma {:induction false} LoadHeld(m: Mem, a: nat, bs: seq<nat>)
    requires Holds(m, a, bs)
    ensures Load(m, a, |bs|) == Some(bs)
    decreases |bs|
  {
    if bs != [] {
      var n := |bs| - 1;
      LoadHeld(m, a, bs[..n]);
      assert bs[..n] + [bs[n]] == bs;
    }
  }

  /** peek_word() */
  function Word(m: Mem, a: nat, is32: bool): Option<nat> {
    match Load(m, a, WordSize(is32)) case None => None case Some(bs) => Some(Value(bs))
  }

  lemma {:induction false} WordPointed(m: Mem, at: nat, is32: bool, i: nat, p: nat)
    requires PointsTo(m, at, is32, i, p)
    ensures Word(m, at + Size(i, is32), is32) == Some(p)
  {
    PowerOfWords();
    ValueLoaded(m, at + Size(i, is32), p, WordSize(is32));
  }

  lemma {:induction false} ValueLoaded(m: Mem, a: nat, p: nat, n: nat)
    requires Holds(m, a, Bytes(p, n)) && p < Power(n)
    ensures Load(m, a, n).Some? && Value(Load(m, a, n).value) == p
  {
    var bs := Bytes(p, n);
    LoadHeld(m, a, bs);
    ValueOfBytes(p, n);
    SmallModulo(p, Power(n));
  }

  lemma {:induction false} SmallModulo(p: nat, n: nat)
    requires p < n
    ensures p % n == p
  {
  }

  /** The entries that fetching gives: all the words up to NULL. */
  ghost predicate Fetched(m: Mem, at: nat, is32: bool, xs: seq<XPointer>) {
    && xs != [] && xs[|xs| - 1].remote == 0
    && forall i :: 0 <= i < |xs| ==>
         xs[i].local.None? && Word(m, at + Size(i, is32), is32) == Some(xs[i].remote)
         && (i < |xs| - 1 ==> xs[i].remote != 0)
  }

  /** The NULL pointer is the last, and only there. */
  predicate Terminated(vs: seq<Option<Text>>) {
    vs != [] && forall i :: 0 <= i < |vs| ==> (vs[i].None? <==> i == |vs| - 1)
  }

  /** What is fetched from a table is its list. */
  lemma {:induction false} FetchedRepresents(m: Mem, at: nat, is32: bool, xs: seq<XPointer>, vs: seq<Option<Text>>)
    requires Fetched(m, at, is32, xs) && TableOf(m, at, is32, vs) && Terminated(vs)
    ensures Represents(m, xs, vs)
  {
    forall i | 0 <= i < |xs| && i < |vs| ensures Denotes(m, xs[i], vs[i]) {
      assert EntryOf(m, at, is32, i, vs[i]);
      var p: nat :| PointsTo(m, at, is32, i, p) && Denotes(m, XPointer(p, None), vs[i]);
      WordPointed(m, at, is32, i, p);
      assert xs[i] == XPointer(p, None);
    }
    assert forall i :: 0 <= i < |xs| && i < |vs| ==> (xs[i].remote == 0 <==> vs[i].None?);
    assert xs[|xs| - 1].remote == 0 && vs[|vs| - 1].None?;
  }

  /** A table that was fetched is readable. */
  lemma {:induction false} FetchedReadable(m: Mem, at: nat, is32: bool, xs: seq<XPointer>, n: nat)
    requires Fetched(m, at, is32, xs)
    ensures !Unreadable(m, at, is32, n)
  {
    var i := if n < |xs| then n else |xs| - 1;
    assert Word(m, at + Size(i, is32), is32) == Some(xs[i].remote);
  }

  /** A table that describes a list can be fetched. */
  lemma {:induction false} TableReadable(m: Mem, at: nat, is32: bool, vs: seq<Option<Text>>, n: nat)
    requires TableOf(m, at, is32, vs) && Terminated(vs)
    ensures !Unreadable(m, at, is32, n)
  {
    var i := if n < |vs| then n else |vs| - 1;
    assert EntryOf(m, at, is32, i, vs[i]);
    var p: nat :| PointsTo(m, at, is32, i, p) && Denotes(m, XPointer(p, None), vs[i]);
    WordPointed(m, at, is32, i, p);
  }

  /** Pushing an array and fetching it again gives the same list. */
  lemma {:induction false} PushFetchRoundTrip(m: Mem, xs: seq<XPointer>, vs: seq<Option<Text>>, ptr: nat, is32: bool,
                                              ys: seq<XPointer>)
    requires Represents(m, xs, vs) && Terminated(vs) && ptr > 0
    requires AllAddressable(Pointers(xs, ptr, is32), is32) && Clear(xs, vs, ptr, |Block(xs, ptr, is32)|)
    requires Fetched(Written(m, ptr, Block(xs, ptr, is32)), ptr, is32, ys)
    ensures Represents(Written(m, ptr, Block(xs, ptr, is32)), ys, vs)
  {
    BlockReadsBack(m, xs, vs, ptr, is32);
    FetchedRepresents(Written(m, ptr, Block(xs, ptr, is32)), ptr, is32, ys, vs);
  }

  /** Every outcome of reading a string: what read_string() reports, except that
      a string that fills the buffer is refused. */
  ghost predicate TextRead(m: Mem, a: nat, vm: bool, r: Result<Text>) {
    && (r.Ok? ==> HoldsText(m, a, r.value) && |r.value| + 1 < ARG_MAX)
    && (forall n: nat :: n < ARG_MAX && StringOf(m, a, n) ==>
          if !vm && !Mapped(m, a, WordEnd(n)) then r == Err(EFAULT)
          else if n + 1 == ARG_MAX then r == Err(ENOMEM) else r.Ok? && |r.value| == n)
    && (forall n: nat :: n < ARG_MAX && Faults(m, a, n) ==> r == Err(EFAULT))
    && (Unterminated(m, a, ARG_MAX) ==>
          r == Err(if Mapped(m, a, WordEnd(ARG_MAX)) then ENOMEM else EFAULT))
  }

  /** The string at `a`, if it and its NUL take fewer than ARG_MAX bytes. */
  method ReadText(m: Mem, a: nat, page: nat, vm: bool) returns (r: Result<Text>)
    requires page > 0 && page % Chunk(page) == 0 && Paged(m, page)
    ensures TextRead(m, a, vm, r)
  {
    var dest := new nat[ARG_MAX];
    var status := ReadString(m, a, ARG_MAX, page, vm, dest);
    OneOutcome(m, a, ARG_MAX);
    if status.Err? {
      return Err(EFAULT);
    }
    if status.value >= ARG_MAX {
      return Err(ENOMEM);
    }
    var n := status.value - 1;
    r := Ok(dest[..n]);
    CopiedText(m, a, dest[..], n);
  }

  lemma {:induction false} CopiedText(m: Mem, a: nat, dest: seq<nat>, n: nat)
    requires Copied(m, a, dest, n + 1) && StringOf(m, a, n)
    ensures HoldsText(m, a, dest[..n])
  {
    var s := dest[..n];
    forall b: nat | a <= b < a + n + 1 ensures b in m && m[b] == (s + [0])[b - a] {
      assert dest[b - a] == m[b];
    }
    forall i | 0 <= i < n ensures s[i] != 0 {
      assert a + i in m && m[a + i] != 0;
    }
  }

  /** Words before the NULL pointer. */
  ghost predicate FetchedPrefix(m: Mem, at: nat, is32: bool, xs: seq<XPointer>) {
    forall i :: 0 <= i < |xs| ==>
      xs[i].local.None? && Word(m, at + Size(i, is32), is32) == Some(xs[i].remote) && xs[i].remote != 0
  }

  lemma {:induction false} FetchedGrows(m: Mem, at: nat, is32: bool, xs: seq<XPointer>, p: nat)
    requires FetchedPrefix(m, at, is32, xs) && Word(m, at + Size(|xs|, is32), is32) == Some(p)
    ensures p != 0 ==> FetchedPrefix(m, at, is32, xs + [XPointer(p, None)])
    ensures p == 0 ==> Fetched(m, at, is32, xs + [XPointer(p, None)])
  {
  }

  /** Where a table can not be read, before any NULL. */
  ghost predicate Unreadable(m: Mem, at: nat, is32: bool, n: nat) {
    && Word(m, at + Size(n, is32), is32).None?
    && forall i :: 0 <= i < n ==>
         Word(m, at + Size(i, is32), is32).Some? && Word(m, at + Size(i, is32), is32).value != 0
  }

  method PeekWord(m: Mem, a: nat, is32: bool) returns (w: Option<nat>)
    ensures w == Word(m, a, is32)
    ensures w.Some? ==> a in m
  {
    w := Word(m, a, is32);
    if w.Some? {
      LoadedFirst(m, a, WordSize(is32));
    }
  }

  /** fetch_array_of_xpointers(), up to NULL */
  method Fetch(m: Mem, at: nat, is32: bool) returns (r: Result<seq<XPointer>>)
    ensures r.Ok? ==> Fetched(m, at, is32, r.value)
    ensures r.Err? ==> r == Err(EFAULT) && exists n: nat :: Unreadable(m, at, is32, n)
  {
    var xs: seq<XPointer> := [];
    ghost var left := m.Keys;
    while true
      invariant FetchedPrefix(m, at, is32, xs)
      invariant forall a :: a in m && a >= at + Size(|xs|, is32) ==> a in left
      decreases left
    {
      var a := at + Size(|xs|, is32);
      var w := PeekWord(m, a, is32);
      if w.None? {
        assert Unreadable(m, at, is32, |xs|);
        return Err(EFAULT);
      }
      FetchedGrows(m, at, is32, xs, w.value);
      xs := xs + [XPointer(w.value, None)];
      if w.value == 0 {
        return Ok(xs);
      }
      left := left - {a};
    }
  }

  lemma {:induction false} LoadedFirst(m: Mem, a: nat, n: nat)
    requires n > 0 && Load(m, a, n).Some?
    ensures a in m
    decreases n
  {
    if n > 1 {
      LoadedFirst(m, a, n - 1);
    }
  }

  // ---------------------------------------------------------------------
  // The array
  // ---------------------------------------------------------------------

  /** alloc_mem(): below the stack pointer, and below the red zone the first time. */
  method AllocMem(sp: nat, originalSp: nat, size: nat, redZone: nat) returns (r: Option<nat>)
    ensures var whole := if sp == originalSp then size + redZone else size;
            r == if sp <= whole && whole > 0 then None else Some(sp - whole)
  {
    var whole := size;
    if sp == originalSp {
      whole := whole + redZone;
    }
    if whole > 0 && sp <= whole {
      return None;
    }
    return Some(sp - whole);
  }

  function CountLocals(xs: seq<XPointer>): nat {
    if xs == [] then 0 else CountLocals(xs[..|xs| - 1]) + if xs[|xs| - 1].local.Some? then 1 else 0
  }

  lemma {:induction false} CountBound(xs: seq<XPointer>)
    ensures CountLocals(xs) <= |xs|
    decreases |xs|
  {
    if xs != [] {
      CountBound(xs[..|xs| - 1]);
    }
  }

  lemma {:induction false} SomeLocal(xs: seq<XPointer>, i: nat)
    requires i < |xs| && xs[i].local.Some?
    ensures CountLocals(xs) > 0
    decreases |xs|
  {
    if i < |xs| - 1 {
      SomeLocal(xs[..|xs| - 1], i);
    }
  }

  lemma {:induction false} NotAllLocal(xs: seq<XPointer>)
    requires xs != [] && xs[|xs| - 1].local.None?
    ensures CountLocals(xs) < |xs|
  {
    CountBound(xs[..|xs| - 1]);
  }

  lemma {:induction false} LocalsNotEmpty(xs: seq<XPointer>)
    ensures CountLocals(xs) > 0 ==> |Locals(xs)| > 0
    decreases |xs|
  {
    if xs != [] {
      LocalsNotEmpty(xs[..|xs| - 1]);
    }
  }

  /** The first `n` local entries hold their offsets in the block. */
  ghost predicate OffsetsBefore(ys: seq<XPointer>, xs: seq<XPointer>, n: nat, is32: bool) {
    && |ys| == |xs|
    && forall k :: 0 <= k < |xs| ==>
         && ys[k].local == xs[k].local
         && (xs[k].local.None? || n <= k ==> ys[k] == xs[k])
         && (xs[k].local.Some? && k < n ==> ys[k].remote == Size(|xs|, is32) + |Locals(xs[..k])|)
  }

  ghost predicate Offsets(ys: seq<XPointer>, xs: seq<XPointer>, is32: bool) {
    OffsetsBefore(ys, xs, |xs|, is32)
  }

  lemma {:induction false} LocalsStep(xs: seq<XPointer>, i: nat)
    requires i < |xs|
    ensures Locals(xs[..i + 1]) ==
            Locals(xs[..i]) + match xs[i].local case None => [] case Some(s) => s + [0]
    ensures CountLocals(xs[..i + 1]) == CountLocals(xs[..i]) + if xs[i].local.Some? then 1 else 0
  {
    assert xs[..i + 1][..i] == xs[..i];
  }

  lemma {:induction false} OffsetsStep(ys: seq<XPointer>, xs: seq<XPointer>, i: nat, is32: bool)
    requires OffsetsBefore(ys, xs, i, is32) && i < |xs|
    ensures xs[i].local == ys[i].local
    ensures var at := Size(|xs|, is32) + |Locals(xs[..i])|;
            OffsetsBefore(if xs[i].local.Some? then ys[i := ys[i].(remote := at)] else ys, xs, i + 1, is32)
  {
  }

  /** The room that pushing takes: the table, the strings and, the first time, the
      red zone. */
  function Needed(xs: seq<XPointer>, sp: nat, originalSp: nat, redZone: nat, is32: bool): nat {
    Size(|xs|, is32) + |Locals(xs)| + if sp == originalSp then redZone else 0
  }

  class XPointers {
    var entries: seq<XPointer>

    constructor (entries: seq<XPointer>)
      ensures this.entries == entries
    {
      this.entries := entries;
    }

    /** read_xpointee_as_string(): the first read of an entry makes its local copy. */
    method Read(m: Mem, index: nat, page: nat, ghost vs: seq<Option<Text>>) returns (r: Result<Option<Text>>)
      requires index < |entries| && Represents(m, entries, vs)
      requires page > 0 && page % Chunk(page) == 0 && Paged(m, page)
      modifies this
      ensures Represents(m, entries, vs)
      ensures r.Ok? ==> r.value == vs[index]
      ensures r.Err? ==> vs[index].Some? && |vs[index].value| + 1 >= ARG_MAX
    {
      var x := entries[index];
      assert Denotes(m, x, vs[index]);
      if x.local.Some? {
        return Ok(x.local);
      }
      if x.remote == 0 {
        return Ok(None);
      }
      var s := ReadText(m, x.remote, page, true);
      ReadAgrees(m, x.remote, vs[index].value, s);
      if s.Err? {
        return Err(s.errno);
      }
      entries := entries[index := XPointer(x.remote, Some(s.value))];
      return Ok(Some(s.value));
    }

    /** write_xpointee_as_string() */
    method Write(index: nat, s: Text)
      requires index < |entries|
      modifies this
      ensures entries == old(entries)[index := XPointer(old(entries)[index].remote, Some(s))]
    {
      entries := entries[index := XPointer(entries[index].remote, Some(s))];
    }

    /** write_xpointees() */
    method WriteAll(index: nat, ss: seq<Text>)
      requires index + |ss| <= |entries|
      modifies this
      ensures |entries| == |old(entries)|
      ensures forall k :: 0 <= k < |entries| ==>
                if index <= k < index + |ss| then entries[k].local == Some(ss[k - index])
                else entries[k] == old(entries)[k]
    {
      var i := 0;
      while i < |ss|
        invariant 0 <= i <= |ss| && |entries| == |old(entries)|
        invariant forall k :: 0 <= k < |entries| ==>
                    if index <= k < index + i then entries[k].local == Some(ss[k - index])
                    else entries[k] == old(entries)[k]
      {
        Write(index + i, ss[i]);
        i := i + 1;
      }
    }

    /** resize_array_of_xpointers() */
    method Resize(index: nat, delta: int)
      requires index < |entries| && 0 <= index + delta
      modifies this
      ensures entries == ResizedEntries(old(entries), index, delta)
    {
      if delta == 0 {
        assert entries == ResizedEntries(entries, index, delta);
        return;
      }
      if delta > 0 {
        var fresh_ := seq(delta, i requires 0 <= i < delta => XPointer(0, None));
        entries := entries[..index] + fresh_ + entries[index..];
      } else {
        entries := entries[..index + delta] + entries[index..];
      }
    }

    static method CollectOne(ys: seq<XPointer>, i: nat, locals: seq<nat>, count: nat, is32: bool,
                             ghost xs: seq<XPointer>)
      returns (ys': seq<XPointer>, locals': seq<nat>, count': nat)
      requires i < |xs| == |ys| && locals == Locals(xs[..i]) && count == CountLocals(xs[..i])
      requires OffsetsBefore(ys, xs, i, is32)
      ensures locals' == Locals(xs[..i + 1]) && count' == CountLocals(xs[..i + 1])
      ensures OffsetsBefore(ys', xs, i + 1, is32)
    {
      LocalsStep(xs, i);
      OffsetsStep(ys, xs, i, is32);
      ys', locals', count' := ys, locals, count;
      if ys[i].local.Some? {
        ys' := ys[i := ys[i].(remote := Size(|ys|, is32) + |locals|)];
        locals' := locals + (ys[i].local.value + [0]);
        count' := count + 1;
      }
    }

    /** One vector per local string, and its offset in the block. */
    method CollectLocals(is32: bool) returns (locals: seq<nat>, count: nat)
      modifies this
      ensures locals == Locals(old(entries)) && Offsets(entries, old(entries), is32)
      ensures count == CountLocals(old(entries))
    {
      var n := |entries|;
      locals, count := [], 0;
      var i := 0;
      ghost var xs := entries;
      var ys := entries;
      while i < n
        invariant 0 <= i <= n == |ys| == |xs|
        invariant locals == Locals(xs[..i])
        invariant count == CountLocals(xs[..i])
        invariant OffsetsBefore(ys, xs, i, is32)
      {
        ys, locals, count := CollectOne(ys, i, locals, count, is32, xs);
        i := i + 1;
      }
      assert xs[..n] == xs;
      entries := ys;
    }

    /** push_array_of_xpointers(): None if there is nothing to do, else the memory and the
        pointer.  The terminator is never local, hence not all the entries are. */
    method Push(m: Mem, sp: nat, originalSp: nat, redZone: nat, is32: bool)
      returns (r: Result<Option<(Mem, nat)>>)
      requires entries != [] && entries[|entries| - 1].local.None?
      modifies this
      ensures var needed := Needed(old(entries), sp, originalSp, redZone, is32);
              if CountLocals(old(entries)) == 0 then r == Ok(None)
              else if sp <= needed then r == Err(E2BIG)
              else
                var ptr := sp - needed;
                && r == Ok(Some((Written(m, ptr, Block(old(entries), ptr, is32)), ptr)))
                && 0 < ptr && ptr + |Block(old(entries), ptr, is32)| <= sp
    {
      ghost var xs := entries;
      var locals, count := CollectLocals(is32);
      if count == 0 {
        return Ok(None);
      }
      NotAllLocal(xs);
      assert count < |entries|;
      LocalsNotEmpty(xs);
      var ptr := AllocMem(sp, originalSp, Size(|entries|, is32) + |locals|, redZone);
      if ptr.None? {
        return Err(E2BIG);
      }
      var ps := FinalPointers(ptr.value, is32, xs);
      var memory := WriteBlock(m, ptr.value, ps, locals, is32, xs);
      return Ok(Some((memory, ptr.value)));
    }

    /** The table and the strings, in one go. */
    static method WriteBlock(m: Mem, ptr: nat, ps: seq<nat>, locals: seq<nat>, is32: bool, ghost xs: seq<XPointer>)
      returns (memory: Mem)
      requires ps == Pointers(xs, ptr, is32) && locals == Locals(xs)
      ensures memory == Written(m, ptr, Block(xs, ptr, is32))
      ensures |Block(xs, ptr, is32)| == Size(|xs|, is32) + |locals|
    {
      memory := Written(m, ptr, Table(ps, is32) + locals);
    }

    /** The offsets become addresses. */
    method FinalPointers(ptr: nat, is32: bool, ghost xs: seq<XPointer>) returns (ps: seq<nat>)
      requires Offsets(entries, xs, is32)
      modifies this
      ensures ps == Pointers(xs, ptr, is32)
    {
      ps := [];
      var i := 0;
      while i < |entries|
        invariant 0 <= i <= |entries| == |xs| == |old(entries)| && |ps| == i
        invariant forall k :: 0 <= k < i ==> ps[k] == Pointer(xs, k, ptr, is32)
        invariant forall k :: i <= k < |xs| ==> entries[k] == old(entries)[k]
      {
        if entries[i].local.Some? {
          entries := entries[i := entries[i].(remote := entries[i].remote + ptr)];
        }
        ps := ps + [entries[i].remote];
        i := i + 1;
      }
    }
  }

  lemma {:induction false} ReadAgrees(m: Mem, a: nat, s: Text, r: Result<Text>)
    requires HoldsText(m, a, s)
    requires TextRead(m, a, true, r)
    ensures r.Ok? ==> r.value == s
    ensures r.Err? ==> |s| + 1 >= ARG_MAX
  {
    if r.Ok? {
      TextUnique(m, a, s, r.value);
    } else {
      assert a + |s| in m && m[a + |s|] == (s + [0])[|s|] == 0;
      assert Unterminated(m, a, |s|) by {
        forall b: nat | a <= b < a + |s| ensures b in m && m[b] != 0 {
          assert (s + [0])[b - a] == s[b - a];
        }
      }
      assert StringOf(m, a, |s|);
    }
  }
}
