/**
PT_LOAD segments compiled to page mappings, and the memory that these
mappings make.
 */
module Loading {
  import opened Common
  import opened Pages

  type Byte = nat
  type File = seq<Byte>

  // ---------------------------------------------------------------------
  // Segments and mappings
  // ---------------------------------------------------------------------

  datatype Segment = Segment(vaddr: nat, offset: nat, filesz: nat, memsz: nat, r: bool, w: bool, x: bool)

  datatype Mapping = Mapping(addr: nat, length: nat, prot: nat, offset: nat, clearLength: nat, anonymous: bool)

  const PROT_READ: nat := 1
  const PROT_WRITE: nat := 2
  const PROT_EXEC: nat := 4

  function Prot(s: Segment): nat {
    (if s.r then PROT_READ else 0) + (if s.w then PROT_WRITE else 0) + (if s.x then PROT_EXEC else 0)
  }

  /** What may be done with a byte: read, write, execute. */
  datatype Rights = Rights(r: bool, w: bool, x: bool)

  /** The rights that the bits of a protection give. */
  function RightsOf(prot: nat): Rights {
    Rights(prot % 2 == 1, prot / 2 % 2 == 1, prot / 4 % 2 == 1)
  }

  /** The rights that a segment asks for. */
  function SegmentRights(s: Segment): Rights {
    Rights(s.r, s.w, s.x)
  }

  /** The end of the pages mapped from the file; there is always one byte more than needed. */
  function FileEnd(s: Segment, page: nat): nat
    requires page > 0
  {
    Floor(s.vaddr + s.filesz + page, page)
  }

  /** The end of all the pages mapped. */
  function MapEnd(s: Segment, page: nat): nat
    requires page > 0
  {
    var end := Floor(s.vaddr + s.memsz + page, page);
    if s.memsz > s.filesz && end > FileEnd(s, page) then end else FileEnd(s, page)
  }

  function FileMapping(s: Segment, page: nat): Mapping
    requires page > 0
  {
    var start := Floor(s.vaddr, page);
    var end := FileEnd(s, page);
    FloorMonotone(s.vaddr, s.vaddr + s.filesz + page, page);
    Mapping(start, end - start, Prot(s), Floor(s.offset, page),
            if s.memsz > s.filesz then end - s.vaddr - s.filesz else 0, false)
  }

  function Mappings(s: Segment, page: nat): seq<Mapping>
    requires page > 0
  {
    var end := FileEnd(s, page);
    if s.memsz > s.filesz && MapEnd(s, page) > end
    then [FileMapping(s, page), Mapping(end, MapEnd(s, page) - end, Prot(s), 0, 0, true)]
    else [FileMapping(s, page)]
  }

  function AllMappings(ss: seq<Segment>, page: nat): seq<Mapping>
    requires page > 0
  {
    if ss == [] then [] else AllMappings(ss[..|ss| - 1], page) + Mappings(ss[|ss| - 1], page)
  }

  function Shift(ms: seq<Mapping>, base: nat): seq<Mapping> {
    seq(|ms|, i requires 0 <= i < |ms| => ms[i].(addr := ms[i].addr + base))
  }

  /** The mappings of an object being loaded. */
  class LoadInfo {
    const page: nat
    var mappings: seq<Mapping>
    var entry: nat

    constructor (page: nat, entry: nat)
      ensures this.page == page && this.entry == entry && mappings == []
    {
      this.page, this.entry, mappings := page, entry, [];
    }

    /** add_mapping() */
    method AddMapping(s: Segment)
      requires page > 0
      modifies this`mappings
      ensures mappings == old(mappings) + Mappings(s, page)
    {
      var m, start := FilePart(s, page);
      mappings := mappings + [m];
      if s.memsz > s.filesz {
        var end := Floor(s.vaddr + s.memsz + page, page);
        if end > start {
          mappings := mappings + [Mapping(start, end - start, Prot(s), 0, 0, true)];
        }
      }
    }

    /** The pages mapped from the file, and where they end. */
    static method FilePart(s: Segment, page: nat) returns (m: Mapping, end: nat)
      requires page > 0
      ensures m == FileMapping(s, page) && end == FileEnd(s, page)
    {
      var start := Floor(s.vaddr, page);
      end := Floor(s.vaddr + s.filesz + page, page);
      FloorMonotone(s.vaddr, s.vaddr + s.filesz + page, page);
      var clearLength := 0;
      if s.memsz > s.filesz {
        clearLength := end - s.vaddr - s.filesz;
      }
      m := Mapping(start, end - start, Prot(s), Floor(s.offset, page), clearLength, false);
    }

    /** add_load_base() */
    method AddLoadBase(base: nat)
      modifies this`mappings, this`entry
      ensures mappings == Shift(old(mappings), base) && entry == old(entry) + base
    {
      var i := 0;
      while i < |mappings|
        invariant 0 <= i <= |mappings| == |old(mappings)| && entry == old(entry)
        invariant forall k :: 0 <= k < i ==> mappings[k] == Shift(old(mappings), base)[k]
        invariant forall k :: i <= k < |mappings| ==> mappings[k] == old(mappings)[k]
      {
        mappings := mappings[i := mappings[i].(addr := mappings[i].addr + base)];
        i := i + 1;
      }
      entry := entry + base;
    }
  }

  // ---------------------------------------------------------------------
  // Memory
  // ---------------------------------------------------------------------

  /** A mapped byte; one on a page beyond the end of its file can not be touched. */
  datatype Cell = Cell(value: Byte, rights: Rights) | Beyond

  type Memory = map<nat, Cell>

  /** What a page of a file shows: its bytes, zeros up to the end of the last
      page, and nothing beyond. */
  function FileCell(file: File, o: nat, rights: Rights, page: nat): Cell
    requires page > 0
  {
    if o < |file| then Cell(file[o], rights)
    else if o < Ceil(|file|, page) then Cell(0, rights)
    else Beyond
  }

  /** What address `a` of a mapping shows. */
  function PageCell(p: Mapping, file: File, page: nat, a: nat): Cell
    requires page > 0 && p.addr <= a
  {
    if p.anonymous then Cell(0, RightsOf(p.prot))
    else FileCell(file, p.offset + (a - p.addr), RightsOf(p.prot), page)
  }

  /** mmap(2), in place of whatever was there. */
  function Mapped(m: Memory, p: Mapping, file: File, page: nat): Memory
    requires page > 0
  {
    m + map a: nat | p.addr <= a < p.addr + p.length :: PageCell(p, file, page, a)
  }

  predicate CanWrite(m: Memory, lo: nat, hi: nat) {
    forall a: nat :: lo <= a < hi ==> a in m && m[a].Cell? && m[a].rights.w
  }

  function Zeroed(m: Memory, lo: nat, hi: nat): Memory {
    map a: nat | a in m :: if lo <= a < hi && m[a].Cell? then m[a].(value := 0) else m[a]
  }

  const WORD: nat := 8

  /** The bytes that clear() writes from start to end. */
  function Cleared(start: nat, end: nat): (nat, nat) {
    var lo, hi := Floor(end, WORD), Ceil(start, WORD);
    if hi <= lo then (start, end) else (lo, hi)
  }

  /** clear() writes its range and nothing else iff a word boundary lies in it. */
  lemma {:induction false} ClearExactIff(start: nat, end: nat)
    requires start <= end
    ensures Cleared(start, end) == (start, end) <==> Ceil(start, WORD) <= Floor(end, WORD)
    ensures end % WORD == 0 ==> Cleared(start, end) == (start, end)
  {
  }

  /** Inside one word, the whole word is lost. */
  lemma {:induction false} ClearTooMuch()
    ensures Cleared(9, 10) == (8, 16)
  {
  }

  /** What is mapped during a load. */
  class AddressSpace {
    var memory: Memory

    constructor ()
      ensures memory == map[]
    {
      memory := map[];
    }

    /** Store n zero bytes at once, or die. */
    method StoreZero(a: nat, n: nat) returns (alive: bool)
      modifies this
      ensures alive == CanWrite(old(memory), a, a + n)
      ensures memory == if alive then Zeroed(old(memory), a, a + n) else old(memory)
    {
      alive := CanWrite(memory, a, a + n);
      if alive {
        memory := Zeroed(memory, a, a + n);
      }
    }

    /** One loop of clear(), in units of n bytes. */
    method ClearUnits(start: nat, end: nat, n: nat) returns (alive: bool)
      requires n > 0 && (start <= end ==> (end - start) % n == 0)
      modifies this
      ensures alive == CanWrite(old(memory), start, Max(start, end))
      ensures alive ==> memory == Zeroed(old(memory), start, Max(start, end))
    {
      var a := start;
      while a < end
        invariant start <= a <= Max(start, end) && (a < end ==> (end - a) % n == 0)
        invariant CanWrite(old(memory), start, a)
        invariant memory == Zeroed(old(memory), start, a)
      {
        UnitFits(end - a, n);
        ZeroedUnion(old(memory), start, a, a, a + n);
        alive := StoreZero(a, n);
        if !alive {
          return;
        }
        a := a + n;
      }
      return true;
    }

    /** clear(): leading bytes, words, trailing bytes. */
    method Clear(start: nat, end: nat) returns (alive: bool)
      requires start <= end
      modifies this
      ensures alive == CanWrite(old(memory), Cleared(start, end).0, Cleared(start, end).1)
      ensures alive ==> memory == Zeroed(old(memory), Cleared(start, end).0, Cleared(start, end).1)
    {
      var startAligned, endAligned := WordsWithin(start, end);
      ghost var m0, mid := memory, Max(startAligned, endAligned);
      ZeroedUnion(m0, start, startAligned, startAligned, mid);
      ZeroedUnion(m0, start, mid, endAligned, end);
      alive := ClearUnits(start, startAligned, 1);
      if alive {
        alive := ClearRest(startAligned, endAligned, end, m0, start, mid);
      }
    }

    /** Where the words start and end. */
    static method WordsWithin(start: nat, end: nat) returns (startAligned: nat, endAligned: nat)
      requires start <= end
      ensures start <= startAligned && endAligned <= end && WholeWords(startAligned, endAligned)
      ensures Cleared(start, end) == (Min(start, endAligned), Max(Max(startAligned, endAligned), end))
    {
      var startBytes, endBytes := start % WORD, end % WORD;
      startAligned := if startBytes != 0 then start + WORD - startBytes else start;
      endAligned := end - endBytes;
      ClearBounds(start, end);
    }

    /** The words and the bytes behind them, when the bytes in front are cleared. */
    method ClearRest(startAligned: nat, endAligned: nat, end: nat, ghost m0: Memory, ghost start: nat, ghost mid: nat)
      returns (alive: bool)
      requires start <= startAligned && endAligned <= end && mid == Max(startAligned, endAligned) && start <= end
      requires WholeWords(startAligned, endAligned)
      requires memory == Zeroed(m0, start, startAligned) && CanWrite(m0, start, startAligned)
      modifies this
      ensures alive == CanWrite(m0, Min(start, endAligned), Max(mid, end))
      ensures alive ==> memory == Zeroed(m0, Min(start, endAligned), Max(mid, end))
    {
      ZeroedUnion(m0, start, startAligned, startAligned, mid);
      ZeroedUnion(m0, start, mid, endAligned, end);
      alive := ClearUnits(startAligned, endAligned, WORD);
      if alive {
        alive := ClearUnits(endAligned, end, 1);
      }
    }
  }

  lemma {:induction false} CeilWord(x: nat)
    ensures var sa := if x % WORD != 0 then x + WORD - x % WORD else x;
            Ceil(x, WORD) == sa && sa % WORD == 0 && x <= sa < x + WORD
  {
    var q, m := x / WORD, x % WORD;
    if m == 0 {
      ModUnique(x + WORD - 1, WORD, q, WORD - 1);
    } else {
      ModUnique(x + WORD - 1, WORD, q + 1, m - 1);
      ModUnique(x + WORD - m, WORD, q + 1, 0);
    }
  }

  predicate WholeWords(start: nat, end: nat) {
    start <= end ==> (end - start) % WORD == 0
  }

  lemma {:induction false} ClearBounds(start: nat, end: nat)
    requires start <= end
    ensures var sa := if start % WORD != 0 then start + WORD - start % WORD else start;
            var ea := end - end % WORD;
            && start <= sa && ea <= end && (sa <= ea ==> (ea - sa) % WORD == 0)
            && Cleared(start, end) == (Min(start, ea), Max(Max(sa, ea), end))
  {
    var sa, ea := Ceil(start, WORD), Floor(end, WORD);
    CeilWord(start);
    FloorPage(end, WORD);
    if sa > ea {
      AlignedApart(ea, sa, WORD);
    } else {
      AlignedGap(sa, ea, WORD);
    }
  }

  lemma {:induction false} CanWriteZeroed(m: Memory, a: nat, b: nat, c: nat, d: nat)
    ensures CanWrite(Zeroed(m, a, b), c, d) == CanWrite(m, c, d)
  {
    var z := Zeroed(m, a, b);
    assert forall x: nat :: x in z <==> x in m;
    assert forall x: nat :: x in m ==> (z[x].Cell? <==> m[x].Cell?) && (m[x].Cell? ==> z[x].rights == m[x].rights);
  }

  /** Zeroing two ranges that meet is zeroing their union. */
  lemma {:induction false} ZeroedUnion(m: Memory, a: nat, b: nat, c: nat, d: nat)
    requires a <= b && c <= d && c <= b && a <= d
    ensures CanWrite(Zeroed(m, a, b), c, d) == CanWrite(m, c, d)
    ensures CanWrite(m, Min(a, c), Max(b, d)) <==> CanWrite(m, a, b) && CanWrite(m, c, d)
    ensures Zeroed(Zeroed(m, a, b), c, d) == Zeroed(m, Min(a, c), Max(b, d))
  {
    CanWriteZeroed(m, a, b, c, d);
  }

  // ---------------------------------------------------------------------
  // Loading a segment
  // ---------------------------------------------------------------------

  /** One mmap statement of the loader: map, then clear the end.  None: killed by
      a signal. */
  function MapStep(m: Memory, p: Mapping, file: File, page: nat): Option<Memory>
    requires page > 0 && p.clearLength <= p.addr + p.length
  {
    var mapped := Mapped(m, p, file, page);
    if p.anonymous || p.clearLength == 0 then Some(mapped)
    else ClearedIn(mapped, p.addr + p.length - p.clearLength, p.addr + p.length)
  }

  /** clear(), unless it kills the process. */
  function ClearedIn(m: Memory, start: nat, end: nat): Option<Memory>
    requires start <= end
  {
    var (lo, hi) := Cleared(start, end);
    if CanWrite(m, lo, hi) then Some(Zeroed(m, lo, hi)) else None
  }

  ghost predicate Sane(ms: seq<Mapping>) {
    forall i :: 0 <= i < |ms| ==> ms[i].clearLength <= ms[i].addr + ms[i].length
  }

  ghost function MapAll(m: Memory, ms: seq<Mapping>, file: File, page: nat): Option<Memory>
    requires page > 0 && Sane(ms)
    decreases |ms|
  {
    if ms == [] then Some(m)
    else
      match MapStep(m, ms[0], file, page)
      case None => None
      case Some(m') => MapAll(m', ms[1..], file, page)
  }

  /** What the gABI and the page granularity demand of a segment. */
  predicate Loadable(s: Segment, base: nat, file: File, page: nat) {
    && page > 0 && page % WORD == 0 && base % page == 0
    && s.offset % page == s.vaddr % page
    && (s.filesz > 0 ==> s.offset + s.filesz <= |file|)
    && s.filesz <= s.memsz
  }

  /** Clearing the end of the last page is possible. */
  predicate Survives(s: Segment, file: File, page: nat)
    requires page > 0
  {
    s.memsz > s.filesz ==> s.w && Floor(s.offset + s.filesz, page) < Ceil(|file|, page)
  }

  /** Byte k of a segment: from the file, then zero. */
  function Content(s: Segment, file: File, k: nat): Byte
    requires s.filesz > 0 ==> s.offset + s.filesz <= |file|
  {
    if k < s.filesz then file[s.offset + k] else 0
  }

  ghost predicate Image(m: Memory, s: Segment, base: nat, file: File)
    requires s.filesz > 0 ==> s.offset + s.filesz <= |file|
  {
    forall a: nat :: s.vaddr + base <= a < s.vaddr + base + s.memsz ==>
      a in m && m[a] == Cell(Content(s, file, a - s.vaddr - base), SegmentRights(s))
  }

  /** Nothing changed outside [lo, hi). */
  ghost predicate Same(m: Memory, m': Memory, lo: nat, hi: nat) {
    forall a: nat :: !(lo <= a < hi) ==> (a in m <==> a in m') && (a in m ==> m'[a] == m[a])
  }

  lemma {:induction false} ProtRights(s: Segment)
    ensures RightsOf(Prot(s)) == SegmentRights(s)
  {
  }

  /** The arithmetic of the file mapping of a loadable segment. */
  lemma {:induction false} FileMappingBounds(s: Segment, base: nat, file: File, page: nat)
    requires Loadable(s, base, file, page)
    ensures var p := FileMapping(s, page);
            && p.addr <= s.vaddr && s.vaddr - p.addr == s.offset - p.offset
            && p.addr + p.length == FileEnd(s, page) == Floor(s.vaddr + s.filesz, page) + page
            && s.vaddr + s.filesz < FileEnd(s, page)
            && (FileEnd(s, page) + base) % WORD == 0 && (FileEnd(s, page) + base) % page == 0
            && (p.addr + base) % page == 0 && p.offset % page == 0
            && FileEnd(s, page) - s.vaddr == Floor(s.offset + s.filesz, page) + page - s.offset
  {
    FloorPage(s.vaddr, page);
    FloorPage(s.offset, page);
    FloorPage(s.vaddr + s.filesz, page);
    FloorPage(s.vaddr + s.filesz + page, page);
    FloorMonotone(s.vaddr, s.vaddr + s.filesz + page, page);
    Congruent(s.vaddr, s.offset, s.filesz, page);
    AlignedSum(FileEnd(s, page), base, page);
    AlignedDown(FileEnd(s, page) + base, page, WORD);
    AlignedSum(Floor(s.vaddr, page), base, page);
  }

  /** The end of a file mapping can be written iff all its pages are in the file. */
  lemma {:induction false} WritableEndIff(m: Memory, p: Mapping, file: File, page: nat, lo: nat)
    requires page > 0 && !p.anonymous && p.addr <= lo < p.addr + p.length
    ensures CanWrite(Mapped(m, p, file, page), lo, p.addr + p.length)
            <==> RightsOf(p.prot).w && p.offset + p.length <= Ceil(|file|, page)
  {
    var mapped := Mapped(m, p, file, page);
    var hi := p.addr + p.length;
    assert forall a: nat :: lo <= a < hi ==> a in mapped && mapped[a] == PageCell(p, file, page, a);
    var last := hi - 1;
    assert PageCell(p, file, page, last) == FileCell(file, p.offset + p.length - 1, RightsOf(p.prot), page);
    assert mapped[last] == PageCell(p, file, page, last);
  }

  /** The end of the file mapping can be cleared iff the segment survives. */
  lemma {:induction false} ClearableIff(m: Memory, s: Segment, base: nat, file: File, page: nat)
    requires Loadable(s, base, file, page) && s.memsz > s.filesz
    ensures var p := FileMapping(s, page).(addr := FileMapping(s, page).addr + base);
            CanWrite(Mapped(m, p, file, page), s.vaddr + base + s.filesz, FileEnd(s, page) + base)
            <==> Survives(s, file, page)
  {
    var p := FileMapping(s, page).(addr := FileMapping(s, page).addr + base);
    FileMappingBounds(s, base, file, page);
    ProtRights(s);
    WritableEndIff(m, p, file, page, s.vaddr + base + s.filesz);
    WholePages(s.offset + s.filesz, |file|, page);
  }

  lemma {:induction false} WholePages(x: nat, y: nat, page: nat)
    requires page > 0
    ensures Floor(x, page) + page <= Ceil(y, page) <==> Floor(x, page) < Ceil(y, page)
  {
    FloorPage(x, page);
    FloorPage(y + page - 1, page);
    if Floor(x, page) < Ceil(y, page) {
      AlignedApart(Floor(x, page), Ceil(y, page), page);
    }
  }

  function Move(p: Mapping, base: nat): Mapping {
    p.(addr := p.addr + base)
  }

  ghost predicate Zeros(m: Memory, lo: nat, hi: nat, rights: Rights) {
    forall a: nat :: lo <= a < hi ==> a in m && m[a] == Cell(0, rights)
  }

  /** The bytes that can be touched have these rights. */
  ghost predicate HaveRights(m: Memory, lo: nat, hi: nat, rights: Rights) {
    forall a: nat :: lo <= a < hi && a in m && m[a].Cell? ==> m[a].rights == rights
  }

  lemma {:induction false} MappedRights(m: Memory, p: Mapping, file: File, page: nat, lo: nat)
    requires page > 0 && p.addr <= lo
    ensures HaveRights(Mapped(m, p, file, page), lo, p.addr + p.length, RightsOf(p.prot))
  {
    var mapped := Mapped(m, p, file, page);
    assert forall a: nat :: lo <= a < p.addr + p.length ==> mapped[a] == PageCell(p, file, page, a);
  }

  /** The bytes of the file part. */
  ghost predicate FilePart(m: Memory, s: Segment, base: nat, file: File)
    requires s.filesz > 0 ==> s.offset + s.filesz <= |file|
  {
    forall a: nat :: s.vaddr + base <= a < s.vaddr + base + s.filesz ==>
      a in m && m[a] == Cell(Content(s, file, a - s.vaddr - base), SegmentRights(s))
  }

  lemma {:induction false} MappedFilePart(m: Memory, s: Segment, base: nat, file: File, page: nat)
    requires Loadable(s, base, file, page)
    ensures var p := Move(FileMapping(s, page), base);
            var mapped := Mapped(m, p, file, page);
            && FilePart(mapped, s, base, file) && Same(m, mapped, p.addr, FileEnd(s, page) + base)
  {
    var p := Move(FileMapping(s, page), base);
    var mapped := Mapped(m, p, file, page);
    FileMappingWhere(s, base, file, page);
    MappedSame(m, p, file, page);
    forall a: nat | s.vaddr + base <= a < s.vaddr + base + s.filesz
      ensures a in mapped && mapped[a] == Cell(Content(s, file, a - s.vaddr - base), SegmentRights(s))
    {
      MappedByte(m, s, base, file, page, a);
    }
  }

  lemma {:induction false} MappedByte(m: Memory, s: Segment, base: nat, file: File, page: nat, a: nat)
    requires Loadable(s, base, file, page) && s.vaddr + base <= a < s.vaddr + base + s.filesz
    ensures var mapped := Mapped(m, Move(FileMapping(s, page), base), file, page);
            a in mapped && mapped[a] == Cell(Content(s, file, a - s.vaddr - base), SegmentRights(s))
  {
    FileMappingWhere(s, base, file, page);
    ProtRights(s);
    ByteOf(m, Move(FileMapping(s, page), base), file, page, a, s.offset + (a - s.vaddr - base), SegmentRights(s));
  }

  /** The bounds without the alignment. */
  lemma {:induction false} FileMappingWhere(s: Segment, base: nat, file: File, page: nat)
    requires Loadable(s, base, file, page)
    ensures var p := Move(FileMapping(s, page), base);
            && !p.anonymous && p.addr <= s.vaddr + base && s.vaddr + base + s.filesz < p.addr + p.length
            && p.offset + (s.vaddr + base - p.addr) == s.offset && p.addr + p.length == FileEnd(s, page) + base
  {
    FileMappingBounds(s, base, file, page);
  }

  /** A mapping changes nothing elsewhere. */
  lemma {:induction false} MappedSame(m: Memory, p: Mapping, file: File, page: nat)
    requires page > 0
    ensures Same(m, Mapped(m, p, file, page), p.addr, p.addr + p.length)
  {
  }

  lemma {:induction false} ByteOf(m: Memory, p: Mapping, file: File, page: nat, a: nat, x: nat, rights: Rights)
    requires page > 0 && !p.anonymous && p.addr <= a < p.addr + p.length
    requires p.offset + (a - p.addr) == x < |file| && RightsOf(p.prot) == rights
    ensures var mapped := Mapped(m, p, file, page); a in mapped && mapped[a] == Cell(file[x], rights)
  {
    assert Mapped(m, p, file, page)[a] == PageCell(p, file, page, a);
  }

  /** Zeroing a writable range after the file part. */
  lemma {:induction false} ZeroedTail(m0: Memory, m: Memory, s: Segment, base: nat, file: File, lo: nat, hi: nat)
    requires s.filesz > 0 ==> s.offset + s.filesz <= |file|
    requires FilePart(m, s, base, file) && Same(m0, m, lo, hi)
    requires lo <= s.vaddr + base + s.filesz <= hi
    requires CanWrite(m, s.vaddr + base + s.filesz, hi)
    requires HaveRights(m, s.vaddr + base + s.filesz, hi, SegmentRights(s))
    ensures var z := Zeroed(m, s.vaddr + base + s.filesz, hi);
            && FilePart(z, s, base, file) && Same(m0, z, lo, hi)
            && Zeros(z, s.vaddr + base + s.filesz, hi, SegmentRights(s))
  {
  }

  /** With an aligned end, a mapping is cleared exactly. */
  lemma {:induction false} AlignedMapStep(m: Memory, p: Mapping, file: File, page: nat)
    requires page > 0 && !p.anonymous && 0 < p.clearLength <= p.addr + p.length
    requires (p.addr + p.length) % WORD == 0
    ensures var mapped := Mapped(m, p, file, page);
            var lo, hi := p.addr + p.length - p.clearLength, p.addr + p.length;
            MapStep(m, p, file, page) == if CanWrite(mapped, lo, hi) then Some(Zeroed(mapped, lo, hi)) else None
  {
    ExactEnd(p.addr + p.length - p.clearLength, p.addr + p.length);
  }

  lemma {:induction false} ExactEnd(start: nat, end: nat)
    requires start <= end && end % WORD == 0
    ensures Cleared(start, end) == (start, end)
  {
    ClearExactIff(start, end);
  }

  /** What a memory holds after the file mapping over [lo, hi). */
  ghost predicate FileLoaded(m: Memory, m': Memory, s: Segment, base: nat, file: File, lo: nat, hi: nat)
    requires s.filesz > 0 ==> s.offset + s.filesz <= |file|
  {
    && FilePart(m', s, base, file) && Same(m, m', lo, hi)
    && (s.memsz > s.filesz ==> Zeros(m', s.vaddr + base + s.filesz, hi, SegmentRights(s)))
  }

  lemma {:induction false} FileStep(m: Memory, s: Segment, base: nat, file: File, page: nat)
    requires Loadable(s, base, file, page)
    ensures var p := Move(FileMapping(s, page), base);
            && p.clearLength <= p.length
            && (MapStep(m, p, file, page).Some? <==> Survives(s, file, page))
            && (Survives(s, file, page) ==>
                  FileLoaded(m, MapStep(m, p, file, page).value, s, base, file, p.addr, FileEnd(s, page) + base))
  {
    var p := Move(FileMapping(s, page), base);
    var mapped := Mapped(m, p, file, page);
    FileMappingBounds(s, base, file, page);
    MappedFilePart(m, s, base, file, page);
    if s.memsz > s.filesz {
      ClearableIff(m, s, base, file, page);
      ProtRights(s);
      ClearedStep(m, s, base, file, page, p);
    }
  }

  /** The map-and-clear step, for any mapping that ends with the file part's page. */
  lemma {:induction false} ClearedStep(m: Memory, s: Segment, base: nat, file: File, page: nat, p: Mapping)
    requires page > 0 && !p.anonymous && (p.addr + p.length) % WORD == 0
    requires 0 < p.clearLength <= p.addr + p.length
    requires p.addr + p.length - p.clearLength == s.vaddr + base + s.filesz && p.addr <= s.vaddr + base + s.filesz
    requires s.filesz > 0 ==> s.offset + s.filesz <= |file|
    requires RightsOf(p.prot) == SegmentRights(s)
    requires FilePart(Mapped(m, p, file, page), s, base, file)
    requires Same(m, Mapped(m, p, file, page), p.addr, p.addr + p.length)
    ensures var r := MapStep(m, p, file, page);
            && (r.Some? <==> CanWrite(Mapped(m, p, file, page), s.vaddr + base + s.filesz, p.addr + p.length))
            && (r.Some? ==> FileLoaded(m, r.value, s, base, file, p.addr, p.addr + p.length))
  {
    AlignedMapStep(m, p, file, page);
    var mapped := Mapped(m, p, file, page);
    if CanWrite(mapped, s.vaddr + base + s.filesz, p.addr + p.length) {
      MappedRights(m, p, file, page, s.vaddr + base + s.filesz);
      ZeroedTail(m, mapped, s, base, file, p.addr, p.addr + p.length);
    }
  }

  /** The pages after the file mapping. */
  lemma {:induction false} AnonymousStep(m: Memory, s: Segment, base: nat, file: File, page: nat, lo: nat, hi: nat)
    requires page > 0 && lo < hi
    ensures var q := Move(Mapping(lo, hi - lo, Prot(s), 0, 0, true), base);
            var r := MapStep(m, q, file, page);
            r.Some? && Same(m, r.value, lo + base, hi + base) && Zeros(r.value, lo + base, hi + base, SegmentRights(s))
  {
    ProtRights(s);
  }

  lemma {:induction false} MapAllTwo(m: Memory, p: Mapping, q: Mapping, file: File, page: nat)
    requires page > 0 && p.clearLength <= p.addr + p.length && q.clearLength <= q.addr + q.length
    ensures Sane([p]) && Sane([p, q])
    ensures MapAll(m, [p], file, page) == MapStep(m, p, file, page)
    ensures MapAll(m, [p, q], file, page) ==
            match MapStep(m, p, file, page) case None => None case Some(m') => MapStep(m', q, file, page)
  {
    assert [p][0] == p && [p][1..] == [] && [p, q][0] == p && [p, q][1..] == [q] && [q][1..] == [];
    match MapStep(m, p, file, page)
    case None =>
    case Some(m') =>
      assert MapAll(m', [q], file, page) == MapStep(m', q, file, page);
  }

  /** A file part and the zeros after it make the image. */
  lemma {:induction false} ImageOf(m: Memory, s: Segment, base: nat, file: File, hi: nat)
    requires s.filesz > 0 ==> s.offset + s.filesz <= |file|
    requires FilePart(m, s, base, file) && s.filesz <= s.memsz
    requires s.memsz > s.filesz ==>
               Zeros(m, s.vaddr + base + s.filesz, hi, SegmentRights(s)) && s.vaddr + base + s.memsz <= hi
    ensures Image(m, s, base, file)
  {
  }

  /** More zeros after the file mapping, in place of anything. */
  lemma {:induction false} LoadedMore(m: Memory, m1: Memory, m2: Memory, s: Segment, base: nat, file: File,
                   lo: nat, mid: nat, hi: nat)
    requires s.filesz > 0 ==> s.offset + s.filesz <= |file|
    requires FileLoaded(m, m1, s, base, file, lo, mid) && lo <= s.vaddr + base + s.filesz <= mid <= hi
    requires Same(m1, m2, mid, hi) && Zeros(m2, mid, hi, SegmentRights(s))
    ensures FileLoaded(m, m2, s, base, file, lo, hi)
  {
  }

  lemma {:induction false} MapEndBounds(s: Segment, page: nat)
    requires page > 0 && s.filesz <= s.memsz
    ensures s.vaddr + s.memsz < MapEnd(s, page) && FileEnd(s, page) <= MapEnd(s, page)
    ensures Floor(s.vaddr, page) <= s.vaddr + s.filesz < FileEnd(s, page)
  {
    FloorPage(s.vaddr + s.filesz, page);
    FloorPage(s.vaddr + s.memsz, page);
  }

  /** The outcome of loading a segment: it survives or the process is killed; then its
      bytes and its zeros are there, and nothing changed outside [lo, hi). */
  ghost predicate SegmentLoaded(m: Memory, r: Option<Memory>, s: Segment, base: nat, file: File, page: nat,
                                lo: nat, hi: nat)
    requires page > 0 && (s.filesz > 0 ==> s.offset + s.filesz <= |file|)
  {
    && (r.Some? <==> Survives(s, file, page))
    && (r.Some? ==> Image(r.value, s, base, file) && Same(m, r.value, lo, hi))
  }

  /** Both mappings, when there is one more page to fill with zeros. */
  lemma {:induction false} PairLoads(m: Memory, s: Segment, base: nat, file: File, page: nat, p: Mapping,
                  lo: nat, mid: nat, hi: nat)
    requires Loadable(s, base, file, page) && p.clearLength <= p.addr + p.length
    requires MapStep(m, p, file, page).Some? <==> Survives(s, file, page)
    requires Survives(s, file, page) ==>
               FileLoaded(m, MapStep(m, p, file, page).value, s, base, file, lo + base, mid + base)
    requires lo <= s.vaddr + s.filesz <= mid < hi && s.vaddr + s.memsz <= hi
    ensures var q := Move(Mapping(mid, hi - mid, Prot(s), 0, 0, true), base);
            && Sane([p, q])
            && SegmentLoaded(m, MapAll(m, [p, q], file, page), s, base, file, page, lo + base, hi + base)
  {
    var q := Move(Mapping(mid, hi - mid, Prot(s), 0, 0, true), base);
    MapAllTwo(m, p, q, file, page);
    if Survives(s, file, page) {
      var m1 := MapStep(m, p, file, page).value;
      AnonymousStep(m1, s, base, file, page, mid, hi);
      var m2 := MapStep(m1, q, file, page).value;
      LoadedMore(m, m1, m2, s, base, file, lo + base, mid + base, hi + base);
      ImageOf(m2, s, base, file, hi + base);
    }
  }

  lemma {:induction false} MovedMappings(s: Segment, base: nat, page: nat)
    requires page > 0
    ensures var p := Move(FileMapping(s, page), base);
            var mid, hi := FileEnd(s, page), MapEnd(s, page);
            Shift(Mappings(s, page), base) ==
            if s.memsz > s.filesz && hi > mid
            then [p, Move(Mapping(mid, hi - mid, Prot(s), 0, 0, true), base)] else [p]
  {
  }

  /** Loading one segment at any base. */
  lemma {:induction false} SegmentLoads(m: Memory, s: Segment, base: nat, file: File, page: nat)
    requires Loadable(s, base, file, page)
    ensures var ms := Shift(Mappings(s, page), base);
            && Sane(ms)
            && SegmentLoaded(m, MapAll(m, ms, file, page), s, base, file, page,
                             Floor(s.vaddr, page) + base, MapEnd(s, page) + base)
  {
    var lo, mid, hi := Floor(s.vaddr, page), FileEnd(s, page), MapEnd(s, page);
    var p := Move(FileMapping(s, page), base);
    MapEndBounds(s, page);
    MovedMappings(s, base, page);
    FileStep(m, s, base, file, page);
    if hi > mid {
      PairLoads(m, s, base, file, page, p, lo, mid, hi);
    } else {
      MapAllTwo(m, p, p, file, page);
      if Survives(s, file, page) {
        ImageOf(MapStep(m, p, file, page).value, s, base, file, hi + base);
      }
    }
  }

  // ---------------------------------------------------------------------
  // Loading an object
  // ---------------------------------------------------------------------

  lemma {:induction false} MapAllAppend(m: Memory, a: seq<Mapping>, b: seq<Mapping>, file: File, page: nat)
    requires page > 0 && Sane(a) && Sane(b)
    ensures Sane(a + b)
    ensures MapAll(m, a + b, file, page) ==
            match MapAll(m, a, file, page) case None => None case Some(m') => MapAll(m', b, file, page)
    decreases |a|
  {
    if a == [] {
      assert a + b == b;
    } else {
      assert (a + b)[0] == a[0] && (a + b)[1..] == a[1..] + b;
      match MapStep(m, a[0], file, page)
      case None =>
      case Some(m') => MapAllAppend(m', a[1..], b, file, page);
    }
  }

  /** In order, each from a page after the memory of those before. */
  ghost predicate Ascending(ss: seq<Segment>, page: nat)
    requires page > 0
  {
    forall i, j :: 0 <= i < j < |ss| ==> ss[i].vaddr + ss[i].memsz <= Floor(ss[j].vaddr, page)
  }

  ghost predicate AllLoadable(ss: seq<Segment>, base: nat, file: File, page: nat) {
    page > 0 && forall i :: 0 <= i < |ss| ==> Loadable(ss[i], base, file, page)
  }

  ghost predicate AllSurvive(ss: seq<Segment>, file: File, page: nat)
    requires page > 0
  {
    forall i :: 0 <= i < |ss| ==> Survives(ss[i], file, page)
  }

  ghost predicate Images(m: Memory, ss: seq<Segment>, base: nat, file: File, page: nat)
    requires AllLoadable(ss, base, file, page)
  {
    forall i :: 0 <= i < |ss| ==> Image(m, ss[i], base, file)
  }

  /** No segment is mapped over this address. */
  ghost predicate Untouched(ss: seq<Segment>, base: nat, page: nat, a: nat)
    requires page > 0
  {
    forall i :: 0 <= i < |ss| ==> !(Floor(ss[i].vaddr, page) + base <= a < MapEnd(ss[i], page) + base)
  }

  ghost predicate SameElsewhere(m: Memory, m': Memory, ss: seq<Segment>, base: nat, page: nat)
    requires page > 0
  {
    forall a: nat :: Untouched(ss, base, page, a) ==> (a in m <==> a in m') && (a in m ==> m'[a] == m[a])
  }

  lemma {:induction false} ImageKept(m: Memory, m': Memory, s: Segment, base: nat, file: File, lo: nat, hi: nat)
    requires s.filesz > 0 ==> s.offset + s.filesz <= |file|
    requires Image(m, s, base, file) && Same(m, m', lo, hi) && s.vaddr + base + s.memsz <= lo
    ensures Image(m', s, base, file)
  {
  }

  lemma {:induction false} ShiftAppend(a: seq<Mapping>, b: seq<Mapping>, base: nat)
    ensures Shift(a + b, base) == Shift(a, base) + Shift(b, base)
  {
  }

  /** The outcome of loading an object. */
  ghost predicate ObjectLoaded(m: Memory, r: Option<Memory>, ss: seq<Segment>, base: nat, file: File, page: nat)
    requires AllLoadable(ss, base, file, page)
  {
    && (r.Some? <==> AllSurvive(ss, file, page))
    && (r.Some? ==> Images(r.value, ss, base, file, page) && SameElsewhere(m, r.value, ss, base, page))
  }

  /** All the segments of an object, though their mappings overshoot by a page. */
  lemma {:induction false} ObjectLoads(m: Memory, ss: seq<Segment>, base: nat, file: File, page: nat)
    requires AllLoadable(ss, base, file, page) && Ascending(ss, page)
    ensures var ms := Shift(AllMappings(ss, page), base);
            Sane(ms) && ObjectLoaded(m, MapAll(m, ms, file, page), ss, base, file, page)
    decreases |ss|
  {
    if ss == [] {
      assert Shift(AllMappings(ss, page), base) == [];
    } else {
      var n := |ss| - 1;
      var init, last := ss[..n], ss[n];
      assert forall i :: 0 <= i < n ==> init[i] == ss[i];
      ObjectLoads(m, init, base, file, page);
      var a, b := Shift(AllMappings(init, page), base), Shift(Mappings(last, page), base);
      ShiftAppend(AllMappings(init, page), Mappings(last, page), base);
      SegmentLoads(m, last, base, file, page);
      MapAllAppend(m, a, b, file, page);
      ObjectGrows(m, MapAll(m, a, file, page), ss, base, file, page);
    }
  }

  lemma {:induction false} ObjectGrows(m: Memory, r: Option<Memory>, ss: seq<Segment>, base: nat, file: File, page: nat)
    requires AllLoadable(ss, base, file, page) && Ascending(ss, page) && ss != []
    requires AllLoadable(ss[..|ss| - 1], base, file, page)
    requires ObjectLoaded(m, r, ss[..|ss| - 1], base, file, page)
    ensures var b := Shift(Mappings(ss[|ss| - 1], page), base);
            && Sane(b)
            && ObjectLoaded(m, match r case None => None case Some(m1) => MapAll(m1, b, file, page),
                            ss, base, file, page)
  {
    var n := |ss| - 1;
    var init, last := ss[..n], ss[n];
    SegmentLoads(m, last, base, file, page);
    assert forall i :: 0 <= i < n ==> init[i] == ss[i];
    assert AllSurvive(ss, file, page) <==> AllSurvive(init, file, page) && Survives(last, file, page);
    if AllSurvive(ss, file, page) {
      var m1 := r.value;
      SegmentLoads(m1, last, base, file, page);
      var m2 := MapAll(m1, Shift(Mappings(last, page), base), file, page).value;
      BothLoaded(m, m1, m2, ss, base, file, page);
    } else if r.Some? {
      SegmentLoads(r.value, last, base, file, page);
    }
  }

  lemma {:induction false} BothLoaded(m: Memory, m1: Memory, m2: Memory, ss: seq<Segment>, base: nat, file: File,
                                      page: nat)
    requires AllLoadable(ss, base, file, page) && Ascending(ss, page) && ss != []
    requires AllLoadable(ss[..|ss| - 1], base, file, page)
    requires Images(m1, ss[..|ss| - 1], base, file, page) && SameElsewhere(m, m1, ss[..|ss| - 1], base, page)
    requires Image(m2, ss[|ss| - 1], base, file)
    requires Same(m1, m2, Floor(ss[|ss| - 1].vaddr, page) + base, MapEnd(ss[|ss| - 1], page) + base)
    ensures Images(m2, ss, base, file, page) && SameElsewhere(m, m2, ss, base, page)
  {
    var n := |ss| - 1;
    var init, last := ss[..n], ss[n];
    var lo, hi := Floor(last.vaddr, page) + base, MapEnd(last, page) + base;
    assert forall i :: 0 <= i < n ==> init[i] == ss[i];
    forall i | 0 <= i < |ss| ensures Image(m2, ss[i], base, file) {
      if i < n {
        assert init[i] == ss[i];
        ImageKept(m1, m2, ss[i], base, file, lo, hi);
      }
    }
    forall a: nat | Untouched(ss, base, page, a)
      ensures (a in m <==> a in m2) && (a in m ==> m2[a] == m[a])
    {
      assert Untouched(init, base, page, a);
      assert !(lo <= a < hi);
    }
  }

  lemma {:induction false} CeilBounds(y: nat, page: nat)
    requires page > 0
    ensures y <= Ceil(y, page)
    ensures y == Ceil(y, page) <==> y % page == 0
  {
    FloorPage(y + page - 1, page);
    if y % page == 0 && y < Ceil(y, page) {
      AlignedApart(y, Ceil(y, page), page);
    }
  }

  /** A writable segment with bytes to clear kills its process exactly when its file
      part ends where the file ends, on a page boundary: the page that is cleared is
      then beyond the end of the file. */
  lemma {:induction false} SurvivesIff(s: Segment, base: nat, file: File, page: nat)
    requires Loadable(s, base, file, page) && s.w && 0 < s.filesz < s.memsz
    ensures Survives(s, file, page) <==> !(s.offset + s.filesz == |file| && |file| % page == 0)
  {
    var x, y := s.offset + s.filesz, |file|;
    CeilBounds(y, page);
    FloorPage(x, page);
  }

  /** Such a segment: one page of bytes, the whole file, and one zero. */
  lemma {:induction false} AlignedBssKills(file: File)
    requires |file| == 4096
    ensures var s := Segment(0x10000, 0, 4096, 4097, true, true, false);
            Loadable(s, 0, file, 4096) && !Survives(s, file, 4096)
  {
  }
}
