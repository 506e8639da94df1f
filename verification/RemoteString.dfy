/**
Reading a string of a tracee, chunk by chunk and else word by word, against
a scan of its bytes.
 */
module RemoteString {
  import opened Common
  import opened Pages

  type Mem = map<nat, nat>

  // ---------------------------------------------------------------------
  // What there is to read
  // ---------------------------------------------------------------------

  ghost predicate Mapped(m: Mem, src: nat, n: nat) {
    forall a: nat :: src <= a < src + n ==> a in m
  }

  /** n bytes without a NUL. */
  ghost predicate Unterminated(m: Mem, src: nat, n: nat) {
    forall a: nat :: src <= a < src + n ==> a in m && m[a] != 0
  }

  /** The string at `src` has length n. */
  ghost predicate StringOf(m: Mem, src: nat, n: nat) {
    Unterminated(m, src, n) && src + n in m && m[src + n] == 0
  }

  /** The string at `src` runs into unmapped memory after n bytes. */
  ghost predicate Faults(m: Mem, src: nat, n: nat) {
    Unterminated(m, src, n) && src + n !in m
  }

  ghost predicate Ends(m: Mem, src: nat, n: nat) {
    StringOf(m, src, n) || Faults(m, src, n)
  }

  /** Memory comes in pages. */
  ghost predicate Paged(m: Mem, page: nat)
    requires page > 0
  {
    forall a: nat, b: nat :: Floor(a, page) == Floor(b, page) && a in m ==> b in m
  }

  /** Exactly one of the three holds, up to any bound. */
  lemma {:induction false} OneOutcome(m: Mem, src: nat, max: nat)
    ensures Unterminated(m, src, max) || exists n: nat :: n < max && Ends(m, src, n)
    ensures forall n: nat, k: nat :: n < max && Ends(m, src, n) && Ends(m, src, k) ==> n == k
    ensures Unterminated(m, src, max) ==>
              forall n: nat :: n < max ==> !Ends(m, src, n)
    decreases max
  {
    if max > 0 {
      OneOutcome(m, src, max - 1);
      var n := max - 1;
      assert Unterminated(m, src, n) ==>
          Ends(m, src, n) || Unterminated(m, src, max);
    }
  }

  // ---------------------------------------------------------------------
  // Chunks
  // ---------------------------------------------------------------------

  /** A chunk does not cross a page. */
  lemma {:induction false} SamePage(a: nat, b: nat, chunk: nat, page: nat)
    requires chunk > 0 && page > 0 && page % chunk == 0 && Floor(a, chunk) == Floor(b, chunk)
    ensures Floor(a, page) == Floor(b, page)
  {
    var f, p := Floor(a, chunk), Floor(a, page);
    FloorPage(a, chunk);
    FloorPage(a, page);
    FloorPage(p, page);
    AlignedDown(p, page, chunk);
    AlignedDown(p + page, page, chunk);
    if p > f {
      AlignedApart(f, p, chunk);
    }
    AlignedApart(f, p + page, chunk);
    FloorUnique(b, page, p);
  }

  /** The size of a chunk: a page, at most 1024. */
  function Chunk(page: nat): nat {
    if 0 < page < 1024 then page else 1024
  }

  /** Some of the n bytes is not mapped. */
  predicate Hole(m: Mem, src: nat, n: nat) {
    exists a: nat :: src <= a < src + n && a !in m
  }

  /** `after` is `before` with the bytes at `src` put at `offset`. */
  ghost predicate ReadInto(m: Mem, src: nat, before: seq<nat>, after: seq<nat>, offset: nat, size: nat) {
    && |before| == |after| && offset + size <= |after|
    && (forall i :: 0 <= i < offset ==> after[i] == before[i])
    && (forall a: nat :: src <= a < src + size ==> a in m && after[a - src + offset] == m[a])
  }

  /** process_vm_readv() on one element: all of it or nothing. */
  method ReadVector(m: Mem, src: nat, dest: array<nat>, offset: nat, size: nat) returns (ok: bool)
    requires offset + size <= dest.Length
    modifies dest
    ensures !ok ==> Hole(m, src, size)
    ensures forall i :: 0 <= i < dest.Length && !(offset <= i < offset + size) ==> dest[i] == old(dest[i])
    ensures ok ==> ReadInto(m, src, old(dest[..]), dest[..], offset, size)
  {
    if Hole(m, src, size) {
      return false;
    }
    forall i | offset <= i < offset + size {
      dest[i] := m[src + (i - offset)];
    }
    return true;
  }

  /** strnlen() */
  method Strnlen(dest: array<nat>, offset: nat, size: nat) returns (n: nat)
    requires offset + size <= dest.Length
    ensures n <= size && forall i :: offset <= i < offset + n ==> dest[i] != 0
    ensures n < size ==> dest[offset + n] == 0
  {
    n := 0;
    while n < size && dest[offset + n] != 0
      invariant n <= size && forall i :: offset <= i < offset + n ==> dest[i] != 0
    {
      n := n + 1;
    }
  }

  /** The first n bytes of `dest` are those at `src`. */
  ghost predicate Copied(m: Mem, src: nat, dest: seq<nat>, n: nat) {
    n <= |dest| && forall a: nat :: src <= a < src + n ==> a in m && dest[a - src] == m[a]
  }

  lemma {:induction false} ChunkUnmapped(m: Mem, a: nat, size: nat, chunk: nat, page: nat)
    requires chunk > 0 && page > 0 && page % chunk == 0 && Paged(m, page)
    requires a + size <= Floor(a, chunk) + chunk && Hole(m, a, size)
    ensures a !in m
  {
    var b: nat :| a <= b < a + size && b !in m;
    FloorPage(a, chunk);
    FloorUnique(b, chunk, Floor(a, chunk));
    SamePage(a, b, chunk, page);
  }

  /** One chunk, with the position of its first NUL or its size; None if it can not be read. */
  method ReadChunk(m: Mem, src: nat, dest: array<nat>, offset: nat, size: nat) returns (r: Option<nat>)
    requires offset + size <= dest.Length && Unterminated(m, src, offset) && Copied(m, src, dest[..], offset)
    modifies dest
    ensures forall i :: offset + size <= i < dest.Length ==> dest[i] == old(dest[i])
    ensures r.None? ==> Hole(m, src + offset, size)
    ensures r.Some? ==>
              && r.value <= size && Unterminated(m, src, offset + r.value)
              && Copied(m, src, dest[..], offset + size)
              && (r.value < size ==> StringOf(m, src, offset + r.value))
  {
    ghost var before := dest[..];
    var ok := ReadVector(m, src + offset, dest, offset, size);
    if !ok {
      return None;
    }
    ChunkCopied(m, src, before, dest[..], offset, size);
    var n := ScanChunk(m, src, dest, offset, size);
    return Some(n);
  }

  method ScanChunk(m: Mem, src: nat, dest: array<nat>, offset: nat, size: nat) returns (n: nat)
    requires offset + size <= dest.Length && Unterminated(m, src, offset) && Copied(m, src, dest[..], offset + size)
    ensures n <= size && Unterminated(m, src, offset + n)
    ensures n < size ==> StringOf(m, src, offset + n)
  {
    n := Strnlen(dest, offset, size);
    ChunkScanned(m, src, dest[..], offset, size, n);
  }

  lemma {:induction false} ChunkCopied(m: Mem, src: nat, before: seq<nat>, after: seq<nat>, offset: nat, size: nat)
    requires Copied(m, src, before, offset) && ReadInto(m, src + offset, before, after, offset, size)
    ensures Copied(m, src, after, offset + size)
  {
  }

  /** The chunked path: the size of the string with its NUL, or None to fall back. */
  method ReadChunks(m: Mem, src: nat, max: nat, page: nat, dest: array<nat>) returns (r: Option<nat>)
    requires page > 0 && page % Chunk(page) == 0 && Paged(m, page) && dest.Length >= max
    modifies dest
    ensures forall i :: max <= i < dest.Length ==> dest[i] == old(dest[i])
    ensures r.Some? ==> 0 < r.value <= max && StringOf(m, src, r.value - 1) && Copied(m, src, dest[..], r.value)
    ensures r.None? ==> Unterminated(m, src, max) || exists n: nat :: n < max && Faults(m, src, n)
  {
    var chunk := Chunk(page);
    var offset := 0;
    while true
      invariant offset <= max && Unterminated(m, src, offset) && Copied(m, src, dest[..], offset)
      invariant forall i :: max <= i < dest.Length ==> dest[i] == old(dest[i])
      invariant offset == max ==> max == 0
      decreases max - offset
    {
      var next := Floor(src + offset, chunk) + chunk;
      var size := Min(next - (src + offset), max - offset);
      var n := ReadChunk(m, src, dest, offset, size);
      if n.None? {
        ChunkUnmapped(m, src + offset, size, chunk, page);
        assert Faults(m, src, offset);
        return None;
      }
      if n.value < size {
        return Some(offset + n.value + 1);
      }
      offset := offset + size;
      if offset >= max {
        return None;
      }
    }
  }

  lemma {:induction false} ChunkScanned(m: Mem, src: nat, dest: seq<nat>, offset: nat, size: nat, n: nat)
    requires offset + size <= |dest| && n <= size
    requires Unterminated(m, src, offset) && Copied(m, src, dest, offset + size)
    requires forall i :: offset <= i < offset + n ==> dest[i] != 0
    requires n < size ==> dest[offset + n] == 0
    ensures Unterminated(m, src, offset + n)
    ensures n < size ==> StringOf(m, src, offset + n)
  {
    forall a: nat | src <= a < src + offset + n ensures a in m && m[a] != 0 {
      assert dest[a - src] == m[a];
    }
  }

  // ---------------------------------------------------------------------
  // Words
  // ---------------------------------------------------------------------

  /** PTRACE_PEEKDATA, at any address. */
  function PeekData(m: Mem, a: nat): Option<seq<nat>> {
    if a in m && a + 1 in m && a + 2 in m && a + 3 in m && a + 4 in m && a + 5 in m && a + 6 in m && a + 7 in m
    then Some([m[a], m[a + 1], m[a + 2], m[a + 3], m[a + 4], m[a + 5], m[a + 6], m[a + 7]])
    else None
  }

  lemma {:induction false} PeekDataIs(m: Mem, a: nat)
    ensures PeekData(m, a).Some? <==> Mapped(m, a, 8)
    ensures PeekData(m, a).Some? ==> forall j :: 0 <= j < 8 ==> PeekData(m, a).value[j] == m[a + j]
  {
  }

  lemma {:induction false} PeekAt(m: Mem, a: nat, word: seq<nat>, j: nat)
    requires PeekData(m, a) == Some(word) && j < 8
    ensures a + j in m && word[j] == m[a + j]
  {
    PeekDataIs(m, a);
  }

  /** The bytes of the words up to that of index n. */
  function WordEnd(n: nat): nat {
    n / 8 * 8 + 8
  }

  lemma {:induction false} WordEndIs(i: nat, j: nat)
    requires j < 8
    ensures WordEnd(8 * i + j) == 8 * i + 8
  {
  }

  /** The position of the first NUL among n bytes, or n. */
  method FindNul(word: seq<nat>, n: nat) returns (j: nat)
    requires n <= |word|
    ensures j <= n && (forall k :: 0 <= k < j ==> word[k] != 0) && (j < n ==> word[j] == 0)
  {
    j := 0;
    while j < n && word[j] != 0
      invariant j <= n && forall k :: 0 <= k < j ==> word[k] != 0
    {
      j := j + 1;
    }
  }

  /** One word more: `j` bytes of it before a NUL or before `n`. */
  lemma {:induction false} WordScanned(m: Mem, src: nat, i: nat, word: seq<nat>, j: nat)
    requires PeekData(m, src + 8 * i) == Some(word) && j <= 8
    requires Unterminated(m, src, 8 * i) && forall k :: 0 <= k < j ==> word[k] != 0
    ensures Unterminated(m, src, 8 * i + j)
    ensures j < 8 && word[j] == 0 ==> StringOf(m, src, 8 * i + j)
    ensures Mapped(m, src, 8 * i + 8)
  {
    var at := src + 8 * i;
    PeekDataIs(m, at);
    forall a: nat | src <= a < at + j ensures a in m && m[a] != 0 {
      if a >= at {
        assert word[a - at] == m[at + (a - at)];
      }
    }
    assert j < 8 ==> word[j] == m[at + j];
  }

  method StoreBytes(m: Mem, src: nat, word: seq<nat>, dest: array<nat>, at: nat, n: nat)
    requires PeekData(m, src + at) == Some(word) && n <= 8 && at + n <= dest.Length
    requires Copied(m, src, dest[..], at)
    modifies dest
    ensures Copied(m, src, dest[..], at + n)
    ensures forall i :: at + n <= i < dest.Length ==> dest[i] == old(dest[i])
  {
    forall i | at <= i < at + n {
      dest[i] := word[i - at];
    }
    CopiedMore(m, src, word, old(dest[..]), dest[..], at, n);
  }

  lemma {:induction false} CopiedMore(m: Mem, src: nat, word: seq<nat>, before: seq<nat>, after: seq<nat>, at: nat,
                                      n: nat)
    requires PeekData(m, src + at) == Some(word) && n <= 8 && at + n <= |before| == |after|
    requires Copied(m, src, before, at)
    requires forall i :: 0 <= i < at ==> after[i] == before[i]
    requires forall i :: at <= i < at + n ==> after[i] == word[i - at]
    ensures Copied(m, src, after, at + n)
  {
    forall a: nat | src <= a < src + at + n ensures a in m && after[a - src] == m[a] {
      if a - src >= at {
        var j := a - src - at;
        PeekAt(m, src + at, word, j);
        assert after[at + j] == word[at + j - at];
      }
    }
  }

  /** Word `i` can not be read, and there is no NUL before. */
  ghost predicate StopsAt(m: Mem, src: nat, max: nat, i: nat) {
    8 * i <= max && Unterminated(m, src, 8 * i) && !Mapped(m, src + 8 * i, 8)
  }

  /** n bytes of a string with its NUL, or max bytes without one; and whole words were read. */
  ghost predicate WordsRead(m: Mem, src: nat, max: nat, dest: seq<nat>, n: nat) {
    && 0 < n <= max + 1 && Mapped(m, src, WordEnd(n - 1))
    && (if n <= max then StringOf(m, src, n - 1) && Copied(m, src, dest, n)
        else Unterminated(m, src, max) && Copied(m, src, dest, max))
  }

  /** One word, with the position of its first NUL or 8; None if it can not be read. */
  method ReadFullWord(m: Mem, src: nat, dest: array<nat>, i: nat) returns (r: Option<nat>)
    requires 8 * i + 8 <= dest.Length && Unterminated(m, src, 8 * i) && Copied(m, src, dest[..], 8 * i)
    modifies dest
    ensures forall k :: 8 * i + 8 <= k < dest.Length ==> dest[k] == old(dest[k])
    ensures r.None? ==> !Mapped(m, src + 8 * i, 8)
    ensures r.Some? ==>
              && r.value <= 8 && Mapped(m, src, 8 * i + 8) && Unterminated(m, src, 8 * i + r.value)
              && Copied(m, src, dest[..], 8 * i + 8)
              && (r.value < 8 ==> StringOf(m, src, 8 * i + r.value))
  {
    var word := PeekData(m, src + 8 * i);
    PeekDataIs(m, src + 8 * i);
    if word.None? {
      return None;
    }
    StoreBytes(m, src, word.value, dest, 8 * i, 8);
    var j := FindNul(word.value, 8);
    WordScanned(m, src, i, word.value, j);
    return Some(j);
  }

  /** The word-by-word path. */
  method ReadWords(m: Mem, src: nat, max: nat, dest: array<nat>) returns (r: Result<nat>)
    requires dest.Length >= max
    modifies dest
    ensures forall i :: max <= i < dest.Length ==> dest[i] == old(dest[i])
    ensures r.Ok? ==> WordsRead(m, src, max, dest[..], r.value)
    ensures r.Err? ==> r == Err(EFAULT)
    ensures r.Err? ==> exists i: nat :: StopsAt(m, src, max, i)
  {
    var trailing := max % 8;
    var full := (max - trailing) / 8;
    var i := 0;
    while i < full
      invariant i <= full && Unterminated(m, src, 8 * i) && Copied(m, src, dest[..], 8 * i)
      invariant forall k :: max <= k < dest.Length ==> dest[k] == old(dest[k])
    {
      var j := ReadFullWord(m, src, dest, i);
      if j.None? {
        assert StopsAt(m, src, max, i);
        return Err(EFAULT);
      }
      if j.value < 8 {
        WordEndIs(i, j.value);
        return Ok(8 * i + j.value + 1);
      }
      i := i + 1;
    }
    r := ReadLastWord(m, src, max, dest, i, trailing);
    assert r.Err? ==> StopsAt(m, src, max, i);
  }

  /** The bytes of the last word, carefully. */
  method ReadLastWord(m: Mem, src: nat, max: nat, dest: array<nat>, i: nat, trailing: nat) returns (r: Result<nat>)
    requires dest.Length >= max == 8 * i + trailing && trailing < 8
    requires Unterminated(m, src, 8 * i) && Copied(m, src, dest[..], 8 * i)
    modifies dest
    ensures forall k :: max <= k < dest.Length ==> dest[k] == old(dest[k])
    ensures r.Ok? ==> WordsRead(m, src, max, dest[..], r.value)
    ensures r.Err? ==> r == Err(EFAULT) && !Mapped(m, src + 8 * i, 8)
  {
    var word := PeekData(m, src + 8 * i);
    PeekDataIs(m, src + 8 * i);
    if word.None? {
      return Err(EFAULT);
    }
    var j := FindNul(word.value, trailing);
    WordScanned(m, src, i, word.value, j);
    WordEndIs(i, j);
    StoreBytes(m, src, word.value, dest, 8 * i, if j < trailing then j + 1 else j);
    return Ok(8 * i + j + 1);
  }

  // ---------------------------------------------------------------------
  // read_string
  // ---------------------------------------------------------------------

  /** What is returned: the size of the string with its NUL; else, without a NUL among
      max bytes, max + 1 provided that one more word can be read; else EFAULT.  Without
      process_vm_readv() the words that hold the string must be readable too. */
  ghost predicate Specified(m: Mem, src: nat, max: nat, vm: bool, r: Result<nat>) {
    && (forall n: nat :: n < max && StringOf(m, src, n) ==>
          r == if vm || Mapped(m, src, WordEnd(n)) then Ok(n + 1) else Err(EFAULT))
    && (forall n: nat :: n < max && Faults(m, src, n) ==> r == Err(EFAULT))
    && (Unterminated(m, src, max) ==>
          r == if Mapped(m, src, WordEnd(max)) then Ok(max + 1) else Err(EFAULT))
  }

  /** read_string() stays within the max bytes of its buffer and equals the scan. */
  method ReadString(m: Mem, src: nat, max: nat, page: nat, vm: bool, dest: array<nat>) returns (r: Result<nat>)
    requires page > 0 && page % Chunk(page) == 0 && Paged(m, page) && dest.Length >= max
    modifies dest
    ensures forall i :: max <= i < dest.Length ==> dest[i] == old(dest[i])
    ensures Specified(m, src, max, vm, r)
    ensures r.Ok? ==> Copied(m, src, dest[..], if r.value <= max then r.value else max)
  {
    if vm {
      var size := ReadChunks(m, src, max, page, dest);
      ChunksSpecified(m, src, max, size);
      if size.Some? {
        return Ok(size.value);
      }
    }
    r := ReadWords(m, src, max, dest);
    WordsSpecified(m, src, max, vm, r);
  }

  lemma {:induction false} ChunksSpecified(m: Mem, src: nat, max: nat, size: Option<nat>)
    requires size.Some? ==> 0 < size.value <= max && StringOf(m, src, size.value - 1)
    requires size.None? ==> Unterminated(m, src, max) || exists n: nat :: n < max && Faults(m, src, n)
    ensures size.Some? ==> Specified(m, src, max, true, Ok(size.value))
    ensures size.None? ==> forall n: nat :: n < max ==> !StringOf(m, src, n)
  {
    OneOutcome(m, src, max);
  }

  lemma {:induction false} WordsSpecified(m: Mem, src: nat, max: nat, vm: bool, r: Result<nat>)
    requires vm ==> forall n: nat :: n < max ==> !StringOf(m, src, n)
    requires r.Ok? ==>
               && 0 < r.value <= max + 1 && Mapped(m, src, WordEnd(r.value - 1))
               && (if r.value <= max then StringOf(m, src, r.value - 1) else Unterminated(m, src, max))
    requires r.Err? ==> r == Err(EFAULT)
    requires r.Err? ==> exists i: nat :: StopsAt(m, src, max, i)
    ensures Specified(m, src, max, vm, r)
  {
    OneOutcome(m, src, max);
    if r.Err? {
      var i: nat :| StopsAt(m, src, max, i);
      forall n: nat | n <= max && 8 * i <= n ensures !Mapped(m, src, WordEnd(n)) {
        WordUnmapped(m, src, i, n);
      }
      assert forall n: nat :: n < 8 * i ==> !StringOf(m, src, n);
    }
  }

  lemma {:induction false} WordUnmapped(m: Mem, src: nat, i: nat, n: nat)
    requires !Mapped(m, src + 8 * i, 8) && 8 * i <= n
    ensures !Mapped(m, src, WordEnd(n))
  {
    var b: nat :| src + 8 * i <= b < src + 8 * i + 8 && b !in m;
    assert b < src + WordEnd(n);
  }

  /** Exactly max readable bytes without a NUL at the end of a mapping are an error, not
      a string that is too long. */
  lemma {:induction false} LastPageFaults(m: Mem, src: nat, max: nat, r: Result<nat>)
    requires Unterminated(m, src, max) && src + max !in m && Specified(m, src, max, true, r)
    ensures r == Err(EFAULT)
  {
    assert src + max < src + WordEnd(max);
  }
}
