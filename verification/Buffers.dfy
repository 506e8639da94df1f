/** Byte buffers written through a cursor. */
module Buffers {

  /** `s` with `bs` written at `at`, byte by byte. */
  function Put(s: seq<nat>, at: nat, bs: seq<nat>): (r: seq<nat>)
    requires at + |bs| <= |s|
    ensures |r| == |s|
    decreases |bs|
  {
    if bs == [] then s
    else
      var n := |bs| - 1;
      Put(s, at, bs[..n])[at + n := bs[n]]
  }

  /** That is, what precedes and what follows is untouched. */
  lemma {:induction false} PutIs(s: seq<nat>, at: nat, bs: seq<nat>)
    requires at + |bs| <= |s|
    ensures Put(s, at, bs) == s[..at] + bs + s[at + |bs|..]
    decreases |bs|
  {
    if bs != [] {
      PutIs(s, at, bs[..|bs| - 1]);
    }
  }

  lemma {:induction false} PutPut(s: seq<nat>, at: nat, a: seq<nat>, b: seq<nat>)
    requires at + |a| + |b| <= |s|
    ensures Put(Put(s, at, a), at + |a|, b) == Put(s, at, a + b)
    decreases |b|
  {
    if b == [] {
      assert a + b == a;
    } else {
      var n := |b| - 1;
      PutPut(s, at, a, b[..n]);
      assert (a + b)[..|a| + n] == a + b[..n];
    }
  }

  /** One write after the other. */
  lemma {:induction false} PutNext(s: seq<nat>, t: seq<nat>, u: seq<nat>, at: nat, a: seq<nat>, b: seq<nat>, next: nat)
    requires next == at + |a| && next + |b| <= |s|
    requires t == Put(s, at, a) && u == Put(t, next, b)
    ensures u == Put(s, at, a + b)
  {
    PutPut(s, at, a, b);
  }

  /** Writes that do not overlap commute. */
  lemma {:induction false} PutApart(s: seq<nat>, i: nat, a: seq<nat>, at: nat, bs: seq<nat>)
    requires i + |a| <= at && at + |bs| <= |s|
    ensures Put(Put(s, i, a), at, bs) == Put(Put(s, at, bs), i, a)
  {
    var left, right := Put(s, i, a), Put(s, at, bs);
    PutIs(s, i, a);
    PutIs(s, at, bs);
    PutIs(left, at, bs);
    PutIs(right, i, a);
    CutApart(s, i, a, at, bs, left, right);
  }

  lemma {:induction false} CutApart(s: seq<nat>, i: nat, a: seq<nat>, at: nat, bs: seq<nat>, left: seq<nat>,
                                    right: seq<nat>)
    requires i + |a| <= at && at + |bs| <= |s|
    requires left == s[..i] + a + s[i + |a|..] && right == s[..at] + bs + s[at + |bs|..]
    ensures left[..at] + bs + left[at + |bs|..] == right[..i] + a + right[i + |a|..]
  {
  }

  method CopyBytes(buffer: array<nat>, cursor: nat, bs: seq<nat>) returns (next: nat)
    requires cursor + |bs| <= buffer.Length
    modifies buffer
    ensures next == cursor + |bs|
    ensures buffer[..] == Put(old(buffer[..]), cursor, bs)
  {
    ghost var before := buffer[..];
    var i := 0;
    while i < |bs|
      invariant 0 <= i <= |bs|
      invariant buffer[..] == Put(before, cursor, bs[..i])
    {
      assert bs[..i + 1][..i] == bs[..i];
      buffer[cursor + i] := bs[i];
      i := i + 1;
    }
    assert bs[..|bs|] == bs;
    next := cursor + |bs|;
  }
}
