/** Sequences kept in order by insertion and removal. */
module Sequences {

  /** No element is `above` a later one. */
  ghost predicate Ordered<T>(l: seq<T>, above: (T, T) -> bool) {
    forall i, j :: 0 <= i < j < |l| ==> !above(l[i], l[j])
  }

  function InsertAt<T>(l: seq<T>, k: nat, x: T): seq<T>
    requires k <= |l|
  {
    l[..k] + [x] + l[k..]
  }

  /** The first index holding `x`, or the length. */
  function IndexOf<T(==)>(l: seq<T>, x: T): (k: nat)
    ensures k <= |l|
    ensures forall i :: 0 <= i < k ==> l[i] != x
    ensures k < |l| ==> l[k] == x
  {
    if l == [] then 0 else if l[0] == x then 0 else 1 + IndexOf(l[1..], x)
  }

  /** `l` without the first occurrence of `x`. */
  function Without<T(==)>(l: seq<T>, x: T): seq<T> {
    var k := IndexOf(l, x);
    if k < |l| then l[..k] + l[k + 1..] else l
  }

  lemma {:induction false} WithoutMultiset<T>(l: seq<T>, x: T)
    ensures multiset(Without(l, x)) == multiset(l) - multiset{x}
  {
    WithoutAt(l, x, IndexOf(l, x), Without(l, x));
  }

  lemma {:induction false} WithoutAt<T>(l: seq<T>, x: T, k: nat, r: seq<T>)
    requires k <= |l|
    requires k < |l| ==> l[k] == x && r == l[..k] + l[k + 1..]
    requires k == |l| ==> x !in l && r == l
    ensures multiset(r) == multiset(l) - multiset{x}
  {
    if k < |l| {
      DropMultiset(l, k, x);
    } else {
      AbsentMultiset(l, x);
    }
  }

  lemma {:induction false} InsertedMembers<T>(l: seq<T>, k: nat, b: T, x: T)
    requires k <= |l|
    ensures x in InsertAt(l, k, b) <==> x == b || x in l
  {
    assert l == l[..k] + l[k..];
  }

  lemma {:induction false} AbsentMultiset<T>(l: seq<T>, x: T)
    requires x !in l
    ensures multiset(l) - multiset{x} == multiset(l)
  {
    assert x !in multiset(l);
  }

  lemma {:induction false} DropMultiset<T>(l: seq<T>, k: nat, x: T)
    requires k < |l| && l[k] == x
    ensures multiset(l[..k] + l[k + 1..]) == multiset(l) - multiset{x}
  {
    MultisetWithout(l[..k], l[k], l[k + 1..]);
    assert l == l[..k] + [l[k]] + l[k + 1..];
  }

  lemma {:induction false} MultisetWithout<T>(a: seq<T>, x: T, b: seq<T>)
    ensures multiset(a + b) == multiset(a + [x] + b) - multiset{x}
  {
    assert multiset(a + [x] + b) == multiset(a + [x]) + multiset(b) == multiset(a) + multiset{x} + multiset(b);
  }

  /** Without repetition, all the others remain. */
  lemma {:induction false} WithoutMembers<T>(l: seq<T>, b: T, x: T)
    requires forall i, j :: 0 <= i < j < |l| ==> l[i] != l[j]
    ensures x in Without(l, b) <==> x in l && x != b
  {
    var k := IndexOf(l, b);
    if k < |l| {
      var r := l[..k] + l[k + 1..];
      assert forall i :: 0 <= i < |r| ==> r[i] == l[if i < k then i else i + 1];
      if x in l && x != b {
        var i :| 0 <= i < |l| && l[i] == x;
        assert r[if i < k then i else i - 1] == x;
      }
    }
  }

  lemma {:induction false} WithoutOrdered<T>(l: seq<T>, x: T, above: (T, T) -> bool)
    requires Ordered(l, above)
    ensures Ordered(Without(l, x), above)
  {
    var k := IndexOf(l, x);
    var r := Without(l, x);
    assert forall i :: 0 <= i < |r| ==> r[i] == l[if i < k then i else i + 1];
  }

  lemma {:induction false} InsertAtMultiset<T>(l: seq<T>, k: nat, x: T)
    requires k <= |l|
    ensures multiset(InsertAt(l, k, x)) == multiset(l) + multiset{x}
  {
    assert l == l[..k] + l[k..];
  }

  /** Insertion behind the last element that must precede `x` keeps the order,
      provided nothing before that place is above `x`. */
  lemma {:induction false} InsertAtOrdered<T>(l: seq<T>, k: nat, x: T, above: (T, T) -> bool)
    requires k <= |l| && Ordered(l, above)
    requires forall i :: 0 <= i < k ==> !above(l[i], x)
    requires forall i :: k <= i < |l| ==> !above(x, l[i])
    ensures Ordered(InsertAt(l, k, x), above)
  {
    var r := InsertAt(l, k, x);
    assert forall i :: 0 <= i < k ==> r[i] == l[i];
    assert forall i :: k < i < |r| ==> r[i] == l[i - 1];
  }

  lemma {:induction false} ReplaceMultiset<T>(l: seq<T>, k: nat, x: T)
    requires k < |l|
    ensures multiset(l[k := x]) == multiset(l) - multiset{l[k]} + multiset{x}
  {
  }

  /** One past the last element that `x` has to follow, 0 if there is none. */
  function PlaceOf<T>(l: seq<T>, x: T, follows: (T, T) -> bool): (k: nat)
    ensures k <= |l|
    ensures forall i :: k <= i < |l| ==> !follows(x, l[i])
    ensures k > 0 ==> follows(x, l[k - 1])
  {
    if l == [] then 0
    else if follows(x, l[|l| - 1]) then |l|
    else PlaceOf(l[..|l| - 1], x, follows)
  }

  lemma {:induction false} PlaceOfIs<T>(l: seq<T>, x: T, follows: (T, T) -> bool, k: nat)
    requires k <= |l| && (k > 0 ==> follows(x, l[k - 1]))
    requires forall i :: k <= i < |l| ==> !follows(x, l[i])
    ensures PlaceOf(l, x, follows) == k
  {
  }

  /** An element above `x` is above whatever `x` follows, hence comes later. */
  lemma {:induction false} NothingAboveBefore<T>(l: seq<T>, x: T, follows: (T, T) -> bool, above: (T, T) -> bool,
                                                 i: nat)
    requires Ordered(l, above) && i < PlaceOf(l, x, follows)
    requires forall y, z :: y in l && z in l && above(y, x) && follows(x, z) ==> above(y, z)
    requires forall y :: y in l ==> !above(y, y)
    ensures !above(l[i], x)
  {
    var y, z := l[i], l[PlaceOf(l, x, follows) - 1];
    assert above(y, x) ==> above(y, z);
  }

  lemma {:induction false} PlacedOrdered<T>(l: seq<T>, x: T, follows: (T, T) -> bool, above: (T, T) -> bool)
    requires Ordered(l, above)
    requires forall y, z :: y in l && z in l && above(y, x) && follows(x, z) ==> above(y, z)
    requires forall y :: y in l ==> !above(y, y)
    requires forall y :: y in l && above(x, y) ==> follows(x, y)
    ensures Ordered(InsertAt(l, PlaceOf(l, x, follows), x), above)
  {
    var k := PlaceOf(l, x, follows);
    forall i | 0 <= i < k ensures !above(l[i], x) {
      NothingAboveBefore(l, x, follows, above, i);
    }
    InsertAtOrdered(l, k, x, above);
  }

  /** The index of the first element satisfying `p`, or the length. */
  function FirstIndex<T>(l: seq<T>, p: T -> bool): (k: nat)
    ensures k <= |l|
    ensures forall i :: 0 <= i < k ==> !p(l[i])
    ensures k < |l| ==> p(l[k])
  {
    if l == [] then 0 else if p(l[0]) then 0 else 1 + FirstIndex(l[1..], p)
  }

  // ---------------------------------------------------------------------
  // Sequences of sequences
  // ---------------------------------------------------------------------

  function Flat<T>(parts: seq<seq<T>>): seq<T> {
    if parts == [] then [] else Flat(parts[..|parts| - 1]) + parts[|parts| - 1]
  }

  lemma {:induction false} FlatSnoc<T>(parts: seq<seq<T>>, last: seq<T>)
    ensures Flat(parts + [last]) == Flat(parts) + last
  {
    assert (parts + [last])[..|parts|] == parts;
  }

  lemma {:induction false} FlatCons<T>(parts: seq<seq<T>>)
    requires parts != []
    ensures Flat(parts) == parts[0] + Flat(parts[1..])
    decreases |parts|
  {
    var n := |parts| - 1;
    if n > 0 {
      FlatCons(parts[..n]);
      assert parts[1..] == parts[..n][1..] + [parts[n]];
      FlatSnoc(parts[..n][1..], parts[n]);
    } else {
      assert parts[..n] == [] && parts[1..] == [];
    }
  }
}
