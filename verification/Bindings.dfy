/**
The ordered binding lists of a file-system name-space.  A `Binding` is an
object: replacing and removing go by identity, since two bindings may have
equal paths.
 */
module Bindings {
  import opened Common
  import opened Paths
  import opened Sequences

  datatype Side = Guest | Host

  /** BINDING_ACCESS_RW, RO, WO and MASK. */
  datatype Access = ReadWrite | ReadOnly | WriteOnly | Masked

  /** The guest path may have been spelled with a slash at its end (`slash`), which
      no comparison looks at but every length counts. */
  class Binding {
    const host: string
    const guest: string
    const slash: bool
    const needSubstitution: bool
    const mode: Access

    constructor (host: string, spelled: string, mode: Access)
      ensures this.host == host && guest == Bare(spelled) && slash == Slashed(spelled) && this.mode == mode
      ensures needSubstitution == (ComparePaths(host, spelled) != Equal)
    {
      this.host := host;
      this.guest := Bare(spelled);
      this.slash := Slashed(spelled);
      this.mode := mode;
      this.needSubstitution := ComparePaths(host, spelled) != Equal;
    }

    predicate Valid() {
      Plain(host) && Plain(guest) && (slash ==> guest != "/") && needSubstitution == (host != guest)
    }

    function PathOn(side: Side): string {
      if side == Guest then guest else host
    }

    /** The path as it is stored. */
    function SpelledOn(side: Side): string {
      if side == Guest && slash then guest + "/" else PathOn(side)
    }
  }

  /** A stored path compares as the path. */
  lemma {:induction false} SpelledIs(b: Binding, side: Side)
    requires b.Valid()
    ensures Rooted(b.SpelledOn(side)) && Bare(b.SpelledOn(side)) == b.PathOn(side)
  {
    if side == Guest && b.slash {
      assert (b.guest + "/")[..|b.guest|] == b.guest;
    }
  }

  /** No guest path is spelled with a slash at its end. */
  ghost predicate Unslashed(l: seq<Binding>) {
    forall b :: b in l ==> !b.slash
  }

  ghost predicate AllValid(l: seq<Binding>) {
    forall b :: b in l ==> b.Valid()
  }

  /** `x` is bound strictly above `y`. */
  predicate IsAbove(side: Side, x: Binding, y: Binding) {
    Within(x.PathOn(side), y.PathOn(side)) && x.PathOn(side) != y.PathOn(side)
  }

  function Above(side: Side): (Binding, Binding) -> bool {
    (x: Binding, y: Binding) => IsAbove(side, x, y)
  }

  /** `x` is bound at or above `y`. */
  function Contains(side: Side): (Binding, Binding) -> bool {
    (x: Binding, y: Binding) => Within(x.PathOn(side), y.PathOn(side))
  }

  function SameGuest(): (Binding, Binding) -> bool {
    (x: Binding, y: Binding) => x.guest == y.guest
  }

  /** The two sorted lists of a name-space. */
  datatype Lists = Lists(guest: seq<Binding>, host: seq<Binding>) {
    /** No container precedes a binding nested in it, on either side; no two
        bindings share a guest path; both lists hold the same bindings. */
    ghost predicate Valid() {
      && AllValid(guest)
      && Ordered(guest, Above(Guest)) && Ordered(host, Above(Host))
      && Ordered(guest, SameGuest())
      && multiset(guest) == multiset(host)
    }
  }

  lemma {:induction false} HostValid(ls: Lists)
    requires ls.Valid()
    ensures AllValid(ls.host)
  {
    forall b | b in ls.host ensures b.Valid() {
      assert b in multiset(ls.host);
      assert b in ls.guest;
    }
  }

  lemma {:induction false} AboveTransitive(side: Side, x: Binding, y: Binding, z: Binding)
    requires x.Valid() && y.Valid() && z.Valid()
    requires IsAbove(side, x, y) && Within(y.PathOn(side), z.PathOn(side))
    ensures IsAbove(side, x, z)
  {
    WithinTransitive(x.PathOn(side), y.PathOn(side), z.PathOn(side));
    if x.PathOn(side) == z.PathOn(side) {
      WithinAntisymmetric(x.PathOn(side), y.PathOn(side));
    }
  }

  // ---------------------------------------------------------------------
  // Insertion and removal, as functions of the lists
  // ---------------------------------------------------------------------

  /** One past the last binding that `b` contains (or equals), 0 if there is none. */
  function Place(l: seq<Binding>, side: Side, b: Binding): (k: nat)
    ensures k <= |l|
  {
    PlaceOf(l, b, Contains(side))
  }

  /** The index of the binding at guest path `p`, or the length of the list. */
  function IndexOfGuest(l: seq<Binding>, p: string): (k: nat)
    ensures k <= |l|
    ensures forall i :: 0 <= i < k ==> l[i].guest != p
    ensures k < |l| ==> l[k].guest == p
  {
    if l == [] then 0 else if l[0].guest == p then 0 else 1 + IndexOfGuest(l[1..], p)
  }

  /** remove_binding_from_all_lists() */
  function Removed(ls: Lists, b: Binding): Lists {
    Lists(Without(ls.guest, b), Without(ls.host, b))
  }

  function InsortedHost(l: seq<Binding>, b: Binding): seq<Binding> {
    InsertAt(l, Place(l, Host, b), b)
  }

  /** insort_binding2(): the guest list first, where a binding at the same guest
      path is replaced and dropped from both lists, then the host list. */
  function Insorted(ls: Lists, b: Binding): Lists {
    var k := IndexOfGuest(ls.guest, b.guest);
    if k < |ls.guest| then
      Lists(ls.guest[k := b], InsortedHost(Without(ls.host, ls.guest[k]), b))
    else
      Lists(InsertAt(ls.guest, Place(ls.guest, Guest, b), b), InsortedHost(ls.host, b))
  }

  lemma {:induction false} WithoutAllValid(l: seq<Binding>, x: Binding)
    requires AllValid(l)
    ensures AllValid(Without(l, x))
  {
    forall b | b in Without(l, x) ensures b.Valid() {
      assert b in l;
    }
  }

  /** Removal keeps every invariant. */
  lemma {:induction false} RemovedValid(ls: Lists, b: Binding)
    requires ls.Valid()
    ensures Removed(ls, b).Valid()
  {
    WithoutOrdered(ls.guest, b, Above(Guest));
    WithoutOrdered(ls.guest, b, SameGuest());
    WithoutOrdered(ls.host, b, Above(Host));
    WithoutMultiset(ls.guest, b);
    WithoutMultiset(ls.host, b);
  }

  /** Inserting right after the last contained binding keeps nested bindings first. */
  lemma {:induction false} PlaceOrdered(l: seq<Binding>, side: Side, b: Binding)
    requires AllValid(l) && b.Valid() && Ordered(l, Above(side))
    ensures Ordered(InsertAt(l, Place(l, side, b), b), Above(side))
  {
    forall y, z | y in l && z in l && Above(side)(y, b) && Contains(side)(b, z)
      ensures Above(side)(y, z)
    {
      AboveTransitive(side, y, b, z);
    }
    PlacedOrdered(l, b, Contains(side), Above(side));
  }

  /** Replacing a binding by one at the same guest path keeps the order. */
  lemma {:induction false} ReplacedOrdered(l: seq<Binding>, k: nat, b: Binding)
    requires Ordered(l, Above(Guest)) && Ordered(l, SameGuest())
    requires k < |l| && l[k].guest == b.guest
    ensures Ordered(l[k := b], Above(Guest)) && Ordered(l[k := b], SameGuest())
  {
    var r := l[k := b];
    assert forall i :: 0 <= i < |l| ==> r[i].guest == l[i].guest;
    forall i, j | 0 <= i < j < |r| ensures !Above(Guest)(r[i], r[j]) && !SameGuest()(r[i], r[j]) {
      assert !Above(Guest)(l[i], l[j]) && !SameGuest()(l[i], l[j]);
    }
  }

  lemma {:induction false} InsortedHostValid(l: seq<Binding>, b: Binding)
    requires AllValid(l) && b.Valid() && Ordered(l, Above(Host))
    ensures Ordered(InsortedHost(l, b), Above(Host))
    ensures multiset(InsortedHost(l, b)) == multiset(l) + multiset{b}
  {
    PlaceOrdered(l, Host, b);
    InsertAtMultiset(l, Place(l, Host, b), b);
  }

  lemma {:induction false} AllValidInsert(l: seq<Binding>, r: seq<Binding>, x: multiset<Binding>, b: Binding)
    requires AllValid(l) && b.Valid() && multiset(r) == multiset(l) - x + multiset{b}
    ensures AllValid(r)
  {
    forall y | y in r ensures y.Valid() {
      assert y in multiset(r);
      assert y == b || y in multiset(l);
    }
  }

  lemma {:induction false} ReplacedValid(ls: Lists, b: Binding)
    requires ls.Valid() && b.Valid() && IndexOfGuest(ls.guest, b.guest) < |ls.guest|
    ensures Insorted(ls, b).Valid()
  {
    HostValid(ls);
    var k := IndexOfGuest(ls.guest, b.guest);
    var x := ls.guest[k];
    ReplacedOrdered(ls.guest, k, b);
    ReplaceMultiset(ls.guest, k, b);
    AllValidInsert(ls.guest, ls.guest[k := b], multiset{x}, b);
    WithoutOrdered(ls.host, x, Above(Host));
    WithoutMultiset(ls.host, x);
    InsortedHostValid(Without(ls.host, x), b);
  }

  lemma {:induction false} AddedValid(ls: Lists, b: Binding)
    requires ls.Valid() && b.Valid() && IndexOfGuest(ls.guest, b.guest) == |ls.guest|
    ensures Insorted(ls, b).Valid()
  {
    HostValid(ls);
    var p := Place(ls.guest, Guest, b);
    var r := InsertAt(ls.guest, p, b);
    PlaceOrdered(ls.guest, Guest, b);
    InsertAtMultiset(ls.guest, p, b);
    AllValidInsert(ls.guest, r, multiset{}, b);
    InsertAtOrdered(ls.guest, p, b, SameGuest());
    InsortedHostValid(ls.host, b);
  }

  /** Insertion keeps every invariant, whatever was bound before. */
  lemma {:induction false} InsortedValid(ls: Lists, b: Binding)
    requires ls.Valid() && b.Valid()
    ensures Insorted(ls, b).Valid()
  {
    if IndexOfGuest(ls.guest, b.guest) < |ls.guest| {
      ReplacedValid(ls, b);
    } else {
      AddedValid(ls, b);
    }
  }

  /** What is listed after an insertion: `b`, and whatever is at another guest path. */
  lemma {:induction false} InsortedMembers(ls: Lists, b: Binding, x: Binding)
    requires ls.Valid()
    ensures x in Insorted(ls, b).guest <==> x == b || (x in ls.guest && x.guest != b.guest)
  {
    var l := ls.guest;
    var k := IndexOfGuest(l, b.guest);
    if k < |l| {
      ReplacedMembers(l, k, b, x);
    } else {
      InsertedMembers(l, Place(l, Guest, b), b, x);
      if x in l {
        var i :| 0 <= i < |l| && l[i] == x;
      }
    }
  }

  lemma {:induction false} ReplacedMembers(l: seq<Binding>, k: nat, b: Binding, x: Binding)
    requires Ordered(l, SameGuest()) && k < |l| && l[k].guest == b.guest
    ensures x in l[k := b] <==> x == b || (x in l && x.guest != b.guest)
  {
    var r := l[k := b];
    assert r[k] == b;
    if x in l && x.guest != b.guest {
      var i :| 0 <= i < |l| && l[i] == x;
      assert r[i] == x;
    }
    if x in r && x != b {
      var i :| 0 <= i < |r| && r[i] == x;
      assert l[i] == x && !SameGuest()(l[if i < k then i else k], l[if i < k then k else i]);
    }
  }

  /** What is listed after a removal: everything but `b`. */
  lemma {:induction false} RemovedMembers(ls: Lists, b: Binding, x: Binding)
    requires ls.Valid()
    ensures x in Removed(ls, b).guest <==> x in ls.guest && x != b
  {
    var l := ls.guest;
    forall i, j | 0 <= i < j < |l| ensures l[i] != l[j] {
      assert !SameGuest()(l[i], l[j]);
    }
    WithoutMembers(l, b, x);
  }

  // ---------------------------------------------------------------------
  // Every history of insertions and removals
  // ---------------------------------------------------------------------

  datatype Edit = Insert(b: Binding) | Remove(b: Binding)

  function Edited(ls: Lists, es: seq<Edit>): Lists
    decreases |es|
  {
    if es == [] then ls
    else
      var e := es[|es| - 1];
      var before := Edited(ls, es[..|es| - 1]);
      match e
      case Insert(b) => Insorted(before, b)
      case Remove(b) => Removed(before, b)
  }

  /** From valid lists, for instance empty ones, no history breaks the order,
      the uniqueness of guest paths or the agreement of the two lists. */
  lemma {:induction false} EditedValid(ls: Lists, es: seq<Edit>)
    requires ls.Valid() && forall i :: 0 <= i < |es| && es[i].Insert? ==> es[i].b.Valid()
    ensures Edited(ls, es).Valid()
    decreases |es|
  {
    if es != [] {
      var before := es[..|es| - 1];
      assert forall i :: 0 <= i < |before| ==> before[i] == es[i];
      EditedValid(ls, before);
      match es[|es| - 1]
      case Insert(b) => InsortedValid(Edited(ls, before), b);
      case Remove(b) => RemovedValid(Edited(ls, before), b);
    }
  }

  // ---------------------------------------------------------------------
  // Look-up
  // ---------------------------------------------------------------------

  /** `x` is bound at or above the path `p`. */
  function Covers(side: Side, p: string): Binding -> bool {
    (x: Binding) => Within(x.PathOn(side), p)
  }

  function FirstMatch(l: seq<Binding>, side: Side, p: string): Option<Binding> {
    var k := FirstIndex(l, Covers(side, p));
    if k < |l| then Some(l[k]) else None
  }

  function OnSide(ls: Lists, side: Side): seq<Binding> {
    if side == Guest then ls.guest else ls.host
  }

  /** Of two bindings above `p`, the earlier one is the deeper. */
  lemma {:induction false} EarlierIsDeeper(l: seq<Binding>, side: Side, p: string, k: nat, j: nat)
    requires Ordered(l, Above(side)) && k <= j < |l|
    requires Within(l[k].PathOn(side), p) && Within(l[j].PathOn(side), p)
    ensures Within(l[j].PathOn(side), l[k].PathOn(side))
  {
    WithinLinear(l[k].PathOn(side), l[j].PathOn(side), p);
    if k < j {
      assert !Above(side)(l[k], l[j]);
    }
  }

  lemma {:induction false} DistinctPaths(l: seq<Binding>, k: nat, j: nat)
    requires Ordered(l, SameGuest()) && k <= j < |l|
    ensures l[k].guest == l[j].guest ==> l[k] == l[j]
  {
    if k < j {
      assert !SameGuest()(l[k], l[j]);
    }
  }

  /** The first match is the deepest: any other binding above `p` is above it too. */
  lemma {:induction false} FirstMatchIsDeepest(ls: Lists, side: Side, p: string, b: Binding)
    requires ls.Valid() && b in OnSide(ls, side) && Within(b.PathOn(side), p)
    ensures FirstMatch(OnSide(ls, side), side, p).Some?
    ensures var m := FirstMatch(OnSide(ls, side), side, p).value;
            && m in OnSide(ls, side)
            && Within(m.PathOn(side), p)
            && Within(b.PathOn(side), m.PathOn(side))
            && (side == Guest && b.guest == m.guest ==> b == m)
  {
    var l := OnSide(ls, side);
    var k := FirstIndex(l, Covers(side, p));
    var j :| 0 <= j < |l| && l[j] == b;
    assert Covers(side, p)(l[j]);
    EarlierIsDeeper(l, side, p, k, j);
    if side == Guest {
      DistinctPaths(l, k, j);
    }
  }

  lemma {:induction false} FirstMatchSound(l: seq<Binding>, side: Side, p: string)
    ensures var m := FirstMatch(l, side, p);
            && (m.Some? ==> m.value in l && Within(m.value.PathOn(side), p))
            && (m.None? ==> forall b :: b in l ==> !Within(b.PathOn(side), p))
  {
    var k := FirstIndex(l, Covers(side, p));
    assert forall i :: 0 <= i < k ==> !Covers(side, p)(l[i]);
  }

  ghost predicate HasRoot(ls: Lists) {
    exists b :: b in ls.guest && b.guest == "/"
  }

  lemma {:induction false} WithinRoot(p: string)
    requires Plain(p)
    ensures Within("/", p)
  {
    assert Trim("/") == "";
  }

  /** The root binding is the last of the guest list. */
  lemma {:induction false} RootIsLast(ls: Lists)
    requires ls.Valid() && HasRoot(ls)
    ensures |ls.guest| > 0 && ls.guest[|ls.guest| - 1].guest == "/"
  {
    var r :| r in ls.guest && r.guest == "/";
    var k :| 0 <= k < |ls.guest| && ls.guest[k] == r;
    var j := |ls.guest| - 1;
    forall i | 0 <= i < j ensures ls.guest[i].guest != "/" {
      assert !Above(Guest)(ls.guest[i], ls.guest[j]) && !SameGuest()(ls.guest[i], ls.guest[j]);
      assert ls.guest[j].Valid();
      WithinRoot(ls.guest[j].guest);
    }
  }

  /** get_root(): the host path of the root. */
  function Root(ls: Lists): string
    requires ls.guest != []
  {
    ls.guest[|ls.guest| - 1].host
  }

  /** get_binding(): on the host side a path that belongs to a root file-system
      other than "/" has no binding. */
  function Get(ls: Lists, side: Side, p: string): Option<Binding>
    requires side == Host ==> ls.guest != []
  {
    var m := FirstMatch(OnSide(ls, side), side, p);
    if side == Host && m.Some? && Root(ls) != "/" && Within(Root(ls), p) then None else m
  }

  // ---------------------------------------------------------------------
  // The lists, updated in place
  // ---------------------------------------------------------------------

  method CompareBindings(side: Side, b: Binding, x: Binding) returns (c: Comparison)
    requires b.Valid() && x.Valid()
    ensures c == Equal <==> b.PathOn(side) == x.PathOn(side)
    ensures c == Equal || c == Path1IsPrefix <==> Contains(side)(b, x)
  {
    SpelledIs(b, side);
    SpelledIs(x, side);
    CompareRooted(b.SpelledOn(side), x.SpelledOn(side));
    ComparePlain(b.PathOn(side), x.PathOn(side));
    c := ComparePaths(b.SpelledOn(side), x.SpelledOn(side));
  }

  method IsCovering(side: Side, b: Binding, path: string) returns (r: bool)
    requires b.Valid() && Plain(path)
    ensures r == Covers(side, path)(b)
  {
    SpelledIs(b, side);
    CompareRooted(b.SpelledOn(side), path);
    ComparePlain(b.PathOn(side), path);
    var comparison := ComparePaths(b.SpelledOn(side), path);
    r := comparison == Equal || comparison == Path1IsPrefix;
  }

  /** The guard of get_binding(): belongs_to_guestfs() for a root other than "/". */
  method BelongsToRoot(root: Binding, path: string) returns (r: bool)
    requires root.Valid() && Plain(path)
    ensures r == (root.host != "/" && Within(root.host, path))
  {
    ComparePlain(root.host, "/");
    ComparePlain(root.host, path);
    var comparison := ComparePaths(root.host, path);
    r := ComparePaths(root.host, "/") != Equal && (comparison == Equal || comparison == Path1IsPrefix);
  }

  lemma {:induction false} IndexOfGuestIs(l: seq<Binding>, p: string, k: nat)
    requires k <= |l| && (forall i :: 0 <= i < k ==> l[i].guest != p) && (k < |l| ==> l[k].guest == p)
    ensures IndexOfGuest(l, p) == k
  {
  }

  lemma {:induction false} PlaceIs(l: seq<Binding>, side: Side, b: Binding, k: nat)
    requires k <= |l| && (k > 0 ==> Contains(side)(b, l[k - 1]))
    requires forall j :: k <= j < |l| ==> !Contains(side)(b, l[j])
    ensures Place(l, side, b) == k
  {
    PlaceOfIs(l, b, Contains(side), k);
  }

  /** Of the first `i` bindings, the last one within `b` is before `k`. */
  ghost predicate Scanned(l: seq<Binding>, side: Side, b: Binding, i: nat, k: nat) {
    && k <= i <= |l|
    && (k > 0 ==> Contains(side)(b, l[k - 1]))
    && forall j :: k <= j < i ==> !Contains(side)(b, l[j])
  }

  ghost predicate NotBound(l: seq<Binding>, g: string, i: nat)
    requires i <= |l|
  {
    forall j :: 0 <= j < i ==> l[j].guest != g
  }

  lemma {:induction false} ScannedStep(l: seq<Binding>, side: Side, b: Binding, i: nat, k: nat)
    requires Scanned(l, side, b, i, k) && i < |l|
    ensures Scanned(l, side, b, i + 1, if Contains(side)(b, l[i]) then i + 1 else k)
  {
  }

  /** One step of the scan. */
  method ScanOne(l: seq<Binding>, side: Side, b: Binding, i: nat, k: nat) returns (equal: bool, k': nat)
    requires b.Valid() && AllValid(l) && i < |l| && Scanned(l, side, b, i, k)
    ensures equal <==> side == Guest && l[i].guest == b.guest
    ensures Scanned(l, side, b, i + 1, k')
  {
    ScannedStep(l, side, b, i, k);
    var comparison := CompareBindings(side, b, l[i]);
    equal := comparison == Equal && side == Guest;
    k' := if comparison == Equal || comparison == Path1IsPrefix then i + 1 else k;
  }

  /** The scan of insort_binding(): a binding at the same guest path, else one
      past the last binding that `b` contains. */
  method FindPlace(l: seq<Binding>, side: Side, b: Binding) returns (equal: bool, k: nat)
    requires b.Valid() && AllValid(l)
    ensures equal <==> side == Guest && IndexOfGuest(l, b.guest) < |l|
    ensures k == if equal then IndexOfGuest(l, b.guest) else Place(l, side, b)
  {
    equal, k := false, 0;
    var i := 0;
    while i < |l|
      invariant 0 <= i <= |l|
      invariant Scanned(l, side, b, i, k)
      invariant side == Guest ==> NotBound(l, b.guest, i)
    {
      equal, k := ScanOne(l, side, b, i, k);
      if equal {
        IndexOfGuestIs(l, b.guest, i);
        return true, i;
      }
      i := i + 1;
    }
    PlaceIs(l, side, b, k);
    if side == Guest {
      IndexOfGuestIs(l, b.guest, |l|);
    }
    equal := false;
  }

  lemma {:induction false} FirstMatchIs(l: seq<Binding>, side: Side, p: string, k: nat)
    requires k <= |l| && (forall i :: 0 <= i < k ==> !Covers(side, p)(l[i])) && (k < |l| ==> Covers(side, p)(l[k]))
    ensures FirstMatch(l, side, p) == if k < |l| then Some(l[k]) else None
  {
  }

  method FirstCovering(l: seq<Binding>, side: Side, path: string) returns (r: Option<Binding>)
    requires AllValid(l) && Plain(path)
    ensures r == FirstMatch(l, side, path)
  {
    var i := 0;
    while i < |l|
      invariant 0 <= i <= |l|
      invariant forall j :: 0 <= j < i ==> !Covers(side, path)(l[j])
    {
      var covers := IsCovering(side, l[i], path);
      if covers {
        FirstMatchIs(l, side, path, i);
        return Some(l[i]);
      }
      i := i + 1;
    }
    FirstMatchIs(l, side, path, |l|);
    return None;
  }

  class NameSpace {
    var guest: seq<Binding>
    var host: seq<Binding>

    ghost function Contents(): Lists
      reads this
    {
      Lists(guest, host)
    }

    constructor ()
      ensures Contents() == Lists([], []) && Contents().Valid()
    {
      guest, host := [], [];
    }

    /** remove_binding_from_all_lists() */
    method RemoveFromAllLists(b: Binding)
      requires Contents().Valid()
      modifies this
      ensures Contents() == Removed(old(Contents()), b) && Contents().Valid()
    {
      RemovedValid(Contents(), b);
      guest := Without(guest, b);
      host := Without(host, b);
    }

    /** insort_binding2() */
    method Insort(b: Binding)
      requires Contents().Valid() && b.Valid()
      modifies this
      ensures Contents() == Insorted(old(Contents()), b) && Contents().Valid()
    {
      InsortedValid(Contents(), b);
      HostValid(Contents());
      var equal, k := FindPlace(guest, Guest, b);
      if equal {
        var replaced := guest[k];
        WithoutAllValid(host, replaced);
        guest := guest[k := b];
        host := Without(host, replaced);
      } else {
        guest := InsertAt(guest, k, b);
      }
      var _, h := FindPlace(host, Host, b);
      host := InsertAt(host, h, b);
    }

    /** get_binding() */
    method GetBinding(side: Side, path: string) returns (r: Option<Binding>)
      requires Contents().Valid() && Plain(path)
      requires side == Host ==> guest != []
      ensures r == Get(Contents(), side, path)
    {
      var l := if side == Guest then guest else host;
      HostValid(Contents());
      r := FirstCovering(l, side, path);
      if r.Some? && side == Host {
        var skip := BelongsToRoot(guest[|guest| - 1], path);
        if skip {
          return None;
        }
      }
    }
  }
}
