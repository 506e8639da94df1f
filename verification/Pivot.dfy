/**
mount(2), umount(2) and pivot_root(2), emulated on the bindings.
 */
module Pivot {
  import opened Common
  import opened Paths
  import opened Sequences
  import opened Bindings
  import opened Translation
  import Canon
  import CanonIdeal

  // ---------------------------------------------------------------------
  // Where the old root goes
  // ---------------------------------------------------------------------

  /** put_old as a path under the new root, if there is one: both are canonicalized
      guest paths, put_old still with the "/" or "/." of its last component. */
  function PutOldAfter(newRoot: string, putOld: string): Option<string>
    requires newRoot != "" && putOld != ""
  {
    if newRoot <= putOld && ((|newRoot| < |putOld| && putOld[|newRoot|] == '/') || newRoot == "/") then
      var after := if |newRoot| == 1 then putOld else putOld[|newRoot|..];
      if |after| > 1 && after[0] == '/' then Some(after) else None
    else None
  }

  /** The old root is exposed exactly when put_old lies strictly within the new
      root, at the path that leads there, with the ending that put_old has. */
  lemma {:induction false} PutOldAfterIff(newRoot: string, putOld: string)
    requires Plain(newRoot) && Rooted(putOld)
    ensures PutOldAfter(newRoot, putOld).Some? <==> Within(newRoot, putOld) && newRoot != Bare(putOld)
    ensures PutOldAfter(newRoot, putOld).Some? ==>
              && Rooted(PutOldAfter(newRoot, putOld).value) && PutOldAfter(newRoot, putOld).value != "/"
              && Trim(newRoot) + PutOldAfter(newRoot, putOld).value == putOld
  {
    BareIs(putOld);
    var r := PutOldAfter(newRoot, putOld);
    if r.Some? {
      PutOldRest(newRoot, putOld, r.value);
    } else if Within(newRoot, putOld) && newRoot != Bare(putOld) {
      assert Trim(newRoot) == newRoot || newRoot == "/";
      TrimInjective(newRoot, Bare(putOld));
    }
  }

  lemma {:induction false} PutOldRest(newRoot: string, putOld: string, rest: string)
    requires Plain(newRoot) && Rooted(putOld) && PutOldAfter(newRoot, putOld) == Some(rest)
    ensures Rooted(rest) && rest != "/" && Trim(newRoot) + rest == putOld
    ensures Within(newRoot, putOld) && newRoot != Bare(putOld)
  {
    BareIs(putOld);
    var k := |Trim(newRoot)|;
    assert rest == putOld[k..] && putOld[..k] == Trim(newRoot);
    EndOfRooted(putOld, k);
  }

  /** What follows a slash in a path, up to its end. */
  lemma {:induction false} EndOfRooted(p: string, k: nat)
    requires Rooted(p) && k + 1 < |p| && p[k] == '/'
    ensures Rooted(p[k..]) && Slashed(p[k..]) == Slashed(p)
  {
    BareIs(p);
    var rest := p[k..];
    assert rest[|rest| - 1] == p[|p| - 1] && rest[|rest| - 2] == p[|p| - 2];
    assert forall c :: c in Bare(rest) ==> c in p;
  }

  // ---------------------------------------------------------------------
  // What a pivot leaves bound
  // ---------------------------------------------------------------------

  /** What is inserted at a guest path: a host path, and whether the guest path is
      spelled with a slash at its end. */
  datatype Entry = Entry(host: string, slash: bool)

  /** The new root as a guest path and on the host, the old root on the host, and
      where the old root goes. */
  datatype Plan = Plan(newRoot: string, host: string, oldHost: string, putOld: Option<string>) {
    predicate Valid() {
      Plain(newRoot) && Plain(host) && Plain(oldHost) && (putOld.Some? ==> Rooted(putOld.value) && putOld.value != "/")
    }

    /** The guest path that `putOld` spells. */
    function OldPlace(): string
      requires putOld.Some?
    {
      Bare(putOld.value)
    }

    /** `g` lies under the new root and moves with it. */
    predicate Rebases(g: string) {
      |newRoot| < |g| && newRoot <= g && g[|newRoot|] == '/'
    }

    /** `g` belongs to the old root and is shown again below put_old. */
    predicate Aliases(g: string) {
      && putOld.Some? && g != "/" && !Rebases(g)
      && !Extends(putOld.value, g) && |putOld.value| + |g| < PATH_MAX
    }

    predicate UnderPutOld(g: string) {
      putOld.Some? && Within(OldPlace(), g)
    }

    /** Where a binding at `g` is inserted by the pivot. */
    function Target(g: string): Option<string> {
      if g == "/" then None
      else if Rebases(g) then Some(g[|newRoot|..])
      else if Aliases(g) then Some(putOld.value + g)
      else None
    }

    /** What the pivot inserts at `g` before it looks at the other bindings. */
    function AtFirst(g: string): Option<Entry> {
      if putOld.Some? && OldPlace() == g then Some(Entry(oldHost, Slashed(putOld.value)))
      else if g == "/" then Some(Entry(host, false))
      else None
    }

    /** What is inserted last at `g`, when the first `i` bindings were handled. */
    function Written(snap: seq<Binding>, i: nat, g: string): Option<Entry>
      requires i <= |snap|
    {
      if i == 0 then AtFirst(g)
      else if Target(snap[i - 1].guest) == Some(g) then Some(Entry(snap[i - 1].host, false))
      else Written(snap, i - 1, g)
    }

    /** A binding still listed as it was: not the root, not replaced, not moved. */
    ghost predicate Stays(snap: seq<Binding>, i: nat, s: Binding)
      requires i <= |snap|
    {
      s.guest != "/" && Written(snap, i, s.guest).None? && (Rebases(s.guest) ==> s in snap[i..])
    }

    /** A binding was there and stays, or was inserted last at its path. */
    ghost predicate Accounts(snap: seq<Binding>, i: nat, b: Binding)
      requires i <= |snap|
    {
      if b in snap then Stays(snap, i, b)
      else Written(snap, i, b.guest) == Some(Entry(b.host, b.slash)) && b.mode == ReadWrite
    }

    ghost predicate Shows(snap: seq<Binding>, i: nat, l: seq<Binding>, g: string)
      requires i <= |snap|
    {
      Written(snap, i, g).Some? ==> Inserted(snap, l, g)
    }

    ghost predicate Keeps(snap: seq<Binding>, i: nat, l: seq<Binding>, s: Binding)
      requires i <= |snap|
    {
      Stays(snap, i, s) ==> s in l
    }

    /** Exactly the last insertion at each path is listed, and what stays. */
    ghost predicate Done(snap: seq<Binding>, i: nat, l: seq<Binding>)
      requires i <= |snap|
    {
      && (forall b :: b in l ==> Accounts(snap, i, b))
      && (forall g :: Shows(snap, i, l, g))
      && (forall s :: s in snap ==> Keeps(snap, i, l, s))
    }
  }

  ghost predicate Inserted(snap: seq<Binding>, l: seq<Binding>, g: string) {
    exists b :: b in l && b !in snap && b.guest == g
  }

  ghost predicate Taken(l: seq<Binding>, g: string) {
    exists b :: b in l && b.guest == g
  }

  /** The name-space after the pivot, exactly. */
  ghost predicate Pivoted(plan: Plan, before: Lists, after: Lists) {
    after.Valid() && plan.Done(before.guest, |before.guest|, after.guest)
  }

  /** Guest paths without an empty component at either end. */
  ghost predicate SingleSlash(l: seq<Binding>) {
    forall b :: b in l ==> !b.slash && (|b.guest| > 1 ==> b.guest[1] != '/')
  }

  /** The host path that a guest path stands for. */
  function Resolved(ls: Lists, p: string): Option<string>
    requires ls.Valid() && Plain(p) && ls.guest != []
  {
    GetSound(ls, Guest, p);
    match Get(ls, Guest, p)
    case None => None
    case Some(b) => Some(Graft(b.host, b.guest, p))
  }

  // ---------------------------------------------------------------------
  // Who writes where
  // ---------------------------------------------------------------------

  lemma {:induction false} PathLength(p: string)
    requires Plain(p)
    ensures p == "/" ==> Trim(p) == ""
    ensures p != "/" ==> Trim(p) == p && |p| > 1
  {
  }

  /** With new root "/" nothing moves. */
  lemma {:induction false} NoRebaseAtRoot(plan: Plan, l: seq<Binding>, s: Binding)
    requires SingleSlash(l) && s in l && plan.newRoot == "/"
    ensures !plan.Rebases(s.guest)
  {
  }

  lemma {:induction false} AliasPlain(p: string, g: string)
    requires Rooted(p) && Plain(g) && p != "/" && g != "/"
    ensures Plain(p + g) && Within(Bare(p), p + g) && p + g != "/"
  {
    BareIs(p);
    PathLength(Bare(p));
    PathLength(g);
    assert forall c :: c in p + g ==> c in p || c in g;
  }

  /** A moved path is plain again, and not the root. */
  lemma {:induction false} MovedPlain(plan: Plan, l: seq<Binding>, s: Binding)
    requires plan.Valid() && s in l && s.Valid() && SingleSlash(l) && plan.Rebases(s.guest)
    ensures plan.newRoot != "/" && Plain(s.guest[|plan.newRoot|..]) && s.guest[|plan.newRoot|..] != "/"
    ensures s.guest == plan.newRoot + s.guest[|plan.newRoot|..]
  {
    if plan.newRoot == "/" {
      NoRebaseAtRoot(plan, l, s);
    }
    var r := s.guest[|plan.newRoot|..];
    assert r[|r| - 1] == s.guest[|s.guest| - 1];
    assert forall c :: c in r ==> c in s.guest;
  }

  /** The last binding that is inserted at `g` decides. */
  lemma {:induction false} LastWriter(plan: Plan, snap: seq<Binding>, k: nat, i: nat, g: string)
    requires k < i <= |snap| && plan.Target(snap[k].guest) == Some(g)
    requires forall j :: k < j < i ==> plan.Target(snap[j].guest) != Some(g)
    ensures plan.Written(snap, i, g) == Some(Entry(snap[k].host, false))
    decreases i
  {
    if k < i - 1 {
      LastWriter(plan, snap, k, i - 1, g);
    }
  }

  /** Without any, what was inserted at first. */
  lemma {:induction false} NoWriter(plan: Plan, snap: seq<Binding>, i: nat, g: string)
    requires i <= |snap| && forall j :: 0 <= j < i ==> plan.Target(snap[j].guest) != Some(g)
    ensures plan.Written(snap, i, g) == plan.AtFirst(g)
  {
    if i > 0 {
      NoWriter(plan, snap, i - 1, g);
    }
  }

  /** Somebody wrote what was written. */
  lemma {:induction false} Writer(plan: Plan, snap: seq<Binding>, i: nat, g: string) returns (k: nat)
    requires i <= |snap| && plan.Written(snap, i, g).Some?
    ensures k <= i
    ensures k == i ==> plan.Written(snap, i, g) == plan.AtFirst(g)
    ensures k < i ==> plan.Target(snap[k].guest) == Some(g)
                      && plan.Written(snap, i, g) == Some(Entry(snap[k].host, false))
  {
    if i == 0 {
      k := 0;
    } else if plan.Target(snap[i - 1].guest) == Some(g) {
      k := i - 1;
    } else {
      k := Writer(plan, snap, i - 1, g);
      if k == i - 1 {
        k := i;
      }
    }
  }

  lemma {:induction false} MovesApart(plan: Plan, a: string, b: string)
    requires plan.Rebases(a) && plan.Rebases(b)
    ensures a[|plan.newRoot|..] == b[|plan.newRoot|..] ==> a == b
  {
    assert a == plan.newRoot + a[|plan.newRoot|..] && b == plan.newRoot + b[|plan.newRoot|..];
  }

  lemma {:induction false} AliasesApart(p: string, a: string, b: string)
    ensures p + a == p + b ==> a == b
  {
    assert a == (p + a)[|p|..] && b == (p + b)[|p|..];
  }

  /** Two bindings are inserted at the same path only if one of them moves there
      and the other one is shown again there. */
  lemma {:induction false} TargetsDiffer(plan: Plan, a: string, b: string)
    requires a != b
    ensures plan.Target(a).Some? && plan.Target(a) == plan.Target(b) ==> plan.Rebases(a) != plan.Rebases(b)
  {
    if plan.Rebases(a) && plan.Rebases(b) {
      MovesApart(plan, a, b);
    } else if plan.Aliases(a) && plan.Aliases(b) {
      AliasesApart(plan.putOld.value, a, b);
    }
  }

  // ---------------------------------------------------------------------
  // What is listed where
  // ---------------------------------------------------------------------

  /** `g` is bound, and to `h`. */
  ghost predicate Binds(l: seq<Binding>, g: string, h: string) {
    Taken(l, g) && forall b :: b in l && b.guest == g ==> b.host == h
  }

  ghost predicate BindsAs(l: seq<Binding>, g: string, e: Entry) {
    Binds(l, g, e.host) && forall b :: b in l && b.guest == g ==> b.slash == e.slash
  }

  ghost predicate Setting(plan: Plan, before: Lists, after: Lists) {
    plan.Valid() && before.Valid() && SingleSlash(before.guest) && Pivoted(plan, before, after)
  }

  lemma {:induction false} WrittenListed(plan: Plan, before: Lists, after: Lists, g: string, e: Entry)
    requires Pivoted(plan, before, after) && plan.Written(before.guest, |before.guest|, g) == Some(e)
    ensures BindsAs(after.guest, g, e)
  {
    assert plan.Shows(before.guest, |before.guest|, after.guest, g);
    forall b | b in after.guest && b.guest == g ensures b.host == e.host && b.slash == e.slash {
      assert plan.Accounts(before.guest, |before.guest|, b);
    }
  }

  /** A binding whose target no later one has is listed there. */
  lemma {:induction false} TargetListed(plan: Plan, before: Lists, after: Lists, k: nat, g: string)
    requires Pivoted(plan, before, after) && k < |before.guest| && plan.Target(before.guest[k].guest) == Some(g)
    requires forall j :: k < j < |before.guest| ==> plan.Target(before.guest[j].guest) != Some(g)
    ensures Binds(after.guest, g, before.guest[k].host)
  {
    LastWriter(plan, before.guest, k, |before.guest|, g);
    WrittenListed(plan, before, after, g, Entry(before.guest[k].host, false));
  }

  lemma {:induction false} NotTheRoot(plan: Plan, snap: seq<Binding>, s: Binding)
    requires plan.Valid() && s in snap && s.Valid() && SingleSlash(snap)
    ensures plan.Target(s.guest) != Some("/")
  {
    if plan.Rebases(s.guest) {
      MovedPlain(plan, snap, s);
    } else if plan.Aliases(s.guest) {
      AliasPlain(plan.putOld.value, s.guest);
    }
  }

  /** After the pivot the root is the new root. */
  lemma {:induction false} NewRootListed(plan: Plan, before: Lists, after: Lists)
    requires Setting(plan, before, after)
    ensures Binds(after.guest, "/", plan.host)
  {
    var snap := before.guest;
    forall j | 0 <= j < |snap| ensures plan.Target(snap[j].guest) != Some("/") {
      assert snap[j].Valid();
      NotTheRoot(plan, snap, snap[j]);
    }
    NoWriter(plan, snap, |snap|, "/");
    WrittenListed(plan, before, after, "/", Entry(plan.host, false));
  }

  /** Only a binding of the new root can take the place of the old root. */
  lemma {:induction false} MovesToPutOld(plan: Plan, g: string)
    requires plan.putOld.Some? && g != ""
    ensures plan.Target(g) == Some(plan.OldPlace())
            <==> g != "/" && plan.Rebases(g) && g == plan.newRoot + plan.OldPlace()
  {
    if plan.Rebases(g) {
      assert g == plan.newRoot + g[|plan.newRoot|..];
    } else if plan.Aliases(g) {
      assert |plan.putOld.value + g| > |plan.OldPlace()|;
    }
    assert (plan.newRoot + plan.OldPlace())[|plan.newRoot|..] == plan.OldPlace();
  }

  /** The old root is listed at put_old, unless a binding of the new root was at
      that place, which is listed there instead. */
  lemma {:induction false} OldRootListed(plan: Plan, before: Lists, after: Lists)
    requires Setting(plan, before, after) && plan.putOld.Some?
    requires !Taken(before.guest, plan.newRoot + plan.OldPlace())
    ensures BindsAs(after.guest, plan.OldPlace(), Entry(plan.oldHost, Slashed(plan.putOld.value)))
  {
    var snap, p := before.guest, plan.OldPlace();
    forall j | 0 <= j < |snap| ensures plan.Target(snap[j].guest) != Some(p) {
      assert snap[j].Valid();
      MovesToPutOld(plan, snap[j].guest);
    }
    NoWriter(plan, snap, |snap|, p);
    WrittenListed(plan, before, after, p, Entry(plan.oldHost, Slashed(plan.putOld.value)));
  }

  lemma {:induction false} OldRootHidden(plan: Plan, before: Lists, after: Lists, k: nat)
    requires Setting(plan, before, after) && plan.putOld.Some?
    requires k < |before.guest| && before.guest[k].guest == plan.newRoot + plan.OldPlace()
    ensures Binds(after.guest, plan.OldPlace(), before.guest[k].host)
  {
    var snap, p := before.guest, plan.OldPlace();
    assert snap[k].Valid();
    MovesToPutOld(plan, snap[k].guest);
    forall j | k < j < |snap| ensures plan.Target(snap[j].guest) != Some(p) {
      assert snap[j].Valid() && !SameGuest()(snap[k], snap[j]);
      MovesToPutOld(plan, snap[j].guest);
    }
    TargetListed(plan, before, after, k, p);
  }

  /** A binding further on in the list. */
  ghost predicate Later(l: seq<Binding>, k: nat, g: string) {
    exists j :: k < j < |l| && l[j].guest == g
  }

  /** What belonged to the old root is listed again below put_old, unless a
      binding of the new root moves to the same path later. */
  lemma {:induction false} AliasListed(plan: Plan, before: Lists, after: Lists, k: nat)
    requires Setting(plan, before, after) && k < |before.guest| && plan.Aliases(before.guest[k].guest)
    requires !Later(before.guest, k, plan.newRoot + plan.putOld.value + before.guest[k].guest)
    ensures Binds(after.guest, plan.putOld.value + before.guest[k].guest, before.guest[k].host)
  {
    var snap, g := before.guest, plan.putOld.value + before.guest[k].guest;
    var n := plan.newRoot;
    assert n + g == n + plan.putOld.value + snap[k].guest;
    forall j | k < j < |snap| ensures plan.Target(snap[j].guest) != Some(g) {
      var a := snap[j].guest;
      assert !SameGuest()(snap[k], snap[j]);
      assert plan.Rebases(a) ==> a == n + a[|n|..];
      TargetsDiffer(plan, a, snap[k].guest);
    }
    TargetListed(plan, before, after, k, g);
  }

  /** What was below the new root is listed at the path that is left, unless a
      binding of the old root is shown again at the same path later. */
  lemma {:induction false} MovedListed(plan: Plan, before: Lists, after: Lists, k: nat, g: string)
    requires Setting(plan, before, after) && k < |before.guest| && before.guest[k].guest == plan.newRoot + g
    requires plan.Rebases(before.guest[k].guest)
    requires forall j :: k < j < |before.guest| && plan.Aliases(before.guest[j].guest) ==>
                           g != plan.putOld.value + before.guest[j].guest
    ensures Binds(after.guest, g, before.guest[k].host)
  {
    var snap := before.guest;
    assert (plan.newRoot + g)[|plan.newRoot|..] == g;
    forall j | k < j < |snap| ensures plan.Target(snap[j].guest) != Some(g) {
      assert !SameGuest()(snap[k], snap[j]);
      TargetsDiffer(plan, snap[j].guest, snap[k].guest);
    }
    TargetListed(plan, before, after, k, g);
  }

  /** A binding that moves with the new root keeps its access mode if and only if it
      was open for reading and writing. */
  lemma {:induction false} ModeKeptIff(plan: Plan, before: Lists, after: Lists, s: Binding, m: Binding)
    requires Setting(plan, before, after) && s in before.guest && plan.Rebases(s.guest)
    requires m in after.guest && m.guest == s.guest[|plan.newRoot|..]
    ensures m !in before.guest
    ensures m.mode == s.mode <==> s.mode == ReadWrite
  {
    var snap := before.guest;
    assert plan.Accounts(snap, |snap|, m);
    assert s.Valid();
    MovedPlain(plan, snap, s);
    var k :| 0 <= k < |snap| && snap[k] == s;
    SomethingWritten(plan, snap, k, |snap|, m.guest);
  }

  /** What is inserted at a path is written there. */
  lemma {:induction false} SomethingWritten(plan: Plan, snap: seq<Binding>, k: nat, i: nat, g: string)
    requires k < i <= |snap| && plan.Target(snap[k].guest) == Some(g)
    ensures plan.Written(snap, i, g).Some?
    decreases i
  {
    if k < i - 1 {
      SomethingWritten(plan, snap, k, i - 1, g);
    }
  }

  /** pivot_root(".", ".") is meant to expose the old root nowhere, but the "."
      survives canonicalization, and the old root is listed at "/.". */
  lemma {:induction false} DotTrickExposesOldRoot(plan: Plan, before: Lists, after: Lists)
    requires Setting(plan, before, after)
    requires plan.putOld == PutOldAfter(plan.newRoot, Trim(plan.newRoot) + "/.")
    requires !Taken(before.guest, plan.newRoot + "/.")
    ensures Binds(after.guest, "/.", plan.oldHost)
  {
    DotLeft(plan.newRoot);
    OldRootListed(plan, before, after);
  }

  lemma {:induction false} DotLeft(newRoot: string)
    requires Plain(newRoot)
    ensures PutOldAfter(newRoot, Trim(newRoot) + "/.") == Some("/.") && Plain("/.")
  {
    assert (Trim(newRoot) + "/.")[|Trim(newRoot)|..] == "/.";
  }

  // ---------------------------------------------------------------------
  // The pivot itself, step by step on the live lists
  // ---------------------------------------------------------------------

  /** The lists with `x` inserted at its path, in place of what was there. */
  ghost predicate Plus(l: seq<Binding>, x: Binding, r: seq<Binding>) {
    && x in r
    && (forall b :: b in r ==> b == x || (b in l && b.guest != x.guest))
    && (forall b :: b in l && b.guest != x.guest ==> b in r)
  }

  ghost predicate Minus(l: seq<Binding>, x: Binding, r: seq<Binding>) {
    && (forall b :: b in r ==> b in l && b != x)
    && (forall b :: b in l && b != x ==> b in r)
  }

  lemma {:induction false} InsortedPlus(ls: Lists, x: Binding)
    requires ls.Valid()
    ensures Plus(ls.guest, x, Insorted(ls, x).guest)
  {
    InsortedMembers(ls, x, x);
    forall b | b in ls.guest && b.guest != x.guest ensures b in Insorted(ls, x).guest {
      InsortedMembers(ls, x, b);
    }
    forall b | b in Insorted(ls, x).guest ensures b == x || (b in ls.guest && b.guest != x.guest) {
      InsortedMembers(ls, x, b);
    }
  }

  lemma {:induction false} RemovedMinus(ls: Lists, x: Binding)
    requires ls.Valid()
    ensures Minus(ls.guest, x, Removed(ls, x).guest)
  {
    forall b | b in ls.guest && b != x ensures b in Removed(ls, x).guest {
      RemovedMembers(ls, x, b);
    }
    forall b | b in Removed(ls, x).guest ensures b in ls.guest && b != x {
      RemovedMembers(ls, x, b);
    }
  }

  lemma {:induction false} TailStep(snap: seq<Binding>, i: nat, b: Binding)
    requires i < |snap| && Ordered(snap, SameGuest())
    ensures b in snap[i + 1..] <==> b in snap[i..] && b != snap[i]
  {
    assert snap[i..] == [snap[i]] + snap[i + 1..];
    if b in snap[i + 1..] {
      var j :| i + 1 <= j < |snap| && snap[j] == b;
      assert !SameGuest()(snap[i], snap[j]);
    }
  }

  lemma {:induction false} WrittenStep(plan: Plan, snap: seq<Binding>, i: nat, g: string)
    requires i < |snap|
    ensures plan.Written(snap, i + 1, g)
            == if plan.Target(snap[i].guest) == Some(g) then Some(Entry(snap[i].host, false))
               else plan.Written(snap, i, g)
  {
  }

  lemma {:induction false} StaysStep(plan: Plan, snap: seq<Binding>, i: nat, s: Binding)
    requires i < |snap| && Ordered(snap, SameGuest())
    ensures plan.Stays(snap, i + 1, s)
            <==> && plan.Stays(snap, i, s) && plan.Target(snap[i].guest) != Some(s.guest)
                 && !(plan.Rebases(s.guest) && s == snap[i])
  {
    WrittenStep(plan, snap, i, s.guest);
    TailStep(snap, i, s);
  }

  /** A binding as insort_binding3() makes it of a host path. */
  predicate IsInserted(x: Binding, host: string) {
    x.host == host && !x.slash && x.mode == ReadWrite
  }

  /** A binding without target is passed over. */
  lemma {:induction false} StepSkipped(plan: Plan, snap: seq<Binding>, i: nat, l: seq<Binding>)
    requires i < |snap| && plan.Done(snap, i, l) && Ordered(snap, SameGuest())
    requires plan.Target(snap[i].guest).None? && !plan.Rebases(snap[i].guest)
    ensures plan.Done(snap, i + 1, l)
  {
    forall b | b in l ensures plan.Accounts(snap, i + 1, b) {
      assert b in l ==> plan.Accounts(snap, i, b);
      StaysStep(plan, snap, i, b);
      WrittenStep(plan, snap, i, b.guest);
    }
    var next := i + 1;
    forall g ensures plan.Shows(snap, next, l, g) {
      assert plan.Shows(snap, i, l, g);
      WrittenStep(plan, snap, i, g);
    }
    forall s | s in snap ensures plan.Keeps(snap, i + 1, l, s) {
      assert plan.Keeps(snap, i, l, s);
      StaysStep(plan, snap, i, s);
    }
  }

  /** What is inserted last at a path is listed there. */
  lemma {:induction false} StepInserted(plan: Plan, snap: seq<Binding>, i: nat, l: seq<Binding>, x: Binding,
                                        r: seq<Binding>, g: string)
    requires i < |snap| && plan.Done(snap, i, l) && x !in snap && x in r
    requires plan.Target(snap[i].guest) == Some(x.guest) && IsInserted(x, snap[i].host)
    requires forall b :: b in l && b !in snap && b.guest != x.guest ==> b in r
    ensures plan.Shows(snap, i + 1, r, g)
  {
    WrittenStep(plan, snap, i, g);
    assert plan.Shows(snap, i, l, g);
    if g != x.guest && Inserted(snap, l, g) {
      var b :| b in l && b !in snap && b.guest == g;
      assert b in r;
    }
  }

  /** A binding that belonged to the old root is shown again. */
  lemma {:induction false} StepAliased(plan: Plan, snap: seq<Binding>, i: nat, l: seq<Binding>, x: Binding,
                                       r: seq<Binding>)
    requires i < |snap| && plan.Done(snap, i, l) && Ordered(snap, SameGuest())
    requires plan.Target(snap[i].guest) == Some(x.guest) && IsInserted(x, snap[i].host) && x !in snap
    requires !plan.Rebases(snap[i].guest) && Plus(l, x, r)
    ensures plan.Done(snap, i + 1, r)
  {
    forall b | b in r ensures plan.Accounts(snap, i + 1, b) {
      assert b in l ==> plan.Accounts(snap, i, b);
      StaysStep(plan, snap, i, b);
      WrittenStep(plan, snap, i, b.guest);
    }
    var next := i + 1;
    forall g ensures plan.Shows(snap, next, r, g) {
      StepInserted(plan, snap, i, l, x, r, g);
    }
    forall s | s in snap ensures plan.Keeps(snap, i + 1, r, s) {
      assert plan.Keeps(snap, i, l, s);
      StaysStep(plan, snap, i, s);
    }
  }

  /** A binding below the new root moves: inserted anew, then removed. */
  lemma {:induction false} StepMoved(plan: Plan, snap: seq<Binding>, i: nat, l: seq<Binding>, x: Binding,
                                     r: seq<Binding>, r': seq<Binding>)
    requires i < |snap| && plan.Done(snap, i, l) && Ordered(snap, SameGuest())
    requires plan.Target(snap[i].guest) == Some(x.guest) && IsInserted(x, snap[i].host) && x !in snap
    requires plan.Rebases(snap[i].guest) && Plus(l, x, r) && Minus(r, snap[i], r')
    ensures plan.Done(snap, i + 1, r')
  {
    forall b | b in r' ensures plan.Accounts(snap, i + 1, b) {
      assert b in l ==> plan.Accounts(snap, i, b);
      StaysStep(plan, snap, i, b);
      WrittenStep(plan, snap, i, b.guest);
    }
    var next := i + 1;
    forall g ensures plan.Shows(snap, next, r', g) {
      StepInserted(plan, snap, i, l, x, r', g);
    }
    forall s | s in snap ensures plan.Keeps(snap, i + 1, r', s) {
      assert plan.Keeps(snap, i, l, s);
      StaysStep(plan, snap, i, s);
    }
  }

  /** The list right after the root was switched over and the old one exposed. */
  lemma {:induction false} StartsDone(plan: Plan, snap: seq<Binding>, l0: seq<Binding>, x: Binding, l1: seq<Binding>,
                                      y: Binding, l2: seq<Binding>)
    requires plan.putOld.Some? ==> plan.OldPlace() != "/"
    requires x !in snap && x.guest == "/" && IsInserted(x, plan.host)
    requires forall b :: b in l0 <==> b in snap && b.guest != "/"
    requires Plus(l0, x, l1)
    requires plan.putOld.None? ==> l2 == l1
    requires plan.putOld.Some? ==>
               && y !in snap && y.guest == plan.OldPlace() && y.host == plan.oldHost
               && y.slash == Slashed(plan.putOld.value) && y.mode == ReadWrite && Plus(l1, y, l2)
    ensures plan.Done(snap, 0, l2)
  {
    assert snap[0..] == snap;
    assert x in l2;
    forall g ensures plan.Shows(snap, 0, l2, g) {
      assert plan.Written(snap, 0, g).Some? ==> g == "/" || (plan.putOld.Some? && g == y.guest);
    }
  }

  method NewBinding(host: string, guest: string, mode: Access) returns (b: Binding)
    requires Plain(host) && Rooted(guest)
    ensures fresh(b) && b.Valid() && b.host == host && b.guest == Bare(guest) && b.slash == Slashed(guest)
    ensures b.mode == mode
  {
    CompareRooted(host, guest);
    ComparePlain(host, Bare(guest));
    b := new Binding(host, guest, mode);
  }

  /** insort_binding3(): a new binding, in place of the one at its path. */
  method InsortNew(ns: NameSpace, host: string, guest: string) returns (b: Binding)
    requires ns.Contents().Valid() && Plain(host) && Rooted(guest)
    modifies ns
    ensures fresh(b) && b.host == host && b.guest == Bare(guest) && b.slash == Slashed(guest) && b.mode == ReadWrite
    ensures ns.Contents().Valid() && Plus(old(ns.guest), b, ns.guest)
  {
    b := NewBinding(host, guest, ReadWrite);
    InsortedPlus(ns.Contents(), b);
    ns.Insort(b);
  }

  /** emulate_pivot_root(), once both paths are canonicalized. */
  method PivotRoot(ns: NameSpace, newRoot: string, putOld: string) returns (plan: Plan)
    requires Ready(ns.Contents()) && SingleSlash(ns.guest)
    requires Plain(newRoot) && Rooted(putOld)
    modifies ns
    ensures old(ns.guest) != []
    ensures plan.newRoot == newRoot && plan.putOld == PutOldAfter(newRoot, putOld)
    ensures Translate(old(ns.Contents()), newRoot) == Ok(plan.host)
    ensures Translatable(old(ns.Contents()), newRoot) ==> Resolved(old(ns.Contents()), newRoot) == Some(plan.host)
    ensures Binds(old(ns.guest), "/", plan.oldHost)
    ensures Setting(plan, old(ns.Contents()), ns.Contents())
  {
    var snapshot := ns.guest;
    PutOldAfterIff(newRoot, putOld);
    plan := SwitchRoot(ns, newRoot, PutOldAfter(newRoot, putOld));
    PivotAll(ns, snapshot, plan);
  }

  /** The guest list as it was before the pivot. */
  type Snapshot = l: seq<Binding> | AllValid(l) && Ordered(l, SameGuest()) && SingleSlash(l) witness []

  type ValidPlan = p: Plan | p.Valid() witness Plan("/", "/", "/", None)

  method PivotAll(ns: NameSpace, snapshot: Snapshot, plan: ValidPlan)
    requires ns.Contents().Valid() && plan.Done(snapshot, 0, ns.guest)
    modifies ns
    ensures ns.Contents().Valid() && plan.Done(snapshot, |snapshot|, ns.guest)
  {
    var i := 0;
    ghost var ls := ns.Contents();
    while i < |snapshot|
      invariant 0 <= i <= |snapshot|
      invariant ls == ns.Contents()
      invariant ls.Valid()
      invariant plan.Done(snapshot, i, ls.guest)
    {
      PivotOne(ns, snapshot, i, plan);
      i := i + 1;
      ls := ns.Contents();
    }
  }

  /** The part before the loop: the root is switched over and the old one exposed. */
  method SwitchRoot(ns: NameSpace, newRoot: string, after: Option<string>) returns (plan: Plan)
    requires Ready(ns.Contents()) && Plain(newRoot)
    requires after.Some? ==> Rooted(after.value) && after.value != "/"
    modifies ns
    ensures old(ns.guest) != []
    ensures plan.newRoot == newRoot && plan.putOld == after && plan.Valid()
    ensures Translate(old(ns.Contents()), newRoot) == Ok(plan.host)
    ensures Translatable(old(ns.Contents()), newRoot) ==> Resolved(old(ns.Contents()), newRoot) == Some(plan.host)
    ensures Binds(old(ns.guest), "/", plan.oldHost)
    ensures ns.Contents().Valid() && plan.Done(old(ns.guest), 0, ns.guest)
  {
    ghost var snap := ns.guest;
    var newRootHost := HostOf(ns, newRoot);
    var root := DropRoot(ns);
    plan := Plan(newRoot, newRootHost, root.host, after);
    ghost var l0 := ns.guest;
    var x := InsortNew(ns, newRootHost, "/");
    ghost var l1 := ns.guest;
    var y := x;
    if after.Some? {
      y := InsortNew(ns, root.host, after.value);
    }
    StartsDone(plan, snap, l0, x, l1, y, ns.guest);
  }

  method DropRoot(ns: NameSpace) returns (root: Binding)
    requires Ready(ns.Contents())
    modifies ns
    ensures Plain(root.host) && Binds(old(ns.guest), "/", root.host) && ns.Contents().Valid()
    ensures forall b :: b in ns.guest <==> b in old(ns.guest) && b.guest != "/"
  {
    root := RootOf(ns);
    assert root.Valid();
    RootGone(ns.Contents(), root);
    ns.RemoveFromAllLists(root);
  }

  /** Without the root binding nothing is bound at the root. */
  lemma {:induction false} RootGone(ls: Lists, root: Binding)
    requires ls.Valid() && root in ls.guest && root.guest == "/"
    ensures Removed(ls, root).Valid()
    ensures forall b :: b in Removed(ls, root).guest <==> b in ls.guest && b.guest != "/"
    ensures Binds(ls.guest, "/", root.host)
  {
    RemovedValid(ls, root);
    RemovedMinus(ls, root);
    forall b | b in ls.guest && b.guest == "/" ensures b == root {
      OneAtPath(ls, b, root);
    }
  }

  lemma {:induction false} OneAtPath(ls: Lists, a: Binding, b: Binding)
    requires ls.Valid() && a in ls.guest && b in ls.guest && a.guest == b.guest
    ensures a == b
  {
    var i :| 0 <= i < |ls.guest| && ls.guest[i] == a;
    var j :| 0 <= j < |ls.guest| && ls.guest[j] == b;
    forall m, n | 0 <= m < n < |ls.guest| ensures ls.guest[m].guest != ls.guest[n].guest {
      assert !SameGuest()(ls.guest[m], ls.guest[n]);
    }
  }

  /** The host path of a canonical guest path, by substitute_binding(). */
  method HostOf(ns: NameSpace, p: string) returns (h: string)
    requires Ready(ns.Contents()) && Plain(p)
    ensures ns.guest != [] && Translate(ns.Contents(), p) == Ok(h) && Plain(h)
    ensures Translatable(ns.Contents(), p) ==> Resolved(ns.Contents(), p) == Some(h)
  {
    ghost var b, t := TranslateIsGraftIff(ns.Contents(), p);
    GetSound(ns.Contents(), Guest, p);
    var found := ns.GetBinding(Guest, p);
    h := Through(found.value, Guest, p);
  }

  method RootOf(ns: NameSpace) returns (root: Binding)
    requires Ready(ns.Contents())
    ensures root in ns.guest && root.guest == "/"
  {
    ghost var r := RootBinding(ns.Contents());
    WithinRoot("/");
    FirstMatchIsDeepest(ns.Contents(), Guest, "/", r);
    var found := ns.GetBinding(Guest, "/");
    root := found.value;
    assert root.Valid();
    WithinRoot(root.guest);
    WithinAntisymmetric(root.guest, "/");
  }

  /** One round of the loop of emulate_pivot_root(). */
  method PivotOne(ns: NameSpace, snapshot: Snapshot, i: nat, plan: ValidPlan)
    requires ns.Contents().Valid() && i < |snapshot| && plan.Done(snapshot, i, ns.guest)
    modifies ns
    ensures ns.Contents().Valid() && plan.Done(snapshot, i + 1, ns.guest)
  {
    var b := snapshot[i];
    assert b.Valid();
    if b.guest == "/" {
      StepSkipped(plan, snapshot, i, ns.guest);
    } else if |b.guest| > |plan.newRoot| && plan.newRoot <= b.guest && b.guest[|plan.newRoot|] == '/' {
      MoveBinding(ns, snapshot, i, plan);
    } else {
      AliasBinding(ns, snapshot, i, plan);
    }
  }

  /** "/newroot/usr" becomes "/usr". */
  method MoveBinding(ns: NameSpace, snapshot: seq<Binding>, i: nat, plan: Plan)
    requires ns.Contents().Valid() && i < |snapshot| && plan.Done(snapshot, i, ns.guest)
    requires snapshot[i].Valid() && Ordered(snapshot, SameGuest()) && SingleSlash(snapshot) && plan.Valid()
    requires plan.Rebases(snapshot[i].guest)
    modifies ns
    ensures ns.Contents().Valid() && plan.Done(snapshot, i + 1, ns.guest)
  {
    var b := snapshot[i];
    MovedPlain(plan, snapshot, b);
    ghost var l := ns.guest;
    var x := InsortNew(ns, b.host, b.guest[|plan.newRoot|..]);
    ghost var r := ns.guest;
    RemovedMinus(ns.Contents(), b);
    ns.RemoveFromAllLists(b);
    StepMoved(plan, snapshot, i, l, x, r, ns.guest);
  }

  /** What belonged to the old root is shown again below put_old. */
  method AliasBinding(ns: NameSpace, snapshot: seq<Binding>, i: nat, plan: Plan)
    requires ns.Contents().Valid() && i < |snapshot| && plan.Done(snapshot, i, ns.guest)
    requires snapshot[i].Valid() && Ordered(snapshot, SameGuest()) && plan.Valid()
    requires snapshot[i].guest != "/" && !plan.Rebases(snapshot[i].guest)
    modifies ns
    ensures ns.Contents().Valid() && plan.Done(snapshot, i + 1, ns.guest)
  {
    var b := snapshot[i];
    if plan.putOld.None? {
      StepSkipped(plan, snapshot, i, ns.guest);
      return;
    }
    var g := plan.putOld.value;
    var under := g <= b.guest && (|b.guest| == |g| || b.guest[|g|] == '/');
    if under || |g| + |b.guest| >= PATH_MAX {
      StepSkipped(plan, snapshot, i, ns.guest);
      return;
    }
    AliasPlain(g, b.guest);
    ghost var l := ns.guest;
    var x := InsortNew(ns, b.host, g + b.guest);
    StepAliased(plan, snapshot, i, l, x, ns.guest);
  }

  lemma {:induction false} RenderTrimmed(base: seq<string>)
    requires AllNames(base)
    ensures Trim(Render(base)) == Spell(base)
  {
    RenderEnd(base);
  }

  /** pivot_root(".", ".") in the directory `newRoot`: the old root is listed at
      "/." unless something is bound there. */
  method PivotToDot(ns: NameSpace, fs: string -> CanonIdeal.Node, newRoot: string, ghost base: seq<string>,
                    ghost room: nat)
    returns (plan: Option<Plan>)
    requires Ready(ns.Contents()) && SingleSlash(ns.guest)
    requires Plain(newRoot) && Canon.RealLinks(fs) && AllNames(base) && newRoot == Render(base)
    modifies ns
    ensures plan.None? ==> ns.Contents() == old(ns.Contents())
    ensures Canon.Ample(fs, base, |newRoot| + 2, 0, room) ==> plan.Some?
    ensures plan.Some? ==> plan.value.newRoot == newRoot && Setting(plan.value, old(ns.Contents()), ns.Contents())
    ensures plan.Some? ==> Binds(old(ns.guest), "/", plan.value.oldHost)
    ensures plan.Some? && !Taken(old(ns.guest), newRoot + "/.") ==> Binds(ns.guest, "/.", plan.value.oldHost)
  {
    RenderTrimmed(base);
    DotLeft(newRoot);
    Canon.DotStays(fs, true, base);
    var putOld; ghost var q;
    putOld, q := Canon.Canonicalize(fs, ".", true, newRoot, 0, base, room);
    if putOld.Err? {
      return None;
    }
    ghost var before := ns.Contents();
    var done := PivotRoot(ns, newRoot, putOld.value);
    if !Taken(before.guest, newRoot + "/.") {
      DotTrickExposesOldRoot(done, before, ns.Contents());
    }
    return Some(done);
  }

  // ---------------------------------------------------------------------
  // mount(2) and umount(2)
  // ---------------------------------------------------------------------

  /** emulate_umount(): drop the binding at exactly this guest path, never the root. */
  function Umounted(ls: Lists, g: string): Lists {
    if g == "/" then ls
    else
      match Get(ls, Guest, g)
      case None => ls
      case Some(b) => if b.SpelledOn(Guest) == g then Removed(ls, b) else ls
  }

  lemma {:induction false} WithoutInserted(l: seq<Binding>, k: nat, b: Binding)
    requires k <= |l| && b !in l
    ensures Without(InsertAt(l, k, b), b) == l
  {
    var r := InsertAt(l, k, b);
    assert r[k] == b;
    forall i | 0 <= i < |r| && i != k ensures r[i] != b {
      assert r[i] == l[if i < k then i else i - 1];
    }
  }

  /** Unmounting leaves the lists as they were if and only if the path is the root, or
      no binding is stored under exactly this path; else that one alone is taken off. */
  lemma {:induction false} UmountedIs(ls: Lists, g: string)
    requires ls.Valid() && Plain(g)
    ensures Umounted(ls, g) == ls <==> g == "/" || forall b :: b in ls.guest ==> b.SpelledOn(Guest) != g
    ensures forall x :: x in ls.guest && (g == "/" || x.SpelledOn(Guest) != g) ==> x in Umounted(ls, g).guest
    ensures forall x :: x in Umounted(ls, g).guest ==> x in ls.guest && (g == "/" || x.SpelledOn(Guest) != g)
  {
    if g != "/" {
      if exists b :: b in ls.guest && b.SpelledOn(Guest) == g {
        var b :| b in ls.guest && b.SpelledOn(Guest) == g;
        UmountedBound(ls, g, b);
      } else {
        UmountedUnbound(ls, g);
      }
    }
  }

  lemma {:induction false} UmountedUnbound(ls: Lists, g: string)
    requires ls.Valid() && Plain(g) && forall b :: b in ls.guest ==> b.SpelledOn(Guest) != g
    ensures Umounted(ls, g) == ls
  {
    FirstMatchSound(ls.guest, Guest, g);
  }

  lemma {:induction false} UmountedBound(ls: Lists, g: string, b: Binding)
    requires ls.Valid() && Plain(g) && g != "/" && b in ls.guest && b.SpelledOn(Guest) == g
    ensures Umounted(ls, g) == Removed(ls, b) && b !in Removed(ls, b).guest
    ensures forall x :: x in ls.guest && x.SpelledOn(Guest) != g ==> x in Removed(ls, b).guest
    ensures forall x :: x in Removed(ls, b).guest ==> x in ls.guest && x.SpelledOn(Guest) != g
  {
    StoredAs(b, g);
    BoundPathFindsItself(ls, b);
    RemovedMinus(ls, b);
    forall x | x in ls.guest && x.SpelledOn(Guest) == g ensures x == b {
      assert x.Valid();
      StoredAs(x, g);
      OneAtPath(ls, x, b);
    }
  }

  lemma {:induction false} StoredAs(b: Binding, g: string)
    requires Plain(g) && g != "/" && b.SpelledOn(Guest) == g
    ensures !b.slash && b.guest == g
  {
  }

  /** A path that is bound finds its own binding first. */
  lemma {:induction false} BoundPathFindsItself(ls: Lists, b: Binding)
    requires ls.Valid() && b in ls.guest
    ensures Get(ls, Guest, b.guest) == Some(b)
  {
    assert b.Valid();
    FirstMatchIsDeepest(ls, Guest, b.guest, b);
    var m := FirstMatch(ls.guest, Guest, b.guest).value;
    assert m.Valid();
    WithinAntisymmetric(m.guest, b.guest);
  }

  /** Unmounting undoes a mount if and only if nothing was bound at the mount
      point, since a binding that the mount hid is not brought back; what is
      spelled with a slash is not found. */
  lemma {:induction false} UmountUndoesMountIff(ls: Lists, b: Binding)
    requires ls.Valid() && b.Valid() && b !in ls.guest && b.guest != "/"
    ensures Umounted(Insorted(ls, b), b.guest) == ls <==> !b.slash && !Taken(ls.guest, b.guest)
  {
    UmountedMounted(ls, b);
    var k := IndexOfGuest(ls.guest, b.guest);
    if b.slash {
      InsortedMembers(ls, b, b);
    } else if k == |ls.guest| {
      RemovedAdded(ls, b);
      assert !Taken(ls.guest, b.guest);
    } else {
      var mounted := Insorted(ls, b);
      var x := ls.guest[k];
      InsortedValid(ls, b);
      RemovedMembers(mounted, b, x);
      InsortedMembers(ls, b, x);
    }
  }

  lemma {:induction false} UmountedMounted(ls: Lists, b: Binding)
    requires ls.Valid() && b.Valid() && b.guest != "/"
    ensures Umounted(Insorted(ls, b), b.guest) == if b.slash then Insorted(ls, b) else Removed(Insorted(ls, b), b)
  {
    InsortedValid(ls, b);
    InsortedMembers(ls, b, b);
    BoundPathFindsItself(Insorted(ls, b), b);
  }

  /** A binding that was added is taken off again. */
  lemma {:induction false} RemovedAdded(ls: Lists, b: Binding)
    requires ls.Valid() && b !in ls.guest && IndexOfGuest(ls.guest, b.guest) == |ls.guest|
    ensures Removed(Insorted(ls, b), b) == ls
  {
    assert b !in ls.host by { assert b !in multiset(ls.host); }
    WithoutInserted(ls.guest, Place(ls.guest, Guest, b), b);
    WithoutInserted(ls.host, Place(ls.host, Host, b), b);
  }

  /** For instance, "/b" mounted on "/mnt" over "/a" and unmounted again leaves
      nothing on "/mnt". */
  lemma {:induction false} HiddenMountIsLost(x: Binding, b: Binding)
    requires x.Valid() && x.host == "/a" && x.guest == "/mnt"
    requires b.Valid() && b.host == "/b" && b.guest == "/mnt" && !b.slash
    ensures var ls := Lists([x], [x]);
            ls.Valid() && Umounted(Insorted(ls, b), "/mnt").guest == []
  {
    var ls := Lists([x], [x]);
    assert ls.Valid();
    var mounted := Insorted(ls, b);
    InsortedValid(ls, b);
    InsortedMembers(ls, b, b);
    BoundPathFindsItself(mounted, b);
  }

  /** MS_REMOUNT, MS_BIND and MS_RDONLY. */
  datatype MountFlags = MountFlags(remount: bool, bind: bool, readOnly: bool)

  /** What is mounted: the source of a bind mount, the directory of the host for a
      kernel file-system, a new directory for a tmpfs, and nothing else. */
  function MountSource(flags: MountFlags, source: Option<string>, fstype: string, tmpdir: Option<string>)
    : Option<string>
  {
    if flags.remount then None
    else if flags.bind then source
    else if fstype == "tmpfs" then tmpdir
    else KernelDirectory(fstype)
  }

  function KernelDirectory(fstype: string): (d: Option<string>)
    ensures d.Some? ==> Plain(d.value)
  {
    if fstype == "proc" then Some("/proc")
    else if fstype == "sysfs" then Some("/sys")
    else if fstype == "devtmpfs" then Some("/dev")
    else if fstype == "devpts" then Some("/dev/pts")
    else None
  }

  /** Which directory each type of file-system shows; a bind mount shows its source
      whatever the type, and a remount nothing. */
  lemma {:induction false} MountShows(source: Option<string>, fstype: string, tmpdir: Option<string>, readOnly: bool)
    ensures var plain := MountFlags(false, false, readOnly);
            && MountSource(plain, source, "proc", tmpdir) == Some("/proc")
            && MountSource(plain, source, "sysfs", tmpdir) == Some("/sys")
            && MountSource(plain, source, "devtmpfs", tmpdir) == Some("/dev")
            && MountSource(plain, source, "devpts", tmpdir) == Some("/dev/pts")
            && MountSource(plain, source, "tmpfs", tmpdir) == tmpdir
            && (fstype !in ["proc", "sysfs", "devtmpfs", "devpts", "tmpfs"] ==>
                  MountSource(plain, source, fstype, tmpdir) == None)
            && MountSource(MountFlags(false, true, readOnly), source, fstype, tmpdir) == source
            && (forall bind :: MountSource(MountFlags(true, bind, readOnly), source, fstype, tmpdir) == None)
  {
  }

  /** emulate_mount(); the source, the new directory and the target are None when they
      can not be resolved or made. */
  method Mount(ns: NameSpace, flags: MountFlags, source: Option<string>, fstype: string, tmpdir: Option<string>,
               target: Option<string>)
    returns (b: Option<Binding>)
    requires ns.Contents().Valid()
    requires (source.Some? ==> Plain(source.value)) && (tmpdir.Some? ==> Plain(tmpdir.value))
    requires target.Some? ==> Plain(target.value)
    modifies ns
    ensures ns.Contents().Valid()
    ensures b.Some? <==> MountSource(flags, source, fstype, tmpdir).Some? && target.Some?
    ensures b.None? ==> ns.Contents() == old(ns.Contents())
    ensures b.Some? ==>
              && fresh(b.value) && b.value.Valid() && b.value.guest == target.value && !b.value.slash
              && b.value.host == MountSource(flags, source, fstype, tmpdir).value
              && b.value.mode == (if flags.readOnly then ReadOnly else ReadWrite)
              && ns.Contents() == Insorted(old(ns.Contents()), b.value)
  {
    var host := MountSource(flags, source, fstype, tmpdir);
    if host.None? || target.None? {
      return None;
    }
    var mounted := NewBinding(host.value, target.value, if flags.readOnly then ReadOnly else ReadWrite);
    ns.Insort(mounted);
    b := Some(mounted);
  }

  method Umount(ns: NameSpace, guest: string)
    requires ns.Contents().Valid() && Plain(guest)
    modifies ns
    ensures ns.Contents() == Umounted(old(ns.Contents()), guest) && ns.Contents().Valid()
  {
    if guest == "/" {
      return;
    }
    var found := ns.GetBinding(Guest, guest);
    if found.None? || found.value.SpelledOn(Guest) != guest {
      return;
    }
    ns.RemoveFromAllLists(found.value);
  }
}
