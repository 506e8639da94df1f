/**
What paths stand for after pivot_root(2): in the new root, and in the old root
below put_old.
 */
module PivotResolution {
  import opened Common
  import opened Paths
  import opened Bindings
  import opened Translation
  import opened Pivot

  // ---------------------------------------------------------------------
  // Paths seen from outside
  // ---------------------------------------------------------------------

  /** `q` seen from outside: below `n`. */
  function Beneath(n: string, q: string): string {
    Untrim(Trim(n) + Trim(q))
  }

  lemma {:induction false} BeneathPlain(n: string, q: string)
    requires Plain(n) && Plain(q)
    ensures Plain(Beneath(n, q)) && Trim(Beneath(n, q)) == Trim(n) + Trim(q) && Within(n, Beneath(n, q))
  {
    WithinRoot(q);
    GraftPlain(n, "/", q);
    assert Trim(q)[0..] == Trim(q);
  }

  lemma {:induction false} ExtendsShift(n: string, r: string, k: string)
    ensures Extends(r, k) <==> Extends(n + r, n + k)
  {
    if r <= k {
      assert n + k == (n + r) + k[|r|..];
    }
    if n + r <= n + k {
      assert k == (n + k)[|n|..];
      assert r == (n + r)[|n|..] == (n + k)[..|n + r|][|n|..];
    }
  }

  /** Nesting is the same from outside. */
  lemma {:induction false} BeneathWithin(n: string, g: string, q: string)
    requires Plain(n) && Plain(g) && Plain(q)
    ensures Within(g, q) <==> Within(Beneath(n, g), Beneath(n, q))
  {
    BeneathPlain(n, g);
    BeneathPlain(n, q);
    ExtendsShift(Trim(n), Trim(g), Trim(q));
  }

  /** So is what a binding makes of a path. */
  lemma {:induction false} BeneathGraft(h: string, n: string, g: string, q: string)
    requires Plain(n) && Plain(g) && Plain(q) && Within(g, q)
    ensures Within(Beneath(n, g), Beneath(n, q)) && Graft(h, Beneath(n, g), Beneath(n, q)) == Graft(h, g, q)
  {
    BeneathWithin(n, g, q);
    BeneathPlain(n, g);
    BeneathPlain(n, q);
    assert (Trim(n) + Trim(q))[|Trim(n) + Trim(g)|..] == Trim(q)[|Trim(g)|..];
  }

  /** A path below the new root is what is left of it, seen from outside. */
  lemma {:induction false} MovedBeneath(plan: Plan, l: seq<Binding>, s: Binding)
    requires plan.Valid() && s in l && s.Valid() && SingleSlash(l) && plan.Rebases(s.guest)
    ensures plan.newRoot != "/" && Plain(s.guest[|plan.newRoot|..])
    ensures s.guest == Beneath(plan.newRoot, s.guest[|plan.newRoot|..])
  {
    MovedPlain(plan, l, s);
    PathLength(plan.newRoot);
    PathLength(s.guest[|plan.newRoot|..]);
  }

  lemma {:induction false} SpliceTwice(h: string, n: string, q: string, k: nat)
    requires k <= |n|
    ensures (h + n[k..]) + q[0..] == h + (n + q)[k..]
  {
    assert (n + q)[k..] == n[k..] + q;
  }

  lemma {:induction false} GraftTwice(h0: string, g0: string, n: string, q: string)
    requires Plain(h0) && Plain(g0) && Plain(n) && Plain(q) && Within(g0, n) && Within(g0, Beneath(n, q))
    ensures Plain(Graft(h0, g0, n)) && Within("/", q)
    ensures Graft(Graft(h0, g0, n), "/", q) == Graft(h0, g0, Beneath(n, q))
  {
    GraftPlain(h0, g0, n);
    BeneathPlain(n, q);
    WithinRoot(q);
    GraftPlain(Graft(h0, g0, n), "/", q);
    GraftPlain(h0, g0, Beneath(n, q));
    SpliceTwice(Trim(h0), Trim(n), Trim(q), |Trim(g0)|);
    UntrimInjective(Graft(Graft(h0, g0, n), "/", q), Graft(h0, g0, Beneath(n, q)));
  }

  // ---------------------------------------------------------------------
  // The binding that answers for a path
  // ---------------------------------------------------------------------

  /** The deepest binding at or above a path. */
  ghost predicate Answers(ls: Lists, p: string, b: Binding) {
    b in ls.guest && b.Valid() && Within(b.guest, p) && FirstMatch(ls.guest, Guest, p) == Some(b)
  }

  lemma {:induction false} TheBinding(ls: Lists, p: string) returns (b: Binding)
    requires Based(ls) && Plain(p)
    ensures ls.guest != [] && Answers(ls, p, b) && Resolved(ls, p) == Some(Graft(b.host, b.guest, p))
  {
    var root := RootBinding(ls);
    WithinRoot(p);
    FirstMatchIsDeepest(ls, Guest, p, root);
    b := FirstMatch(ls.guest, Guest, p).value;
  }

  /** Nothing that covers the path is deeper. */
  lemma {:induction false} Deepest(ls: Lists, p: string, b: Binding, x: Binding)
    requires ls.Valid() && Answers(ls, p, b) && x in ls.guest && Within(x.guest, p)
    ensures x.Valid() && Within(x.guest, b.guest) && (x.guest == b.guest ==> x == b)
  {
    FirstMatchIsDeepest(ls, Guest, p, x);
    if x.guest == b.guest {
      OneAtPath(ls, x, b);
    }
  }

  /** A binding above `n` that is deepest for a path within `n` is deepest for `n`. */
  lemma {:induction false} SameDeepest(ls: Lists, n: string, p: string, b: Binding)
    requires ls.Valid() && Answers(ls, p, b) && Within(b.guest, n) && Within(n, p)
    ensures Answers(ls, n, b)
  {
    FirstMatchIsDeepest(ls, Guest, n, b);
    var c := FirstMatch(ls.guest, Guest, n).value;
    WithinTransitive(c.guest, n, p);
    Deepest(ls, p, b, c);
    WithinAntisymmetric(b.guest, c.guest);
  }

  /** Where a binding of the pivoted name-space comes from. */
  datatype Origin = NewRoot | OldRoot | Moved(s: Binding) | Aliased(s: Binding) | Left

  ghost predicate ComesFrom(plan: Plan, before: Lists, m: Binding, o: Origin) {
    match o
    case NewRoot => m.guest == "/" && m.host == plan.host && !m.slash
    case OldRoot =>
      && plan.putOld.Some? && m.guest == plan.OldPlace() && m.host == plan.oldHost
      && m.slash == Slashed(plan.putOld.value)
    case Moved(s) =>
      && s in before.guest && plan.Rebases(s.guest) && m.guest == s.guest[|plan.newRoot|..]
      && m.host == s.host && !m.slash
    case Aliased(s) =>
      && s in before.guest && plan.Aliases(s.guest) && m.guest == plan.putOld.value + s.guest
      && m.host == s.host && !m.slash
    case Left =>
      && m in before.guest && !m.slash && m.guest != "/" && !plan.Rebases(m.guest)
      && !Taken(before.guest, plan.newRoot + m.guest)
  }

  lemma {:induction false} Origins(plan: Plan, before: Lists, after: Lists, m: Binding) returns (o: Origin)
    requires Setting(plan, before, after) && m in after.guest
    ensures ComesFrom(plan, before, m, o)
  {
    var snap := before.guest;
    if m in snap {
      assert plan.Accounts(snap, |snap|, m) && m.Valid();
      if Taken(snap, plan.newRoot + m.guest) {
        NotTaken(plan, before, m);
      }
      o := Left;
    } else {
      assert plan.Accounts(snap, |snap|, m);
      var k := Writer(plan, snap, |snap|, m.guest);
      o := if k == |snap| then (if plan.putOld.Some? && plan.OldPlace() == m.guest then OldRoot else NewRoot)
           else if plan.Rebases(snap[k].guest) then Moved(snap[k]) else Aliased(snap[k]);
    }
  }

  /** A binding that stays was not replaced by one that moved. */
  lemma {:induction false} NotTaken(plan: Plan, before: Lists, m: Binding)
    requires m.Valid() && m.guest != "/" && plan.Written(before.guest, |before.guest|, m.guest).None?
    ensures !Taken(before.guest, plan.newRoot + m.guest)
  {
    var snap := before.guest;
    assert (plan.newRoot + m.guest)[|plan.newRoot|..] == m.guest;
    forall k | 0 <= k < |snap| ensures snap[k].guest != plan.newRoot + m.guest {
      if plan.Target(snap[k].guest) == Some(m.guest) {
        SomethingWritten(plan, snap, k, |snap|, m.guest);
      }
    }
  }

  // ---------------------------------------------------------------------
  // Paths in the new root
  // ---------------------------------------------------------------------

  /** A binding that the pivot leaves outside the new root covers `q`. */
  ghost predicate Shadowed(plan: Plan, before: Lists, q: string) {
    exists b :: b in before.guest && b.guest != "/" && Within(b.guest, q)
                && !plan.Rebases(b.guest) && !Taken(before.guest, plan.newRoot + b.guest)
  }

  /** The setting of the theorem: `q` lies outside put_old and is not shadowed. */
  ghost predicate Inside(plan: Plan, before: Lists, after: Lists, q: string) {
    && Setting(plan, before, after) && Ready(before) && before.guest != []
    && Resolved(before, plan.newRoot) == Some(plan.host)
    && Plain(q) && !plan.UnderPutOld(q) && !Shadowed(plan, before, q)
  }

  /** What can answer for `q` after the pivot. */
  lemma {:induction false} InsideOrigin(plan: Plan, before: Lists, after: Lists, q: string, m: Binding)
    returns (o: Origin)
    requires Inside(plan, before, after, q) && m in after.guest && Within(m.guest, q)
    ensures ComesFrom(plan, before, m, o) && (o.NewRoot? || o.Moved?)
  {
    o := Origins(plan, before, after, m);
    if o.Aliased? {
      assert o.s.Valid();
      AliasPlain(plan.putOld.value, o.s.guest);
      WithinTransitive(plan.OldPlace(), m.guest, q);
    }
  }

  /** What is shown again is under put_old. */
  lemma {:induction false} AliasElsewhere(plan: Plan, s: Binding, g: string)
    requires plan.Valid() && s.Valid() && plan.Aliases(s.guest) && !plan.UnderPutOld(g)
    ensures g != plan.putOld.value + s.guest
  {
    AliasPlain(plan.putOld.value, s.guest);
  }

  /** What moved to a path outside put_old is listed there. */
  lemma {:induction false} MovedIsListed(plan: Plan, before: Lists, after: Lists, s: Binding)
    requires Setting(plan, before, after) && s in before.guest && plan.Rebases(s.guest)
    requires !plan.UnderPutOld(s.guest[|plan.newRoot|..])
    ensures Binds(after.guest, s.guest[|plan.newRoot|..], s.host)
  {
    var snap, g := before.guest, s.guest[|plan.newRoot|..];
    assert s.guest == plan.newRoot + g;
    var k :| 0 <= k < |snap| && snap[k] == s;
    forall j | k < j < |snap| && plan.Aliases(snap[j].guest) ensures g != plan.putOld.value + snap[j].guest {
      assert snap[j].Valid();
      AliasElsewhere(plan, snap[j], g);
    }
    MovedListed(plan, before, after, k, g);
  }

  /** If the deepest binding from outside moved, it answers for `q` inside. */
  lemma {:induction false} MovedAnswers(plan: Plan, before: Lists, after: Lists, q: string, b0: Binding, m: Binding)
    requires Inside(plan, before, after, q)
    requires Answers(before, Beneath(plan.newRoot, q), b0) && plan.Rebases(b0.guest) && Answers(after, q, m)
    ensures m.guest == b0.guest[|plan.newRoot|..] && m.host == b0.host
  {
    var n, r0 := plan.newRoot, b0.guest[|plan.newRoot|..];
    MovedBeneath(plan, before.guest, b0);
    BeneathWithin(n, r0, q);
    if plan.UnderPutOld(r0) {
      WithinTransitive(plan.OldPlace(), r0, q);
    }
    MovedIsListed(plan, before, after, b0);
    var x :| x in after.guest && x.guest == r0;
    Deepest(after, q, m, x);
    var o := InsideOrigin(plan, before, after, q, m);
    if o.Moved? {
      MovedIsDeepest(plan, before, q, b0, o.s);
    } else {
      WithinRoot(r0);
    }
    WithinAntisymmetric(r0, m.guest);
  }

  lemma {:induction false} MovedIsDeepest(plan: Plan, before: Lists, q: string, b0: Binding, s: Binding)
    requires plan.Valid() && before.Valid() && SingleSlash(before.guest) && Plain(q)
    requires Answers(before, Beneath(plan.newRoot, q), b0) && plan.Rebases(b0.guest)
    requires s in before.guest && plan.Rebases(s.guest) && Within(s.guest[|plan.newRoot|..], q)
    ensures Within(s.guest[|plan.newRoot|..], b0.guest[|plan.newRoot|..])
  {
    var n := plan.newRoot;
    assert s.Valid();
    MovedBeneath(plan, before.guest, b0);
    MovedBeneath(plan, before.guest, s);
    BeneathWithin(n, s.guest[|n|..], q);
    Deepest(before, Beneath(n, q), b0, s);
    BeneathWithin(n, s.guest[|n|..], b0.guest[|n|..]);
  }

  /** With new root "/" a path in the new root is covered by the root only. */
  lemma {:induction false} OnlyTheRoot(plan: Plan, before: Lists, after: Lists, q: string, b: Binding)
    requires Inside(plan, before, after, q) && plan.newRoot == "/"
    requires b in before.guest && Within(b.guest, q)
    ensures b.guest == "/"
  {
    assert b.Valid();
    NoRebaseAtRoot(plan, before.guest, b);
    assert ("/" + b.guest)[1] == '/';
    assert !Taken(before.guest, plan.newRoot + b.guest);
  }

  /** Otherwise the deepest binding from outside covers the new root itself. */
  lemma {:induction false} UnmovedCoversRoot(plan: Plan, before: Lists, after: Lists, q: string, b0: Binding)
    requires Inside(plan, before, after, q)
    requires b0 in before.guest && Within(b0.guest, Beneath(plan.newRoot, q)) && !plan.Rebases(b0.guest)
    ensures Within(b0.guest, plan.newRoot)
  {
    var n := plan.newRoot;
    assert b0.Valid();
    BeneathPlain(n, q);
    WithinLinear(b0.guest, n, Beneath(n, q));
    PathLength(n);
    PathLength(b0.guest);
    if n == "/" {
      assert Trim(n) + Trim(q) == Trim(q);
      UntrimInjective(q, q);
      OnlyTheRoot(plan, before, after, q, b0);
    }
  }

  /** Then the new root answers for `q`, from where that binding led. */
  lemma {:induction false} RootAnswers(plan: Plan, before: Lists, after: Lists, q: string, b0: Binding, m: Binding)
    requires Inside(plan, before, after, q)
    requires Answers(before, Beneath(plan.newRoot, q), b0) && !plan.Rebases(b0.guest) && Answers(after, q, m)
    ensures m.guest == "/" && m.host == plan.host
    ensures Within(b0.guest, plan.newRoot) && plan.host == Graft(b0.host, b0.guest, plan.newRoot)
  {
    var n := plan.newRoot;
    UnmovedCoversRoot(plan, before, after, q, b0);
    BeneathPlain(n, q);
    SameDeepest(before, n, Beneath(n, q), b0);
    var o := InsideOrigin(plan, before, after, q, m);
    if o.Moved? {
      MovedBelow(plan, before, q, b0, o.s);
    }
  }

  /** If something that moved covered `q`, so would the deepest binding. */
  lemma {:induction false} MovedBelow(plan: Plan, before: Lists, q: string, b0: Binding, s: Binding)
    requires plan.Valid() && before.Valid() && SingleSlash(before.guest) && Plain(q)
    requires Answers(before, Beneath(plan.newRoot, q), b0) && Within(b0.guest, plan.newRoot)
    requires s in before.guest && plan.Rebases(s.guest)
    ensures !Within(s.guest[|plan.newRoot|..], q)
  {
    var n := plan.newRoot;
    assert s.Valid();
    MovedBeneath(plan, before.guest, s);
    BeneathWithin(n, s.guest[|n|..], q);
    if Within(s.guest[|n|..], q) {
      Deepest(before, Beneath(n, q), b0, s);
      WithinTransitive(s.guest, b0.guest, n);
      PathLength(s.guest);
      PathLength(n);
    }
  }

  /** pivot_root(2) preserves resolution: after the pivot `q` stands for the host
      path that new_root/q stood for before, whatever is bound below the new root. */
  lemma {:induction false} PivotPreservesResolution(plan: Plan, before: Lists, after: Lists, q: string)
    requires Inside(plan, before, after, q)
    ensures after.guest != [] && Plain(Beneath(plan.newRoot, q)) && Resolved(before, Beneath(plan.newRoot, q)).Some?
    ensures Resolved(after, q) == Resolved(before, Beneath(plan.newRoot, q))
    ensures forall m :: Answers(after, q, m) ==> !m.slash
  {
    var n := plan.newRoot;
    BeneathPlain(n, q);
    var b0 := TheBinding(before, Beneath(n, q));
    NewRootListed(plan, before, after);
    assert HasRoot(after);
    var m := TheBinding(after, q);
    var _ := InsideOrigin(plan, before, after, q, m);
    if plan.Rebases(b0.guest) {
      MovedAnswers(plan, before, after, q, b0, m);
      MovedBeneath(plan, before.guest, b0);
      BeneathGraft(m.host, n, m.guest, q);
    } else {
      RootAnswers(plan, before, after, q, b0, m);
      GraftTwice(b0.host, b0.guest, n, q);
    }
  }

  // ---------------------------------------------------------------------
  // Paths in the old root
  // ---------------------------------------------------------------------

  /** The setting of the theorem: `q` lies outside the new root and outside
      put_old, and the path of its binding `b0` has room for put_old. */
  ghost predicate Outside(plan: Plan, before: Lists, after: Lists, q: string, b0: Binding) {
    && Setting(plan, before, after) && Ready(before) && before.guest != []
    && plan.putOld.Some? && !Slashed(plan.putOld.value) && Binds(before.guest, "/", plan.oldHost)
    && Plain(q) && (plan.newRoot == "/" || !Within(plan.newRoot, q)) && !plan.UnderPutOld(q)
    && Answers(before, q, b0) && |plan.putOld.value| + |b0.guest| < PATH_MAX
  }

  function Landing(plan: Plan, x: Binding): string {
    if plan.Rebases(x.guest) then x.guest[|plan.newRoot|..] else x.guest
  }

  /** Where a binding is after the pivot, if it moves, or else if it stays and no
      binding moves there. */
  ghost predicate Lands(plan: Plan, before: Lists, x: Binding, g: string) {
    && x in before.guest && x.guest != "/" && g == Landing(plan, x)
    && (plan.Rebases(x.guest) || !Taken(before.guest, plan.newRoot + g))
  }

  ghost predicate Follows(l: seq<Binding>, b: Binding, x: Binding) {
    exists i, j :: 0 <= i < j < |l| && l[i] == b && l[j] == x
  }

  /** `x` lands above put_old/q, but below where the binding of `q` is shown again;
      or it moves right there, later than that one is inserted. */
  ghost predicate Hides(plan: Plan, before: Lists, q: string, b0: Binding, x: Binding, g: string)
    requires plan.putOld.Some?
  {
    var p := plan.OldPlace();
    var a := Beneath(p, b0.guest);
    && Lands(plan, before, x, g) && Within(g, Beneath(p, q)) && Within(a, g)
    && (g == a ==> plan.Rebases(x.guest) && (b0.guest == "/" || Follows(before.guest, b0, x)))
  }

  ghost predicate Hidden(plan: Plan, before: Lists, q: string, b0: Binding)
    requires plan.putOld.Some?
  {
    exists x, g :: x in before.guest && Hides(plan, before, q, b0, x, g)
  }

  /** The binding of `q` is shown again, unless it is the root. */
  lemma {:induction false} AboveIsAliased(plan: Plan, before: Lists, after: Lists, q: string, b0: Binding)
    requires Outside(plan, before, after, q, b0) && b0.guest != "/"
    ensures plan.Aliases(b0.guest)
  {
    PathLength(b0.guest);
    if plan.Rebases(b0.guest) {
      MovedPlain(plan, before.guest, b0);
      PathLength(plan.newRoot);
      WithinTransitive(plan.newRoot, b0.guest, q);
    }
    PathLength(plan.putOld.value);
    if Within(plan.putOld.value, b0.guest) {
      WithinTransitive(plan.putOld.value, b0.guest, q);
    }
  }

  lemma {:induction false} AliasBeneath(p: string, g: string)
    requires Plain(p) && Plain(g) && p != "/"
    ensures Beneath(p, g) == if g == "/" then p else p + g
  {
    PathLength(p);
    PathLength(g);
  }

  /** The places of the binding of `q`, before and after. */
  lemma {:induction false} PlaceAfter(plan: Plan, before: Lists, after: Lists, q: string, b0: Binding)
    requires Outside(plan, before, after, q, b0)
    ensures var p, a := plan.OldPlace(), Beneath(plan.OldPlace(), b0.guest);
            && Plain(p) && p != "/" && Plain(a) && Plain(Beneath(p, q))
            && a == (if b0.guest == "/" then p else p + b0.guest)
            && Within(p, a) && Within(a, Beneath(p, q))
  {
    var p := plan.OldPlace();
    BeneathPlain(p, b0.guest);
    BeneathPlain(p, q);
    BeneathWithin(p, b0.guest, q);
    AliasBeneath(p, b0.guest);
  }

  /** What moves to a place is the binding from there. */
  lemma {:induction false} MovesFrom(plan: Plan, before: Lists, x: Binding, g: string)
    requires Plain(g) && g != "/" && x in before.guest && x.guest == plan.newRoot + g
    ensures plan.Rebases(x.guest) && Lands(plan, before, x, g)
  {
    assert (plan.newRoot + g)[|plan.newRoot|..] == g && plan.newRoot <= plan.newRoot + g;
  }

  /** A binding that moves there later hides the binding of `q`. */
  lemma {:induction false} LaterHides(plan: Plan, before: Lists, after: Lists, q: string, b0: Binding, x: Binding)
    requires Outside(plan, before, after, q, b0) && x in before.guest
    requires x.guest == plan.newRoot + Beneath(plan.OldPlace(), b0.guest)
    requires b0.guest == "/" || Follows(before.guest, b0, x)
    ensures Hides(plan, before, q, b0, x, Beneath(plan.OldPlace(), b0.guest))
  {
    var a := Beneath(plan.OldPlace(), b0.guest);
    PlaceAfter(plan, before, after, q, b0);
    WithinRoot(a);
    MovesFrom(plan, before, x, a);
  }

  lemma {:induction false} RootShown(plan: Plan, before: Lists, after: Lists, q: string, b0: Binding)
    requires Outside(plan, before, after, q, b0) && b0.guest == "/"
    requires !Taken(before.guest, plan.newRoot + Beneath(plan.OldPlace(), b0.guest))
    ensures Binds(after.guest, Beneath(plan.OldPlace(), b0.guest), b0.host)
  {
    PlaceAfter(plan, before, after, q, b0);
    OldRootListed(plan, before, after);
  }

  lemma {:induction false} AliasShown(plan: Plan, before: Lists, after: Lists, q: string, b0: Binding, k: nat)
    requires Outside(plan, before, after, q, b0) && b0.guest != "/" && k < |before.guest| && before.guest[k] == b0
    requires !Later(before.guest, k, plan.newRoot + Beneath(plan.OldPlace(), b0.guest))
    ensures Binds(after.guest, Beneath(plan.OldPlace(), b0.guest), b0.host)
  {
    PlaceAfter(plan, before, after, q, b0);
    AboveIsAliased(plan, before, after, q, b0);
    Regroup(plan.newRoot, plan.putOld.value, b0.guest);
    AliasListed(plan, before, after, k);
  }

  /** If nothing hides it, the binding of `q` is listed below put_old. */
  lemma {:induction false} AboveIsListed(plan: Plan, before: Lists, after: Lists, q: string, b0: Binding)
    requires Outside(plan, before, after, q, b0) && !Hidden(plan, before, q, b0)
    ensures Binds(after.guest, Beneath(plan.OldPlace(), b0.guest), b0.host)
  {
    var snap, from := before.guest, plan.newRoot + Beneath(plan.OldPlace(), b0.guest);
    if b0.guest == "/" {
      if Taken(snap, from) {
        var x :| x in snap && x.guest == from;
        LaterHides(plan, before, after, q, b0, x);
      }
      RootShown(plan, before, after, q, b0);
    } else {
      var k :| 0 <= k < |snap| && snap[k] == b0;
      if Later(snap, k, from) {
        var j :| k < j < |snap| && snap[j].guest == from;
        assert Follows(snap, b0, snap[j]);
        LaterHides(plan, before, after, q, b0, snap[j]);
      }
      AliasShown(plan, before, after, q, b0, k);
    }
  }

  /** Strictly below that place, only what hides the old root covers `q`. */
  lemma {:induction false} BelowHides(plan: Plan, before: Lists, after: Lists, q: string, b0: Binding, m: Binding)
    returns (x: Binding)
    requires Outside(plan, before, after, q, b0) && m in after.guest
    requires var p := plan.OldPlace();
             && Within(Beneath(p, b0.guest), m.guest) && m.guest != Beneath(p, b0.guest)
             && Within(m.guest, Beneath(p, q))
    ensures Hides(plan, before, q, b0, x, m.guest)
  {
    var p, a := plan.OldPlace(), Beneath(plan.OldPlace(), b0.guest);
    PlaceAfter(plan, before, after, q, b0);
    assert m.Valid();
    x := m;
    var o := Origins(plan, before, after, m);
    if o.Moved? {
      x := o.s;
    } else if o.OldRoot? {
      WithinAntisymmetric(p, a);
    } else if o.NewRoot? {
      WithinRoot(a);
      WithinAntisymmetric(a, "/");
    } else if o.Aliased? {
      NoAliasBelow(plan, before, after, q, b0, o.s);
    }
  }

  /** Nothing that covers `q` is shown again below the binding of `q`. */
  lemma {:induction false} NoAliasBelow(plan: Plan, before: Lists, after: Lists, q: string, b0: Binding, s: Binding)
    requires Outside(plan, before, after, q, b0) && s in before.guest && plan.Aliases(s.guest)
    requires Within(plan.putOld.value + s.guest, Beneath(plan.OldPlace(), q))
    requires Within(Beneath(plan.OldPlace(), b0.guest), plan.putOld.value + s.guest)
    ensures s == b0
  {
    var p := plan.OldPlace();
    assert s.Valid();
    AliasBeneath(p, s.guest);
    BeneathWithin(p, s.guest, q);
    Deepest(before, q, b0, s);
    BeneathWithin(p, b0.guest, s.guest);
    WithinAntisymmetric(s.guest, b0.guest);
  }

  /** What hides the old root lies below put_old, at a path of its own. */
  lemma {:induction false} HidingIs(plan: Plan, before: Lists, after: Lists, q: string, b0: Binding, x: Binding,
                                    g: string)
    requires Outside(plan, before, after, q, b0) && Hides(plan, before, q, b0, x, g)
    ensures x.Valid() && Plain(g) && g != "/" && !x.slash
    ensures plan.Rebases(x.guest) ==> x.guest == plan.newRoot + g
    ensures g == plan.OldPlace() ==> plan.Rebases(x.guest)
  {
    PlaceAfter(plan, before, after, q, b0);
    assert x.Valid();
    if plan.Rebases(x.guest) {
      MovedPlain(plan, before.guest, x);
    } else if g == plan.OldPlace() {
      WithinAntisymmetric(Beneath(plan.OldPlace(), b0.guest), g);
    }
  }

  /** No binding of the old root is shown again there after it moved. */
  lemma {:induction false} NoAliasLater(plan: Plan, before: Lists, after: Lists, q: string, b0: Binding, k: nat,
                                        g: string, j: nat)
    requires Outside(plan, before, after, q, b0) && k < j < |before.guest|
    requires Hides(plan, before, q, b0, before.guest[k], g) && plan.Aliases(before.guest[j].guest)
    ensures g != plan.putOld.value + before.guest[j].guest
  {
    var snap := before.guest;
    if g == plan.putOld.value + snap[j].guest {
      NoAliasBelow(plan, before, after, q, b0, snap[j]);
      PlaceAfter(plan, before, after, q, b0);
    }
  }

  /** What hides the old root is listed where it lands. */
  lemma {:induction false} HidingIsListed(plan: Plan, before: Lists, after: Lists, q: string, b0: Binding, x: Binding,
                                          g: string)
    requires Outside(plan, before, after, q, b0) && Hides(plan, before, q, b0, x, g)
    ensures Binds(after.guest, g, x.host)
  {
    if plan.Rebases(x.guest) {
      var k :| 0 <= k < |before.guest| && before.guest[k] == x;
      ArrivalIsListed(plan, before, after, q, b0, k, g);
    } else {
      LeftIsListed(plan, before, after, q, b0, x);
    }
  }

  lemma {:induction false} ArrivalIsListed(plan: Plan, before: Lists, after: Lists, q: string, b0: Binding, k: nat,
                                           g: string)
    requires Outside(plan, before, after, q, b0) && k < |before.guest|
    requires Hides(plan, before, q, b0, before.guest[k], g) && plan.Rebases(before.guest[k].guest)
    ensures Binds(after.guest, g, before.guest[k].host)
  {
    var snap := before.guest;
    HidingIs(plan, before, after, q, b0, snap[k], g);
    forall j | k < j < |snap| && plan.Aliases(snap[j].guest) ensures g != plan.putOld.value + snap[j].guest {
      NoAliasLater(plan, before, after, q, b0, k, g, j);
    }
    MovedListed(plan, before, after, k, g);
  }

  lemma {:induction false} LeftIsListed(plan: Plan, before: Lists, after: Lists, q: string, b0: Binding, x: Binding)
    requires Outside(plan, before, after, q, b0) && Hides(plan, before, q, b0, x, x.guest) && !plan.Rebases(x.guest)
    ensures Binds(after.guest, x.guest, x.host)
  {
    LeftStays(plan, before, after, q, b0, x);
    assert plan.Keeps(before.guest, |before.guest|, after.guest, x);
    forall b | b in after.guest && b.guest == x.guest ensures b.host == x.host {
      OneAtPath(after, b, x);
    }
  }

  lemma {:induction false} LeftStays(plan: Plan, before: Lists, after: Lists, q: string, b0: Binding, x: Binding)
    requires Outside(plan, before, after, q, b0) && Hides(plan, before, q, b0, x, x.guest) && !plan.Rebases(x.guest)
    ensures plan.Stays(before.guest, |before.guest|, x)
  {
    var snap := before.guest;
    NotAtFirst(plan, before, after, q, b0, x);
    forall j | 0 <= j < |snap| ensures plan.Target(snap[j].guest) != Some(x.guest) {
      NothingLands(plan, before, after, q, b0, x, snap[j]);
    }
    NoWriter(plan, snap, |snap|, x.guest);
  }

  lemma {:induction false} NotAtFirst(plan: Plan, before: Lists, after: Lists, q: string, b0: Binding, x: Binding)
    requires Outside(plan, before, after, q, b0) && Hides(plan, before, q, b0, x, x.guest) && !plan.Rebases(x.guest)
    ensures plan.AtFirst(x.guest).None? && x.guest != "/"
  {
    HidingIs(plan, before, after, q, b0, x, x.guest);
  }

  lemma {:induction false} NothingLands(plan: Plan, before: Lists, after: Lists, q: string, b0: Binding, x: Binding,
                                        s: Binding)
    requires Outside(plan, before, after, q, b0) && Hides(plan, before, q, b0, x, x.guest) && !plan.Rebases(x.guest)
    requires s in before.guest
    ensures plan.Target(s.guest) != Some(x.guest)
  {
    assert s.Valid();
    if plan.Rebases(s.guest) {
      MovedPlain(plan, before.guest, s);
    } else if plan.Aliases(s.guest) && plan.putOld.value + s.guest == x.guest {
      NoAliasBelow(plan, before, after, q, b0, s);
      PlaceAfter(plan, before, after, q, b0);
    }
  }

  /** The old root is shown again: after the pivot put_old/q stands for the host
      path that `q` stood for before, if nothing hides it. */
  lemma {:induction false} OldRootResolution(plan: Plan, before: Lists, after: Lists, q: string, b0: Binding)
    requires Outside(plan, before, after, q, b0) && !Hidden(plan, before, q, b0)
    ensures after.guest != [] && Plain(Beneath(plan.OldPlace(), q)) && Resolved(before, q).Some?
    ensures Resolved(after, Beneath(plan.OldPlace(), q)) == Resolved(before, q)
  {
    var p, a := plan.OldPlace(), Beneath(plan.OldPlace(), b0.guest);
    PlaceAfter(plan, before, after, q, b0);
    var b := TheBinding(before, q);
    NewRootListed(plan, before, after);
    assert HasRoot(after);
    var m := TheBinding(after, Beneath(p, q));
    AboveIsListed(plan, before, after, q, b0);
    var x :| x in after.guest && x.guest == a;
    Deepest(after, Beneath(p, q), m, x);
    if m.guest != a {
      var y := BelowHides(plan, before, after, q, b0, m);
    }
    BeneathGraft(b0.host, p, b0.guest, q);
  }

  /** Of the marked ones of `n` paths, all above the same path, one is below all the
      others; `n` if there is none. */
  lemma {:induction false} DeepestMarked(gs: seq<string>, marked: seq<bool>, path: string, n: nat) returns (k: nat)
    requires n <= |gs| == |marked|
    requires forall i :: 0 <= i < n && marked[i] ==> Within(gs[i], path)
    ensures k <= n && (k < n ==> marked[k])
    ensures forall i :: 0 <= i < n && marked[i] ==> k < n && Within(gs[i], gs[k])
  {
    k := n;
    if n > 0 {
      var j := DeepestMarked(gs, marked, path, n - 1);
      if j < n - 1 {
        k := j;
        if marked[n - 1] {
          k := Deeper(gs, marked, path, n - 1, j);
        }
      } else if marked[n - 1] {
        k := n - 1;
      }
    }
  }

  lemma {:induction false} Deeper(gs: seq<string>, marked: seq<bool>, path: string, n: nat, j: nat) returns (k: nat)
    requires j < n < |gs| == |marked| && marked[n] && marked[j]
    requires Within(gs[n], path) && Within(gs[j], path)
    requires forall i :: 0 <= i < n && marked[i] ==> Within(gs[i], gs[j])
    ensures k == n || k == j
    ensures forall i :: 0 <= i <= n && marked[i] ==> Within(gs[i], gs[k])
  {
    WithinLinear(gs[j], gs[n], path);
    k := if |Trim(gs[j])| < |Trim(gs[n])| then n else j;
    if k == n {
      forall i | 0 <= i < n && marked[i] ensures Within(gs[i], gs[n]) {
        WithinTransitive(gs[i], gs[j], gs[n]);
      }
    }
  }

  /** If the old root is hidden, one binding that hides it lands below all the others. */
  lemma {:induction false} DeepestHiding(plan: Plan, before: Lists, q: string, b0: Binding)
    returns (x: Binding, g: string)
    requires plan.putOld.Some? && Hidden(plan, before, q, b0)
    ensures Hides(plan, before, q, b0, x, g)
    ensures forall y, h :: Hides(plan, before, q, b0, y, h) ==> Within(h, g)
  {
    var l := before.guest;
    var gs := seq(|l|, i requires 0 <= i < |l| => Landing(plan, l[i]));
    var marked := seq(|l|, i requires 0 <= i < |l| => Hides(plan, before, q, b0, l[i], gs[i]));
    forall y, h | Hides(plan, before, q, b0, y, h) ensures exists i :: 0 <= i < |l| && marked[i] && gs[i] == h {
      var i :| 0 <= i < |l| && l[i] == y;
      assert marked[i] && gs[i] == h;
    }
    var k := DeepestMarked(gs, marked, Beneath(plan.OldPlace(), q), |l|);
    x, g := l[k], gs[k];
  }

  /** Otherwise put_old/q stands for what the deepest binding that hides it shows,
      which is the same host path if and only if that binding shows the same place. */
  lemma {:induction false} HiddenOldRoot(plan: Plan, before: Lists, after: Lists, q: string, b0: Binding, x: Binding,
                                         g: string)
    requires Outside(plan, before, after, q, b0) && Hides(plan, before, q, b0, x, g)
    requires forall y, h :: Hides(plan, before, q, b0, y, h) ==> Within(h, g)
    ensures after.guest != [] && Plain(Beneath(plan.OldPlace(), q)) && Within(g, Beneath(plan.OldPlace(), q))
    ensures Resolved(after, Beneath(plan.OldPlace(), q)) == Some(Graft(x.host, g, Beneath(plan.OldPlace(), q)))
    ensures Within(Beneath(plan.OldPlace(), b0.guest), g)
    ensures Resolved(after, Beneath(plan.OldPlace(), q)) == Resolved(before, q)
            <==> x.host == Graft(b0.host, Beneath(plan.OldPlace(), b0.guest), g)
  {
    var p, a := plan.OldPlace(), Beneath(plan.OldPlace(), b0.guest);
    PlaceAfter(plan, before, after, q, b0);
    HidingIs(plan, before, after, q, b0, x, g);
    var b := TheBinding(before, q);
    NewRootListed(plan, before, after);
    assert HasRoot(after);
    var m := TheBinding(after, Beneath(p, q));
    HidingIsListed(plan, before, after, q, b0, x, g);
    HidingAnswers(plan, before, after, q, b0, x, g, m);
    BeneathGraft(b0.host, p, b0.guest, q);
    DeeperPlaceIff(x.host, b0.host, a, g, Beneath(p, q));
  }

  lemma {:induction false} HidingAnswers(plan: Plan, before: Lists, after: Lists, q: string, b0: Binding, x: Binding,
                                         g: string, m: Binding)
    requires Outside(plan, before, after, q, b0) && Hides(plan, before, q, b0, x, g)
    requires forall y, h :: Hides(plan, before, q, b0, y, h) ==> Within(h, g)
    requires Binds(after.guest, g, x.host) && Answers(after, Beneath(plan.OldPlace(), q), m)
    ensures m.guest == g && m.host == x.host
  {
    var a := Beneath(plan.OldPlace(), b0.guest);
    PlaceAfter(plan, before, after, q, b0);
    HidingIs(plan, before, after, q, b0, x, g);
    var z :| z in after.guest && z.guest == g;
    Deepest(after, Beneath(plan.OldPlace(), q), m, z);
    if m.guest != g {
      WithinTransitive(a, g, m.guest);
      if m.guest == a {
        WithinAntisymmetric(a, g);
      }
      var y := BelowHides(plan, before, after, q, b0, m);
      WithinAntisymmetric(m.guest, g);
    }
  }

  /** Two bindings one below the other lead to the same place from a path below
      both exactly if they do from the deeper one. */
  lemma {:induction false} DeeperPlaceIff(h: string, h0: string, a: string, g: string, path: string)
    requires Plain(h) && Plain(h0) && Plain(a) && Plain(g) && Plain(path) && Within(a, g) && Within(g, path)
    ensures Within(a, path) && (Graft(h, g, path) == Graft(h0, a, path) <==> h == Graft(h0, a, g))
  {
    WithinTransitive(a, g, path);
    var rest := GraftParts(h, g, path);
    var whole := GraftParts(h0, a, path);
    var between := GraftParts(h0, a, g);
    CancelLeft(Trim(a), whole, between + rest);
    assert (Trim(a) + between) + rest == Trim(a) + (between + rest);
    PrefixIff(Trim(h), Trim(h0), between, rest);
    UntrimInjective(Graft(h, g, path), Graft(h0, a, path));
    UntrimInjective(h, Graft(h0, a, g));
  }

  // ---------------------------------------------------------------------
  // A put_old with a slash at its end
  // ---------------------------------------------------------------------

  /** Nothing that is bound at or below put_old, on its own or after a move,
      covers `q` below put_old. */
  ghost predicate Unmixed(plan: Plan, before: Lists, q: string)
    requires plan.putOld.Some?
  {
    var p := plan.OldPlace();
    && (forall s :: s in before.guest && !plan.Rebases(s.guest) && Within(p, s.guest) ==>
          !Within(s.guest, Beneath(p, q)))
    && (forall s :: s in before.guest && plan.Rebases(s.guest) && Within(p, s.guest[|plan.newRoot|..]) ==>
          !Within(s.guest[|plan.newRoot|..], Beneath(p, q)))
  }

  /** A path that has no empty component at its start. */
  predicate Single(q: string) { Plain(q) && (|q| > 1 ==> q[1] != '/') }

  /** The setting: put_old keeps its slash, and nothing else answers below it. */
  ghost predicate OutsideSlashed(plan: Plan, before: Lists, after: Lists, q: string) {
    && Setting(plan, before, after) && Ready(before) && before.guest != []
    && plan.putOld.Some? && Slashed(plan.putOld.value) && Single(q) && Unmixed(plan, before, q)
  }

  /** What is shown again has two slashes in a row: no such path leads there. */
  lemma {:induction false} AliasUnreachable(p: string, g: string, q: string)
    requires Rooted(p) && Slashed(p) && Plain(g) && g != "/" && Single(q)
    ensures !Within(p + g, Beneath(Bare(p), q))
  {
    BareIs(p);
    PathLength(Bare(p));
    PathLength(g);
    PathLength(q);
    BeneathPlain(Bare(p), q);
    var k := |Bare(p)|;
    assert (p + g)[k + 1] == '/';
    if |q| > 1 {
      assert Trim(Beneath(Bare(p), q)) == Bare(p) + q;
      assert (Bare(p) + q)[k + 1] == q[1];
    }
  }

  /** Only the old root is found at or below put_old. */
  lemma {:induction false} SlashedOrigin(plan: Plan, before: Lists, after: Lists, q: string, m: Binding)
    requires OutsideSlashed(plan, before, after, q) && m in after.guest
    requires Within(plan.OldPlace(), m.guest) && Within(m.guest, Beneath(plan.OldPlace(), q))
    ensures m.guest == plan.OldPlace() && m.host == plan.oldHost && m.slash
  {
    var p := plan.OldPlace();
    var o := Origins(plan, before, after, m);
    if o.Aliased? {
      assert o.s.Valid();
      AliasUnreachable(plan.putOld.value, o.s.guest, q);
    } else if o.NewRoot? {
      WithinRoot(p);
      WithinAntisymmetric(p, "/");
    }
  }

  /** The old root answers for every path below put_old. */
  lemma {:induction false} SlashedAnswers(plan: Plan, before: Lists, after: Lists, q: string, m: Binding)
    requires OutsideSlashed(plan, before, after, q) && Answers(after, Beneath(plan.OldPlace(), q), m)
    ensures m.guest == plan.OldPlace() && m.host == plan.oldHost && m.slash
  {
    var p := plan.OldPlace();
    BeneathPlain(p, q);
    WithinRoot(q);
    if Taken(before.guest, plan.newRoot + p) {
      NothingAtPutOld(plan, before, q);
    }
    OldRootListed(plan, before, after);
    var x :| x in after.guest && x.guest == p;
    Deepest(after, Beneath(p, q), m, x);
    SlashedOrigin(plan, before, after, q, m);
  }

  lemma {:induction false} NothingAtPutOld(plan: Plan, before: Lists, q: string)
    requires plan.Valid() && plan.putOld.Some? && Plain(q) && Unmixed(plan, before, q)
    ensures !Taken(before.guest, plan.newRoot + plan.OldPlace())
  {
    var n, p := plan.newRoot, plan.OldPlace();
    BeneathPlain(p, q);
    assert (n + p)[|n|..] == p && n <= n + p && (n + p)[|n|] == '/';
  }

  /** The bindings of the old root are not shown again: put_old/q stands for the
      place of `q` in the old root file-system; and the substitution, which counts
      the slash, leads there if and only if there is nothing to substitute. */
  lemma {:induction false} SlashedOldRoot(plan: Plan, before: Lists, after: Lists, q: string) returns (m: Binding)
    requires OutsideSlashed(plan, before, after, q) && q != "/"
    ensures after.guest != [] && Plain(Beneath(plan.OldPlace(), q)) && Within("/", q)
    ensures Resolved(after, Beneath(plan.OldPlace(), q)) == Some(Graft(plan.oldHost, "/", q))
    ensures Answers(after, Beneath(plan.OldPlace(), q), m) && |m.SpelledOn(Guest)| <= |Beneath(plan.OldPlace(), q)|
    ensures Through(m, Guest, Beneath(plan.OldPlace(), q)) == Graft(plan.oldHost, "/", q)
            <==> plan.oldHost == plan.OldPlace()
  {
    var p := plan.OldPlace();
    BeneathPlain(p, q);
    WithinRoot(q);
    NewRootListed(plan, before, after);
    assert HasRoot(after);
    m := TheBinding(after, Beneath(p, q));
    SlashedAnswers(plan, before, after, q, m);
    BeneathGraft(plan.oldHost, p, "/", q);
    AliasBeneath(p, "/");
    AliasBeneath(p, q);
    ThroughIsGraftIff(m, Guest, Beneath(p, q));
  }

  /** So put_old/q stands for what `q` stood for before if and only if the binding
      of `q` showed the place where the old root file-system has it anyway. */
  lemma {:induction false} SlashedResolutionIff(plan: Plan, before: Lists, after: Lists, q: string, b0: Binding)
    requires OutsideSlashed(plan, before, after, q) && q != "/" && Answers(before, q, b0)
    ensures after.guest != [] && Plain(Beneath(plan.OldPlace(), q))
    ensures Resolved(after, Beneath(plan.OldPlace(), q)) == Resolved(before, q)
            <==> b0.host == Untrim(Trim(plan.oldHost) + Trim(b0.guest))
  {
    var m := SlashedOldRoot(plan, before, after, q);
    var b := TheBinding(before, q);
    SamePlaceIff(b0.host, b0.guest, plan.oldHost, q);
  }

  lemma {:induction false} SamePlaceIff(h: string, g: string, root: string, q: string)
    requires Plain(h) && Plain(g) && Plain(root) && Plain(q) && Within(g, q) && Within("/", q)
    ensures Graft(h, g, q) == Graft(root, "/", q) <==> h == Untrim(Trim(root) + Trim(g))
  {
    var rest := GraftParts(h, g, q);
    var whole := GraftParts(root, "/", q);
    assert Trim("/") + whole == whole;
    PrefixIff(Trim(h), Trim(root), Trim(g), rest);
    UntrimInjective(Graft(h, g, q), Graft(root, "/", q));
    JoinedPlain(root, g);
    UntrimInjective(h, Untrim(Trim(root) + Trim(g)));
  }

  lemma {:induction false} PrefixIff(h: string, root: string, g: string, rest: string)
    ensures h + rest == root + (g + rest) <==> h == root + g
  {
    assert root + (g + rest) == (root + g) + rest;
    CancelRight(h, root + g, rest);
  }
}
