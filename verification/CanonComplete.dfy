/**
What the levels of canonicalization can not refuse: a path that meets at most
three links is resolved, or fails for the reason that the file-system gives.
 */
module CanonComplete {
  import opened Common
  import opened Paths
  import opened CanonIdeal
  import Canon

  /** What becomes of a path without any limit on links, and how many links are met: it
      arrives, or it is stuck at a place that is not last and can not be passed. */
  datatype Fate = Arrives(stack: seq<string>, links: nat) | Stuck(at: string, links: nat) | Endless

  function More(f: Fate, n: nat): Fate {
    match f
    case Arrives(s, links) => Arrives(s, n + links)
    case Stuck(at, links) => Stuck(at, n + links)
    case Endless => Endless
  }

  /** The next component is a link that is followed. */
  predicate Follows(fs: string -> Node, k: Config, deref: bool)
    requires k.cs != []
  {
    k.cs[0] != "." && k.cs[0] != ".." && fs(Render(k.stack + [k.cs[0]])).Link? && (|k.cs| > 1 || deref)
  }

  function FateOf(fs: string -> Node, k: Config, deref: bool, fuel: nat): Fate
    decreases fuel
  {
    if k.cs == [] then Arrives(k.stack, 0)
    else if fuel == 0 then Endless
    else
      match Step(fs, k, deref)
      case None => Stuck(Render(k.stack + [k.cs[0]]), 0)
      case Some(k') => More(FateOf(fs, k', deref, fuel - 1), if Follows(fs, k, deref) then 1 else 0)
  }

  /** Arriving is what the unbounded resolution does. */
  lemma {:induction false} FateIsIdeal(fs: string -> Node, k: Config, deref: bool, fuel: nat)
    ensures Ideal(fs, k, deref, fuel)
            == match FateOf(fs, k, deref, fuel) case Arrives(s, _) => Some(s) case _ => None
    decreases fuel
  {
    if k.cs != [] && fuel > 0 {
      match Step(fs, k, deref)
      case None =>
      case Some(k') => FateIsIdeal(fs, k', deref, fuel - 1);
    }
  }

  /** Wherever there is still a component to resolve, there is a directory. */
  ghost predicate OnDirectories(fs: string -> Node, k: Config, deref: bool, fuel: nat)
    decreases fuel
  {
    k.cs != [] ==>
      && fs(Render(k.stack)).Directory?
      && (fuel > 0 && Step(fs, k, deref).Some? ==> OnDirectories(fs, Step(fs, k, deref).value, deref, fuel - 1))
  }

  // ---------------------------------------------------------------------
  // Real file-systems
  // ---------------------------------------------------------------------

  /** The root and whatever contains something are directories. */
  ghost predicate Tree(fs: string -> Node) {
    fs("/").Directory? && forall s :: Contained(fs, s)
  }

  predicate Contained(fs: string -> Node, s: seq<string>) {
    AllNames(s) && s != [] && !fs(Render(s)).Missing? ==> fs(Render(s[..|s| - 1])).Directory?
  }

  lemma {:induction false} ParentInTree(fs: string -> Node, s: seq<string>)
    requires Tree(fs) && AllNames(s) && fs(Render(s)).Directory?
    ensures AllNames(Apply(s, "..")) && fs(Render(Apply(s, ".."))).Directory?
  {
    assert Contained(fs, s);
    if s == [] {
      assert Render([]) == "/";
    }
  }

  lemma {:induction false} PiecesOf(a: seq<string>, c: string, rest: seq<string>)
    requires AllPieces([c] + rest) && AllPieces(a)
    ensures c != "" && '/' !in c && AllPieces(rest) && AllPieces(a + rest)
  {
    assert ([c] + rest)[0] == c;
    assert forall i :: 0 <= i < |rest| ==> rest[i] == ([c] + rest)[i + 1];
  }

  lemma {:induction false} LinkOnTree(fs: string -> Node, stack: seq<string>, c: string, rest: seq<string>,
                                      target: string)
    requires Tree(fs) && AllNames(stack) && AllPieces([c] + rest) && fs(Render(stack)).Directory?
    ensures AllNames(From(target, stack)) && AllPieces(Components(target) + rest)
    ensures fs(Render(From(target, stack))).Directory?
  {
    assert Render([]) == "/";
    PiecesOf(Components(target), c, rest);
  }

  lemma {:induction false} StepOnTree(fs: string -> Node, k: Config, deref: bool)
    requires Tree(fs) && AllNames(k.stack) && AllPieces(k.cs) && k.cs != [] && fs(Render(k.stack)).Directory?
    requires Step(fs, k, deref).Some?
    ensures var k' := Step(fs, k, deref).value;
            AllNames(k'.stack) && AllPieces(k'.cs) && (k'.cs != [] ==> fs(Render(k'.stack)).Directory?)
  {
    var c, rest := k.cs[0], k.cs[1..];
    assert k.cs == [c] + rest;
    PiecesOf([], c, rest);
    if c == ".." {
      ParentInTree(fs, k.stack);
      assert Step(fs, k, deref) == Some(Config(Apply(k.stack, c), rest));
    } else if c == "." {
      assert Step(fs, k, deref) == Some(Config(k.stack, rest));
    } else if Follows(fs, k, deref) {
      var target := fs(Render(k.stack + [c])).target;
      LinkOnTree(fs, k.stack, c, rest, target);
      assert Step(fs, k, deref) == Some(Config(From(target, k.stack), Components(target) + rest));
    } else {
      ApplyNames(k.stack, c);
      NameStep(fs, k, deref);
    }
  }

  /** A name that is not followed is a directory, if it is not last. */
  lemma {:induction false} NameStep(fs: string -> Node, k: Config, deref: bool)
    requires k.cs != [] && k.cs[0] != "." && k.cs[0] != ".." && !Follows(fs, k, deref) && Step(fs, k, deref).Some?
    ensures Step(fs, k, deref) == Some(Config(Apply(k.stack, k.cs[0]), k.cs[1..]))
    ensures k.cs[1..] != [] ==> fs(Render(Apply(k.stack, k.cs[0]))).Directory?
  {
  }

  /** In a tree, from a directory, there always is. */
  lemma {:induction false} TreeHasDirectories(fs: string -> Node, k: Config, deref: bool, fuel: nat)
    requires Tree(fs) && AllNames(k.stack) && AllPieces(k.cs) && fs(Render(k.stack)).Directory?
    ensures OnDirectories(fs, k, deref, fuel)
    decreases fuel
  {
    if k.cs != [] && fuel > 0 && Step(fs, k, deref).Some? {
      var k' := Step(fs, k, deref).value;
      StepOnTree(fs, k, deref);
      if k'.cs != [] {
        TreeHasDirectories(fs, k', deref, fuel - 1);
      }
    }
  }

  // ---------------------------------------------------------------------
  // The target of a link, and what follows it
  // ---------------------------------------------------------------------

  /** The target can be passed, or is last. */
  predicate GoesOn(fs: string -> Node, first: Fate, rest: seq<string>) {
    first.Arrives? && (rest == [] || Passable(fs(Render(first.stack))))
  }

  /** How the fate of two lists of components comes from that of the first, all links
      followed, and that of the second from there. */
  ghost predicate Joins(fs: string -> Node, first: Fate, rest: seq<string>, deref: bool, fuel: nat, whole: Fate) {
    match first
    case Endless => false
    case Stuck(_, _) => whole == first
    case Arrives(s, n) =>
      if rest != [] && !Passable(fs(Render(s))) then whole == Stuck(Render(s), n)
      else whole == More(FateOf(fs, Config(s, rest), deref, fuel), n) && OnDirectories(fs, Config(s, rest), deref, fuel)
  }

  lemma {:induction false} JoinsMore(fs: string -> Node, first: Fate, rest: seq<string>, deref: bool, fuel: nat,
                                     whole: Fate, n: nat)
    requires Joins(fs, first, rest, deref, fuel, whole)
    ensures Joins(fs, More(first, n), rest, deref, fuel, More(whole, n))
  {
    if GoesOn(fs, first, rest) {
      var second := FateOf(fs, Config(first.stack, rest), deref, fuel);
      MoreMore(second, first.links, n);
      assert whole == More(second, first.links);
      assert More(first, n) == Arrives(first.stack, n + first.links);
    }
  }

  lemma {:induction false} MoreMore(f: Fate, a: nat, b: nat)
    ensures More(More(f, a), b) == More(f, b + a)
  {
  }

  /** The first step of both, when the first list goes on or its end can be passed. */
  lemma {:induction false} SameStep(fs: string -> Node, k: Config, rest: seq<string>, deref: bool, k': Config)
    requires k.cs != [] && Step(fs, k, true) == Some(k') && (rest == [] ==> deref)
    requires rest != [] && k'.cs == [] ==> Passable(fs(Render(k'.stack)))
    ensures var whole := Config(k.stack, k.cs + rest);
            && Step(fs, whole, deref) == Some(Config(k'.stack, k'.cs + rest))
            && (Follows(fs, whole, deref) <==> Follows(fs, k, true))
  {
    StepAppend(fs, k, rest, deref);
    assert (k.cs + rest)[0] == k.cs[0];
  }

  /** A place at the end of the first list that can not be passed. */
  lemma {:induction false} StuckBetween(fs: string -> Node, k: Config, rest: seq<string>, deref: bool, k': Config)
    requires k.cs != [] && Step(fs, k, true) == Some(k') && rest != [] && k'.cs == []
    requires !Passable(fs(Render(k'.stack)))
    ensures var whole := Config(k.stack, k.cs + rest);
            if Step(fs, whole, deref).None? then k'.stack == k.stack + [k.cs[0]] && !Follows(fs, k, true)
            else Step(fs, whole, deref) == Some(Config(k'.stack, rest))
  {
    var c := k.cs[0];
    assert (k.cs + rest)[0] == c && (k.cs + rest)[1..] == k.cs[1..] + rest;
    if k.cs[1..] == [] {
      assert k.cs[1..] + rest == rest;
    }
    if Follows(fs, k, true) {
      var target := fs(Render(k.stack + [c])).target;
      assert Components(target) + k.cs[1..] == [];
      assert Components(target) + (k.cs[1..] + rest) == rest;
    }
  }

  lemma {:induction false} StuckBefore(fs: string -> Node, k: Config, rest: seq<string>, deref: bool)
    requires k.cs != [] && Step(fs, k, true).None?
    ensures Step(fs, Config(k.stack, k.cs + rest), deref).None? && (k.cs + rest)[0] == k.cs[0]
  {
    assert (k.cs + rest)[1..] == k.cs[1..] + rest;
  }

  lemma {:induction false} FateSplit(fs: string -> Node, k: Config, rest: seq<string>, deref: bool, fuel: nat)
    returns (left: nat)
    requires rest == [] ==> deref
    requires OnDirectories(fs, Config(k.stack, k.cs + rest), deref, fuel)
    requires !FateOf(fs, Config(k.stack, k.cs + rest), deref, fuel).Endless?
    ensures left <= fuel && OnDirectories(fs, k, true, fuel)
    ensures Joins(fs, FateOf(fs, k, true, fuel), rest, deref, left,
                  FateOf(fs, Config(k.stack, k.cs + rest), deref, fuel))
    decreases fuel
  {
    var whole := Config(k.stack, k.cs + rest);
    left := fuel;
    if k.cs == [] {
      assert k.cs + rest == rest;
    } else if Step(fs, k, true).None? {
      StuckBefore(fs, k, rest, deref);
    } else {
      left := SplitOn(fs, k, rest, deref, fuel, Step(fs, k, true).value);
    }
  }

  lemma {:induction false} SplitOn(fs: string -> Node, k: Config, rest: seq<string>, deref: bool, fuel: nat, k': Config)
    returns (left: nat)
    requires (rest == [] ==> deref) && k.cs != [] && Step(fs, k, true) == Some(k')
    requires OnDirectories(fs, Config(k.stack, k.cs + rest), deref, fuel)
    requires !FateOf(fs, Config(k.stack, k.cs + rest), deref, fuel).Endless?
    ensures left <= fuel && OnDirectories(fs, k, true, fuel)
    ensures Joins(fs, FateOf(fs, k, true, fuel), rest, deref, left,
                  FateOf(fs, Config(k.stack, k.cs + rest), deref, fuel))
    decreases fuel, 0
  {
    var whole := Config(k.stack, k.cs + rest);
    if rest != [] && k'.cs == [] && !Passable(fs(Render(k'.stack))) {
      StuckBetween(fs, k, rest, deref, k');
      left := 0;
    } else {
      SameStep(fs, k, rest, deref, k');
      left := FateSplit(fs, k', rest, deref, fuel - 1);
      JoinsMore(fs, FateOf(fs, k', true, fuel - 1), rest, deref, left,
                FateOf(fs, Config(k'.stack, k'.cs + rest), deref, fuel - 1), if Follows(fs, k, true) then 1 else 0);
    }
  }

  // ---------------------------------------------------------------------
  // The resolution with levels
  // ---------------------------------------------------------------------

  /** What is to come of a path with this fate. */
  ghost predicate Meets(fs: string -> Node, f: Fate, links: nat, r: Result<Perch>) {
    match f
    case Arrives(s, n) => r.Ok? && r.value.stack == s && r.value.links == links + n
    case Stuck(at, _) => r == Err(if fs(at).Missing? then ENOENT else ENOTDIR)
    case Endless => true
  }

  /** From there, the path meets no more links than there are levels left. */
  ghost predicate Bounded(fs: string -> Node, p: Perch, cs: seq<string>, deref: bool, level: nat, fuel: nat) {
    var f := FateOf(fs, Config(p.stack, cs), deref, fuel);
    OnDirectories(fs, Config(p.stack, cs), deref, fuel) && !f.Endless? && level + p.followed + f.links <= MAX_LEVEL
  }

  ghost predicate Met(fs: string -> Node, p: Perch, cs: seq<string>, deref: bool, level: nat, fuel: nat) {
    Meets(fs, FateOf(fs, Config(p.stack, cs), deref, fuel), p.links, Climb(fs, p, cs, deref, level))
  }

  /** A path that meets no more links than there are levels left meets its fate. */
  lemma {:induction false} ClimbMeets(fs: string -> Node, p: Perch, cs: seq<string>, deref: bool, level: nat, fuel: nat)
    requires Bounded(fs, p, cs, deref, level, fuel)
    ensures Met(fs, p, cs, deref, level, fuel)
    decreases fuel, 1
  {
    if cs != [] {
      var k := Config(p.stack, cs);
      if Follows(fs, k, deref) {
        LinkMeets(fs, p, cs, deref, level, fuel);
      } else if Step(fs, k, deref).Some? {
        NameClimbs(fs, p, cs, deref, level);
        ClimbMeets(fs, p.(stack := Step(fs, k, deref).value.stack), cs[1..], deref, level, fuel - 1);
      } else {
        NameStuck(fs, p, cs, deref, level);
      }
    }
  }

  lemma {:induction false} NameClimbs(fs: string -> Node, p: Perch, cs: seq<string>, deref: bool, level: nat)
    requires cs != [] && !Follows(fs, Config(p.stack, cs), deref) && Step(fs, Config(p.stack, cs), deref).Some?
    ensures var k' := Step(fs, Config(p.stack, cs), deref).value;
            && k'.cs == cs[1..]
            && Climb(fs, p, cs, deref, level) == Climb(fs, p.(stack := k'.stack), cs[1..], deref, level)
  {
  }

  lemma {:induction false} NameStuck(fs: string -> Node, p: Perch, cs: seq<string>, deref: bool, level: nat)
    requires cs != [] && !Follows(fs, Config(p.stack, cs), deref) && Step(fs, Config(p.stack, cs), deref).None?
    ensures Climb(fs, p, cs, deref, level)
            == Err(if fs(Render(p.stack + [cs[0]])).Missing? then ENOENT else ENOTDIR)
  {
  }

  /** A link, its target resolved one level up. */
  lemma {:induction false} LinkMeets(fs: string -> Node, p: Perch, cs: seq<string>, deref: bool, level: nat, fuel: nat)
    requires cs != [] && Follows(fs, Config(p.stack, cs), deref) && Bounded(fs, p, cs, deref, level, fuel)
    ensures Met(fs, p, cs, deref, level, fuel)
    decreases fuel, 0
  {
    var target := fs(Render(p.stack + [cs[0]])).target;
    var from, tcs, rest := From(target, p.stack), Components(target), cs[1..];
    LinkUnfolds(fs, p, cs, deref, fuel, target);
    TargetMeets(fs, p, from, tcs, rest, deref, level, fuel - 1);
    LinkClimbs(fs, p, cs, deref, level, target, Climb(fs, Start(from), tcs, true, level + p.followed + 1));
  }

  lemma {:induction false} LinkUnfolds(fs: string -> Node, p: Perch, cs: seq<string>, deref: bool, fuel: nat,
                                       target: string)
    requires cs != [] && Follows(fs, Config(p.stack, cs), deref) && fs(Render(p.stack + [cs[0]])) == Link(target)
    requires OnDirectories(fs, Config(p.stack, cs), deref, fuel)
    requires !FateOf(fs, Config(p.stack, cs), deref, fuel).Endless?
    ensures fuel > 0
    ensures var next := Config(From(target, p.stack), Components(target) + cs[1..]);
            && OnDirectories(fs, next, deref, fuel - 1) && !FateOf(fs, next, deref, fuel - 1).Endless?
            && FateOf(fs, Config(p.stack, cs), deref, fuel) == More(FateOf(fs, next, deref, fuel - 1), 1)
            && (cs[1..] == [] ==> deref)
  {
    LinkStep(fs, p, cs, deref, target);
  }

  /** What is made of the target, and of what follows the link. */
  ghost function Linked(fs: string -> Node, p: Perch, q: Result<Perch>, rest: seq<string>, deref: bool, level: nat)
    : Result<Perch>
  {
    if q.Err? then Err(q.errno)
    else if rest != [] && !Passable(fs(Render(q.value.stack)))
    then Err(if fs(Render(q.value.stack)).Missing? then ENOENT else ENOTDIR)
    else Climb(fs, Perch(q.value.stack, p.followed + 1, p.links + 1 + q.value.links), rest, deref, level)
  }

  lemma {:induction false} TargetMeets(fs: string -> Node, p: Perch, from: seq<string>, tcs: seq<string>,
                                       rest: seq<string>, deref: bool, level: nat, fuel: nat)
    requires (rest == [] ==> deref) && OnDirectories(fs, Config(from, tcs + rest), deref, fuel)
    requires var f := FateOf(fs, Config(from, tcs + rest), deref, fuel);
             !f.Endless? && level + p.followed + 1 + f.links <= MAX_LEVEL
    ensures LinkMet(fs, p, from, tcs, rest, deref, level, fuel)
    decreases fuel, 2
  {
    var up := level + p.followed + 1;
    var left, first, whole := Parts(fs, p, from, tcs, rest, deref, level, fuel);
    ClimbMeets(fs, Start(from), tcs, true, up, fuel);
    if GoesOn(fs, first, rest) {
      ClimbMeets(fs, Beyond(p, first), rest, deref, level, left);
    }
    LinkDone(fs, p, from, tcs, first, rest, deref, level, fuel, left, whole);
  }

  /** A link whose target is `tcs` from `from`, and what follows it. */
  ghost predicate LinkMet(fs: string -> Node, p: Perch, from: seq<string>, tcs: seq<string>, rest: seq<string>,
                          deref: bool, level: nat, fuel: nat)
  {
    Meets(fs, More(FateOf(fs, Config(from, tcs + rest), deref, fuel), 1), p.links,
          Linked(fs, p, Climb(fs, Start(from), tcs, true, level + p.followed + 1), rest, deref, level))
  }

  /** Behind a link whose target arrives. */
  function Beyond(p: Perch, first: Fate): Perch
    requires first.Arrives?
  {
    Perch(first.stack, p.followed + 1, p.links + 1 + first.links)
  }

  lemma {:induction false} Parts(fs: string -> Node, p: Perch, from: seq<string>, tcs: seq<string>,
                                 rest: seq<string>, deref: bool, level: nat, fuel: nat)
    returns (left: nat, first: Fate, whole: Fate)
    requires (rest == [] ==> deref) && OnDirectories(fs, Config(from, tcs + rest), deref, fuel)
    requires var f := FateOf(fs, Config(from, tcs + rest), deref, fuel);
             !f.Endless? && level + p.followed + 1 + f.links <= MAX_LEVEL
    ensures left <= fuel
    ensures first == FateOf(fs, Config(from, tcs), true, fuel)
    ensures whole == FateOf(fs, Config(from, tcs + rest), deref, fuel)
    ensures Joins(fs, first, rest, deref, left, whole)
    ensures Bounded(fs, Start(from), tcs, true, level + p.followed + 1, fuel)
    ensures GoesOn(fs, first, rest) ==> Bounded(fs, Beyond(p, first), rest, deref, level, left)
  {
    left := FateSplit(fs, Config(from, tcs), rest, deref, fuel);
    first, whole := FateOf(fs, Config(from, tcs), true, fuel), FateOf(fs, Config(from, tcs + rest), deref, fuel);
    LinksOfParts(fs, first, rest, deref, left, whole);
  }

  /** A link and what follows it, put together. */
  lemma {:induction false} LinkDone(fs: string -> Node, p: Perch, from: seq<string>, tcs: seq<string>, first: Fate,
                                    rest: seq<string>, deref: bool, level: nat, fuel: nat, left: nat, whole: Fate)
    requires first == FateOf(fs, Config(from, tcs), true, fuel)
    requires whole == FateOf(fs, Config(from, tcs + rest), deref, fuel)
    requires Joins(fs, first, rest, deref, left, whole)
    requires Met(fs, Start(from), tcs, true, level + p.followed + 1, fuel)
    requires GoesOn(fs, first, rest) ==> Met(fs, Beyond(p, first), rest, deref, level, left)
    ensures LinkMet(fs, p, from, tcs, rest, deref, level, fuel)
  {
    LinkJoins(fs, p, first, rest, deref, level, left, whole, Climb(fs, Start(from), tcs, true, level + p.followed + 1));
  }

  lemma {:induction false} LinkJoins(fs: string -> Node, p: Perch, first: Fate, rest: seq<string>, deref: bool,
                                     level: nat, left: nat, whole: Fate, q: Result<Perch>)
    requires Joins(fs, first, rest, deref, left, whole) && Meets(fs, first, 0, q)
    requires GoesOn(fs, first, rest) ==> Met(fs, Beyond(p, first), rest, deref, level, left)
    ensures Meets(fs, More(whole, 1), p.links, Linked(fs, p, q, rest, deref, level))
  {
  }

  lemma {:induction false} LinkStep(fs: string -> Node, p: Perch, cs: seq<string>, deref: bool, target: string)
    requires cs != [] && Follows(fs, Config(p.stack, cs), deref) && fs(Render(p.stack + [cs[0]])) == Link(target)
    ensures Step(fs, Config(p.stack, cs), deref)
            == Some(Config(From(target, p.stack), Components(target) + cs[1..]))
  {
  }

  lemma {:induction false} LinksOfParts(fs: string -> Node, first: Fate, rest: seq<string>, deref: bool, fuel: nat,
                                        whole: Fate)
    requires Joins(fs, first, rest, deref, fuel, whole) && !whole.Endless?
    ensures !first.Endless? && first.links <= whole.links
    ensures GoesOn(fs, first, rest) ==>
              var second := FateOf(fs, Config(first.stack, rest), deref, fuel);
              !second.Endless? && whole.links == first.links + second.links
  {
  }

  /** What following a link comes to. */
  lemma {:induction false} LinkClimbs(fs: string -> Node, p: Perch, cs: seq<string>, deref: bool, level: nat,
                                      target: string, q: Result<Perch>)
    requires cs != [] && Follows(fs, Config(p.stack, cs), deref) && fs(Render(p.stack + [cs[0]])) == Link(target)
    requires level + p.followed < MAX_LEVEL
    requires q == Climb(fs, Start(From(target, p.stack)), Components(target), true, level + p.followed + 1)
    ensures Climb(fs, p, cs, deref, level) == Linked(fs, p, q, cs[1..], deref, level)
  {
  }

  /** Canonicalization can not refuse a path that meets at most three links: if its
      unbounded resolution arrives, so does the walk, at the same place; if that is stuck
      at a place that is missing, the walk says ENOENT, and ENOTDIR at one that is neither
      a directory nor a link. */
  lemma {:induction false} ReachedComplete(fs: string -> Node, userPath: string, derefFinal: bool, base: seq<string>,
                                           fuel: nat)
    requires var k, d := Config(base, Components(userPath)), derefFinal || Canon.EndsInSlash(userPath);
             OnDirectories(fs, k, d, fuel) && !FateOf(fs, k, d, fuel).Endless? && FateOf(fs, k, d, fuel).links <= 3
    ensures var k, d := Config(base, Components(userPath)), derefFinal || Canon.EndsInSlash(userPath);
            var r := Canon.Reached(fs, userPath, derefFinal, 0, base);
            match FateOf(fs, k, d, fuel)
            case Arrives(s, n) => r.Ok? && r.value.stack == s && r.value.links == n
            case Stuck(at, _) => r == Err(if fs(at).Missing? then ENOENT else ENOTDIR)
            case Endless => true
  {
    var d := derefFinal || Canon.EndsInSlash(userPath);
    ClimbMeets(fs, Start(base), Components(userPath), d, 0, fuel);
  }

  // ---------------------------------------------------------------------
  // Nothing but the links is refused for another reason
  // ---------------------------------------------------------------------

  /** More fuel changes nothing. */
  lemma {:induction false} FuelGrows(fs: string -> Node, k: Config, deref: bool, fuel: nat, more: nat)
    requires !FateOf(fs, k, deref, fuel).Endless?
    ensures FateOf(fs, k, deref, fuel + more) == FateOf(fs, k, deref, fuel)
    decreases fuel
  {
    if k.cs != [] && Step(fs, k, deref).Some? {
      FuelGrows(fs, Step(fs, k, deref).value, deref, fuel - 1, more);
    }
  }

  /** There always is a directory where there is still a component to resolve. */
  ghost predicate Grounded(fs: string -> Node, k: Config, deref: bool) {
    forall fuel: nat :: OnDirectories(fs, k, deref, fuel)
  }

  lemma {:induction false} GroundedStep(fs: string -> Node, k: Config, deref: bool, k': Config)
    requires Grounded(fs, k, deref) && k.cs != [] && Step(fs, k, deref) == Some(k')
    ensures Grounded(fs, k', deref) && fs(Render(k.stack)).Directory?
  {
    forall fuel: nat ensures OnDirectories(fs, k', deref, fuel) {
      assert OnDirectories(fs, k, deref, fuel + 1);
    }
    assert OnDirectories(fs, k, deref, 0);
  }

  lemma {:induction false} GroundedHere(fs: string -> Node, k: Config, deref: bool)
    requires Grounded(fs, k, deref) && k.cs != []
    ensures fs(Render(k.stack)).Directory?
  {
    assert OnDirectories(fs, k, deref, 0);
  }

  /** The target of a link, all links followed. */
  lemma {:induction false} FirstOnDirectories(fs: string -> Node, k: Config, rest: seq<string>, deref: bool, fuel: nat)
    requires Grounded(fs, Config(k.stack, k.cs + rest), deref) && (rest == [] ==> deref)
    ensures OnDirectories(fs, k, true, fuel)
    decreases fuel
  {
    var whole := Config(k.stack, k.cs + rest);
    if k.cs != [] {
      GroundedHere(fs, whole, deref);
      if fuel > 0 && Step(fs, k, true).Some? && Step(fs, k, true).value.cs != [] {
        var k' := Step(fs, k, true).value;
        SameStep(fs, k, rest, deref, k');
        GroundedStep(fs, whole, deref, Config(k'.stack, k'.cs + rest));
        FirstOnDirectories(fs, k', rest, deref, fuel - 1);
      }
    }
  }

  lemma {:induction false} FirstGrounded(fs: string -> Node, k: Config, rest: seq<string>, deref: bool)
    requires Grounded(fs, Config(k.stack, k.cs + rest), deref) && (rest == [] ==> deref)
    ensures Grounded(fs, k, true)
  {
    forall fuel: nat ensures OnDirectories(fs, k, true, fuel) {
      FirstOnDirectories(fs, k, rest, deref, fuel);
    }
  }

  lemma {:induction false} FateStep(fs: string -> Node, k: Config, deref: bool, fuel: nat, k': Config)
    requires k.cs != [] && fuel > 0 && Step(fs, k, deref) == Some(k')
    ensures FateOf(fs, k, deref, fuel)
            == More(FateOf(fs, k', deref, fuel - 1), if Follows(fs, k, deref) then 1 else 0)
  {
  }

  /** The fate of two lists of components, from that of each. */
  ghost predicate Appends(fs: string -> Node, first: Fate, rest: seq<string>, deref: bool, more: nat, whole: Fate) {
    match first
    case Endless => false
    case Stuck(_, _) => whole == first
    case Arrives(s, n) =>
      var second := FateOf(fs, Config(s, rest), deref, more);
      if rest != [] && !Passable(fs(Render(s))) then whole == Stuck(Render(s), n)
      else Grounded(fs, Config(s, rest), deref) && (second.Endless? || whole == More(second, n))
  }

  ghost predicate AppendsAt(fs: string -> Node, k: Config, rest: seq<string>, deref: bool, fuel: nat, more: nat) {
    Appends(fs, FateOf(fs, k, true, fuel), rest, deref, more,
            FateOf(fs, Config(k.stack, k.cs + rest), deref, fuel + more))
  }

  /** The first step of both. */
  lemma {:induction false} StepAppends(fs: string -> Node, k: Config, rest: seq<string>, deref: bool, fuel: nat,
                                       more: nat, k': Config)
    requires k.cs != [] && Step(fs, k, true) == Some(k') && fuel > 0
    requires var whole := Config(k.stack, k.cs + rest);
             && Step(fs, whole, deref) == Some(Config(k'.stack, k'.cs + rest))
             && (Follows(fs, whole, deref) <==> Follows(fs, k, true))
    requires AppendsAt(fs, k', rest, deref, fuel - 1, more)
    ensures AppendsAt(fs, k, rest, deref, fuel, more)
  {
    var whole, next := Config(k.stack, k.cs + rest), Config(k'.stack, k'.cs + rest);
    var n := if Follows(fs, k, true) then 1 else 0;
    FateStep(fs, k, true, fuel, k');
    FateStep(fs, whole, deref, fuel + more, next);
    AppendsMore(fs, FateOf(fs, k', true, fuel - 1), rest, deref, more, FateOf(fs, next, deref, fuel - 1 + more), n);
  }

  lemma {:induction false} AppendsMore(fs: string -> Node, first: Fate, rest: seq<string>, deref: bool, more: nat,
                                       whole: Fate, n: nat)
    requires Appends(fs, first, rest, deref, more, whole)
    ensures Appends(fs, More(first, n), rest, deref, more, More(whole, n))
  {
    if GoesOn(fs, first, rest) {
      var second := FateOf(fs, Config(first.stack, rest), deref, more);
      MoreMore(second, first.links, n);
      assert More(first, n) == Arrives(first.stack, n + first.links);
    }
  }

  lemma {:induction false} FateAppend(fs: string -> Node, k: Config, rest: seq<string>, deref: bool, fuel: nat,
                                      more: nat)
    requires Grounded(fs, Config(k.stack, k.cs + rest), deref) && (rest == [] ==> deref)
    requires !FateOf(fs, k, true, fuel).Endless?
    ensures AppendsAt(fs, k, rest, deref, fuel, more)
    decreases fuel
  {
    if k.cs == [] {
      AppendNothing(fs, k, rest, deref, fuel, more);
    } else if Step(fs, k, true).None? {
      StuckBefore(fs, k, rest, deref);
    } else {
      AppendOn(fs, k, rest, deref, fuel, more, Step(fs, k, true).value);
    }
  }

  lemma {:induction false} AppendNothing(fs: string -> Node, k: Config, rest: seq<string>, deref: bool, fuel: nat,
                                         more: nat)
    requires Grounded(fs, Config(k.stack, k.cs + rest), deref) && k.cs == []
    ensures AppendsAt(fs, k, rest, deref, fuel, more)
  {
    var second := Config(k.stack, rest);
    assert k.cs + rest == rest;
    if rest != [] {
      GroundedHere(fs, second, deref);
    }
    if !FateOf(fs, second, deref, more).Endless? {
      FuelGrows(fs, second, deref, more, fuel);
    }
  }

  lemma {:induction false} AppendOn(fs: string -> Node, k: Config, rest: seq<string>, deref: bool, fuel: nat, more: nat,
                                    k': Config)
    requires Grounded(fs, Config(k.stack, k.cs + rest), deref) && (rest == [] ==> deref)
    requires k.cs != [] && Step(fs, k, true) == Some(k') && !FateOf(fs, k, true, fuel).Endless?
    ensures AppendsAt(fs, k, rest, deref, fuel, more)
    decreases fuel, 0
  {
    var whole := Config(k.stack, k.cs + rest);
    if rest != [] && k'.cs == [] && !Passable(fs(Render(k'.stack))) {
      AppendStuck(fs, k, rest, deref, fuel, more, k');
    } else {
      SameStep(fs, k, rest, deref, k');
      GroundedStep(fs, whole, deref, Config(k'.stack, k'.cs + rest));
      FateAppend(fs, k', rest, deref, fuel - 1, more);
      StepAppends(fs, k, rest, deref, fuel, more, k');
    }
  }

  lemma {:induction false} AppendStuck(fs: string -> Node, k: Config, rest: seq<string>, deref: bool, fuel: nat,
                                       more: nat, k': Config)
    requires Grounded(fs, Config(k.stack, k.cs + rest), deref) && rest != []
    requires k.cs != [] && Step(fs, k, true) == Some(k') && k'.cs == [] && !Passable(fs(Render(k'.stack))) && fuel > 0
    ensures AppendsAt(fs, k, rest, deref, fuel, more)
  {
    var whole := Config(k.stack, k.cs + rest);
    StuckBetween(fs, k, rest, deref, k');
    if Step(fs, whole, deref).Some? {
      GroundedStep(fs, whole, deref, Config(k'.stack, rest));
      GroundedHere(fs, Config(k'.stack, rest), deref);
    }
    FateStep(fs, k, true, fuel, k');
    assert (k.cs + rest)[0] == k.cs[0];
  }

  /** The path is stuck, and for this reason. */
  ghost predicate StuckFor(fs: string -> Node, f: Fate, e: Errno) {
    f.Stuck? && e == if fs(f.at).Missing? then ENOENT else ENOTDIR
  }

  lemma {:induction false} StuckMore(fs: string -> Node, f: Fate, e: Errno, n: nat)
    requires StuckFor(fs, f, e)
    ensures StuckFor(fs, More(f, n), e)
  {
  }

  /** A path that is refused other than for its links is stuck, for the reason that is told. */
  lemma {:induction false} RefusedIsStuck(fs: string -> Node, p: Perch, cs: seq<string>, deref: bool, level: nat,
                                          e: Errno)
    returns (fuel: nat)
    requires Grounded(fs, Config(p.stack, cs), deref) && Climb(fs, p, cs, deref, level) == Err(e) && e != ELOOP
    ensures StuckFor(fs, FateOf(fs, Config(p.stack, cs), deref, fuel), e)
    decreases Height(level), |cs|, 1
  {
    var k := Config(p.stack, cs);
    if Follows(fs, k, deref) {
      fuel := RefusedLink(fs, p, cs, deref, level, e);
    } else if Step(fs, k, deref).Some? {
      var k' := Step(fs, k, deref).value;
      NameClimbs(fs, p, cs, deref, level);
      GroundedStep(fs, k, deref, k');
      var rest := RefusedIsStuck(fs, p.(stack := k'.stack), cs[1..], deref, level, e);
      fuel := rest + 1;
      FateStep(fs, k, deref, fuel, k');
      StuckMore(fs, FateOf(fs, k', deref, rest), e, 0);
    } else {
      NameStuck(fs, p, cs, deref, level);
      fuel := 1;
    }
  }

  /** A link that is refused other than for the links is met below the last level. */
  lemma {:induction false} LinkLimit(fs: string -> Node, p: Perch, cs: seq<string>, deref: bool, level: nat, e: Errno)
    requires cs != [] && Follows(fs, Config(p.stack, cs), deref)
    requires Climb(fs, p, cs, deref, level) == Err(e) && e != ELOOP
    ensures level + p.followed < MAX_LEVEL
  {
  }

  /** What is reached within the levels is where the path arrives. */
  lemma {:induction false} ArrivalOf(fs: string -> Node, p: Perch, cs: seq<string>, level: nat, q: Perch)
    returns (fuel: nat)
    requires Climb(fs, p, cs, true, level) == Ok(q)
    ensures FateOf(fs, Config(p.stack, cs), true, fuel).Arrives?
    ensures FateOf(fs, Config(p.stack, cs), true, fuel).stack == q.stack
  {
    ClimbReaches(fs, p, cs, true, level, q);
    fuel :| Ideal(fs, Config(p.stack, cs), true, fuel) == Some(q.stack);
    FateIsIdeal(fs, Config(p.stack, cs), true, fuel);
  }

  lemma {:induction false} RefusedLink(fs: string -> Node, p: Perch, cs: seq<string>, deref: bool, level: nat, e: Errno)
    returns (fuel: nat)
    requires Grounded(fs, Config(p.stack, cs), deref) && Climb(fs, p, cs, deref, level) == Err(e) && e != ELOOP
    requires cs != [] && Follows(fs, Config(p.stack, cs), deref)
    ensures StuckFor(fs, FateOf(fs, Config(p.stack, cs), deref, fuel), e)
    decreases Height(level), |cs|, 0
  {
    var target, rest := fs(Render(p.stack + [cs[0]])).target, cs[1..];
    var from, tcs := From(target, p.stack), Components(target);
    var next := Config(from, tcs + rest);
    LinkStep(fs, p, cs, deref, target);
    GroundedStep(fs, Config(p.stack, cs), deref, next);
    LinkLimit(fs, p, cs, deref, level, e);
    LinkClimbs(fs, p, cs, deref, level, target, Climb(fs, Start(from), tcs, true, level + p.followed + 1));
    var joint := RefusedTarget(fs, p, from, tcs, rest, deref, level, e);
    StuckMore(fs, FateOf(fs, next, deref, joint), e, 1);
    fuel := joint + 1;
    FateStep(fs, Config(p.stack, cs), deref, fuel, next);
  }

  lemma {:induction false} RefusedTarget(fs: string -> Node, p: Perch, from: seq<string>, tcs: seq<string>,
                                         rest: seq<string>, deref: bool, level: nat, e: Errno)
    returns (fuel: nat)
    requires Grounded(fs, Config(from, tcs + rest), deref) && (rest == [] ==> deref)
    requires level + p.followed < MAX_LEVEL && e != ELOOP
    requires Linked(fs, p, Climb(fs, Start(from), tcs, true, level + p.followed + 1), rest, deref, level) == Err(e)
    ensures StuckFor(fs, FateOf(fs, Config(from, tcs + rest), deref, fuel), e)
    decreases Height(level), |rest|, 3
  {
    var q := Climb(fs, Start(from), tcs, true, level + p.followed + 1);
    if q.Err? {
      FirstGrounded(fs, Config(from, tcs), rest, deref);
      fuel := RefusedIsStuck(fs, Start(from), tcs, true, level + p.followed + 1, e);
      FateAppend(fs, Config(from, tcs), rest, deref, fuel, 0);
    } else {
      var first := ArrivalOf(fs, Start(from), tcs, level + p.followed + 1, q.value);
      fuel := RefusedBehind(fs, p, from, tcs, rest, deref, level, e, first, q.value);
    }
  }

  /** Refused behind a target that arrives. */
  lemma {:induction false} RefusedBehind(fs: string -> Node, p: Perch, from: seq<string>, tcs: seq<string>,
                                         rest: seq<string>, deref: bool, level: nat, e: Errno, first: nat, q: Perch)
    returns (fuel: nat)
    requires Grounded(fs, Config(from, tcs + rest), deref) && (rest == [] ==> deref) && e != ELOOP
    requires Linked(fs, p, Ok(q), rest, deref, level) == Err(e)
    requires var f := FateOf(fs, Config(from, tcs), true, first); f.Arrives? && f.stack == q.stack
    ensures StuckFor(fs, FateOf(fs, Config(from, tcs + rest), deref, fuel), e)
    decreases Height(level), |rest|, 2
  {
    FateAppend(fs, Config(from, tcs), rest, deref, first, 0);
    fuel := first;
    if rest == [] || Passable(fs(Render(q.stack))) {
      var more := RefusedIsStuck(fs, Perch(q.stack, p.followed + 1, p.links + 1 + q.links), rest, deref, level, e);
      FateAppend(fs, Config(from, tcs), rest, deref, first, more);
      StuckMore(fs, FateOf(fs, Config(q.stack, rest), deref, more), e,
                FateOf(fs, Config(from, tcs), true, first).links);
      fuel := first + more;
    }
  }

  /** On a real file-system the walk never gives a wrong reason: ENOENT means that the path
      is stuck at a place that is missing, ENOTDIR that it is at one that is neither a
      directory nor a link; there is no other errno but ELOOP. */
  lemma {:induction false} RefusalIsTrue(fs: string -> Node, userPath: string, derefFinal: bool, base: seq<string>,
                                         e: Errno)
    returns (fuel: nat)
    requires Tree(fs) && AllNames(base) && fs(Render(base)).Directory?
    requires Canon.Reached(fs, userPath, derefFinal, 0, base) == Err(e) && e != ELOOP
    ensures var d := derefFinal || Canon.EndsInSlash(userPath);
            var f := FateOf(fs, Config(base, Components(userPath)), d, fuel);
            f.Stuck? && e == if fs(f.at).Missing? then ENOENT else ENOTDIR
  {
    var d := derefFinal || Canon.EndsInSlash(userPath);
    var k := Config(base, Components(userPath));
    forall fuel: nat ensures OnDirectories(fs, k, d, fuel) {
      TreeHasDirectories(fs, k, d, fuel);
    }
    fuel := RefusedIsStuck(fs, Start(base), Components(userPath), d, 0, e);
  }
}
