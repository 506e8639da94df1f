/**
What resolving a path means, without any limit on links: a link is replaced
by its target in the list of components still to be resolved.
 */
module CanonIdeal {
  import opened Common
  import opened Paths

  /** What stat and readlink tell of a guest path; a target is in guest terms. */
  datatype Node = Missing | Directory | Other | Link(target: string)

  predicate Absolute(p: string) { p != "" && p[0] == '/' }

  /** What may stand before the last position. */
  predicate Passable(node: Node) { node.Directory? || node.Link? }

  /** What is answered otherwise. */
  function Refusal(node: Node): Errno {
    if node.Missing? then ENOENT else ENOTDIR
  }

  /** A stack of names and the components still to be resolved. */
  datatype Config = Config(stack: seq<string>, cs: seq<string>)

  /** One component resolved.  A link in last position is followed if `deref`;
      anything before the last position must be a directory. */
  function Step(fs: string -> Node, k: Config, deref: bool): Option<Config>
    requires k.cs != []
  {
    var c, rest := k.cs[0], k.cs[1..];
    if c == "." || c == ".." then Some(Config(Apply(k.stack, c), rest))
    else
      var node := fs(Render(k.stack + [c]));
      if node.Link? && (rest != [] || deref) then
        Some(Config(if Absolute(node.target) then [] else k.stack, Components(node.target) + rest))
      else if rest != [] && !node.Directory? then None
      else Some(Config(k.stack + [c], rest))
  }

  /** The stack reached in at most `fuel` steps. */
  function Ideal(fs: string -> Node, k: Config, deref: bool, fuel: nat): Option<seq<string>>
    decreases fuel
  {
    if k.cs == [] then Some(k.stack)
    else if fuel == 0 then None
    else
      match Step(fs, k, deref)
      case None => None
      case Some(k') => Ideal(fs, k', deref, fuel - 1)
  }

  lemma {:induction false} UnfoldIdeal(fs: string -> Node, k: Config, deref: bool, f: nat, k': Config)
    requires k.cs != [] && f > 0 && Step(fs, k, deref) == Some(k')
    ensures Ideal(fs, k, deref, f) == Ideal(fs, k', deref, f - 1)
  {
  }

  /** A step is the same with more components behind, unless it puts a name in
      last position, which must then be a directory. */
  lemma {:induction false} StepAppend(fs: string -> Node, k: Config, rest: seq<string>, deref: bool)
    requires k.cs != [] && Step(fs, k, true).Some?
    requires rest == [] ==> deref
    requires var k' := Step(fs, k, true).value;
             rest != [] && k'.cs == [] ==> Passable(fs(Render(k'.stack)))
    ensures Step(fs, Config(k.stack, k.cs + rest), deref)
            == Some(Config(Step(fs, k, true).value.stack, Step(fs, k, true).value.cs + rest))
  {
    var c, r := k.cs[0], k.cs[1..];
    assert (k.cs + rest)[0] == c && (k.cs + rest)[1..] == r + rest;
    if c != "." && c != ".." {
      var node := fs(Render(k.stack + [c]));
      if node.Link? {
        assert Components(node.target) + r + rest == Components(node.target) + (r + rest);
      }
    }
  }

  lemma {:induction false} FirstStep(fs: string -> Node, k: Config, deref: bool, f: nat, s: seq<string>)
    returns (k': Config)
    requires k.cs != [] && Ideal(fs, k, deref, f) == Some(s)
    ensures f > 0 && Step(fs, k, deref) == Some(k') && Ideal(fs, k', deref, f - 1) == Some(s)
    ensures k'.cs == [] ==> k'.stack == s
  {
    k' := Step(fs, k, deref).value;
  }

  ghost predicate Reaches(fs: string -> Node, stack: seq<string>, cs: seq<string>, deref: bool, result: seq<string>) {
    exists fuel: nat :: Ideal(fs, Config(stack, cs), deref, fuel) == Some(result)
  }

  lemma {:induction false} ReachesNothing(fs: string -> Node, stack: seq<string>, deref: bool)
    ensures Reaches(fs, stack, [], deref, stack)
  {
    assert Ideal(fs, Config(stack, []), deref, 0) == Some(stack);
  }

  lemma {:induction false} ReachesStep(fs: string -> Node, k: Config, k': Config, deref: bool, s: seq<string>)
    requires k.cs != [] && Step(fs, k, deref) == Some(k') && Reaches(fs, k'.stack, k'.cs, deref, s)
    ensures Reaches(fs, k.stack, k.cs, deref, s)
  {
    var fuel: nat :| Ideal(fs, Config(k'.stack, k'.cs), deref, fuel) == Some(s);
    UnfoldIdeal(fs, k, deref, fuel + 1, k');
    assert Ideal(fs, Config(k.stack, k.cs), deref, fuel + 1) == Some(s);
  }

  /** Resolving `cs`, all links followed, and then `rest`, is resolving them in
      one go, provided that a directory was reached in between. */
  lemma {:induction false} ReachesAppend(fs: string -> Node, k: Config, rest: seq<string>, deref: bool, f: nat,
                                         s1: seq<string>, s2: seq<string>)
    requires Ideal(fs, k, true, f) == Some(s1) && Reaches(fs, s1, rest, deref, s2)
    requires rest != [] ==> Passable(fs(Render(s1)))
    requires rest == [] ==> deref
    ensures Reaches(fs, k.stack, k.cs + rest, deref, s2)
    decreases f
  {
    if k.cs == [] {
      assert k.cs + rest == rest;
    } else {
      var k' := FirstStep(fs, k, true, f, s1);
      ReachesAppend(fs, k', rest, deref, f - 1, s1, s2);
      StepAppend(fs, k, rest, deref);
      ReachesStep(fs, Config(k.stack, k.cs + rest), Config(k'.stack, k'.cs + rest), deref, s2);
    }
  }

  // ---------------------------------------------------------------------
  // The same, with the limit that the k-th link met at a level is resolved
  // k levels up
  // ---------------------------------------------------------------------

  const MAX_LEVEL: nat := 3

  function Height(level: nat): nat {
    if level > MAX_LEVEL then 0 else MAX_LEVEL + 1 - level
  }

  /** Where the target of a link found at `stack` starts from. */
  function From(target: string, stack: seq<string>): seq<string> {
    if Absolute(target) then [] else stack
  }

  /** A stack, the links followed at this level so far, and those followed at
      this level and below. */
  datatype Perch = Perch(stack: seq<string>, followed: nat, links: nat)

  /** One component: appended, or followed if it is a link. */
  function ClimbOne(fs: string -> Node, p: Perch, c: string, last: bool, deref: bool, level: nat): Result<Perch>
    decreases Height(level), 0
  {
    if c == "." || c == ".." then Ok(p.(stack := Apply(p.stack, c)))
    else
      var node := fs(Render(p.stack + [c]));
      if node.Link? && (!last || deref) then
        if level + p.followed >= MAX_LEVEL then Err(ELOOP)
        else
          match Climb(fs, Start(From(node.target, p.stack)), Components(node.target), true, level + p.followed + 1)
          case Err(e) => Err(e)
          case Ok(q) =>
            var there := fs(Render(q.stack));
            if last || Passable(there) then Ok(Perch(q.stack, p.followed + 1, p.links + 1 + q.links))
            else Err(Refusal(there))
      else if !last && !node.Directory? then Err(Refusal(node))
      else Ok(p.(stack := p.stack + [c]))
  }

  /** The stack reached if no link is met above the last level. */
  function Climb(fs: string -> Node, p: Perch, cs: seq<string>, deref: bool, level: nat): Result<Perch>
    decreases Height(level), |cs| + 1
  {
    if cs == [] then Ok(p)
    else
      match ClimbOne(fs, p, cs[0], |cs| == 1, deref, level)
      case Err(e) => Err(e)
      case Ok(p') => Climb(fs, p', cs[1..], deref, level)
  }

  function Start(stack: seq<string>): Perch { Perch(stack, 0, 0) }

  lemma {:induction false} ClimbCons(fs: string -> Node, p: Perch, c: string, rest: seq<string>, deref: bool,
                                     level: nat)
    ensures Climb(fs, p, [c] + rest, deref, level)
            == match ClimbOne(fs, p, c, rest == [], deref, level)
               case Err(e) => Err(e)
               case Ok(p') => Climb(fs, p', rest, deref, level)
  {
    assert ([c] + rest)[0] == c && ([c] + rest)[1..] == rest;
  }

  /** 2 to the power of the levels left above `level`. */
  function Budget(level: nat): nat {
    if level >= MAX_LEVEL then 1 else if level == 2 then 2 else if level == 1 then 4 else 8
  }

  /** The levels bound the links followed at a level and below: the links below
      one that is followed take half of the budget. */
  lemma {:induction false} ClimbBudget(fs: string -> Node, p: Perch, cs: seq<string>, deref: bool, level: nat, q: Perch)
    requires Climb(fs, p, cs, deref, level) == Ok(q) && level + p.followed <= MAX_LEVEL
    ensures level + q.followed <= MAX_LEVEL
    ensures p.links <= q.links <= p.links + Budget(level + p.followed) - Budget(level + q.followed)
    decreases Height(level), |cs|
  {
    if cs != [] {
      var c := cs[0];
      var p' := ClimbOne(fs, p, c, |cs| == 1, deref, level).value;
      if p'.followed != p.followed {
        var target := fs(Render(p.stack + [c])).target;
        var from := Start(From(target, p.stack));
        var q' := Climb(fs, from, Components(target), true, level + p.followed + 1).value;
        ClimbBudget(fs, from, Components(target), true, level + p.followed + 1, q');
      }
      ClimbBudget(fs, p', cs[1..], deref, level, q);
    }
  }

  lemma {:induction false} OneUnlinked(fs: string -> Node, p: Perch, c: string, last: bool, deref: bool, level: nat,
                                       p': Perch)
    requires ClimbOne(fs, p, c, last, deref, level) == Ok(p')
    ensures p'.followed == p.followed || p'.links > p.links
    ensures p'.links == p.links ==> p'.stack == Apply(p.stack, c)
    ensures p.links <= p'.links
  {
  }

  lemma {:induction false} LinksGrow(fs: string -> Node, p: Perch, cs: seq<string>, deref: bool, level: nat, q: Perch)
    requires Climb(fs, p, cs, deref, level) == Ok(q)
    ensures p.links <= q.links
    decreases |cs|
  {
    if cs != [] {
      var p' := ClimbOne(fs, p, cs[0], |cs| == 1, deref, level).value;
      OneUnlinked(fs, p, cs[0], |cs| == 1, deref, level, p');
      LinksGrow(fs, p', cs[1..], deref, level, q);
    }
  }

  /** Without a link, a path leads where it does lexically. */
  lemma {:induction false} ClimbUnlinked(fs: string -> Node, p: Perch, cs: seq<string>, deref: bool, level: nat,
                                         q: Perch)
    requires Climb(fs, p, cs, deref, level) == Ok(q) && q.links == p.links
    ensures q.stack == Resolve(p.stack, cs)
    decreases |cs|
  {
    if cs != [] {
      var p' := ClimbOne(fs, p, cs[0], |cs| == 1, deref, level).value;
      OneUnlinked(fs, p, cs[0], |cs| == 1, deref, level, p');
      LinksGrow(fs, p', cs[1..], deref, level, q);
      ClimbUnlinked(fs, p', cs[1..], deref, level, q);
    }
  }

  /** What is reached within the levels is what is reached without them. */
  lemma {:induction false} ClimbReaches(fs: string -> Node, p: Perch, cs: seq<string>, deref: bool, level: nat,
                                        q: Perch)
    requires Climb(fs, p, cs, deref, level) == Ok(q)
    ensures Reaches(fs, p.stack, cs, deref, q.stack)
    decreases Height(level), |cs|
  {
    if cs == [] {
      ReachesNothing(fs, q.stack, deref);
    } else {
      var c, rest := cs[0], cs[1..];
      var p' := ClimbOne(fs, p, c, |cs| == 1, deref, level).value;
      ClimbReaches(fs, p', rest, deref, level, q);
      if c == "." || c == ".." || !fs(Render(p.stack + [c])).Link? || (rest == [] && !deref) {
        ReachesStep(fs, Config(p.stack, cs), Config(p'.stack, rest), deref, q.stack);
      } else {
        ClimbLinkReaches(fs, p, cs, p', deref, level, q.stack);
      }
    }
  }

  lemma {:induction false} ClimbLinkReaches(fs: string -> Node, p: Perch, cs: seq<string>, p': Perch, deref: bool,
                                            level: nat, s: seq<string>)
    requires cs != [] && cs[0] != "." && cs[0] != ".." && fs(Render(p.stack + [cs[0]])).Link? && (|cs| > 1 || deref)
    requires ClimbOne(fs, p, cs[0], |cs| == 1, deref, level) == Ok(p')
    requires Reaches(fs, p'.stack, cs[1..], deref, s)
    ensures Reaches(fs, p.stack, cs, deref, s)
    decreases Height(level), 0
  {
    var target := fs(Render(p.stack + [cs[0]])).target;
    var from := From(target, p.stack);
    var q := Climb(fs, Start(from), Components(target), true, level + p.followed + 1).value;
    ClimbReaches(fs, Start(from), Components(target), true, level + p.followed + 1, q);
    var f: nat :| Ideal(fs, Config(from, Components(target)), true, f) == Some(p'.stack);
    ReachesAppend(fs, Config(from, Components(target)), cs[1..], deref, f, p'.stack, s);
    ReachesStep(fs, Config(p.stack, cs), Config(from, Components(target) + cs[1..]), deref, s);
  }

  /** Where there are only directories, every path is climbed as it is spelled. */
  lemma {:induction false} ClimbDirectories(fs: string -> Node, p: Perch, cs: seq<string>, deref: bool, level: nat)
    requires forall q :: fs(q).Directory?
    ensures Climb(fs, p, cs, deref, level) == Ok(p.(stack := Resolve(p.stack, cs)))
    decreases |cs|
  {
    if cs != [] {
      ClimbDirectories(fs, p.(stack := Apply(p.stack, cs[0])), cs[1..], deref, level);
    }
  }

  /** "/l" is a link to "." and all else is a directory. */
  function Loopback(p: string): Node {
    if p == "/l" then Link(".") else Directory
  }

  /** The path "/l/l/.../l" of `n` names. */
  function LinkRow(n: nat): seq<string> {
    if n == 0 then [] else ["l"] + LinkRow(n - 1)
  }

  /** Each name of the row leads back to the root, but the limit refuses the row
      as soon as it is longer than the levels. */
  lemma {:induction false} LinkRowIff(n: nat, followed: nat)
    requires followed <= MAX_LEVEL
    ensures Reaches(Loopback, [], LinkRow(n), true, [])
    ensures Climb(Loopback, Perch([], followed, followed), LinkRow(n), true, 0)
            == if followed + n <= MAX_LEVEL then Ok(Perch([], followed + n, followed + n)) else Err(ELOOP)
  {
    LinkRowReaches(n);
    LinkRowClimbs(n, followed);
  }

  lemma {:induction false} LinkRowReaches(n: nat)
    ensures Reaches(Loopback, [], LinkRow(n), true, [])
  {
    if n == 0 {
      ReachesNothing(Loopback, [], true);
    } else {
      LinkRowReaches(n - 1);
      LoopbackStep(LinkRow(n - 1));
    }
  }

  lemma {:induction false} LinkRowClimbs(n: nat, followed: nat)
    requires followed <= MAX_LEVEL
    ensures Climb(Loopback, Perch([], followed, followed), LinkRow(n), true, 0)
            == if followed + n <= MAX_LEVEL then Ok(Perch([], followed + n, followed + n)) else Err(ELOOP)
    decreases n
  {
    if n > 0 {
      LoopbackCons(followed, LinkRow(n - 1));
      if followed < MAX_LEVEL {
        LinkRowClimbs(n - 1, followed + 1);
      }
    }
  }

  lemma {:induction false} LoopbackCons(followed: nat, rest: seq<string>)
    ensures Climb(Loopback, Perch([], followed, followed), ["l"] + rest, true, 0)
            == if followed >= MAX_LEVEL then Err(ELOOP)
               else Climb(Loopback, Perch([], followed + 1, followed + 1), rest, true, 0)
  {
    ClimbCons(Loopback, Perch([], followed, followed), "l", rest, true, 0);
    LoopbackClimb(followed, rest == []);
  }

  lemma {:induction false} LoopbackClimb(followed: nat, last: bool)
    ensures ClimbOne(Loopback, Perch([], followed, followed), "l", last, true, 0)
            == if followed < MAX_LEVEL then Ok(Perch([], followed + 1, followed + 1)) else Err(ELOOP)
  {
    DotTarget();
    assert [] + ["l"] == ["l"];
    if followed < MAX_LEVEL {
      ClimbCons(Loopback, Start([]), ".", [], true, followed + 1);
      assert ["."] + [] == ["."];
    }
  }

  lemma {:induction false} DotTarget()
    ensures Components(".") == ["."] && Render(["l"]) == "/l" && Render([]) == "/"
  {
    assert "."[..1] == "." && "."[1..] == "";
    assert Spell(["l"]) == Spell([]) + "/" + "l";
  }

  lemma {:induction false} LoopbackStep(rest: seq<string>)
    requires Reaches(Loopback, [], rest, true, [])
    ensures Reaches(Loopback, [], ["l"] + rest, true, [])
  {
    DotTarget();
    assert [] + ["l"] == ["l"];
    ReachesStep(Loopback, Config([], ["."] + rest), Config([], rest), true, []);
    ReachesStep(Loopback, Config([], ["l"] + rest), Config([], ["."] + rest), true, []);
  }
}
