/**
The symbolic-link walk: canonicalization of a guest path over an arbitrary
file system, cyclic links included.
 */
module Canon {
  import opened Common
  import opened Paths
  import opened CanonIdeal

  datatype Finality = NotFinal | FinalNormal | FinalSlash | FinalDot

  // ---------------------------------------------------------------------
  // Components of the walk
  // ---------------------------------------------------------------------

  predicate EndsInSlash(p: string) { p != "" && p[|p| - 1] == '/' }

  /** The name at `from`, behind separators; empty at the end of the path. */
  method ScanName(path: string, from: nat) returns (name: string, next: nat)
    requires from <= |path|
    ensures from <= next <= |path| && (next < |path| ==> path[next] == '/')
    ensures name == "" ==> next == |path| && Components(path[from..]) == []
    ensures name != "" ==> '/' !in name && from + |name| <= next && path[next - 1] != '/'
                           && Components(path[from..]) == [name] + Components(path[next..])
  {
    var start := SkipSlashes(path, from);
    var length := MeasureName(path, start);
    name, next := path[start..start + length], start + length;
    if length > 0 {
      ComponentsStep(path, start, length);
      assert name[length - 1] == path[next - 1] && name[length - 1] in name;
    }
  }

  /** next_component() */
  method NextComponent(path: string, from: nat) returns (r: Result<string>, finality: Finality, next: nat)
    requires from <= |path|
    ensures from <= next <= |path|
    ensures r.Ok? ==> |r.value| < NAME_MAX && finality != FinalDot && (finality != NotFinal <==> next == |path|)
    ensures r.Ok? && r.value == "" ==> next == |path| && Components(path[from..]) == []
    ensures r.Ok? && r.value != "" ==> '/' !in r.value && from + |r.value| <= next
                                       && Components(path[from..]) == [r.value] + Components(path[next..])
    ensures r.Ok? ==> (finality == NotFinal <==> Components(path[next..]) != [])
    ensures r.Ok? && r.value != "" && finality != NotFinal ==> (finality == FinalSlash <==> EndsInSlash(path))
    ensures r.Err? ==> !AllShort(Components(path[from..]))
  {
    var name, end := ScanName(path, from);
    next, finality := end, NotFinal;
    if |name| >= NAME_MAX {
      ConsStep([], name, Components(path[next..]));
      return Err(ENAMETOOLONG), finality, next;
    }
    r := Ok(name);
    var wantDir := next < |path|;
    next := SkipSlashes(path, next);
    if next < |path| {
      assert path[next..][0] != '/';
    }
    if next == |path| {
      finality := if wantDir then FinalSlash else FinalNormal;
    }
  }

  /** The two scans of pop_component() on a spelled path. */
  method CutLast(path: string, ghost base: string, ghost last: string) returns (r: string)
    requires path == base + "/" + last || path == base + "/" + last + "/"
    requires last != "" && '/' !in last && |base| != 1
    ensures r == if base == "" then path[..1] else base
  {
    var offset := |path| - 1;
    ghost var n := |base|;
    assert path[..n] == base;
    assert forall k :: n < k <= n + |last| ==> path[k] == last[k - n - 1];
    while offset > 1 && path[offset] == '/'
      invariant n + |last| <= offset <= n + |last| + 1 && offset < |path|
    {
      offset := offset - 1;
    }
    while offset > 1 && path[offset] != '/'
      invariant n <= offset <= n + |last| + 1 && 1 <= offset < |path|
    {
      offset := offset - 1;
    }
    r := path[..offset];
  }

  /** pop_component() */
  method PopComponent(path: string, ghost stack: seq<string>) returns (r: string)
    requires AllNames(stack) && Spells(path, stack)
    ensures r == Render(Apply(stack, "..")) && |r| <= |path|
  {
    RenderEnd(stack);
    if |path| == 1 {
      return path;
    }
    ghost var init, last := stack[..|stack| - 1], stack[|stack| - 1];
    RenderEnd(init);
    assert IsName(last);
    r := CutLast(path, Spell(init), last);
  }

  // ---------------------------------------------------------------------
  // Joining onto a spelled path
  // ---------------------------------------------------------------------

  lemma {:induction false} JoinName(g: string, stack: seq<string>, c: string)
    requires AllNames(stack) && Spells(g, stack) && Join(g, c).Ok? && IsName(c)
    ensures Join(g, c).value == Render(stack + [c])
  {
    RenderEnd(stack);
    assert (stack + [c])[..|stack|] == stack;
    assert Spell(stack + [c]) == Spell(stack) + "/" + c;
    assert c[0] in c;
    assert g[|g| - 1] == '/' ==> g == Spell(stack) + "/";
    assert g[|g| - 1] != '/' ==> g == Spell(stack);
  }

  lemma {:induction false} JoinNothing(g: string, stack: seq<string>)
    requires AllNames(stack) && Spells(g, stack) && Join(g, "").Ok?
    ensures Join(g, "").value == Spell(stack) + "/"
  {
    RenderEnd(stack);
    assert g + "" == g && g + "/" + "" == g + "/";
  }

  lemma {:induction false} JoinDot(g: string, stack: seq<string>)
    requires AllNames(stack) && Spells(g, stack) && Join(g, ".").Ok?
    ensures Join(g, ".").value == Spell(stack) + "/."
  {
    RenderEnd(stack);
  }

  // ---------------------------------------------------------------------
  // The ending
  // ---------------------------------------------------------------------

  /** What the last component asks to be kept at the end of the result. */
  function LastFinality(userPath: string): Finality {
    var cs := Components(userPath);
    if cs == [] then FinalNormal
    else if cs[|cs| - 1] == "." then FinalDot
    else if cs[|cs| - 1] == ".." || EndsInSlash(userPath) then FinalSlash
    else FinalNormal
  }

  /** The canonical spelling of a stack, with that ending. */
  function Ended(stack: seq<string>, finality: Finality): string {
    match finality
    case FinalSlash => Spell(stack) + "/"
    case FinalDot => Spell(stack) + "/."
    case _ => Render(stack)
  }

  /** A path without any name is the place it starts from, with a slash. */
  function Spelling(userPath: string, stack: seq<string>): string {
    if Components(userPath) == [] then Spell(stack) + "/" else Ended(stack, LastFinality(userPath))
  }

  /** The ending: a dot where the path ends in ".", a slash where it ends in ".." or in a
      slash or names nothing, and none elsewhere. */
  lemma {:induction false} SpellingIs(userPath: string, stack: seq<string>)
    ensures var cs, s := Components(userPath), Spelling(userPath, stack);
            if cs == [] then s == Spell(stack) + "/"
            else if cs[|cs| - 1] == "." then s == Spell(stack) + "/."
            else if cs[|cs| - 1] == ".." || userPath[|userPath| - 1] == '/' then s == Spell(stack) + "/"
            else s == if stack == [] then "/" else Spell(stack)
  {
  }

  /** The end of canonicalize(), at the first level of recursion. */
  method AddEnding(guest: string, finality: Finality, ghost stack: seq<string>) returns (r: Result<string>)
    requires AllNames(stack) && Spells(guest, stack)
    ensures r.Ok? ==>
              r.value == if finality == FinalSlash || finality == FinalDot then Ended(stack, finality) else guest
    ensures |guest| + 3 < PATH_MAX ==> r.Ok?
  {
    match finality
    case FinalSlash =>
      if Join(guest, "").Ok? { JoinNothing(guest, stack); }
      r := Join(guest, "");
    case FinalDot =>
      if Join(guest, ".").Ok? { JoinDot(guest, stack); }
      r := Join(guest, ".");
    case _ =>
      r := Ok(guest);
  }

  // ---------------------------------------------------------------------
  // The walk
  // ---------------------------------------------------------------------

  /** What readlink(2) and lstat(2) guarantee: no target is empty, and a path
      with a trailing slash is never reported as a link. */
  ghost predicate RealLinks(fs: string -> Node) {
    && (forall p :: fs(p).Link? ==> fs(p).target != "")
    && (forall p :: EndsInSlash(p) ==> !fs(p).Link?)
  }

  /** substitute_binding_stat() without /proc, glue and extensions: is it a link? */
  function Stat(fs: string -> Node, p: string, finality: Finality): Result<bool> {
    var node := fs(p);
    if finality == NotFinal && !node.Directory? && !node.Link? then
      Err(Refusal(node))
    else Ok(node.Link?)
  }

  /** Targets of at most half of `room` characters, in names of a legal length. */
  ghost predicate ShortLinks(fs: string -> Node, room: nat) {
    forall p :: fs(p).Link? ==>
                  && 2 * |fs(p).target| <= room && |fs(p).target| < PATH_MAX
                  && AllShort(Components(fs(p).target))
  }

  /** By how much the targets of the links that can be met from `level` on can
      lengthen a path: `room` for each link of the budget but one. */
  function Slack(level: nat, room: nat): nat {
    if level >= MAX_LEVEL then 0 else if level == 2 then room else if level == 1 then 3 * room else 7 * room
  }

  /** No limit on lengths matters for a path of this length. */
  ghost predicate Ample(fs: string -> Node, stack: seq<string>, length: nat, level: nat, room: nat) {
    ShortLinks(fs, room) && AllShort(stack) && length + Slack(level, room) + 4 < PATH_MAX
  }

  /** The checks made before the walk. */
  method CheckSpelling(userPath: string, guestPath: string) returns (r: Result<bool>)
    requires |userPath| < PATH_MAX
    ensures r == if |guestPath| < PATH_MAX
                    && (if Absolute(userPath) then AllShort(Components(userPath))
                        else && Absolute(guestPath) && Join(guestPath, userPath).Ok?
                             && AllShort(Components(guestPath) + Components(userPath)))
                 then Ok(true) else Err(ENAMETOOLONG)
  {
    if |guestPath| >= PATH_MAX {
      return Err(ENAMETOOLONG);
    }
    var shadow := userPath;
    if !Absolute(userPath) {
      var joined := Join(guestPath, userPath);
      if joined.Err? {
        return Err(ENAMETOOLONG);
      }
      shadow := joined.value;
      JoinComponents(guestPath, userPath);
    }
    var normalized := NormalizeGuestPath(shadow);
    if normalized.Err? {
      return Err(ENAMETOOLONG);
    }
    if !Absolute(userPath) && !Absolute(guestPath) {
      return Err(EINVAL);
    }
    return Ok(true);
  }

  /** The path walked so far spells the stack of `p`. */
  ghost predicate StandsAt(guest: string, followed: nat, p: Perch) {
    AllNames(p.stack) && guest == Render(p.stack) && followed == p.followed
  }

  /** Where a path leads within the levels, from `base`. */
  ghost function Reached(fs: string -> Node, userPath: string, derefFinal: bool, level: nat, base: seq<string>)
    : Result<Perch>
  {
    if level > MAX_LEVEL then Err(ELOOP)
    else Climb(fs, Start(base), Components(userPath), derefFinal || EndsInSlash(userPath), level)
  }

  /** The target of a link, canonicalized from where the link is: the k-th link
      followed at a level recurses k levels up. */
  method FollowLink(fs: string -> Node, target: string, finality: Finality, guest: string, level: nat, now: nat,
                    ghost stack: seq<string>, ghost room: nat)
    returns (r: Result<string>, ghost q: Result<Perch>)
    requires RealLinks(fs) && 0 < now && level + now <= MAX_LEVEL + 1 && target != "" && |target| < PATH_MAX
    requires AllNames(stack) && guest == Render(stack)
    ensures q == Reached(fs, target, true, level + now, From(target, stack))
    ensures level + now > MAX_LEVEL ==> r == Err(ELOOP)
    ensures r.Ok? ==> q.Ok? && AllNames(q.value.stack) && r.value == Render(q.value.stack)
    ensures r.Ok? ==> finality != NotFinal || Passable(fs(r.value))
    ensures Ample(fs, stack, |guest| + 2 * |target|, level + now, room) && AllShort(Components(target)) ==>
              && (r.Err? ==> Followed(fs, Start(stack), q, finality != NotFinal) == Err(r.errno))
              && (r.Ok? ==> AllShort(q.value.stack) && |r.value| <= |guest| + 2 * |target| + Slack(level + now, room))
    decreases Height(level + now), 9
  {
    RenderEnd(stack);
    var inner;
    inner, q := Canonicalize(fs, target, true, guest, level + now, From(target, stack), room);
    if inner.Err? {
      return Err(inner.errno), q;
    }
    var still := Stat(fs, inner.value, finality);
    if still.Err? {
      return Err(still.errno), q;
    }
    r := inner;
  }

  /** From where a target leads to where its link does. */
  ghost function Followed(fs: string -> Node, p: Perch, q: Result<Perch>, last: bool): Result<Perch> {
    if q.Err? then Err(q.errno)
    else if !(last || Passable(fs(Render(q.value.stack)))) then Err(Refusal(fs(Render(q.value.stack))))
    else Ok(Perch(q.value.stack, p.followed + 1, p.links + 1 + q.value.links))
  }

  /** What a link that is followed comes to. */
  lemma {:induction false} ClimbOfLink(fs: string -> Node, p: Perch, c: string, last: bool, d: bool, level: nat,
                                       target: string)
    requires IsName(c) && fs(Render(p.stack + [c])) == Link(target) && (!last || d) && level + p.followed <= MAX_LEVEL
    ensures ClimbOne(fs, p, c, last, d, level)
            == Followed(fs, p, Reached(fs, target, true, level + p.followed + 1, From(target, p.stack)), last)
  {
  }

  /** A name that is not followed is appended. */
  lemma {:induction false} ClimbOfName(fs: string -> Node, p: Perch, c: string, last: bool, d: bool, level: nat)
    requires IsName(c) && !(fs(Render(p.stack + [c])).Link? && (!last || d))
    ensures ClimbOne(fs, p, c, last, d, level)
            == if !last && !fs(Render(p.stack + [c])).Directory? then Err(Refusal(fs(Render(p.stack + [c]))))
               else Ok(p.(stack := p.stack + [c]))
  {
  }

  /** Where lengths do not matter, they do not for the target of a link either. */
  lemma {:induction false} AmpleTarget(fs: string -> Node, stack: seq<string>, length: nat, shorter: nat, level: nat,
                                       room: nat, link: string, target: string)
    requires Ample(fs, stack, length, level, room) && shorter <= length && level <= MAX_LEVEL
    requires fs(link) == Link(target)
    ensures AllShort(Components(target)) && 2 * |target| <= room && |target| < PATH_MAX
    ensures level < MAX_LEVEL ==>
              && Ample(fs, stack, shorter + 2 * |target|, level + 1, room)
              && shorter + 2 * |target| + 2 * Slack(level + 1, room) <= shorter + Slack(level, room)
  {
  }

  /** The target of a link, unless it is too long. */
  method FollowTarget(fs: string -> Node, target: string, finality: Finality, guest: string, level: nat, followed: nat,
                   ghost p: Perch, ghost link: string, ghost length: nat, ghost room: nat)
    returns (r: Result<string>, now: nat, ghost q: Result<Perch>)
    requires RealLinks(fs) && level + followed <= MAX_LEVEL && StandsAt(guest, followed, p)
    requires fs(link) == Link(target) && |guest| <= length
    ensures q == Reached(fs, target, true, level + followed + 1, From(target, p.stack))
    ensures r.Ok? ==> now == followed + 1 && level + now <= MAX_LEVEL
    ensures r.Ok? ==> q.Ok? && AllNames(q.value.stack) && r.value == Render(q.value.stack)
    ensures r.Ok? ==> finality != NotFinal || Passable(fs(r.value))
    ensures Ample(fs, p.stack, length, level + followed, room) ==>
              && (r.Err? ==> Followed(fs, p, q, finality != NotFinal) == Err(r.errno))
              && (r.Ok? ==> AllShort(q.value.stack))
              && (r.Ok? ==> |r.value| + Slack(level + now, room) <= |guest| + Slack(level + followed, room))
    decreases Height(level), 0
  {
    if Ample(fs, p.stack, length, level + followed, room) {
      AmpleTarget(fs, p.stack, length, |guest|, level + followed, room, link, target);
    }
    if |target| >= PATH_MAX {
      return Err(ENAMETOOLONG), followed, Reached(fs, target, true, level + followed + 1, From(target, p.stack));
    }
    now := followed + 1;
    r, q := FollowLink(fs, target, finality, guest, level, now, p.stack, room);
  }

  /** A component that is a link, followed. */
  method VisitLink(fs: string -> Node, target: string, finality: Finality, guest: string, level: nat, followed: nat,
                   ghost p: Perch, ghost c: string, ghost d: bool, ghost room: nat)
    returns (r: Result<string>, now: nat, ghost p': Result<Perch>)
    requires RealLinks(fs) && level + followed <= MAX_LEVEL && IsName(c) && StandsAt(guest, followed, p)
    requires fs(Render(p.stack + [c])) == Link(target) && (finality != NotFinal ==> d)
    ensures p' == ClimbOne(fs, p, c, finality != NotFinal, d, level)
    ensures r.Ok? ==> p'.Ok? && StandsAt(r.value, now, p'.value) && level + now <= MAX_LEVEL
    ensures Ample(fs, p.stack, |guest| + |c| + 1, level + followed, room) ==>
              && (r.Err? ==> p' == Err(r.errno))
              && (r.Ok? ==> AllShort(p'.value.stack))
              && (r.Ok? ==> |r.value| + Slack(level + now, room) <= |guest| + Slack(level + followed, room))
    decreases Height(level), 1
  {
    ghost var q;
    ghost var link, length := Render(p.stack + [c]), |guest| + |c| + 1;
    r, now, q := FollowTarget(fs, target, finality, guest, level, followed, p, link, length, room);
    p' := Followed(fs, p, q, finality != NotFinal);
    FollowedIs(fs, p, q, finality != NotFinal);
    ClimbOfLink(fs, p, c, finality != NotFinal, d, level, target);
  }

  lemma {:induction false} FollowedIs(fs: string -> Node, p: Perch, q: Result<Perch>, last: bool)
    ensures var p' := Followed(fs, p, q, last);
            && (p'.Ok? <==> q.Ok? && (last || Passable(fs(Render(q.value.stack)))))
            && (p'.Ok? ==> p'.value.stack == q.value.stack && p'.value.followed == p.followed + 1)
  {
  }

  /** One component of the walk that is neither "." nor "..": it is appended, or
      followed if it is a link. */
  method Visit(fs: string -> Node, c: string, finality: Finality, derefFinal: bool, guest: string, level: nat,
               followed: nat, ghost p: Perch, ghost d: bool, ghost room: nat)
    returns (r: Result<string>, now: nat, ghost p': Result<Perch>)
    requires RealLinks(fs) && level + followed <= MAX_LEVEL && IsName(c) && StandsAt(guest, followed, p)
    requires finality != NotFinal ==> (d <==> derefFinal || finality != FinalNormal)
    ensures p' == ClimbOne(fs, p, c, finality != NotFinal, d, level)
    ensures r.Ok? ==> p'.Ok? && StandsAt(r.value, now, p'.value) && level + now <= MAX_LEVEL
    ensures Ample(fs, p.stack, |guest| + |c| + 1, level + followed, room) && |c| < NAME_MAX ==>
              && (r.Err? ==> p' == Err(r.errno))
              && (r.Ok? ==> AllShort(p'.value.stack))
              && (r.Ok? ==> |r.value| + Slack(level + now, room) <= |guest| + |c| + 1 + Slack(level + followed, room))
    decreases Height(level), 2
  {
    now := followed;
    p' := ClimbOne(fs, p, c, finality != NotFinal, d, level);
    var scratch := Join(guest, c);
    if scratch.Err? {
      return Err(scratch.errno), now, p';
    }
    JoinName(guest, p.stack, c);
    var isLink := Stat(fs, scratch.value, finality);
    if isLink.Err? {
      ClimbOfName(fs, p, c, finality != NotFinal, d, level);
      return Err(isLink.errno), now, p';
    }
    if !isLink.value || (finality == FinalNormal && !derefFinal) {
      ClimbOfName(fs, p, c, finality != NotFinal, d, level);
      return scratch, now, p';
    }
    r, now, p' := VisitLink(fs, fs(scratch.value).target, finality, guest, level, followed, p, c, d, room);
  }

  /** The finality of the walk after the component `c`. */
  function After(c: string, final: Finality): Finality {
    if final == NotFinal then NotFinal else if c == "." then FinalDot else if c == ".." then FinalSlash else final
  }

  /** "." stays and ".." goes up; both change what the ending means. */
  method AdvanceDots(c: string, final: Finality, guest: string, ghost stack: seq<string>)
    returns (value: string, finality: Finality)
    requires (c == "." || c == "..") && AllNames(stack) && guest == Render(stack)
    ensures AllNames(Apply(stack, c)) && value == Render(Apply(stack, c)) && |value| <= |guest|
    ensures finality == After(c, final)
  {
    value, finality := guest, final;
    if c == "." {
      if final != NotFinal {
        finality := FinalDot;
      }
    } else {
      value := PopComponent(guest, stack);
      if final != NotFinal {
        finality := FinalSlash;
      }
    }
  }

  /** One round of the loop of canonicalize(). */
  method Advance(fs: string -> Node, c: string, final: Finality, derefFinal: bool, guest: string, level: nat,
                 followed: nat, ghost p: Perch, ghost d: bool, ghost room: nat)
    returns (r: Result<string>, finality: Finality, now: nat, ghost p': Result<Perch>)
    requires RealLinks(fs) && level + followed <= MAX_LEVEL && '/' !in c && c != "" && StandsAt(guest, followed, p)
    requires final != NotFinal ==> (d <==> derefFinal || final != FinalNormal)
    ensures p' == ClimbOne(fs, p, c, final != NotFinal, d, level)
    ensures r.Ok? ==> p'.Ok? && StandsAt(r.value, now, p'.value) && level + now <= MAX_LEVEL
    ensures r.Ok? ==> finality == After(c, final)
    ensures Ample(fs, p.stack, |guest| + |c| + 1, level + followed, room) && |c| < NAME_MAX ==>
              && (r.Err? ==> p' == Err(r.errno))
              && (r.Ok? ==> AllShort(p'.value.stack))
              && (r.Ok? ==> |r.value| + Slack(level + now, room) <= |guest| + |c| + 1 + Slack(level + followed, room))
    decreases Height(level), 3
  {
    finality, now := final, followed;
    if c == "." || c == ".." {
      var value;
      value, finality := AdvanceDots(c, final, guest, p.stack);
      r, p' := Ok(value), Ok(p.(stack := Apply(p.stack, c)));
    } else {
      r, now, p' := Visit(fs, c, final, derefFinal, guest, level, followed, p, d, room);
    }
  }

  lemma {:induction false} EndOfWalk(userPath: string, c: string, final: Finality)
    requires var cs := Components(userPath); cs != [] && cs[|cs| - 1] == c
    requires final == if EndsInSlash(userPath) then FinalSlash else FinalNormal
    ensures LastFinality(userPath) == After(c, final)
  {
  }

  /** A path being walked, and where it leads. */
  datatype Trip = Trip(fs: string -> Node, path: string, derefFinal: bool, start: string, level: nat,
                       room: nat, easy: bool, q: Result<Perch>)
  {
    ghost predicate Deref() { derefFinal || EndsInSlash(path) }
  }

  /** The invariant of the walk: the components left to walk lead where all of
      them do. */
  ghost predicate Underway(t: Trip, guest: string, cursor: nat, rest: seq<string>, p: Perch)
  {
    && AllNames(p.stack) && guest == Render(p.stack) && t.level + p.followed <= MAX_LEVEL
    && t.q == Climb(t.fs, p, rest, t.Deref(), t.level)
    && (t.easy ==> && AllShort(rest)
                   && Ample(t.fs, p.stack, |t.start| + 2 * |t.path|, t.level, t.room)
                   && |guest| + Slack(t.level + p.followed, t.room) <= |t.start| + 2 * cursor + Slack(t.level, t.room))
  }

  ghost predicate Remaining(path: string, rest: seq<string>, finality: Finality) {
    && (finality == NotFinal <==> rest != [])
    && (rest == [] ==> finality == LastFinality(path))
    && (rest != [] ==> var all := Components(path); all != [] && rest[|rest| - 1] == all[|all| - 1])
  }

  /** The component `c`, walked to `p'`. */
  lemma {:induction false} Onward(t: Trip, guest: string, cursor: nat, c: string, rest: seq<string>, p: Perch,
                                  guest': string, next: nat, p': Perch)
    requires Underway(t, guest, cursor, [c] + rest, p) && cursor + |c| <= next && c != ""
    requires ClimbOne(t.fs, p, c, rest == [], t.Deref(), t.level) == Ok(p')
    requires AllNames(p'.stack) && guest' == Render(p'.stack) && t.level + p'.followed <= MAX_LEVEL
    requires t.easy ==> AllShort(rest) && AllShort(p'.stack)
    requires t.easy ==> |guest'| + Slack(t.level + p'.followed, t.room)
                        <= |guest| + |c| + 1 + Slack(t.level + p.followed, t.room)
    ensures Underway(t, guest', next, rest, p')
  {
    ClimbCons(t.fs, p, c, rest, t.Deref(), t.level);
  }

  /** One component of the path, walked. */
  method Take(ghost t: Trip, fs: string -> Node, c: string, final: Finality, derefFinal: bool, level: nat,
              guest: string, followed: nat, ghost cursor: nat, ghost next: nat, ghost rest: seq<string>, ghost p: Perch)
    returns (r: Result<string>, finality: Finality, now: nat, ghost p': Perch)
    requires RealLinks(fs) && t.fs == fs && t.level == level && c != "" && '/' !in c
    requires cursor + |c| <= next <= |t.path| && (t.easy ==> |c| < NAME_MAX && AllShort(rest))
    requires p.followed == followed && Underway(t, guest, cursor, [c] + rest, p)
    requires (final == NotFinal <==> rest != []) && (rest == [] ==> (t.Deref() <==> derefFinal || final != FinalNormal))
    ensures r.Ok? ==> Underway(t, r.value, next, rest, p') && p'.followed == now
    ensures r.Ok? ==> finality == After(c, final)
    ensures r.Err? && t.easy ==> t.q == Err(r.errno)
    decreases Height(level), 4
  {
    ghost var moved;
    r, finality, now, moved := Advance(fs, c, final, derefFinal, guest, level, followed, p, t.Deref(), t.room);
    p' := if r.Ok? then moved.value else p;
    if r.Ok? {
      Onward(t, guest, cursor, c, rest, p, r.value, next, p');
    } else {
      ClimbCons(fs, p, c, rest, t.Deref(), level);
    }
  }

  /** A component taken off a path that is being walked. */
  method NextPiece(path: string, cursor: nat) returns (r: Result<string>, final: Finality, next: nat)
    requires cursor <= |path| && Remaining(path, Components(path[cursor..]), NotFinal)
    ensures r.Ok? ==> r.value != "" && '/' !in r.value && |r.value| < NAME_MAX && cursor + |r.value| <= next <= |path|
    ensures r.Ok? ==> Components(path[cursor..]) == [r.value] + Components(path[next..])
    ensures r.Ok? ==> (final == NotFinal <==> Components(path[next..]) != [])
    ensures r.Ok? ==> Remaining(path, Components(path[next..]), After(r.value, final))
    ensures r.Ok? && final != NotFinal ==> (EndsInSlash(path) <==> final != FinalNormal)
    ensures r.Err? ==> !AllShort(Components(path[cursor..]))
  {
    r, final, next := NextComponent(path, cursor);
    if r.Ok? && final != NotFinal {
      EndOfWalk(path, r.value, final);
    }
  }

  /** One round: a component is taken off the path. */
  method Round(ghost t: Trip, fs: string -> Node, path: string, derefFinal: bool, level: nat, guest: string,
               cursor: nat, followed: nat, ghost p: Perch)
    returns (r: Result<string>, finality: Finality, next: nat, now: nat, ghost p': Perch)
    requires RealLinks(fs) && t.fs == fs && t.path == path && t.derefFinal == derefFinal && t.level == level
    requires cursor <= |path| && Remaining(path, Components(path[cursor..]), NotFinal)
    requires p.followed == followed && Underway(t, guest, cursor, Components(path[cursor..]), p)
    ensures r.Ok? ==> cursor < next <= |path| && Remaining(path, Components(path[next..]), finality)
    ensures r.Ok? ==> p'.followed == now && Underway(t, r.value, next, Components(path[next..]), p')
    ensures r.Err? && t.easy ==> t.q == Err(r.errno)
    decreases Height(level), 5
  {
    var component, final;
    component, final, next := NextPiece(path, cursor);
    if component.Err? {
      return Err(component.errno), final, next, followed, p;
    }
    var c := component.value;
    ghost var rest := Components(path[next..]);
    ConsStep(p.stack, c, rest);
    r, finality, now, p' := Take(t, fs, c, final, derefFinal, level, guest, followed, cursor, next, rest, p);
  }

  /** The loop of canonicalize(), for a path with at least one component. */
  method Walk(fs: string -> Node, userPath: string, derefFinal: bool, start: string, level: nat,
              ghost base: seq<string>, ghost room: nat)
    returns (r: Result<string>, finality: Finality, ghost q: Result<Perch>)
    requires RealLinks(fs) && level <= MAX_LEVEL && AllNames(base) && start == Render(base)
    requires Components(userPath) != []
    ensures q == Reached(fs, userPath, derefFinal, level, base)
    ensures r.Ok? ==> q.Ok? && AllNames(q.value.stack) && r.value == Render(q.value.stack)
    ensures r.Ok? ==> finality == LastFinality(userPath)
    ensures Ample(fs, base, |start| + 2 * |userPath|, level, room) && AllShort(Components(userPath)) ==>
              && (r.Err? ==> q == Err(r.errno))
              && (r.Ok? ==> AllShort(q.value.stack) && |r.value| <= |start| + 2 * |userPath| + Slack(level, room))
    decreases Height(level), 6
  {
    var guest, cursor, followed := start, 0, 0;
    finality, q := NotFinal, Reached(fs, userPath, derefFinal, level, base);
    ghost var p := Start(base);
    ghost var easy := Ample(fs, base, |start| + 2 * |userPath|, level, room) && AllShort(Components(userPath));
    ghost var t := Trip(fs, userPath, derefFinal, start, level, room, easy, q);
    assert userPath[0..] == userPath;
    while finality == NotFinal
      invariant 0 <= cursor <= |userPath| && Remaining(userPath, Components(userPath[cursor..]), finality)
      invariant p.followed == followed && Underway(t, guest, cursor, Components(userPath[cursor..]), p)
      decreases if finality == NotFinal then 1 else 0, |userPath| - cursor
    {
      r, finality, cursor, followed, p := Round(t, fs, userPath, derefFinal, level, guest, cursor, followed, p);
      if r.Err? {
        return r, finality, q;
      }
      guest := r.value;
    }
    r := Ok(guest);
  }

  /** canonicalize().  It terminates on every file system.  `base` is the stack
      spelled by `guestPath`, which matters for a relative path only.  What it
      returns spells the stack `q` that the path leads to within the levels;
      where no limit on lengths matters, it succeeds if there is one, and tells
      why there is none otherwise. */
  method Canonicalize(fs: string -> Node, userPath: string, derefFinal: bool, guestPath: string, level: nat,
                      ghost base: seq<string>, ghost room: nat)
    returns (r: Result<string>, ghost q: Result<Perch>)
    requires RealLinks(fs) && |userPath| < PATH_MAX
    requires AllNames(base) && if Absolute(userPath) then base == [] else guestPath == Render(base)
    ensures q == Reached(fs, userPath, derefFinal, level, base)
    ensures level > MAX_LEVEL ==> r == Err(ELOOP)
    ensures r.Ok? ==> q.Ok? && AllNames(q.value.stack)
    ensures r.Ok? ==> r.value == if level == 0 || userPath == "" then Spelling(userPath, q.value.stack)
                                 else Render(q.value.stack)
    ensures Absolute(guestPath) && AllShort(Components(userPath))
            && Ample(fs, base, |guestPath| + 2 * |userPath|, level, room) ==>
              && (r.Err? ==> q == Err(r.errno))
              && (r.Ok? ==> AllShort(q.value.stack))
              && (r.Ok? && level > 0 && userPath != "" ==>
                    |r.value| <= |guestPath| + 2 * |userPath| + Slack(level, room))
    decreases Height(level), 8
  {
    if level > MAX_LEVEL {
      return Err(ELOOP), Err(ELOOP);
    }
    q := Reached(fs, userPath, derefFinal, level, base);
    var checked := CheckSpelling(userPath, guestPath);
    ComponentsOfRender(base);
    if checked.Err? {
      return Err(checked.errno), q;
    }
    var start := if Absolute(userPath) then "/" else guestPath;
    var finality;
    r, finality, q := WalkAll(fs, userPath, derefFinal, start, level, base, room);
    if r.Ok? {
      OnlySlashes(userPath);
      r := EndAt(level, userPath, r.value, finality, q.value.stack);
    }
  }

  /** A path without any name is absolute or empty. */
  lemma {:induction false} OnlySlashes(p: string)
    ensures Components(p) == [] ==> p == "" || Absolute(p)
  {
  }

  /** What is left to do at the exit, depending on the level. */
  method EndAt(level: nat, userPath: string, walked: string, finality: Finality, ghost stack: seq<string>)
    returns (r: Result<string>)
    requires AllNames(stack) && finality == LastFinality(userPath)
    requires walked == if Components(userPath) == [] then Spell(stack) + "/" else Render(stack)
    requires Components(userPath) == [] && userPath != "" ==> stack == []
    ensures r.Ok? ==> r.value == if level == 0 || userPath == "" then Spelling(userPath, stack) else Render(stack)
    ensures level > 0 ==> r == Ok(walked)
    ensures |walked| + 3 < PATH_MAX ==> r.Ok?
  {
    r := Ok(walked);
    if level == 0 {
      r := AddEnding(walked, finality, stack);
    }
  }

  /** The loop of canonicalize(), for any path. */
  method WalkAll(fs: string -> Node, userPath: string, derefFinal: bool, start: string, level: nat,
                 ghost base: seq<string>, ghost room: nat)
    returns (r: Result<string>, finality: Finality, ghost q: Result<Perch>)
    requires RealLinks(fs) && level <= MAX_LEVEL && AllNames(base) && start == Render(base)
    ensures q == Reached(fs, userPath, derefFinal, level, base)
    ensures r.Ok? ==> q.Ok? && AllNames(q.value.stack) && finality == LastFinality(userPath)
    ensures r.Ok? ==>
              r.value == if Components(userPath) == [] then Spell(q.value.stack) + "/" else Render(q.value.stack)
    ensures r.Ok? && Components(userPath) == [] ==> q.value.stack == base
    ensures Ample(fs, base, |start| + 2 * |userPath|, level, room) && AllShort(Components(userPath)) ==>
              && (r.Err? ==> q == Err(r.errno))
              && (r.Ok? ==> AllShort(q.value.stack))
              && (r.Ok? ==> |r.value| <= |start| + 2 * |userPath| + Slack(level, room) + 1)
              && (r.Ok? && Components(userPath) != [] ==>
                    |r.value| <= |start| + 2 * |userPath| + Slack(level, room))
    decreases Height(level), 7
  {
    var hasName := HasName(userPath);
    if hasName {
      r, finality, q := Walk(fs, userPath, derefFinal, start, level, base, room);
    } else {
      // The only component is the empty one, appended as it is.
      r, finality, q := Join(start, ""), FinalNormal, Reached(fs, userPath, derefFinal, level, base);
      if r.Ok? {
        JoinNothing(start, base);
      }
    }
  }

  /** The result of the walk is what the path means: where it leads without any
      limit on links, after at most seven of them, and, after none, where it
      leads lexically. */
  lemma {:induction false} ReachedSound(fs: string -> Node, userPath: string, derefFinal: bool, base: seq<string>,
                                        q: Perch)
    requires Reached(fs, userPath, derefFinal, 0, base) == Ok(q)
    ensures Reaches(fs, base, Components(userPath), derefFinal || EndsInSlash(userPath), q.stack)
    ensures q.links <= 7
    ensures q.links == 0 ==> q.stack == Resolve(base, Components(userPath))
  {
    var d := derefFinal || EndsInSlash(userPath);
    ClimbReaches(fs, Start(base), Components(userPath), d, 0, q);
    ClimbBudget(fs, Start(base), Components(userPath), d, 0, q);
    if q.links == 0 {
      ClimbUnlinked(fs, Start(base), Components(userPath), d, 0, q);
    }
  }

  /** The path "." stays where it is and keeps its dot. */
  lemma {:induction false} DotStays(fs: string -> Node, derefFinal: bool, base: seq<string>)
    ensures Reached(fs, ".", derefFinal, 0, base) == Ok(Start(base))
    ensures Spelling(".", base) == Spell(base) + "/."
    ensures Components(".") == ["."]
  {
    DotTarget();
    assert ["."] + [] == ["."];
    ClimbCons(fs, Start(base), ".", [], derefFinal || EndsInSlash("."), 0);
  }

  /** Is there anything but slashes? */
  method HasName(p: string) returns (b: bool)
    ensures b <==> Components(p) != []
    ensures !b && p != "" ==> p[0] == '/'
  {
    var next := SkipSlashes(p, 0);
    assert p[0..] == p;
    b := next < |p|;
    if b {
      assert p[next..][0] != '/';
    }
  }

  // ---------------------------------------------------------------------
  // Against lexical normalization, and the ending removed again
  // ---------------------------------------------------------------------

  /** A walk that followed no link leads to the lexical normal form of the path,
      joined to where it starts from if it is relative: what NormalizeGuestPath
      computes. */
  lemma {:induction false} UnlinkedWalkIsNormal(fs: string -> Node, userPath: string, derefFinal: bool,
                                                base: seq<string>, q: Perch)
    requires AllNames(base) && if Absolute(userPath) then base == [] else Join(Render(base), userPath).Ok?
    requires Reached(fs, userPath, derefFinal, 0, base) == Ok(q) && q.links == 0
    ensures Render(q.stack) == Normal(if Absolute(userPath) then userPath else Join(Render(base), userPath).value)
  {
    ReachedSound(fs, userPath, derefFinal, base, q);
    if !Absolute(userPath) {
      JoinedIsNormal(base, userPath);
    }
  }

  /** Resolving from a base is resolving the joined path. */
  lemma {:induction false} JoinedIsNormal(base: seq<string>, userPath: string)
    requires AllNames(base) && Join(Render(base), userPath).Ok?
    requires !Absolute(userPath)
    ensures Normal(Join(Render(base), userPath).value) == Render(Resolve(base, Components(userPath)))
  {
    JoinComponents(Render(base), userPath);
    ComponentsOfRender(base);
    ResolveAppend([], base, Components(userPath));
    ResolveOfNames([], base);
    assert [] + base == base;
  }

  /** chop_finality(): remove the trailing "/" or "/.". */
  function ChopFinality(p: string): string
    requires p != "" && (p[|p| - 1] == '.' ==> |p| >= 2)
  {
    if p[|p| - 1] == '.' then (if |p| == 2 then p[..1] else p[..|p| - 2])
    else if p[|p| - 1] == '/' && |p| > 1 then p[..|p| - 1]
    else p
  }

  /** It takes off either ending; on a path without ending it changes nothing if
      and only if the last name does not end in a dot. */
  lemma {:induction false} ChopFinalityIff(stack: seq<string>)
    requires AllNames(stack)
    ensures stack != [] ==> ChopFinality(Render(stack) + "/") == Render(stack)
    ensures ChopFinality(Spell(stack) + "/.") == Render(stack)
    ensures var p := Render(stack);
            && (p[|p| - 1] == '.' ==> |p| >= 2)
            && (ChopFinality(p) == p <==> stack == [] || stack[|stack| - 1][|stack[|stack| - 1]| - 1] != '.')
  {
    RenderEnd(stack);
    if stack != [] {
      var last := stack[|stack| - 1];
      assert IsName(last);
      var p := Render(stack);
      assert p[|p| - 1] == last[|last| - 1];
    }
  }

  /** For instance, it makes "/" of "/a.". */
  lemma {:induction false} ChopFinalityEatsName()
    ensures ChopFinality("/a.") == "/" && Render(["a."]) == "/a." && AllNames(["a."])
  {
    assert ["a."][..0] == [];
    assert Spell(["a."]) == Spell([]) + "/" + "a.";
  }
}
