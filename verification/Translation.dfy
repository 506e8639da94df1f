/**
Translation of guest paths to host paths through the bindings, its inverse,
and when the two are inverse to each other.
 */
module Translation {
  import opened Common
  import opened Paths
  import opened Bindings

  /** The path whose trimmed spelling is `k`. */
  function Untrim(k: string): string {
    if k == "" then "/" else k
  }

  /** `p`, which lies within `g`, moved below `h`. */
  function Graft(h: string, g: string, p: string): string
    requires Within(g, p)
  {
    Untrim(Trim(h) + Trim(p)[|Trim(g)|..])
  }

  /** What follows a path above another one. */
  lemma {:induction false} RestIs(g: string, p: string)
    requires Plain(g) && Plain(p) && Within(g, p)
    ensures var rest := Trim(p)[|Trim(g)|..];
            CString(rest) && (rest != "" ==> rest[0] == '/' && rest[|rest| - 1] != '/')
  {
    var rest := Trim(p)[|Trim(g)|..];
    assert forall c :: c in rest ==> c in p;
    assert rest != "" ==> rest[|rest| - 1] == p[|p| - 1];
  }

  lemma {:induction false} TrimmedIs(h: string)
    requires Plain(h)
    ensures CString(Trim(h)) && (Trim(h) != "" ==> Trim(h)[0] == '/' && Trim(h)[|Trim(h)| - 1] != '/')
  {
    assert forall c :: c in Trim(h) ==> c in h;
  }

  lemma {:induction false} UntrimmedIs(k: string)
    requires CString(k) && (k != "" ==> k[0] == '/' && k[|k| - 1] != '/')
    ensures Plain(Untrim(k)) && Trim(Untrim(k)) == k
  {
  }

  lemma {:induction false} GraftPlain(h: string, g: string, p: string)
    requires Plain(h) && Plain(g) && Plain(p) && Within(g, p)
    ensures Plain(Graft(h, g, p))
    ensures Trim(Graft(h, g, p)) == Trim(h) + Trim(p)[|Trim(g)|..]
    ensures Within(h, Graft(h, g, p))
  {
    var a, rest := Trim(h), Trim(p)[|Trim(g)|..];
    RestIs(g, p);
    TrimmedIs(h);
    AppendedIs(a, rest);
    UntrimmedIs(a + rest);
  }

  lemma {:induction false} AppendedIs(a: string, rest: string)
    requires CString(a) && (a != "" ==> a[0] == '/' && a[|a| - 1] != '/')
    requires CString(rest) && (rest != "" ==> rest[0] == '/' && rest[|rest| - 1] != '/')
    ensures var k := a + rest;
            CString(k) && Extends(a, k) && (k != "" ==> k[0] == '/' && k[|k| - 1] != '/')
  {
    var k := a + rest;
    assert forall c :: c in k ==> c in a || c in rest;
    assert rest != "" ==> k[|a|] == rest[0] && k[|k| - 1] == rest[|rest| - 1];
  }

  // ---------------------------------------------------------------------
  // Prefix substitution
  // ---------------------------------------------------------------------

  /** substitute_path_prefix() on the string in the buffer; the string stays as
      it is when the result would not fit. */
  function SubstitutePrefix(p: string, oldLength: nat, new': string): string
    requires oldLength <= |p|
  {
    if |new'| == 1 then
      if oldLength < |p| then p[oldLength..] else "/"
    else if oldLength == 1 then
      if |new'| + |p| >= PATH_MAX then p
      else if |p| > 1 then new' + p else new'
    else if |p| - oldLength + |new'| >= PATH_MAX then p
    else new' + p[oldLength..]
  }

  /** The result fits, by the test that substitute_path_prefix() makes. */
  predicate Fits(p: string, oldLength: nat, new': string)
    requires oldLength <= |p|
  {
    |new'| == 1 || (if oldLength == 1 then |new'| + |p| else |p| - oldLength + |new'|) < PATH_MAX
  }

  /** Two grafts agree exactly when their trimmed spellings do. */
  lemma {:induction false} UntrimInjective(p: string, q: string)
    requires Plain(p) && Plain(q)
    ensures Untrim(Trim(p)) == p
    ensures p == q <==> Trim(p) == Trim(q)
  {
  }

  lemma {:induction false} CancelRight(a: string, b: string, r: string)
    ensures a + r == b + r <==> a == b
  {
    if a + r == b + r {
      assert a == (a + r)[..|a|] && b == (b + r)[..|b|];
    }
  }

  lemma {:induction false} CancelLeft(l: string, a: string, b: string)
    ensures l + a == l + b <==> a == b
  {
    if l + a == l + b {
      assert a == (l + a)[|l|..] && b == (l + b)[|l|..];
    }
  }

  lemma {:induction false} SubstituteGrafts(p: string, g: string, h: string)
    requires Plain(p) && Plain(g) && Plain(h) && Within(g, p) && g != h && |g| <= |p| && Fits(p, |g|, h)
    ensures SubstitutePrefix(p, |g|, h) == Graft(h, g, p)
  {
    var a, b, c := Trim(p), Trim(g), Trim(h);
    if |h| == 1 {
      assert c == "" && b == g;
      assert c + a[|b|..] == a[|b|..];
    } else if |g| == 1 {
      assert b == "" && c == h && a[0..] == a;
      if |p| == 1 {
        assert a == "" && c + a == c;
      }
    } else {
      assert a == p && b == g && c == h;
    }
  }

  /** A graft that changes the prefix changes the path. */
  lemma {:induction false} GraftMoves(p: string, g: string, h: string)
    requires Plain(p) && Plain(g) && Plain(h) && Within(g, p) && g != h
    ensures Graft(h, g, p) != p
  {
    GraftPlain(h, g, p);
    var rest := Trim(p)[|Trim(g)|..];
    assert Trim(p) == Trim(g) + rest;
    CancelRight(Trim(h), Trim(g), rest);
    UntrimInjective(h, g);
  }

  lemma {:induction false} WithinShorter(g: string, p: string)
    requires Plain(g) && Plain(p) && Within(g, p)
    ensures |g| <= |p|
  {
  }

  /** With all its special cases, it grafts, if and only if the result fits. */
  lemma {:induction false} SubstituteIsGraftIff(p: string, g: string, h: string)
    requires Plain(p) && Plain(g) && Plain(h) && Within(g, p) && g != h
    ensures |g| <= |p| && (SubstitutePrefix(p, |g|, h) == Graft(h, g, p) <==> Fits(p, |g|, h))
  {
    WithinShorter(g, p);
    if Fits(p, |g|, h) {
      SubstituteGrafts(p, g, h);
    } else {
      GraftMoves(p, g, h);
    }
  }

  /** The result fits exactly if it has fewer than 4096 characters; only for the root
      itself, bound elsewhere, one more is asked for. */
  lemma {:induction false} FitsIff(p: string, g: string, h: string)
    requires Plain(p) && Plain(g) && Plain(h) && Within(g, p) && g != h && |p| < 4096
    ensures |g| <= |p| && (Fits(p, |g|, h) <==> |Graft(h, g, p)| + (if p == "/" then 1 else 0) < 4096)
  {
    WithinShorter(g, p);
    GraftPlain(h, g, p);
  }

  /** memmove(3) and memcpy(3): what follows the old prefix is moved behind the new one. */
  method MovePrefix(path: array<char>, length: nat, oldLength: nat, new': string)
    requires oldLength <= length <= path.Length && |new'| + length - oldLength <= path.Length
    modifies path
    ensures path[..|new'| + length - oldLength] == new' + old(path[..length])[oldLength..]
  {
    forall i | 0 <= i < length - oldLength { path[|new'| + i] := path[oldLength + i]; }
    forall i | 0 <= i < |new'| { path[i] := new'[i]; }
    ghost var s, r := old(path[..length])[oldLength..], path[..|new'| + length - oldLength];
    forall i | 0 <= i < |r| ensures r[i] == (new' + s)[i] {
      if i >= |new'| {
        assert path[|new'| + (i - |new'|)] == old(path[oldLength + (i - |new'|)]);
      }
    }
  }

  /** substitute_path_prefix() in the buffer itself. */
  method SubstitutePathPrefix(path: array<char>, length: nat, oldLength: nat, new': string) returns (newLength: nat)
    requires path.Length == PATH_MAX && oldLength <= length < PATH_MAX && 1 <= |new'| < PATH_MAX
    modifies path
    ensures newLength < PATH_MAX
    ensures path[..newLength] == SubstitutePrefix(old(path[..length]), oldLength, new')
  {
    ghost var p := path[..length];
    if |new'| == 1 {
      newLength := length - oldLength;
      if newLength != 0 {
        forall i | 0 <= i < newLength { path[i] := path[oldLength + i]; }
      } else {
        path[0] := '/';
        newLength := 1;
      }
    } else if oldLength == 1 {
      newLength := |new'| + length;
      if newLength >= PATH_MAX {
        return length;
      }
      if length > 1 {
        MovePrefix(path, length, 0, new');
        assert p[0..] == p;
      } else {
        forall i | 0 <= i < |new'| { path[i] := new'[i]; }
        newLength := |new'|;
      }
    } else {
      newLength := length - oldLength + |new'|;
      if newLength >= PATH_MAX {
        return length;
      }
      MovePrefix(path, length, oldLength, new');
    }
  }

  // ---------------------------------------------------------------------
  // Translation and its inverse
  // ---------------------------------------------------------------------

  /** substitute_binding() by a given binding, from `side`. */
  function Through(b: Binding, side: Side, p: string): string
    requires |b.SpelledOn(side)| <= |p|
  {
    if !b.needSubstitution then p
    else SubstitutePrefix(p, |b.SpelledOn(side)|, b.SpelledOn(Other(side)))
  }

  function Other(side: Side): Side {
    if side == Guest then Host else Guest
  }

  /** Both lists hold the same bindings. */
  lemma {:induction false} SameMembers(ls: Lists, side: Side, b: Binding)
    requires ls.Valid() && b in OnSide(ls, side)
    ensures b in ls.guest
  {
    assert b in multiset(OnSide(ls, side));
    assert b in multiset(ls.guest);
  }

  /** A binding found for a path is at or above it. */
  lemma {:induction false} GetSound(ls: Lists, side: Side, p: string)
    requires ls.Valid() && Plain(p) && ls.guest != []
    ensures var m := Get(ls, side, p);
            m.Some? ==> m.value.Valid() && m.value in ls.guest && Within(m.value.PathOn(side), p)
                        && |m.value.PathOn(side)| <= |p|
  {
    FirstMatchSound(OnSide(ls, side), side, p);
    var m := Get(ls, side, p);
    if m.Some? {
      HostValid(ls);
      SameMembers(ls, side, m.value);
      assert m.value.Valid();
    }
  }

  /** The last step of translate_path(): a canonical guest path to a host path. */
  function Translate(ls: Lists, p: string): Result<string>
    requires ls.Valid() && Unslashed(ls.guest) && Plain(p) && ls.guest != []
  {
    GetSound(ls, Guest, p);
    match Get(ls, Guest, p)
    case None => Err(ENOENT)
    case Some(b) => Ok(Through(b, Guest, p))
  }

  /** A path of no binding: it is in the root file-system, or nowhere. */
  function WithoutRoot(root: string, t: string): Result<string>
    requires Plain(root) && Plain(t)
  {
    ComparePlain(root, t);
    match ComparePaths(root, t)
    case Path1IsPrefix => Ok(if |root| == 1 then t else t[|root|..])
    case Equal => Ok("/")
    case _ => Err(EPERM)
  }

  /** detranslate_path() without referrer. */
  function Detranslate(ls: Lists, t: string): Result<string>
    requires ls.Valid() && ls.guest != [] && (t != "" && t[0] == '/' ==> Plain(t))
  {
    if |t| >= PATH_MAX then Err(ENAMETOOLONG)
    else if t == "" || t[0] != '/' then Ok(t)
    else
      GetSound(ls, Host, t);
      match Get(ls, Host, t)
      case Some(b) => Ok(Through(b, Host, t))
      case None =>
        assert ls.guest[|ls.guest| - 1].Valid();
        WithoutRoot(Root(ls), t)
  }

  /** Nothing is substituted, or the result fits and no slash comes in between. */
  predicate PassesThrough(b: Binding, side: Side, p: string)
    requires |b.PathOn(side)| <= |p|
  {
    b.needSubstitution ==> !b.slash && Fits(p, |b.PathOn(side)|, b.PathOn(Other(side)))
  }

  /** The length of a prefix that counts a slash too much takes that off the path. */
  lemma {:induction false} SlashedPrefix(p: string, g: string, h: string)
    requires Plain(p) && Plain(g) && Plain(h) && Within(g, p) && g != "/" && g != h && |g| < |p|
    ensures Fits(p, |g| + 1, h) ==> SubstitutePrefix(p, |g| + 1, h) == Trim(h) + p[|g| + 1..]
    ensures !Fits(p, |g| + 1, h) ==> SubstitutePrefix(p, |g| + 1, h) == p
    ensures SubstitutePrefix(p, |g| + 1, h) != Graft(h, g, p)
  {
    assert Trim(p) == p && Trim(g) == g && p[|g|] == '/' && |g| + 1 < |p|;
    GraftMoves(p, g, h);
    GraftPlain(h, g, p);
    assert |Trim(h) + p[|g| + 1..]| < |Trim(h) + p[|g|..]|;
    if |h| == 1 {
      assert Trim(h) + p[|g| + 1..] == p[|g| + 1..];
    }
  }

  /** A new prefix with a slash at its end puts one too much in. */
  lemma {:induction false} SlashedTarget(p: string, h: string, g: string)
    requires Plain(p) && Plain(h) && Plain(g) && Within(h, p) && g != "/" && g != h
    ensures |h| <= |p| && SubstitutePrefix(p, |h|, g + "/") != Graft(g, h, p)
  {
    WithinShorter(h, p);
    GraftMoves(p, h, g);
    GraftPlain(g, h, p);
    var r := SubstitutePrefix(p, |h|, g + "/");
    assert Trim(g) == g && |g| > 1;
    if |h| == 1 {
      assert Trim(p)[|Trim(h)|..] == Trim(p);
    }
    assert r == p || |r| > |Graft(g, h, p)|;
  }

  /** Substitution by a binding grafts exactly if it passes through. */
  lemma {:induction false} ThroughIsGraftIff(b: Binding, side: Side, p: string)
    requires b.Valid() && Plain(p) && Within(b.PathOn(side), p) && |b.SpelledOn(side)| <= |p|
    ensures |b.PathOn(side)| <= |p|
    ensures Through(b, side, p) == Graft(b.PathOn(Other(side)), b.PathOn(side), p) <==> PassesThrough(b, side, p)
  {
    WithinShorter(b.PathOn(side), p);
    if !b.needSubstitution {
      ThroughNothing(b, side, p);
    } else if !b.slash {
      SubstituteIsGraftIff(p, b.PathOn(side), b.PathOn(Other(side)));
    } else {
      ThroughSlashed(b, side, p);
    }
  }

  lemma {:induction false} ThroughNothing(b: Binding, side: Side, p: string)
    requires b.Valid() && Plain(p) && Within(b.PathOn(side), p) && !b.needSubstitution && |b.SpelledOn(side)| <= |p|
    ensures Through(b, side, p) == Graft(b.PathOn(Other(side)), b.PathOn(side), p)
  {
    var k := Trim(b.guest);
    assert k + Trim(p)[|k|..] == Trim(p);
    UntrimInjective(p, p);
  }

  lemma {:induction false} ThroughSlashed(b: Binding, side: Side, p: string)
    requires b.Valid() && Plain(p) && Within(b.PathOn(side), p) && b.needSubstitution && b.slash
    requires |b.SpelledOn(side)| <= |p|
    ensures Through(b, side, p) != Graft(b.PathOn(Other(side)), b.PathOn(side), p)
  {
    if side == Guest {
      SlashedPrefix(p, b.guest, b.host);
    } else {
      SlashedTarget(p, b.host, b.guest);
    }
  }

  // ---------------------------------------------------------------------
  // The round trip
  // ---------------------------------------------------------------------

  /** Valid, with a root. */
  ghost predicate Based(ls: Lists) {
    ls.Valid() && HasRoot(ls)
  }

  /** A name-space as set up: no guest path is spelled with a slash at its end. */
  ghost predicate Ready(ls: Lists) {
    Based(ls) && Unslashed(ls.guest)
  }

  lemma {:induction false} RootBinding(ls: Lists) returns (r: Binding)
    requires Based(ls)
    ensures ls.guest != [] && r == ls.guest[|ls.guest| - 1]
    ensures r in ls.guest && r.guest == "/" && r.Valid() && Root(ls) == r.host
  {
    RootIsLast(ls);
    r := ls.guest[|ls.guest| - 1];
  }

  /** The translation of a path is not cut off by PATH_MAX. */
  ghost predicate Translatable(ls: Lists, p: string) {
    match Get(ls, Guest, p)
    case None => true
    case Some(b) => |b.guest| <= |p| ==> PassesThrough(b, Guest, p)
  }

  /** The binding of a path and what grafting makes of the path. */
  ghost predicate Grafts(ls: Lists, p: string, b: Binding, t: string) {
    && b in ls.guest && b.Valid() && Plain(p) && Within(b.guest, p) && Get(ls, Guest, p) == Some(b)
    && Plain(t) && t == Graft(b.host, b.guest, p)
  }

  /** Every plain guest path is bound. */
  lemma {:induction false} PathIsBound(ls: Lists, p: string) returns (b: Binding)
    requires Ready(ls) && Plain(p)
    ensures ls.guest != [] && Get(ls, Guest, p) == Some(b)
    ensures b in ls.guest && b.Valid() && Within(b.guest, p) && |b.guest| <= |p|
  {
    var r := RootBinding(ls);
    WithinRoot(p);
    FirstMatchIsDeepest(ls, Guest, p, r);
    b := Get(ls, Guest, p).value;
    GetSound(ls, Guest, p);
  }

  lemma {:induction false} ThroughShort(b: Binding, p: string)
    requires b.Valid() && !b.slash && Plain(p) && |b.guest| <= |p| && PassesThrough(b, Guest, p)
    ensures |p| < PATH_MAX ==> |Through(b, Guest, p)| < PATH_MAX
  {
  }

  /** A path translates by grafting if and only if it is not cut off. */
  lemma {:induction false} TranslateIsGraftIff(ls: Lists, p: string) returns (b: Binding, t: string)
    requires Ready(ls) && Plain(p)
    ensures ls.guest != [] && Grafts(ls, p, b, t)
    ensures Translate(ls, p) == Ok(t) <==> Translatable(ls, p)
    ensures Translatable(ls, p) && |p| < PATH_MAX ==> |t| < PATH_MAX
  {
    b := PathIsBound(ls, p);
    ThroughIsGraftIff(b, Guest, p);
    GraftPlain(b.host, b.guest, p);
    t := Graft(b.host, b.guest, p);
    if PassesThrough(b, Guest, p) {
      ThroughShort(b, p);
    }
  }

  /** The exact condition under which translation by `b` can be undone: inside a
      root file-system other than "/", `b` must show the place where the path
      already is; elsewhere `b` must be the deepest binding on the host side, or
      that one must be cut off and leave a path that did not change. */
  ghost predicate Undoable(ls: Lists, b: Binding, p: string, t: string)
    requires ls.guest != []
  {
    var root := Root(ls);
    if root != "/" && Within(root, t) then b.host == Untrim(Trim(root) + Trim(b.guest))
    else
      var m := FirstMatch(ls.host, Host, t);
      m.Some? && |m.value.host| <= |t| && if PassesThrough(m.value, Host, t) then m.value == b else t == p
  }

  /** Inside a root other than "/", the root is stripped. */
  lemma {:induction false} DetranslateInRoot(ls: Lists, t: string)
    requires Ready(ls) && Plain(t) && |t| < PATH_MAX
    requires ls.guest != [] && Root(ls) != "/" && Within(Root(ls), t)
    ensures Detranslate(ls, t) == Ok(Graft("/", Root(ls), t))
  {
    var r := RootBinding(ls);
    StripIsGraft(r.host, t);
  }

  lemma {:induction false} StripIsGraft(root: string, t: string)
    requires Plain(root) && Plain(t) && Within(root, t) && root != "/"
    ensures WithoutRoot(root, t) == Ok(Graft("/", root, t))
  {
    ComparePlain(root, t);
    UntrimInjective(root, t);
    assert Trim("/") + Trim(t)[|Trim(root)|..] == Trim(t)[|Trim(root)|..];
  }

  /** Elsewhere, the deepest binding on the host side is undone. */
  lemma {:induction false} DetranslateElsewhere(ls: Lists, t: string, m: Binding)
    requires Ready(ls) && Plain(t) && |t| < PATH_MAX
    requires ls.guest != [] && !(Root(ls) != "/" && Within(Root(ls), t))
    requires FirstMatch(ls.host, Host, t) == Some(m)
    ensures m.Valid() && m in ls.guest && Within(m.host, t) && |m.host| <= |t|
    ensures Detranslate(ls, t) == Ok(if PassesThrough(m, Host, t) then Graft(m.guest, m.host, t) else t)
  {
    GetSound(ls, Host, t);
    ThroughIsGraftIff(m, Host, t);
  }

  /** A path is refused as too long exactly from 4096 characters on, left alone exactly
      if it is relative or empty, and refused with EPERM exactly if it is absolute and in
      the host tree of no binding, the root included. */
  lemma {:induction false} DetranslateRefusesIff(ls: Lists, t: string)
    requires Ready(ls) && ls.guest != [] && (t != "" && t[0] == '/' ==> Plain(t))
    ensures Detranslate(ls, t) == Err(ENAMETOOLONG) <==> |t| >= 4096
    ensures |t| < 4096 && (t == "" || t[0] != '/') ==> Detranslate(ls, t) == Ok(t)
    ensures Detranslate(ls, t) == Err(EPERM)
            <==> |t| < 4096 && t != "" && t[0] == '/' && forall b :: b in ls.guest ==> !Within(b.host, t)
    ensures Detranslate(ls, t).Err? ==> Detranslate(ls, t).errno == EPERM || Detranslate(ls, t).errno == ENAMETOOLONG
  {
    if |t| < 4096 && t != "" && t[0] == '/' {
      DetranslateInside(ls, t);
    }
  }

  lemma {:induction false} DetranslateInside(ls: Lists, t: string)
    requires Ready(ls) && ls.guest != [] && Plain(t) && |t| < PATH_MAX
    ensures if forall b :: b in ls.guest ==> !Within(b.host, t) then Detranslate(ls, t) == Err(EPERM)
            else Detranslate(ls, t).Ok?
  {
    if b :| b in ls.guest && Within(b.host, t) {
      DetranslateBound(ls, t, b);
    } else {
      DetranslateUnbound(ls, t);
    }
  }

  lemma {:induction false} DetranslateBound(ls: Lists, t: string, b: Binding)
    requires Ready(ls) && ls.guest != [] && Plain(t) && |t| < PATH_MAX && b in ls.guest && Within(b.host, t)
    ensures Detranslate(ls, t).Ok?
  {
    if Root(ls) != "/" && Within(Root(ls), t) {
      DetranslateInRoot(ls, t);
    } else {
      assert b in multiset(ls.host);
      FirstMatchIsDeepest(ls, Host, t, b);
      DetranslateElsewhere(ls, t, FirstMatch(ls.host, Host, t).value);
    }
  }

  lemma {:induction false} DetranslateUnbound(ls: Lists, t: string)
    requires Ready(ls) && ls.guest != [] && Plain(t) && |t| < PATH_MAX
    requires forall b :: b in ls.guest ==> !Within(b.host, t)
    ensures Detranslate(ls, t) == Err(EPERM)
  {
    forall b | b in ls.host ensures !Within(b.host, t) {
      SameMembers(ls, Host, b);
    }
    FirstMatchSound(ls.host, Host, t);
    var r := RootBinding(ls);
    UnrelatedRoot(r.host, t);
  }

  lemma {:induction false} UnrelatedRoot(root: string, t: string)
    requires Plain(root) && Plain(t) && !Within(root, t)
    ensures WithoutRoot(root, t) == Err(EPERM)
  {
    ComparePlain(root, t);
  }

  /** The trimmed spellings of a graft. */
  lemma {:induction false} GraftParts(h: string, g: string, p: string) returns (rest: string)
    requires Plain(h) && Plain(g) && Plain(p) && Within(g, p)
    ensures Trim(p) == Trim(g) + rest && Trim(Graft(h, g, p)) == Trim(h) + rest
    ensures rest == "" || rest[0] == '/'
    ensures Plain(Graft(h, g, p))
  {
    rest := Trim(p)[|Trim(g)|..];
    GraftPlain(h, g, p);
  }

  lemma {:induction false} ConcatIff(h: string, root: string, g: string, rest: string, rest': string)
    requires h + rest == root + rest'
    ensures rest' == g + rest <==> h == root + g
  {
    assert (root + g) + rest == root + (g + rest);
    CancelLeft(root, rest', g + rest);
    CancelRight(h, root + g, rest);
  }

  lemma {:induction false} ConcatDeeper(h: string, s: string, g: string, mg: string, rest: string, rest': string)
    requires h + rest == (h + s) + rest' && mg + rest' == g + rest
    ensures mg == g + s
  {
    assert (h + s) + rest' == h + (s + rest');
    CancelLeft(h, rest, s + rest');
    assert g + rest == (g + s) + rest';
    CancelRight(mg, g + s, rest');
  }

  lemma {:induction false} RootGraftIff(p: string, root: string, h: string, g: string)
    requires Plain(p) && Plain(root) && Plain(h) && Plain(g) && Within(g, p)
    requires Within(root, Graft(h, g, p))
    ensures Graft("/", root, Graft(h, g, p)) == p <==> h == Untrim(Trim(root) + Trim(g))
  {
    var t := Graft(h, g, p);
    var rest := GraftParts(h, g, p);
    var rest' := StrippedParts(root, t);
    ConcatIff(Trim(h), Trim(root), Trim(g), rest, rest');
    UntrimInjective(Graft("/", root, t), p);
    JoinedPlain(root, g);
    UntrimInjective(h, Untrim(Trim(root) + Trim(g)));
  }

  /** The root taken off a path. */
  lemma {:induction false} StrippedParts(root: string, t: string) returns (rest: string)
    requires Plain(root) && Plain(t) && Within(root, t)
    ensures Trim(t) == Trim(root) + rest && Trim(Graft("/", root, t)) == rest && Plain(Graft("/", root, t))
  {
    rest := GraftParts("/", root, t);
    assert Trim("/") + rest == rest;
  }

  lemma {:induction false} JoinedPlain(root: string, g: string)
    requires Plain(root) && Plain(g)
    ensures Plain(Untrim(Trim(root) + Trim(g))) && Trim(Untrim(Trim(root) + Trim(g))) == Trim(root) + Trim(g)
  {
    WithinRoot(g);
    var rest := GraftParts(root, "/", g);
    assert Trim("/") + rest == rest;
  }

  lemma {:induction false} DeeperSpelling(p: string, h: string, g: string, mh: string, mg: string, t: string)
    requires g <= p && t == h + p[|g|..] && mh <= t && h <= mh && mg + t[|mh|..] == p
    ensures mg == g + mh[|h|..]
  {
    var rest, rest', s := p[|g|..], t[|mh|..], mh[|h|..];
    assert p == g + rest && t == mh + rest' && mh == h + s;
    ConcatDeeper(h, s, g, mg, rest, rest');
  }

  /** Undoing a deeper binding gives the path back only if it is as much deeper on the guest side. */
  lemma {:induction false} DeeperGraft(p: string, h: string, g: string, mh: string, mg: string, t: string)
    requires Plain(p) && Plain(h) && Plain(g) && Plain(mh) && Plain(mg) && Plain(t)
    requires Within(g, p) && t == Graft(h, g, p) && Within(mh, t) && Within(h, mh)
    requires Graft(mg, mh, t) == p
    ensures |Trim(g)| <= |Trim(mg)|
    ensures Trim(g) == Trim(mg) ==> g == mg
  {
    GraftPlain(h, g, p);
    GraftPlain(mg, mh, t);
    DeeperSpelling(Trim(p), Trim(h), Trim(g), Trim(mh), Trim(mg), Trim(t));
    UntrimInjective(mg, g);
  }

  lemma {:induction false} GraftBack(p: string, h: string, g: string)
    requires Plain(p) && Plain(h) && Plain(g) && Within(g, p)
    ensures Within(h, Graft(h, g, p)) && Graft(g, h, Graft(h, g, p)) == p
  {
    GraftPlain(h, g, p);
    var t := Graft(h, g, p);
    var rest := GraftParts(h, g, p);
    var rest' := GraftParts(g, h, t);
    CancelLeft(Trim(h), rest, rest');
    UntrimInjective(Graft(g, h, t), p);
  }

  lemma {:induction false} OnlyOneShows(ls: Lists, p: string, b: Binding, m: Binding, t: string)
    requires ls.Valid() && Plain(p) && Plain(t) && b in ls.guest && m in ls.guest && b.Valid() && m.Valid()
    requires FirstMatch(ls.guest, Guest, p) == Some(b)
    requires Within(b.guest, p) && t == Graft(b.host, b.guest, p) && Within(m.host, t) && Within(b.host, m.host)
    requires Graft(m.guest, m.host, t) == p
    ensures m == b
  {
    DeeperGraft(p, b.host, b.guest, m.host, m.guest, t);
    GraftPlain(m.guest, m.host, t);
    FirstMatchIsDeepest(ls, Guest, p, m);
  }

  lemma {:induction false} UnguardedRoundTrip(ls: Lists, p: string, b: Binding, t: string)
    requires Ready(ls) && ls.guest != [] && Grafts(ls, p, b, t) && |t| < PATH_MAX
    requires !(Root(ls) != "/" && Within(Root(ls), t))
    ensures Detranslate(ls, t) == Ok(p) <==> Undoable(ls, b, p, t)
  {
    GraftBack(p, b.host, b.guest);
    assert b in multiset(ls.host);
    FirstMatchIsDeepest(ls, Host, t, b);
    var m := FirstMatch(ls.host, Host, t).value;
    DetranslateElsewhere(ls, t, m);
    if Graft(m.guest, m.host, t) == p {
      // `m` then shows `p` as well, so it cannot be deeper than `b`.
      OnlyOneShows(ls, p, b, m, t);
    }
  }

  /** Detranslating the translation of a guest path gives it back if and only if
      its binding is undoable at the translated path. */
  lemma {:induction false} RoundTripIff(ls: Lists, p: string)
    requires Ready(ls) && Plain(p) && |p| < PATH_MAX && Translatable(ls, p)
    ensures ls.guest != [] && Get(ls, Guest, p).Some?
    ensures Translate(ls, p).Ok? && Plain(Translate(ls, p).value)
    ensures Detranslate(ls, Translate(ls, p).value) == Ok(p)
            <==> Undoable(ls, Get(ls, Guest, p).value, p, Translate(ls, p).value)
  {
    var b, t := TranslateIsGraftIff(ls, p);
    if Root(ls) != "/" && Within(Root(ls), t) {
      var r := RootBinding(ls);
      DetranslateInRoot(ls, t);
      RootGraftIff(p, r.host, b.host, b.guest);
    } else {
      UnguardedRoundTrip(ls, p, b, t);
    }
  }

  /** Whatever else is bound, the paths of a root file-system other than "/"
      come back. */
  lemma {:induction false} RootRoundTrip(ls: Lists, p: string)
    requires Ready(ls) && Plain(p) && |p| < PATH_MAX && Translatable(ls, p) && ls.guest != [] && Root(ls) != "/"
    requires Get(ls, Guest, p).Some? && Get(ls, Guest, p).value.guest == "/"
    ensures Translate(ls, p).Ok? && Plain(Translate(ls, p).value)
    ensures Detranslate(ls, Translate(ls, p).value) == Ok(p)
  {
    RoundTripIff(ls, p);
    var b, t := TranslateIsGraftIff(ls, p);
    var r := RootBinding(ls);
    FirstMatchIsDeepest(ls, Guest, p, r);
    GraftPlain(b.host, b.guest, p);
    UntrimInjective(b.host, b.host);
    assert Trim(b.host) + Trim("/") == Trim(b.host);
  }

  predicate Overlap(p: string, q: string) { Within(p, q) || Within(q, p) }

  /** The host tree of `b` overlaps no other one, a root at "/" excepted. */
  ghost predicate Disjoint(ls: Lists, b: Binding) {
    && b.host != "/"
    && forall x :: x in ls.guest && x != b && x.host != "/" ==> !Overlap(x.host, b.host)
  }

  lemma {:induction false} DisjointMatch(ls: Lists, b: Binding, x: Binding, t: string)
    requires Disjoint(ls, b) && x in ls.guest && Within(b.host, t)
    ensures Within(x.host, t) ==> x == b || x.host == "/"
  {
    if Within(x.host, t) {
      WithinLinear(x.host, b.host, t);
      assert Overlap(x.host, b.host);
    }
  }

  /** The way back is not cut off if the path was not too long to begin with. */
  lemma {:induction false} FitsBack(p: string, h: string, g: string)
    requires Plain(p) && Plain(h) && Plain(g) && Within(g, p) && h != "/" && |p| < PATH_MAX
    ensures |h| <= |Graft(h, g, p)| && Fits(Graft(h, g, p), |h|, g)
  {
    GraftPlain(h, g, p);
  }

  /** The binding of `p` is the deepest on the host side as well. */
  lemma {:induction false} DisjointIsDeepest(ls: Lists, p: string, b: Binding, t: string)
    requires Ready(ls) && Grafts(ls, p, b, t) && Disjoint(ls, b)
    ensures FirstMatch(ls.host, Host, t) == Some(b)
  {
    GraftPlain(b.host, b.guest, p);
    assert b in multiset(ls.host);
    FirstMatchIsDeepest(ls, Host, t, b);
    var m := FirstMatch(ls.host, Host, t).value;
    assert m in multiset(ls.host);
    assert m.Valid() by { HostValid(ls); }
    DisjointMatch(ls, b, m, t);
    if m.host == "/" {
      WithinRoot(b.host);
      WithinAntisymmetric(m.host, b.host);
    }
  }

  /** The paths of any binding with a host tree of its own come back. */
  lemma {:induction false} DisjointRoundTrip(ls: Lists, p: string)
    requires Ready(ls) && Plain(p) && |p| < PATH_MAX && Translatable(ls, p) && ls.guest != []
    requires Get(ls, Guest, p).Some? && Get(ls, Guest, p).value.guest != "/"
    requires Disjoint(ls, Get(ls, Guest, p).value)
    ensures Translate(ls, p).Ok? && Plain(Translate(ls, p).value)
    ensures Detranslate(ls, Translate(ls, p).value) == Ok(p)
  {
    RoundTripIff(ls, p);
    var b, t := TranslateIsGraftIff(ls, p);
    var r := RootBinding(ls);
    GraftPlain(b.host, b.guest, p);
    DisjointMatch(ls, b, r, t);
    DisjointIsDeepest(ls, p, b, t);
    FitsBack(p, b.host, b.guest);
  }
}
