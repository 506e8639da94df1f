/**
Lexical paths: components, canonical spelling, joining, in-place
normalization and comparison.  A C string is a `string` without NUL; reading
at its length yields NUL.
 */
module Paths {
  import opened Common

  const PATH_MAX: nat := 4096
  const NAME_MAX: nat := 255

  // ---------------------------------------------------------------------
  // Components
  // ---------------------------------------------------------------------

  /** The length of the longest prefix of `p` without a slash. */
  function NameLength(p: string): (n: nat)
    ensures n <= |p|
    ensures '/' !in p[..n]
    ensures n < |p| ==> p[n] == '/'
  {
    if p == "" || p[0] == '/' then 0 else 1 + NameLength(p[1..])
  }

  predicate AllPieces(cs: seq<string>) {
    forall i :: 0 <= i < |cs| ==> cs[i] != "" && '/' !in cs[i]
  }

  predicate AllShort(cs: seq<string>) {
    forall i :: 0 <= i < |cs| ==> |cs[i]| < NAME_MAX
  }

  /** The non-empty names between the slashes of `p`. */
  function Components(p: string): (cs: seq<string>)
    ensures AllPieces(cs)
    decreases |p|
  {
    if p == "" then []
    else if p[0] == '/' then Components(p[1..])
    else var n := NameLength(p); [p[..n]] + Components(p[n..])
  }

  /** One component applied to a stack of names: "." stays, ".." pops (at the root: stays). */
  function Apply(stack: seq<string>, c: string): seq<string> {
    if c == "." then stack
    else if c == ".." then (if stack == [] then [] else stack[..|stack| - 1])
    else stack + [c]
  }

  function Resolve(stack: seq<string>, cs: seq<string>): seq<string>
    decreases |cs|
  {
    if cs == [] then stack else Resolve(Apply(stack, cs[0]), cs[1..])
  }

  predicate IsName(c: string) {
    c != "" && '/' !in c && c != "." && c != ".."
  }

  predicate AllNames(stack: seq<string>) {
    forall i :: 0 <= i < |stack| ==> IsName(stack[i])
  }

  /** Each name preceded by a slash. */
  function Spell(stack: seq<string>): string {
    if stack == [] then "" else Spell(stack[..|stack| - 1]) + "/" + stack[|stack| - 1]
  }

  /** The canonical spelling of a stack. */
  function Render(stack: seq<string>): string {
    if stack == [] then "/" else Spell(stack)
  }

  /** The lexical normal form: an independent definition of what normalization computes. */
  function Normal(p: string): string {
    Render(Resolve([], Components(p)))
  }

  predicate Canonical(p: string) {
    AllNames(Components(p)) && p == Render(Components(p))
  }

  lemma {:induction false} ResolveAppend(stack: seq<string>, a: seq<string>, b: seq<string>)
    ensures Resolve(stack, a + b) == Resolve(Resolve(stack, a), b)
    decreases |a|
  {
    if a == [] {
      assert a + b == b;
    } else {
      assert (a + b)[0] == a[0] && (a + b)[1..] == a[1..] + b;
      ResolveAppend(Apply(stack, a[0]), a[1..], b);
    }
  }

  lemma {:induction false} ResolveNames(stack: seq<string>, cs: seq<string>)
    requires AllNames(stack) && AllPieces(cs)
    ensures AllNames(Resolve(stack, cs))
    ensures AllShort(stack) && AllShort(cs) ==> AllShort(Resolve(stack, cs))
    decreases |cs|
  {
    if cs != [] {
      ResolveNames(Apply(stack, cs[0]), cs[1..]);
    }
  }

  lemma {:induction false} ResolveOfNames(stack: seq<string>, cs: seq<string>)
    requires AllNames(cs)
    ensures Resolve(stack, cs) == stack + cs
    decreases |cs|
  {
    if cs != [] {
      assert IsName(cs[0]);
      ResolveOfNames(stack + [cs[0]], cs[1..]);
      assert stack + [cs[0]] + cs[1..] == stack + cs;
    }
  }

  lemma {:induction false} NameLengthAppend(n: string, rest: string)
    requires '/' !in n && (rest != "" ==> rest[0] == '/')
    ensures NameLength(n + rest) == |n|
  {
    if n == "" {
      assert n + rest == rest;
    } else {
      assert n[0] != '/' && '/' !in n[1..];
      assert (n + rest)[1..] == n[1..] + rest;
      NameLengthAppend(n[1..], rest);
    }
  }

  lemma {:induction false} ComponentsNamed(name: string, rest: string)
    requires name != "" && '/' !in name && (rest != "" ==> rest[0] == '/')
    ensures Components(name + rest) == [name] + Components(rest)
  {
    NameLengthAppend(name, rest);
    var p := name + rest;
    assert p[0] == name[0] && p[..|name|] == name && p[|name|..] == rest;
  }

  lemma {:induction false} ComponentsSlash(p: string)
    ensures Components("/" + p) == Components(p)
  {
    assert ("/" + p)[1..] == p;
  }

  /** Components are cut at slashes. */
  lemma {:induction false} ComponentsAppend(p: string, q: string)
    requires q != "" ==> q[0] == '/'
    ensures Components(p + q) == Components(p) + Components(q)
    decreases |p|
  {
    if p == "" {
      assert p + q == q;
    } else if p[0] == '/' {
      var rest := p[1..];
      assert p == "/" + rest && p + q == "/" + (rest + q);
      ComponentsSlash(rest);
      ComponentsSlash(rest + q);
      ComponentsAppend(rest, q);
    } else {
      var n := NameLength(p);
      var name, rest := p[..n], p[n..];
      assert p == name + rest && p + q == name + (rest + q);
      ComponentsNamed(name, rest);
      ComponentsNamed(name, rest + q);
      ComponentsAppend(rest, q);
      Regroup([name], Components(rest), Components(q));
    }
  }

  lemma {:induction false} ComponentsOfName(n: string)
    requires n != "" && '/' !in n
    ensures Components(n) == [n] && Components("/" + n) == [n]
  {
    NameLengthAppend(n, "");
    assert n + "" == n;
    assert n[..|n|] == n && n[|n|..] == "";
    assert ("/" + n)[1..] == n;
  }

  lemma {:induction false} ComponentsOfSpell(stack: seq<string>)
    requires AllPieces(stack)
    ensures Components(Spell(stack)) == stack
  {
    if stack != [] {
      var init, last := stack[..|stack| - 1], stack[|stack| - 1];
      calc {
        Components(Spell(stack));
        { assert Spell(stack) == Spell(init) + ("/" + last); }
        Components(Spell(init) + ("/" + last));
        { ComponentsAppend(Spell(init), "/" + last); }
        Components(Spell(init)) + Components("/" + last);
        { ComponentsOfSpell(init); ComponentsOfName(last); }
        init + [last];
        stack;
      }
    }
  }

  /** Spelling a stack and cutting it again gives the stack back. */
  lemma {:induction false} ComponentsOfRender(stack: seq<string>)
    requires AllPieces(stack)
    ensures Components(Render(stack)) == stack
  {
    ComponentsOfSpell(stack);
    assert Components("/") == Components("");
  }

  /** The normal form is canonical, and normalizing it again changes nothing. */
  lemma {:induction false} NormalIsCanonical(p: string)
    ensures Canonical(Normal(p))
    ensures Normal(Normal(p)) == Normal(p)
    ensures AllShort(Components(p)) ==> AllShort(Components(Normal(p)))
  {
    var cs := Components(p);
    var stack := Resolve([], cs);
    ResolveNames([], cs);
    ComponentsOfRender(stack);
    ResolveOfNames([], stack);
    assert [] + stack == stack;
  }

  /** A canonical path is its own normal form. */
  lemma {:induction false} CanonicalIsNormal(p: string)
    requires Canonical(p)
    ensures Normal(p) == p
  {
    ResolveOfNames([], Components(p));
    assert [] + Components(p) == Components(p);
  }

  lemma {:induction false} SpellAppend(a: seq<string>, b: seq<string>)
    ensures Spell(a + b) == Spell(a) + Spell(b)
    decreases |b|
  {
    if b == [] {
      assert a + b == a;
    } else {
      var init := b[..|b| - 1];
      assert (a + b)[..|a + b| - 1] == a + init;
      SpellAppend(a, init);
      assert Spell(a + b) == (Spell(a) + Spell(init)) + "/" + b[|b| - 1];
    }
  }

  lemma {:induction false} SpellStart(stack: seq<string>)
    ensures stack != [] ==> |Spell(stack)| > 0 && Spell(stack)[0] == '/'
  {
    if |stack| > 1 {
      SpellStart(stack[..|stack| - 1]);
    }
  }

  // ---------------------------------------------------------------------
  // Joining
  // ---------------------------------------------------------------------

  /** join_paths() with two paths. */
  function Join(a: string, b: string): Result<string> {
    if |a| + 1 >= PATH_MAX then Err(ENAMETOOLONG)
    else if a != "" && a[|a| - 1] != '/' && (b == "" || b[0] != '/') then
      if |a| + |b| + 1 + 1 >= PATH_MAX then Err(ENAMETOOLONG) else Ok(a + "/" + b)
    else if a != "" && a[|a| - 1] == '/' && b != "" && b[0] == '/' then
      if |a| + |b| - 1 + 1 >= PATH_MAX then Err(ENAMETOOLONG) else Ok(a + b[1..])
    else
      if |a| + |b| + 1 >= PATH_MAX then Err(ENAMETOOLONG) else Ok(a + b)
  }

  /** Two paths that fit the buffer with a separator are joined, by exactly one slash where
      they meet unless one of them is empty; nothing is joined that does not fit. */
  lemma {:induction false} JoinFits(a: string, b: string)
    ensures |a| + |b| + 2 < 4096 ==> Join(a, b).Ok?
    ensures Join(a, b).Ok? ==> |Join(a, b).value| + 1 < 4096
    ensures Join(a, b).Ok? && a != "" && b != "" ==>
              var k := |Trim(a)|; var v := Join(a, b).value;
              k < |v| && v[..k] == Trim(a) && v[k] == '/' && v[k + 1..] == if b[0] == '/' then b[1..] else b
    ensures Join(a, b).Err? ==> Join(a, b).errno == ENAMETOOLONG
  {
  }

  lemma {:induction false} ComponentsTrailingSlash(p: string)
    ensures Components(p + "/") == Components(p)
  {
    ComponentsAppend(p, "/");
    assert Components("/") == [];
  }

  /** Joining concatenates the components: the separator is never lost nor invented. */
  lemma {:induction false} JoinComponents(a: string, b: string)
    requires Join(a, b).Ok?
    ensures Components(Join(a, b).value) == Components(a) + Components(b)
  {
    if a != "" && a[|a| - 1] != '/' && (b == "" || b[0] != '/') {
      ComponentsAppend(a, "/" + b);
      assert ("/" + b)[1..] == b;
      assert a + "/" + b == a + ("/" + b);
    } else if a != "" && a[|a| - 1] == '/' {
      var a' := a[..|a| - 1];
      var b' := if b != "" && b[0] == '/' then b[1..] else b;
      assert a == a' + "/" && a + b' == a' + ("/" + b');
      ComponentsTrailingSlash(a');
      ComponentsAppend(a', "/" + b');
      assert ("/" + b')[1..] == b';
      if b != "" && b[0] == '/' {
        assert Components(b) == Components(b[1..]);
      }
    } else {
      if a == "" {
        assert a + b == b;
      } else {
        ComponentsAppend(a, b);
      }
    }
  }

  // ---------------------------------------------------------------------
  // Normalization in a fixed buffer
  // ---------------------------------------------------------------------

  /** What the buffer spells: the stack, with a trailing slash left by a pop. */
  ghost predicate Spells(b: string, stack: seq<string>) {
    b == Render(stack) || (stack != [] && b == Render(stack) + "/")
  }

  /** Advance over separators. */
  method SkipSlashes(path: string, from: nat) returns (c: nat)
    requires from <= |path|
    ensures from <= c <= |path|
    ensures c < |path| ==> path[c] != '/'
    ensures from < |path| && path[from] == '/' ==> from < c
    ensures forall i :: from <= i < c ==> path[i] == '/'
    ensures Components(path[from..]) == Components(path[c..])
  {
    c := from;
    while c < |path| && path[c] == '/'
      invariant from <= c <= |path|
      invariant forall i :: from <= i < c ==> path[i] == '/'
      invariant Components(path[from..]) == Components(path[c..])
    {
      assert path[c..][1..] == path[c + 1..];
      c := c + 1;
    }
  }

  /** Advance over the bytes of one name. */
  method MeasureName(path: string, from: nat) returns (length: nat)
    requires from <= |path|
    ensures length == NameLength(path[from..])
  {
    length := 0;
    assert path[from..] == path[from + length..];
    while from + length < |path| && path[from + length] != '/'
      invariant from + length <= |path|
      invariant NameLength(path[from..]) == length + NameLength(path[from + length..])
    {
      assert path[from + length..][1..] == path[from + length + 1..];
      length := length + 1;
    }
  }

  lemma {:induction false} ComponentsStep(path: string, cursor: nat, n: nat)
    requires cursor <= |path| && n == NameLength(path[cursor..]) > 0
    ensures cursor + n <= |path|
    ensures cursor + n < |path| ==> path[cursor + n] == '/'
    ensures path[cursor..cursor + n] != "" && '/' !in path[cursor..cursor + n]
    ensures Components(path[cursor..]) == [path[cursor..cursor + n]] + Components(path[cursor + n..])
  {
    var p := path[cursor..];
    assert p[..n] == path[cursor..cursor + n] && p[n..] == path[cursor + n..];
  }

  /** Drop the last name of a spelled stack, leaving the slash before it. */
  method PopName(b: array<char>, out: nat, ghost stack: seq<string>) returns (o: nat)
    requires 1 < out <= b.Length
    requires AllNames(stack) && Spells(b[..out], stack)
    ensures stack != [] && 1 <= o < out
    ensures Spells(b[..o], stack[..|stack| - 1])
  {
    assert stack != [];
    ghost var init, last := stack[..|stack| - 1], stack[|stack| - 1];
    ghost var base := Spell(init) + "/";
    assert IsName(last);
    assert forall k :: 0 <= k < |base + last| ==> b[..out][k] == (base + last)[k];
    o := out - 1;
    while o > 0 && b[o - 1] != '/'
      invariant |base| <= o < out
    {
      assert o > |base|;
      o := o - 1;
    }
    assert b[..o] == base;
  }

  /** memcpy() of a name at the end of the buffer. */
  method CopyName(b: array<char>, out: nat, name: string) returns (o: nat)
    requires out + |name| <= b.Length
    modifies b
    ensures o == out + |name|
    ensures b[..o] == old(b[..out]) + name
  {
    forall i | 0 <= i < |name| {
      b[out + i] := name[i];
    }
    o := out + |name|;
  }

  /** A rendered stack ends in a slash only at the root. */
  lemma {:induction false} RenderEnd(stack: seq<string>)
    requires AllNames(stack)
    ensures var p := Render(stack); |p| > 0 && p[0] == '/' && (stack != [] ==> |p| > 1 && p[|p| - 1] != '/')
  {
    SpellStart(stack);
    if stack != [] {
      var last := stack[|stack| - 1];
      assert IsName(last);
      var p := Spell(stack);
      assert p[|p| - 1] == last[|last| - 1];
      assert last[|last| - 1] in last;
    }
  }

  /** Append a name, with a slash if none is there.  The test that the source
      makes on the way, and that would return -ENAMETOOLONG, is the negation of
      the precondition. */
  method PushName(b: array<char>, out: nat, name: string, ghost stack: seq<string>) returns (o: nat)
    requires b.Length == PATH_MAX && 1 <= out && out + |name| + 2 <= PATH_MAX
    requires AllNames(stack) && IsName(name) && Spells(b[..out], stack)
    modifies b
    ensures out + |name| <= o <= out + 1 + |name| && (out == 1 ==> o == 1 + |name|)
    ensures Spells(b[..o], stack + [name])
  {
    RenderEnd(stack);
    assert (stack + [name])[..|stack|] == stack;
    o := out;
    ghost var text := b[..out];
    if out > 1 && b[out - 1] != '/' {
      b[o] := '/';
      o := o + 1;
      assert b[..o] == text + "/";
    }
    assert b[..o] == Spell(stack) + "/";
    o := CopyName(b, o, name);
  }

  /** The next name of `path`, found by skipping separators; empty at the end. */
  method NextName(path: string, from: nat) returns (name: string, next: nat)
    requires from < |path| && path[from] == '/'
    ensures from + 1 + |name| <= next <= |path|
    ensures next < |path| ==> path[next] == '/'
    ensures name == "" ==> Components(path[from..]) == []
    ensures name != "" ==> '/' !in name && Components(path[from..]) == [name] + Components(path[next..])
  {
    var start := SkipSlashes(path, from);
    var length := MeasureName(path, start);
    name, next := path[start..start + length], start + length;
    if length > 0 {
      ComponentsStep(path, start, length);
    }
  }

  /** One component applied to the buffer. */
  method ApplyInPlace(b: array<char>, out: nat, c: string, ghost stack: seq<string>) returns (o: nat)
    requires b.Length == PATH_MAX && 1 <= out && out + |c| + 2 <= PATH_MAX
    requires AllNames(stack) && c != "" && '/' !in c && Spells(b[..out], stack)
    modifies b
    ensures 1 <= o <= out + 1 + |c| && (out == 1 ==> o <= 1 + |c|)
    ensures AllNames(Apply(stack, c)) && Spells(b[..o], Apply(stack, c))
  {
    ApplyNames(stack, c);
    o := out;
    if c == "." {
    } else if c == ".." {
      if out > 1 {
        o := PopName(b, out, stack);
      } else {
        SpellsRoot(b[..out], stack);
      }
    } else {
      o := PushName(b, out, c, stack);
    }
  }

  lemma {:induction false} ApplyNames(stack: seq<string>, c: string)
    requires AllNames(stack) && c != "" && '/' !in c
    ensures AllNames(Apply(stack, c))
  {
  }

  lemma {:induction false} SpellsRoot(p: string, stack: seq<string>)
    requires AllNames(stack) && Spells(p, stack) && |p| <= 1
    ensures stack == []
  {
    RenderEnd(stack);
  }

  /** Remove the slash that a final pop leaves behind. */
  method DropEndSlash(b: array<char>, out: nat, ghost stack: seq<string>) returns (o: nat)
    requires 1 <= out <= b.Length
    requires AllNames(stack) && Spells(b[..out], stack)
    ensures o <= b.Length && b[..o] == Render(stack)
  {
    RenderEnd(stack);
    o := out;
    if out > 1 && b[out - 1] == '/' {
      o := out - 1;
    }
  }

  /** normalize_guest_path().  The overflow test of the source never fires on a
      path that fits its own buffer (the precondition of PushName), so that
      normalization fails exactly on relative paths and on paths with an over-long
      component. */
  method NormalizeGuestPath(path: string) returns (r: Result<string>)
    requires |path| < PATH_MAX
    ensures r == if path == "" || path[0] != '/' then Err(EINVAL)
                 else if !AllShort(Components(path)) then Err(ENAMETOOLONG)
                 else Ok(Normal(path))
  {
    if path == "" || path[0] != '/' {
      return Err(EINVAL);
    }
    var normalized := new char[PATH_MAX];
    normalized[0] := '/';
    var out := 1;
    var cursor := 0;
    ghost var all := Components(path);
    ghost var stack: seq<string>, rest := [], all;
    assert path[0..] == path;
    assert normalized[..1] == "/";
    while cursor < |path|
      invariant 0 <= cursor <= |path| && 1 <= out < PATH_MAX
      invariant cursor < |path| ==> path[cursor] == '/'
      invariant out <= cursor || (out == 1 && cursor == 0)
      invariant AllNames(stack) && Spells(normalized[..out], stack)
      invariant rest == Components(path[cursor..])
      invariant Resolve([], all) == Resolve(stack, rest)
      invariant AllShort(all) <==> AllShort(rest)
      decreases |path| - cursor
    {
      var component, next := NextName(path, cursor);
      if component == "" {
        break;
      }
      ghost var rest' := Components(path[next..]);
      ConsStep(stack, component, rest');
      if |component| >= NAME_MAX {
        return Err(ENAMETOOLONG);
      }
      out := ApplyInPlace(normalized, out, component, stack);
      stack, rest := Apply(stack, component), rest';
      cursor := next;
    }
    assert rest == [];
    out := DropEndSlash(normalized, out, stack);
    r := Ok(normalized[..out]);
  }

  lemma {:induction false} ConsStep(stack: seq<string>, c: string, cs: seq<string>)
    ensures Resolve(stack, [c] + cs) == Resolve(Apply(stack, c), cs)
    ensures AllShort([c] + cs) <==> |c| < NAME_MAX && AllShort(cs)
  {
    assert ([c] + cs)[1..] == cs;
    assert forall i :: 0 <= i < |cs| ==> cs[i] == ([c] + cs)[i + 1];
  }

  // ---------------------------------------------------------------------
  // Comparison
  // ---------------------------------------------------------------------

  datatype Comparison = Equal | Path1IsPrefix | Path2IsPrefix | NotComparable

  /** A C string read at `i`, its terminator included. */
  function At(p: string, i: nat): char
    requires i <= |p|
  {
    if i < |p| then p[i] else '\0'
  }

  /** A path without its trailing slash. */
  function Trim(p: string): string {
    if p != "" && p[|p| - 1] == '/' then p[..|p| - 1] else p
  }

  /** compare_paths() and compare_paths2(), which gets both lengths from strlen(). */
  function ComparePaths(path1: string, path2: string): Comparison {
    if path1 == "" || path2 == "" then NotComparable
    else
      var length1 := |Trim(path1)|;
      var length2 := |Trim(path2)|;
      var lengthMin := if length1 < length2 then length1 else length2;
      var sentinel := if length1 < length2 then At(path2, lengthMin) else At(path1, lengthMin);
      if sentinel != '/' && sentinel != '\0' then NotComparable
      else if path1[..lengthMin] != path2[..lengthMin] then NotComparable
      else if length1 == length2 then Equal
      else if length1 < length2 then Path1IsPrefix
      else Path2IsPrefix
  }

  /** `q` extends `p` at a component boundary. */
  predicate Extends(p: string, q: string) {
    p <= q && (|p| == |q| || q[|p|] == '/')
  }

  /** No NUL in it: a C string. */
  predicate CString(p: string) { '\0' !in p }

  lemma {:induction false} ExtendsSpell(a: seq<string>, b: seq<string>)
    requires AllNames(a) && AllNames(b)
    ensures Extends(Spell(a), Spell(b)) <==> a <= b
  {
    if a <= b {
      var c := b[|a|..];
      assert a + c == b;
      SpellAppend(a, c);
      SpellStart(c);
    }
    if Extends(Spell(a), Spell(b)) {
      var r := Spell(b)[|Spell(a)|..];
      assert Spell(b) == Spell(a) + r;
      ComponentsAppend(Spell(a), r);
      ComponentsOfSpell(a);
      ComponentsOfSpell(b);
      assert b == a + Components(r);
    }
  }

  /** The four answers, in terms of the trimmed strings. */
  lemma {:induction false} CompareTrimmed(p: string, q: string)
    requires p != "" && q != "" && CString(p) && CString(q)
    ensures ComparePaths(p, q) ==
            if Trim(p) == Trim(q) then Equal
            else if Extends(Trim(p), Trim(q)) then Path1IsPrefix
            else if Extends(Trim(q), Trim(p)) then Path2IsPrefix
            else NotComparable
  {
    var a, b := Trim(p), Trim(q);
    var n := if |a| < |b| then |a| else |b|;
    assert p[..n] == a[..n] && q[..n] == b[..n];
    assert |a| == |b| ==> a == a[..n] && b == b[..n];
    if |a| < |b| {
      assert q[n] == b[n] && b[n] in q;
    } else if |b| < |a| {
      assert p[n] == a[n] && a[n] in p;
    }
  }

  /** On canonical paths, each possibly with a trailing slash, the comparison
      decides exactly equality and strict component prefix. */
  lemma {:induction false} CompareDecidesComponents(p: string, q: string, a: seq<string>, b: seq<string>)
    requires AllNames(a) && AllNames(b) && Spells(p, a) && Spells(q, b)
    requires CString(p) && CString(q)
    ensures ComparePaths(p, q) ==
            if a == b then Equal
            else if a <= b then Path1IsPrefix
            else if b <= a then Path2IsPrefix
            else NotComparable
  {
    RenderEnd(a);
    RenderEnd(b);
    assert Trim(p) == Spell(a) && Trim(q) == Spell(b);
    CompareTrimmed(p, q);
    ExtendsSpell(a, b);
    ExtendsSpell(b, a);
    ComponentsOfSpell(a);
    ComponentsOfSpell(b);
  }

  // ---------------------------------------------------------------------
  // Nesting of plain paths
  // ---------------------------------------------------------------------

  /** Absolute, and without trailing slash except for the root. */
  predicate Plain(p: string) {
    p != "" && p[0] == '/' && (|p| > 1 ==> p[|p| - 1] != '/') && CString(p)
  }

  /** `q` is `p` or lies below it. */
  predicate Within(p: string, q: string) {
    Extends(Trim(p), Trim(q))
  }

  lemma {:induction false} TrimInjective(p: string, q: string)
    requires Plain(p) && Plain(q)
    ensures Trim(p) == Trim(q) ==> p == q
  {
  }

  lemma {:induction false} ComparePlain(p: string, q: string)
    requires Plain(p) && Plain(q)
    ensures ComparePaths(p, q) ==
            if p == q then Equal
            else if Within(p, q) then Path1IsPrefix
            else if Within(q, p) then Path2IsPrefix
            else NotComparable
  {
    CompareTrimmed(p, q);
    TrimInjective(p, q);
  }

  /** The path without a slash at its end, the root excepted. */
  function Bare(p: string): string {
    if |p| > 1 then Trim(p) else p
  }

  /** It is spelled with a slash at its end, and is not the root. */
  predicate Slashed(p: string) {
    |p| > 1 && p[|p| - 1] == '/'
  }

  /** A plain path, or one with a slash at its end. */
  predicate Rooted(p: string) {
    Plain(Bare(p)) && (Slashed(p) ==> Bare(p) != "/")
  }

  lemma {:induction false} BareIs(p: string)
    requires Rooted(p)
    ensures CString(p) && p != "" && Trim(p) == Trim(Bare(p))
    ensures p == if Slashed(p) then Bare(p) + "/" else Bare(p)
  {
    if Slashed(p) {
      assert p == Bare(p) + "/";
      assert forall c :: c in p ==> c in Bare(p) || c == '/';
    }
  }

  /** A slash at the end makes no difference. */
  lemma {:induction false} CompareRooted(p: string, q: string)
    requires Rooted(p) && Rooted(q)
    ensures ComparePaths(p, q) == ComparePaths(Bare(p), Bare(q))
  {
    BareIs(p);
    BareIs(q);
    CompareTrimmed(p, q);
    CompareTrimmed(Bare(p), Bare(q));
  }

  lemma {:induction false} WithinTransitive(p: string, q: string, r: string)
    requires Within(p, q) && Within(q, r)
    ensures Within(p, r)
  {
  }

  lemma {:induction false} WithinAntisymmetric(p: string, q: string)
    requires Plain(p) && Plain(q) && Within(p, q) && Within(q, p)
    ensures p == q
  {
    TrimInjective(p, q);
  }

  /** Two paths above the same path are nested, the shorter above the longer. */
  lemma {:induction false} WithinLinear(p: string, q: string, r: string)
    requires Within(p, r) && Within(q, r)
    ensures |Trim(p)| <= |Trim(q)| ==> Within(p, q)
    ensures |Trim(q)| <= |Trim(p)| ==> Within(q, p)
  {
    var a, b, c := Trim(p), Trim(q), Trim(r);
    assert a == c[..|a|] && b == c[..|b|];
  }
}
