/**
The last act of the loader before it branches to the program: the auxiliary
vector on the initial stack is adjusted in place.
 */
module AuxVector {
  import opened Common

  const AT_NULL: nat := 0
  const AT_PHDR: nat := 3
  const AT_PHENT: nat := 4
  const AT_PHNUM: nat := 5
  const AT_BASE: nat := 7
  const AT_ENTRY: nat := 9
  const AT_EXECFN: nat := 31

  /** The values of the loaded program. */
  datatype Values = Values(phdr: nat, phent: nat, phnum: nat, entry: nat, base: nat, execfn: nat)

  function Adjusted(v: Values, kind: nat, value: nat): nat {
    if kind == AT_PHDR then v.phdr
    else if kind == AT_PHENT then v.phent
    else if kind == AT_PHNUM then v.phnum
    else if kind == AT_ENTRY then v.entry
    else if kind == AT_BASE then v.base
    else if kind == AT_EXECFN then v.execfn
    else value
  }

  /** argc, argv[], NULL, envp[], NULL, then `n` pairs and a pair whose kind is AT_NULL.
      The first pair is not looked at: an empty vector is taken to go on up to the
      next AT_NULL. */
  ghost predicate Initial(s: seq<nat>, env: nat, n: nat) {
    && |s| >= 2 && n > 0
    && s[0] + 2 <= env < |s| && env + 1 + 2 * n + 2 <= |s|
    && (forall i :: s[0] + 2 <= i < env ==> s[i] != 0) && s[env] == 0
    && (forall i :: 1 <= i < n ==> s[env + 1 + 2 * i] != AT_NULL)
    && s[env + 1 + 2 * n] == AT_NULL
  }

  /** Only the values of the known kinds change. */
  ghost predicate AdjustedBefore(s: seq<nat>, t: seq<nat>, aux: nat, k: nat, v: Values)
    requires aux + 2 * k <= |s|
  {
    && |t| == |s|
    && (forall i :: 0 <= i < |s| && !(aux <= i < aux + 2 * k && (i - aux) % 2 == 1) ==> t[i] == s[i])
    && (forall i :: 0 <= i < k ==> t[aux + 2 * i + 1] == Adjusted(v, s[aux + 2 * i], s[aux + 2 * i + 1]))
  }

  /** Past the environment, whose first entry is at `from`. */
  method SkipEnvironment(stack: array<nat>, from: nat, ghost env: nat) returns (cursor: nat)
    requires from <= env < stack.Length && stack[env] == 0 && forall i :: from <= i < env ==> stack[i] != 0
    ensures cursor == env + 1
  {
    cursor := from;
    while stack[cursor] != 0
      invariant from <= cursor <= env
      decreases env - cursor
    {
      cursor := cursor + 1;
    }
    cursor := cursor + 1;
  }

  /** The adjustment of the pairs from `aux` on. */
  method AdjustPairs(stack: array<nat>, values: Values, aux: nat, ghost n: nat)
    requires n > 0 && aux + 2 * n + 2 <= stack.Length && stack[aux + 2 * n] == AT_NULL
    requires forall i :: 1 <= i < n ==> stack[aux + 2 * i] != AT_NULL
    modifies stack
    ensures AdjustedBefore(old(stack[..]), stack[..], aux, n, values)
  {
    ghost var s := stack[..];
    var cursor, more := aux, true;
    ghost var k := 0;
    while more
      invariant k <= n && cursor == aux + 2 * k && (more <==> k < n)
      invariant AdjustedBefore(s, stack[..], aux, k, values)
      decreases n - k
    {
      ghost var t := stack[..];
      stack[cursor + 1] := Adjusted(values, stack[cursor], stack[cursor + 1]);
      OneMore(s, t, stack[..], aux, k, values);
      cursor := cursor + 2;
      k := k + 1;
      assert stack[..][aux + 2 * k] == s[aux + 2 * k];
      more := stack[cursor] != AT_NULL;
    }
  }

  lemma {:induction false} OneMore(s: seq<nat>, t: seq<nat>, t': seq<nat>, aux: nat, k: nat, v: Values)
    requires aux + 2 * k + 2 <= |s| && AdjustedBefore(s, t, aux, k, v)
    requires t' == t[aux + 2 * k + 1 := Adjusted(v, t[aux + 2 * k], t[aux + 2 * k + 1])]
    ensures AdjustedBefore(s, t', aux, k + 1, v)
  {
  }

  /** The adjustment; the name of the executable comes from argv[0]. */
  method AdjustAuxv(stack: array<nat>, v: Values, ghost env: nat, ghost n: nat)
    requires Initial(stack[..], env, n)
    modifies stack
    ensures AdjustedBefore(old(stack[..]), stack[..], env + 1, n, v.(execfn := old(stack[1])))
  {
    var argc := stack[0];
    var values := v.(execfn := stack[1]);
    assert stack[..][env] == 0 && stack[..][env + 1 + 2 * n] == AT_NULL;
    assert forall i :: argc + 2 <= i < env ==> stack[i] == stack[..][i];
    assert forall i :: 1 <= i < n ==> stack[env + 1 + 2 * i] == stack[..][env + 1 + 2 * i];
    var aux := SkipEnvironment(stack, argc + 2, env);
    AdjustPairs(stack, values, aux, n);
  }

  // ---------------------------------------------------------------------
  // What the program finds
  // ---------------------------------------------------------------------

  /** The vector at `aux` as the program reads it: the pairs in front of AT_NULL. */
  function Vector(s: seq<nat>, aux: nat): seq<(nat, nat)>
    decreases |s| - aux
  {
    if aux + 1 >= |s| || s[aux] == AT_NULL then [] else [(s[aux], s[aux + 1])] + Vector(s, aux + 2)
  }

  /** getauxval(): the first pair of that kind. */
  function Lookup(pairs: seq<(nat, nat)>, kind: nat): Option<nat> {
    if pairs == [] then None
    else if pairs[0].0 == kind then Some(pairs[0].1)
    else Lookup(pairs[1..], kind)
  }

  /** A value of the loaded program in place of that of the loader. */
  function AdjustedValue(v: Values, kind: nat, value: Option<nat>): Option<nat> {
    if value.None? then None else Some(Adjusted(v, kind, value.value))
  }

  lemma {:induction false} LookupFrom(s: seq<nat>, t: seq<nat>, env: nat, n: nat, v: Values, k: nat, kind: nat)
    requires Initial(s, env, n) && AdjustedBefore(s, t, env + 1, n, v) && k <= n
    requires s[env + 1] != AT_NULL
    ensures var aux := env + 1 + 2 * k;
            Lookup(Vector(t, aux), kind) == AdjustedValue(v, kind, Lookup(Vector(s, aux), kind))
    ensures |Vector(s, env + 1 + 2 * k)| == n - k
    decreases n - k
  {
    var aux := env + 1 + 2 * k;
    assert t[aux] == s[aux];
    if k < n {
      assert s[env + 1 + 2 * k] != AT_NULL;
      LookupFrom(s, t, env, n, v, k + 1, kind);
      assert Vector(s, aux) == [(s[aux], s[aux + 1])] + Vector(s, aux + 2);
      assert Vector(t, aux) == [(t[aux], t[aux + 1])] + Vector(t, aux + 2);
      assert Vector(s, aux)[1..] == Vector(s, aux + 2);
      assert Vector(t, aux)[1..] == Vector(t, aux + 2);
    }
  }

  /** After the adjustment the program finds the same kinds in its vector, each
      known one with its own value, and all others as the kernel left them. */
  lemma {:induction false} ProgramFinds(s: seq<nat>, t: seq<nat>, env: nat, n: nat, v: Values, kind: nat)
    requires Initial(s, env, n) && AdjustedBefore(s, t, env + 1, n, v)
    ensures Lookup(Vector(t, env + 1), kind) == AdjustedValue(v, kind, Lookup(Vector(s, env + 1), kind))
  {
    if s[env + 1] == AT_NULL {
      assert t[env + 1] == AT_NULL;
    } else {
      LookupFrom(s, t, env, n, v, 0, kind);
    }
  }

  /** A value that was there is now this one. */
  predicate Becomes(before: Option<nat>, after: Option<nat>, value: nat) {
    if before.Some? then after == Some(value) else after == None
  }

  /** Kind by kind: the headers (3, 4 and 5), the base (7), the entry point (9) and the
      name (31) are the program's, and nothing else changes. */
  lemma {:induction false} KindsFound(s: seq<nat>, t: seq<nat>, env: nat, n: nat, v: Values, kind: nat)
    requires Initial(s, env, n) && AdjustedBefore(s, t, env + 1, n, v)
    ensures var before, after := Vector(s, env + 1), Vector(t, env + 1);
            && Becomes(Lookup(before, 3), Lookup(after, 3), v.phdr)
            && Becomes(Lookup(before, 4), Lookup(after, 4), v.phent)
            && Becomes(Lookup(before, 5), Lookup(after, 5), v.phnum)
            && Becomes(Lookup(before, 7), Lookup(after, 7), v.base)
            && Becomes(Lookup(before, 9), Lookup(after, 9), v.entry)
            && Becomes(Lookup(before, 31), Lookup(after, 31), v.execfn)
            && (kind !in {3, 4, 5, 7, 9, 31} ==> Lookup(after, kind) == Lookup(before, kind))
  {
    ProgramFinds(s, t, env, n, v, 3);
    ProgramFinds(s, t, env, n, v, 4);
    ProgramFinds(s, t, env, n, v, 5);
    ProgramFinds(s, t, env, n, v, 7);
    ProgramFinds(s, t, env, n, v, 9);
    ProgramFinds(s, t, env, n, v, 31);
    ProgramFinds(s, t, env, n, v, kind);
  }

  /** Nothing but the vector changed. */
  ghost predicate StaysInside(s: seq<nat>, t: seq<nat>, aux: nat) {
    |t| == |s| && forall i :: 0 <= i < |s| && !(aux <= i < aux + 2 * |Vector(s, aux)|) ==> t[i] == s[i]
  }

  /** A word of a known kind is followed by another value than that of the program. */
  predicate Differs(v: Values, kind: nat, value: nat) {
    || (kind == AT_PHDR && value != v.phdr)
    || (kind == AT_PHENT && value != v.phent)
    || (kind == AT_PHNUM && value != v.phnum)
    || (kind == AT_ENTRY && value != v.entry)
    || (kind == AT_BASE && value != v.base)
    || (kind == AT_EXECFN && value != v.execfn)
  }

  /** The words up to the next AT_NULL behind an empty vector hold nothing to adjust. */
  ghost predicate NothingBehind(s: seq<nat>, env: nat, n: nat, v: Values)
    requires env + 1 + 2 * n <= |s|
  {
    forall i :: 1 <= i < n ==> !Differs(v, s[env + 1 + 2 * i], s[env + 1 + 2 * i + 1])
  }

  /** The adjustment stays inside the vector exactly if there is a first pair, or
      nothing to adjust in the words that follow the missing one. */
  lemma {:induction false} StaysInsideIff(s: seq<nat>, t: seq<nat>, env: nat, n: nat, v: Values)
    requires Initial(s, env, n) && AdjustedBefore(s, t, env + 1, n, v)
    ensures StaysInside(s, t, env + 1) <==> s[env + 1] != AT_NULL || NothingBehind(s, env, n, v)
  {
    if s[env + 1] != AT_NULL {
      LookupFrom(s, t, env, n, v, 0, AT_NULL);
    } else if NothingBehind(s, env, n, v) {
      forall i | 0 <= i < |s| ensures t[i] == s[i] {
        UntouchedWord(s, t, env, n, v, i);
      }
    } else {
      var i :| 1 <= i < n && Differs(v, s[env + 1 + 2 * i], s[env + 1 + 2 * i + 1]);
      assert t[env + 1 + 2 * i + 1] != s[env + 1 + 2 * i + 1];
    }
  }

  lemma {:induction false} UntouchedWord(s: seq<nat>, t: seq<nat>, env: nat, n: nat, v: Values, i: nat)
    requires Initial(s, env, n) && AdjustedBefore(s, t, env + 1, n, v) && i < |s|
    requires s[env + 1] == AT_NULL && NothingBehind(s, env, n, v)
    ensures t[i] == s[i]
  {
    var j := i - env - 1;
    if 0 <= j < 2 * n && j % 2 == 1 {
      var p := j / 2;
      assert i == env + 1 + 2 * p + 1;
    }
  }

  /** For instance, the pair (AT_PHDR, 77) of something else behind an empty vector. */
  lemma {:induction false} EmptyVectorOverrun(t: seq<nat>, v: Values)
    requires AdjustedBefore([1, 100, 0, 0, AT_NULL, 0, AT_PHDR, 77, AT_NULL, 0], t, 4, 2, v) && v.phdr != 77
    ensures Initial([1, 100, 0, 0, AT_NULL, 0, AT_PHDR, 77, AT_NULL, 0], 3, 2)
    ensures !StaysInside([1, 100, 0, 0, AT_NULL, 0, AT_PHDR, 77, AT_NULL, 0], t, 4)
  {
    var s := [1, 100, 0, 0, AT_NULL, 0, AT_PHDR, 77, AT_NULL, 0];
    assert s[3 + 1 + 2 * 1] == AT_PHDR;
    assert Differs(v, s[3 + 1 + 2 * 1], s[3 + 1 + 2 * 1 + 1]);
    StaysInsideIff(s, t, 3, 2, v);
  }
}
