/**
The extensions of a tracee: a list, with cached entries for the callbacks
that are looked up at every syscall.
 */
module Extensions {
  import opened Common

  datatype Callback = NetPolicy | ProcIsolation | VirtualNet | ResourceLimit | FakeId0 | Other(n: nat)

  /** An extension; `id` stands for its address. */
  datatype Extension = Extension(id: nat, callback: Callback)

  predicate Cached(c: Callback) {
    !c.Other?
  }

  /** The list and the slots that are not NULL. */
  datatype State = State(list: seq<Extension>, cache: map<Callback, Extension>)

  // ---------------------------------------------------------------------
  // Specification
  // ---------------------------------------------------------------------

  /** The plain list walk. */
  function First(l: seq<Extension>, c: Callback): Option<Extension> {
    if l == [] then None else if l[0].callback == c then Some(l[0]) else First(l[1..], c)
  }

  function Last(l: seq<Extension>, c: Callback): Option<Extension> {
    if l == [] then None
    else if l[|l| - 1].callback == c then Some(l[|l| - 1])
    else Last(l[..|l| - 1], c)
  }

  /** cache_extension() */
  function WithCached(cache: map<Callback, Extension>, e: Extension): map<Callback, Extension> {
    if Cached(e.callback) then cache[e.callback := e] else cache
  }

  /** rebuild_extension_cache() */
  function Rebuilt(l: seq<Extension>): map<Callback, Extension> {
    if l == [] then map[] else WithCached(Rebuilt(l[..|l| - 1]), l[|l| - 1])
  }

  function Position(l: seq<Extension>, id: nat): (k: nat)
    ensures k <= |l| && (k < |l| ==> l[k].id == id) && forall i :: 0 <= i < k ==> l[i].id != id
  {
    if l == [] || l[0].id == id then 0 else 1 + Position(l[1..], id)
  }

  function Attached(s: State, e: Extension): State {
    State([e] + s.list, WithCached(s.cache, e))
  }

  function Detached(s: State, id: nat): State {
    var k := Position(s.list, id);
    if k == |s.list| then s
    else
      var l := s.list[..k] + s.list[k + 1..];
      State(l, Rebuilt(l))
  }

  /** A new extension is found from then on, in place of an older one with its callback,
      and no other look-up changes; it is told about events before all the others. */
  lemma {:induction false} AttachedIsFound(s: State, e: Extension, c: Callback)
    ensures Get(Attached(s, e), c) == if c == e.callback then Some(e) else Get(s, c)
    ensures |Attached(s, e).list| == |s.list| + 1 && Attached(s, e).list[0] == e && Attached(s, e).list[1..] == s.list
  {
    assert ([e] + s.list)[1..] == s.list;
  }

  /** A removal takes off the first extension with that address and keeps the others in
      their order; without one nothing changes. */
  lemma {:induction false} DetachedKeeps(s: State, id: nat)
    returns (before: seq<Extension>, removed: seq<Extension>, after: seq<Extension>)
    ensures s.list == before + removed + after && Detached(s, id).list == before + after
    ensures forall e <- before :: e.id != id
    ensures if exists e <- s.list :: e.id == id then |removed| == 1 && removed[0].id == id
            else removed == [] && Detached(s, id) == s
  {
    var k := Position(s.list, id);
    before, removed, after := s.list[..k], if k < |s.list| then [s.list[k]] else [], s.list[k..];
    if k < |s.list| {
      after := s.list[k + 1..];
      assert s.list[k] in s.list;
    } else {
      assert forall e <- s.list :: e.id != id;
    }
  }

  function Get(s: State, c: Callback): Option<Extension> {
    if Cached(c) then (if c in s.cache then Some(s.cache[c]) else None) else First(s.list, c)
  }

  /** The extensions of a tracee, updated in place. */
  class Registry {
    var list: seq<Extension>
    var cache: map<Callback, Extension>

    constructor ()
      ensures Abstract() == State([], map[])
    {
      list, cache := [], map[];
    }

    function Abstract(): State
      reads this
    {
      State(list, cache)
    }

    /** new_extension() */
    method New(e: Extension)
      modifies this
      ensures Abstract() == Attached(old(Abstract()), e)
    {
      list := [e] + list;
      CacheExtension(e);
    }

    method CacheExtension(e: Extension)
      modifies this`cache
      ensures cache == WithCached(old(cache), e)
    {
      if Cached(e.callback) {
        cache := cache[e.callback := e];
      }
    }

    /** remove_extension() */
    method Remove(id: nat)
      modifies this
      ensures Abstract() == Detached(old(Abstract()), id)
    {
      var k := 0;
      while k < |list| && list[k].id != id
        invariant k <= |list| && forall i :: 0 <= i < k ==> list[i].id != id
      {
        k := k + 1;
      }
      if k == |list| {
        return;
      }
      cache := map c | c in cache && cache[c] != list[k] :: cache[c];
      list := list[..k] + list[k + 1..];
      RebuildCache();
    }

    method RebuildCache()
      modifies this`cache
      ensures cache == Rebuilt(list)
    {
      cache := map[];
      var i := 0;
      while i < |list|
        invariant 0 <= i <= |list| && cache == Rebuilt(list[..i])
      {
        assert list[..i + 1][..i] == list[..i];
        CacheExtension(list[i]);
        i := i + 1;
      }
      assert list[..|list|] == list;
    }

    /** get_extension() */
    method GetExtension(c: Callback) returns (r: Option<Extension>)
      ensures r == Get(Abstract(), c)
    {
      if Cached(c) {
        return if c in cache then Some(cache[c]) else None;
      }
      var i := 0;
      while i < |list|
        invariant 0 <= i <= |list| && First(list, c) == First(list[i..], c)
      {
        if list[i].callback == c {
          return Some(list[i]);
        }
        i := i + 1;
      }
      return None;
    }
  }

  // ---------------------------------------------------------------------
  // Every run
  // ---------------------------------------------------------------------

  ghost predicate Listed(l: seq<Extension>, c: Callback) {
    exists i :: 0 <= i < |l| && l[i].callback == c
  }

  /** A slot is NULL exactly when no listed extension has its callback, and otherwise
      points to a listed one. */
  ghost predicate Valid(s: State) {
    && (forall i, j :: 0 <= i < j < |s.list| ==> s.list[i].id != s.list[j].id)
    && (forall c :: c in s.cache <==> Cached(c) && Listed(s.list, c))
    && (forall c :: c in s.cache ==> s.cache[c] in s.list && s.cache[c].callback == c)
  }

  datatype Op = Attach(e: Extension) | Detach(id: nat)

  /** A new extension has a new address. */
  ghost predicate Possible(s: State, op: Op) {
    op.Attach? ==> forall i :: 0 <= i < |s.list| ==> s.list[i].id != op.e.id
  }

  function Applied(s: State, op: Op): State {
    match op
    case Attach(e) => Attached(s, e)
    case Detach(id) => Detached(s, id)
  }

  function Run(s: State, ops: seq<Op>): State
    decreases |ops|
  {
    if ops == [] then s else Applied(Run(s, ops[..|ops| - 1]), ops[|ops| - 1])
  }

  ghost predicate AllPossible(s: State, ops: seq<Op>) {
    forall i :: 0 <= i < |ops| ==> Possible(Run(s, ops[..i]), ops[i])
  }

  lemma {:induction false} RebuiltIs(l: seq<Extension>, c: Callback)
    ensures c in Rebuilt(l) <==> Cached(c) && Listed(l, c)
    ensures c in Rebuilt(l) ==> Rebuilt(l)[c] in l && Last(l, c) == Some(Rebuilt(l)[c])
    decreases |l|
  {
    if l != [] {
      var n := |l| - 1;
      RebuiltIs(l[..n], c);
      assert forall i :: 0 <= i < n ==> l[..n][i] == l[i];
      assert l[n] in l;
    }
  }

  lemma {:induction false} LastIs(l: seq<Extension>, c: Callback)
    ensures Last(l, c).Some? <==> Listed(l, c)
    ensures Last(l, c).Some? ==> Last(l, c).value in l && Last(l, c).value.callback == c
    decreases |l|
  {
    if l != [] {
      var n := |l| - 1;
      LastIs(l[..n], c);
      assert forall i :: 0 <= i < n ==> l[..n][i] == l[i];
    }
  }

  lemma {:induction false} AttachKeeps(s: State, e: Extension)
    requires Valid(s) && Possible(s, Attach(e))
    ensures Valid(Attached(s, e))
  {
    var l := [e] + s.list;
    assert forall i :: 1 <= i < |l| ==> l[i] == s.list[i - 1];
    forall c ensures Listed(l, c) <==> e.callback == c || Listed(s.list, c) {
      if Listed(s.list, c) {
        var i :| 0 <= i < |s.list| && s.list[i].callback == c;
        assert l[i + 1].callback == c;
      }
      assert l[0] == e;
    }
  }

  lemma {:induction false} DetachKeeps(s: State, id: nat)
    requires Valid(s)
    ensures Valid(Detached(s, id))
  {
    var k := Position(s.list, id);
    if k < |s.list| {
      var l := s.list[..k] + s.list[k + 1..];
      assert forall i :: 0 <= i < |l| ==> l[i] == if i < k then s.list[i] else s.list[i + 1];
      forall c ensures c in Rebuilt(l) <==> Cached(c) && Listed(l, c)
        ensures c in Rebuilt(l) ==> Rebuilt(l)[c] in l && Rebuilt(l)[c].callback == c
      {
        RebuiltIs(l, c);
        LastIs(l, c);
      }
    }
  }

  /** The slots are right after any attachments and removals. */
  lemma {:induction false} RunKeepsValid(s: State, ops: seq<Op>)
    requires Valid(s) && AllPossible(s, ops)
    ensures Valid(Run(s, ops))
    decreases |ops|
  {
    if ops != [] {
      var n := |ops| - 1;
      assert forall i :: 0 <= i < n ==> ops[..n][..i] == ops[..i];
      RunKeepsValid(s, ops[..n]);
      match ops[n]
      case Attach(e) => AttachKeeps(Run(s, ops[..n]), e);
      case Detach(id) => DetachKeeps(Run(s, ops[..n]), id);
    }
  }

  // ---------------------------------------------------------------------
  // The cache against the walk
  // ---------------------------------------------------------------------

  /** No two listed extensions have this callback. */
  ghost predicate AtMostOne(l: seq<Extension>, c: Callback) {
    forall i, j :: 0 <= i < j < |l| && l[i].callback == c ==> l[j].callback != c
  }

  lemma {:induction false} FirstIs(l: seq<Extension>, c: Callback)
    ensures First(l, c).Some? <==> Listed(l, c)
    ensures First(l, c).Some? ==>
              exists k :: 0 <= k < |l| && l[k] == First(l, c).value && l[k].callback == c
                && forall i :: 0 <= i < k ==> l[i].callback != c
    decreases |l|
  {
    if l != [] {
      FirstIs(l[1..], c);
      assert forall i :: 0 <= i < |l| - 1 ==> l[1..][i] == l[i + 1];
    }
  }

  lemma {:induction false} LastIndex(l: seq<Extension>, c: Callback) returns (k: nat)
    requires Last(l, c).Some?
    ensures k < |l| && l[k] == Last(l, c).value && l[k].callback == c
    ensures forall i :: k < i < |l| ==> l[i].callback != c
    decreases |l|
  {
    var n := |l| - 1;
    if l[n].callback == c {
      k := n;
    } else {
      k := LastIndex(l[..n], c);
      assert forall i :: 0 <= i < n ==> l[..n][i] == l[i];
    }
  }

  /** The last and the first are the same one iff there is at most one. */
  lemma {:induction false} LastIsFirstIff(l: seq<Extension>, c: Callback)
    requires forall i, j :: 0 <= i < j < |l| ==> l[i].id != l[j].id
    ensures Last(l, c) == First(l, c) <==> AtMostOne(l, c)
  {
    FirstIs(l, c);
    LastIs(l, c);
    if Listed(l, c) {
      var a :| 0 <= a < |l| && l[a] == First(l, c).value && l[a].callback == c
        && forall i :: 0 <= i < a ==> l[i].callback != c;
      var b := LastIndex(l, c);
      assert a <= b;
      assert a < b ==> l[a].id != l[b].id;
    }
  }

  /** With at most one extension per cached callback, the cache is the walk. */
  lemma {:induction false} CacheIsWalk(s: State, c: Callback)
    requires Valid(s) && (Cached(c) ==> AtMostOne(s.list, c))
    ensures Get(s, c) == First(s.list, c)
  {
    FirstIs(s.list, c);
    if Cached(c) && c in s.cache {
      var e := s.cache[c];
      var i :| 0 <= i < |s.list| && s.list[i] == e;
      var k :| 0 <= k < |s.list| && s.list[k] == First(s.list, c).value && s.list[k].callback == c;
      assert i == k;
    }
  }

  /** After a removal, exactly then. */
  lemma {:induction false} RebuiltIsWalkIff(s: State, id: nat, c: Callback)
    requires Valid(s) && Position(s.list, id) < |s.list| && Cached(c)
    ensures var t := Detached(s, id); Get(t, c) == First(t.list, c) <==> AtMostOne(t.list, c)
  {
    var t := Detached(s, id);
    DetachKeeps(s, id);
    RebuiltIs(t.list, c);
    LastIs(t.list, c);
    LastIsFirstIff(t.list, c);
  }

  /** Removing an unrelated extension changes which of two is returned. */
  lemma {:induction false} RemovalChangesAnswer()
    ensures var a, b, e := Extension(1, NetPolicy), Extension(2, NetPolicy), Extension(3, Other(0));
            var s := Attached(Attached(Attached(State([], map[]), a), b), e);
            && s.list == [e, b, a] && Get(s, NetPolicy) == Some(b) == First(s.list, NetPolicy)
            && Detached(s, 3).list == [b, a] && Get(Detached(s, 3), NetPolicy) == Some(a)
            && First(Detached(s, 3).list, NetPolicy) == Some(b)
  {
    var a, b, e := Extension(1, NetPolicy), Extension(2, NetPolicy), Extension(3, Other(0));
    var s := Attached(Attached(Attached(State([], map[]), a), b), e);
    assert s.list == [e, b, a];
    assert [e, b, a][1..] == [b, a];
    assert Position(s.list, 3) == 0;
    var l := [b, a];
    assert s.list[..0] + s.list[1..] == l;
    assert l[..1] == [b] && [b][..0] == [];
    assert Rebuilt([b]) == map[NetPolicy := b];
    assert Rebuilt(l) == WithCached(Rebuilt([b]), a);
  }
}
