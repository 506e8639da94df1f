/**
Nested shebangs: the rewriting of the program path and of argv[] when the
program is a script, any number of times.
 */
module Shebang {
  import opened Common
  import opened RemoteArray
  import opened RemoteString

  const MAXSYMLINKS: nat := 20

  /** The interpreter of a script, with its optional argument. */
  datatype Script = Script(interp: Text, arg: Text)

  /** What the guest's file-system answers: errors for paths that can not be executed or
      read, and the shebang of each script. */
  datatype System = System(failing: map<Text, Errno>, broken: map<Text, Errno>, scripts: map<Text, Script>)

  datatype Outcome = Failed(errno: Errno) | Program(path: Text, argv: seq<Text>)

  /** The optional argument. */
  function Optional(arg: Text): seq<Text> {
    if arg == [] then [] else [arg]
  }

  function Rest(argv: seq<Text>): seq<Text> {
    if argv == [] then [] else argv[1..]
  }

  /** interpreter [optional-arg] filename arg... */
  function Rewritten(s: Script, path: Text, argv: seq<Text>): seq<Text> {
    [s.interp] + (Optional(s.arg) + [path] + Rest(argv))
  }

  /** What one round finds at a path: an error, a program, or a script with an
      interpreter that can be executed. */
  function Verdict(sys: System, path: Text): Result<Option<Script>> {
    if path in sys.failing then Err(sys.failing[path])
    else if path in sys.broken then Err(sys.broken[path])
    else if path !in sys.scripts then Ok(None)
    else
      var s := sys.scripts[path];
      if s.interp in sys.failing then Err(sys.failing[s.interp]) else Ok(Some(s))
  }

  type Verdicts = Text -> Result<Option<Script>>

  function VerdictsOf(sys: System): Verdicts {
    path => Verdict(sys, path)
  }

  /** expand_shebang(), for at most n rounds. */
  function Expanded(v: Verdicts, path: Text, argv: seq<Text>, n: nat): Outcome
    decreases n
  {
    if n == 0 then Failed(ELOOP)
    else
      match v(path)
      case Err(e) => Failed(e)
      case Ok(None) => Program(path, argv)
      case Ok(Some(s)) => Expanded(v, s.interp, Rewritten(s, path, argv), n - 1)
  }

  // ---------------------------------------------------------------------
  // What it computes
  // ---------------------------------------------------------------------

  /** `scripts` are the shebangs met from `path`, all of them usable. */
  predicate Chain(v: Verdicts, path: Text, scripts: seq<Script>)
    decreases |scripts|
  {
    scripts == [] || (v(path) == Ok(Some(scripts[0])) && Chain(v, scripts[0].interp, scripts[1..]))
  }

  /** The last interpreter, or the program itself. */
  function Last(path: Text, scripts: seq<Script>): Text {
    if scripts == [] then path else scripts[|scripts| - 1].interp
  }

  /** interp_k, optional arg_k, and so on down to the path of the first script. */
  function Nested(path: Text, scripts: seq<Script>): seq<Text> {
    if scripts == [] then [path]
    else
      var s := scripts[|scripts| - 1];
      [s.interp] + Optional(s.arg) + Nested(path, scripts[..|scripts| - 1])
  }

  lemma {:induction false} NestedCons(path: Text, scripts: seq<Script>)
    requires scripts != []
    ensures Nested(path, scripts) == Nested(scripts[0].interp, scripts[1..]) + (Optional(scripts[0].arg) + [path])
    decreases |scripts|
  {
    var n := |scripts| - 1;
    if n > 0 {
      NestedCons(path, scripts[..n]);
      assert scripts[..n][1..] == scripts[1..][..n - 1];
    }
  }

  /** argv[] at the end of a chain: the original argv[1..] is untouched. */
  function ChainArgv(path: Text, scripts: seq<Script>, argv: seq<Text>): seq<Text> {
    if scripts == [] then argv else Nested(path, scripts) + Rest(argv)
  }

  lemma {:induction false} ChainArgvStep(path: Text, scripts: seq<Script>, argv: seq<Text>)
    requires scripts != []
    ensures ChainArgv(scripts[0].interp, scripts[1..], Rewritten(scripts[0], path, argv))
            == ChainArgv(path, scripts, argv)
  {
    var s := scripts[0];
    var tail := Optional(s.arg) + [path] + Rest(argv);
    assert Rest([s.interp] + tail) == tail;
    NestedCons(path, scripts);
    Regroup(Nested(s.interp, scripts[1..]), Optional(s.arg) + [path], Rest(argv));
  }

  lemma {:induction false} LastStep(path: Text, scripts: seq<Script>)
    requires scripts != []
    ensures Last(scripts[0].interp, scripts[1..]) == Last(path, scripts)
  {
  }

  /** argv[] rewritten once for each script gives `out`. */
  ghost predicate Carries(path: Text, scripts: seq<Script>, argv: seq<Text>, out: seq<Text>)
    decreases |scripts|
  {
    if scripts == [] then out == argv
    else Carries(scripts[0].interp, scripts[1..], Rewritten(scripts[0], path, argv), out)
  }

  lemma {:induction false} CarriesIs(path: Text, scripts: seq<Script>, argv: seq<Text>, out: seq<Text>)
    requires out == ChainArgv(path, scripts, argv)
    ensures Carries(path, scripts, argv, out)
    decreases |scripts|
  {
    if scripts != [] {
      ChainArgvStep(path, scripts, argv);
      CarriesIs(scripts[0].interp, scripts[1..], Rewritten(scripts[0], path, argv), out);
    }
  }

  /** A chain of scripts that makes `out` of argv[], and the program `last` at its end. */
  ghost predicate Leads(v: Verdicts, path: Text, scripts: seq<Script>, argv: seq<Text>, last: Text, out: seq<Text>) {
    Chain(v, path, scripts) && last == Last(path, scripts) && Carries(path, scripts, argv, out)
  }

  lemma {:induction false} LeadsOn(v: Verdicts, path: Text, scripts: seq<Script>, argv: seq<Text>, last: Text,
                                   out: seq<Text>)
    requires Leads(v, path, scripts, argv, last, out) && scripts != []
    ensures v(path) == Ok(Some(scripts[0]))
    ensures Leads(v, scripts[0].interp, scripts[1..], Rewritten(scripts[0], path, argv), last, out)
  {
    LastStep(path, scripts);
  }

  lemma {:induction false} LeadsNowhere(v: Verdicts, path: Text, argv: seq<Text>, last: Text, out: seq<Text>)
    requires Leads(v, path, [], argv, last, out)
    ensures last == path && out == argv
  {
  }

  ghost predicate Gives(v: Verdicts, path: Text, argv: seq<Text>, n: nat, o: Outcome) {
    Expanded(v, path, argv, n) == o
  }

  /** A chain takes one round for each of its scripts. */
  lemma {:induction false} ExpandedFollows(v: Verdicts, path: Text, argv: seq<Text>, n: nat, scripts: seq<Script>,
                                           last: Text, out: seq<Text>, o: Outcome)
    requires Leads(v, path, scripts, argv, last, out) && |scripts| <= n && Gives(v, last, out, n - |scripts|, o)
    ensures Gives(v, path, argv, n, o)
    decreases |scripts|
  {
    if scripts == [] {
      LeadsNowhere(v, path, argv, last, out);
    } else {
      var s, rest := scripts[0], scripts[1..];
      LeadsOn(v, path, scripts, argv, last, out);
      ExpandedFollows(v, s.interp, Rewritten(s, path, argv), n - 1, rest, last, out, o);
      ExpandedStep(v, path, argv, n, s, o);
    }
  }

  lemma {:induction false} ExpandedStep(v: Verdicts, path: Text, argv: seq<Text>, n: nat, s: Script, o: Outcome)
    requires n > 0 && v(path) == Ok(Some(s)) && Gives(v, s.interp, Rewritten(s, path, argv), n - 1, o)
    ensures Gives(v, path, argv, n, o)
  {
  }

  /** The outcome after a chain: the program that ends it, with the nested argv. */
  lemma {:induction false} ExpandedChain(v: Verdicts, path: Text, argv: seq<Text>, n: nat, scripts: seq<Script>)
    requires Chain(v, path, scripts) && |scripts| < n && v(Last(path, scripts)) == Ok(None)
    ensures Expanded(v, path, argv, n) == Program(Last(path, scripts), ChainArgv(path, scripts, argv))
  {
    var last, out := Last(path, scripts), ChainArgv(path, scripts, argv);
    CarriesIs(path, scripts, argv, out);
    ExpandedFollows(v, path, argv, n, scripts, last, out, Program(last, out));
  }

  /** The first error met is told: that of a path that can not be executed, of a file whose
      first line can not be read, or of an interpreter that can not be executed. */
  lemma {:induction false} FirstErrorWins(sys: System, path: Text, argv: seq<Text>, n: nat, scripts: seq<Script>)
    requires Chain(VerdictsOf(sys), path, scripts) && |scripts| < n
    ensures var last, o := Last(path, scripts), Expanded(VerdictsOf(sys), path, argv, n);
            if last in sys.failing then o == Failed(sys.failing[last])
            else if last in sys.broken then o == Failed(sys.broken[last])
            else last in sys.scripts && sys.scripts[last].interp in sys.failing ==>
              o == Failed(sys.failing[sys.scripts[last].interp])
  {
    var v, last, out := VerdictsOf(sys), Last(path, scripts), ChainArgv(path, scripts, argv);
    CarriesIs(path, scripts, argv, out);
    ExpandedFollows(v, path, argv, n, scripts, last, out, Expanded(v, last, out, n - |scripts|));
  }

  /** A program only comes out of such a chain. */
  lemma {:induction false} ExpandedIs(v: Verdicts, path: Text, argv: seq<Text>, n: nat) returns (scripts: seq<Script>)
    ensures Chain(v, path, scripts) && |scripts| <= n
    ensures Expanded(v, path, argv, n).Program? ==>
              |scripts| < n && v(Last(path, scripts)) == Ok(None)
    decreases n
  {
    scripts := [];
    var found := v(path);
    if n > 0 && found.Ok? && found.value.Some? {
      var s := found.value.value;
      var more := ExpandedIs(v, s.interp, Rewritten(s, path, argv), n - 1);
      scripts := [s] + more;
      assert scripts[1..] == more;
    }
  }

  /** As many nested shebangs as rounds is a loop. */
  lemma {:induction false} TooManyShebangs(v: Verdicts, path: Text, argv: seq<Text>, n: nat, scripts: seq<Script>)
    requires Chain(v, path, scripts) && |scripts| == n
    ensures Expanded(v, path, argv, n) == Failed(ELOOP)
  {
    var out := ChainArgv(path, scripts, argv);
    CarriesIs(path, scripts, argv, out);
    ExpandedFollows(v, path, argv, n, scripts, Last(path, scripts), out, Failed(ELOOP));
  }

  // ---------------------------------------------------------------------
  // The rewriting loop
  // ---------------------------------------------------------------------

  /** argv[] with its terminator. */
  function List(argv: seq<Text>): seq<Option<Text>> {
    seq(|argv|, i requires 0 <= i < |argv| => Some(argv[i])) + [None]
  }

  /** C strings hold no NUL. */
  ghost predicate CStrings(sys: System) {
    forall p :: p in sys.scripts ==> NoNul(sys.scripts[p].interp) && NoNul(sys.scripts[p].arg)
  }

  ghost predicate CScript(r: Result<Option<Script>>) {
    r.Ok? && r.value.Some? ==> NoNul(r.value.value.interp) && NoNul(r.value.value.arg)
  }

  ghost predicate CVerdicts(v: Verdicts) {
    forall path :: CScript(v(path))
  }

  lemma {:induction false} VerdictsAreC(sys: System)
    requires CStrings(sys)
    ensures CVerdicts(VerdictsOf(sys))
  {
  }

  /** Entries that begin with `texts` and go on with those from `index`. */
  ghost predicate Spliced(ys: seq<XPointer>, texts: seq<Text>, xs: seq<XPointer>, index: nat) {
    && index <= |xs| && |ys| == |texts| + |xs| - index
    && (forall k :: 0 <= k < |texts| ==> ys[k].local == Some(texts[k]))
    && (forall k :: |texts| <= k < |ys| ==> ys[k] == xs[k - |texts| + index])
  }

  lemma {:induction false} SplicedRepresents(m: Mem, ys: seq<XPointer>, texts: seq<Text>, xs: seq<XPointer>,
                                             argv: seq<Text>)
    requires Represents(m, xs, List(argv)) && Spliced(ys, texts, xs, if argv == [] then 0 else 1)
    requires forall k :: 0 <= k < |texts| ==> NoNul(texts[k])
    ensures Represents(m, ys, List(texts + Rest(argv)))
  {
    var index := if argv == [] then 0 else 1;
    var vs := List(texts + Rest(argv));
    assert |ys| == |vs|;
    forall k | 0 <= k < |ys| ensures Denotes(m, ys[k], vs[k]) {
      if k < |texts| {
        assert vs[k] == Some(texts[k]);
      } else {
        assert Denotes(m, xs[k - |texts| + index], List(argv)[k - |texts| + index]);
        assert vs[k] == List(argv)[k - |texts| + index];
      }
    }
  }

  /** Room is made at the head, over argv[0] if there is one. */
  method Splice(xp: XPointers, texts: seq<Text>)
    requires xp.entries != [] && texts != []
    modifies xp
    ensures Spliced(xp.entries, texts, old(xp.entries), if |old(xp.entries)| == 1 then 0 else 1)
  {
    var extra := if |xp.entries| == 1 then 1 else 0;
    HeadRoom(xp.entries, |texts| - 1 + extra);
    xp.Resize(0, |texts| - 1 + extra);
    xp.WriteAll(0, texts);
  }

  lemma {:induction false} HeadRoom(xs: seq<XPointer>, delta: nat)
    requires xs != []
    ensures var ys := ResizedEntries(xs, 0, delta);
            |ys| == |xs| + delta && forall k :: delta <= k < |ys| ==> ys[k] == xs[k - delta]
  {
  }

  /** The resizing and the writes of one round. */
  method RewriteArgv(xp: XPointers, s: Script, path: Text)
    requires xp.entries != []
    modifies xp
    ensures Spliced(xp.entries, [s.interp] + (Optional(s.arg) + [path]), old(xp.entries),
                    if |old(xp.entries)| == 1 then 0 else 1)
  {
    var texts := if s.arg != [] then [s.interp, s.arg, path] else [s.interp, path];
    assert texts == [s.interp] + (Optional(s.arg) + [path]);
    Splice(xp, texts);
  }

  lemma {:induction false} RoundRepresents(m: Mem, s: Script, path: Text, argv: seq<Text>, xs: seq<XPointer>,
                                           ys: seq<XPointer>)
    requires NoNul(s.interp) && NoNul(s.arg) && NoNul(path) && Represents(m, xs, List(argv))
    requires Spliced(ys, [s.interp] + (Optional(s.arg) + [path]), xs, if |xs| == 1 then 0 else 1)
    ensures Represents(m, ys, List(Rewritten(s, path, argv)))
  {
    var texts := [s.interp] + (Optional(s.arg) + [path]);
    SplicedRepresents(m, ys, texts, xs, argv);
    assert texts + Rest(argv) == Rewritten(s, path, argv);
  }

  /** The terminator is the last entry and stays remote. */
  ghost predicate Ended(xs: seq<XPointer>) {
    xs != [] && xs[|xs| - 1].local.None?
  }

  /** argv[] at the current round: not fetched yet, or rewritten in these entries. */
  ghost predicate Stands(m: Mem, readable: bool, entries: Option<seq<XPointer>>, argv: seq<Text>, now: seq<Text>) {
    match entries
    case None => now == argv
    case Some(xs) => Ended(xs) && xs[0].local.Some? && (readable ==> Represents(m, xs, List(now)))
  }

  /** What fetching argv[] gives. */
  method FetchArgv(m: Mem, at: nat, is32: bool, ghost argv: seq<Text>) returns (r: Result<seq<XPointer>>)
    ensures r.Ok? ==> Ended(r.value)
    ensures TableOf(m, at, is32, List(argv)) ==> r.Ok? && Represents(m, r.value, List(argv))
    ensures r.Err? ==> r == Err(EFAULT)
    ensures r.Err? <==> exists n: nat :: Unreadable(m, at, is32, n)
  {
    r := Fetch(m, at, is32);
    FetchOfArgv(m, at, is32, argv, r);
  }

  /** One round: argv[] is fetched the first time, and rewritten. */
  method Round(m: Mem, at: nat, is32: bool, s: Script, path: Text, entries: Option<seq<XPointer>>,
               ghost argv: seq<Text>, ghost now: seq<Text>)
    returns (r: Result<seq<XPointer>>)
    requires NoNul(path) && NoNul(s.interp) && NoNul(s.arg)
    requires Stands(m, TableOf(m, at, is32, List(argv)), entries, argv, now)
    ensures r.Ok? ==> Stands(m, TableOf(m, at, is32, List(argv)), Some(r.value), argv, Rewritten(s, path, now))
    ensures r.Err? ==> r == Err(EFAULT)
    ensures r.Err? <==> entries.None? && exists n: nat :: Unreadable(m, at, is32, n)
    ensures TableOf(m, at, is32, List(argv)) ==> r.Ok?
  {
    var fetched := if entries.Some? then entries.value else [];
    if entries.None? {
      r := FetchArgv(m, at, is32, argv);
      if r.Err? {
        return;
      }
      fetched := r.value;
    }
    r := Rewrite(m, s, path, fetched, now, TableOf(m, at, is32, List(argv)));
  }

  method Rewrite(m: Mem, s: Script, path: Text, xs: seq<XPointer>, ghost now: seq<Text>, ghost readable: bool)
    returns (r: Result<seq<XPointer>>)
    requires NoNul(path) && NoNul(s.interp) && NoNul(s.arg)
    requires Ended(xs) && (readable ==> Represents(m, xs, List(now)))
    ensures r.Ok? && Ended(r.value) && r.value[0].local.Some?
    ensures readable ==> Represents(m, r.value, List(Rewritten(s, path, now)))
  {
    var xp := new XPointers(xs);
    RewriteArgv(xp, s, path);
    if readable {
      RoundRepresents(m, s, path, now, xs, xp.entries);
    }
    return Ok(xp.entries);
  }

  /** A readable argv[] is fetched, as its list. */
  lemma {:induction false} FetchOfArgv(m: Mem, at: nat, is32: bool, argv: seq<Text>, r: Result<seq<XPointer>>)
    requires r.Ok? ==> Fetched(m, at, is32, r.value)
    requires r.Err? ==> exists n: nat :: Unreadable(m, at, is32, n)
    ensures r.Ok? ==> Ended(r.value)
    ensures TableOf(m, at, is32, List(argv)) ==> r.Ok? && Represents(m, r.value, List(argv))
    ensures r.Ok? ==> !exists n: nat :: Unreadable(m, at, is32, n)
  {
    if r.Ok? {
      forall n: nat ensures !Unreadable(m, at, is32, n) {
        FetchedReadable(m, at, is32, r.value, n);
      }
    }
    if TableOf(m, at, is32, List(argv)) {
      if r.Ok? {
        FetchedRepresents(m, at, is32, r.value, List(argv));
      } else {
        var n: nat :| Unreadable(m, at, is32, n);
        TableReadable(m, at, is32, List(argv), n);
      }
    }
  }

  /** The outcome of expand_shebang(), before argv[] is pushed. */
  ghost predicate Outcomes(o: Outcome, m: Mem, argv: seq<Text>, r: Result<Text>, entries: Option<seq<XPointer>>) {
    match o
    case Failed(e) => r == Err(e)
    case Program(p, out) =>
      r == Ok(p) && if entries.None? then out == argv else Represents(m, entries.value, List(out))
  }

  /** The same for any argv[]: if it can not be read, that is an error as soon as
      there is a shebang. */
  ghost predicate AnyOutcome(first: Result<Option<Script>>, path: Text, gap: bool, r: Result<Text>,
                             entries: Option<seq<XPointer>>)
  {
    && (entries.Some? ==> Ended(entries.value) && entries.value[0].local.Some?)
    && match first
       case Err(e) => r == Err(e)
       case Ok(None) => r == Ok(path) && entries == None
       case Ok(Some(_)) => (gap ==> r == Err(EFAULT)) && (r.Ok? ==> entries.Some?)
  }

  /** A run in its course: `left` rounds from here give the outcome. */
  ghost predicate Running(v: Verdicts, left: nat, m: Mem, readable: bool, argv: seq<Text>, path: Text,
                          entries: Option<seq<XPointer>>, now: seq<Text>, outcome: Outcome)
  {
    NoNul(path) && Stands(m, readable, entries, argv, now) && outcome == Expanded(v, path, now, left)
  }

  /** One round: the outcome, or None and the entries to go on with. */
  method RunRound(v: Verdicts, ghost left: nat, path: Text, m: Mem, at: nat, is32: bool,
                  entries: Option<seq<XPointer>>, ghost argv: seq<Text>, ghost now: seq<Text>, ghost outcome: Outcome,
                  ghost readable: bool, ghost gap: bool)
    returns (r: Option<Result<Text>>, entries': Option<seq<XPointer>>, path': Text, ghost now': seq<Text>)
    requires CVerdicts(v) && left > 0
    requires readable == TableOf(m, at, is32, List(argv)) && gap == exists n: nat :: Unreadable(m, at, is32, n)
    requires Running(v, left, m, readable, argv, path, entries, now, outcome)
    ensures r.Some? ==> entries' == entries
    ensures r.Some? && readable ==> Outcomes(outcome, m, argv, r.value, entries')
    ensures match v(path)
            case Err(e) => r == Some(Err(e))
            case Ok(None) => r == Some(Ok(path))
            case Ok(Some(_)) => r == if entries.None? && gap then Some(Err(EFAULT)) else None
    ensures r.None? ==> entries'.Some?
    ensures r.None? ==> Running(v, left - 1, m, readable, argv, path', entries', now', outcome)
  {
    entries', path', now' := entries, path, now;
    var found := v(path);
    assert CScript(v(path));
    if found.Err? {
      return Some(Err(found.errno)), entries', path', now';
    }
    if found.value.None? {
      return Some(Ok(path)), entries', path', now';
    }
    var s := found.value.value;
    ExpandedStep(v, path, now, left, s, Expanded(v, s.interp, Rewritten(s, path, now), left - 1));
    var rewritten := Round(m, at, is32, s, path, entries, argv, now);
    if rewritten.Err? {
      return Some(Err(rewritten.errno)), entries', path', now';
    }
    r, entries', path', now' := None, Some(rewritten.value), s.interp, Rewritten(s, path, now);
  }

  /** The loop of expand_shebang(), before argv[] is pushed: the program and, if there was
      a shebang, the entries of its argv[]. */
  method ExpandRounds(v: Verdicts, path0: Text, m: Mem, at: nat, is32: bool, rounds: nat, ghost argv: seq<Text>,
                      ghost readable: bool, ghost gap: bool)
    returns (r: Result<Text>, entries: Option<seq<XPointer>>)
    requires CVerdicts(v) && NoNul(path0) && rounds > 0
    requires readable == TableOf(m, at, is32, List(argv)) && gap == exists n: nat :: Unreadable(m, at, is32, n)
    ensures readable ==> Outcomes(Expanded(v, path0, argv, rounds), m, argv, r, entries)
    ensures AnyOutcome(v(path0), path0, gap, r, entries)
  {
    var path := path0;
    entries := None;
    ghost var now, first := argv, v(path0);
    ghost var outcome := Expanded(v, path0, argv, rounds);
    var i := 0;
    while i < rounds
      invariant 0 <= i <= rounds
      invariant Running(v, rounds - i, m, readable, argv, path, entries, now, outcome)
      invariant i == 0 ==> path == path0 && entries == None
      invariant i > 0 ==> entries.Some? && !gap && first.Ok? && first.value.Some?
    {
      var done;
      done, entries, path, now :=
        RunRound(v, rounds - i, path, m, at, is32, entries, argv, now, outcome, readable, gap);
      if done.Some? {
        return done.value, entries;
      }
      i := i + 1;
    }
    return Err(ELOOP), entries;
  }

  /** expand_shebang(), before argv[] is pushed. */
  method ExpandShebang(sys: System, path: Text, m: Mem, at: nat, is32: bool, ghost argv: seq<Text>)
    returns (r: Result<Text>, entries: Option<seq<XPointer>>)
    requires CStrings(sys) && NoNul(path)
    ensures TableOf(m, at, is32, List(argv)) ==>
              Outcomes(Expanded(VerdictsOf(sys), path, argv, MAXSYMLINKS), m, argv, r, entries)
    ensures AnyOutcome(Verdict(sys, path), path, exists n: nat :: Unreadable(m, at, is32, n), r, entries)
  {
    VerdictsAreC(sys);
    ghost var gap := exists n: nat :: Unreadable(m, at, is32, n);
    r, entries := ExpandRounds(VerdictsOf(sys), path, m, at, is32, MAXSYMLINKS, argv,
                               TableOf(m, at, is32, List(argv)), gap);
  }

  /** The guest finds the expanded argv[] at `pointer`, provided that the strings
      left in place are not where the block goes. */
  ghost predicate Found(m: Mem, xs: seq<XPointer>, out: seq<Text>, is32: bool, memory: Mem, pointer: nat) {
    && Represents(m, xs, List(out)) && pointer > 0
    && (AllAddressable(Pointers(xs, pointer, is32), is32)
        && Clear(xs, List(out), pointer, |Block(xs, pointer, is32)|) ==>
          TableOf(memory, pointer, is32, List(out)))
  }

  /** expand_shebang(): the program, the memory and the pointer to argv[].  It is
      too big if and only if there was a shebang and the stack has no room for
      the entries. */
  method ExpandAndPush(sys: System, path: Text, m: Mem, at: nat, is32: bool, sp: nat, originalSp: nat, redZone: nat,
                       ghost argv: seq<Text>)
    returns (r: Result<Text>, memory: Mem, pointer: nat, ghost xs: seq<XPointer>)
    requires CStrings(sys) && NoNul(path) && TableOf(m, at, is32, List(argv))
    ensures match Expanded(VerdictsOf(sys), path, argv, MAXSYMLINKS)
            case Failed(e) => r == Err(e)
            case Program(p, out) =>
              if Verdict(sys, path) == Ok(None) then r == Ok(path) && out == argv && memory == m && pointer == at
              else
                && Represents(m, xs, List(out))
                && if sp <= Needed(xs, sp, originalSp, redZone, is32) then r == Err(E2BIG)
                   else r == Ok(p) && pointer == sp - Needed(xs, sp, originalSp, redZone, is32)
                        && Found(m, xs, out, is32, memory, pointer)
  {
    memory, pointer, xs := m, at, [];
    var entries;
    r, entries := ExpandShebang(sys, path, m, at, is32, argv);
    if r.Err? || entries.None? {
      return;
    }
    xs := entries.value;
    var pushed;
    pushed, memory, pointer := PushArgv(m, entries.value, sp, originalSp, redZone, is32,
                                        Expanded(VerdictsOf(sys), path, argv, MAXSYMLINKS).argv, at);
    if pushed.Err? {
      r := Err(pushed.errno);
    }
  }

  method PushArgv(m: Mem, xs: seq<XPointer>, sp: nat, originalSp: nat, redZone: nat, is32: bool,
                  ghost out: seq<Text>, at: nat)
    returns (r: Result<bool>, memory: Mem, pointer: nat)
    requires Ended(xs) && xs[0].local.Some? && Represents(m, xs, List(out))
    ensures if sp <= Needed(xs, sp, originalSp, redZone, is32) then r == Err(E2BIG)
            else r.Ok? && pointer == sp - Needed(xs, sp, originalSp, redZone, is32)
                 && Found(m, xs, out, is32, memory, pointer)
  {
    SomeLocal(xs, 0);
    var xp := new XPointers(xs);
    var pushed := xp.Push(m, sp, originalSp, redZone, is32);
    if pushed.Err? {
      return Err(pushed.errno), m, at;
    }
    r, memory, pointer := Ok(true), pushed.value.value.0, pushed.value.value.1;
    if AllAddressable(Pointers(xs, pointer, is32), is32) && Clear(xs, List(out), pointer, |Block(xs, pointer, is32)|) {
      BlockReadsBack(m, xs, List(out), pointer, is32);
    }
  }
}
