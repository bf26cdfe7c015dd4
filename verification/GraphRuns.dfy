// The finished graph and the program's runs: every path is a run, and every
// run is a path unless a `try` fails before the end.
module GraphRuns {
  import opened Options
  import opened Graph
  import opened Structured
  import opened BlockMachine
  import opened Layout
  import opened CfgBuilder
  import opened EarlyReturns

  // What buildCFG promises of the graph it returns for `body`.
  ghost predicate Built(code: Code, preds: seq<seq<nat>>, body: seq<Stmt>) {
    Linked(code, preds) && Performs(code, false, EXIT, EraseAll(body)) && (PlainAll(body) ==> Forks(code))
  }

  // A path from the entry that takes no false edge of a literal `true`, and
  // control before item `m` of its last block.
  ghost predicate Leads(code: Code, p: seq<nat>, m: nat) {
    IsPath(GraphOf(code), p) && p[0] == ENTRY && Feasible(code, p) && m <= |code[p[|p| - 1]].items|
  }

  // What control has shown by then.
  function Upto(code: Code, p: seq<nat>, m: nat): seq<Event>
    requires p != [] && p[|p| - 1] < |code| && m <= |code[p[|p| - 1]].items|
  {
    Emitted(code, p[..|p| - 1]) + code[p[|p| - 1]].items[..m]
  }

  lemma PlainPathsAreFeasible(code: Code, preds: seq<seq<nat>>, p: seq<nat>)
    requires Linked(code, preds) && Forks(code) && IsPath(GraphOf(code), p)
    ensures Feasible(code, p)
  {
    forall k: nat | k + 1 < |p| && p[k] < |code| && code[p[k]].succs != [] && Decided(code[p[k]].items)
      ensures p[k + 1] == code[p[k]].succs[0]
    {
      assert GraphOf(code).Edge(p[k], p[k + 1]);
    }
  }

  // A path from the entry to the exit shows `t`.
  ghost predicate HasPath(code: Code, t: seq<Event>) {
    exists p :: PathBetween(GraphOf(code), p, ENTRY, EXIT) && Feasible(code, p) && Emitted(code, p) == t
  }

  // A run of `stmts` that ends in one of `ends` shows `t`.
  ghost predicate HasRun(stmts: seq<Stmt>, t: seq<Event>, ends: set<Outcome>) {
    exists ch, fuel: nat :: ExecSeq(stmts, [], ch, fuel).trace == t && ExecSeq(stmts, [], ch, fuel).outcome in ends
  }

  const ENDS := {Fall, Returned, Failed}

  // ---- The graph and the erased program ----

  lemma WalkToExit(code: Code, p: seq<nat>, c: Config, t: seq<Event>, d: Config)
    requires |code| > EXIT && code[EXIT] == Node([], [])
    requires Walks(code, p, c, t, d) && c.b == ENTRY && c.at == 0 && d.b == EXIT
    ensures HasPath(code, t)
  {
    var last := p[..|p| - 1];
    assert p == last + [EXIT];
    EmittedJoin(code, last, [EXIT]);
    assert code[ENTRY].items[..0] + t == t;
    assert Emitted(code, p) == t;
  }

  lemma {:induction false} EmittedJoin(code: Code, p: seq<nat>, q: seq<nat>)
    ensures Emitted(code, p + q) == Emitted(code, p) + Emitted(code, q)
  {
    if p == [] {
      assert p + q == q;
    } else {
      EmittedJoin(code, p[1..], q);
      assert (p + q)[1..] == p[1..] + q;
      var first := if p[0] < |code| then code[p[0]].items else [];
      SeqAssoc(first, Emitted(code, p[1..]), Emitted(code, q));
    }
  }

  lemma SeqAssoc(a: seq<Event>, b: seq<Event>, c: seq<Event>)
    ensures a + (b + c) == (a + b) + c
  {
  }

  // Every execution to an end is a path from the entry to the exit, and every
  // unfinished one a path from the entry.
  lemma ExecutionsArePaths(code: Code, preds: seq<seq<nat>>, body: seq<Stmt>, ch: seq<bool>, fuel: nat)
    requires Linked(code, preds) && Performs(code, false, EXIT, body)
    ensures var r := ExecSeq(body, [], ch, fuel);
            && r.outcome in ENDS + {Stuck, OutOfFuel}
            && (r.outcome in ENDS ==> HasPath(code, r.trace))
            && exists p, d :: Walks(code, p, Config(ENTRY, 0, ch), r.trace, d)
  {
    hide Walks, PathBetween, Emitted, SeqOk;
    var r := ExecSeq(body, [], ch, fuel);
    var n := RunLength(code, false, EXIT, body, ch, fuel);
    ViewAll(r.trace);
    var d := Steps(code, Config(ENTRY, 0, ch), n).value.1;
    assert InBounds(code);
    StepsFollowPath(code, Config(ENTRY, 0, ch), n);
    var p :| Walks(code, p, Config(ENTRY, 0, ch), r.trace, d);
    if r.outcome in ENDS {
      WalkToExit(code, p, Config(ENTRY, 0, ch), r.trace, d);
    }
  }

  // And nothing else: some decisions lead along any path from the entry, and
  // the execution on them shows what the path shows, all of it and no more if
  // the path is at the exit, and otherwise goes on along a path.
  lemma PathsAreExecutions(code: Code, preds: seq<seq<nat>>, body: seq<Stmt>, p: seq<nat>, m: nat, least: nat)
      returns (ch: seq<bool>, fuel: nat, q: seq<nat>, d: Config)
    requires Linked(code, preds) && Performs(code, false, EXIT, body) && Leads(code, p, m)
    ensures fuel >= least
    ensures var r := ExecSeq(body, [], ch, fuel); var last := p[|p| - 1];
            && Upto(code, p, m) <= r.trace
            && Walks(code, q, Config(last, m, []), r.trace[|Upto(code, p, m)|..], d)
            && (last == EXIT ==> Upto(code, p, m) == r.trace && r.outcome in ENDS)
  {
    hide Performs, ExecSeq, Emitted, Feasible, Linked, Upto, Walks;
    var n;
    ch, n := PathLength(code, preds, p, m);
    fuel := n + 1 + least;
    StepsAreExecution(code, false, EXIT, body, ch, n, fuel);
    var last, start := p[|p| - 1], Config(ENTRY, 0, ch);
    var r := ExecSeq(body, [], ch, fuel);
    ViewAll(r.trace);
    var length := RunLength(code, false, EXIT, body, ch, fuel);
    if length < n {
      HaltsOnce(code, start, length, n);
    }
    StepsJoin(code, start, n, length - n);
    var here := Config(last, m, []);
    assert InBounds(code) by {
      LinkedIsInBounds(code, preds);
    }
    StepsFollowPath(code, here, length - n);
    d := Steps(code, here, length - n).value.1;
    assert r.trace[|Upto(code, p, m)|..] == Steps(code, here, length - n).value.0;
    q :| Walks(code, q, here, r.trace[|Upto(code, p, m)|..], d);
    if last == EXIT {
      AtExit(code, body);
      HaltsOnce(code, start, n, length);
    }
  }

  lemma LinkedIsInBounds(code: Code, preds: seq<seq<nat>>)
    requires Linked(code, preds)
    ensures InBounds(code)
  {
  }

  lemma AtExit(code: Code, body: seq<Stmt>)
    requires Performs(code, false, EXIT, body)
    ensures |code| > EXIT && code[EXIT] == Node([], [])
  {
  }

  // Decisions along a path.
  lemma PathLength(code: Code, preds: seq<seq<nat>>, p: seq<nat>, m: nat) returns (ch: seq<bool>, n: nat)
    requires Linked(code, preds) && Leads(code, p, m)
    ensures Steps(code, Config(ENTRY, 0, ch), n) == Some((Upto(code, p, m), Config(p[|p| - 1], m, [])))
  {
    hide Feasible, Emitted;
    ch := PathIsDriven(code, p, []);
    var last, most := p[|p| - 1], p[..|p| - 1];
    var items := code[last].items;
    GetsItems(code, last, 0, m, []);
    assert items[0..m] == items[..m];
    GetsJoin(code, Config(ENTRY, 0, ch), Emitted(code, most), Config(last, 0, []), items[..m], Config(last, m, []));
    n :| Steps(code, Config(ENTRY, 0, ch), n) == Some((Upto(code, p, m), Config(last, m, [])));
  }

  lemma WholeBlock(code: Code, p: seq<nat>)
    requires p != [] && p[|p| - 1] < |code|
    ensures Upto(code, p, |code[p[|p| - 1]].items|) == Emitted(code, p)
  {
    var last := |p| - 1;
    assert p == p[..last] + [p[last]];
    EmittedJoin(code, p[..last], [p[last]]);
    EmittedOne(code, p[last]);
  }

  lemma EmittedOne(code: Code, b: nat)
    requires b < |code|
    ensures Emitted(code, [b]) == code[b].items
  {
    assert [b][1..] == [];
  }

  // Where on a path control is before it shows event `n`.
  lemma {:induction false} PathIsCut(code: Code, p: seq<nat>, m: nat, n: nat) returns (i: nat, k: nat)
    requires Leads(code, p, m) && n <= |Upto(code, p, m)|
    ensures i < |p| && Leads(code, p[..i + 1], k) && Upto(code, p[..i + 1], k) == Upto(code, p, m)[..n]
    ensures n < |Upto(code, p, m)| ==> k < |code[p[i]].items| && code[p[i]].items[k] == Upto(code, p, m)[n]
    decreases |p|
  {
    hide Emitted, Feasible;
    var last := |p| - 1;
    var most := Emitted(code, p[..last]);
    if n >= |most| {
      i, k := last, n - |most|;
      assert p[..last + 1] == p;
      assert Upto(code, p, m)[..n] == most + code[p[last]].items[..m][..k];
    } else {
      if last == 0 {
        EmittedNothing(code, p[..0]);
      }
      PrefixIsPath(GraphOf(code), p, last);
      PrefixIsFeasible(code, p, last);
      WholeBlock(code, p[..last]);
      var all := |code[p[last - 1]].items|;
      i, k := PathIsCut(code, p[..last], all, n);
      assert p[..last][..i + 1] == p[..i + 1];
      assert Upto(code, p, m)[..n] == most[..n];
    }
  }

  lemma EmittedNothing(code: Code, p: seq<nat>)
    requires p == []
    ensures Emitted(code, p) == []
  {
  }

  lemma PrefixIsPath(g: Graph, p: seq<nat>, n: nat)
    requires IsPath(g, p) && 0 < n <= |p|
    ensures IsPath(g, p[..n])
  {
    forall i | 0 <= i < n - 1
      ensures g.Edge(p[..n][i], p[..n][i + 1])
    {
      assert g.Edge(p[i], p[i + 1]);
    }
  }

  lemma PrefixIsFeasible(code: Code, p: seq<nat>, n: nat)
    requires Feasible(code, p) && n <= |p|
    ensures Feasible(code, p[..n])
  {
    forall k: nat | k + 1 < n && p[k] < |code| && code[p[k]].succs != [] && Decided(code[p[k]].items)
      ensures p[k + 1] == code[p[k]].succs[0]
    {
      assert p[k] == p[..n][k];
    }
  }

  // ---- The graph and the program ----

  // The erasure waits at conditions only.
  predicate WaitsAtTest(r: Result) {
    r.outcome.Stuck? ==> LastShown(r.trace).Some? && LastShown(r.trace).value.Test?
  }

  lemma ErasedRunEnds(body: seq<Stmt>, ch: seq<bool>, fuel: nat)
    ensures var r := ExecSeq(EraseAll(body), [], ch, fuel); r.outcome != Failed && WaitsAtTest(r)
  {
    hide ExecSeq;
    RunsShowLastAll(EraseAll(body), [], ch, fuel);
    ErasedSeqHasNoTries(body);
  }

  // What a path from the entry shows begins a run of the program that goes on
  // along a path, and is the whole run if the path is at the exit.
  lemma EveryPathIsARun(code: Code, preds: seq<seq<nat>>, body: seq<Stmt>, p: seq<nat>, m: nat, least: nat)
      returns (ch: seq<bool>, fuel: nat, q: seq<nat>, d: Config)
    requires Built(code, preds, body) && Leads(code, p, m)
    ensures fuel >= least
    ensures var r := ExecSeq(body, [], ch, fuel); var last := p[|p| - 1];
            && r.outcome in {Fall, Returned, Stuck, OutOfFuel} && WaitsAtTest(r) && Upto(code, p, m) <= r.trace
            && Walks(code, q, Config(last, m, []), r.trace[|Upto(code, p, m)|..], d)
            && (last == EXIT ==> Upto(code, p, m) == r.trace && r.outcome in {Fall, Returned})
  {
    hide Linked, Performs, ExecSeq, Emitted, Feasible, Upto, Walks, IsPath;
    ch, fuel, q, d := PathsAreExecutions(code, preds, EraseAll(body), p, m, least);
    ErasedRunEnds(body, ch, fuel);
    ExecutionsArePaths(code, preds, EraseAll(body), ch, fuel);
    ch := RerunSeq(body, [], true, ch, fuel, []);
  }

  // And every run begins along a path, up to its end or to the `try` that
  // fails.
  lemma EveryRunFollowsAPath(code: Code, preds: seq<seq<nat>>, body: seq<Stmt>, ch: seq<bool>, fuel: nat)
      returns (p: seq<nat>, m: nat)
    requires Built(code, preds, body)
    ensures Leads(code, p, m) && Upto(code, p, m) == Visible(ExecSeq(body, [], ch, fuel))
  {
    hide Linked, Performs, ExecSeq, Emitted;
    var t := Visible(ExecSeq(body, [], ch, fuel));
    var ch2 := FollowsAll(body, [], ch, fuel);
    var r := ExecSeq(EraseAll(body), [], ch2, fuel);
    ExecutionsArePaths(code, preds, EraseAll(body), ch2, fuel);
    var whole, d :| Walks(code, whole, Config(ENTRY, 0, ch2), r.trace, d);
    assert code[ENTRY].items[..0] + r.trace == r.trace;
    assert Leads(code, whole, d.at) && Upto(code, whole, d.at) == r.trace;
    var i;
    i, m := PathIsCut(code, whole, d.at, |t|);
    p := whole[..i + 1];
  }

  // Every run in which no `try` fails is a path.
  lemma EveryRunIsAPath(code: Code, preds: seq<seq<nat>>, body: seq<Stmt>, ch: seq<bool>, fuel: nat)
    requires Built(code, preds, body) && ExecSeq(body, [], ch, fuel).outcome in {Fall, Returned}
    ensures HasPath(code, ExecSeq(body, [], ch, fuel).trace)
  {
    hide Linked, Performs, ExecSeq, HasPath;
    var ch2 := RerunSeq(body, [], false, ch, fuel, []);
    ExecutionsArePaths(code, preds, EraseAll(body), ch2, fuel);
  }

  // The complete paths are exactly the complete runs in which no `try` fails.
  lemma PathsAreRuns(code: Code, preds: seq<seq<nat>>, body: seq<Stmt>, t: seq<Event>)
    requires Built(code, preds, body)
    ensures HasPath(code, t) <==> HasRun(body, t, {Fall, Returned})
  {
    hide Linked, Performs, ExecSeq, Emitted, Feasible;
    if HasPath(code, t) {
      var p :| PathBetween(GraphOf(code), p, ENTRY, EXIT) && Feasible(code, p) && Emitted(code, p) == t;
      AtExit(code, EraseAll(body));
      WholeBlock(code, p);
      var ch, fuel, q, d := EveryPathIsARun(code, preds, body, p, 0, 0);
      assert ExecSeq(body, [], ch, fuel).trace == t;
    }
    if HasRun(body, t, {Fall, Returned}) {
      var ch, fuel: nat :| ExecSeq(body, [], ch, fuel).trace == t && ExecSeq(body, [], ch, fuel).outcome in {Fall, Returned};
      EveryRunIsAPath(code, preds, body, ch, fuel);
    }
  }

  // ---- A `try` that fails ----

  // All ways out of the function, failing ones included, are paths.
  ghost predicate Adequate(code: Code, body: seq<Stmt>) {
    forall t :: HasRun(body, t, ENDS) ==> HasPath(code, t)
  }

  // The graph has a path for every complete run exactly when every `try` that
  // control can reach is the last thing its function does, deferred statements
  // aside.
  lemma AdequateIffTriesAtEnd(code: Code, preds: seq<seq<nat>>, body: seq<Stmt>)
    requires Built(code, preds, body) && DistinctAll(body)
    ensures Adequate(code, body) <==> TriesAtEndAll(body)
  {
    hide Built, ExecSeq, HasPath, TriesAtEndAll, DistinctAll;
    if TriesAtEndAll(body) {
      forall t | HasRun(body, t, ENDS)
        ensures HasPath(code, t)
      {
        var ch, fuel: nat :| ExecSeq(body, [], ch, fuel).trace == t && ExecSeq(body, [], ch, fuel).outcome in ENDS;
        CompleteRunIsAPath(code, preds, body, ch, fuel);
      }
    } else {
      var fuel := DepthAll(body);
      var ch := EarlyTryEscapesAll(body, [], fuel);
      var t := ExecSeq(body, [], ch, fuel).trace;
      assert HasRun(body, t, ENDS);
      EscapeHasNoPath(code, preds, body, ch, fuel);
    }
  }

  lemma CompleteRunIsAPath(code: Code, preds: seq<seq<nat>>, body: seq<Stmt>, ch: seq<bool>, fuel: nat)
    requires Built(code, preds, body) && ExecSeq(body, [], ch, fuel).outcome in ENDS
    requires ExecSeq(body, [], ch, fuel).outcome.Failed? ==> TriesAtEndAll(body)
    ensures HasPath(code, ExecSeq(body, [], ch, fuel).trace)
  {
    hide Linked, Performs, ExecSeq, HasPath, TriesAtEndAll;
    if ExecSeq(body, [], ch, fuel).outcome.Failed? {
      var ch2 := FailureIsFallAll(body, [], ch, fuel, []);
      ExecutionsArePaths(code, preds, EraseAll(body), ch2, fuel);
    } else {
      EveryRunIsAPath(code, preds, body, ch, fuel);
    }
  }

  lemma EscapeHasNoPath(code: Code, preds: seq<seq<nat>>, body: seq<Stmt>, ch: seq<bool>, fuel: nat)
    requires Built(code, preds, body) && Escapes(ExecSeq(body, [], ch, fuel), NodesAll(body), TailActsAll(body))
    ensures !HasPath(code, ExecSeq(body, [], ch, fuel).trace)
  {
    hide Built, ExecSeq, HasPath, LastShown;
    var t := ExecSeq(body, [], ch, fuel).trace;
    PathsAreRuns(code, preds, body, t);
    if HasRun(body, t, {Fall, Returned}) {
      var ch2, fuel2: nat :| ExecSeq(body, [], ch2, fuel2).trace == t
        && ExecSeq(body, [], ch2, fuel2).outcome in {Fall, Returned};
      RunsShowLastAll(body, [], ch2, fuel2);
    }
  }

  // So `try f(); g();` has no path for the run in which f fails, whatever
  // graph the builder returns for it.
  lemma FailedTryHasNoPath(code: Code, preds: seq<seq<nat>>)
    requires Built(code, preds, [Try(0), Simple(1)])
    ensures ExecSeq([Try(0), Simple(1)], [], [false], 0) == Result([Act(0)], Failed, [])
    ensures !HasPath(code, [Act(0)])
  {
    hide Built, HasPath;
    var body := [Try(0), Simple(1)];
    assert body[1..] == [Simple(1)] && body[1..][1..] == [];
    assert [Act(0)] + Runs([]) == [Act(0)];
    LastOfOne(Act(0));
    EscapeHasNoPath(code, preds, body, [false], 0);
  }
}
