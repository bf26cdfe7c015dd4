// What liveness's answer means for runs of the program. A `try` that fails
// runs what is pending at once; the graph has only what happens on success.
module LiveRuns {
  import opened Options
  import opened Graph
  import opened Structured
  import opened BlockMachine
  import opened Layout
  import opened CfgBuilder
  import opened EarlyReturns
  import opened GraphRuns
  import opened NodeEvents
  import opened BuiltGraphs
  import opened DeferStacks
  import opened TryPlaces
  import DeferOrder
  import Events
  import Liveness

  // Where event `k` of block `p[i]` stands among those of the path.
  function EventIndex(code: Code, uses: Uses, p: seq<nat>, i: nat, k: nat): nat
    requires i <= |p|
  {
    |Flat(uses, Emitted(code, p[..i]))| + k
  }

  // A store on the path that the pass calls dead.
  ghost predicate DeadAt(code: Code, uses: Uses, watched: set<nat>, p: seq<nat>, m: nat, i: nat, k: nat) {
    && Leads(code, p, m) && i < |p|
    && Liveness.DeadStore(GraphOf(code), BlockEvents(uses, code), watched, p[i], k)
    && EventIndex(code, uses, p, i, k) < |Flat(uses, Upto(code, p, m))|
  }

  // The variable written at `at` is written again before it is read, if it is.
  ghost predicate Unread(events: seq<Events.Event>, at: nat) {
    at < |events| && events[at].v !in Liveness.Exposed(events[at + 1..])
  }

  // The run goes along the path up to its end or to the `try` that fails.
  ghost predicate Follows(code: Code, r: Result, p: seq<nat>, m: nat) {
    Leads(code, p, m) && Upto(code, p, m) == Visible(r)
  }

  // ---- Along a path ----

  lemma ExposedOfPrefix(a: seq<Events.Event>, b: seq<Events.Event>)
    requires a <= b
    ensures Liveness.Exposed(a) <= Liveness.Exposed(b)
  {
    Liveness.ExposedConcat(a, b[|a|..]);
    assert b == a + b[|a|..];
  }

  lemma UnreadOfPrefix(a: seq<Events.Event>, b: seq<Events.Event>, at: nat)
    requires a <= b && at < |a| && Unread(b, at)
    ensures Unread(a, at)
  {
    hide Liveness.Exposed;
    assert a[at + 1..] <= b[at + 1..];
    ExposedOfPrefix(a[at + 1..], b[at + 1..]);
  }

  lemma FlatOfPrefix(uses: Uses, t: seq<Event>, u: seq<Event>)
    requires t <= u
    ensures Flat(uses, t) <= Flat(uses, u)
  {
    FlatJoin(uses, t, u[|t|..]);
    assert u == t + u[|t|..];
  }

  // The events of a path, around those of one block.
  lemma PathEvents(code: Code, uses: Uses, p: seq<nat>, i: nat)
    requires i < |p| && forall j :: 0 <= j < |p| ==> p[j] < |code|
    ensures var blocks := BlockEvents(uses, code);
      Flat(uses, Emitted(code, p)) == Flat(uses, Emitted(code, p[..i])) + (blocks[p[i]] + Liveness.Along(blocks, p[i + 1..]))
  {
    hide Emitted, Flat, BlockEvents;
    var later := p[i + 1..];
    assert p == p[..i] + ([p[i]] + later);
    EmittedJoin(code, p[..i], [p[i]] + later);
    EmittedJoin(code, [p[i]], later);
    EmittedOne(code, p[i]);
    FlatJoin(uses, Emitted(code, p[..i]), code[p[i]].items + Emitted(code, later));
    FlatJoin(uses, code[p[i]].items, Emitted(code, later));
    FlatAlong(uses, code, later);
    BlockIsFlat(uses, code, p[i]);
  }

  lemma DeadAlong(code: Code, uses: Uses, watched: set<nat>, p: seq<nat>, i: nat, k: nat)
    requires IsPath(GraphOf(code), p) && i < |p|
    requires Liveness.DeadStore(GraphOf(code), BlockEvents(uses, code), watched, p[i], k)
    ensures var all := Flat(uses, Emitted(code, p)); var at := EventIndex(code, uses, p, i, k);
      Unread(all, at) && all[at] == BlockEvents(uses, code)[p[i]][k]
  {
    hide Emitted, Flat, Liveness.Exposed, Liveness.Live, BlockEvents, Liveness.Along;
    var g, blocks := GraphOf(code), BlockEvents(uses, code);
    PathEvents(code, uses, p, i);
    var ahead := Liveness.Along(blocks, p[i + 1..]);
    EventBetween(Flat(uses, Emitted(code, p[..i])), blocks[p[i]], ahead, k);
    Liveness.ExposedConcat(blocks[p[i]][k + 1..], ahead);
    if blocks[p[i]][k].v in Liveness.Exposed(ahead) {
      ExposedAhead(g, blocks, p, i, blocks[p[i]][k].v);
    }
  }

  lemma EventBetween(before: seq<Events.Event>, block: seq<Events.Event>, ahead: seq<Events.Event>, k: nat)
    requires k < |block|
    ensures var all := before + (block + ahead); var at := |before| + k;
      all[at] == block[k] && all[at + 1..] == block[k + 1..] + ahead
  {
  }

  lemma BlockIsFlat(uses: Uses, code: Code, b: nat)
    requires b < |code|
    ensures BlockEvents(uses, code)[b] == Flat(uses, code[b].items)
  {
  }

  lemma ExposedAhead(g: Graph, blocks: seq<seq<Events.Event>>, p: seq<nat>, i: nat, v: nat)
    requires g.Valid() && |blocks| == |g.succs| && IsPath(g, p) && i < |p|
    requires v in Liveness.Exposed(Liveness.Along(blocks, p[i + 1..]))
    ensures Liveness.LiveAfter(g, blocks, p[i], v)
  {
    hide Liveness.Live;
    var later := p[i + 1..];
    if later != [] {
      forall j | 0 <= j < |later| - 1
        ensures g.Edge(later[j], later[j + 1])
      {
        assert g.Edge(p[i + 1 + j], p[i + 1 + j + 1]);
      }
      Liveness.ExposedAlongIsLive(g, blocks, later, v);
      assert g.Edge(p[i], p[i + 1]);
      var n :| 0 <= n < |g.succs[p[i]]| && g.succs[p[i]][n] == p[i + 1];
    }
  }

  // What is shown up to a point of a path begins what the whole path shows.
  lemma UptoIsPrefix(code: Code, p: seq<nat>, m: nat)
    requires p != [] && p[|p| - 1] < |code| && m <= |code[p[|p| - 1]].items|
    ensures Upto(code, p, m) <= Emitted(code, p)
  {
    hide Emitted;
    WholeBlock(code, p);
    var items := code[p[|p| - 1]].items;
    assert items[..m] <= items[..|items|];
  }

  // ---- Runs in which no `try` fails ----

  // Nothing reads what a dead store wrote, wherever the run stops.
  lemma DeadStoreIsUnread(code: Code, body: seq<Stmt>, uses: Uses, watched: set<nat>, ch: seq<bool>, fuel: nat,
      p: seq<nat>, m: nat, i: nat, k: nat)
    requires !ExecSeq(body, [], ch, fuel).outcome.Failed?
    requires Follows(code, ExecSeq(body, [], ch, fuel), p, m) && DeadAt(code, uses, watched, p, m, i, k)
    ensures Unread(Flat(uses, ExecSeq(body, [], ch, fuel).trace), EventIndex(code, uses, p, i, k))
  {
    hide ExecSeq, Flat, Emitted, Feasible, Liveness.DeadStore, Unread;
    DeadAlong(code, uses, watched, p, i, k);
    UptoIsPrefix(code, p, m);
    FlatOfPrefix(uses, Upto(code, p, m), Emitted(code, p));
    UnreadOfPrefix(Flat(uses, Upto(code, p, m)), Flat(uses, Emitted(code, p)), EventIndex(code, uses, p, i, k));
  }

  // ---- A run in which a `try` fails ----

  // On success the same run goes on along the graph.
  lemma TryGoesOn(code: Code, preds: seq<seq<nat>>, body: seq<Stmt>, p: seq<nat>, m: nat, a: nat, least: nat)
      returns (ch: seq<bool>, fuel: nat, q: seq<nat>, d: Config)
    requires Built(code, preds, body) && Leads(code, p, m)
    requires var t := Upto(code, p, m); t != [] && t[|t| - 1] == Act(a)
    ensures fuel >= least
    ensures var r := ExecSeq(body, [], ch, fuel); var t := Upto(code, p, m);
            && t <= r.trace && Walks(code, q, Config(p[|p| - 1], m, []), r.trace[|t|..], d) && TryPlaces.Passes(r, |t| - 1, a)
  {
    hide Built, ExecSeq, Upto, Feasible, Walks;
    ch, fuel, q, d := EveryPathIsARun(code, preds, body, p, m, least);
    var r, t := ExecSeq(body, [], ch, fuel), Upto(code, p, m);
    if |r.trace| == |t| {
      assert r.trace == t;
      assert Core(t) == t;
    }
  }

  // A failing run stops at a `try` and then runs what is pending there.
  lemma FailsAtATry(body: seq<Stmt>, ch: seq<bool>, fuel: nat) returns (a: nat)
    requires ExecSeq(body, [], ch, fuel).outcome.Failed?
    ensures var r := ExecSeq(body, [], ch, fuel); var t := Visible(r);
      && a in TriesAll(body) && FailsAt(r, a) && StopsAt(r, a)
  {
    hide ExecSeq;
    RunsShowLastAll(body, [], ch, fuel);
    a := LastShown(ExecSeq(body, [], ch, fuel).trace).value.a;
    FailureStops(body, ch, fuel, a);
  }

  // Such a run: what it shows, and what is left of it.
  ghost predicate StopsAt(r: Result, a: nat) {
    var t := Visible(r);
    && t <= r.trace
    && var u := r.trace[|t|..];
    && t != [] && t[|t| - 1] == Act(a) && Hushed(u)
    && DeferOrder.Unstack(t, []).Some? && DeferOrder.Unstack(u, DeferOrder.Unstack(t, []).value) == Some([])
  }

  lemma FailureStops(body: seq<Stmt>, ch: seq<bool>, fuel: nat, a: nat)
    requires FailsAt(ExecSeq(body, [], ch, fuel), a)
    ensures StopsAt(ExecSeq(body, [], ch, fuel), a)
  {
    hide ExecSeq, Core, DeferOrder.Unstack;
    var r := ExecSeq(body, [], ch, fuel);
    VisibleThenRuns(r);
    DeferOrder.RunsNest(body, ch, fuel);
    var t := Visible(r);
    var u := r.trace[|t|..];
    assert r.trace == t + u;
    DeferOrder.UnstackJoin(t, u, []);
    forall e | e in u
      ensures e.Run?
    {
      var n :| 0 <= n < |u| && u[n] == e;
      assert r.trace[|t| + n] == e;
    }
  }

  // Until the stack is empty both do the same.
  lemma {:induction false} PopsFlat(uses: Uses, t: seq<Event>, stack: seq<nat>)
    requires AtRun(uses) && Hushed(t) && DeferOrder.Unstack(t, stack) == Some([])
    ensures Flat(uses, t) == Flat(uses, Runs(stack))
    decreases |t|
  {
    if t != [] {
      assert t[0] in t;
      if t[0].Run? {
        PopsFlat(uses, t[1..], stack[..|stack| - 1]);
        assert Runs(stack)[1..] == Runs(stack[..|stack| - 1]);
      } else {
        PopsFlat(uses, t[1..], stack);
      }
    }
  }

  // Where the run that goes on has emptied the stack, nothing else having
  // happened.
  lemma SettledBy(body: seq<Stmt>, ch: seq<bool>, fuel: nat, n: nat, a: nat) returns (w: seq<Event>)
    requires DistinctAll(body) && TriesSettle(body) && a in TriesAll(body) && fuel >= DepthAll(body) + n + 1
    requires TryPlaces.Passes(ExecSeq(body, [], ch, fuel), n, a)
    ensures var t := ExecSeq(body, [], ch, fuel).trace;
      && t[..n + 1] + w <= t && Hushed(w) && DeferOrder.Unstack(t[..n + 1], []).Some?
      && DeferOrder.Unstack(w, DeferOrder.Unstack(t[..n + 1], []).value) == Some([])
  {
    hide ExecSeq, DeferOrder.Unstack;
    var r := ExecSeq(body, [], ch, fuel);
    var none: seq<nat> := [];
    assert none + none == none;
    RestlessIsExactAll(body, none, none, ch, fuel, n, a, ALL);
    assert Settles(r, n, none, ALL);
    var was, later := r.trace[..n + 1], r.trace[n + 1..];
    var stack := DeferOrder.Unstack(was, none).value;
    assert r.trace == was + later;
    if m: nat :| m <= |later| && Empties(later, m, stack) {
      w := later[..m];
      assert was + w == r.trace[..n + 1 + m];
    } else {
      w := later;
      DeferOrder.RunsNest(body, ch, fuel);
      DeferOrder.UnstackJoin(was, later, none);
    }
  }

  // The path on which it does.
  lemma PathGoesOn(code: Code, p: seq<nat>, m: nat, q: seq<nat>, t: seq<Event>, d: Config) returns (all: seq<nat>)
    requires Leads(code, p, m) && Walks(code, q, Config(p[|p| - 1], m, []), t, d)
    ensures IsPath(GraphOf(code), all) && p <= all && Upto(code, p, m) + t <= Emitted(code, all)
  {
    hide Emitted, Feasible;
    var last := |p| - 1;
    PathsJoin(GraphOf(code), p, q, ENTRY, p[last], d.b);
    all := p + q[1..];
    assert all == p[..last] + q;
    EmittedJoin(code, p[..last], q);
    var before, items := Emitted(code, p[..last]), code[p[last]].items[..m];
    WholeBlock(code, q);
    assert items + t == Upto(code, q, d.at);
    UptoIsPrefix(code, q, d.at);
    assert Upto(code, p, m) + t == before + (items + t);
  }

  // If whatever is pending at a `try` runs next on success too, a failing run
  // reads no dead store either.
  lemma FailingRunIsRight(code: Code, preds: seq<seq<nat>>, body: seq<Stmt>, uses: Uses, watched: set<nat>, ch: seq<bool>,
      fuel: nat, p: seq<nat>, m: nat, i: nat, k: nat)
    requires Built(code, preds, body) && DistinctAll(body) && TriesSettle(body) && AtRun(uses)
    requires ExecSeq(body, [], ch, fuel).outcome.Failed?
    requires Follows(code, ExecSeq(body, [], ch, fuel), p, m) && DeadAt(code, uses, watched, p, m, i, k)
    ensures Unread(Flat(uses, ExecSeq(body, [], ch, fuel).trace), EventIndex(code, uses, p, i, k))
  {
    hide Built, ExecSeq, Flat, Emitted, Feasible, Walks, Liveness.DeadStore, Unread, DeferOrder.Unstack, TriesSettle;
    hide Visible, Upto, AtRun;
    var r := ExecSeq(body, [], ch, fuel);
    var t := Visible(r);
    var a := FailsAtATry(body, ch, fuel);
    var u := r.trace[|t|..];
    var ch2, fuel2, q, d := TryGoesOn(code, preds, body, p, m, a, DepthAll(body) + |t|);
    var w := SettledBy(body, ch2, fuel2, |t| - 1, a);
    var more := ExecSeq(body, [], ch2, fuel2).trace[|t|..];
    assert ExecSeq(body, [], ch2, fuel2).trace == t + more && ExecSeq(body, [], ch2, fuel2).trace[..|t|] == t;
    var all := PathGoesOn(code, p, m, q, more, d);
    assert all[..i] == p[..i] && all[i] == p[i];
    DeadAlong(code, uses, watched, all, i, k);
    var stack := DeferOrder.Unstack(t, []).value;
    PopsFlat(uses, u, stack);
    PopsFlat(uses, w, stack);
    FlatJoin(uses, t, u);
    FlatJoin(uses, t, w);
    assert r.trace == t + u;
    FlatOfPrefix(uses, t + w, Emitted(code, all));
    UnreadOfPrefix(Flat(uses, t + w), Flat(uses, Emitted(code, all)), EventIndex(code, uses, p, i, k));
  }

  // ---- A `try` that does not settle ----

  // What is left of a stack reads nothing but its bottom, which reads variable
  // 0; everything else writes it.
  function StoreAndRead(stack: seq<nat>): Uses
    requires stack != []
  {
    (e: Event) =>
      if Mute(e) || e.Registered? then []
      else if e == Run(stack[0]) then [Events.Read(0)]
      else if e.Run? && e.a in stack then []
      else [Events.Def(0)]
  }

  lemma StoreAndReadAtRun(stack: seq<nat>)
    requires stack != []
    ensures AtRun(StoreAndRead(stack))
  {
  }

  // What such a trace reads, it reads before anything but what is left of the
  // stack happens.
  lemma {:induction false} ReadComesSoon(t: seq<Event>, stack: seq<nat>) returns (y: nat)
    requires stack != [] && 0 in Liveness.Exposed(Flat(StoreAndRead(stack), t))
    ensures y < |t| && t[y] == Run(stack[0])
    ensures forall j :: 0 <= j < y ==> Mute(t[j]) || t[j].Registered? || (t[j].Run? && t[j].a in stack)
  {
    if t[0] == Run(stack[0]) {
      y := 0;
    } else {
      Liveness.ExposedConcat(StoreAndRead(stack)(t[0]), Flat(StoreAndRead(stack), t[1..]));
      var x := ReadComesSoon(t[1..], stack);
      y := x + 1;
    }
  }

  // A failing run does nothing else.
  lemma {:induction false} ReadIsExposed(t: seq<Event>, stack: seq<nat>, all: seq<nat>)
    requires all != [] && Hushed(t) && DeferOrder.Unstack(t, stack) == Some([])
    requires all[0] in stack && forall x :: x in stack ==> x in all
    ensures 0 in Liveness.Exposed(Flat(StoreAndRead(all), t))
    decreases |t|
  {
    assert t[0] in t;
    Liveness.ExposedConcat(StoreAndRead(all)(t[0]), Flat(StoreAndRead(all), t[1..]));
    if t[0] == Run(all[0]) {
      assert [Events.Read(0)][0] == Events.Read(0);
    } else if t[0].Run? {
      assert stack == stack[..|stack| - 1] + [t[0].a];
      ReadIsExposed(t[1..], stack[..|stack| - 1], all);
    } else {
      ReadIsExposed(t[1..], stack, all);
    }
  }

  lemma NeverSettles(body: seq<Stmt>, ch: seq<bool>, fuel: nat, n: nat, a: nat)
    requires DistinctAll(body) && a in RestlessAll(body, false, ALL) && fuel >= DepthAll(body) + n + 1
    requires TryPlaces.Passes(ExecSeq(body, [], ch, fuel), n, a)
    ensures !Settles(ExecSeq(body, [], ch, fuel), n, [], ALL)
  {
    hide ExecSeq, Settles, RestlessAll;
    var none: seq<nat> := [];
    assert none + none == none;
    RestlessIsExactAll(body, none, none, ch, fuel, n, a, ALL);
  }

  // Before item `k` of the last block of `p`, which is the `try`, something is
  // pending.
  lemma SomethingIsPending(code: Code, preds: seq<seq<nat>>, body: seq<Stmt>, p: seq<nat>, k: nat, a: nat)
    requires Built(code, preds, body) && DistinctAll(body) && a in RestlessAll(body, false, ALL)
    requires Leads(code, p, k + 1) && code[p[|p| - 1]].items[k] == Act(a)
    ensures DeferOrder.Unstack(Upto(code, p, k), []).Some? && DeferOrder.Unstack(Upto(code, p, k), []).value != []
  {
    hide Built, ExecSeq, Feasible, Emitted, RestlessAll, DeferOrder.Unstack, Walks;
    var before, t := Upto(code, p, k), Upto(code, p, k + 1);
    ItemsStep(code, p, k);
    var ch, fuel, q, d := TryGoesOn(code, preds, body, p, k + 1, a, DepthAll(body) + |t|);
    var r := ExecSeq(body, [], ch, fuel);
    assert r.trace[..|t|] == t && r.trace[..|t| - 1] == before;
    NeverSettles(body, ch, fuel, |t| - 1, a);
    DeferOrder.RunsNest(body, ch, fuel);
    StackBefore(r.trace, |t|);
    StackStep(r.trace, |t| - 1);
    NothingPendingSettles(r, |t| - 1);
  }

  lemma NothingPendingSettles(r: Result, n: nat)
    requires n < |r.trace|
    ensures DeferOrder.Unstack(r.trace[..n + 1], []) == Some([]) ==> Settles(r, n, [], ALL)
  {
    var later := r.trace[n + 1..];
    assert later[..0] == [];
    assert Empties(later, 0, []);
  }

  lemma ItemsStep(code: Code, p: seq<nat>, k: nat)
    requires Leads(code, p, k + 1)
    ensures Upto(code, p, k + 1) == Upto(code, p, k) + [code[p[|p| - 1]].items[k]]
  {
    hide Emitted;
    var items := code[p[|p| - 1]].items;
    assert items[..k + 1] == items[..k] + [items[k]];
  }

  // A store that is needed is read on some path that goes on after it.
  lemma NeededIsAhead(code: Code, uses: Uses, b: nat, k: nat) returns (later: seq<nat>)
    requires GraphOf(code).Valid() && b < |code| && k < |code[b].items| && uses(code[b].items[k]) == [Events.Def(0)]
    requires var at := |Flat(uses, code[b].items[..k])|; var blocks := BlockEvents(uses, code);
      at < |blocks[b]| && Liveness.NeededAfter(GraphOf(code), blocks, b, at, 0)
    ensures later == [] || (IsPath(GraphOf(code), later) && GraphOf(code).Edge(b, later[0]))
    ensures 0 in Liveness.Exposed(Flat(uses, code[b].items[k + 1..] + Emitted(code, later)))
  {
    hide Flat, Emitted, Liveness.Exposed, Liveness.Live, Liveness.Along;
    var g, blocks, items := GraphOf(code), BlockEvents(uses, code), code[b].items;
    var at := |Flat(uses, items[..k])|;
    EventAt(uses, items, k, 0);
    assert uses(items[k])[1..] == [];
    var rest := blocks[b][at + 1..];
    assert rest == Flat(uses, items[k + 1..]);
    later := [];
    if 0 !in Liveness.Exposed(rest) {
      var i: nat :| i < |g.succs[b]| && Liveness.Live(g, blocks, g.succs[b][i], 0);
      later := LivePath(g, blocks, g.succs[b][i], 0);
      Liveness.ReadAheadIsExposed(g, blocks, later, 0);
    }
    FlatAlong(uses, code, later);
    Liveness.ExposedConcat(rest, Liveness.Along(blocks, later));
    FlatJoin(uses, items[k + 1..], Emitted(code, later));
  }

  lemma LivePath(g: Graph, blocks: seq<seq<Events.Event>>, b: nat, v: nat) returns (p: seq<nat>)
    requires |blocks| == |g.succs| && Liveness.Live(g, blocks, b, v)
    ensures Liveness.ReadAhead(g, blocks, p, v) && p[0] == b
  {
    p :| Liveness.ReadAhead(g, blocks, p, v) && p[0] == b;
  }

  // A path made longer.
  lemma PathAhead(code: Code, p: seq<nat>, later: seq<nat>)
    requires IsPath(GraphOf(code), p)
    requires later == [] || (IsPath(GraphOf(code), later) && GraphOf(code).Edge(p[|p| - 1], later[0]))
    ensures IsPath(GraphOf(code), p + later)
  {
    if later != [] {
      var b := p[|p| - 1];
      EdgeThenPath(GraphOf(code), b, later);
      PathsJoin(GraphOf(code), p, [b] + later, p[0], b, later[|later| - 1]);
      assert ([b] + later)[1..] == later;
    } else {
      assert p + later == p;
    }
  }

  lemma ShownAhead(code: Code, p: seq<nat>, k: nat, later: seq<nat>)
    requires Leads(code, p, k)
    ensures Emitted(code, p + later) == Upto(code, p, k) + (code[p[|p| - 1]].items[k..] + Emitted(code, later))
  {
    hide Feasible, Emitted;
    var items := code[p[|p| - 1]].items;
    EmittedJoin(code, p, later);
    WholeBlock(code, p);
    assert items == items[..k] + items[k..];
  }

  lemma EdgeThenPath(g: Graph, b: nat, p: seq<nat>)
    requires IsPath(g, p) && g.Edge(b, p[0]) && b < |g.succs|
    ensures IsPath(g, [b] + p)
  {
    forall j | 0 <= j < |p|
      ensures g.Edge(([b] + p)[j], ([b] + p)[j + 1])
    {
      assert j > 0 ==> g.Edge(p[j - 1], p[j - 1 + 1]);
    }
  }

  // And the run along it.
  lemma RunsAhead(code: Code, preds: seq<seq<nat>>, body: seq<Stmt>, p: seq<nat>, k: nat, later: seq<nat>, least: nat)
      returns (ch: seq<bool>, fuel: nat)
    requires Built(code, preds, body) && PlainAll(body) && Leads(code, p, k)
    requires later == [] || (IsPath(GraphOf(code), later) && GraphOf(code).Edge(p[|p| - 1], later[0]))
    ensures fuel >= least
    ensures var r := ExecSeq(body, [], ch, fuel);
            && r.outcome in {Fall, Returned, Stuck, OutOfFuel}
            && Upto(code, p, k) + (code[p[|p| - 1]].items[k..] + Emitted(code, later)) <= r.trace
  {
    hide ExecSeq, Feasible, Emitted, Linked, Performs, Forks, Walks, Upto;
    var all := p + later;
    PathAhead(code, p, later);
    ShownAhead(code, p, k, later);
    PlainPathsAreFeasible(code, preds, all);
    WholeBlock(code, all);
    var q, d;
    ch, fuel, q, d := EveryPathIsARun(code, preds, body, all, |code[all[|all| - 1]].items|, least);
  }

  // The store in such a `try` is dead on every path.
  lemma StoreIsDead(code: Code, preds: seq<seq<nat>>, body: seq<Stmt>, p: seq<nat>, k: nat, a: nat)
    requires Built(code, preds, body) && DistinctAll(body) && PlainAll(body) && a in RestlessAll(body, false, ALL)
    requires Leads(code, p, k + 1) && code[p[|p| - 1]].items[k] == Act(a)
    ensures var pending := DeferOrder.Unstack(Upto(code, p, k), []);
      pending.Some? && pending.value != [] && var uses := StoreAndRead(pending.value); var b := p[|p| - 1];
      Liveness.DeadStore(GraphOf(code), BlockEvents(uses, code), {0}, b, |Flat(uses, code[b].items[..k])|)
  {
    hide Linked, Performs, Forks, ExecSeq, Feasible, Emitted, RestlessAll, DeferOrder.Unstack, Flat, Upto;
    hide Liveness.NeededAfter;
    SomethingIsPending(code, preds, body, p, k, a);
    var stack := DeferOrder.Unstack(Upto(code, p, k), []).value;
    var uses, b := StoreAndRead(stack), p[|p| - 1];
    var at := |Flat(uses, code[b].items[..k])|;
    AtExit(code, EraseAll(body));
    BuiltGraphFitsThePasses(code, preds);
    EventAt(uses, code[b].items, k, 0);
    BlockIsFlat(uses, code, b);
    if Liveness.NeededAfter(GraphOf(code), BlockEvents(uses, code), b, at, 0) {
      var later := NeededIsAhead(code, uses, b, k);
      NeededSettles(code, preds, body, p, k, a, stack, later);
    }
  }

  // For a path on which it is needed would empty the stack in time.
  lemma NeededSettles(code: Code, preds: seq<seq<nat>>, body: seq<Stmt>, p: seq<nat>, k: nat, a: nat, stack: seq<nat>,
      later: seq<nat>)
    requires Built(code, preds, body) && DistinctAll(body) && PlainAll(body)
    requires Leads(code, p, k + 1) && code[p[|p| - 1]].items[k] == Act(a)
    requires DeferOrder.Unstack(Upto(code, p, k), []) == Some(stack) && stack != []
    requires later == [] || (IsPath(GraphOf(code), later) && GraphOf(code).Edge(p[|p| - 1], later[0]))
    requires 0 in Liveness.Exposed(Flat(StoreAndRead(stack), code[p[|p| - 1]].items[k + 1..] + Emitted(code, later)))
    ensures a !in RestlessAll(body, false, ALL)
  {
    hide Built, ExecSeq, Feasible, Emitted, RestlessAll, DeferOrder.Unstack, Flat, Upto, Settles;
    var v := code[p[|p| - 1]].items[k + 1..] + Emitted(code, later);
    var before := Upto(code, p, k);
    var n := |before|;
    var ch, fuel := RunsAhead(code, preds, body, p, k + 1, later, DepthAll(body) + n + 1);
    var r := ExecSeq(body, [], ch, fuel);
    ItemsStep(code, p, k);
    assert before + [Act(a)] + v <= r.trace;
    var y := ReadComesSoon(v, stack);
    RunGoesOn(r.trace, before, Act(a), v);
    assert OnlyPending(r.trace, n, n + 1 + y, stack);
    QuietRunSettles(body, ch, fuel, n, n + 1 + y);
    if a in RestlessAll(body, false, ALL) {
      NeverSettles(body, ch, fuel, n, a);
    }
  }

  lemma RunGoesOn(t: seq<Event>, before: seq<Event>, e: Event, v: seq<Event>)
    requires before + [e] + v <= t
    ensures var n := |before|;
      && n + 1 + |v| <= |t| && t[..n] == before && t[n] == e
      && forall j :: n < j < n + 1 + |v| ==> t[j] == v[j - n - 1]
  {
  }

  // And yet the failing run reads it.
  lemma RestlessIsWrong(code: Code, preds: seq<seq<nat>>, body: seq<Stmt>, a: nat) returns (uses: Uses)
    requires Built(code, preds, body) && DistinctAll(body) && PlainAll(body) && a in RestlessAll(body, false, ALL)
    ensures AtRun(uses) && !StoresRight(code, body, uses, {0})
  {
    hide Built, ExecSeq, Feasible, Emitted, RestlessAll, DeferOrder.Unstack, Flat, Upto, Visible, Unread;
    var fuel := DepthAll(body);
    var ch := RestlessIsReachedAll(body, [], false, ALL, a, fuel);
    var r := ExecSeq(body, [], ch, fuel);
    FailureStops(body, ch, fuel, a);
    var whole, m := EveryRunFollowsAPath(code, preds, body, ch, fuel);
    var i, k := PathIsCut(code, whole, m, |Visible(r)| - 1);
    var p := whole[..i + 1];
    var b := p[i];
    assert p[|p| - 1] == b && Leads(code, p, k + 1);
    ItemsStep(code, p, k);
    SomethingIsPending(code, preds, body, p, k, a);
    StoreIsDead(code, preds, body, p, k, a);
    var stack := DeferOrder.Unstack(Upto(code, p, k), []).value;
    uses := StoreAndRead(stack);
    StoreAndReadAtRun(stack);
    assert Follows(code, r, p, k + 1);
    StoreIsRead(code, r, p, k, a, stack);
    assert DeadAt(code, uses, {0}, p, k + 1, |p| - 1, |Flat(uses, code[b].items[..k])|);
  }

  // The store at a failing `try` with the stack `stack`.
  lemma StoreIsRead(code: Code, r: Result, p: seq<nat>, k: nat, a: nat, stack: seq<nat>)
    requires r.outcome.Failed? && StopsAt(r, a) && Follows(code, r, p, k + 1) && code[p[|p| - 1]].items[k] == Act(a)
    requires stack != [] && DeferOrder.Unstack(Upto(code, p, k), []) == Some(stack)
    ensures var uses := StoreAndRead(stack); var b := p[|p| - 1]; var at := |Flat(uses, code[b].items[..k])|;
      && EventIndex(code, uses, p, |p| - 1, at) < |Flat(uses, Upto(code, p, k + 1))|
      && !Unread(Flat(uses, r.trace), EventIndex(code, uses, p, |p| - 1, at))
  {
    hide Feasible, Emitted, DeferOrder.Unstack, Flat, Visible, Liveness.Exposed;
    var uses, b, t := StoreAndRead(stack), p[|p| - 1], Visible(r);
    var before, u := Upto(code, p, k), r.trace[|t|..];
    ItemsStep(code, p, k);
    FlatJoin(uses, Emitted(code, p[..|p| - 1]), code[b].items[..k]);
    FlatJoin(uses, before, [Act(a)]);
    FlatOne(uses, Act(a));
    assert r.trace == t + u;
    FlatJoin(uses, t, u);
    DeferOrder.UnstackJoin(before, [Act(a)], []);
    DeferOrder.OneUnstacks(Act(a), stack);
    ReadIsExposed(u, stack, stack);
    var at := |Flat(uses, before)|;
    assert Flat(uses, r.trace) == Flat(uses, before) + [Events.Def(0)] + Flat(uses, u);
    assert Flat(uses, r.trace)[at] == Events.Def(0);
    assert Flat(uses, r.trace)[at + 1..] == Flat(uses, u);
  }

  // ---- Exactly when the pass is right ----

  // What the stores called dead write is not read on any run, finished or not.
  ghost predicate StoresRight(code: Code, body: seq<Stmt>, uses: Uses, watched: set<nat>) {
    forall ch, fuel: nat, p, m: nat, i: nat, k: nat ::
      Follows(code, ExecSeq(body, [], ch, fuel), p, m) && DeadAt(code, uses, watched, p, m, i, k) ==>
        Unread(Flat(uses, ExecSeq(body, [], ch, fuel).trace), EventIndex(code, uses, p, i, k))
  }

  // Whatever the statements read and write.
  ghost predicate NeverWrong(code: Code, body: seq<Stmt>) {
    forall uses: Uses, watched: set<nat> :: AtRun(uses) ==> StoresRight(code, body, uses, watched)
  }

  lemma NeverWrongIffTriesSettle(code: Code, preds: seq<seq<nat>>, body: seq<Stmt>)
    requires Built(code, preds, body) && DistinctAll(body) && PlainAll(body)
    ensures NeverWrong(code, body) <==> TriesSettle(body)
  {
    hide Built, ExecSeq, RestlessAll, Follows, Unread, Flat, Liveness.DeadStore;
    if TriesSettle(body) {
      forall uses: Uses, watched: set<nat>, ch, fuel: nat, p, m: nat, i: nat, k: nat | AtRun(uses)
        && Follows(code, ExecSeq(body, [], ch, fuel), p, m) && DeadAt(code, uses, watched, p, m, i, k)
        ensures Unread(Flat(uses, ExecSeq(body, [], ch, fuel).trace), EventIndex(code, uses, p, i, k))
      {
        RunIsRight(code, preds, body, uses, watched, ch, fuel, p, m, i, k);
      }
    } else {
      var a :| a in RestlessAll(body, false, ALL);
      var uses := RestlessIsWrong(code, preds, body, a);
    }
  }

  lemma RunIsRight(code: Code, preds: seq<seq<nat>>, body: seq<Stmt>, uses: Uses, watched: set<nat>, ch: seq<bool>,
      fuel: nat, p: seq<nat>, m: nat, i: nat, k: nat)
    requires Built(code, preds, body) && DistinctAll(body) && TriesSettle(body) && AtRun(uses)
    requires Follows(code, ExecSeq(body, [], ch, fuel), p, m) && DeadAt(code, uses, watched, p, m, i, k)
    ensures Unread(Flat(uses, ExecSeq(body, [], ch, fuel).trace), EventIndex(code, uses, p, i, k))
  {
    hide Built, ExecSeq, TriesSettle, Follows, DeadAt, Unread, Flat;
    if ExecSeq(body, [], ch, fuel).outcome.Failed? {
      FailingRunIsRight(code, preds, body, uses, watched, ch, fuel, p, m, i, k);
    } else {
      DeadStoreIsUnread(code, body, uses, watched, ch, fuel, p, m, i, k);
    }
  }

  // ---- Examples ----

  // `p = a; defer use(p); try f(); p = b;`, with p as variable 0.
  const EXAMPLE: seq<Stmt> := [Simple(0), Defer(1), Try(2), Simple(3)]

  function ExampleUses(e: Event): seq<Events.Event> {
    if e == Act(0) || e == Act(3) then [Events.Def(0)] else if e == Run(1) then [Events.Read(0)] else []
  }

  lemma RunsOfOne(a: nat)
    ensures Runs([a]) == [Run(a)]
  {
    assert [a][..0] == [];
  }

  // One statement, then the rest.
  lemma OneStep(s: Stmt, stmts: seq<Stmt>, reg: seq<nat>, ch: seq<bool>, fuel: nat)
    requires s.Simple? || s.Defer? || s.Try?
    ensures ExecSeq([s] + stmts, reg, ch, fuel) ==
      if s.Simple? then Then([Act(s.a)], ExecSeq(stmts, reg, ch, fuel))
      else if s.Defer? then Then([Registered(s.a)], ExecSeq(stmts, reg + [s.a], ch, fuel))
      else if ch == [] then Result([Act(s.a)], Stuck, ch)
      else if ch[0] then Then([Act(s.a)], ExecSeq(stmts, reg, ch[1..], fuel))
      else Result([Act(s.a)] + Runs(reg), Failed, ch[1..])
  {
    assert ([s] + stmts)[1..] == stmts;
  }

  // A run that does not fail shows these, or the first of them.
  const SHOWN: seq<Event> := [Act(0), Registered(1), Act(2), Act(3), Run(1)]

  lemma ExampleRuns(ch: seq<bool>, fuel: nat)
    ensures var r := ExecSeq(EXAMPLE, [], ch, fuel);
      if ch != [] && !ch[0] then r.outcome == Failed && r.trace == [Act(0), Registered(1), Act(2), Run(1)]
      else r.outcome != Failed && r.trace <= SHOWN
  {
    hide ExecSeq;
    var c := [Try(2)] + [Simple(3)];
    assert EXAMPLE == [Simple(0)] + ([Defer(1)] + c);
    assert [] + [1] == [1];
    TriedRuns(ch, fuel);
    OneStep(Defer(1), c, [], ch, fuel);
    OneStep(Simple(0), [Defer(1)] + c, [], ch, fuel);
  }

  lemma TriedRuns(ch: seq<bool>, fuel: nat)
    ensures var r := ExecSeq([Try(2)] + [Simple(3)], [1], ch, fuel);
      if ch != [] && !ch[0] then r == Result([Act(2), Run(1)], Failed, ch[1..])
      else r.outcome != Failed && r.trace <= [Act(2), Act(3), Run(1)]
  {
    var left := if ch == [] then [] else ch[1..];
    RunsOfOne(1);
    assert ExecSeq([], [1], left, fuel) == Result([Run(1)], Fall, left);
    hide ExecSeq;
    OneStep(Simple(3), [], [1], left, fuel);
    assert [Simple(3)] + [] == [Simple(3)];
    OneStep(Try(2), [Simple(3)], [1], ch, fuel);
  }

  // After the first store it is written again before it is read.
  lemma {:induction false} OverwrittenFirst(t: seq<Event>)
    requires t <= SHOWN[1..]
    ensures 0 !in Liveness.Exposed(Flat(ExampleUses, t))
  {
    if |t| > 2 {
      assert t == [Registered(1), Act(2)] + t[2..] && t[2] == Act(3);
      FlatNothing(ExampleUses, t[..2]);
      FlatJoin(ExampleUses, [Registered(1), Act(2)], t[2..]);
      assert [Events.Def(0)][0] == Events.Def(0);
      Liveness.ExposedConcat([Events.Def(0)], Flat(ExampleUses, t[2..][1..]));
    } else {
      FlatNothing(ExampleUses, t);
    }
  }

  lemma ExampleStoreIsDead(code: Code, preds: seq<seq<nat>>, p: seq<nat>, k: nat)
    requires Built(code, preds, EXAMPLE)
    requires Leads(code, p, k + 1) && code[p[|p| - 1]].items[k] == Act(0) && Upto(code, p, k) == []
    ensures var b := p[|p| - 1];
      Liveness.DeadStore(GraphOf(code), BlockEvents(ExampleUses, code), {0}, b, |Flat(ExampleUses, code[b].items[..k])|)
  {
    hide Linked, Performs, ExecSeq, Emitted, Feasible, Liveness.NeededAfter, Upto, Flat, Liveness.Exposed;
    var b := p[|p| - 1];
    var at := |Flat(ExampleUses, code[b].items[..k])|;
    AtExit(code, EraseAll(EXAMPLE));
    BuiltGraphFitsThePasses(code, preds);
    EventAt(ExampleUses, code[b].items, k, 0);
    BlockIsFlat(ExampleUses, code, b);
    if Liveness.NeededAfter(GraphOf(code), BlockEvents(ExampleUses, code), b, at, 0) {
      var later := NeededIsAhead(code, ExampleUses, b, k);
      var ch, fuel := RunsAhead(code, preds, EXAMPLE, p, k + 1, later, 0);
      ItemsStep(code, p, k);
      ExampleRuns(ch, fuel);
      OverwrittenFirst(code[b].items[k + 1..] + Emitted(code, later));
    }
  }

  // Every graph built for the example calls the first store dead: on its paths
  // the second store comes before the deferred read. The run in which f fails
  // reads the first one.
  lemma DeadStoreIsReadOnFailure(code: Code, preds: seq<seq<nat>>) returns (p: seq<nat>, k: nat)
    requires Built(code, preds, EXAMPLE)
    ensures Leads(code, p, k + 1) && code[p[|p| - 1]].items[k] == Act(0)
    ensures var b := p[|p| - 1];
      Liveness.DeadStore(GraphOf(code), BlockEvents(ExampleUses, code), {0}, b, |Flat(ExampleUses, code[b].items[..k])|)
    ensures Flat(ExampleUses, ExecSeq(EXAMPLE, [], [false], 0).trace) == [Events.Def(0), Events.Read(0)]
  {
    hide Built, Exec, ExecSeq, Emitted, Feasible, Upto, BlockEvents, Flat, Core;
    ExampleRuns([false], 0);
    FailureShows();
    var whole, m := EveryRunFollowsAPath(code, preds, EXAMPLE, [false], 0);
    var i;
    i, k := PathIsCut(code, whole, m, 0);
    p := whole[..i + 1];
    ExampleStoreIsDead(code, preds, p, k);
  }

  lemma FailureShows()
    ensures Core([Act(0), Registered(1), Act(2), Run(1)]) == [Act(0), Registered(1), Act(2)]
    ensures Flat(ExampleUses, [Act(0), Registered(1), Act(2), Run(1)]) == [Events.Def(0), Events.Read(0)]
  {
    var shown := [Act(0), Registered(1), Act(2)];
    assert [Act(0), Registered(1), Act(2), Run(1)] == shown + [Run(1)] && shown == [Act(0)] + [Registered(1), Act(2)];
    LastOfOne(Run(1));
    CoreOfJoin(shown, [Run(1)]);
    FlatJoin(ExampleUses, shown, [Run(1)]);
    FlatJoin(ExampleUses, [Act(0)], [Registered(1), Act(2)]);
    FlatNothing(ExampleUses, [Registered(1), Act(2)]);
    FlatOne(ExampleUses, Act(0));
    FlatOne(ExampleUses, Run(1));
  }

  // `{ { defer use(p); try f(); } g(); }`: nothing is lost, though the `try`
  // is not at the end.
  const SETTLED: seq<Stmt> := [Block([Defer(0), Try(1)]), Simple(2)]

  lemma SettledTryNeedNotBeLast()
    ensures TriesSettle(SETTLED) && !TriesAtEndAll(SETTLED)
  {
    var b, g := [Defer(0), Try(1)], [Simple(2)];
    assert SETTLED[0] == Block(b) && SETTLED[1..] == g;
    NothingRestless(b, g);
    BlockCanFail(b);
    hide EndsAll;
    assert GoodFirst(g, false, ALL) == ALL;
    assert !SilentAll(g);
  }

  lemma BlockCanFail(b: seq<Stmt>)
    requires b == [Defer(0), Try(1)]
    ensures EndsAll(b, Failed)
  {
    assert b[1..] == [Try(1)] && EndsAll([Try(1)], Failed);
  }

  lemma NothingRestless(b: seq<Stmt>, g: seq<Stmt>)
    requires b == [Defer(0), Try(1)] && g == [Simple(2)]
    ensures RestlessAll(b, false, ALL) == {} && RestlessAll(g, false, ALL) == {}
  {
    assert b[1..] == [Try(1)] && [Try(1)][1..] == [] && g[1..] == [];
    assert GoodFirst([], true, ALL) == ALL;
    assert RestlessAll([Try(1)], true, ALL) == {};
  }

  lemma ExampleDoesNotSettle()
    ensures !TriesSettle(EXAMPLE)
  {
    var b, c := [Defer(1), Try(2), Simple(3)], [Try(2), Simple(3)];
    assert EXAMPLE[1..] == b && b[1..] == c && c[1..] == [Simple(3)];
    assert Fall !in GoodFirst([Simple(3)], true, ALL);
    assert RestlessAll(c, true, ALL) != {};
  }
}
