// What definite assignment's answer means for runs of the program. The pass
// counts a deferred statement where it is written; it happens where it runs.
module AssignedRuns {
  import opened Options
  import opened Graph
  import opened Structured
  import opened BlockMachine
  import opened Layout
  import opened CfgBuilder
  import opened EarlyReturns
  import opened GraphRuns
  import opened NodeEvents
  import opened BuiltGraphs
  import opened Quiet
  import opened DeferPlaces
  import opened DeferStacks
  import DeferOrder
  import Events
  import DefiniteAssignment

  // The pass has nothing to report.
  ghost predicate Unreported(code: Code, sees: Uses, declared: set<nat>) {
    forall b: nat, k: nat ::
      !DefiniteAssignment.UseBeforeAssignment(GraphOf(code), BlockEvents(sees, code), ENTRY, declared, b, k)
  }

  // Node `k` of the last block of `p` reads a declared variable no node of the
  // path before has written.
  ghost predicate Reported(code: Code, sees: Uses, declared: set<nat>, p: seq<nat>, k: nat, j: nat) {
    && Leads(code, p, k + 1)
    && var e := code[p[|p| - 1]].items[k];
       && j < |sees(e)| && sees(e)[j].Read? && sees(e)[j].v in declared
       && sees(e)[j].v !in Events.Defs(Flat(sees, Upto(code, p, k))) && sees(e)[j].v !in Events.Defs(sees(e)[..j])
  }

  // ---- Events on a path ----

  lemma UptoDefs(code: Code, sees: Uses, p: seq<nat>, k: nat, v: nat)
    requires p != [] && (forall i :: 0 <= i < |p| ==> p[i] < |code|) && k <= |code[p[|p| - 1]].items|
    ensures v in Events.Defs(Flat(sees, Upto(code, p, k))) <==>
      || !DefiniteAssignment.MissesDef(BlockEvents(sees, code), p[..|p| - 1], v)
      || v in Events.Defs(Flat(sees, code[p[|p| - 1]].items[..k]))
  {
    hide Emitted, Flat, BlockEvents;
    var most, items := Emitted(code, p[..|p| - 1]), code[p[|p| - 1]].items[..k];
    DefsAlong(sees, code, p[..|p| - 1], v);
    FlatJoin(sees, most, items);
    Events.DefsConcat(Flat(sees, most), Flat(sees, items));
  }

  // So the pass reports it.
  lemma ReportedIsReported(code: Code, sees: Uses, declared: set<nat>, p: seq<nat>, k: nat, j: nat)
    requires Reported(code, sees, declared, p, k, j)
    ensures !Unreported(code, sees, declared)
  {
    hide Flat, Feasible, Upto;
    var b := p[|p| - 1];
    var items := code[b].items;
    var at := |Flat(sees, items[..k])| + j;
    var block := BlockEvents(sees, code)[b];
    EventAt(sees, items, k, j);
    Events.DefsConcat(Flat(sees, items[..k]), sees(items[k])[..j]);
    UptoDefs(code, sees, p, k, sees(items[k])[j].v);
    assert PathBetween(GraphOf(code), p, ENTRY, b);
    assert block[at] == sees(items[k])[j];
    assert DefiniteAssignment.UseBeforeAssignment(GraphOf(code), BlockEvents(sees, code), ENTRY, declared, b, at);
  }

  // And on a graph without an edge that is never taken, nothing else.
  lemma OnlyReportedIsReported(code: Code, preds: seq<seq<nat>>, sees: Uses, declared: set<nat>)
    requires Linked(code, preds) && Forks(code) && !Unreported(code, sees, declared)
    ensures exists p, k: nat, j: nat :: Reported(code, sees, declared, p, k, j)
  {
    hide Linked, Forks, Reported, DefiniteAssignment.UseBeforeAssignment;
    var b: nat, at: nat :|
      DefiniteAssignment.UseBeforeAssignment(GraphOf(code), BlockEvents(sees, code), ENTRY, declared, b, at);
    var p, k, j := UseIsReported(code, preds, sees, declared, b, at);
  }

  lemma UseIsReported(code: Code, preds: seq<seq<nat>>, sees: Uses, declared: set<nat>, b: nat, at: nat)
      returns (p: seq<nat>, k: nat, j: nat)
    requires Linked(code, preds) && Forks(code)
    requires DefiniteAssignment.UseBeforeAssignment(GraphOf(code), BlockEvents(sees, code), ENTRY, declared, b, at)
    ensures Reported(code, sees, declared, p, k, j)
  {
    hide Linked, Forks, Flat, Feasible, Upto;
    var blocks: seq<seq<Events.Event>> := BlockEvents(sees, code);
    var v := blocks[b][at].v;
    p :| PathBetween(GraphOf(code), p, ENTRY, b) && DefiniteAssignment.MissesDef(blocks, p[..|p| - 1], v);
    var items := code[b].items;
    k, j := EventFrom(sees, items, at);
    PlainPathsAreFeasible(code, preds, p);
    EventAt(sees, items, k, j);
    Events.DefsConcat(Flat(sees, items[..k]), sees(items[k])[..j]);
    UptoDefs(code, sees, p, k, v);
  }

  lemma UnreportedPathIsAssigned(code: Code, sees: Uses, declared: set<nat>, p: seq<nat>, m: nat)
    requires Unreported(code, sees, declared) && Leads(code, p, m)
    ensures ReadsAssigned(sees, Upto(code, p, m), declared)
  {
    hide Unreported, Flat, Feasible, Emitted;
    var t := Upto(code, p, m);
    forall n: nat, j: nat | n < |t| && j < |sees(t[n])|
      ensures ReadAssigned(sees, t, declared, n, j)
    {
      var i, k := PathIsCut(code, p, m, n);
      var q := p[..i + 1];
      assert Leads(code, q, k + 1);
      if !ReadAssigned(sees, t, declared, n, j) {
        assert Reported(code, sees, declared, q, k, j);
        ReportedIsReported(code, sees, declared, q, k, j);
      }
    }
  }

  // ---- What runs show ----

  lemma {:induction false} StackedWasRegistered(t: seq<Event>, stack: seq<nat>, x: nat)
    requires DeferOrder.Unstack(t, stack).Some? && x in DeferOrder.Unstack(t, stack).value
    ensures x in stack || Registered(x) in t
  {
    if t != [] {
      match t[0]
      case Registered(a) => StackedWasRegistered(t[1..], stack + [a], x);
      case Run(a) => StackedWasRegistered(t[1..], stack[..|stack| - 1], x);
      case _ => StackedWasRegistered(t[1..], stack, x);
    }
  }

  // What runs was passed before.
  lemma RanWasRegistered(t: seq<Event>, n: nat)
    requires DeferOrder.Unstack(t, []).Some? && n < |t| && t[n].Run?
    ensures exists i :: 0 <= i < n && t[i] == Registered(t[n].a)
  {
    assert t == t[..n] + t[n..] && t[n..][0] == t[n];
    DeferOrder.UnstackJoin(t[..n], t[n..], []);
    var stack := DeferOrder.Unstack(t[..n], []).value;
    StackedWasRegistered(t[..n], [], t[n].a);
    var i :| 0 <= i < |t[..n]| && t[..n][i] == Registered(t[n].a);
    assert t[i] == Registered(t[n].a);
  }

  // What has happened was seen before.
  lemma DoneWasSeen(t: seq<Event>, sees: Uses, n: nat, v: nat)
    requires DeferOrder.Unstack(t, []).Some? && n <= |t| && v in Events.Defs(Flat(Does(sees), t[..n]))
    ensures v in Events.Defs(Flat(sees, t[..n]))
  {
    DefsOfFlat(Does(sees), t[..n], v);
    var i: nat :| i < |t[..n]| && v in Events.Defs(Does(sees)(t[..n][i]));
    if t[i].Run? {
      RanWasRegistered(t, i);
      var k :| 0 <= k < i && t[k] == Registered(t[i].a);
      assert t[..n][k] == t[k];
    }
    DefsOfFlat(sees, t[..n], v);
  }

  // ---- A pass that reports nothing ----

  // If no deferred statement writes a declared variable, every read of every
  // run comes after a write, unfinished runs and failing ones included.
  lemma UnreportedRunIsAssigned(code: Code, preds: seq<seq<nat>>, body: seq<Stmt>, sees: Uses, declared: set<nat>,
      ch: seq<bool>, fuel: nat)
    requires Built(code, preds, body) && AtSite(sees) && Unreported(code, sees, declared)
    requires forall a :: Registered(a) in NodesAll(body) ==> Events.Defs(sees(Registered(a))) !! declared
    ensures ReadsAssigned(Does(sees), ExecSeq(body, [], ch, fuel).trace, declared)
  {
    hide Built, ExecSeq, Unreported, Flat, Core;
    var r := ExecSeq(body, [], ch, fuel);
    var p, m := EveryRunFollowsAPath(code, preds, body, ch, fuel);
    UnreportedPathIsAssigned(code, sees, declared, p, m);
    VisibleThenRuns(r);
    DeferOrder.RunsNest(body, ch, fuel);
    RunsStayWithin(body, [], ch, fuel);
    forall n: nat, j: nat | n < |r.trace| && j < |Does(sees)(r.trace[n])|
      ensures ReadAssigned(Does(sees), r.trace, declared, n, j)
    {
      NodeIsAssigned(body, sees, declared, r, n, j);
    }
  }

  lemma NodeIsAssigned(body: seq<Stmt>, sees: Uses, declared: set<nat>, r: Result, n: nat, j: nat)
    requires AtSite(sees) && forall a :: Registered(a) in NodesAll(body) ==> Events.Defs(sees(Registered(a))) !! declared
    requires Visible(r) <= r.trace && (forall i :: |Visible(r)| <= i < |r.trace| ==> r.trace[i].Run?)
    requires ReadsAssigned(sees, Visible(r), declared) && DeferOrder.Unstack(r.trace, []).Some?
    requires Within(r.trace, NodesAll(body) + set x | x in [] :: Run(x))
    requires n < |r.trace| && j < |Does(sees)(r.trace[n])|
    ensures ReadAssigned(Does(sees), r.trace, declared, n, j)
  {
    hide Flat, Core, Visible;
    var t, e := r.trace, Does(sees)(r.trace[n])[j];
    if e.Read? && e.v in declared {
      var i: nat := n;
      if t[n].Run? {
        RanWasRegistered(t, n);
        i :| 0 <= i < n && t[i] == Registered(t[n].a);
        assert t[i] in t;
      }
      assert sees(t[i]) == Does(sees)(t[n]) && Visible(r)[..i] == t[..i];
      assert ReadAssigned(sees, Visible(r), declared, i, j);
      if e.v in Events.Defs(Flat(sees, t[..i])) {
        SeenIsDone(body, sees, declared, t, i, n, e.v);
      }
    }
  }

  lemma SeenIsDone(body: seq<Stmt>, sees: Uses, declared: set<nat>, t: seq<Event>, i: nat, n: nat, v: nat)
    requires AtSite(sees) && forall a :: Registered(a) in NodesAll(body) ==> Events.Defs(sees(Registered(a))) !! declared
    requires Within(t, NodesAll(body) + set x | x in [] :: Run(x)) && i <= n <= |t|
    requires v in declared && v in Events.Defs(Flat(sees, t[..i]))
    ensures v in Events.Defs(Flat(Does(sees), t[..n]))
  {
    DefsOfFlat(sees, t[..i], v);
    var k: nat :| k < |t[..i]| && v in Events.Defs(sees(t[..i][k]));
    assert t[k] in t && t[..n][k] == t[k];
    DefsOfFlat(Does(sees), t[..n], v);
  }

  // And if every `defer` is the last thing in its block, whatever it writes.
  lemma LastDefersAreAssigned(code: Code, preds: seq<seq<nat>>, body: seq<Stmt>, sees: Uses, declared: set<nat>,
      ch: seq<bool>, fuel: nat)
    requires Built(code, preds, body) && AtSite(sees) && Unreported(code, sees, declared) && DefersLast(body)
    ensures ReadsAssigned(Does(sees), ExecSeq(body, [], ch, fuel).trace, declared)
  {
    hide Built, ExecSeq, Unreported, Flat, Core, DefersLast;
    var r := ExecSeq(body, [], ch, fuel);
    var p, m := EveryRunFollowsAPath(code, preds, body, ch, fuel);
    UnreportedPathIsAssigned(code, sees, declared, p, m);
    VisibleThenRuns(r);
    LastDefersMatch(body, sees, ch, fuel);
    var tail := r.trace[|Visible(r)|..];
    assert r.trace == Visible(r) + tail;
    FlatNothing(sees, tail);
    FlatJoin(sees, Visible(r), tail);
    assert Flat(sees, r.trace) == Flat(sees, Visible(r));
    PrefixIsAssigned(Does(sees), r.trace, sees, Visible(r), declared);
  }

  // The same events, or fewer, on other nodes.
  lemma PrefixIsAssigned(uses: Uses, t: seq<Event>, uses2: Uses, t2: seq<Event>, declared: set<nat>)
    requires Flat(uses, t) <= Flat(uses2, t2) && ReadsAssigned(uses2, t2, declared)
    ensures ReadsAssigned(uses, t, declared)
  {
    hide Flat;
    forall n: nat, j: nat | n < |t| && j < |uses(t[n])|
      ensures ReadAssigned(uses, t, declared, n, j)
    {
      EventAt(uses, t, n, j);
      var k := |Flat(uses, t[..n])| + j;
      var all := Flat(uses2, t2);
      var n2, j2 := EventFrom(uses2, t2, k);
      EventAt(uses2, t2, n2, j2);
      assert ReadAssigned(uses2, t2, declared, n2, j2);
      assert Flat(uses, t)[..k] == all[..k];
      Events.DefsConcat(Flat(uses, t[..n]), uses(t[n])[..j]);
      Events.DefsConcat(Flat(uses2, t2[..n2]), uses2(t2[n2])[..j2]);
    }
  }

  // ---- A pass that reports something ----

  // On some run the read at index `j` of node `e`, where it happens, comes
  // before every write.
  ghost predicate Happened(body: seq<Stmt>, sees: Uses, declared: set<nat>, e: Event, j: nat) {
    exists ch, fuel: nat, n: nat :: UnassignedAt(ExecSeq(body, [], ch, fuel).trace, sees, declared, e, n, j)
  }

  predicate UnassignedAt(t: seq<Event>, sees: Uses, declared: set<nat>, e: Event, n: nat, j: nat) {
    n < |t| && t[n] == Happens(e) && j < |Does(sees)(t[n])| && !ReadAssigned(Does(sees), t, declared, n, j)
  }

  // The read at node `n` of a run is reported; its statement happens at `m`,
  // with nothing that writes in between.
  lemma UnseenIsUndone(t: seq<Event>, sees: Uses, declared: set<nat>, n: nat, m: nat, j: nat)
    requires DeferOrder.Unstack(t, []).Some? && n <= m < |t| && !t[n].Run? && t[m] == Happens(t[n])
    requires forall i :: n <= i < m ==> Does(sees)(t[i]) == []
    requires var seen := sees(t[n]);
      && j < |seen| && seen[j].Read? && seen[j].v in declared
      && seen[j].v !in Events.Defs(Flat(sees, t[..n])) && seen[j].v !in Events.Defs(seen[..j])
    ensures UnassignedAt(t, sees, declared, t[n], m, j)
  {
    hide Flat;
    var v := sees(t[n])[j].v;
    assert t[..m] == t[..n] + t[n..m];
    FlatJoin(Does(sees), t[..n], t[n..m]);
    FlatNothing(Does(sees), t[n..m]);
    if v in Events.Defs(Flat(Does(sees), t[..m])) {
      DoneWasSeen(t, sees, n, v);
    }
  }

  // A read reported at a node that is no `defer` happens unassigned.
  lemma ReportedReadHappens(code: Code, preds: seq<seq<nat>>, body: seq<Stmt>, sees: Uses, declared: set<nat>,
      p: seq<nat>, k: nat, j: nat)
    requires Built(code, preds, body) && AtSite(sees) && Reported(code, sees, declared, p, k, j)
    requires !code[p[|p| - 1]].items[k].Registered?
    ensures Happened(body, sees, declared, code[p[|p| - 1]].items[k], j)
  {
    hide Built, ExecSeq, Flat, Feasible, Emitted, Walks;
    var ch, fuel, q, d := EveryPathIsARun(code, preds, body, p, k + 1, 0);
    var t, n := ExecSeq(body, [], ch, fuel).trace, |Upto(code, p, k)|;
    NextShown(code, p, k, t);
    DeferOrder.RunsNest(body, ch, fuel);
    UnseenIsUndone(t, sees, declared, n, n, j);
  }

  lemma NextShown(code: Code, p: seq<nat>, k: nat, t: seq<Event>)
    requires Leads(code, p, k + 1) && Upto(code, p, k + 1) <= t
    ensures var n := |Upto(code, p, k)|; n < |t| && t[..n] == Upto(code, p, k) && t[n] == code[p[|p| - 1]].items[k]
  {
    hide Emitted;
    var items := code[p[|p| - 1]].items;
    assert items[..k + 1] == items[..k] + [items[k]];
    assert Upto(code, p, k + 1) == Upto(code, p, k) + [items[k]];
  }

  // One reported at a `defer` happens where its statement runs, if nothing
  // keeps that from being next.
  lemma ReportedDeferHappens(code: Code, preds: seq<seq<nat>>, body: seq<Stmt>, sees: Uses, declared: set<nat>,
      p: seq<nat>, k: nat, j: nat)
    requires Built(code, preds, body) && AtSite(sees) && Reported(code, sees, declared, p, k, j) && DefersRunNext(body)
    requires code[p[|p| - 1]].items[k].Registered?
    ensures Happened(body, sees, declared, code[p[|p| - 1]].items[k], j)
  {
    hide Built, ExecSeq, Flat, Feasible, Emitted, Walks, DepthAll, CulpritAll;
    var n := |Upto(code, p, k)|;
    var ch, fuel, q, d := EveryPathIsARun(code, preds, body, p, k + 1, DepthAll(body) + n + 1);
    var r := ExecSeq(body, [], ch, fuel);
    NextShown(code, p, k, r.trace);
    DeferOrder.RunsNest(body, ch, fuel);
    DefersRunPromptly(body, ch, fuel, n);
    var m := PromptReadHappens(r.trace, sees, declared, n, j);
  }

  lemma PromptReadHappens(t: seq<Event>, sees: Uses, declared: set<nat>, n: nat, j: nat) returns (m: nat)
    requires AtSite(sees) && DeferOrder.Unstack(t, []).Some? && n < |t| && t[n].Registered? && RunsNext(t, n)
    requires var seen := sees(t[n]);
      && j < |seen| && seen[j].Read? && seen[j].v in declared
      && seen[j].v !in Events.Defs(Flat(sees, t[..n])) && seen[j].v !in Events.Defs(seen[..j])
    ensures UnassignedAt(t, sees, declared, t[n], m, j)
  {
    hide Flat, UnassignedAt, ReadAssigned;
    m :| n < m < |t| && t[m] == Run(t[n].a) && Muted(t[n + 1..m]);
    forall i | n <= i < m
      ensures Does(sees)(t[i]) == []
    {
      if i > n {
        assert t[i] == t[n + 1..m][i - n - 1];
        assert Mute(t[i]);
      }
    }
    UnseenIsUndone(t, sees, declared, n, m, j);
  }

  // ---- Exactly when the pass is right ----

  // Whatever the statements read and write: nothing reported, nothing read
  // unassigned on any run.
  ghost predicate NeverMisses(code: Code, body: seq<Stmt>) {
    forall sees: Uses, declared: set<nat> :: AtSite(sees) && Unreported(code, sees, declared) ==>
      RunsAreAssigned(body, sees, declared)
  }

  ghost predicate RunsAreAssigned(body: seq<Stmt>, sees: Uses, declared: set<nat>) {
    forall ch, fuel: nat :: ReadsAssigned(Does(sees), ExecSeq(body, [], ch, fuel).trace, declared)
  }

  // And each read reported, on a path that can be taken, happens unassigned.
  ghost predicate NeverMistaken(code: Code, body: seq<Stmt>) {
    forall sees: Uses, declared: set<nat>, p, k: nat, j: nat :: AtSite(sees) && Reported(code, sees, declared, p, k, j) ==>
      Happened(body, sees, declared, code[p[|p| - 1]].items[k], j)
  }

  // `w` writes variable 0, `r` reads it.
  function WriteAndRead(w: Option<Event>, r: Event): Uses {
    (e: Event) => if w == Some(e) then [Events.Def(0)] else if e == r then [Events.Read(0)] else []
  }

  lemma {:induction false} FirstPlace(t: seq<Event>, x: Event) returns (n: nat)
    requires x in t
    ensures n < |t| && t[n] == x && x !in t[..n]
  {
    if t[0] == x {
      n := 0;
    } else {
      var i := FirstPlace(t[1..], x);
      n := i + 1;
      assert t[..n] == [t[0]] + t[1..][..i];
    }
  }

  lemma WritesAt(t: seq<Event>, uses: Uses, w: Event)
    requires forall e :: 0 in Events.Defs(uses(e)) <==> e == w
    ensures 0 in Events.Defs(Flat(uses, t)) <==> w in t
  {
    DefsOfFlat(uses, t, 0);
    if w in t {
      var n :| 0 <= n < |t| && t[n] == w;
    }
  }

  // What a pass sees that sees the write at `w`, and what happens.
  lemma WritesOf(w: Event, r: Event)
    requires w != r && !Mute(w) && !Mute(r) && !w.Run? && !r.Run?
    ensures var sees := WriteAndRead(Some(w), r);
      && AtSite(sees) && (forall e :: 0 in Events.Defs(sees(e)) <==> e == w)
      && (forall e :: 0 in Events.Defs(Does(sees)(e)) <==> e == Happens(w))
      && sees(r) == Does(sees)(Happens(r)) == [Events.Read(0)]
  {
    assert [Events.Def(0)][0] == Events.Def(0);
    assert Events.Def(0) in [Events.Def(0)];
    assert Events.Defs([Events.Def(0)]) == {0} && Events.Defs([Events.Read(0)]) == {};
  }

  // The pass sees the write before the read, and some run does the read first.
  lemma LateDeferIsMissed(code: Code, preds: seq<seq<nat>>, body: seq<Stmt>)
    requires Built(code, preds, body) && DistinctAll(body) && PlainAll(body) && !DefersLast(body)
    ensures var b := CulpritAll(body, false); var h := HushAll(b[1..]);
      h.Talks? && var sees := WriteAndRead(Some(Registered(b[0].a)), h.e);
      AtSite(sees) && Unreported(code, sees, {0}) && !RunsAreAssigned(body, sees, {0})
  {
    hide ExecSeq, HushAll, CulpritAll, Unreported, Linked, Performs, Forks, Reported, WriteAndRead;
    CulpritIsHereAll(body, false);
    var b := CulpritAll(body, false);
    var a, e := b[0].a, HushAll(b[1..]).e;
    var sees := WriteAndRead(Some(Registered(a)), e);
    TalksOfNodes(b[1..]);
    assert Registered(a) in Nodes(b[0]);
    WritesOf(Registered(a), e);
    forall p, k: nat, j: nat
      ensures !Reported(code, sees, {0}, p, k, j)
    {
      ReadIsPreceded(code, preds, body, sees, a, e, p, k, j);
    }
    if !Unreported(code, sees, {0}) {
      OnlyReportedIsReported(code, preds, sees, {0});
    }
    var ch := CulpritIsReachedAll(body, [], false, DepthAll(body));
    CulpritIsOrdered(body, false, ch, DepthAll(body));
    var t := ExecSeq(body, [], ch, DepthAll(body)).trace;
    ReadComesFirst(t, sees, a, e);
    assert !ReadsAssigned(Does(sees), t, {0});
  }

  lemma ReadIsPreceded(code: Code, preds: seq<seq<nat>>, body: seq<Stmt>, sees: Uses, a: nat, e: Event, p: seq<nat>,
      k: nat, j: nat)
    requires Built(code, preds, body) && DistinctAll(body) && !DefersLast(body)
    requires var b := CulpritAll(body, false); b[0].a == a && HushAll(b[1..]) == Talks(e)
    requires (forall x :: 0 in Events.Defs(sees(x)) <==> x == Registered(a)) && sees == WriteAndRead(Some(Registered(a)), e)
    ensures !Reported(code, sees, {0}, p, k, j)
  {
    hide ExecSeq, HushAll, CulpritAll, Linked, Performs, Forks, Flat, Emitted, Feasible, Walks;
    if Leads(code, p, k + 1) && code[p[|p| - 1]].items[k] == e {
      var ch, fuel, q, d := EveryPathIsARun(code, preds, body, p, k + 1, 0);
      var t := ExecSeq(body, [], ch, fuel).trace;
      NextShown(code, p, k, t);
      CulpritIsOrdered(body, false, ch, fuel);
      WritesAt(Upto(code, p, k), sees, Registered(a));
    }
  }

  lemma BeforeUpTo(t: seq<Event>, x: Event, y: Event, n: nat)
    requires Before(t, x, y) && n <= |t|
    ensures y in t[..n] ==> x in t[..n]
  {
    if y in t[..n] {
      var i :| 0 <= i < n && t[..n][i] == y;
      var k :| 0 <= k < i && t[..i][k] == x;
      assert t[..n][k] == x;
    }
  }

  lemma ReadComesFirst(t: seq<Event>, sees: Uses, a: nat, e: Event)
    requires Ordered(t, a, Talks(e)) && Happens(e) in t
    requires (forall x :: 0 in Events.Defs(Does(sees)(x)) <==> x == Run(a)) && Does(sees)(Happens(e)) == [Events.Read(0)]
    ensures !ReadsAssigned(Does(sees), t, {0})
  {
    var n := FirstPlace(t, Happens(e));
    BeforeUpTo(t, Happens(e), Run(a), n);
    WritesAt(t[..n], Does(sees), Run(a));
    assert [Events.Read(0)][0] == Events.Read(0);
    assert Events.Defs(Does(sees)(t[n])[..0]) == {};
    assert !ReadAssigned(Does(sees), t, {0}, n, 0);
  }

  lemma NeverMissesIffDefersLast(code: Code, preds: seq<seq<nat>>, body: seq<Stmt>)
    requires Built(code, preds, body) && DistinctAll(body) && PlainAll(body)
    ensures NeverMisses(code, body) <==> DefersLast(body)
  {
    hide Built, ExecSeq, HushAll, CulpritAll, Unreported;
    if DefersLast(body) {
      forall sees: Uses, declared: set<nat> | AtSite(sees) && Unreported(code, sees, declared)
        ensures RunsAreAssigned(body, sees, declared)
      {
        forall ch, fuel: nat
          ensures ReadsAssigned(Does(sees), ExecSeq(body, [], ch, fuel).trace, declared)
        {
          LastDefersAreAssigned(code, preds, body, sees, declared, ch, fuel);
        }
      }
    } else {
      LateDeferIsMissed(code, preds, body);
    }
  }

  // The first time control passes the `defer`, on a path.
  lemma CulpritIsOnPath(code: Code, preds: seq<seq<nat>>, body: seq<Stmt>) returns (p: seq<nat>, k: nat)
    requires Built(code, preds, body) && DistinctAll(body) && !DefersRunNext(body)
    ensures Leads(code, p, k + 1) && code[p[|p| - 1]].items[k] == Registered(CulpritAll(body, true)[0].a)
    ensures var h := HushAll(CulpritAll(body, true)[1..]); h.Talks? ==> h.e !in Upto(code, p, k)
  {
    hide ExecSeq, HushAll, CulpritAll, Linked, Performs, Forks, Feasible, Emitted, Core, Upto;
    var b, fuel := CulpritAll(body, true), DepthAll(body);
    var ch := CulpritIsReachedAll(body, [], true, fuel);
    var r := ExecSeq(body, [], ch, fuel);
    var n := FirstPlace(r.trace, Registered(b[0].a));
    VisibleThenRuns(r);
    var whole, m := EveryRunFollowsAPath(code, preds, body, ch, fuel);
    var i;
    i, k := PathIsCut(code, whole, m, n);
    p := whole[..i + 1];
    assert Upto(code, p, k) == r.trace[..n];
    CulpritIsOrdered(body, true, ch, fuel);
    if HushAll(b[1..]).Talks? {
      BeforeUpTo(r.trace, Registered(b[0].a), HushAll(b[1..]).e, n);
    }
  }

  // The pass reports the read of a `defer`, and no run does it unassigned.
  lemma LateDeferIsMistaken(code: Code, preds: seq<seq<nat>>, body: seq<Stmt>) returns (p: seq<nat>, k: nat)
    requires Built(code, preds, body) && DistinctAll(body) && !DefersRunNext(body)
    ensures var b := CulpritAll(body, true); var h := HushAll(b[1..]);
      var sees := WriteAndRead(if h.Talks? then Some(h.e) else None, Registered(b[0].a));
      && AtSite(sees) && Reported(code, sees, {0}, p, k, 0) && code[p[|p| - 1]].items[k] == Registered(b[0].a)
      && !Happened(body, sees, {0}, Registered(b[0].a), 0)
  {
    hide ExecSeq, HushAll, CulpritAll, Built, Feasible, Emitted, WriteAndRead, Upto, Flat;
    var b := CulpritAll(body, true);
    CulpritIsHereAll(body, true);
    var a, h := b[0].a, HushAll(b[1..]);
    var w := if h.Talks? then Some(h.e) else None;
    var sees := WriteAndRead(w, Registered(a));
    TalksOfNodes(b[1..]);
    assert Registered(a) in Nodes(b[0]);
    MistakenUses(w, a);
    p, k := CulpritIsOnPath(code, preds, body);
    DefsOfFlat(sees, Upto(code, p, k), 0);
    assert [Events.Read(0)][0] == Events.Read(0);
    assert Events.Defs(sees(Registered(a))[..0]) == {};
    NeverUnassigned(body, sees);
  }

  lemma NeverUnassigned(body: seq<Stmt>, sees: Uses)
    requires DistinctAll(body) && !DefersRunNext(body)
    requires var b := CulpritAll(body, true); var h := HushAll(b[1..]);
      && sees(Registered(b[0].a)) == [Events.Read(0)] && !h.Over?
      && (h.Talks? ==> forall e :: 0 in Events.Defs(Does(sees)(e)) <==> e == Happens(h.e))
    ensures !Happened(body, sees, {0}, Registered(CulpritAll(body, true)[0].a), 0)
  {
    hide ExecSeq, HushAll, CulpritAll;
    var b := CulpritAll(body, true);
    forall ch, fuel: nat, n: nat
      ensures !UnassignedAt(ExecSeq(body, [], ch, fuel).trace, sees, {0}, Registered(b[0].a), n, 0)
    {
      CulpritIsOrdered(body, true, ch, fuel);
      WrittenBeforeRun(ExecSeq(body, [], ch, fuel).trace, sees, b[0].a, HushAll(b[1..]), n);
    }
  }

  lemma MistakenUses(w: Option<Event>, a: nat)
    requires w.Some? ==> !Mute(w.value) && !w.value.Run? && w.value != Registered(a)
    ensures var sees := WriteAndRead(w, Registered(a));
      && AtSite(sees) && sees(Registered(a)) == [Events.Read(0)]
      && (w.Some? ==> forall e :: 0 in Events.Defs(sees(e)) <==> e == w.value)
      && (w.Some? ==> forall e :: 0 in Events.Defs(Does(sees)(e)) <==> e == Happens(w.value))
      && (w.None? ==> forall e :: 0 !in Events.Defs(sees(e)))
  {
    if w.Some? {
      WritesOf(w.value, Registered(a));
    }
    assert Events.Defs([Events.Read(0)]) == {};
  }

  lemma WrittenBeforeRun(t: seq<Event>, sees: Uses, a: nat, h: Hush, n: nat)
    requires Ordered(t, a, h) && !h.Over?
    requires h.Talks? ==> forall e :: 0 in Events.Defs(Does(sees)(e)) <==> e == Happens(h.e)
    requires sees(Registered(a)) == [Events.Read(0)]
    ensures !UnassignedAt(t, sees, {0}, Registered(a), n, 0)
  {
    if n < |t| && t[n] == Run(a) && h.Talks? {
      WritesAt(t[..n], Does(sees), Happens(h.e));
    }
  }

  lemma NeverMistakenIffDefersRunNext(code: Code, preds: seq<seq<nat>>, body: seq<Stmt>)
    requires Built(code, preds, body) && DistinctAll(body)
    ensures NeverMistaken(code, body) <==> DefersRunNext(body)
  {
    hide Built, ExecSeq, HushAll, CulpritAll, Happened, Flat, Upto, Feasible;
    if DefersRunNext(body) {
      forall sees: Uses, declared: set<nat>, p, k: nat, j: nat | AtSite(sees) && Reported(code, sees, declared, p, k, j)
        ensures Happened(body, sees, declared, code[p[|p| - 1]].items[k], j)
      {
        ReportedHappens(code, preds, body, sees, declared, p, k, j);
      }
    } else {
      var p, k := LateDeferIsMistaken(code, preds, body);
    }
  }

  lemma ReportedHappens(code: Code, preds: seq<seq<nat>>, body: seq<Stmt>, sees: Uses, declared: set<nat>, p: seq<nat>,
      k: nat, j: nat)
    requires Built(code, preds, body) && AtSite(sees) && Reported(code, sees, declared, p, k, j) && DefersRunNext(body)
    ensures Happened(body, sees, declared, code[p[|p| - 1]].items[k], j)
  {
    hide Built, Happened, CulpritAll, Flat, Feasible, Emitted;
    if code[p[|p| - 1]].items[k].Registered? {
      ReportedDeferHappens(code, preds, body, sees, declared, p, k, j);
    } else {
      ReportedReadHappens(code, preds, body, sees, declared, p, k, j);
    }
  }

  // ---- A `defer` before the statement it should have come after ----

  const EXAMPLE: seq<Stmt> := [Defer(0), Simple(1)]

  lemma ExampleIsCulprit(strict: bool)
    ensures DistinctAll(EXAMPLE) && PlainAll(EXAMPLE) && CulpritAll(EXAMPLE, strict) == EXAMPLE
    ensures HushAll(EXAMPLE[1..]) == Talks(Act(1))
  {
    assert EXAMPLE[1..] == [Simple(1)] && [Simple(1)][1..] == [];
  }

  // `mut x: int; defer x = 5; use(x);`: whatever graph the builder returns,
  // nothing is reported, and a run reads x unassigned.
  lemma DeferredWriteIsMissed(code: Code, preds: seq<seq<nat>>)
    requires Built(code, preds, EXAMPLE)
    ensures var sees := WriteAndRead(Some(Registered(0)), Act(1));
      AtSite(sees) && Unreported(code, sees, {0}) && !RunsAreAssigned(EXAMPLE, sees, {0})
  {
    hide Built, Unreported, RunsAreAssigned;
    ExampleIsCulprit(false);
    LateDeferIsMissed(code, preds, EXAMPLE);
  }

  // `mut x: int; defer use(x); x = 1;`: the read is reported, and on every run
  // x is assigned when it happens.
  lemma DeferredReadIsMistaken(code: Code, preds: seq<seq<nat>>) returns (p: seq<nat>, k: nat)
    requires Built(code, preds, EXAMPLE)
    ensures var sees := WriteAndRead(Some(Act(1)), Registered(0));
      && AtSite(sees) && Reported(code, sees, {0}, p, k, 0) && code[p[|p| - 1]].items[k] == Registered(0)
      && !Happened(EXAMPLE, sees, {0}, Registered(0), 0)
  {
    hide Built, Happened;
    ExampleIsCulprit(true);
    p, k := LateDeferIsMistaken(code, preds, EXAMPLE);
  }
}
