// Where a `defer` stands: what can happen between passing it and its
// statement running.
module DeferPlaces {
  import opened Options
  import opened Structured
  import opened EarlyReturns
  import opened TraceRules
  import opened Quiet
  import opened NodeEvents
  import DeferOrder

  // Something that reads or writes comes in between; or, strictly, the
  // deferred statement may also never run.
  predicate Delayed(h: Hush, strict: bool) {
    if strict then !h.Over? else h.Talks?
  }

  // The first such `defer` control can reach, and the rest of its block.
  function Culprit(s: Stmt, strict: bool): (b: seq<Stmt>)
    ensures b != [] ==> b[0].Defer?
    decreases s, 1
  {
    match s
    case Block(body) => CulpritAll(body, strict)
    case If(_, _, _, _) => CulpritFrom(s, 0, strict)
    case While(_, body) => CulpritAll(body, strict)
    case DoWhile(body, _) => CulpritAll(body, strict)
    case _ => []
  }

  function CulpritAll(stmts: seq<Stmt>, strict: bool): (b: seq<Stmt>)
    ensures b != [] ==> b[0].Defer?
    decreases stmts, 0
  {
    if stmts == [] then []
    else if stmts[0].Defer? && Delayed(HushAll(stmts[1..]), strict) then stmts
    else if Culprit(stmts[0], strict) != [] then Culprit(stmts[0], strict)
    else if Ends(stmts[0], Fall) then CulpritAll(stmts[1..], strict)
    else []
  }

  function CulpritFrom(s: Stmt, i: nat, strict: bool): (b: seq<Stmt>)
    requires s.If? && i <= s.Count()
    ensures b != [] ==> b[0].Defer?
    decreases s, 0, s.Count() - i
  {
    if i == s.Count() then if s.hasElse then CulpritAll(s.els, strict) else []
    else if CulpritAll(s.Nth(i).body, strict) != [] then CulpritAll(s.Nth(i).body, strict)
    else if s.Nth(i).c.always then []
    else CulpritFrom(s, i + 1, strict)
  }

  // Every `defer` control can reach is the last thing in its block that reads
  // or writes.
  predicate DefersLast(body: seq<Stmt>) {
    CulpritAll(body, false) == []
  }

  // And nothing keeps the block from ending there.
  predicate DefersRunNext(body: seq<Stmt>) {
    CulpritAll(body, true) == []
  }

  // ---- The culprit stands in one place ----

  function Outside(nodes: set<Event>): Event -> bool {
    (e: Event) => e !in nodes
  }

  function Among(nodes: set<Event>): Event -> bool {
    (e: Event) => e in nodes
  }

  function Only(block: seq<Stmt>): Base {
    (stmts: seq<Stmt>) => stmts == block
  }

  function Nowhere(): Base {
    (stmts: seq<Stmt>) => false
  }

  lemma {:induction false} MadeOfNodes(s: Stmt, atom: Event -> bool, base: Base)
    requires forall e :: e in Nodes(s) ==> atom(e)
    ensures Made(s, atom, base)
    decreases s, 1
  {
    match s
    case Block(body) => MadeOfNodesAll(body, atom, base);
    case If(_, _, _, _) => MadeOfNodesFrom(s, 0, atom, base);
    case While(c, body) => MadeOfNodesAll(body, atom, base);
    case DoWhile(body, c) => MadeOfNodesAll(body, atom, base);
    case _ =>
  }

  lemma {:induction false} MadeOfNodesAll(stmts: seq<Stmt>, atom: Event -> bool, base: Base)
    requires forall e :: e in NodesAll(stmts) ==> atom(e)
    ensures MadeAll(stmts, atom, base)
    decreases stmts, 0
  {
    if stmts != [] {
      MadeOfNodes(stmts[0], atom, base);
      MadeOfNodesAll(stmts[1..], atom, base);
    }
  }

  lemma {:induction false} MadeOfNodesFrom(s: Stmt, i: nat, atom: Event -> bool, base: Base)
    requires s.If? && i <= s.Count() && forall e :: e in NodesFrom(s, i) ==> atom(e)
    ensures MadeFrom(s, i, atom, base)
    decreases s, 0, s.Count() - i
  {
    if i == s.Count() {
      MadeOfNodesAll(s.els, atom, base);
    } else {
      MadeOfNodesAll(s.Nth(i).body, atom, base);
      MadeOfNodesFrom(s, i + 1, atom, base);
    }
  }

  predicate IsCulprit(block: seq<Stmt>, strict: bool) {
    block != [] && block[0].Defer? && Delayed(HushAll(block[1..]), strict) && DistinctAll(block)
  }

  lemma {:induction false} CulpritIsHere(s: Stmt, strict: bool)
    requires Distinct(s) && Culprit(s, strict) != []
    ensures var b := Culprit(s, strict); IsCulprit(b, strict) && NodesAll(b) <= Nodes(s) && Made(s, Outside(NodesAll(b)), Only(b))
    decreases s, 1
  {
    match s
    case Block(body) => CulpritIsHereAll(body, strict);
    case If(_, _, _, _) => CulpritIsHereFrom(s, 0, strict);
    case While(_, body) => CulpritIsHereAll(body, strict);
    case DoWhile(body, _) => CulpritIsHereAll(body, strict);
    case _ =>
  }

  lemma {:induction false} CulpritIsHereAll(stmts: seq<Stmt>, strict: bool)
    requires DistinctAll(stmts) && CulpritAll(stmts, strict) != []
    ensures var b := CulpritAll(stmts, strict);
      IsCulprit(b, strict) && NodesAll(b) <= NodesAll(stmts) && MadeAll(stmts, Outside(NodesAll(b)), Only(b))
    decreases stmts, 0
  {
    var b, s := CulpritAll(stmts, strict), stmts[0];
    if !(s.Defer? && Delayed(HushAll(stmts[1..]), strict)) {
      if Culprit(s, strict) != [] {
        CulpritIsHere(s, strict);
        MadeOfNodesAll(stmts[1..], Outside(NodesAll(b)), Only(b));
      } else {
        CulpritIsHereAll(stmts[1..], strict);
        MadeOfNodes(s, Outside(NodesAll(b)), Only(b));
      }
    }
  }

  lemma {:induction false} CulpritIsHereFrom(s: Stmt, i: nat, strict: bool)
    requires s.If? && i <= s.Count() && DistinctFrom(s, i) && CulpritFrom(s, i, strict) != []
    ensures var b := CulpritFrom(s, i, strict);
      IsCulprit(b, strict) && NodesAll(b) <= NodesFrom(s, i) && MadeFrom(s, i, Outside(NodesAll(b)), Only(b))
    decreases s, 0, s.Count() - i
  {
    var b := CulpritFrom(s, i, strict);
    if i == s.Count() {
      CulpritIsHereAll(s.els, strict);
    } else if CulpritAll(s.Nth(i).body, strict) != [] {
      CulpritIsHereAll(s.Nth(i).body, strict);
      MadeOfNodesFrom(s, i + 1, Outside(NodesAll(b)), Only(b));
    } else {
      CulpritIsHereFrom(s, i + 1, strict);
      MadeOfNodesAll(s.Nth(i).body, Outside(NodesAll(b)), Only(b));
    }
  }

  // ---- What its runs show, and when ----

  predicate Before(t: seq<Event>, x: Event, y: Event) {
    forall n :: 0 <= n < |t| && t[n] == y ==> x in t[..n]
  }

  // The `defer` of `a`, followed by `h`: what comes first afterwards is never
  // shown without it, and never after its statement has run.
  predicate Ordered(t: seq<Event>, a: nat, h: Hush) {
    match h
    case Talks(e) => Before(t, Registered(a), e) && Before(t, Happens(e), Run(a))
    case Hangs => Run(a) !in t
    case Over(_) => true
  }

  function OrderRule(a: nat, h: Hush): Rule {
    (t: seq<Event>, done: bool) => Ordered(t, a, h)
  }

  lemma BeforeJoin(t: seq<Event>, u: seq<Event>, x: Event, y: Event)
    requires Before(t, x, y) && Before(u, x, y)
    ensures Before(t + u, x, y)
  {
    forall n | 0 <= n < |t + u| && (t + u)[n] == y
      ensures x in (t + u)[..n]
    {
      if n < |t| {
        assert (t + u)[..n] == t[..n];
      } else {
        assert u[n - |t|] == y && (t + u)[..n] == t + u[..n - |t|];
      }
    }
  }

  lemma OrderComposes(block: seq<Stmt>, strict: bool)
    requires IsCulprit(block, strict)
    ensures Composes(OrderRule(block[0].a, HushAll(block[1..])), Outside(NodesAll(block)))
  {
    var a, h := block[0].a, HushAll(block[1..]);
    var ok, atom := OrderRule(a, h), Outside(NodesAll(block));
    TalksOfNodes(block[1..]);
    forall e: Event | Mute(e) || atom(e)
      ensures ok([e], true)
    {
      assert Run(a) in Nodes(block[0]);
    }
    forall t, u, d | ok(t, true) && ok(u, d)
      ensures ok(t + u, d)
    {
      if h.Talks? {
        BeforeJoin(t, u, Registered(a), h.e);
        BeforeJoin(t, u, Happens(h.e), Run(a));
      }
    }
  }

  predicate Within(t: seq<Event>, nodes: set<Event>) {
    forall e :: e in t ==> Mute(e) || e in nodes
  }

  // A block's runs show its nodes and what was registered before.
  lemma RunsStayWithin(stmts: seq<Stmt>, reg: seq<nat>, ch: seq<bool>, fuel: nat)
    ensures Within(ExecSeq(stmts, reg, ch, fuel).trace, NodesAll(stmts) + set x | x in reg :: Run(x))
  {
    var nodes := NodesAll(stmts) + set x | x in reg :: Run(x);
    var ok: Rule := (t: seq<Event>, done: bool) => Within(t, nodes);
    MadeOfNodesAll(stmts, Among(nodes), Nowhere());
    BlocksKeep(stmts, reg, ok, Among(nodes), Nowhere(), ch, fuel);
  }

  lemma StatementStaysWithin(s: Stmt, ch: seq<bool>, fuel: nat)
    ensures Within(Exec(s, ch, fuel).trace, Nodes(s))
  {
    var ok: Rule := (t: seq<Event>, done: bool) => Within(t, Nodes(s));
    MadeOfNodes(s, Among(Nodes(s)), Nowhere());
    StatementsKeep(s, ok, Among(Nodes(s)), Nowhere(), ch, fuel);
  }

  lemma BranchesStayWithin(s: Stmt, i: nat, ch: seq<bool>, fuel: nat)
    requires s.If? && i <= s.Count()
    ensures Within(ExecIf(s, i, ch, fuel).trace, NodesFrom(s, i))
  {
    var nodes := NodesFrom(s, i);
    var ok: Rule := (t: seq<Event>, done: bool) => Within(t, nodes);
    MadeOfNodesFrom(s, i, Among(nodes), Nowhere());
    BranchesKeep(s, i, ok, Among(nodes), Nowhere(), ch, fuel);
  }

  // Registered on top of `a`, `b` runs first.
  lemma {:induction false} LaterRunsFirst(t: seq<Event>, below: seq<nat>, above: seq<nat>, b: nat, a: nat, k: nat)
    requires DeferOrder.Unstack(t, below + [b] + above).Some?
    requires k < |t| && t[k] == Run(a) && a != b && a !in above && Registered(a) !in t
    ensures Run(b) in t[..k]
  {
    var stack := below + [b] + above;
    var rest := t[1..];
    if above == [] {
      assert stack == below + [b];
    } else {
      assert stack[..|stack| - 1] == below + [b] + above[..|above| - 1];
    }
    if t[0] != Run(b) {
      assert k > 0;
      assert rest[k - 1] == Run(a) && t[..k] == [t[0]] + rest[..k - 1];
      match t[0]
      case Registered(x) =>
        assert stack + [x] == below + [b] + (above + [x]);
        LaterRunsFirst(rest, below, above + [x], b, a, k - 1);
      case Run(x) => LaterRunsFirst(rest, below, above[..|above| - 1], b, a, k - 1);
      case _ => LaterRunsFirst(rest, below, above, b, a, k - 1);
    }
  }

  lemma {:induction false} StillStacks(t: seq<Event>, stack: seq<nat>)
    requires Still(t)
    ensures DeferOrder.Unstack(t, stack).Some? && stack <= DeferOrder.Unstack(t, stack).value
    ensures forall x :: x in DeferOrder.Unstack(t, stack).value ==> x in stack || Registered(x) in t
    decreases |t|
  {
    if t != [] {
      assert t[0] in t;
      StillStacks(t[1..], if t[0].Registered? then stack + [t[0].a] else stack);
    }
  }

  lemma CulpritRunsInOrder(block: seq<Stmt>, strict: bool, reg: seq<nat>, ch: seq<bool>, fuel: nat)
    requires IsCulprit(block, strict) && RunsOf(reg, Outside(NodesAll(block)))
    ensures Ordered(ExecSeq(block, reg, ch, fuel).trace, block[0].a, HushAll(block[1..]))
  {
    hide Obeys, HushAll, Delayed;
    var a, rest := block[0].a, block[1..];
    var h := HushAll(rest);
    var r := ExecSeq(rest, reg + [a], ch, fuel);
    assert Exec(block[0], ch, fuel) == Result([Registered(a)], Fall, ch);
    assert ExecSeq(block, reg, ch, fuel).trace == [Registered(a)] + r.trace;
    HushIsObeyedAll(rest, reg + [a], ch, fuel);
    RestRunsInOrder(block, strict, reg, ch, fuel);
    if h.Talks? {
      TalksOfNodes(rest);
      var all := [Registered(a)] + r.trace;
      assert Registered(a) in Nodes(block[0]);
      forall k | 0 <= k < |all| && all[k] == h.e
        ensures Registered(a) in all[..k]
      {
        assert all[0] != h.e && all[..k][0] == all[0];
      }
      BeforeJoin([Registered(a)], r.trace, Happens(h.e), Run(a));
    }
  }

  lemma RestRunsInOrder(block: seq<Stmt>, strict: bool, reg: seq<nat>, ch: seq<bool>, fuel: nat)
    requires IsCulprit(block, strict) && RunsOf(reg, Outside(NodesAll(block)))
    ensures var t := ExecSeq(block[1..], reg + [block[0].a], ch, fuel).trace;
      match HushAll(block[1..])
      case Talks(e) => Before(t, Happens(e), Run(block[0].a))
      case Hangs => Run(block[0].a) !in t
      case Over(_) => true
  {
    hide ExecSeq, HushAll;
    var a, rest := block[0].a, block[1..];
    var t, h := ExecSeq(rest, reg + [a], ch, fuel).trace, HushAll(rest);
    HushIsObeyedAll(rest, reg + [a], ch, fuel);
    TalksOfNodes(rest);
    assert Still(t) ==> Run(a) !in t;
    if h.Talks? && !Still(t) {
      var n :| 0 <= n < |t| && t[n] == h.e && Still(t[..n]);
      forall k | 0 <= k < n
        ensures t[k] != Run(a)
      {
        assert t[k] in t[..n];
      }
      forall k | 0 <= k < |t| && t[k] == Run(a)
        ensures Happens(h.e) in t[..k]
      {
        if h.e.Registered? {
          DeferredRunsFirst(block, strict, reg, ch, fuel, h.e.a, n, k);
        }
      }
    }
  }

  lemma DeferredRunsFirst(block: seq<Stmt>, strict: bool, reg: seq<nat>, ch: seq<bool>, fuel: nat, b: nat, n: nat, k: nat)
    requires IsCulprit(block, strict) && RunsOf(reg, Outside(NodesAll(block)))
    requires var t := ExecSeq(block[1..], reg + [block[0].a], ch, fuel).trace;
      n < k < |t| && t[n] == Registered(b) && Still(t[..n]) && t[k] == Run(block[0].a)
    requires Registered(b) in NodesAll(block[1..])
    ensures Run(b) in ExecSeq(block[1..], reg + [block[0].a], ch, fuel).trace[..k]
  {
    hide ExecSeq, HushAll, Delayed;
    var a, rest := block[0].a, block[1..];
    var stack := reg + [a];
    RunsStayWithin(rest, stack, ch, fuel);
    assert Registered(a) in Nodes(block[0]) && Nodes(block[0]) !! NodesAll(rest);
    DeferOrder.BlocksNest(rest, stack, ch, fuel, []);
    assert [] + stack == stack;
    LaterDefersFirst(ExecSeq(rest, stack, ch, fuel).trace, stack, a, b, n, k);
  }

  lemma LaterDefersFirst(t: seq<Event>, stack: seq<nat>, a: nat, b: nat, n: nat, k: nat)
    requires DeferOrder.Unstack(t, stack).Some? && n < k < |t| && t[n] == Registered(b) && t[k] == Run(a)
    requires a != b && Registered(a) !in t && Still(t[..n])
    ensures Run(b) in t[..k]
  {
    var later := t[n + 1..];
    assert t == t[..n] + ([Registered(b)] + later);
    DeferOrder.UnstackJoin(t[..n], [Registered(b)] + later, stack);
    StillStacks(t[..n], stack);
    var below := DeferOrder.Unstack(t[..n], stack).value;
    assert ([Registered(b)] + later)[1..] == later;
    assert below + [b] + [] == below + [b];
    assert later[k - n - 1] == t[k];
    LaterRunsFirst(later, below, [], b, a, k - n - 1);
    assert later[..k - n - 1] == t[n + 1..k];
  }

  // Every run of a program with a culprit keeps that order.
  lemma CulpritIsOrdered(body: seq<Stmt>, strict: bool, ch: seq<bool>, fuel: nat)
    requires DistinctAll(body) && CulpritAll(body, strict) != []
    ensures var b := CulpritAll(body, strict); Ordered(ExecSeq(body, [], ch, fuel).trace, b[0].a, HushAll(b[1..]))
  {
    hide ExecSeq, HushAll, CulpritAll;
    CulpritIsHereAll(body, strict);
    var b := CulpritAll(body, strict);
    var ok, atom := OrderRule(b[0].a, HushAll(b[1..])), Outside(NodesAll(b));
    OrderComposes(b, strict);
    forall stmts, reg, ch2, fuel2: nat | Only(b)(stmts) && RunsOf(reg, atom)
      ensures var r := ExecSeq(stmts, reg, ch2, fuel2); ok(r.trace, Complete(r.outcome))
    {
      CulpritRunsInOrder(b, strict, reg, ch2, fuel2);
    }
    BlocksKeep(body, [], ok, atom, Only(b), ch, fuel);
  }

  // ---- Reaching it ----

  // Some decisions make what comes first happen.
  lemma {:induction false} TalkIsHeard(stmts: seq<Stmt>, reg: seq<nat>, fuel: nat) returns (ch: seq<bool>)
    requires HushAll(stmts).Talks? && fuel >= DepthAll(stmts)
    ensures Happens(HushAll(stmts).e) in ExecSeq(stmts, reg, ch, fuel).trace
    decreases stmts, 0
  {
    hide Exec, Obeys;
    var e, s, rest := HushAll(stmts).e, stmts[0], stmts[1..];
    ch := [];
    if !e.Registered? {
      SaysSoon(stmts, reg, ch, fuel);
    } else if s.Defer? {
      ch := DeferIsHeard(stmts, reg, fuel);
    } else if HushOf(s) == Over(Fall) {
      ch := TalkIsHeard(rest, reg, fuel);
      HushIsObeyed(s, ch, fuel);
      ObeysStill(Exec(s, ch, fuel), Fall, ch, true);
    } else {
      ch := TalkIsHeardIn(s, fuel);
    }
  }

  lemma SaysSoon(stmts: seq<Stmt>, reg: seq<nat>, ch: seq<bool>, fuel: nat)
    requires HushAll(stmts).Talks? && fuel >= DepthAll(stmts)
    ensures HushAll(stmts).e in ExecSeq(stmts, reg, ch, fuel).trace
  {
    hide ExecSeq, HushAll;
    HushIsObeyedAll(stmts, reg, ch, fuel);
  }

  lemma {:induction false} DeferIsHeard(stmts: seq<Stmt>, reg: seq<nat>, fuel: nat) returns (ch: seq<bool>)
    requires stmts != [] && stmts[0].Defer? && HushAll(stmts).Talks? && fuel >= DepthAll(stmts)
    ensures Happens(HushAll(stmts).e) in ExecSeq(stmts, reg, ch, fuel).trace
    decreases stmts[1..], 1
  {
    var a, rest := stmts[0].a, stmts[1..];
    assert Exec(stmts[0], [], fuel) == Result([Registered(a)], Fall, []);
    if CanEnd(rest) {
      var o := if EndsAll(rest, Fall) then Fall else if EndsAll(rest, Broke) then Broke
        else if EndsAll(rest, Continued) then Continued else if EndsAll(rest, Returned) then Returned else Failed;
      ch := EndIsReachedAll(rest, reg + [a], o, fuel, []);
      EndsOtherwiseAll(rest, o);
      RegisteredRuns(rest, reg + [a], ch, fuel, a);
    } else {
      ch := TalkIsHeard(rest, reg + [a], fuel);
    }
  }

  lemma RegisteredRuns(stmts: seq<Stmt>, reg: seq<nat>, ch: seq<bool>, fuel: nat, a: nat)
    requires Complete(ExecSeq(stmts, reg, ch, fuel).outcome) && a in reg
    ensures Run(a) in ExecSeq(stmts, reg, ch, fuel).trace
  {
    hide ExecSeq;
    DeferOrder.BlocksNest(stmts, reg, ch, fuel, []);
    assert [] + reg == reg;
    Emptied(ExecSeq(stmts, reg, ch, fuel).trace, reg, a);
  }

  lemma {:induction false} Emptied(t: seq<Event>, stack: seq<nat>, a: nat)
    requires DeferOrder.Unstack(t, stack) == Some([]) && a in stack
    ensures Run(a) in t
  {
    match t[0]
    case Registered(x) => Emptied(t[1..], stack + [x], a);
    case Run(x) =>
      if x != a {
        assert stack == stack[..|stack| - 1] + [x];
        Emptied(t[1..], stack[..|stack| - 1], a);
      }
    case _ => Emptied(t[1..], stack, a);
  }

  lemma {:induction false} TalkIsHeardIn(s: Stmt, fuel: nat) returns (ch: seq<bool>)
    requires HushOf(s).Talks? && HushOf(s).e.Registered? && fuel >= Depth(s)
    ensures Happens(HushOf(s).e) in Exec(s, ch, fuel).trace
    decreases s, 1
  {
    hide ExecSeq;
    match s
    case Block(body) => ch := TalkIsHeard(body, [], fuel);
    case If(first, _, _, _) =>
      assert s.Nth(0) == first;
      ch := TalkIsHeard(first.body, [], fuel);
    case While(_, body) => ch := TalkIsHeard(body, [], fuel - 1);
    case DoWhile(body, _) => ch := TalkIsHeard(body, [], fuel);
  }

  // A run that passes the `defer` and, if something comes first, shows it.
  predicate Heard(t: seq<Event>, block: seq<Stmt>)
    requires block != [] && block[0].Defer?
  {
    var h := HushAll(block[1..]);
    Registered(block[0].a) in t && (h.Talks? ==> Happens(h.e) in t)
  }

  lemma HeardLater(t: seq<Event>, u: seq<Event>, all: seq<Event>, block: seq<Stmt>)
    requires block != [] && block[0].Defer? && Heard(u, block) && t + u <= all
    ensures Heard(all, block)
  {
    assert all == t + u + all[|t + u|..];
  }

  lemma {:induction false} CulpritIsReached(s: Stmt, strict: bool, fuel: nat) returns (ch: seq<bool>)
    requires Distinct(s) && Culprit(s, strict) != [] && fuel >= Depth(s)
    ensures IsCulprit(Culprit(s, strict), strict) && Heard(Exec(s, ch, fuel).trace, Culprit(s, strict))
    decreases s, 1
  {
    hide Heard, ExecSeq, HushAll, Delayed;
    CulpritIsHere(s, strict);
    var b := Culprit(s, strict);
    match s
    case Block(body) => ch := CulpritIsReachedAll(body, [], strict, fuel);
    case If(_, _, _, _) => ch := CulpritIsReachedFrom(s, 0, strict, fuel);
    case While(c, body) =>
      ch := CulpritIsReachedAll(body, [], strict, fuel - 1);
      var u := ExecSeq(body, [], ch, fuel - 1).trace;
      Decides(c, true, ch);
      ch := Deciding(c, true, ch);
      WhileUnfolds(s, ch, fuel);
      assert u <= WhileRest(s, ExecSeq(body, [], Decide(c, ch).value.1, fuel - 1), fuel).trace;
      HeardLater([Test(c)], u, Exec(s, ch, fuel).trace, b);
    case DoWhile(body, _) =>
      ch := CulpritIsReachedAll(body, [], strict, fuel);
      var u := ExecSeq(body, [], ch, fuel).trace;
      assert u <= ExecDoWhile(s, ch, fuel).trace && [] + u == u;
      HeardLater([], u, Exec(s, ch, fuel).trace, b);
  }

  lemma {:induction false} CulpritIsReachedAll(stmts: seq<Stmt>, reg: seq<nat>, strict: bool, fuel: nat) returns (ch: seq<bool>)
    requires DistinctAll(stmts) && CulpritAll(stmts, strict) != [] && fuel >= DepthAll(stmts)
    ensures var b := CulpritAll(stmts, strict); IsCulprit(b, strict) && Heard(ExecSeq(stmts, reg, ch, fuel).trace, b)
    decreases stmts, 0
  {
    CulpritIsHereAll(stmts, strict);
    var b, s, rest := CulpritAll(stmts, strict), stmts[0], stmts[1..];
    if s.Defer? && Delayed(HushAll(rest), strict) {
      ch := [];
      if HushAll(rest).Talks? {
        ch := TalkIsHeard(rest, reg + [s.a], fuel);
      }
    } else {
      hide Heard, Exec, HushAll, Delayed;
      if Culprit(s, strict) != [] {
        ch := CulpritIsReached(s, strict, fuel);
        HeardLater([], Exec(s, ch, fuel).trace, ExecSeq(stmts, reg, ch, fuel).trace, b);
      } else {
        var newReg := if s.Defer? then reg + [s.a] else reg;
        var later := CulpritIsReachedAll(rest, newReg, strict, fuel);
        ch := EndIsReached(s, Fall, fuel, later);
        HeardLater(Exec(s, ch, fuel).trace, ExecSeq(rest, newReg, later, fuel).trace, ExecSeq(stmts, reg, ch, fuel).trace, b);
      }
    }
  }

  lemma {:induction false} CulpritIsReachedFrom(s: Stmt, i: nat, strict: bool, fuel: nat) returns (ch: seq<bool>)
    requires s.If? && i <= s.Count() && DistinctFrom(s, i) && CulpritFrom(s, i, strict) != [] && fuel >= DepthFrom(s, i)
    ensures var b := CulpritFrom(s, i, strict); IsCulprit(b, strict) && Heard(ExecIf(s, i, ch, fuel).trace, b)
    decreases s, 0, s.Count() - i
  {
    hide Heard, ExecSeq, HushAll, Delayed;
    CulpritIsHereFrom(s, i, strict);
    var b := CulpritFrom(s, i, strict);
    if i == s.Count() {
      ch := CulpritIsReachedAll(s.els, [], strict, fuel);
    } else {
      var c := s.Nth(i).c;
      var yes := CulpritAll(s.Nth(i).body, strict) != [];
      var u;
      if yes {
        ch := CulpritIsReachedAll(s.Nth(i).body, [], strict, fuel);
        u := ExecSeq(s.Nth(i).body, [], ch, fuel).trace;
      } else {
        ch := CulpritIsReachedFrom(s, i + 1, strict, fuel);
        u := ExecIf(s, i + 1, ch, fuel).trace;
      }
      Decides(c, yes, ch);
      ch := Deciding(c, yes, ch);
      HeardLater([Test(c)], u, ExecIf(s, i, ch, fuel).trace, b);
    }
  }

  // ---- Without a culprit ----

  function NoDefer(): Event -> bool {
    (e: Event) => !e.Registered? && !e.Run?
  }

  // Blocks from a `defer` on with nothing to come first.
  function Together(): Base {
    (stmts: seq<Stmt>) => stmts != [] && stmts[0].Defer? && !HushAll(stmts[1..]).Talks?
  }

  lemma {:induction false} LastIsMade(s: Stmt)
    requires Culprit(s, false) == [] && !s.Defer?
    ensures Made(s, NoDefer(), Together())
    decreases s, 1
  {
    match s
    case Block(body) => LastIsMadeAll(body);
    case If(_, _, _, _) => LastIsMadeFrom(s, 0);
    case While(_, body) => LastIsMadeAll(body);
    case DoWhile(body, _) => LastIsMadeAll(body);
    case _ =>
  }

  lemma {:induction false} LastIsMadeAll(stmts: seq<Stmt>)
    requires CulpritAll(stmts, false) == []
    ensures MadeAll(stmts, NoDefer(), Together())
    decreases stmts, 0
  {
    if stmts != [] && !stmts[0].Defer? {
      LastIsMade(stmts[0]);
      if Ends(stmts[0], Fall) {
        LastIsMadeAll(stmts[1..]);
      }
    }
  }

  lemma {:induction false} LastIsMadeFrom(s: Stmt, i: nat)
    requires s.If? && i <= s.Count() && CulpritFrom(s, i, false) == []
    ensures MadeFrom(s, i, NoDefer(), Together())
    decreases s, 0, s.Count() - i
  {
    if i == s.Count() {
      if s.hasElse {
        LastIsMadeAll(s.els);
      }
    } else {
      LastIsMadeAll(s.Nth(i).body);
      if !s.Nth(i).c.always {
        LastIsMadeFrom(s, i + 1);
      }
    }
  }

  // What happens is what is seen, up to a deferred statement that never runs.
  function MatchRule(sees: Uses): Rule {
    (t: seq<Event>, done: bool) =>
      if done then Flat(Does(sees), t) == Flat(sees, t) else Flat(Does(sees), t) <= Flat(sees, t)
  }

  lemma MatchComposes(sees: Uses)
    requires AtSite(sees)
    ensures Composes(MatchRule(sees), NoDefer())
  {
    var ok := MatchRule(sees);
    FlatNothing(sees, []);
    FlatNothing(Does(sees), []);
    forall e: Event | Mute(e) || NoDefer()(e)
      ensures ok([e], true)
    {
      FlatOne(sees, e);
      FlatOne(Does(sees), e);
    }
    forall t, u, d | ok(t, true) && ok(u, d)
      ensures ok(t + u, d)
    {
      FlatJoin(sees, t, u);
      FlatJoin(Does(sees), t, u);
    }
  }

  lemma TogetherMatches(sees: Uses, stmts: seq<Stmt>, ch: seq<bool>, fuel: nat)
    requires AtSite(sees) && Together()(stmts)
    ensures var r := ExecSeq(stmts, [], ch, fuel); MatchRule(sees)(r.trace, Complete(r.outcome))
  {
    hide Obeys, HushAll, Flat;
    var a, rest := stmts[0].a, stmts[1..];
    var r := ExecSeq(rest, [a], ch, fuel);
    assert Exec(stmts[0], ch, fuel) == Result([Registered(a)], Fall, ch);
    assert [] + [a] == [a];
    HushIsObeyedAll(rest, [a], ch, fuel);
    FlatJoin(sees, [Registered(a)], r.trace);
    FlatJoin(Does(sees), [Registered(a)], r.trace);
    FlatOne(sees, Registered(a));
    FlatOne(Does(sees), Registered(a));
    if HushAll(rest).Over? {
      OverEndsAll(rest, HushAll(rest).o);
    }
    StillThenRun(sees, a, r, HushAll(rest), ch, fuel >= DepthAll(rest));
  }

  lemma StillThenRun(sees: Uses, a: nat, r: Result, h: Hush, ch: seq<bool>, enough: bool)
    requires AtSite(sees) && !h.Talks? && (h.Over? ==> Done(h.o)) && Obeys(r, h, Runs([a]), ch, enough)
    ensures h.Hangs? || r.outcome.OutOfFuel? ==> r.outcome.OutOfFuel? && Flat(Does(sees), r.trace) == []
    ensures h.Over? && !r.outcome.OutOfFuel? ==> Flat(sees, r.trace) == [] && Flat(Does(sees), r.trace) == sees(Registered(a))
  {
    if r.outcome.OutOfFuel? && Still(r.trace) {
      FlatNothing(Does(sees), r.trace);
    } else {
      var u :| Muted(u) && r.trace == u + Runs([a]);
      assert [a][..0] == [] && Runs([a]) == [Run(a)];
      FlatNothing(sees, u);
      FlatNothing(Does(sees), u);
      FlatJoin(sees, u, [Run(a)]);
      FlatJoin(Does(sees), u, [Run(a)]);
      FlatOne(sees, Run(a));
      FlatOne(Does(sees), Run(a));
    }
  }

  lemma FirstIsIn(reg: seq<nat>)
    ensures reg != [] ==> reg[0] in reg
  {
  }

  // With every `defer` last, a run does, in order, what the pass sees of it.
  lemma LastDefersMatch(body: seq<Stmt>, sees: Uses, ch: seq<bool>, fuel: nat)
    requires DefersLast(body) && AtSite(sees)
    ensures var t := ExecSeq(body, [], ch, fuel).trace; Flat(Does(sees), t) <= Flat(sees, t)
  {
    hide ExecSeq, CulpritAll;
    var ok := MatchRule(sees);
    LastIsMadeAll(body);
    MatchComposes(sees);
    forall stmts, reg, ch2, fuel2: nat | Together()(stmts) && RunsOf(reg, NoDefer())
      ensures var r := ExecSeq(stmts, reg, ch2, fuel2); ok(r.trace, Complete(r.outcome))
    {
      FirstIsIn(reg);
      assert forall a :: a !in reg;
      TogetherMatches(sees, stmts, ch2, fuel2);
    }
    BlocksKeep(body, [], ok, NoDefer(), Together(), ch, fuel);
  }
}
