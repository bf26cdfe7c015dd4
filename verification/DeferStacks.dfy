// What follows when a run passes a `defer`: its block's run, from that
// statement on. So no `defer` is pending twice.
module DeferStacks {
  import opened Options
  import opened Structured
  import opened EarlyReturns
  import opened DeferOrder
  import opened DeferPlaces
  import opened Quiet

  // The block of `s` from the `defer` of `a` on.
  function FindDefer(s: Stmt, a: nat): seq<Stmt>
    decreases s, 1
  {
    match s
    case Block(body) => FindDeferAll(body, a)
    case If(_, _, _, _) => FindDeferFrom(s, 0, a)
    case While(_, body) => FindDeferAll(body, a)
    case DoWhile(body, _) => FindDeferAll(body, a)
    case _ => []
  }

  function FindDeferAll(stmts: seq<Stmt>, a: nat): seq<Stmt>
    decreases stmts, 0
  {
    if stmts == [] then []
    else if stmts[0] == Defer(a) then stmts
    else if FindDefer(stmts[0], a) != [] then FindDefer(stmts[0], a)
    else FindDeferAll(stmts[1..], a)
  }

  function FindDeferFrom(s: Stmt, i: nat, a: nat): seq<Stmt>
    requires s.If? && i <= s.Count()
    decreases s, 0, s.Count() - i
  {
    if i == s.Count() then FindDeferAll(s.els, a)
    else if FindDeferAll(s.Nth(i).body, a) != [] then FindDeferAll(s.Nth(i).body, a)
    else FindDeferFrom(s, i + 1, a)
  }

  lemma {:induction false} FoundIsNode(s: Stmt, a: nat)
    ensures FindDefer(s, a) != [] ==> Registered(a) in Nodes(s)
    decreases s, 1
  {
    match s
    case Block(body) => FoundIsNodeAll(body, a);
    case If(_, _, _, _) => FoundIsNodeFrom(s, 0, a);
    case While(_, body) => FoundIsNodeAll(body, a);
    case DoWhile(body, _) => FoundIsNodeAll(body, a);
    case _ =>
  }

  lemma {:induction false} FoundIsNodeAll(stmts: seq<Stmt>, a: nat)
    ensures FindDeferAll(stmts, a) != [] ==> Registered(a) in NodesAll(stmts)
    decreases stmts, 0
  {
    if stmts != [] {
      FoundIsNode(stmts[0], a);
      FoundIsNodeAll(stmts[1..], a);
    }
  }

  lemma {:induction false} FoundIsNodeFrom(s: Stmt, i: nat, a: nat)
    requires s.If? && i <= s.Count()
    ensures FindDeferFrom(s, i, a) != [] ==> Registered(a) in NodesFrom(s, i)
    decreases s, 0, s.Count() - i
  {
    if i == s.Count() {
      FoundIsNodeAll(s.els, a);
    } else {
      FoundIsNodeAll(s.Nth(i).body, a);
      FoundIsNodeFrom(s, i + 1, a);
    }
  }

  // A block's run inside another run: its stack, decisions and rounds.
  datatype Part = Part(block: seq<Stmt>, outer: seq<nat>, reg: seq<nat>, ch: seq<bool>, fuel: nat)
  {
    function Run(): Result {
      ExecSeq(block, reg, ch, fuel)
    }
  }

  // At `z`, the run `r` from `stack` passes the first statement of the part,
  // and shows its run from there.
  ghost predicate PartAt(part: Part, r: Result, stack: seq<nat>, z: nat, enough: bool) {
    var x := part.Run();
    && z + |x.trace| <= |r.trace| && r.trace[z..z + |x.trace|] == x.trace
    && (!Complete(x.outcome) ==> !Complete(r.outcome) && z + |x.trace| == |r.trace|)
    && Unstack(r.trace[..z], stack) == Some(part.outer + part.reg)
    && (enough ==> part.fuel >= DepthAll(part.block))
  }

  lemma PartLater(part: Part, t: seq<Event>, r: Result, stack: seq<nat>, mid: seq<nat>, z: nat, enough: bool, less: bool)
    requires PartAt(part, r, mid, z, enough) && Unstack(t, stack) == Some(mid) && (less ==> enough)
    ensures PartAt(part, Then(t, r), stack, |t| + z, less)
  {
    var all, x := Then(t, r).trace, part.Run().trace;
    assert all[|t| + z..|t| + z + |x|] == r.trace[z..z + |x|];
    assert z <= |r.trace| && all[..|t| + z] == t + r.trace[..z];
    UnstackJoin(t, r.trace[..z], stack);
  }

  lemma PartAfterTest(part: Part, c: Cond, r: Result, stack: seq<nat>, z: nat, enough: bool, less: bool)
    requires z > 0 && PartAt(part, r, stack, z - 1, enough) && (less ==> enough)
    ensures PartAt(part, Then([Test(c)], r), stack, z, less)
  {
    OneUnstacks(Test(c), stack);
    PartLater(part, [Test(c)], r, stack, stack, z - 1, enough, less);
  }

  lemma PartFollowed(part: Part, r: Result, all: Result, stack: seq<nat>, z: nat, enough: bool, less: bool)
    requires PartAt(part, r, stack, z, enough) && r.trace <= all.trace && (less ==> enough)
    requires !Complete(r.outcome) ==> all.trace == r.trace && all.outcome == r.outcome
    ensures PartAt(part, all, stack, z, less)
  {
    var x := part.Run().trace;
    assert all.trace[z..z + |x|] == r.trace[z..z + |x|];
    assert all.trace[..z] == r.trace[..z];
  }

  lemma {:induction false} RunsNotRegistered(reg: seq<nat>)
    ensures forall e :: e in Runs(reg) ==> e.Run?
  {
    if reg != [] {
      RunsNotRegistered(reg[..|reg| - 1]);
    }
  }

  // The part a run shows after passing the `defer` of `a` at `z`.
  lemma {:induction false} PassesPart(s: Stmt, stack: seq<nat>, ch: seq<bool>, fuel: nat, z: nat, a: nat) returns (part: Part)
    requires var t := Exec(s, ch, fuel).trace; z < |t| && t[z] == Registered(a)
    requires !s.Defer?
    ensures part.block != [] && part.block[0] == Defer(a)
    ensures Distinct(s) ==> part.block == FindDefer(s, a) && DistinctAll(part.block)
    ensures PartAt(part, Exec(s, ch, fuel), stack, z, fuel >= Depth(s) + z + 1)
    ensures forall strict :: Culprit(s, strict) == [] ==> !Delayed(HushAll(part.block[1..]), strict)
    decreases fuel, s, 2
  {
    hide PartAt, FindDeferAll, FindDeferFrom, CulpritAll, CulpritFrom, ExecSeq, ExecWhile, ExecDoWhile, ExecIf;
    match s
    case Block(body) =>
      part := PassesPartAll(body, stack, [], ch, fuel, z, a);
      assert stack + [] == stack;
    case If(_, _, _, _) => part := PassesPartFrom(s, 0, stack, ch, fuel, z, a);
    case While(_, _) => part := PassesPartWhile(s, stack, ch, fuel, z, a);
    case DoWhile(_, _) => part := PassesPartDoWhile(s, stack, ch, fuel, z, a);
  }

  lemma {:induction false} PassesPartAll(stmts: seq<Stmt>, outer: seq<nat>, reg: seq<nat>, ch: seq<bool>, fuel: nat,
      z: nat, a: nat) returns (part: Part)
    requires var t := ExecSeq(stmts, reg, ch, fuel).trace; z < |t| && t[z] == Registered(a)
    ensures part.block != [] && part.block[0] == Defer(a)
    ensures DistinctAll(stmts) ==> part.block == FindDeferAll(stmts, a) && DistinctAll(part.block)
    ensures PartAt(part, ExecSeq(stmts, reg, ch, fuel), outer + reg, z, fuel >= DepthAll(stmts) + z + 1)
    ensures forall strict :: CulpritAll(stmts, strict) == [] ==> !Delayed(HushAll(part.block[1..]), strict)
    decreases fuel, stmts, 0
  {
    hide Exec, PartAt, HushAll, Delayed;
    var stack := outer + reg;
    var all := ExecSeq(stmts, reg, ch, fuel);
    RunsNotRegistered(reg);
    assert all.trace[z] in all.trace;
    if stmts != [] {
      var s, rest := stmts[0], stmts[1..];
      var r := Exec(s, ch, fuel);
      var newReg := if s.Defer? then reg + [s.a] else reg;
      StatementsNest(s, ch, fuel, stack);
      if z < |r.trace| {
        if s.Defer? {
          DeferShows(s, ch, fuel);
          assert z == 0 && all.trace[0] == r.trace[0];
          part := Part(stmts, outer, reg, ch, fuel);
          WholePart(part, fuel >= DepthAll(stmts) + z + 1);
        } else {
          assert all.trace[z] == r.trace[z];
          part := PassesPart(s, stack, ch, fuel, z, a);
          PartFollowed(part, r, all, stack, z, fuel >= Depth(s) + z + 1, fuel >= DepthAll(stmts) + z + 1);
        }
      } else {
        LaterPart(stmts, reg, ch, fuel);
        var r2 := ExecSeq(rest, newReg, r.ch, fuel);
        var z2: nat := z - |r.trace|;
        assert all.trace[z] == r2.trace[z2];
        part := PassesPartAll(rest, outer, newReg, r.ch, fuel, z2, a);
        assert s.Defer? ==> outer + newReg == stack + [s.a];
        PartLater(part, r.trace, r2, stack, outer + newReg, z2, fuel >= DepthAll(rest) + z2 + 1, fuel >= DepthAll(stmts) + z + 1);
        FoundIsNode(s, a);
        FoundIsNodeAll(rest, a);
        RunsEnd(s, ch, fuel);
      }
    }
  }

  lemma WholePart(part: Part, enough: bool)
    requires enough ==> part.fuel >= DepthAll(part.block)
    ensures PartAt(part, part.Run(), part.outer + part.reg, 0, enough)
  {
    assert part.Run().trace[0..|part.Run().trace|] == part.Run().trace;
    assert part.Run().trace[..0] == [];
  }

  lemma DeferShows(s: Stmt, ch: seq<bool>, fuel: nat)
    requires s.Defer?
    ensures Exec(s, ch, fuel) == Result([Registered(s.a)], Fall, ch)
  {
  }

  // If the block is left there, only deferred runs follow its first statement.
  lemma LaterPart(stmts: seq<Stmt>, reg: seq<nat>, ch: seq<bool>, fuel: nat)
    requires stmts != []
    ensures var r := Exec(stmts[0], ch, fuel); var t := ExecSeq(stmts, reg, ch, fuel).trace;
      !r.outcome.Fall? ==> forall n :: |r.trace| <= n < |t| ==> t[n].Run?
  {
    hide Exec;
    var r := Exec(stmts[0], ch, fuel);
    RunsNotRegistered(reg);
    var t := ExecSeq(stmts, reg, ch, fuel).trace;
    if !r.outcome.Fall? {
      forall n | |r.trace| <= n < |t|
        ensures t[n].Run?
      {
        assert t[n] == Runs(reg)[n - |r.trace|];
        assert t[n] in Runs(reg);
      }
    }
  }

  lemma {:induction false} PassesPartFrom(s: Stmt, i: nat, stack: seq<nat>, ch: seq<bool>, fuel: nat, z: nat, a: nat)
      returns (part: Part)
    requires s.If? && i <= s.Count()
    requires var t := ExecIf(s, i, ch, fuel).trace; z < |t| && t[z] == Registered(a)
    ensures part.block != [] && part.block[0] == Defer(a)
    ensures DistinctFrom(s, i) ==> part.block == FindDeferFrom(s, i, a) && DistinctAll(part.block)
    ensures PartAt(part, ExecIf(s, i, ch, fuel), stack, z, fuel >= DepthFrom(s, i) + z + 1)
    ensures forall strict :: CulpritFrom(s, i, strict) == [] ==> !Delayed(HushAll(part.block[1..]), strict)
    decreases fuel, s, 1, s.Count() - i
  {
    hide PartAt, HushAll, Delayed, ExecSeq, CulpritAll, NodesAll, DepthAll, FindDeferAll;
    assert stack + [] == stack;
    if i == s.Count() {
      part := PassesPartAll(s.els, stack, [], ch, fuel, z, a);
    } else {
      var c, body := s.Nth(i).c, s.Nth(i).body;
      var d := Decide(c, ch);
      assert z > 0 && d.Some?;
      if d.value.0 {
        var r := ExecSeq(body, [], d.value.1, fuel);
        assert r.trace[z - 1] == Registered(a);
        part := PassesPartAll(body, stack, [], d.value.1, fuel, z - 1, a);
        PartAfterTest(part, c, r, stack, z, fuel >= DepthAll(body) + z, fuel >= DepthFrom(s, i) + z + 1);
      } else {
        var r := ExecIf(s, i + 1, d.value.1, fuel);
        assert r.trace[z - 1] == Registered(a);
        part := PassesPartFrom(s, i + 1, stack, d.value.1, fuel, z - 1, a);
        PartAfterTest(part, c, r, stack, z, fuel >= DepthFrom(s, i + 1) + z, fuel >= DepthFrom(s, i) + z + 1);
      }
      FoundIsNodeAll(body, a);
      FoundIsNodeFrom(s, i + 1, a);
    }
  }

  lemma {:induction false} PassesPartWhile(s: Stmt, stack: seq<nat>, ch: seq<bool>, fuel: nat, z: nat, a: nat)
      returns (part: Part)
    requires s.While?
    requires var t := ExecWhile(s, ch, fuel).trace; z < |t| && t[z] == Registered(a)
    ensures part.block != [] && part.block[0] == Defer(a)
    ensures Distinct(s) ==> part.block == FindDefer(s, a) && DistinctAll(part.block)
    ensures PartAt(part, ExecWhile(s, ch, fuel), stack, z, fuel >= Depth(s) + z + 1)
    ensures forall strict :: Culprit(s, strict) == [] ==> !Delayed(HushAll(part.block[1..]), strict)
    decreases fuel, s, 1
  {
    hide PartAt, HushAll, Delayed, ExecSeq;
    assert fuel > 0;
    WhileUnfolds(s, ch, fuel);
    hide ExecWhile, WhileRest;
    var d := Decide(s.c, ch);
    assert z > 0 && d.Some? && d.value.0;
    var r := WhileRest(s, ExecSeq(s.body, [], d.value.1, fuel - 1), fuel);
    assert r.trace[z - 1] == Registered(a);
    part := PassesPartRound(s, stack, d.value.1, fuel, z - 1, a);
    PartAfterTest(part, s.c, r, stack, z, fuel > Depth(s) + z, fuel >= Depth(s) + z + 1);
  }

  lemma {:induction false} PassesPartRound(s: Stmt, stack: seq<nat>, ch: seq<bool>, fuel: nat, z: nat, a: nat)
      returns (part: Part)
    requires s.While? && fuel > 0
    requires var t := WhileRest(s, ExecSeq(s.body, [], ch, fuel - 1), fuel).trace; z < |t| && t[z] == Registered(a)
    ensures part.block != [] && part.block[0] == Defer(a)
    ensures Distinct(s) ==> part.block == FindDefer(s, a) && DistinctAll(part.block)
    ensures PartAt(part, WhileRest(s, ExecSeq(s.body, [], ch, fuel - 1), fuel), stack, z, fuel > Depth(s) + z + 1)
    ensures forall strict :: Culprit(s, strict) == [] ==> !Delayed(HushAll(part.block[1..]), strict)
    decreases fuel, s, 0
  {
    hide PartAt, HushAll, Delayed, ExecSeq, ExecWhile;
    var r := ExecSeq(s.body, [], ch, fuel - 1);
    var all := WhileRest(s, r, fuel);
    assert stack + [] == stack;
    if z < |r.trace| {
      assert all.trace[z] == r.trace[z];
      part := PassesPartAll(s.body, stack, [], ch, fuel - 1, z, a);
      PartFollowed(part, r, all, stack, z, fuel - 1 >= DepthAll(s.body) + z + 1, fuel > Depth(s) + z + 1);
    } else {
      BlocksNest(s.body, [], ch, fuel - 1, stack);
      var shown := if r.outcome.Fall? then r.trace else r.trace + [ContinueNode];
      var r2 := ExecWhile(s, r.ch, fuel - 1);
      if r.outcome.Continued? {
        JumpNests(r, ContinueNode, stack);
      }
      assert all == Then(shown, r2) && z >= |shown|;
      var z2: nat := z - |shown|;
      assert (shown + r2.trace)[z] == r2.trace[z2];
      part := PassesPartWhile(s, stack, r.ch, fuel - 1, z2, a);
      PartLater(part, shown, r2, stack, stack, z2, fuel - 1 >= Depth(s) + z2 + 1, fuel > Depth(s) + z + 1);
    }
  }

  lemma {:induction false} PassesPartDoWhile(s: Stmt, stack: seq<nat>, ch: seq<bool>, fuel: nat, z: nat, a: nat)
      returns (part: Part)
    requires s.DoWhile?
    requires var t := ExecDoWhile(s, ch, fuel).trace; z < |t| && t[z] == Registered(a)
    ensures part.block != [] && part.block[0] == Defer(a)
    ensures Distinct(s) ==> part.block == FindDefer(s, a) && DistinctAll(part.block)
    ensures PartAt(part, ExecDoWhile(s, ch, fuel), stack, z, fuel >= Depth(s) + z + 1)
    ensures forall strict :: Culprit(s, strict) == [] ==> !Delayed(HushAll(part.block[1..]), strict)
    decreases fuel, s, 1
  {
    hide PartAt, HushAll, Delayed, ExecSeq, ExecTail;
    var r := ExecSeq(s.body, [], ch, fuel);
    var all := ExecDoWhile(s, ch, fuel);
    assert stack + [] == stack;
    if z < |r.trace| {
      assert all.trace[z] == r.trace[z];
      part := PassesPartAll(s.body, stack, [], ch, fuel, z, a);
      PartFollowed(part, r, all, stack, z, fuel >= DepthAll(s.body) + z + 1, fuel >= Depth(s) + z + 1);
    } else {
      BlocksNest(s.body, [], ch, fuel, stack);
      var shown := if r.outcome.Fall? then r.trace else r.trace + [ContinueNode];
      var r2 := ExecTail(s, r.ch, fuel);
      if r.outcome.Continued? {
        JumpNests(r, ContinueNode, stack);
      }
      assert all == Then(shown, r2) && z >= |shown|;
      var z2: nat := z - |shown|;
      assert r2.trace == all.trace[|shown|..];
      part := PassesPartTail(s, stack, r.ch, fuel, z2, a);
      PartLater(part, shown, r2, stack, stack, z2, fuel >= Depth(s) + z2 + 1, fuel >= Depth(s) + z + 1);
    }
  }

  lemma {:induction false} PassesPartTail(s: Stmt, stack: seq<nat>, ch: seq<bool>, fuel: nat, z: nat, a: nat)
      returns (part: Part)
    requires s.DoWhile?
    requires var t := ExecTail(s, ch, fuel).trace; z < |t| && t[z] == Registered(a)
    ensures part.block != [] && part.block[0] == Defer(a)
    ensures Distinct(s) ==> part.block == FindDefer(s, a) && DistinctAll(part.block)
    ensures PartAt(part, ExecTail(s, ch, fuel), stack, z, fuel >= Depth(s) + z + 1)
    ensures forall strict :: Culprit(s, strict) == [] ==> !Delayed(HushAll(part.block[1..]), strict)
    decreases fuel, s, 0
  {
    hide PartAt, HushAll, Delayed, ExecDoWhile;
    var d := Decide(s.c, ch);
    assert fuel > 0 && z > 0 && d.Some? && d.value.0;
    var r := ExecDoWhile(s, d.value.1, fuel - 1);
    assert r.trace[z - 1] == Registered(a);
    part := PassesPartDoWhile(s, stack, d.value.1, fuel - 1, z - 1, a);
    PartAfterTest(part, s.c, r, stack, z, fuel - 1 >= Depth(s) + z, fuel >= Depth(s) + z + 1);
  }

  // A part goes on with the rest of its block, one more defer pending.
  lemma PartGoesOn(part: Part)
    requires part.block != [] && part.block[0].Defer?
    ensures var a, rest := part.block[0].a, part.block[1..]; var r := ExecSeq(rest, part.reg + [a], part.ch, part.fuel);
      && part.Run() == Then([Registered(a)], r)
      && Obeys(r, HushAll(rest), Runs(part.reg + [a]), part.ch, part.fuel >= DepthAll(part.block))
  {
    hide Obeys, HushAll;
    var a, rest := part.block[0].a, part.block[1..];
    var r := ExecSeq(rest, part.reg + [a], part.ch, part.fuel);
    DeferShows(part.block[0], part.ch, part.fuel);
    HushIsObeyedAll(rest, part.reg + [a], part.ch, part.fuel);
    Weaker(r, HushAll(rest), Runs(part.reg + [a]), part.ch, part.fuel >= DepthAll(rest), part.fuel >= DepthAll(part.block));
  }

  // ---- Without a strict culprit ----

  // What was passed at `n` runs next.
  ghost predicate RunsNext(t: seq<Event>, n: nat)
    requires n < |t| && t[n].Registered?
  {
    exists m :: n < m < |t| && t[m] == Run(t[n].a) && Muted(t[n + 1..m])
  }

  // With rounds enough to see the block's end.
  lemma DefersRunPromptly(body: seq<Stmt>, ch: seq<bool>, fuel: nat, n: nat)
    requires DefersRunNext(body) && fuel >= DepthAll(body) + n + 1
    requires var t := ExecSeq(body, [], ch, fuel).trace; n < |t| && t[n].Registered?
    ensures RunsNext(ExecSeq(body, [], ch, fuel).trace, n)
  {
    hide ExecSeq, HushAll, CulpritAll;
    var t := ExecSeq(body, [], ch, fuel).trace;
    var a := t[n].a;
    var part := PassesPartAll(body, [], [], ch, fuel, n, a);
    PartGoesOn(part);
    var x := part.Run().trace;
    var u :| Muted(u) && x == [Registered(a)] + (u + Runs(part.reg + [a]));
    assert Runs(part.reg + [a])[0] == Run(a);
    AfterFirst(t, n, x, Registered(a), u, Runs(part.reg + [a]));
  }

  lemma AfterFirst(t: seq<Event>, n: nat, x: seq<Event>, e: Event, u: seq<Event>, v: seq<Event>)
    requires n + |x| <= |t| && t[n..n + |x|] == x && x == [e] + (u + v) && v != []
    ensures var m := n + 1 + |u|; m < |t| && t[n + 1..m] == u && t[m] == v[0]
  {
    assert t[n + 1 + |u|] == x[1 + |u|] == v[0];
    forall k | 0 <= k < |u|
      ensures t[n + 1..n + 1 + |u|][k] == u[k]
    {
      assert t[n + 1 + k] == x[1 + k];
    }
  }

  // ---- What is pending ----

  lemma StackBefore(t: seq<Event>, n: nat)
    requires n <= |t| && Unstack(t, []).Some?
    ensures Unstack(t[..n], []).Some?
  {
    assert t == t[..n] + t[n..];
    UnstackJoin(t[..n], t[n..], []);
  }

  lemma StackStep(t: seq<Event>, n: nat)
    requires n < |t| && Unstack(t[..n + 1], []).Some?
    ensures Unstack(t[..n], []).Some?
    ensures var was, now := Unstack(t[..n], []).value, Unstack(t[..n + 1], []).value;
      match t[n]
      case Registered(a) => now == was + [a]
      case Run(a) => was == now + [a]
      case _ => now == was
  {
    assert t[..n + 1] == t[..n] + [t[n]];
    UnstackJoin(t[..n], [t[n]], []);
    assert [t[n]][1..] == [];
  }

  // Entry `j` of the stack at `n` was pushed at `z` and has stayed since.
  ghost predicate StaysFrom(t: seq<Event>, z: nat, n: nat, j: nat) {
    && z < n <= |t| && Unstack(t[..n], []).Some? && j < |Unstack(t[..n], []).value|
    && t[z] == Registered(Unstack(t[..n], []).value[j])
    && Unstack(t[..z], []) == Some(Unstack(t[..n], []).value[..j])
    && forall k: nat :: z < k <= n ==> Unstack(t[..k], []).Some? && |Unstack(t[..k], []).value| > j
  }

  lemma {:induction false} PushedAt(t: seq<Event>, n: nat, j: nat) returns (z: nat)
    requires n <= |t| && Unstack(t[..n], []).Some? && j < |Unstack(t[..n], []).value|
    ensures StaysFrom(t, z, n, j)
  {
    hide Unstack;
    assert n > 0 by {
      EmptyUnstacks(t[..n]);
    }
    StackStep(t, n - 1);
    var was, now := Unstack(t[..n - 1], []).value, Unstack(t[..n], []).value;
    assert t[..n - 1 + 1] == t[..n];
    if j < |was| {
      z := PushedAt(t, n - 1, j);
      assert was[j] == now[j] && was[..j] == now[..j];
    } else {
      z := n - 1;
      assert was == now[..j];
    }
  }

  lemma EmptyUnstacks(t: seq<Event>)
    ensures t == [] ==> Unstack(t, []) == Some([])
  {
  }

  // The part of a whole run that passes a `defer` at `z`.
  ghost predicate Passes(body: seq<Stmt>, r: Result, z: nat, a: nat, part: Part) {
    && PartAt(part, r, [], z, false)
    && part.block == FindDeferAll(body, a) && part.block != [] && part.block[0] == Defer(a) && DistinctAll(part.block)
  }

  lemma PartHere(body: seq<Stmt>, ch: seq<bool>, fuel: nat, z: nat, a: nat) returns (part: Part)
    requires var t := ExecSeq(body, [], ch, fuel).trace; z < |t| && t[z] == Registered(a)
    requires DistinctAll(body)
    ensures Passes(body, ExecSeq(body, [], ch, fuel), z, a, part)
  {
    hide ExecSeq, Unstack;
    var none: seq<nat> := [];
    part := PassesPartAll(body, none, none, ch, fuel, z, a);
    assert none + none == none;
    var r := ExecSeq(body, [], ch, fuel);
    PartFollowed(part, r, r, none, z, fuel >= DepthAll(body) + z + 1, false);
  }

  // The block of a pending statement is still running.
  lemma OpenPart(body: seq<Stmt>, ch: seq<bool>, fuel: nat, n: nat, j: nat) returns (z: nat, part: Part)
    requires var t := ExecSeq(body, [], ch, fuel).trace;
      n <= |t| && Unstack(t[..n], []).Some? && j < |Unstack(t[..n], []).value|
    requires DistinctAll(body)
    ensures var r := ExecSeq(body, [], ch, fuel); var a := Unstack(r.trace[..n], []).value[j];
      && StaysFrom(r.trace, z, n, j) && Passes(body, r, z, a, part)
      && n <= z + |part.Run().trace| && (n < |r.trace| ==> n < z + |part.Run().trace|)
  {
    hide ExecSeq, Unstack;
    var r := ExecSeq(body, [], ch, fuel);
    var stack := Unstack(r.trace[..n], []).value;
    z := PushedAt(r.trace, n, j);
    part := PartHere(body, ch, fuel, z, stack[j]);
    PartLeaves(part, r, z);
    PartGoesOn(part);
    var end := z + |part.Run().trace|;
    assert part.outer + part.reg == stack[..j] && |part.outer + part.reg| == j;
    assert z < end;
    assert Complete(part.Run().outcome) ==> |Unstack(r.trace[..end], []).value| <= j;
  }

  // A part that comes to its end leaves the stack it was entered on.
  lemma PartLeaves(part: Part, r: Result, z: nat)
    requires PartAt(part, r, [], z, false)
    ensures var end := z + |part.Run().trace|;
      Complete(part.Run().outcome) ==> end <= |r.trace| && Unstack(r.trace[..end], []) == Some(part.outer)
  {
    hide ExecSeq, Unstack;
    var x := part.Run();
    BlocksNest(part.block, part.reg, part.ch, part.fuel, part.outer);
    assert r.trace[..z + |x.trace|] == r.trace[..z] + x.trace;
    UnstackJoin(r.trace[..z], x.trace, []);
  }

  // No statement is pending twice.
  lemma PendingOnce(body: seq<Stmt>, ch: seq<bool>, fuel: nat, n: nat, i: nat, j: nat)
    requires var t := ExecSeq(body, [], ch, fuel).trace;
      n <= |t| && Unstack(t[..n], []).Some? && i < j < |Unstack(t[..n], []).value|
    requires DistinctAll(body)
    ensures var stack := Unstack(ExecSeq(body, [], ch, fuel).trace[..n], []).value; stack[i] != stack[j]
  {
    hide ExecSeq, Unstack;
    var t := ExecSeq(body, [], ch, fuel).trace;
    var a := Unstack(t[..n], []).value[i];
    var z, part := OpenPart(body, ch, fuel, n, i);
    var later := PushedAt(t, n, j);
    assert later > z;
    PartGoesOn(part);
    var rest := ExecSeq(part.block[1..], part.reg + [a], part.ch, part.fuel).trace;
    RunsStayWithin(part.block[1..], part.reg + [a], part.ch, part.fuel);
    assert Registered(a) in Nodes(part.block[0]);
    assert rest[later - z - 1] == part.Run().trace[later - z] == t[later];
    assert t[later] in rest;
  }

  // A statement pending where something happens does not run at once.
  lemma PendingIsLate(body: seq<Stmt>, ch: seq<bool>, fuel: nat, n: nat, j: nat)
    requires var t := ExecSeq(body, [], ch, fuel).trace;
      n < |t| && t[n].Act? && Unstack(t[..n], []).Some? && j < |Unstack(t[..n], []).value|
    requires DistinctAll(body)
    ensures var b := FindDeferAll(body, Unstack(ExecSeq(body, [], ch, fuel).trace[..n], []).value[j]);
      b != [] && !HushAll(b[1..]).Over?
  {
    hide ExecSeq, Unstack, HushAll;
    var t := ExecSeq(body, [], ch, fuel).trace;
    var a := Unstack(t[..n], []).value[j];
    var z, part := OpenPart(body, ch, fuel, n, j);
    PartGoesOn(part);
    var rest := ExecSeq(part.block[1..], part.reg + [a], part.ch, part.fuel).trace;
    assert rest[n - z - 1] == part.Run().trace[n - z] == t[n];
    assert t[n] in rest;
    OverIsQuiet(rest, part.reg + [a]);
  }

  lemma OverIsQuiet(t: seq<Event>, reg: seq<nat>)
    ensures Still(t) || (exists u :: Muted(u) && t == u + Runs(reg)) ==> forall e :: e in t ==> !e.Act?
  {
    if u :| Muted(u) && t == u + Runs(reg) {
      RunsNotRegistered(reg);
    }
  }

  // One that runs at once, once, always does.
  lemma RunsAtOnce(body: seq<Stmt>, ch: seq<bool>, fuel: nat, z: nat, y: nat)
    requires var t := ExecSeq(body, [], ch, fuel).trace;
      z < y < |t| && t[z].Registered? && t[y] == Run(t[z].a) && Muted(t[z + 1..y])
    requires DistinctAll(body)
    ensures var b := FindDeferAll(body, ExecSeq(body, [], ch, fuel).trace[z].a); b != [] && HushAll(b[1..]).Over?
  {
    hide ExecSeq, Unstack, HushAll;
    var r := ExecSeq(body, [], ch, fuel);
    var a := r.trace[z].a;
    var part := PartHere(body, ch, fuel, z, a);
    RunsNest(body, ch, fuel);
    PartLasts(part, r, z, y);
    PartGoesOn(part);
    var rest := ExecSeq(part.block[1..], part.reg + [a], part.ch, part.fuel).trace;
    RestBegins(r.trace, z, y, [Registered(a)] + rest);
    assert ([Registered(a)] + rest)[1..] == rest;
    TalksOfNodes(part.block[1..]);
    FirstRun(rest, y - z - 1, HushAll(part.block[1..]));
  }

  // A part does not end before something runs.
  lemma PartLasts(part: Part, r: Result, z: nat, y: nat)
    requires part.block != [] && part.block[0].Defer? && PartAt(part, r, [], z, false) && Unstack(r.trace, []).Some?
    requires z < y < |r.trace| && r.trace[z].Registered? && Muted(r.trace[z + 1..y])
    ensures y < z + |part.Run().trace|
  {
    hide ExecSeq, Unstack, HushAll, Obeys;
    PartLeaves(part, r, z);
    PartGoesOn(part);
    MutedKeepsStack(r.trace, z, y, part.outer + part.reg);
    var now := part.outer + part.reg + [r.trace[z].a];
    assert |now| > |part.outer|;
    assert forall k: nat :: z < k <= y ==> Unstack(r.trace[..k], []) != Some(part.outer);
  }

  lemma RestBegins(t: seq<Event>, z: nat, y: nat, x: seq<Event>)
    requires z < y < z + |x| <= |t| && t[z..z + |x|] == x
    ensures x[1..][y - z - 1] == t[y] && x[1..][..y - z - 1] == t[z + 1..y]
  {
    assert forall k :: 0 <= k < |x| ==> x[k] == t[z..z + |x|][k] == t[z + k];
  }

  // Nothing was said before the first deferred run.
  lemma FirstRun(t: seq<Event>, k: nat, h: Hush)
    requires k < |t| && t[k].Run? && Muted(t[..k]) && (h.Talks? ==> !Mute(h.e) && !h.e.Run?)
    ensures !Still(t) && (h.Talks? ==> !Says(t, h.e))
  {
    assert t[k] in t;
    forall n | k < n <= |t|
      ensures !Still(t[..n])
    {
      assert t[..n][k] == t[k];
      assert t[k] in t[..n];
    }
    forall n | 0 <= n < k
      ensures Mute(t[n])
    {
      assert t[n] in t[..k];
    }
  }

  lemma {:induction false} MutedKeepsStack(t: seq<Event>, z: nat, y: nat, stack: seq<nat>)
    requires z < y <= |t| && t[z].Registered? && Muted(t[z + 1..y])
    requires Unstack(t, []).Some? && Unstack(t[..z], []) == Some(stack)
    ensures forall k: nat :: z < k <= y ==> Unstack(t[..k], []) == Some(stack + [t[z].a])
    decreases y
  {
    hide Unstack;
    StackBefore(t, y);
    StackStep(t, y - 1);
    if y > z + 1 {
      assert t[y - 1] == t[z + 1..y][y - z - 2];
      assert Mute(t[y - 1]);
      assert t[z + 1..y - 1] == t[z + 1..y][..y - z - 2];
      MutedKeepsStack(t, z, y - 1, stack);
    }
  }
}
