// What the defer rule means on whole runs: every defer that is passed runs
// exactly once, when its scope is left, and last-registered first.
module DeferOrder {
  import opened Options
  import opened Structured

  // Passing a defer stacks it; a deferred run must take the top.
  function Unstack(t: seq<Event>, stack: seq<nat>): Option<seq<nat>> {
    if t == [] then Some(stack)
    else
      match t[0]
      case Registered(a) => Unstack(t[1..], stack + [a])
      case Run(a) =>
        if stack == [] || stack[|stack| - 1] != a then None else Unstack(t[1..], stack[..|stack| - 1])
      case _ => Unstack(t[1..], stack)
  }

  lemma {:induction false} UnstackJoin(t: seq<Event>, u: seq<Event>, stack: seq<nat>)
    ensures Unstack(t + u, stack) == if Unstack(t, stack).None? then None else Unstack(u, Unstack(t, stack).value)
  {
    if t == [] {
      assert t + u == u;
    } else {
      assert (t + u)[1..] == t[1..] + u;
      match t[0]
      case Registered(a) => UnstackJoin(t[1..], u, stack + [a]);
      case Run(a) =>
        if stack != [] {
          UnstackJoin(t[1..], u, stack[..|stack| - 1]);
        }
      case _ => UnstackJoin(t[1..], u, stack);
    }
  }

  lemma {:induction false} RunsUnstack(reg: seq<nat>, stack: seq<nat>)
    ensures Unstack(Runs(reg), stack + reg) == Some(stack)
  {
    if reg == [] {
      assert stack + reg == stack;
    } else {
      var n := |reg| - 1;
      assert (stack + reg)[..|stack + reg| - 1] == stack + reg[..n];
      assert Runs(reg)[1..] == Runs(reg[..n]);
      RunsUnstack(reg[..n], stack);
    }
  }

  // `r` started on `stack` and, if it got to an end, left `stack2`.
  predicate Nested(r: Result, stack: seq<nat>, stack2: seq<nat>) {
    && Unstack(r.trace, stack).Some?
    && (Complete(r.outcome) ==> Unstack(r.trace, stack) == Some(stack2))
  }

  lemma NestedThen(t: seq<Event>, r: Result, stack: seq<nat>, mid: seq<nat>, end: seq<nat>)
    requires Unstack(t, stack) == Some(mid) && Nested(r, mid, end)
    ensures Nested(Then(t, r), stack, end)
  {
    UnstackJoin(t, r.trace, stack);
  }

  lemma TestNests(c: Cond, r: Result, stack: seq<nat>)
    requires Nested(r, stack, stack)
    ensures Nested(Then([Test(c)], r), stack, stack)
  {
    assert [Test(c)][1..] == [];
    NestedThen([Test(c)], r, stack, stack, stack);
  }

  // A loop body that ended in a jump the loop takes.
  lemma JumpNests(r: Result, e: Event, stack: seq<nat>)
    requires Nested(r, stack, stack) && Complete(r.outcome) && (e.BreakNode? || e.ContinueNode?)
    ensures Unstack(r.trace + [e], stack) == Some(stack)
  {
    assert [e][1..] == [];
    UnstackJoin(r.trace, [e], stack);
  }

  lemma {:induction false} StatementsNest(s: Stmt, ch: seq<bool>, fuel: nat, stack: seq<nat>)
    ensures Nested(Exec(s, ch, fuel), stack, if s.Defer? then stack + [s.a] else stack)
    decreases fuel, s, 2
  {
    match s
    case Block(body) =>
      BlocksNest(body, [], ch, fuel, stack);
      assert stack + [] == stack;
    case If(_, _, _, _) => BranchesNest(s, 0, ch, fuel, stack);
    case While(_, _) => WhileNests(s, ch, fuel, stack);
    case DoWhile(_, _) => DoWhileNests(s, ch, fuel, stack);
    case Simple(a) => OneUnstacks(Act(a), stack);
    case Try(a) => OneUnstacks(Act(a), stack);
    case Defer(a) => OneUnstacks(Registered(a), stack);
    case Return(value) => OneUnstacks(Leave(value), stack);
    case _ =>
  }

  lemma OneUnstacks(e: Event, stack: seq<nat>)
    requires !e.Run?
    ensures Unstack([e], stack) == Some(if e.Registered? then stack + [e.a] else stack)
  {
    assert [e][1..] == [];
  }

  // On every way out of a block its own defers, and only they, are gone.
  lemma {:induction false} BlocksNest(stmts: seq<Stmt>, reg: seq<nat>, ch: seq<bool>, fuel: nat, stack: seq<nat>)
    ensures Nested(ExecSeq(stmts, reg, ch, fuel), stack + reg, stack)
    decreases fuel, stmts, 0
  {
    hide Exec, Unstack;
    RunsUnstack(reg, stack);
    if stmts != [] {
      var s := stmts[0];
      var r := Exec(s, ch, fuel);
      StatementsNest(s, ch, fuel, stack + reg);
      match r.outcome
      case Fall =>
        var newReg := if s.Defer? then reg + [s.a] else reg;
        assert s.Defer? ==> stack + (reg + [s.a]) == stack + reg + [s.a];
        BlocksNest(stmts[1..], newReg, r.ch, fuel, stack);
        NestedThen(r.trace, ExecSeq(stmts[1..], newReg, r.ch, fuel), stack + reg, stack + newReg, stack);
      case Stuck =>
      case OutOfFuel =>
      case _ =>
        DeferFalls(s, ch, fuel);
        UnstackJoin(r.trace, Runs(reg), stack + reg);
    }
  }

  lemma DeferFalls(s: Stmt, ch: seq<bool>, fuel: nat)
    ensures s.Defer? ==> Exec(s, ch, fuel).outcome.Fall?
  {
  }

  lemma {:induction false} BranchesNest(s: Stmt, i: nat, ch: seq<bool>, fuel: nat, stack: seq<nat>)
    requires s.If? && i <= s.Count()
    ensures Nested(ExecIf(s, i, ch, fuel), stack, stack)
    decreases fuel, s, 0, s.Count() - i
  {
    assert stack + [] == stack;
    if i == s.Count() {
      if s.hasElse {
        BlocksNest(s.els, [], ch, fuel, stack);
      }
    } else {
      var c := s.Nth(i).c;
      var d := Decide(c, ch);
      if d.None? {
        TestNests(c, Result([], Stuck, ch), stack);
      } else if d.value.0 {
        BlocksNest(s.Nth(i).body, [], d.value.1, fuel, stack);
        TestNests(c, ExecSeq(s.Nth(i).body, [], d.value.1, fuel), stack);
      } else {
        BranchesNest(s, i + 1, d.value.1, fuel, stack);
        TestNests(c, ExecIf(s, i + 1, d.value.1, fuel), stack);
      }
    }
  }

  lemma {:induction false} WhileNests(s: Stmt, ch: seq<bool>, fuel: nat, stack: seq<nat>)
    requires s.While?
    ensures Nested(ExecWhile(s, ch, fuel), stack, stack)
    decreases fuel, s, 0
  {
    if fuel > 0 {
      hide ExecSeq;
      var d := Decide(s.c, ch);
      if d.None? {
        TestNests(s.c, Result([], Stuck, ch), stack);
      } else if !d.value.0 {
        TestNests(s.c, Result([], Fall, d.value.1), stack);
      } else {
        var r := ExecSeq(s.body, [], d.value.1, fuel - 1);
        assert stack + [] == stack;
        BlocksNest(s.body, [], d.value.1, fuel - 1, stack);
        match r.outcome
        case Fall =>
          WhileNests(s, r.ch, fuel - 1, stack);
          NestedThen(r.trace, ExecWhile(s, r.ch, fuel - 1), stack, stack, stack);
          TestNests(s.c, Then(r.trace, ExecWhile(s, r.ch, fuel - 1)), stack);
        case Continued =>
          JumpNests(r, ContinueNode, stack);
          WhileNests(s, r.ch, fuel - 1, stack);
          NestedThen(r.trace + [ContinueNode], ExecWhile(s, r.ch, fuel - 1), stack, stack, stack);
          TestNests(s.c, Then(r.trace + [ContinueNode], ExecWhile(s, r.ch, fuel - 1)), stack);
        case Broke =>
          JumpNests(r, BreakNode, stack);
          TestNests(s.c, Result(r.trace + [BreakNode], Fall, r.ch), stack);
        case _ => TestNests(s.c, r, stack);
      }
    }
  }

  lemma {:induction false} DoWhileNests(s: Stmt, ch: seq<bool>, fuel: nat, stack: seq<nat>)
    requires s.DoWhile?
    ensures Nested(ExecDoWhile(s, ch, fuel), stack, stack)
    decreases fuel, s, 1
  {
    hide ExecTail, ExecSeq;
    var r := ExecSeq(s.body, [], ch, fuel);
    assert stack + [] == stack;
    BlocksNest(s.body, [], ch, fuel, stack);
    match r.outcome
    case Fall =>
      TailNests(s, r.ch, fuel, stack);
      NestedThen(r.trace, ExecTail(s, r.ch, fuel), stack, stack, stack);
    case Continued =>
      JumpNests(r, ContinueNode, stack);
      TailNests(s, r.ch, fuel, stack);
      NestedThen(r.trace + [ContinueNode], ExecTail(s, r.ch, fuel), stack, stack, stack);
    case Broke => JumpNests(r, BreakNode, stack);
    case _ =>
  }

  lemma {:induction false} TailNests(s: Stmt, ch: seq<bool>, fuel: nat, stack: seq<nat>)
    requires s.DoWhile?
    ensures Nested(ExecTail(s, ch, fuel), stack, stack)
    decreases fuel, s, 0
  {
    if fuel > 0 {
      hide ExecDoWhile;
      var d := Decide(s.c, ch);
      if d.None? {
        TestNests(s.c, Result([], Stuck, ch), stack);
      } else if !d.value.0 {
        TestNests(s.c, Result([], Fall, d.value.1), stack);
      } else {
        DoWhileNests(s, d.value.1, fuel - 1, stack);
        TestNests(s.c, ExecDoWhile(s, d.value.1, fuel - 1), stack);
      }
    }
  }

  // A whole run, from no stack.
  lemma RunsNest(body: seq<Stmt>, ch: seq<bool>, fuel: nat)
    ensures Nested(ExecSeq(body, [], ch, fuel), [], [])
  {
    hide ExecSeq;
    var none: seq<nat> := [];
    BlocksNest(body, none, ch, fuel, none);
    assert none + none == none;
  }
}
