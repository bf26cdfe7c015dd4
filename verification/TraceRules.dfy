// What holds of every run's trace because it holds of the pieces the trace is
// made of.
module TraceRules {
  import opened Options
  import opened Structured
  import opened EarlyReturns

  // A property of traces, of complete runs and of others.
  type Rule = (seq<Event>, bool) -> bool

  // It holds of the events in `atom`, and of a complete piece with another
  // after it.
  ghost predicate Composes(ok: Rule, atom: Event -> bool) {
    && ok([], true)
    && (forall t :: ok(t, true) ==> ok(t, false))
    && (forall e :: Mute(e) || atom(e) ==> ok([e], true))
    && forall t, u, d :: ok(t, true) && ok(u, d) ==> ok(t + u, d)
  }

  // Blocks of which it is known: `base` says from which statement on.
  type Base = seq<Stmt> -> bool

  ghost predicate KnownOf(ok: Rule, atom: Event -> bool, base: Base) {
    forall stmts, reg, ch, fuel: nat :: base(stmts) && RunsOf(reg, atom) ==>
      var r := ExecSeq(stmts, reg, ch, fuel); ok(r.trace, Complete(r.outcome))
  }

  predicate RunsOf(reg: seq<nat>, atom: Event -> bool) {
    forall a :: a in reg ==> atom(Run(a))
  }

  // What control can reach in `s` is made of atoms and such blocks.
  predicate Made(s: Stmt, atom: Event -> bool, base: Base)
    decreases s, 1
  {
    match s
    case Simple(a) => atom(Act(a))
    case Try(a) => atom(Act(a))
    case Defer(a) => atom(Registered(a)) && atom(Run(a))
    case Block(body) => MadeAll(body, atom, base)
    case If(_, _, _, _) => MadeFrom(s, 0, atom, base)
    case While(c, body) => (c.always || atom(Test(c))) && MadeAll(body, atom, base)
    case DoWhile(body, c) => (c.always || atom(Test(c))) && MadeAll(body, atom, base)
    case Return(value) => value.Some? ==> atom(Leave(value))
    case _ => true
  }

  predicate MadeAll(stmts: seq<Stmt>, atom: Event -> bool, base: Base)
    decreases stmts, 0
  {
    || base(stmts)
    || stmts == []
    || (Made(stmts[0], atom, base) && (Ends(stmts[0], Fall) ==> MadeAll(stmts[1..], atom, base)))
  }

  predicate MadeFrom(s: Stmt, i: nat, atom: Event -> bool, base: Base)
    requires s.If? && i <= s.Count()
    decreases s, 0, s.Count() - i
  {
    if i == s.Count() then s.hasElse ==> MadeAll(s.els, atom, base)
    else
      var c := s.Nth(i).c;
      && (c.always || atom(Test(c))) && MadeAll(s.Nth(i).body, atom, base)
      && (!c.always ==> MadeFrom(s, i + 1, atom, base))
  }

  ghost predicate Keeps(r: Result, ok: Rule) {
    ok(r.trace, Complete(r.outcome))
  }

  lemma Join(ok: Rule, atom: Event -> bool, t: seq<Event>, r: Result)
    requires Composes(ok, atom) && ok(t, true) && Keeps(r, ok)
    ensures Keeps(Then(t, r), ok)
  {
  }

  lemma JoinEvent(ok: Rule, atom: Event -> bool, t: seq<Event>, e: Event)
    requires Composes(ok, atom) && ok(t, true) && (Mute(e) || atom(e))
    ensures ok(t + [e], true)
  {
  }

  lemma One(ok: Rule, atom: Event -> bool, e: Event)
    requires Composes(ok, atom) && (Mute(e) || atom(e))
    ensures ok([e], true) && ok([e], false)
  {
  }

  lemma Nothing(ok: Rule, atom: Event -> bool)
    requires Composes(ok, atom)
    ensures ok([], true) && ok([], false)
  {
  }

  lemma {:induction false} RunsKeep(reg: seq<nat>, ok: Rule, atom: Event -> bool)
    requires Composes(ok, atom) && RunsOf(reg, atom)
    ensures ok(Runs(reg), true)
  {
    hide Composes;
    if reg == [] {
      Nothing(ok, atom);
    } else {
      var last := Run(reg[|reg| - 1]);
      One(ok, atom, last);
      RunsKeep(reg[..|reg| - 1], ok, atom);
      Join(ok, atom, [last], Result(Runs(reg[..|reg| - 1]), Fall, []));
    }
  }

  lemma {:induction false} StatementsKeep(s: Stmt, ok: Rule, atom: Event -> bool, base: Base, ch: seq<bool>, fuel: nat)
    requires Composes(ok, atom) && KnownOf(ok, atom, base) && Made(s, atom, base)
    ensures Keeps(Exec(s, ch, fuel), ok)
    decreases fuel, s, 2
  {
    hide Composes, KnownOf;
    Nothing(ok, atom);
    match s
    case Block(body) => BlocksKeep(body, [], ok, atom, base, ch, fuel);
    case If(_, _, _, _) => BranchesKeep(s, 0, ok, atom, base, ch, fuel);
    case While(_, _) => WhileKeeps(s, ok, atom, base, ch, fuel);
    case DoWhile(_, _) => DoWhileKeeps(s, ok, atom, base, ch, fuel);
    case Simple(a) => One(ok, atom, Act(a));
    case Try(a) => One(ok, atom, Act(a));
    case Defer(a) => One(ok, atom, Registered(a));
    case Return(value) => One(ok, atom, Leave(value));
    case _ =>
  }

  lemma {:induction false} BlocksKeep(stmts: seq<Stmt>, reg: seq<nat>, ok: Rule, atom: Event -> bool, base: Base,
      ch: seq<bool>, fuel: nat)
    requires Composes(ok, atom) && KnownOf(ok, atom, base) && MadeAll(stmts, atom, base) && RunsOf(reg, atom)
    ensures Keeps(ExecSeq(stmts, reg, ch, fuel), ok)
    decreases fuel, stmts, 0
  {
    if !base(stmts) {
      hide Composes, KnownOf, Exec;
      RunsKeep(reg, ok, atom);
      if stmts != [] {
        var s := stmts[0];
        var r := Exec(s, ch, fuel);
        StatementsKeep(s, ok, atom, base, ch, fuel);
        RunsEnd(s, ch, fuel);
        if r.outcome.Fall? {
          var newReg := if s.Defer? then reg + [s.a] else reg;
          BlocksKeep(stmts[1..], newReg, ok, atom, base, r.ch, fuel);
          Join(ok, atom, r.trace, ExecSeq(stmts[1..], newReg, r.ch, fuel));
        } else if Complete(r.outcome) {
          Join(ok, atom, r.trace, Result(Runs(reg), r.outcome, r.ch));
        }
      }
    }
  }

  lemma {:induction false} BranchesKeep(s: Stmt, i: nat, ok: Rule, atom: Event -> bool, base: Base, ch: seq<bool>, fuel: nat)
    requires s.If? && i <= s.Count()
    requires Composes(ok, atom) && KnownOf(ok, atom, base) && MadeFrom(s, i, atom, base)
    ensures Keeps(ExecIf(s, i, ch, fuel), ok)
    decreases fuel, s, 1, s.Count() - i
  {
    hide Composes, KnownOf, ExecSeq;
    Nothing(ok, atom);
    if i == s.Count() {
      if s.hasElse {
        BlocksKeep(s.els, [], ok, atom, base, ch, fuel);
      }
    } else {
      var c := s.Nth(i).c;
      var d := Decide(c, ch);
      One(ok, atom, Test(c));
      if d.None? {
        Join(ok, atom, [Test(c)], Result([], Stuck, ch));
      } else if d.value.0 {
        BlocksKeep(s.Nth(i).body, [], ok, atom, base, d.value.1, fuel);
        Join(ok, atom, [Test(c)], ExecSeq(s.Nth(i).body, [], d.value.1, fuel));
      } else {
        BranchesKeep(s, i + 1, ok, atom, base, d.value.1, fuel);
        Join(ok, atom, [Test(c)], ExecIf(s, i + 1, d.value.1, fuel));
      }
    }
  }

  lemma {:induction false} WhileKeeps(s: Stmt, ok: Rule, atom: Event -> bool, base: Base, ch: seq<bool>, fuel: nat)
    requires s.While? && Composes(ok, atom) && KnownOf(ok, atom, base) && Made(s, atom, base)
    ensures Keeps(ExecWhile(s, ch, fuel), ok)
    decreases fuel, s, 1
  {
    hide Composes, KnownOf, ExecSeq;
    Nothing(ok, atom);
    if fuel > 0 {
      var d := Decide(s.c, ch);
      WhileUnfolds(s, ch, fuel);
      hide ExecWhile, WhileRest;
      One(ok, atom, Test(s.c));
      if d.None? {
        Join(ok, atom, [Test(s.c)], Result([], Stuck, ch));
      } else if !d.value.0 {
        Join(ok, atom, [Test(s.c)], Result([], Fall, d.value.1));
      } else {
        BlocksKeep(s.body, [], ok, atom, base, d.value.1, fuel - 1);
        var r := ExecSeq(s.body, [], d.value.1, fuel - 1);
        RoundKeeps(s, ok, atom, base, r, fuel);
        Join(ok, atom, [Test(s.c)], WhileRest(s, r, fuel));
      }
    }
  }

  lemma {:induction false} RoundKeeps(s: Stmt, ok: Rule, atom: Event -> bool, base: Base, r: Result, fuel: nat)
    requires s.While? && fuel > 0 && Keeps(r, ok)
    requires Composes(ok, atom) && KnownOf(ok, atom, base) && Made(s, atom, base)
    ensures Keeps(WhileRest(s, r, fuel), ok)
    decreases fuel, s, 0
  {
    hide Composes, KnownOf, ExecWhile;
    match r.outcome
    case Fall =>
      WhileKeeps(s, ok, atom, base, r.ch, fuel - 1);
      Join(ok, atom, r.trace, ExecWhile(s, r.ch, fuel - 1));
    case Continued =>
      WhileKeeps(s, ok, atom, base, r.ch, fuel - 1);
      JoinEvent(ok, atom, r.trace, ContinueNode);
      Join(ok, atom, r.trace + [ContinueNode], ExecWhile(s, r.ch, fuel - 1));
    case Broke => JoinEvent(ok, atom, r.trace, BreakNode);
    case _ =>
  }

  lemma {:induction false} DoWhileKeeps(s: Stmt, ok: Rule, atom: Event -> bool, base: Base, ch: seq<bool>, fuel: nat)
    requires s.DoWhile? && Composes(ok, atom) && KnownOf(ok, atom, base) && Made(s, atom, base)
    ensures Keeps(ExecDoWhile(s, ch, fuel), ok)
    decreases fuel, s, 1
  {
    hide Composes, KnownOf, ExecSeq, ExecTail;
    var r := ExecSeq(s.body, [], ch, fuel);
    BlocksKeep(s.body, [], ok, atom, base, ch, fuel);
    match r.outcome
    case Fall =>
      TailKeeps(s, ok, atom, base, r.ch, fuel);
      Join(ok, atom, r.trace, ExecTail(s, r.ch, fuel));
    case Continued =>
      TailKeeps(s, ok, atom, base, r.ch, fuel);
      JoinEvent(ok, atom, r.trace, ContinueNode);
      Join(ok, atom, r.trace + [ContinueNode], ExecTail(s, r.ch, fuel));
    case Broke => JoinEvent(ok, atom, r.trace, BreakNode);
    case _ =>
  }

  lemma {:induction false} TailKeeps(s: Stmt, ok: Rule, atom: Event -> bool, base: Base, ch: seq<bool>, fuel: nat)
    requires s.DoWhile? && Composes(ok, atom) && KnownOf(ok, atom, base) && Made(s, atom, base)
    ensures Keeps(ExecTail(s, ch, fuel), ok)
    decreases fuel, s, 0
  {
    hide Composes, KnownOf, ExecDoWhile;
    Nothing(ok, atom);
    if fuel > 0 {
      var d := Decide(s.c, ch);
      One(ok, atom, Test(s.c));
      if d.None? {
        Join(ok, atom, [Test(s.c)], Result([], Stuck, ch));
      } else if !d.value.0 {
        Join(ok, atom, [Test(s.c)], Result([], Fall, d.value.1));
      } else {
        DoWhileKeeps(s, ok, atom, base, d.value.1, fuel - 1);
        Join(ok, atom, [Test(s.c)], ExecDoWhile(s, d.value.1, fuel - 1));
      }
    }
  }
}
