// A `try` that fails leaves the function from the middle of a statement. Which
// runs the erased program, that lets every `try` succeed, still has.
module EarlyReturns {
  import opened Options
  import opened Structured

  // The program, or its erasure.
  function Of(s: Stmt, erased: bool): Stmt {
    if erased then Erase(s) else s
  }

  function OfAll(stmts: seq<Stmt>, erased: bool): seq<Stmt> {
    if erased then EraseAll(stmts) else stmts
  }

  // A decision put before others, unless the condition needs none.
  function Deciding(c: Cond, d: bool, ch: seq<bool>): seq<bool> {
    if c.always then ch else [d] + ch
  }

  lemma Decides(c: Cond, d: bool, ch: seq<bool>)
    requires c.always ==> d
    ensures Decide(c, Deciding(c, d, ch)) == Some((d, ch))
  {
  }

  lemma OfIf(s: Stmt, erased: bool)
    requires s.If?
    ensures var t := Of(s, erased);
            && t.If? && t.Count() == s.Count() && t.hasElse == s.hasElse && t.els == OfAll(s.els, erased)
            && forall i: nat :: i < s.Count() ==> t.Nth(i).c == s.Nth(i).c && t.Nth(i).body == OfAll(s.Nth(i).body, erased)
  {
    if erased {
      ErasedIf(s);
    }
  }

  // ---- Runs in which no `try` fails: the program and its erasure have the same ----

  // What one of the two can repeat of the other: a run to an end, and any run
  // of the erasure.
  predicate CanRepeat(erased: bool, o: Outcome) {
    Done(o) || (erased && o in {Stuck, OutOfFuel})
  }

  predicate SameRun(r: Result, r2: Result, rest: seq<bool>) {
    r2.trace == r.trace && r2.outcome == r.outcome && (Done(r.outcome) ==> r2.ch == rest)
  }

  lemma {:induction false} Rerun(s: Stmt, erased: bool, ch: seq<bool>, fuel: nat, rest: seq<bool>) returns (ch2: seq<bool>)
    requires CanRepeat(erased, Exec(Of(s, erased), ch, fuel).outcome)
    ensures SameRun(Exec(Of(s, erased), ch, fuel), Exec(Of(s, !erased), ch2, fuel), rest)
    decreases fuel, s, 2
  {
    match s
    case Block(body) => ch2 := RerunSeq(body, [], erased, ch, fuel, rest);
    case If(_, _, _, _) =>
      OfIf(s, erased);
      OfIf(s, !erased);
      ch2 := RerunIf(s, 0, erased, ch, fuel, rest);
    case While(_, _) => ch2 := RerunWhile(s, erased, ch, fuel, rest);
    case DoWhile(_, _) => ch2 := RerunDoWhile(s, erased, ch, fuel, rest);
    case Try(_) => ch2 := if erased then [true] + rest else rest;
    case _ => ch2 := rest;
  }

  lemma {:induction false} RerunSeq(stmts: seq<Stmt>, reg: seq<nat>, erased: bool, ch: seq<bool>, fuel: nat, rest: seq<bool>)
      returns (ch2: seq<bool>)
    requires CanRepeat(erased, ExecSeq(OfAll(stmts, erased), reg, ch, fuel).outcome)
    ensures SameRun(ExecSeq(OfAll(stmts, erased), reg, ch, fuel), ExecSeq(OfAll(stmts, !erased), reg, ch2, fuel), rest)
    decreases fuel, stmts, 0
  {
    hide Exec;
    ch2 := rest;
    if stmts != [] {
      var s := stmts[0];
      FirstOf(stmts, erased);
      FirstOf(stmts, !erased);
      var r := Exec(Of(s, erased), ch, fuel);
      if r.outcome.Fall? {
        ch2 := RerunSeq(stmts[1..], if s.Defer? then reg + [s.a] else reg, erased, r.ch, fuel, rest);
      }
      ch2 := Rerun(s, erased, ch, fuel, ch2);
    }
  }

  lemma FirstOf(stmts: seq<Stmt>, erased: bool)
    requires stmts != []
    ensures var all := OfAll(stmts, erased);
            && all != [] && all[0] == Of(stmts[0], erased) && all[1..] == OfAll(stmts[1..], erased)
            && all[0].Defer? == stmts[0].Defer? && (stmts[0].Defer? ==> all[0].a == stmts[0].a)
  {
  }

  lemma {:induction false} RerunIf(s: Stmt, i: nat, erased: bool, ch: seq<bool>, fuel: nat, rest: seq<bool>)
      returns (ch2: seq<bool>)
    requires s.If? && Of(s, erased).If? && Of(s, !erased).If?
    requires i <= s.Count() == Of(s, erased).Count() == Of(s, !erased).Count()
    requires CanRepeat(erased, ExecIf(Of(s, erased), i, ch, fuel).outcome)
    ensures SameRun(ExecIf(Of(s, erased), i, ch, fuel), ExecIf(Of(s, !erased), i, ch2, fuel), rest)
    decreases fuel, s, 1, s.Count() - i
  {
    hide Of, OfAll, ExecSeq;
    OfIf(s, erased);
    OfIf(s, !erased);
    if i == s.Count() {
      ch2 := rest;
      if s.hasElse {
        ch2 := RerunSeq(s.els, [], erased, ch, fuel, rest);
      }
    } else {
      var c := s.Nth(i).c;
      ch2 := [];
      if Decide(c, ch).Some? {
        var d := Decide(c, ch).value;
        var inner;
        if d.0 {
          inner := RerunSeq(s.Nth(i).body, [], erased, d.1, fuel, rest);
        } else {
          inner := RerunIf(s, i + 1, erased, d.1, fuel, rest);
        }
        ch2 := Deciding(c, d.0, inner);
        Decides(c, d.0, inner);
      }
    }
  }

  lemma {:induction false} RerunWhile(s: Stmt, erased: bool, ch: seq<bool>, fuel: nat, rest: seq<bool>)
      returns (ch2: seq<bool>)
    requires s.While? && CanRepeat(erased, ExecWhile(Of(s, erased), ch, fuel).outcome)
    ensures SameRun(ExecWhile(Of(s, erased), ch, fuel), ExecWhile(Of(s, !erased), ch2, fuel), rest)
    decreases fuel, s, 0
  {
    hide ExecSeq;
    ch2 := [];
    if fuel > 0 && Decide(s.c, ch).Some? {
      var d := Decide(s.c, ch).value;
      var inner := rest;
      if d.0 {
        var r := ExecSeq(OfAll(s.body, erased), [], d.1, fuel - 1);
        if r.outcome.Fall? || r.outcome.Continued? {
          inner := RerunWhile(s, erased, r.ch, fuel - 1, rest);
        }
        inner := RerunSeq(s.body, [], erased, d.1, fuel - 1, inner);
      }
      ch2 := Deciding(s.c, d.0, inner);
      Decides(s.c, d.0, inner);
    }
  }

  lemma {:induction false} RerunDoWhile(s: Stmt, erased: bool, ch: seq<bool>, fuel: nat, rest: seq<bool>)
      returns (ch2: seq<bool>)
    requires s.DoWhile? && CanRepeat(erased, ExecDoWhile(Of(s, erased), ch, fuel).outcome)
    ensures SameRun(ExecDoWhile(Of(s, erased), ch, fuel), ExecDoWhile(Of(s, !erased), ch2, fuel), rest)
    decreases fuel, s, 1
  {
    hide ExecSeq, ExecTail;
    var r := ExecSeq(OfAll(s.body, erased), [], ch, fuel);
    ch2 := rest;
    if r.outcome.Fall? || r.outcome.Continued? {
      ch2 := RerunTail(s, erased, r.ch, fuel, rest);
    }
    ch2 := RerunSeq(s.body, [], erased, ch, fuel, ch2);
  }

  lemma {:induction false} RerunTail(s: Stmt, erased: bool, ch: seq<bool>, fuel: nat, rest: seq<bool>)
      returns (ch2: seq<bool>)
    requires s.DoWhile? && CanRepeat(erased, ExecTail(Of(s, erased), ch, fuel).outcome)
    ensures SameRun(ExecTail(Of(s, erased), ch, fuel), ExecTail(Of(s, !erased), ch2, fuel), rest)
    decreases fuel, s, 0
  {
    hide ExecDoWhile;
    ch2 := [];
    if fuel > 0 && Decide(s.c, ch).Some? {
      var d := Decide(s.c, ch).value;
      var inner := rest;
      if d.0 {
        inner := RerunDoWhile(s, erased, d.1, fuel - 1, rest);
      }
      ch2 := Deciding(s.c, d.0, inner);
      Decides(s.c, d.0, inner);
    }
  }

  // ---- How a statement can end ----

  // Some run of `s` ends in `o`: every condition but the literal `true` may go
  // either way.
  predicate Ends(s: Stmt, o: Outcome)
    decreases s, 1
  {
    match s
    case Try(_) => o == Fall || o == Failed
    case Return(_) => o == Returned
    case Break => o == Broke
    case Continue => o == Continued
    case Block(body) => EndsAll(body, o)
    case If(_, _, _, _) => EndsFrom(s, 0, o)
    case While(c, body) =>
      if o == Fall then !c.always || EndsAll(body, Broke) else o in {Returned, Failed} && EndsAll(body, o)
    case DoWhile(body, c) =>
      if o == Fall then EndsAll(body, Broke) || (!c.always && (EndsAll(body, Fall) || EndsAll(body, Continued)))
      else o in {Returned, Failed} && EndsAll(body, o)
    case _ => o == Fall
  }

  predicate EndsAll(stmts: seq<Stmt>, o: Outcome)
    decreases stmts, 0
  {
    if stmts == [] then o == Fall
    else (o != Fall && Ends(stmts[0], o)) || (Ends(stmts[0], Fall) && EndsAll(stmts[1..], o))
  }

  predicate EndsFrom(s: Stmt, i: nat, o: Outcome)
    requires s.If? && i <= s.Count()
    decreases s, 0, s.Count() - i
  {
    if i == s.Count() then if s.hasElse then EndsAll(s.els, o) else o == Fall
    else EndsAll(s.Nth(i).body, o) || (!s.Nth(i).c.always && EndsFrom(s, i + 1, o))
  }

  lemma {:induction false} RunsEnd(s: Stmt, ch: seq<bool>, fuel: nat)
    ensures var o := Exec(s, ch, fuel).outcome; Complete(o) ==> Ends(s, o)
    decreases fuel, s, 2
  {
    match s
    case Block(body) => RunsEndAll(body, [], ch, fuel);
    case If(_, _, _, _) => RunsEndFrom(s, 0, ch, fuel);
    case While(_, _) => WhileRunsEnd(s, ch, fuel);
    case DoWhile(_, _) => DoWhileRunsEnd(s, ch, fuel);
    case _ =>
  }

  lemma {:induction false} RunsEndAll(stmts: seq<Stmt>, reg: seq<nat>, ch: seq<bool>, fuel: nat)
    ensures var o := ExecSeq(stmts, reg, ch, fuel).outcome; Complete(o) ==> EndsAll(stmts, o)
    decreases fuel, stmts, 0
  {
    hide Exec;
    if stmts != [] {
      var s := stmts[0];
      var r := Exec(s, ch, fuel);
      RunsEnd(s, ch, fuel);
      if r.outcome.Fall? {
        RunsEndAll(stmts[1..], if s.Defer? then reg + [s.a] else reg, r.ch, fuel);
      }
    }
  }

  lemma {:induction false} RunsEndFrom(s: Stmt, i: nat, ch: seq<bool>, fuel: nat)
    requires s.If? && i <= s.Count()
    ensures var o := ExecIf(s, i, ch, fuel).outcome; Complete(o) ==> EndsFrom(s, i, o)
    decreases fuel, s, 1, s.Count() - i
  {
    hide ExecSeq;
    if i == s.Count() {
      RunsEndAll(s.els, [], ch, fuel);
    } else {
      var d := Decide(s.Nth(i).c, ch);
      if d.Some? {
        if d.value.0 {
          RunsEndAll(s.Nth(i).body, [], d.value.1, fuel);
        } else {
          RunsEndFrom(s, i + 1, d.value.1, fuel);
        }
      }
    }
  }

  lemma {:induction false} WhileRunsEnd(s: Stmt, ch: seq<bool>, fuel: nat)
    requires s.While?
    ensures var o := ExecWhile(s, ch, fuel).outcome; Complete(o) ==> Ends(s, o)
    decreases fuel, s, 1
  {
    hide ExecSeq;
    if fuel > 0 {
      var d := Decide(s.c, ch);
      if d.Some? && d.value.0 {
        var r := ExecSeq(s.body, [], d.value.1, fuel - 1);
        RunsEndAll(s.body, [], d.value.1, fuel - 1);
        WhileRunsEnd(s, r.ch, fuel - 1);
      }
    }
  }

  lemma {:induction false} DoWhileRunsEnd(s: Stmt, ch: seq<bool>, fuel: nat)
    requires s.DoWhile?
    ensures var o := ExecDoWhile(s, ch, fuel).outcome; Complete(o) ==> Ends(s, o)
    decreases fuel, s, 1
  {
    hide ExecSeq;
    var r := ExecSeq(s.body, [], ch, fuel);
    RunsEndAll(s.body, [], ch, fuel);
    if fuel > 0 {
      var d := Decide(s.c, r.ch);
      if d.Some? && d.value.0 {
        DoWhileRunsEnd(s, d.value.1, fuel - 1);
      }
    }
  }

  // ---- The `try` statements ----

  function Tries(s: Stmt): (r: set<nat>)
    ensures forall a :: a in r ==> Act(a) in Nodes(s)
    decreases s, 1
  {
    match s
    case Try(a) => {a}
    case Block(body) => TriesAll(body)
    case If(_, _, _, _) => TriesFrom(s, 0)
    case While(_, body) => TriesAll(body)
    case DoWhile(body, _) => TriesAll(body)
    case _ => {}
  }

  function TriesAll(stmts: seq<Stmt>): (r: set<nat>)
    ensures forall a :: a in r ==> Act(a) in NodesAll(stmts)
    decreases stmts, 0
  {
    if stmts == [] then {} else Tries(stmts[0]) + TriesAll(stmts[1..])
  }

  function TriesFrom(s: Stmt, i: nat): (r: set<nat>)
    requires s.If? && i <= s.Count()
    ensures forall a :: a in r ==> Act(a) in NodesFrom(s, i)
    decreases s, 0, s.Count() - i
  {
    if i == s.Count() then if s.hasElse then TriesAll(s.els) else {}
    else TriesAll(s.Nth(i).body) + TriesFrom(s, i + 1)
  }

  lemma {:induction false} ErasedHasNoTries(s: Stmt)
    ensures Tries(Erase(s)) == {}
    decreases s, 1
  {
    match s
    case Block(body) => ErasedSeqHasNoTries(body);
    case If(_, _, _, _) =>
      ErasedIf(s);
      ErasedIfHasNoTries(s, 0);
    case While(_, body) => ErasedSeqHasNoTries(body);
    case DoWhile(body, _) => ErasedSeqHasNoTries(body);
    case _ =>
  }

  lemma {:induction false} ErasedSeqHasNoTries(stmts: seq<Stmt>)
    ensures TriesAll(EraseAll(stmts)) == {}
    decreases stmts, 0
  {
    if stmts != [] {
      FirstOf(stmts, true);
      ErasedHasNoTries(stmts[0]);
      ErasedSeqHasNoTries(stmts[1..]);
    }
  }

  lemma {:induction false} ErasedIfHasNoTries(s: Stmt, i: nat)
    requires s.If? && Erase(s).If? && i <= s.Count() == Erase(s).Count()
    ensures TriesFrom(Erase(s), i) == {}
    decreases s, 0, s.Count() - i
  {
    hide Erase;
    ErasedIf(s);
    if i == s.Count() {
      ErasedSeqHasNoTries(s.els);
    } else {
      ErasedSeqHasNoTries(s.Nth(i).body);
      ErasedIfHasNoTries(s, i + 1);
    }
  }

  // ---- A `try` at the end ----

  // Nothing of `s` shows in a run.
  predicate Silent(s: Stmt)
    decreases s, 1
  {
    s.Block? && SilentAll(s.body)
  }

  predicate SilentAll(stmts: seq<Stmt>)
    decreases stmts, 0
  {
    stmts == [] || (Silent(stmts[0]) && SilentAll(stmts[1..]))
  }

  // Every `try` of `s` that control can reach is the last thing `s` does
  // before deferred statements run.
  predicate TriesAtEnd(s: Stmt)
    decreases s, 1
  {
    match s
    case Block(body) => TriesAtEndAll(body)
    case If(_, _, _, _) => TriesAtEndFrom(s, 0)
    case While(_, _) => !Ends(s, Failed)
    case DoWhile(_, _) => !Ends(s, Failed)
    case _ => true
  }

  predicate TriesAtEndAll(stmts: seq<Stmt>)
    decreases stmts, 0
  {
    stmts == [] ||
    ((if SilentAll(stmts[1..]) then TriesAtEnd(stmts[0]) else !Ends(stmts[0], Failed))
     && (Ends(stmts[0], Fall) ==> TriesAtEndAll(stmts[1..])))
  }

  predicate TriesAtEndFrom(s: Stmt, i: nat)
    requires s.If? && i <= s.Count()
    decreases s, 0, s.Count() - i
  {
    if i == s.Count() then s.hasElse ==> TriesAtEndAll(s.els)
    else TriesAtEndAll(s.Nth(i).body) && (!s.Nth(i).c.always ==> TriesAtEndFrom(s, i + 1))
  }

  // A failing run then shows what a run of the erasure shows to its end.
  lemma {:induction false} FailureIsFall(s: Stmt, ch: seq<bool>, fuel: nat, rest: seq<bool>) returns (ch2: seq<bool>)
    requires TriesAtEnd(s) && Exec(s, ch, fuel).outcome == Failed
    ensures Exec(Erase(s), ch2, fuel) == Result(Exec(s, ch, fuel).trace, Fall, rest)
    decreases fuel, s, 2
  {
    RunsEnd(s, ch, fuel);
    ch2 := rest;
    match s
    case Block(body) => ch2 := FailureIsFallAll(body, [], ch, fuel, rest);
    case If(_, _, _, _) =>
      ErasedIf(s);
      ch2 := FailureIsFallFrom(s, 0, ch, fuel, rest);
    case _ =>
  }

  lemma {:induction false} FailureIsFallAll(stmts: seq<Stmt>, reg: seq<nat>, ch: seq<bool>, fuel: nat, rest: seq<bool>)
      returns (ch2: seq<bool>)
    requires TriesAtEndAll(stmts) && ExecSeq(stmts, reg, ch, fuel).outcome == Failed
    ensures ExecSeq(EraseAll(stmts), reg, ch2, fuel) == Result(ExecSeq(stmts, reg, ch, fuel).trace, Fall, rest)
    decreases fuel, stmts, 0
  {
    hide Exec, TriesAtEnd, SilentAll;
    var s := stmts[0];
    var r := Exec(s, ch, fuel);
    RunsEnd(s, ch, fuel);
    FirstOf(stmts, true);
    if r.outcome.Fall? {
      var newReg := if s.Defer? then reg + [s.a] else reg;
      var later := FailureIsFallAll(stmts[1..], newReg, r.ch, fuel, rest);
      ch2 := Rerun(s, false, ch, fuel, later);
    } else {
      ch2 := FailureIsFall(s, ch, fuel, rest);
      SilentRuns(stmts[1..], reg, rest, fuel);
      DeferDoesNotFail(s, ch, fuel);
    }
  }

  lemma DeferDoesNotFail(s: Stmt, ch: seq<bool>, fuel: nat)
    ensures s.Defer? ==> Exec(s, ch, fuel).outcome == Fall
  {
  }

  lemma {:induction false} SilentRuns(stmts: seq<Stmt>, reg: seq<nat>, ch: seq<bool>, fuel: nat)
    requires SilentAll(stmts)
    ensures ExecSeq(EraseAll(stmts), reg, ch, fuel) == Result(Runs(reg), Fall, ch)
    decreases stmts
  {
    if stmts != [] {
      var s := stmts[0];
      SilentRuns(s.body, [], ch, fuel);
      SilentRuns(stmts[1..], reg, ch, fuel);
      FirstOf(stmts, true);
      assert Exec(Erase(s), ch, fuel) == ExecSeq(EraseAll(s.body), [], ch, fuel);
      assert [] + Runs(reg) == Runs(reg);
    }
  }

  lemma {:induction false} FailureIsFallFrom(s: Stmt, i: nat, ch: seq<bool>, fuel: nat, rest: seq<bool>)
      returns (ch2: seq<bool>)
    requires s.If? && i <= s.Count() && Erase(s).If? && Erase(s).Count() == s.Count()
    requires TriesAtEndFrom(s, i) && ExecIf(s, i, ch, fuel).outcome == Failed
    ensures ExecIf(Erase(s), i, ch2, fuel) == Result(ExecIf(s, i, ch, fuel).trace, Fall, rest)
    decreases fuel, s, 1, s.Count() - i
  {
    hide Erase, EraseAll, ExecSeq;
    ErasedIf(s);
    if i == s.Count() {
      ch2 := FailureIsFallAll(s.els, [], ch, fuel, rest);
    } else {
      var c := s.Nth(i).c;
      var d := Decide(c, ch).value;
      var inner;
      if d.0 {
        inner := FailureIsFallAll(s.Nth(i).body, [], d.1, fuel, rest);
      } else {
        inner := FailureIsFallFrom(s, i + 1, d.1, fuel, rest);
      }
      ch2 := Deciding(c, d.0, inner);
      Decides(c, d.0, inner);
    }
  }

  // ---- What a run shows last, deferred statements aside ----

  // A trace without the deferred runs it ends in.
  function Core(t: seq<Event>): seq<Event> {
    if t == [] || !t[|t| - 1].Run? then t else Core(t[..|t| - 1])
  }

  function LastShown(t: seq<Event>): Option<Event> {
    var c := Core(t);
    if c == [] then None else Some(c[|c| - 1])
  }

  lemma {:induction false} CoreOfJoin(t: seq<Event>, u: seq<Event>)
    ensures Core(t + u) == if Core(u) == [] then Core(t) else t + Core(u)
    decreases |u|
  {
    if u == [] {
      assert t + u == t;
    } else {
      assert (t + u)[..|t + u| - 1] == t + u[..|u| - 1];
      CoreOfJoin(t, u[..|u| - 1]);
    }
  }

  lemma LastOfJoin(t: seq<Event>, u: seq<Event>)
    ensures LastShown(t + u) == if LastShown(u).Some? then LastShown(u) else LastShown(t)
  {
    CoreOfJoin(t, u);
  }

  lemma {:induction false} CoreOfRuns(reg: seq<nat>)
    ensures Core(Runs(reg)) == []
  {
    if reg != [] {
      CoreOfRuns(reg[..|reg| - 1]);
      LastOfOne(Run(reg[|reg| - 1]));
      CoreOfJoin([Run(reg[|reg| - 1])], Runs(reg[..|reg| - 1]));
    }
  }

  lemma LastOfRuns(reg: seq<nat>)
    ensures LastShown(Runs(reg)) == None
  {
    CoreOfRuns(reg);
  }

  lemma LastOfOne(e: Event)
    ensures LastShown([e]) == if e.Run? then None else Some(e)
  {
    assert [e][..0] == [];
    assert Core([]) == [];
  }

  lemma {:induction false} CoreIsPrefix(t: seq<Event>)
    ensures Core(t) <= t
  {
    if t != [] && t[|t| - 1].Run? {
      CoreIsPrefix(t[..|t| - 1]);
    }
  }

  // The statements a run of `s` to its end can show last.
  function TailActs(s: Stmt): set<nat>
    decreases s, 1
  {
    match s
    case Simple(a) => {a}
    case Try(a) => {a}
    case Block(body) => TailActsAll(body)
    case If(_, _, _, _) => TailActsFrom(s, 0)
    case _ => {}
  }

  function TailActsAll(stmts: seq<Stmt>): set<nat>
    decreases stmts, 0
  {
    if stmts == [] then {}
    else TailActsAll(stmts[1..]) + if SilentAll(stmts[1..]) then TailActs(stmts[0]) else {}
  }

  function TailActsFrom(s: Stmt, i: nat): set<nat>
    requires s.If? && i <= s.Count()
    decreases s, 0, s.Count() - i
  {
    if i == s.Count() then if s.hasElse then TailActsAll(s.els) else {}
    else TailActsAll(s.Nth(i).body) + TailActsFrom(s, i + 1)
  }

  // What `r` shows last, as far as its outcome tells.
  predicate LastFits(r: Result, tail: set<nat>, tries: set<nat>, silent: bool) {
    var last := LastShown(r.trace);
    && (r.outcome == Fall ==> (last.Some? || silent) && (last.Some? && last.value.Act? ==> last.value.a in tail))
    && (r.outcome == Returned ==> last.Some? && last.value.Leave?)
    && (r.outcome == Failed ==> last.Some? && last.value.Act? && last.value.a in tries)
    && (r.outcome == Stuck ==> last.Some? && (last.value.Test? || (last.value.Act? && last.value.a in tries)))
  }

  lemma {:induction false} RunsShowLast(s: Stmt, ch: seq<bool>, fuel: nat)
    ensures LastFits(Exec(s, ch, fuel), TailActs(s), Tries(s), Silent(s))
    decreases fuel, s, 2
  {
    match s
    case Simple(a) => LastOfOne(Act(a));
    case Try(a) => LastOfOne(Act(a));
    case Defer(a) => LastOfOne(Registered(a));
    case Return(value) => LastOfOne(Leave(value));
    case Block(body) => RunsShowLastAll(body, [], ch, fuel);
    case If(_, _, _, _) => RunsShowLastFrom(s, 0, ch, fuel);
    case While(_, _) => WhileShowsLast(s, ch, fuel);
    case DoWhile(_, _) => DoWhileShowsLast(s, ch, fuel);
    case _ =>
  }

  lemma {:induction false} RunsShowLastAll(stmts: seq<Stmt>, reg: seq<nat>, ch: seq<bool>, fuel: nat)
    ensures LastFits(ExecSeq(stmts, reg, ch, fuel), TailActsAll(stmts), TriesAll(stmts), SilentAll(stmts))
    decreases fuel, stmts, 0
  {
    hide Exec, LastShown, TailActs;
    LastOfRuns(reg);
    if stmts != [] {
      var s := stmts[0];
      var r := Exec(s, ch, fuel);
      RunsShowLast(s, ch, fuel);
      if r.outcome.Fall? {
        var newReg := if s.Defer? then reg + [s.a] else reg;
        var later := ExecSeq(stmts[1..], newReg, r.ch, fuel);
        RunsShowLastAll(stmts[1..], newReg, r.ch, fuel);
        LastOfJoin(r.trace, later.trace);
      } else {
        LastOfJoin(r.trace, Runs(reg));
      }
    }
  }

  lemma {:induction false} RunsShowLastFrom(s: Stmt, i: nat, ch: seq<bool>, fuel: nat)
    requires s.If? && i <= s.Count()
    ensures LastFits(ExecIf(s, i, ch, fuel), TailActsFrom(s, i), TriesFrom(s, i), i == s.Count())
    decreases fuel, s, 1, s.Count() - i
  {
    hide ExecSeq, LastShown;
    if i == s.Count() {
      LastOfRuns([]);
      RunsShowLastAll(s.els, [], ch, fuel);
    } else {
      var c := s.Nth(i).c;
      var d := Decide(c, ch);
      LastOfOne(Test(c));
      assert [Test(c)] + [] == [Test(c)];
      if d.Some? {
        if d.value.0 {
          RunsShowLastAll(s.Nth(i).body, [], d.value.1, fuel);
          LastOfJoin([Test(c)], ExecSeq(s.Nth(i).body, [], d.value.1, fuel).trace);
        } else {
          RunsShowLastFrom(s, i + 1, d.value.1, fuel);
          LastOfJoin([Test(c)], ExecIf(s, i + 1, d.value.1, fuel).trace);
        }
      }
    }
  }

  // A loop that ends in its condition or a break shows that last.
  lemma {:induction false} WhileShowsLast(s: Stmt, ch: seq<bool>, fuel: nat)
    requires s.While?
    ensures LastFits(ExecWhile(s, ch, fuel), {}, Tries(s), false)
    decreases fuel, s, 1
  {
    hide ExecSeq, LastShown;
    if fuel > 0 {
      var d := Decide(s.c, ch);
      WhileUnfolds(s, ch, fuel);
      hide ExecWhile, WhileRest;
      LastOfOne(Test(s.c));
      assert [Test(s.c)] + [] == [Test(s.c)];
      if d.Some? && d.value.0 {
        RoundShowsLast(s, d.value.1, fuel);
        LastOfJoin([Test(s.c)], WhileRest(s, ExecSeq(s.body, [], d.value.1, fuel - 1), fuel).trace);
      }
    }
  }

  lemma {:induction false} RoundShowsLast(s: Stmt, ch: seq<bool>, fuel: nat)
    requires s.While? && fuel > 0
    ensures LastFits(WhileRest(s, ExecSeq(s.body, [], ch, fuel - 1), fuel), {}, Tries(s), false)
    decreases fuel, s, 0
  {
    hide ExecSeq, ExecWhile, LastShown;
    var r := ExecSeq(s.body, [], ch, fuel - 1);
    var later := ExecWhile(s, r.ch, fuel - 1);
    RunsShowLastAll(s.body, [], ch, fuel - 1);
    WhileShowsLast(s, r.ch, fuel - 1);
    LastOfOne(BreakNode);
    LastOfJoin(r.trace, later.trace);
    LastOfJoin(r.trace + [ContinueNode], later.trace);
    LastOfJoin(r.trace, [BreakNode]);
  }

  lemma {:induction false} DoWhileShowsLast(s: Stmt, ch: seq<bool>, fuel: nat)
    requires s.DoWhile?
    ensures LastFits(ExecDoWhile(s, ch, fuel), {}, Tries(s), false)
    decreases fuel, s, 1
  {
    hide ExecSeq, ExecTail, LastShown;
    var r := ExecSeq(s.body, [], ch, fuel);
    var later := ExecTail(s, r.ch, fuel);
    RunsShowLastAll(s.body, [], ch, fuel);
    TailShowsLast(s, r.ch, fuel);
    LastOfOne(BreakNode);
    LastOfJoin(r.trace, later.trace);
    LastOfJoin(r.trace + [ContinueNode], later.trace);
    LastOfJoin(r.trace, [BreakNode]);
  }

  lemma {:induction false} TailShowsLast(s: Stmt, ch: seq<bool>, fuel: nat)
    requires s.DoWhile?
    ensures LastFits(ExecTail(s, ch, fuel), {}, Tries(s), false)
    decreases fuel, s, 0
  {
    hide ExecDoWhile, LastShown;
    if fuel > 0 {
      var d := Decide(s.c, ch);
      LastOfOne(Test(s.c));
      assert [Test(s.c)] + [] == [Test(s.c)];
      if d.Some? && d.value.0 {
        DoWhileShowsLast(s, d.value.1, fuel - 1);
        LastOfJoin([Test(s.c)], ExecDoWhile(s, d.value.1, fuel - 1).trace);
      }
    }
  }

  // ---- What the erasure still shows of a run that fails or does not end ----

  // Of a run that fails, what it shows before the open scopes' deferred runs.
  function Visible(r: Result): seq<Event> {
    if r.outcome.Failed? then Core(r.trace) else r.trace
  }

  lemma VisibleThenRuns(r: Result)
    ensures Visible(r) <= r.trace && forall n :: |Visible(r)| <= n < |r.trace| ==> r.trace[n].Run?
  {
    CoreIsPrefix(r.trace);
    CoreThenRuns(r.trace);
  }

  lemma {:induction false} CoreThenRuns(t: seq<Event>)
    ensures forall n :: |Core(t)| <= n < |t| ==> t[n].Run?
  {
    if t != [] && t[|t| - 1].Run? {
      CoreThenRuns(t[..|t| - 1]);
    }
  }

  // The erasure has a run that begins so.
  lemma {:induction false} Follows(s: Stmt, ch: seq<bool>, fuel: nat) returns (ch2: seq<bool>)
    ensures Visible(Exec(s, ch, fuel)) <= Exec(Erase(s), ch2, fuel).trace
    decreases fuel, s, 2
  {
    ch2 := [];
    match s
    case Block(body) => ch2 := FollowsAll(body, [], ch, fuel);
    case If(_, _, _, _) =>
      ErasedIf(s);
      ch2 := FollowsFrom(s, 0, ch, fuel);
    case While(_, _) => ch2 := FollowsWhile(s, ch, fuel);
    case DoWhile(_, _) => ch2 := FollowsDoWhile(s, ch, fuel);
    case Try(a) => LastOfOne(Act(a));
    case _ =>
  }

  lemma VisibleThen(t: seq<Event>, r: Result)
    ensures Visible(r) <= r.trace
    ensures Visible(Then(t, r)) <= t + Visible(r)
  {
    CoreIsPrefix(r.trace);
    CoreIsPrefix(t);
    CoreOfJoin(t, r.trace);
  }

  lemma {:induction false} FollowsAll(stmts: seq<Stmt>, reg: seq<nat>, ch: seq<bool>, fuel: nat) returns (ch2: seq<bool>)
    ensures Visible(ExecSeq(stmts, reg, ch, fuel)) <= ExecSeq(EraseAll(stmts), reg, ch2, fuel).trace
    decreases fuel, stmts, 0
  {
    hide Exec, Core;
    ch2 := [];
    if stmts != [] {
      var s := stmts[0];
      var r := Exec(s, ch, fuel);
      FirstOf(stmts, true);
      if r.outcome.Fall? {
        var newReg := if s.Defer? then reg + [s.a] else reg;
        var later := FollowsAll(stmts[1..], newReg, r.ch, fuel);
        ch2 := Rerun(s, false, ch, fuel, later);
        VisibleThen(r.trace, ExecSeq(stmts[1..], newReg, r.ch, fuel));
      } else if Done(r.outcome) {
        ch2 := Rerun(s, false, ch, fuel, []);
      } else {
        ch2 := Follows(s, ch, fuel);
        VisibleHead(stmts, reg, ch, fuel);
        HeadIsPrefix(EraseAll(stmts), reg, ch2, fuel);
      }
    }
  }

  lemma HeadIsPrefix(stmts: seq<Stmt>, reg: seq<nat>, ch: seq<bool>, fuel: nat)
    requires stmts != []
    ensures Exec(stmts[0], ch, fuel).trace <= ExecSeq(stmts, reg, ch, fuel).trace
  {
    hide Exec;
  }

  lemma VisibleHead(stmts: seq<Stmt>, reg: seq<nat>, ch: seq<bool>, fuel: nat)
    requires stmts != [] && !Done(Exec(stmts[0], ch, fuel).outcome)
    ensures Visible(ExecSeq(stmts, reg, ch, fuel)) == Visible(Exec(stmts[0], ch, fuel))
  {
    hide Exec, Core;
    CoreOfJoin(Exec(stmts[0], ch, fuel).trace, Runs(reg));
    CoreOfRuns(reg);
  }

  lemma TestFollows(c: Cond, r: Result, r2: Result)
    requires Visible(r) <= r2.trace
    ensures Visible(Then([Test(c)], r)) <= Then([Test(c)], r2).trace
  {
    hide Core, Visible;
    VisibleThen([Test(c)], r);
  }

  lemma {:induction false} FollowsFrom(s: Stmt, i: nat, ch: seq<bool>, fuel: nat) returns (ch2: seq<bool>)
    requires s.If? && i <= s.Count() && Erase(s).If? && Erase(s).Count() == s.Count()
    ensures Visible(ExecIf(s, i, ch, fuel)) <= ExecIf(Erase(s), i, ch2, fuel).trace
    decreases fuel, s, 1, s.Count() - i
  {
    VisibleWhole(Result([], Fall, ch));
    VisibleWhole(Result([], Stuck, ch));
    hide ExecSeq, Erase, EraseAll, Visible;
    ErasedIf(s);
    ch2 := [];
    if i == s.Count() {
      if s.hasElse {
        ch2 := FollowsAll(s.els, [], ch, fuel);
      }
    } else {
      var c, body := s.Nth(i).c, s.Nth(i).body;
      var d := Decide(c, ch);
      if d.None? {
        TestFollows(c, Result([], Stuck, ch), Result([], Stuck, []));
      } else {
        if d.value.0 {
          ch2 := FollowsAll(body, [], d.value.1, fuel);
          TestFollows(c, ExecSeq(body, [], d.value.1, fuel), ExecSeq(EraseAll(body), [], ch2, fuel));
        } else {
          ch2 := FollowsFrom(s, i + 1, d.value.1, fuel);
          TestFollows(c, ExecIf(s, i + 1, d.value.1, fuel), ExecIf(Erase(s), i + 1, ch2, fuel));
        }
        Decides(c, d.value.0, ch2);
        ch2 := Deciding(c, d.value.0, ch2);
      }
    }
  }

  lemma VisibleWhole(r: Result)
    ensures !r.outcome.Failed? ==> Visible(r) == r.trace
  {
  }

  lemma {:induction false} FollowsWhile(s: Stmt, ch: seq<bool>, fuel: nat) returns (ch2: seq<bool>)
    requires s.While?
    ensures Visible(ExecWhile(s, ch, fuel)) <= ExecWhile(Erase(s), ch2, fuel).trace
    decreases fuel, s, 1
  {
    ch2 := [];
    if fuel > 0 {
      WhileUnfolds(s, ch, fuel);
    }
    hide ExecSeq, Core, ExecWhile, WhileRest, EraseAll;
    if fuel > 0 && Decide(s.c, ch).Some? {
      var d := Decide(s.c, ch).value;
      if d.0 {
        ch2 := FollowsRound(s, d.1, fuel);
        VisibleThen([Test(s.c)], WhileRest(s, ExecSeq(s.body, [], d.1, fuel - 1), fuel));
      }
      Decides(s.c, d.0, ch2);
      ch2 := Deciding(s.c, d.0, ch2);
      WhileUnfolds(Erase(s), ch2, fuel);
    }
  }

  lemma {:induction false} FollowsRound(s: Stmt, ch: seq<bool>, fuel: nat) returns (ch2: seq<bool>)
    requires s.While? && fuel > 0
    ensures Visible(WhileRest(s, ExecSeq(s.body, [], ch, fuel - 1), fuel))
         <= WhileRest(Erase(s), ExecSeq(EraseAll(s.body), [], ch2, fuel - 1), fuel).trace
    decreases fuel, s, 0
  {
    hide ExecSeq, Core, ExecWhile;
    var r := ExecSeq(s.body, [], ch, fuel - 1);
    if r.outcome.Fall? || r.outcome.Continued? {
      var later := FollowsWhile(s, r.ch, fuel - 1);
      ch2 := RerunSeq(s.body, [], false, ch, fuel - 1, later);
      VisibleThen(r.trace, ExecWhile(s, r.ch, fuel - 1));
      VisibleThen(r.trace + [ContinueNode], ExecWhile(s, r.ch, fuel - 1));
    } else if Done(r.outcome) {
      ch2 := RerunSeq(s.body, [], false, ch, fuel - 1, []);
    } else {
      ch2 := FollowsAll(s.body, [], ch, fuel - 1);
    }
  }

  lemma {:induction false} FollowsDoWhile(s: Stmt, ch: seq<bool>, fuel: nat) returns (ch2: seq<bool>)
    requires s.DoWhile?
    ensures Visible(ExecDoWhile(s, ch, fuel)) <= ExecDoWhile(Erase(s), ch2, fuel).trace
    decreases fuel, s, 1
  {
    hide ExecSeq, ExecTail, Core;
    var r := ExecSeq(s.body, [], ch, fuel);
    if r.outcome.Fall? || r.outcome.Continued? {
      var later := FollowsTail(s, r.ch, fuel);
      ch2 := RerunSeq(s.body, [], false, ch, fuel, later);
      VisibleThen(r.trace, ExecTail(s, r.ch, fuel));
      VisibleThen(r.trace + [ContinueNode], ExecTail(s, r.ch, fuel));
    } else if Done(r.outcome) {
      ch2 := RerunSeq(s.body, [], false, ch, fuel, []);
    } else {
      ch2 := FollowsAll(s.body, [], ch, fuel);
    }
  }

  lemma {:induction false} FollowsTail(s: Stmt, ch: seq<bool>, fuel: nat) returns (ch2: seq<bool>)
    requires s.DoWhile?
    ensures Visible(ExecTail(s, ch, fuel)) <= ExecTail(Erase(s), ch2, fuel).trace
    decreases fuel, s, 0
  {
    hide ExecDoWhile, Core;
    ch2 := [];
    if fuel > 0 && Decide(s.c, ch).Some? {
      var d := Decide(s.c, ch).value;
      if d.0 {
        ch2 := FollowsDoWhile(s, d.1, fuel - 1);
        VisibleThen([Test(s.c)], ExecDoWhile(s, d.1, fuel - 1));
      }
      Decides(s.c, d.0, ch2);
      ch2 := Deciding(s.c, d.0, ch2);
    }
  }

  // ---- Reaching a way to end ----

  function Most(a: nat, b: nat): nat {
    if a < b then b else a
  }

  // Loop rounds that reach every statement.
  function Depth(s: Stmt): nat
    decreases s, 1
  {
    match s
    case Block(body) => DepthAll(body)
    case If(_, _, _, _) => DepthFrom(s, 0)
    case While(_, body) => 1 + DepthAll(body)
    case DoWhile(body, _) => 1 + DepthAll(body)
    case _ => 0
  }

  function DepthAll(stmts: seq<Stmt>): nat
    decreases stmts, 0
  {
    if stmts == [] then 0 else Most(Depth(stmts[0]), DepthAll(stmts[1..]))
  }

  function DepthFrom(s: Stmt, i: nat): nat
    requires s.If? && i <= s.Count()
    decreases s, 0, s.Count() - i
  {
    if i == s.Count() then DepthAll(s.els) else Most(DepthAll(s.Nth(i).body), DepthFrom(s, i + 1))
  }

  lemma {:induction false} EndIsReached(s: Stmt, o: Outcome, fuel: nat, rest: seq<bool>) returns (ch: seq<bool>)
    requires Ends(s, o) && fuel >= Depth(s)
    ensures var r := Exec(s, ch, fuel); r.outcome == o && r.ch == rest
    decreases fuel, s, 2
  {
    ch := rest;
    match s
    case Try(_) => ch := [o == Fall] + rest;
    case Block(body) => ch := EndIsReachedAll(body, [], o, fuel, rest);
    case If(_, _, _, _) => ch := EndIsReachedFrom(s, 0, o, fuel, rest);
    case While(_, _) => ch := WhileEndIsReached(s, o, fuel, rest);
    case DoWhile(_, _) => ch := DoWhileEndIsReached(s, o, fuel, rest);
    case _ =>
  }

  lemma {:induction false} EndIsReachedAll(stmts: seq<Stmt>, reg: seq<nat>, o: Outcome, fuel: nat, rest: seq<bool>)
      returns (ch: seq<bool>)
    requires EndsAll(stmts, o) && fuel >= DepthAll(stmts)
    ensures var r := ExecSeq(stmts, reg, ch, fuel); r.outcome == o && r.ch == rest
    decreases fuel, stmts, 0
  {
    hide Exec;
    ch := rest;
    if stmts != [] {
      var s := stmts[0];
      if o != Fall && Ends(s, o) {
        ch := EndIsReached(s, o, fuel, rest);
        EndsOtherwise(s, o);
      } else {
        var newReg := if s.Defer? then reg + [s.a] else reg;
        var later := EndIsReachedAll(stmts[1..], newReg, o, fuel, rest);
        ch := EndIsReached(s, Fall, fuel, later);
      }
    }
  }

  lemma {:induction false} EndsOtherwise(s: Stmt, o: Outcome)
    ensures Ends(s, o) ==> Complete(o)
    decreases s, 1
  {
    match s
    case Block(body) => EndsOtherwiseAll(body, o);
    case If(_, _, _, _) => EndsOtherwiseFrom(s, 0, o);
    case _ =>
  }

  lemma {:induction false} EndsOtherwiseAll(stmts: seq<Stmt>, o: Outcome)
    ensures EndsAll(stmts, o) ==> Complete(o)
    decreases stmts, 0
  {
    if stmts != [] {
      EndsOtherwise(stmts[0], o);
      EndsOtherwiseAll(stmts[1..], o);
    }
  }

  lemma {:induction false} EndsOtherwiseFrom(s: Stmt, i: nat, o: Outcome)
    requires s.If? && i <= s.Count()
    ensures EndsFrom(s, i, o) ==> Complete(o)
    decreases s, 0, s.Count() - i
  {
    if i == s.Count() {
      EndsOtherwiseAll(s.els, o);
    } else {
      EndsOtherwiseAll(s.Nth(i).body, o);
      EndsOtherwiseFrom(s, i + 1, o);
    }
  }

  lemma {:induction false} EndIsReachedFrom(s: Stmt, i: nat, o: Outcome, fuel: nat, rest: seq<bool>) returns (ch: seq<bool>)
    requires s.If? && i <= s.Count() && EndsFrom(s, i, o) && fuel >= DepthFrom(s, i)
    ensures var r := ExecIf(s, i, ch, fuel); r.outcome == o && r.ch == rest
    decreases fuel, s, 1, s.Count() - i
  {
    hide ExecSeq;
    if i == s.Count() {
      ch := rest;
      if s.hasElse {
        ch := EndIsReachedAll(s.els, [], o, fuel, rest);
      }
    } else {
      var c := s.Nth(i).c;
      var yes := EndsAll(s.Nth(i).body, o);
      if yes {
        ch := EndIsReachedAll(s.Nth(i).body, [], o, fuel, rest);
      } else {
        ch := EndIsReachedFrom(s, i + 1, o, fuel, rest);
      }
      Decides(c, yes, ch);
      ch := Deciding(c, yes, ch);
    }
  }

  lemma {:induction false} WhileEndIsReached(s: Stmt, o: Outcome, fuel: nat, rest: seq<bool>) returns (ch: seq<bool>)
    requires s.While? && Ends(s, o) && fuel >= Depth(s)
    ensures var r := ExecWhile(s, ch, fuel); r.outcome == o && r.ch == rest
    decreases fuel, s, 1
  {
    hide ExecSeq;
    if o == Fall && !s.c.always {
      ch := [false] + rest;
    } else {
      ch := EndIsReachedAll(s.body, [], if o == Fall then Broke else o, fuel - 1, rest);
      Decides(s.c, true, ch);
      ch := Deciding(s.c, true, ch);
    }
  }

  lemma {:induction false} DoWhileEndIsReached(s: Stmt, o: Outcome, fuel: nat, rest: seq<bool>) returns (ch: seq<bool>)
    requires s.DoWhile? && Ends(s, o) && fuel >= Depth(s)
    ensures var r := ExecDoWhile(s, ch, fuel); r.outcome == o && r.ch == rest
    decreases fuel, s, 1
  {
    hide ExecSeq;
    if o != Fall {
      ch := EndIsReachedAll(s.body, [], o, fuel, rest);
    } else if EndsAll(s.body, Broke) {
      ch := EndIsReachedAll(s.body, [], Broke, fuel, rest);
    } else {
      ch := EndIsReachedAll(s.body, [], if EndsAll(s.body, Fall) then Fall else Continued, fuel, [false] + rest);
    }
  }

  // ---- A `try` not at the end ----

  lemma {:induction false} TailActsAreNodes(s: Stmt)
    ensures forall a :: a in TailActs(s) ==> Act(a) in Nodes(s)
    decreases s, 1
  {
    match s
    case Block(body) => TailActsAllAreNodes(body);
    case If(_, _, _, _) => TailActsFromAreNodes(s, 0);
    case _ =>
  }

  lemma {:induction false} TailActsAllAreNodes(stmts: seq<Stmt>)
    ensures forall a :: a in TailActsAll(stmts) ==> Act(a) in NodesAll(stmts)
    decreases stmts, 0
  {
    if stmts != [] {
      TailActsAreNodes(stmts[0]);
      TailActsAllAreNodes(stmts[1..]);
    }
  }

  lemma {:induction false} TailActsFromAreNodes(s: Stmt, i: nat)
    requires s.If? && i <= s.Count()
    ensures forall a :: a in TailActsFrom(s, i) ==> Act(a) in NodesFrom(s, i)
    decreases s, 0, s.Count() - i
  {
    if i == s.Count() {
      TailActsAllAreNodes(s.els);
    } else {
      TailActsAllAreNodes(s.Nth(i).body);
      TailActsFromAreNodes(s, i + 1);
    }
  }

  // A failing run that shows last what no run to the end does.
  predicate Escapes(r: Result, nodes: set<Event>, tail: set<nat>) {
    var last := LastShown(r.trace);
    r.outcome == Failed && last.Some? && last.value.Act? && last.value in nodes && last.value.a !in tail
  }

  lemma {:induction false} EarlyTryEscapes(s: Stmt, fuel: nat) returns (ch: seq<bool>)
    requires !TriesAtEnd(s) && Distinct(s) && fuel >= Depth(s)
    ensures Escapes(Exec(s, ch, fuel), Nodes(s), TailActs(s))
    decreases s, 1
  {
    match s
    case Block(body) => ch := EarlyTryEscapesAll(body, [], fuel);
    case If(_, _, _, _) => ch := EarlyTryEscapesFrom(s, 0, fuel);
    case _ =>
      ch := EndIsReached(s, Failed, fuel, []);
      RunsShowLast(s, ch, fuel);
  }

  lemma {:induction false} EarlyTryEscapesAll(stmts: seq<Stmt>, reg: seq<nat>, fuel: nat) returns (ch: seq<bool>)
    requires !TriesAtEndAll(stmts) && DistinctAll(stmts) && fuel >= DepthAll(stmts)
    ensures Escapes(ExecSeq(stmts, reg, ch, fuel), NodesAll(stmts), TailActsAll(stmts))
    decreases stmts, 0
  {
    hide Exec, LastShown, Ends, TriesAtEnd, Silent, Nodes, TailActs, Distinct, Depth;
    var s, later := stmts[0], stmts[1..];
    TailActsAreNodes(s);
    TailActsAllAreNodes(later);
    LastOfRuns(reg);
    if SilentAll(later) && !TriesAtEnd(s) {
      ch := EarlyTryEscapes(s, fuel);
      LastOfJoin(Exec(s, ch, fuel).trace, Runs(reg));
      SilentShowsNothing(later);
    } else if !SilentAll(later) && Ends(s, Failed) {
      ch := EndIsReached(s, Failed, fuel, []);
      RunsShowLast(s, ch, fuel);
      LastOfJoin(Exec(s, ch, fuel).trace, Runs(reg));
    } else {
      var newReg := if s.Defer? then reg + [s.a] else reg;
      var inner := EarlyTryEscapesAll(later, newReg, fuel);
      ch := EndIsReached(s, Fall, fuel, inner);
      LastOfJoin(Exec(s, ch, fuel).trace, ExecSeq(later, newReg, inner, fuel).trace);
    }
  }

  lemma {:induction false} SilentShowsNothing(stmts: seq<Stmt>)
    requires SilentAll(stmts)
    ensures TailActsAll(stmts) == {}
    decreases stmts
  {
    if stmts != [] {
      SilentShowsNothing(stmts[0].body);
      SilentShowsNothing(stmts[1..]);
    }
  }

  lemma {:induction false} EarlyTryEscapesFrom(s: Stmt, i: nat, fuel: nat) returns (ch: seq<bool>)
    requires s.If? && i <= s.Count() && !TriesAtEndFrom(s, i) && DistinctFrom(s, i) && fuel >= DepthFrom(s, i)
    ensures Escapes(ExecIf(s, i, ch, fuel), NodesFrom(s, i), TailActsFrom(s, i))
    decreases s, 0, s.Count() - i
  {
    hide ExecSeq, LastShown;
    if i == s.Count() {
      ch := EarlyTryEscapesAll(s.els, [], fuel);
    } else {
      var c := s.Nth(i).c;
      var yes := !TriesAtEndAll(s.Nth(i).body);
      TailActsAllAreNodes(s.Nth(i).body);
      TailActsFromAreNodes(s, i + 1);
      if yes {
        ch := EarlyTryEscapesAll(s.Nth(i).body, [], fuel);
        LastOfJoin([Test(c)], ExecSeq(s.Nth(i).body, [], ch, fuel).trace);
      } else {
        ch := EarlyTryEscapesFrom(s, i + 1, fuel);
        LastOfJoin([Test(c)], ExecIf(s, i + 1, ch, fuel).trace);
      }
      Decides(c, yes, ch);
      ch := Deciding(c, yes, ch);
    }
  }
}
