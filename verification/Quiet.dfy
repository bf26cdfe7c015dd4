// What a statement does if nothing in it reads or writes: such a run needs no
// decision, so there is one way it can go.
module Quiet {
  import opened Options
  import opened Structured
  import opened EarlyReturns

  // Talks: the event that comes first of those that are not mute. A `defer`
  // counts if its block can end and so run it.
  datatype Hush = Talks(e: Event) | Hangs | Over(o: Outcome)

  predicate CanEnd(stmts: seq<Stmt>) {
    || EndsAll(stmts, Fall) || EndsAll(stmts, Broke) || EndsAll(stmts, Continued)
    || EndsAll(stmts, Returned) || EndsAll(stmts, Failed)
  }

  function HushOf(s: Stmt): Hush
    decreases s, 1
  {
    match s
    case Simple(a) => Talks(Act(a))
    case Try(a) => Talks(Act(a))
    case Defer(_) => Over(Fall)   // HushAll looks at these
    case Block(body) => HushAll(body)
    case If(first, _, _, _) => if first.c.always then HushAll(first.body) else Talks(Test(first.c))
    case While(c, body) => if c.always then HushOfLoop(HushAll(body), Hangs) else Talks(Test(c))
    case DoWhile(body, c) => HushOfLoop(HushAll(body), if c.always then Hangs else Talks(Test(c)))
    case Return(value) => if value.Some? then Talks(Leave(value)) else Over(Returned)
    case Break => Over(Broke)
    case Continue => Over(Continued)
  }

  // A loop whose body is so; `again` is what the next test does.
  function HushOfLoop(body: Hush, again: Hush): Hush {
    match body
    case Over(o) => if o == Broke then Over(Fall) else if o == Fall || o == Continued then again else body
    case _ => body
  }

  function HushAll(stmts: seq<Stmt>): Hush
    decreases stmts, 0
  {
    if stmts == [] then Over(Fall)
    else if stmts[0].Defer? then if CanEnd(stmts[1..]) then Talks(Registered(stmts[0].a)) else HushAll(stmts[1..])
    else if HushOf(stmts[0]) == Over(Fall) then HushAll(stmts[1..])
    else HushOf(stmts[0])
  }

  // What the event stands for when it happens: a deferred statement happens
  // where it runs.
  function Happens(e: Event): Event {
    if e.Registered? then Run(e.a) else e
  }

  // ---- What the shape tells ----

  lemma {:induction false} OverEnds(s: Stmt, o: Outcome)
    requires HushOf(s) == Over(o)
    ensures Done(o) && Ends(s, o)
    decreases s, 1
  {
    match s
    case Block(body) => OverEndsAll(body, o);
    case If(first, _, _, _) => OverEndsAll(first.body, o);
    case While(_, body) => OverEndsAll(body, HushAll(body).o);
    case DoWhile(body, _) => OverEndsAll(body, HushAll(body).o);
    case _ =>
  }

  lemma {:induction false} OverEndsAll(stmts: seq<Stmt>, o: Outcome)
    requires HushAll(stmts) == Over(o)
    ensures Done(o) && EndsAll(stmts, o)
    decreases stmts, 0
  {
    if stmts != [] {
      if stmts[0].Defer? {
        OverEndsAll(stmts[1..], o);
      } else if HushOf(stmts[0]) == Over(Fall) {
        OverEnds(stmts[0], Fall);
        OverEndsAll(stmts[1..], o);
      } else {
        OverEnds(stmts[0], o);
      }
    }
  }

  lemma {:induction false} TalksOfNode(s: Stmt)
    ensures HushOf(s).Talks? ==> HushOf(s).e in Nodes(s) && !Mute(HushOf(s).e) && !HushOf(s).e.Run?
    decreases s, 1
  {
    match s
    case Block(body) => TalksOfNodes(body);
    case If(first, _, _, _) =>
      TalksOfNodes(first.body);
      assert s.Nth(0) == first;
    case While(_, body) => TalksOfNodes(body);
    case DoWhile(body, _) => TalksOfNodes(body);
    case _ =>
  }

  lemma {:induction false} TalksOfNodes(stmts: seq<Stmt>)
    ensures HushAll(stmts).Talks? ==> HushAll(stmts).e in NodesAll(stmts) && !Mute(HushAll(stmts).e) && !HushAll(stmts).e.Run?
    decreases stmts, 0
  {
    if stmts != [] {
      TalksOfNode(stmts[0]);
      TalksOfNodes(stmts[1..]);
    }
  }

  // ---- What runs do ----

  // Nothing that reads, writes or runs a deferred statement.
  predicate Still(t: seq<Event>) {
    forall e :: e in t ==> Mute(e) || e.Registered?
  }

  predicate Muted(t: seq<Event>) {
    forall e :: e in t ==> Mute(e)
  }

  predicate Says(t: seq<Event>, e: Event) {
    exists n :: 0 <= n < |t| && t[n] == e && Still(t[..n])
  }

  lemma SaysLater(t: seq<Event>, u: seq<Event>, v: seq<Event>, e: Event)
    requires Still(t) && Says(u, e)
    ensures Says(t + u + v, e)
  {
    var n :| 0 <= n < |u| && u[n] == e && Still(u[..n]);
    var all := t + u + v;
    assert all[|t| + n] == e && all[..|t| + n] == t + u[..n];
  }

  // The run `r` on decisions `ch`, with the deferred runs `last` at its end;
  // with too few loop rounds it may stop on the way.
  ghost predicate Obeys(r: Result, h: Hush, last: seq<Event>, ch: seq<bool>, enough: bool) {
    || (!enough && r.outcome.OutOfFuel? && Still(r.trace))
    || match h
       case Talks(e) => Says(r.trace, e)
       case Hangs => r.outcome.OutOfFuel? && Still(r.trace)
       case Over(o) => r.outcome == o && r.ch == ch && exists t :: Muted(t) && r.trace == t + last
  }

  lemma ObeysLater(t: seq<Event>, r: Result, h: Hush, last: seq<Event>, ch: seq<bool>, enough: bool)
    requires Still(t) && (h.Over? ==> Muted(t)) && Obeys(r, h, last, ch, enough)
    ensures Obeys(Then(t, r), h, last, ch, enough)
  {
    if !(!enough && r.outcome.OutOfFuel? && Still(r.trace)) {
      match h
      case Talks(e) =>
        SaysLater(t, r.trace, [], e);
        assert t + r.trace + [] == t + r.trace;
      case Hangs =>
      case Over(o) =>
        var u :| Muted(u) && r.trace == u + last;
        assert Muted(t + u) && t + (u + last) == (t + u) + last;
    }
  }

  lemma ObeysEnd(r: Result, h: Hush, more: seq<Event>, ch: seq<bool>, enough: bool)
    requires Obeys(r, h, [], ch, enough) && Complete(r.outcome)
    ensures Obeys(r.(trace := r.trace + more), h, more, ch, enough)
  {
    match h
    case Talks(e) =>
      SaysLater([], r.trace, more, e);
      assert [] + r.trace + more == r.trace + more;
    case Hangs =>
    case Over(o) =>
      var u :| Muted(u) && r.trace == u + [];
      assert r.trace == u;
  }

  lemma ObeysStill(r: Result, o: Outcome, ch: seq<bool>, enough: bool)
    requires Obeys(r, Over(o), [], ch, enough)
    ensures Still(r.trace) && ((r.outcome == o && r.ch == ch && Muted(r.trace)) || (!enough && r.outcome.OutOfFuel?))
  {
    if !(!enough && r.outcome.OutOfFuel? && Still(r.trace)) {
      var u :| Muted(u) && r.trace == u + [];
      assert r.trace == u;
    }
  }

  lemma ObeysOver(t: seq<Event>, o: Outcome, ch: seq<bool>, enough: bool)
    requires Muted(t)
    ensures Obeys(Result(t, o, ch), Over(o), [], ch, enough)
  {
    assert t == t + [];
  }

  lemma {:induction false} HushIsObeyed(s: Stmt, ch: seq<bool>, fuel: nat)
    requires !s.Defer?
    ensures Obeys(Exec(s, ch, fuel), HushOf(s), [], ch, fuel >= Depth(s))
    decreases fuel, s, 2
  {
    hide Obeys;
    match s
    case Block(body) => HushIsObeyedAll(body, [], ch, fuel);
    case If(_, _, _, _) => HushIsObeyedIf(s, ch, fuel);
    case While(_, _) => HushIsObeyedWhile(s, ch, fuel);
    case DoWhile(_, _) => HushIsObeyedDoWhile(s, ch, fuel);
    case Simple(a) => SaysOne(Act(a), Exec(s, ch, fuel), ch, fuel >= Depth(s));
    case Try(a) => SaysOne(Act(a), Exec(s, ch, fuel), ch, fuel >= Depth(s));
    case Return(value) =>
      if value.Some? {
        SaysOne(Leave(value), Exec(s, ch, fuel), ch, fuel >= Depth(s));
      } else {
        ObeysOver([Leave(value)], Returned, ch, fuel >= Depth(s));
      }
    case Break => ObeysOver([], Broke, ch, fuel >= Depth(s));
    case Continue => ObeysOver([], Continued, ch, fuel >= Depth(s));
  }

  lemma SaysOne(e: Event, r: Result, ch: seq<bool>, enough: bool)
    requires r.trace != [] && r.trace[0] == e
    ensures Obeys(r, Talks(e), [], ch, enough)
  {
    assert r.trace[..0] == [];
  }

  // A part that talks or does not end decides for the whole.
  lemma ObeysCut(r: Result, h: Hush, all: Result, h2: Hush, last: seq<Event>, ch: seq<bool>, enough: bool)
    requires Obeys(r, h, [], ch, enough) && r.trace <= all.trace && (r.outcome.OutOfFuel? ==> all == r)
    requires if h.Over? then Done(h.o) && r.outcome.OutOfFuel? else h2 == h
    ensures Obeys(all, h2, last, ch, enough)
  {
    if !(!enough && r.outcome.OutOfFuel? && Still(r.trace)) && h.Talks? {
      var more := all.trace[|r.trace|..];
      assert [] + r.trace + more == all.trace;
      SaysLater([], r.trace, more, h.e);
    }
  }

  // Fewer rounds may be enough for a part.
  lemma Weaker(r: Result, h: Hush, last: seq<Event>, ch: seq<bool>, enough: bool, all: bool)
    requires Obeys(r, h, last, ch, enough) && (all ==> enough)
    ensures Obeys(r, h, last, ch, all)
  {
  }

  lemma {:induction false} HushIsObeyedAll(stmts: seq<Stmt>, reg: seq<nat>, ch: seq<bool>, fuel: nat)
    ensures Obeys(ExecSeq(stmts, reg, ch, fuel), HushAll(stmts), Runs(reg), ch, fuel >= DepthAll(stmts))
    decreases fuel, stmts, 0
  {
    hide Exec, Obeys;
    var enough := fuel >= DepthAll(stmts);
    if stmts == [] {
      ObeysOver([], Fall, ch, enough);
      ObeysEnd(Result([], Fall, ch), Over(Fall), Runs(reg), ch, enough);
      assert [] + Runs(reg) == Runs(reg);
    } else if stmts[0].Defer? {
      DeferIsObeyed(stmts, reg, ch, fuel);
    } else {
      var s, rest := stmts[0], stmts[1..];
      var r := Exec(s, ch, fuel);
      HushIsObeyed(s, ch, fuel);
      Weaker(r, HushOf(s), [], ch, fuel >= Depth(s), enough);
      if r.outcome.Fall? && HushOf(s) == Over(Fall) {
        ObeysStill(r, Fall, ch, enough);
        HushIsObeyedAll(rest, reg, ch, fuel);
        Weaker(ExecSeq(rest, reg, ch, fuel), HushAll(rest), Runs(reg), ch, fuel >= DepthAll(rest), enough);
        ObeysLater(r.trace, ExecSeq(rest, reg, ch, fuel), HushAll(rest), Runs(reg), ch, enough);
      } else {
        HeadIsObeyed(stmts, reg, ch, fuel, enough);
      }
    }
  }

  lemma HeadIsObeyed(stmts: seq<Stmt>, reg: seq<nat>, ch: seq<bool>, fuel: nat, enough: bool)
    requires stmts != [] && !stmts[0].Defer?
    requires var r := Exec(stmts[0], ch, fuel); var h := HushOf(stmts[0]);
      Obeys(r, h, [], ch, enough) && !(r.outcome.Fall? && h == Over(Fall))
    ensures Obeys(ExecSeq(stmts, reg, ch, fuel), HushAll(stmts), Runs(reg), ch, enough)
  {
    hide Exec, Obeys;
    var r, h := Exec(stmts[0], ch, fuel), HushOf(stmts[0]);
    if h.Over? {
      OverEnds(stmts[0], h.o);
      ObeysStill(r, h.o, ch, enough);
    }
    if h.Over? && !r.outcome.OutOfFuel? {
      ObeysEnd(r, h, Runs(reg), ch, enough);
    } else {
      ObeysCut(r, h, ExecSeq(stmts, reg, ch, fuel), HushAll(stmts), Runs(reg), ch, enough);
    }
  }

  lemma {:induction false} DeferIsObeyed(stmts: seq<Stmt>, reg: seq<nat>, ch: seq<bool>, fuel: nat)
    requires stmts != [] && stmts[0].Defer?
    ensures Obeys(ExecSeq(stmts, reg, ch, fuel), HushAll(stmts), Runs(reg), ch, fuel >= DepthAll(stmts))
    decreases fuel, stmts[1..], 1
  {
    var a, rest := stmts[0].a, stmts[1..];
    var r := ExecSeq(rest, reg + [a], ch, fuel);
    var enough := fuel >= DepthAll(stmts);
    assert Exec(stmts[0], ch, fuel) == Result([Registered(a)], Fall, ch);
    assert ([Registered(a)] + r.trace)[0] == Registered(a);
    if CanEnd(rest) {
      SaysOne(Registered(a), ExecSeq(stmts, reg, ch, fuel), ch, enough);
    } else {
      HushIsObeyedAll(rest, reg + [a], ch, fuel);
      if HushAll(rest).Over? {
        OverEndsAll(rest, HushAll(rest).o);
      }
      ObeysLater([Registered(a)], r, HushAll(rest), Runs(reg), ch, enough);
    }
  }

  lemma {:induction false} HushIsObeyedIf(s: Stmt, ch: seq<bool>, fuel: nat)
    requires s.If?
    ensures Obeys(ExecIf(s, 0, ch, fuel), HushOf(s), [], ch, fuel >= Depth(s))
    decreases fuel, s, 1
  {
    hide ExecSeq, Obeys;
    var c := s.first.c;
    assert s.Nth(0) == s.first;
    if c.always {
      var r := ExecSeq(s.first.body, [], ch, fuel);
      HushIsObeyedAll(s.first.body, [], ch, fuel);
      Weaker(r, HushAll(s.first.body), [], ch, fuel >= DepthAll(s.first.body), fuel >= Depth(s));
      ObeysLater([Test(c)], r, HushAll(s.first.body), [], ch, fuel >= Depth(s));
    } else {
      SaysOne(Test(c), ExecIf(s, 0, ch, fuel), ch, fuel >= Depth(s));
    }
  }

  lemma {:induction false} HushIsObeyedWhile(s: Stmt, ch: seq<bool>, fuel: nat)
    requires s.While?
    ensures Obeys(ExecWhile(s, ch, fuel), HushOf(s), [], ch, fuel >= Depth(s))
    decreases fuel, s, 1
  {
    hide ExecSeq;
    if fuel > 0 {
      WhileUnfolds(s, ch, fuel);
      hide ExecWhile, WhileRest, Obeys;
      if s.c.always {
        RoundIsObeyed(s, ch, fuel);
        var r := WhileRest(s, ExecSeq(s.body, [], ch, fuel - 1), fuel);
        ObeysLater([Test(s.c)], r, HushOf(s), [], ch, fuel >= Depth(s));
      } else {
        SaysOne(Test(s.c), ExecWhile(s, ch, fuel), ch, fuel >= Depth(s));
      }
    }
  }

  lemma {:induction false} RoundIsObeyed(s: Stmt, ch: seq<bool>, fuel: nat)
    requires s.While? && s.c.always && fuel > 0
    ensures Obeys(WhileRest(s, ExecSeq(s.body, [], ch, fuel - 1), fuel), HushOf(s), [], ch, fuel >= Depth(s))
    decreases fuel, s, 0
  {
    hide ExecSeq, ExecWhile, Obeys;
    var r, h := ExecSeq(s.body, [], ch, fuel - 1), HushAll(s.body);
    var all, enough := WhileRest(s, r, fuel), fuel >= Depth(s);
    HushIsObeyedAll(s.body, [], ch, fuel - 1);
    if h.Over? {
      OverEndsAll(s.body, h.o);
      ObeysStill(r, h.o, ch, enough);
    }
    if h.Over? && !r.outcome.OutOfFuel? {
      if h.o == Fall || h.o == Continued {
        var shown := if h.o == Fall then r.trace else r.trace + [ContinueNode];
        HushIsObeyedWhile(s, ch, fuel - 1);
        HangsAnyway(ExecWhile(s, ch, fuel - 1), ch, fuel - 1 >= Depth(s), enough);
        ObeysLater(shown, ExecWhile(s, ch, fuel - 1), Hangs, [], ch, enough);
      } else {
        ObeysOver(all.trace, all.outcome, ch, enough);
      }
    } else {
      ObeysCut(r, h, all, HushOf(s), [], ch, enough);
    }
  }

  lemma HangsAnyway(r: Result, ch: seq<bool>, a: bool, b: bool)
    requires Obeys(r, Hangs, [], ch, a)
    ensures Obeys(r, Hangs, [], ch, b)
  {
  }

  lemma {:induction false} HushIsObeyedDoWhile(s: Stmt, ch: seq<bool>, fuel: nat)
    requires s.DoWhile?
    ensures Obeys(ExecDoWhile(s, ch, fuel), HushOf(s), [], ch, fuel >= Depth(s))
    decreases fuel, s, 1
  {
    hide ExecSeq, ExecTail, Obeys;
    var r, h := ExecSeq(s.body, [], ch, fuel), HushAll(s.body);
    var all, enough := ExecDoWhile(s, ch, fuel), fuel >= Depth(s);
    HushIsObeyedAll(s.body, [], ch, fuel);
    Weaker(r, h, [], ch, fuel >= DepthAll(s.body), enough);
    if h.Over? {
      OverEndsAll(s.body, h.o);
      ObeysStill(r, h.o, ch, enough);
    }
    if h.Over? && !r.outcome.OutOfFuel? {
      if h.o == Fall || h.o == Continued {
        var shown := if h.o == Fall then r.trace else r.trace + [ContinueNode];
        TailIsObeyed(s, ch, fuel);
        ObeysLater(shown, ExecTail(s, ch, fuel), HushOf(s), [], ch, enough);
      } else {
        ObeysOver(all.trace, all.outcome, ch, enough);
      }
    } else {
      ObeysCut(r, h, all, HushOf(s), [], ch, enough);
    }
  }

  lemma {:induction false} TailIsObeyed(s: Stmt, ch: seq<bool>, fuel: nat)
    requires s.DoWhile? && HushAll(s.body) in {Over(Fall), Over(Continued)}
    ensures Obeys(ExecTail(s, ch, fuel), HushOf(s), [], ch, fuel >= Depth(s))
    decreases fuel, s, 0
  {
    hide ExecDoWhile, Says;
    if fuel > 0 {
      if s.c.always {
        HushIsObeyedDoWhile(s, ch, fuel - 1);
        ObeysLater([Test(s.c)], ExecDoWhile(s, ch, fuel - 1), Hangs, [], ch, fuel >= Depth(s));
      } else {
        SaysOne(Test(s.c), ExecTail(s, ch, fuel), ch, fuel >= Depth(s));
      }
    }
  }
}
