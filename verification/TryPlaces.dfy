// Where a `try` stands: whether what is pending there would, on success, run
// before anything else happens, as it does on failure.
module TryPlaces {
  import opened Options
  import opened Structured
  import opened EarlyReturns
  import opened DeferOrder
  import opened DeferPlaces
  import opened DeferStacks
  import opened Quiet

  const ALL: set<Outcome> := {Fall, Broke, Continued, Returned}

  // What is pending runs next if a statement that does `h` comes next and the
  // ways out in `good` will do.
  predicate Suits(h: Hush, good: set<Outcome>) {
    h.Over? && h.o in good
  }

  // The ways out of a block's first statement, and of a loop's body, that will
  // do; `pend` tells if anything is pending.
  function GoodFirst(rest: seq<Stmt>, pend: bool, good: set<Outcome>): set<Outcome> {
    set o | o in ALL && (!pend || Suits(if o == Fall then HushAll(rest) else Over(o), good))
  }

  function GoodRound(s: Stmt, pend: bool, good: set<Outcome>): set<Outcome>
    requires s.While? || s.DoWhile?
  {
    set o | o in ALL && (!pend || Suits(AfterBody(s, o), good))
  }

  // A loop after its body has ended in `o`.
  function AfterBody(s: Stmt, o: Outcome): Hush
    requires s.While? || s.DoWhile?
  {
    match o
    case Broke => Over(Fall)
    case Returned => Over(Returned)
    case _ => if s.c.always then HushOf(s) else Talks(Test(s.c))
  }

  // The `try` statements control can reach with something pending that would
  // not run next on success.
  function Restless(s: Stmt, pend: bool, good: set<Outcome>): (r: set<nat>)
    ensures r <= Tries(s)
    decreases s, 1
  {
    match s
    case Try(a) => if pend && Fall !in good then {a} else {}
    case Block(body) => RestlessAll(body, pend, good)
    case If(_, _, _, _) => RestlessFrom(s, 0, pend, good)
    case While(_, body) => RestlessAll(body, pend, GoodRound(s, pend, good))
    case DoWhile(body, _) => RestlessAll(body, pend, GoodRound(s, pend, good))
    case _ => {}
  }

  function RestlessAll(stmts: seq<Stmt>, pend: bool, good: set<Outcome>): (r: set<nat>)
    ensures r <= TriesAll(stmts)
    decreases stmts, 0
  {
    if stmts == [] then {}
    else
      Restless(stmts[0], pend, GoodFirst(stmts[1..], pend, good))
      + if Ends(stmts[0], Fall) then RestlessAll(stmts[1..], pend || stmts[0].Defer?, good) else {}
  }

  function RestlessFrom(s: Stmt, i: nat, pend: bool, good: set<Outcome>): (r: set<nat>)
    requires s.If? && i <= s.Count()
    ensures r <= TriesFrom(s, i)
    decreases s, 0, s.Count() - i
  {
    if i == s.Count() then if s.hasElse then RestlessAll(s.els, pend, good) else {}
    else
      RestlessAll(s.Nth(i).body, pend, good)
      + if s.Nth(i).c.always then {} else RestlessFrom(s, i + 1, pend, good)
  }

  predicate TriesSettle(body: seq<Stmt>) {
    RestlessAll(body, false, ALL) == {}
  }

  // ---- What runs do ----

  predicate Hushed(t: seq<Event>) {
    forall e :: e in t ==> Mute(e) || e.Run?
  }

  // From `stack`, `r` empties it before anything reads or writes, or ends
  // before, in a way of `good`.
  ghost predicate Quits(r: Result, stack: seq<nat>, good: set<Outcome>) {
    || (exists m: nat :: m <= |r.trace| && Empties(r.trace, m, stack))
    || (Hushed(r.trace) && r.outcome in good)
  }

  predicate Empties(t: seq<Event>, m: nat, stack: seq<nat>)
    requires m <= |t|
  {
    Hushed(t[..m]) && Unstack(t[..m], stack) == Some([])
  }

  // So after its event `n`.
  ghost predicate Settles(r: Result, n: nat, stack: seq<nat>, good: set<Outcome>)
    requires n < |r.trace|
  {
    var now := Unstack(r.trace[..n + 1], stack);
    now.Some? && Quits(r.(trace := r.trace[n + 1..]), now.value, good)
  }

  lemma {:induction false} HushedPops(t: seq<Event>, stack: seq<nat>)
    requires Hushed(t) && Unstack(t, stack).Some?
    ensures Unstack(t, stack).value <= stack
    decreases |t|
  {
    if t != [] {
      assert t[0] in t;
      HushedPops(t[1..], if t[0].Run? then stack[..|stack| - 1] else stack);
    }
  }

  lemma {:induction false} MutedPopsNothing(t: seq<Event>, stack: seq<nat>)
    requires Muted(t)
    ensures Unstack(t, stack) == Some(stack)
    decreases |t|
  {
    if t != [] {
      assert t[0] in t;
      MutedPopsNothing(t[1..], stack);
    }
  }

  // A run followed by another: `good1` are the ways out of the first that let
  // the second quit.
  lemma QuitsFollowed(r: Result, w: Result, all: Result, stack: seq<nat>, mid: seq<nat>, good1: set<Outcome>, good: set<Outcome>)
    requires all.trace == r.trace + w.trace && all.outcome == w.outcome && Unstack(r.trace, stack) == Some(mid)
    requires r.outcome in good1 <==> Quits(w, mid, good)
    ensures Quits(all, stack, good) <==> Quits(r, stack, good1)
  {
    hide Unstack;
    var n := |r.trace|;
    forall m: nat | m <= n
      ensures all.trace[..m] == r.trace[..m]
    {
    }
    assert r.trace[..n] == r.trace;
    forall m: nat | n <= m <= |all.trace|
      ensures Empties(all.trace, m, stack) <==> Hushed(r.trace) && Empties(w.trace, m - n, mid)
    {
      EmptiesLater(r.trace, w.trace, m, stack, mid);
    }
    if Quits(w, mid, good) && (exists m: nat :: m <= |w.trace| && Empties(w.trace, m, mid)) && Hushed(r.trace) {
      var m: nat :| m <= |w.trace| && Empties(w.trace, m, mid);
      assert Empties(all.trace, n + m, stack);
    }
    if m: nat :| m <= |all.trace| && Empties(all.trace, m, stack) {
      if m > n {
        assert Empties(w.trace, m - n, mid);
      } else {
        assert Empties(r.trace, m, stack);
      }
    }
    if m: nat :| m <= n && Empties(r.trace, m, stack) {
      assert Empties(all.trace, m, stack);
    }
  }

  lemma EmptiesLater(t: seq<Event>, u: seq<Event>, m: nat, stack: seq<nat>, mid: seq<nat>)
    requires |t| <= m <= |t + u| && Unstack(t, stack) == Some(mid)
    ensures Empties(t + u, m, stack) <==> Hushed(t) && Empties(u, m - |t|, mid)
  {
    hide Unstack;
    var v := u[..m - |t|];
    assert (t + u)[..m] == t + v;
    UnstackJoin(t, v, stack);
    assert Hushed(t + v) <==> Hushed(t) && Hushed(v) by {
      assert forall e :: e in t + v <==> e in t || e in v;
    }
  }

  lemma SettlesFollowed(r: Result, w: Result, all: Result, n: nat, stack: seq<nat>, good1: set<Outcome>, good: set<Outcome>)
    requires n < |r.trace| && all.trace == r.trace + w.trace && all.outcome == w.outcome
    requires Unstack(r.trace, stack) == Some(stack) && (r.outcome in good1 <==> Quits(w, stack, good))
    ensures Settles(all, n, stack, good) <==> Settles(r, n, stack, good1)
  {
    hide Unstack, Quits;
    var was, later := r.trace[..n + 1], r.trace[n + 1..];
    assert r.trace == was + later && all.trace[..n + 1] == was && all.trace[n + 1..] == later + w.trace;
    UnstackJoin(was, later, stack);
    QuitsFollowed(r.(trace := later), w, all.(trace := all.trace[n + 1..]), Unstack(was, stack).value, stack, good1, good);
  }

  lemma SettlesLater(t: seq<Event>, r: Result, all: Result, n: nat, stack: seq<nat>, mid: seq<nat>, good: set<Outcome>)
    requires n < |r.trace| && all.trace == t + r.trace && all.outcome == r.outcome && Unstack(t, stack) == Some(mid)
    ensures Settles(all, |t| + n, stack, good) <==> Settles(r, n, mid, good)
  {
    hide Unstack, Quits;
    assert all.trace[..|t| + n + 1] == t + r.trace[..n + 1];
    assert all.trace[|t| + n + 1..] == r.trace[n + 1..];
    UnstackJoin(t, r.trace[..n + 1], stack);
    QuitsAnyway(r.(trace := r.trace[n + 1..]), all.(trace := all.trace[|t| + n + 1..]));
  }

  // After a condition, what was at `n` is one earlier.
  lemma SettlesAfterTest(c: Cond, r: Result, n: nat, a: nat, stack: seq<nat>, good: set<Outcome>)
    requires Passes(Then([Test(c)], r), n, a)
    ensures n > 0 && Passes(r, n - 1, a) && r.trace[n - 1] in r.trace
    ensures Settles(Then([Test(c)], r), n, stack, good) <==> Settles(r, n - 1, stack, good)
  {
    hide Unstack, Settles;
    OneUnstacks(Test(c), stack);
    SettlesLater([Test(c)], r, Then([Test(c)], r), n - 1, stack, stack, good);
  }

  // The decisions left do not matter.
  lemma QuitsAnyway(r: Result, r2: Result)
    requires r.trace == r2.trace && r.outcome == r2.outcome
    ensures forall stack, good :: Quits(r, stack, good) <==> Quits(r2, stack, good)
  {
  }

  // A run that cannot go on, and one whose way out is good either way.
  lemma SettlesSame(r: Result, r2: Result, n: nat, stack: seq<nat>, good1: set<Outcome>, good: set<Outcome>)
    requires n < |r.trace| && r.trace == r2.trace && r.outcome == r2.outcome
    requires r.outcome in good1 <==> r.outcome in good
    ensures Settles(r2, n, stack, good) <==> Settles(r, n, stack, good1)
  {
    hide Unstack;
  }

  // Ways out of a context in which `stack` is pending.
  predicate Covers(stack: seq<nat>, good: set<Outcome>) {
    good <= ALL && (stack == [] ==> good == ALL)
  }

  // What comes next if it does `h` and then runs `reg`.
  lemma QuitsObeys(w: Result, h: Hush, outer: seq<nat>, reg: seq<nat>, ch: seq<bool>, good: set<Outcome>)
    requires Obeys(w, h, Runs(reg), ch, true) && Covers(outer, good)
    requires (h.Talks? ==> !Mute(h.e) && !h.e.Run?) && (h.Over? ==> Done(h.o))
    ensures Quits(w, outer + reg, good) <==> outer + reg == [] || Suits(h, good)
  {
    hide Unstack;
    var stack := outer + reg;
    if stack == [] {
      assert w.trace[..0] == [];
      MutedPopsNothing(w.trace[..0], stack);
      assert Empties(w.trace, 0, stack);
    } else {
      match h
      case Talks(e) => TalkDoesNotQuit(w.trace, e, stack);
      case Hangs => StillDoesNotQuit(w.trace, stack);
      case Over(o) =>
        var u :| Muted(u) && w.trace == u + Runs(reg);
        OverQuits(u, reg, outer);
    }
  }

  lemma StillDoesNotQuit(t: seq<Event>, stack: seq<nat>)
    requires Still(t) && stack != []
    ensures forall m: nat :: m <= |t| ==> !Empties(t, m, stack)
  {
    hide Unstack;
    forall m: nat | m <= |t|
      ensures !Empties(t, m, stack)
    {
      assert forall e :: e in t[..m] ==> e in t;
      StillStacks(t[..m], stack);
    }
  }

  lemma TalkDoesNotQuit(t: seq<Event>, e: Event, stack: seq<nat>)
    requires Says(t, e) && !Mute(e) && !e.Run? && stack != []
    ensures !Hushed(t) && forall m: nat :: m <= |t| ==> !Empties(t, m, stack)
  {
    hide Unstack;
    var n :| 0 <= n < |t| && t[n] == e && Still(t[..n]);
    assert t[n] in t;
    forall m: nat | m <= |t|
      ensures !Empties(t, m, stack)
    {
      if m > n {
        assert t[..m][n] == e;
      } else {
        assert t[..m] == t[..n][..m];
        StillDoesNotQuit(t[..n], stack);
        assert !Empties(t[..n], m, stack);
      }
    }
  }

  lemma OverQuits(u: seq<Event>, reg: seq<nat>, outer: seq<nat>)
    requires Muted(u)
    ensures var t := u + Runs(reg); Hushed(t) && (outer != [] ==> forall m: nat :: m <= |t| ==> !Empties(t, m, outer + reg))
  {
    hide Unstack;
    var t, stack := u + Runs(reg), outer + reg;
    RunsNotRegistered(reg);
    MutedPopsNothing(u, stack);
    RunsUnstack(reg, outer);
    UnstackJoin(u, Runs(reg), stack);
    forall m: nat | m <= |t|
      ensures Empties(t, m, stack) ==> outer == []
    {
      assert t == t[..m] + t[m..];
      UnstackJoin(t[..m], t[m..], stack);
      if Empties(t, m, stack) {
        assert forall e :: e in t[m..] ==> e in t;
        HushedPops(t[m..], []);
      }
    }
  }

  // ---- The places that settle are those the shape tells ----

  // The run passes `a` at `n`, succeeds there and does not stop there.
  predicate Passes(r: Result, n: nat, a: nat) {
    n < |r.trace| && r.trace[n] == Act(a) && r.outcome != Failed && (r.outcome.Stuck? ==> n + 1 < |r.trace|)
  }

  lemma {:induction false} RestlessIsExact(s: Stmt, stack: seq<nat>, ch: seq<bool>, fuel: nat, n: nat, a: nat,
      good: set<Outcome>)
    requires Passes(Exec(s, ch, fuel), n, a) && a in Tries(s) && Distinct(s) && fuel >= Depth(s) + n + 1
    requires Covers(stack, good)
    ensures Settles(Exec(s, ch, fuel), n, stack, good) <==> a !in Restless(s, stack != [], good)
    decreases fuel, s, 2
  {
    hide ExecSeq, ExecIf, ExecWhile, ExecDoWhile, Unstack, Settles, GoodRound;
    match s
    case Try(_) => TrySettles(s, stack, ch, fuel, good);
    case Block(body) =>
      assert stack + [] == stack;
      RestlessIsExactAll(body, stack, [], ch, fuel, n, a, good);
    case If(_, _, _, _) => RestlessIsExactFrom(s, 0, stack, ch, fuel, n, a, good);
    case While(_, _) => RestlessIsExactWhile(s, stack, ch, fuel, n, a, good);
    case DoWhile(_, _) => RestlessIsExactDoWhile(s, stack, ch, fuel, n, a, good);
    case _ =>
  }

  lemma TrySettles(s: Stmt, stack: seq<nat>, ch: seq<bool>, fuel: nat, good: set<Outcome>)
    requires s.Try? && Exec(s, ch, fuel).outcome.Fall? && Covers(stack, good)
    ensures Settles(Exec(s, ch, fuel), 0, stack, good) <==> stack == [] || Fall in good
  {
    var r := Exec(s, ch, fuel);
    OneUnstacks(Act(s.a), stack);
    assert r.trace[..1] == [Act(s.a)] && r.trace[1..] == [];
    assert r.trace[1..][..0] == [];
    assert stack == [] ==> Empties(r.trace[1..], 0, stack);
  }

  // A `try` of a block is one of the first statement or of the rest.
  lemma StatementOf(stmts: seq<Stmt>, pend: bool, good: set<Outcome>, a: nat)
    requires stmts != [] && DistinctAll(stmts) && a in TriesAll(stmts)
    ensures Distinct(stmts[0]) && DistinctAll(stmts[1..])
    ensures DepthAll(stmts) >= Depth(stmts[0]) && DepthAll(stmts) >= DepthAll(stmts[1..])
    ensures Act(a) in Nodes(stmts[0]) ==>
      && a in Tries(stmts[0]) && a !in TriesAll(stmts[1..])
      && (a in RestlessAll(stmts, pend, good) <==> a in Restless(stmts[0], pend, GoodFirst(stmts[1..], pend, good)))
    ensures Act(a) in NodesAll(stmts[1..]) ==>
      && a in TriesAll(stmts[1..])
      && (Ends(stmts[0], Fall) ==>
           (a in RestlessAll(stmts, pend, good) <==> a in RestlessAll(stmts[1..], pend || stmts[0].Defer?, good)))
  {
  }

  lemma {:induction false} RestlessIsExactAll(stmts: seq<Stmt>, outer: seq<nat>, reg: seq<nat>, ch: seq<bool>, fuel: nat,
      n: nat, a: nat, good: set<Outcome>)
    requires Passes(ExecSeq(stmts, reg, ch, fuel), n, a) && a in TriesAll(stmts) && DistinctAll(stmts)
    requires fuel >= DepthAll(stmts) + n + 1 && Covers(outer, good)
    ensures Settles(ExecSeq(stmts, reg, ch, fuel), n, outer + reg, good) <==> a !in RestlessAll(stmts, outer + reg != [], good)
    decreases fuel, stmts, 1
  {
    NoTries(stmts, a);
    if n < |Exec(stmts[0], ch, fuel).trace| {
      RestlessIsExactHead(stmts, outer, reg, ch, fuel, n, a, good);
    } else {
      RestlessIsExactRest(stmts, outer, reg, ch, fuel, n, a, good);
    }
  }

  lemma {:induction false} RestlessIsExactHead(stmts: seq<Stmt>, outer: seq<nat>, reg: seq<nat>, ch: seq<bool>, fuel: nat,
      n: nat, a: nat, good: set<Outcome>)
    requires stmts != [] && n < |Exec(stmts[0], ch, fuel).trace|
    requires Passes(ExecSeq(stmts, reg, ch, fuel), n, a) && a in TriesAll(stmts) && DistinctAll(stmts)
    requires fuel >= DepthAll(stmts) + n + 1 && Covers(outer, good)
    ensures Settles(ExecSeq(stmts, reg, ch, fuel), n, outer + reg, good) <==> a !in RestlessAll(stmts, outer + reg != [], good)
    decreases fuel, stmts, 0
  {
    hide Exec, ExecSeq, Unstack, Settles, GoodFirst, Restless, RestlessAll, Tries, TriesAll, Distinct, DistinctAll, Depth,
      DepthAll, Nodes, NodesAll, Covers;
    var pend := outer + reg != [];
    StatementOf(stmts, pend, good, a);
    HeadSettles(stmts, outer, reg, ch, fuel, n, a, good);
    RestlessIsExact(stmts[0], outer + reg, ch, fuel, n, a, GoodFirst(stmts[1..], pend, good));
  }

  lemma {:induction false} RestlessIsExactRest(stmts: seq<Stmt>, outer: seq<nat>, reg: seq<nat>, ch: seq<bool>, fuel: nat,
      n: nat, a: nat, good: set<Outcome>)
    requires stmts != [] && n >= |Exec(stmts[0], ch, fuel).trace|
    requires Passes(ExecSeq(stmts, reg, ch, fuel), n, a) && a in TriesAll(stmts) && DistinctAll(stmts)
    requires fuel >= DepthAll(stmts) + n + 1 && Covers(outer, good)
    ensures Settles(ExecSeq(stmts, reg, ch, fuel), n, outer + reg, good) <==> a !in RestlessAll(stmts, outer + reg != [], good)
    decreases fuel, stmts, 0
  {
    hide Exec, ExecSeq, Unstack, Settles, RestlessAll, TriesAll, DistinctAll, DepthAll, Nodes, NodesAll, Ends, Covers;
    var s := stmts[0];
    var r := Exec(s, ch, fuel);
    var newReg := if s.Defer? then reg + [s.a] else reg;
    StatementOf(stmts, outer + reg != [], good, a);
    RestSettles(stmts, outer, reg, ch, fuel, n, a, good);
    RestlessIsExactAll(stmts[1..], outer, newReg, r.ch, fuel, n - |r.trace|, a, good);
  }

  // A `try` after the first statement of a block.
  lemma RestSettles(stmts: seq<Stmt>, outer: seq<nat>, reg: seq<nat>, ch: seq<bool>, fuel: nat, n: nat, a: nat,
      good: set<Outcome>)
    requires stmts != [] && Passes(ExecSeq(stmts, reg, ch, fuel), n, a) && n >= |Exec(stmts[0], ch, fuel).trace|
    ensures var s := stmts[0]; var r := Exec(s, ch, fuel);
      var newReg := if s.Defer? then reg + [s.a] else reg;
      var later := ExecSeq(stmts[1..], newReg, r.ch, fuel); var n2 := n - |r.trace|;
      && Ends(s, Fall) && Passes(later, n2, a) && Act(a) in NodesAll(stmts[1..])
      && (outer + newReg != [] <==> outer + reg != [] || s.Defer?)
      && (Settles(ExecSeq(stmts, reg, ch, fuel), n, outer + reg, good) <==> Settles(later, n2, outer + newReg, good))
  {
    hide Exec, Unstack, Settles, NodesAll;
    var s, rest, stack := stmts[0], stmts[1..], outer + reg;
    var r, all := Exec(s, ch, fuel), ExecSeq(stmts, reg, ch, fuel);
    var newReg := if s.Defer? then reg + [s.a] else reg;
    var later := ExecSeq(rest, newReg, r.ch, fuel);
    var n2: nat := n - |r.trace|;
    LaterPart(stmts, reg, ch, fuel);
    assert later.trace[n2] == Act(a) && later.trace[n2] in later.trace;
    RunsStayWithin(rest, newReg, r.ch, fuel);
    RunsEnd(s, ch, fuel);
    StatementsNest(s, ch, fuel, stack);
    assert outer + newReg == if s.Defer? then stack + [s.a] else stack;
    SettlesLater(r.trace, later, all, n2, stack, outer + newReg, good);
  }

  lemma NoTries(stmts: seq<Stmt>, a: nat)
    requires a in TriesAll(stmts)
    ensures stmts != []
  {
  }

  // A `try` in the first statement of a block.
  lemma HeadSettles(stmts: seq<Stmt>, outer: seq<nat>, reg: seq<nat>, ch: seq<bool>, fuel: nat, n: nat, a: nat,
      good: set<Outcome>)
    requires stmts != [] && Passes(ExecSeq(stmts, reg, ch, fuel), n, a)
    requires n < |Exec(stmts[0], ch, fuel).trace|
    requires fuel >= DepthAll(stmts) && Covers(outer, good)
    ensures var r := Exec(stmts[0], ch, fuel); var good1 := GoodFirst(stmts[1..], outer + reg != [], good);
      && Passes(r, n, a) && Act(a) in Nodes(stmts[0]) && Covers(outer + reg, good1)
      && (Settles(ExecSeq(stmts, reg, ch, fuel), n, outer + reg, good) <==> Settles(r, n, outer + reg, good1))
  {
    hide Exec, Unstack, Settles, HushAll, Obeys, Quits;
    var s, rest, stack := stmts[0], stmts[1..], outer + reg;
    var r, all := Exec(s, ch, fuel), ExecSeq(stmts, reg, ch, fuel);
    var good1 := GoodFirst(rest, stack != [], good);
    assert all.trace[n] == r.trace[n] && r.trace[n] in r.trace;
    StatementStaysWithin(s, ch, fuel);
    NodeOfDefer(s, a);
    StatementsNest(s, ch, fuel, stack);
    if r.outcome.Fall? {
      var w := ExecSeq(rest, reg, r.ch, fuel);
      HushIsObeyedAll(rest, reg, r.ch, fuel);
      Weaker(w, HushAll(rest), Runs(reg), r.ch, fuel >= DepthAll(rest), true);
      TalksOfNodes(rest);
      if HushAll(rest).Over? {
        OverEndsAll(rest, HushAll(rest).o);
      }
      QuitsObeys(w, HushAll(rest), outer, reg, r.ch, good);
      SettlesFollowed(r, w, all, n, stack, good1, good);
    } else if Done(r.outcome) {
      var w := Result(Runs(reg), r.outcome, r.ch);
      EndObeys(reg, r.outcome, r.ch);
      QuitsObeys(w, Over(r.outcome), outer, reg, r.ch, good);
      SettlesFollowed(r, w, all, n, stack, good1, good);
    } else {
      SettlesSame(r, all, n, stack, good1, good);
    }
  }

  lemma EndObeys(reg: seq<nat>, o: Outcome, ch: seq<bool>)
    ensures Obeys(Result(Runs(reg), o, ch), Over(o), Runs(reg), ch, true)
  {
    var none: seq<Event> := [];
    assert Muted(none) && Runs(reg) == none + Runs(reg);
  }

  lemma NodeOfDefer(s: Stmt, a: nat)
    ensures s.Defer? ==> Act(a) !in Nodes(s)
  {
  }

  // A `try` of an if/elseif chain is one of the first branch or of the others.
  lemma BranchOf(s: Stmt, i: nat, pend: bool, good: set<Outcome>, a: nat)
    requires s.If? && i <= s.Count() && DistinctFrom(s, i) && a in TriesFrom(s, i)
    ensures i == s.Count() ==>
      && s.hasElse && DistinctAll(s.els) && a in TriesAll(s.els)
      && (a in RestlessFrom(s, i, pend, good) <==> a in RestlessAll(s.els, pend, good))
    ensures i < s.Count() ==> DistinctAll(s.Nth(i).body) && DistinctFrom(s, i + 1)
    ensures i < s.Count() && Act(a) in NodesAll(s.Nth(i).body) ==>
      a in TriesAll(s.Nth(i).body) && (a in RestlessFrom(s, i, pend, good) <==> a in RestlessAll(s.Nth(i).body, pend, good))
    ensures i < s.Count() && Act(a) in NodesFrom(s, i + 1) && !s.Nth(i).c.always ==>
      a in TriesFrom(s, i + 1) && (a in RestlessFrom(s, i, pend, good) <==> a in RestlessFrom(s, i + 1, pend, good))
  {
  }

  lemma {:induction false} RestlessIsExactFrom(s: Stmt, i: nat, stack: seq<nat>, ch: seq<bool>, fuel: nat, n: nat, a: nat,
      good: set<Outcome>)
    requires s.If? && i <= s.Count()
    requires Passes(ExecIf(s, i, ch, fuel), n, a) && a in TriesFrom(s, i) && DistinctFrom(s, i)
    requires fuel >= DepthFrom(s, i) + n + 1 && Covers(stack, good)
    ensures Settles(ExecIf(s, i, ch, fuel), n, stack, good) <==> a !in RestlessFrom(s, i, stack != [], good)
    decreases fuel, s, 1, s.Count() - i
  {
    hide ExecSeq, Settles, RestlessFrom, RestlessAll, TriesFrom, TriesAll, DistinctFrom, DistinctAll, NodesFrom, NodesAll,
      Covers;
    assert stack + [] == stack;
    BranchOf(s, i, stack != [], good, a);
    if i == s.Count() {
      RestlessIsExactAll(s.els, stack, [], ch, fuel, n, a, good);
    } else {
      var c, body := s.Nth(i).c, s.Nth(i).body;
      var d := Decide(c, ch);
      if d.Some? && d.value.0 {
        SettlesAfterTest(c, ExecSeq(body, [], d.value.1, fuel), n, a, stack, good);
        RunsStayWithin(body, [], d.value.1, fuel);
        RestlessIsExactAll(body, stack, [], d.value.1, fuel, n - 1, a, good);
      } else if d.Some? {
        SettlesAfterTest(c, ExecIf(s, i + 1, d.value.1, fuel), n, a, stack, good);
        BranchesStayWithin(s, i + 1, d.value.1, fuel);
        RestlessIsExactFrom(s, i + 1, stack, d.value.1, fuel, n - 1, a, good);
      }
    }
  }

  // A `try` in the body of a loop that goes on with `w`.
  lemma BodySettles(s: Stmt, r: Result, w: Result, all: Result, n: nat, stack: seq<nat>, ch: seq<bool>, good: set<Outcome>)
    requires (s.While? || s.DoWhile?) && n < |r.trace| && Done(r.outcome) && Unstack(r.trace, stack) == Some(stack)
    requires all.trace == r.trace + w.trace && all.outcome == w.outcome && Obeys(w, AfterBody(s, r.outcome), [], ch, true)
    requires Covers(stack, good)
    ensures Settles(all, n, stack, good) <==> Settles(r, n, stack, GoodRound(s, stack != [], good))
  {
    hide Unstack, Settles, HushOf, Obeys, Quits;
    var h := AfterBody(s, r.outcome);
    TalksOfNode(s);
    if h == HushOf(s) && h.Over? {
      OverEnds(s, h.o);
    }
    assert Runs([]) == [] && stack + [] == stack;
    QuitsObeys(w, h, stack, [], ch, good);
    SettlesFollowed(r, w, all, n, stack, GoodRound(s, stack != [], good), good);
  }

  lemma {:induction false} RestlessIsExactWhile(s: Stmt, stack: seq<nat>, ch: seq<bool>, fuel: nat, n: nat, a: nat,
      good: set<Outcome>)
    requires s.While? && Passes(ExecWhile(s, ch, fuel), n, a) && a in Tries(s) && Distinct(s)
    requires fuel >= Depth(s) + n + 1 && Covers(stack, good)
    ensures Settles(ExecWhile(s, ch, fuel), n, stack, good) <==> a !in Restless(s, stack != [], good)
    decreases fuel, s, 1
  {
    hide ExecSeq, Settles, Restless;
    WhileUnfolds(s, ch, fuel);
    hide ExecWhile, WhileRest;
    var d := Decide(s.c, ch);
    assert d.Some? && d.value.0;
    var r := WhileRest(s, ExecSeq(s.body, [], d.value.1, fuel - 1), fuel);
    SettlesAfterTest(s.c, r, n, a, stack, good);
    RestlessIsExactRound(s, stack, d.value.1, fuel, n - 1, a, good);
  }

  lemma {:induction false} RestlessIsExactRound(s: Stmt, stack: seq<nat>, ch: seq<bool>, fuel: nat, n: nat, a: nat,
      good: set<Outcome>)
    requires s.While? && fuel > Depth(s) + n + 1 && a in Tries(s) && Distinct(s)
    requires Passes(WhileRest(s, ExecSeq(s.body, [], ch, fuel - 1), fuel), n, a)
    requires Covers(stack, good)
    ensures Settles(WhileRest(s, ExecSeq(s.body, [], ch, fuel - 1), fuel), n, stack, good)
            <==> a !in Restless(s, stack != [], good)
    decreases fuel, s, 0
  {
    hide ExecSeq, ExecWhile, Unstack, Settles, Obeys;
    var r := ExecSeq(s.body, [], ch, fuel - 1);
    var all, x := WhileRest(s, r, fuel), ExecWhile(s, r.ch, fuel - 1);
    assert stack + [] == stack;
    BlocksNest(s.body, [], ch, fuel - 1, stack);
    HushIsObeyedWhile(s, r.ch, fuel - 1);
    if n < |r.trace| {
      assert all.trace[n] == r.trace[n];
      RoundSettles(s, r, x, all, n, stack, good);
      RestlessIsExactAll(s.body, stack, [], ch, fuel - 1, n, a, GoodRound(s, stack != [], good));
    } else {
      var shown := if r.outcome.Fall? then r.trace else r.trace + [ContinueNode];
      if r.outcome.Continued? {
        JumpNests(r, ContinueNode, stack);
      }
      assert all == Then(shown, x) && n >= |shown|;
      var n2: nat := n - |shown|;
      assert x.trace == all.trace[|shown|..];
      RestlessIsExactWhile(s, stack, r.ch, fuel - 1, n2, a, good);
      SettlesLater(shown, x, all, n2, stack, stack, good);
    }
  }

  // The body's run `r`; `x` is what the loop does if it goes on.
  lemma RoundSettles(s: Stmt, r: Result, x: Result, all: Result, n: nat, stack: seq<nat>, good: set<Outcome>)
    requires (s.While? || s.DoWhile?) && n < |r.trace| && (Complete(r.outcome) ==> Unstack(r.trace, stack) == Some(stack))
    requires match r.outcome
      case Fall => all == Then(r.trace, x)
      case Continued => all == Then(r.trace + [ContinueNode], x)
      case Broke => all == Result(r.trace + [BreakNode], Fall, r.ch)
      case _ => all == r
    requires r.outcome in {Fall, Continued} ==> Obeys(x, AfterBody(s, Fall), [], r.ch, true)
    requires Covers(stack, good)
    ensures var good1 := GoodRound(s, stack != [], good);
      && Covers(stack, good1)
      && (all.outcome != Failed ==> (Settles(all, n, stack, good) <==> Settles(r, n, stack, good1)))
  {
    hide Unstack, Settles, Obeys, HushOf;
    match r.outcome
    case Fall => BodySettles(s, r, x, all, n, stack, r.ch, good);
    case Continued =>
      ObeysLater([ContinueNode], x, AfterBody(s, Fall), [], r.ch, true);
      BodySettles(s, r, Then([ContinueNode], x), all, n, stack, r.ch, good);
    case Broke =>
      ObeysOver([BreakNode], Fall, r.ch, true);
      BodySettles(s, r, Result([BreakNode], Fall, r.ch), all, n, stack, r.ch, good);
    case Returned =>
      ObeysOver([], Returned, r.ch, true);
      BodySettles(s, r, Result([], Returned, r.ch), all, n, stack, r.ch, good);
    case _ => SettlesSame(r, all, n, stack, GoodRound(s, stack != [], good), good);
  }

  lemma {:induction false} RestlessIsExactDoWhile(s: Stmt, stack: seq<nat>, ch: seq<bool>, fuel: nat, n: nat, a: nat,
      good: set<Outcome>)
    requires s.DoWhile? && Passes(ExecDoWhile(s, ch, fuel), n, a) && a in Tries(s) && Distinct(s)
    requires fuel >= Depth(s) + n + 1 && Covers(stack, good)
    ensures Settles(ExecDoWhile(s, ch, fuel), n, stack, good) <==> a !in Restless(s, stack != [], good)
    decreases fuel, s, 1
  {
    hide ExecSeq, ExecTail, Unstack, Settles, Obeys, HushOf;
    var r := ExecSeq(s.body, [], ch, fuel);
    var all, x := ExecDoWhile(s, ch, fuel), ExecTail(s, r.ch, fuel);
    assert stack + [] == stack;
    BlocksNest(s.body, [], ch, fuel, stack);
    TailObeys(s, r.ch, fuel);
    if n < |r.trace| {
      assert all.trace[n] == r.trace[n];
      RoundSettles(s, r, x, all, n, stack, good);
      RestlessIsExactAll(s.body, stack, [], ch, fuel, n, a, GoodRound(s, stack != [], good));
    } else {
      var shown := if r.outcome.Fall? then r.trace else r.trace + [ContinueNode];
      if r.outcome.Continued? {
        JumpNests(r, ContinueNode, stack);
      }
      assert all == Then(shown, x) && n >= |shown|;
      var n2: nat := n - |shown|;
      assert x.trace == all.trace[|shown|..];
      RestlessIsExactTail(s, stack, r.ch, fuel, n2, a, good);
      SettlesLater(shown, x, all, n2, stack, stack, good);
    }
  }

  lemma TailObeys(s: Stmt, ch: seq<bool>, fuel: nat)
    requires s.DoWhile?
    ensures Obeys(ExecTail(s, ch, fuel), AfterBody(s, Fall), [], ch, fuel > Depth(s))
  {
    hide ExecDoWhile, HushOf, Says;
    if fuel > 0 {
      if s.c.always {
        HushIsObeyedDoWhile(s, ch, fuel - 1);
        ObeysLater([Test(s.c)], ExecDoWhile(s, ch, fuel - 1), HushOf(s), [], ch, fuel > Depth(s));
      } else {
        SaysOne(Test(s.c), ExecTail(s, ch, fuel), ch, fuel > Depth(s));
      }
    }
  }

  lemma {:induction false} RestlessIsExactTail(s: Stmt, stack: seq<nat>, ch: seq<bool>, fuel: nat, n: nat, a: nat,
      good: set<Outcome>)
    requires s.DoWhile? && Passes(ExecTail(s, ch, fuel), n, a) && a in Tries(s) && Distinct(s)
    requires fuel >= Depth(s) + n + 1 && Covers(stack, good)
    ensures Settles(ExecTail(s, ch, fuel), n, stack, good) <==> a !in Restless(s, stack != [], good)
    decreases fuel, s, 0
  {
    hide ExecDoWhile, Settles, Restless;
    var d := Decide(s.c, ch);
    assert d.Some? && d.value.0;
    var r := ExecDoWhile(s, d.value.1, fuel - 1);
    SettlesAfterTest(s.c, r, n, a, stack, good);
    RestlessIsExactDoWhile(s, stack, d.value.1, fuel - 1, n - 1, a, good);
  }

  // ---- Reaching one ----

  predicate FailsAt(r: Result, a: nat) {
    r.outcome == Failed && LastShown(r.trace) == Some(Act(a))
  }

  lemma FailsAtLater(t: seq<Event>, r: Result, a: nat)
    requires FailsAt(r, a)
    ensures FailsAt(Then(t, r), a)
  {
    hide LastShown;
    LastOfJoin(t, r.trace);
  }

  lemma {:induction false} RestlessIsReached(s: Stmt, pend: bool, good: set<Outcome>, a: nat, fuel: nat) returns (ch: seq<bool>)
    requires a in Restless(s, pend, good) && fuel >= Depth(s)
    ensures FailsAt(Exec(s, ch, fuel), a)
    decreases s, 1
  {
    hide FailsAt, ExecSeq, GoodRound;
    match s
    case Try(_) =>
      ch := [false];
      FailsAtOne(a);
      assert ch[1..] == [];
    case Block(body) => ch := RestlessIsReachedAll(body, [], pend, good, a, fuel);
    case If(_, _, _, _) => ch := RestlessIsReachedFrom(s, 0, pend, good, a, fuel);
    case While(c, body) =>
      var inner := RestlessIsReachedAll(body, [], pend, GoodRound(s, pend, good), a, fuel - 1);
      var r := ExecSeq(body, [], inner, fuel - 1);
      FailsAtLater([Test(c)], r, a);
      FailsAtFails(r, a);
      ch := Deciding(c, true, inner);
      Decides(c, true, inner);
      WhileUnfolds(s, ch, fuel);
    case DoWhile(body, _) =>
      ch := RestlessIsReachedAll(body, [], pend, GoodRound(s, pend, good), a, fuel);
      FailsAtFails(ExecSeq(body, [], ch, fuel), a);
  }

  lemma FailsAtOne(a: nat)
    ensures FailsAt(Result([Act(a)], Failed, []), a)
  {
    LastOfOne(Act(a));
  }

  lemma FailsAtFails(r: Result, a: nat)
    requires FailsAt(r, a)
    ensures r.outcome == Failed
  {
  }

  lemma {:induction false} RestlessIsReachedAll(stmts: seq<Stmt>, reg: seq<nat>, pend: bool, good: set<Outcome>, a: nat,
      fuel: nat) returns (ch: seq<bool>)
    requires a in RestlessAll(stmts, pend, good) && fuel >= DepthAll(stmts)
    ensures FailsAt(ExecSeq(stmts, reg, ch, fuel), a)
    decreases stmts, 0
  {
    hide Exec, LastShown, GoodFirst;
    var s, rest := stmts[0], stmts[1..];
    if a in Restless(s, pend, GoodFirst(rest, pend, good)) {
      ch := RestlessIsReached(s, pend, GoodFirst(rest, pend, good), a, fuel);
      LastOfRuns(reg);
      LastOfJoin(Exec(s, ch, fuel).trace, Runs(reg));
    } else {
      var newReg := if s.Defer? then reg + [s.a] else reg;
      var later := RestlessIsReachedAll(rest, newReg, pend || s.Defer?, good, a, fuel);
      ch := EndIsReached(s, Fall, fuel, later);
      FailsAtLater(Exec(s, ch, fuel).trace, ExecSeq(rest, newReg, later, fuel), a);
    }
  }

  lemma {:induction false} RestlessIsReachedFrom(s: Stmt, i: nat, pend: bool, good: set<Outcome>, a: nat, fuel: nat)
      returns (ch: seq<bool>)
    requires s.If? && i <= s.Count() && a in RestlessFrom(s, i, pend, good) && fuel >= DepthFrom(s, i)
    ensures FailsAt(ExecIf(s, i, ch, fuel), a)
    decreases s, 0, s.Count() - i
  {
    hide ExecSeq, FailsAt, RestlessAll, TriesAll, TriesFrom, DepthAll, NodesAll, NodesFrom;
    if i == s.Count() {
      ch := RestlessIsReachedAll(s.els, [], pend, good, a, fuel);
    } else {
      var c, body := s.Nth(i).c, s.Nth(i).body;
      var yes := a in RestlessAll(body, pend, good);
      if yes {
        ch := RestlessIsReachedAll(body, [], pend, good, a, fuel);
        FailsAtLater([Test(c)], ExecSeq(body, [], ch, fuel), a);
      } else {
        ch := RestlessIsReachedFrom(s, i + 1, pend, good, a, fuel);
        FailsAtLater([Test(c)], ExecIf(s, i + 1, ch, fuel), a);
      }
      Decides(c, yes, ch);
      ch := Deciding(c, yes, ch);
    }
  }

  // ---- Quietly to the bottom of the stack ----

  // Between `n` and `k`, only what is pending at `n` happens.
  predicate OnlyPending(t: seq<Event>, n: nat, k: nat, stack: seq<nat>) {
    && n < k < |t| && stack != [] && t[k] == Run(stack[0])
    && forall j :: n < j < k ==> Mute(t[j]) || t[j].Registered? || (t[j].Run? && t[j].a in stack)
  }

  // The next deferred run from `z` on.
  lemma {:induction false} NextRun(t: seq<Event>, z: nat, k: nat) returns (y: nat)
    requires z <= k < |t| && t[k].Run? && forall j :: z <= j < k ==> Mute(t[j]) || t[j].Run?
    ensures z <= y <= k && t[y].Run? && Muted(t[z..y])
    decreases k - z
  {
    if t[z].Run? {
      y := z;
      assert t[z..z] == [];
    } else {
      y := NextRun(t, z + 1, k);
      assert t[z..y] == [t[z]] + t[z + 1..y];
    }
  }

  // The last `defer` passed in between would run at once, and is pending.
  lemma NoDeferPassed(body: seq<Stmt>, ch: seq<bool>, fuel: nat, n: nat, k: nat, z: nat)
    requires DistinctAll(body)
    requires var t := ExecSeq(body, [], ch, fuel).trace;
      && n < z < k < |t| && t[n].Act? && Unstack(t[..n], []).Some? && OnlyPending(t, n, k, Unstack(t[..n], []).value)
      && forall j :: z < j < k ==> !t[j].Registered?
    ensures !ExecSeq(body, [], ch, fuel).trace[z].Registered?
  {
    hide ExecSeq, Unstack, HushAll;
    var t := ExecSeq(body, [], ch, fuel).trace;
    var stack := Unstack(t[..n], []).value;
    if t[z].Registered? {
      RunsNest(body, ch, fuel);
      var y := NextRun(t, z + 1, k);
      StackBefore(t, z);
      var below := Unstack(t[..z], []).value;
      MutedKeepsStack(t, z, y, below);
      StackBefore(t, y + 1);
      StackStep(t, y);
      var left := Unstack(t[..y + 1], []).value;
      assert below + [t[z].a] == left + [t[y].a];
      assert (below + [t[z].a])[|below|] == (left + [t[y].a])[|left|];
      var j :| 0 <= j < |stack| && stack[j] == t[z].a;
      RunsAtOnce(body, ch, fuel, z, y);
      PendingIsLate(body, ch, fuel, n, j);
    }
  }

  lemma {:induction false} NoDefersPassed(body: seq<Stmt>, ch: seq<bool>, fuel: nat, n: nat, k: nat, z: nat)
    requires DistinctAll(body)
    requires var t := ExecSeq(body, [], ch, fuel).trace;
      && n < z <= k < |t| && t[n].Act? && Unstack(t[..n], []).Some? && OnlyPending(t, n, k, Unstack(t[..n], []).value)
    ensures forall j :: z <= j < k ==> !ExecSeq(body, [], ch, fuel).trace[j].Registered?
    decreases k - z
  {
    hide ExecSeq, Unstack;
    if z < k {
      NoDefersPassed(body, ch, fuel, n, k, z + 1);
      NoDeferPassed(body, ch, fuel, n, k, z);
    }
  }

  lemma QuietRunSettles(body: seq<Stmt>, ch: seq<bool>, fuel: nat, n: nat, k: nat)
    requires DistinctAll(body)
    requires var t := ExecSeq(body, [], ch, fuel).trace;
      && n < k < |t| && t[n].Act? && Unstack(t[..n], []).Some? && OnlyPending(t, n, k, Unstack(t[..n], []).value)
    ensures Settles(ExecSeq(body, [], ch, fuel), n, [], ALL)
  {
    hide ExecSeq, Unstack;
    var t := ExecSeq(body, [], ch, fuel).trace;
    var stack := Unstack(t[..n], []).value;
    NoDefersPassed(body, ch, fuel, n, k, n + 1);
    RunsNest(body, ch, fuel);
    StackBefore(t, n + 1);
    StackStep(t, n);
    var was, later := t[..n + 1], t[n + 1..];
    var quiet := t[n + 1..k];
    assert t[..k] == was + quiet;
    StackBefore(t, k);
    UnstackJoin(was, quiet, []);
    assert Hushed(quiet);
    HushedPops(quiet, stack);
    StackBefore(t, k + 1);
    StackStep(t, k);
    var left := Unstack(t[..k], []).value;
    if |left| > 1 {
      assert left[|left| - 1] == stack[|left| - 1];
      PendingOnce(body, ch, fuel, n, 0, |left| - 1);
    }
    assert Unstack(t[..k + 1], []) == Some([]);
    assert t[..k + 1] == was + later[..k - n];
    UnstackJoin(was, later[..k - n], []);
    assert later[..k - n] == quiet + [t[k]];
    assert Empties(later, k - n, stack);
  }
}
