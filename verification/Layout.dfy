// Code under construction: what a finished region of it will do, however the
// rest is built.
module Layout {
  import opened Options
  import opened Structured
  import opened BlockMachine

  // A defer joins the innermost scope's list.
  function Register(scopes: seq<seq<nat>>, s: Stmt): seq<seq<nat>>
    requires s.Defer? ==> scopes != []
  {
    if s.Defer? then scopes[..|scopes| - 1] + [scopes[|scopes| - 1] + [s.a]] else scopes
  }

  // `final` can still come out of `now` if only blocks outside the region
  // {b} + [n, |now|) change, and its open blocks grow at their ends.
  ghost predicate Keeps(b: nat, n: nat, now: Code, open: set<nat>, final: Code) {
    && |now| <= |final|
    && forall k: nat :: k < |now| && (k == b || n <= k) ==>
         if k in open then now[k].items <= final[k].items else final[k] == now[k]
  }

  function Opens(current: Option<nat>): set<nat> {
    if current.Some? then {current.value} else {}
  }

  function PlaceOf(now: Code, current: Option<nat>): Place
    requires current.Some? ==> current.value < |now|
  {
    if current.Some? then Some((current.value, |now[current.value].items|)) else None
  }

  // However construction goes on, the region from (b, at) to the insert point
  // performs `s`.
  ghost predicate Laid(x: Context, s: Stmt, b: nat, at: nat, n: nat, now: Code, current: Option<nat>)
    requires current.Some? ==> current.value < |now|
  {
    forall final: Code :: Keeps(b, n, now, Opens(current), final) ==> StmtOk(final, x, s, b, at, PlaceOf(now, current))
  }

  ghost predicate LaidSeq(x: Context, stmts: seq<Stmt>, b: nat, at: nat, n: nat, now: Code, current: Option<nat>)
    requires current.Some? ==> current.value < |now|
  {
    forall final: Code :: Keeps(b, n, now, Opens(current), final) ==> SeqOk(final, x, stmts, [], b, at, PlaceOf(now, current))
  }

  // What a step from `b` may touch: `b` itself, and new blocks.
  ghost predicate Extends(before: Code, b: nat, after: Code) {
    && |before| <= |after|
    && (forall k: nat :: k < |before| && k != b ==> after[k] == before[k])
    && (b < |before| ==> before[b].items <= after[b].items)
  }

  lemma ExtendsLonger(before: Code, b: nat, after: Code)
    requires Extends(before, b, after)
    ensures |before| <= |after|
  {
  }

  lemma ExtendsOthers(before: Code, b: nat, after: Code, others: set<nat>)
    requires Extends(before, b, after) && b !in others
    requires forall k :: k in others ==> k < |before|
    ensures |before| <= |after| && forall k :: k in others ==> after[k] == before[k]
  {
  }

  lemma ExtendsSame(code: Code, b: nat)
    ensures Extends(code, b, code)
  {
  }

  lemma ExtendsMore(before: Code, b: nat)
    ensures Extends(before, b, before + [Node([], [])])
  {
  }

  lemma ExtendsAt(before: Code, b: nat, node: Node)
    requires b < |before| && before[b].items <= node.items
    ensures Extends(before, b, before[b := node])
  {
  }

  lemma ExtendsFurther(before: Code, b: nat, mid: Code, c: nat, after: Code)
    requires Extends(before, b, mid) && Extends(mid, c, after)
    requires c == b || |before| <= c
    ensures Extends(before, b, after) && |mid| <= |after|
  {
  }

  lemma LoopExtends(was: Code, b: nat, head: Code, body: nat, late: Code, now: Code)
    requires |was| <= |head| && (forall k: nat :: k < |was| && k != b ==> head[k] == was[k])
    requires b < |was| && was[b].items <= head[b].items
    requires |was| <= body && Extends(head, body, late)
    requires |now| == |late| && forall k: nat :: k < |was| ==> now[k] == late[k]
    ensures Extends(was, b, now)
  {
  }

  // An if chain built up to branch `i`: what is left decides the rest.
  ghost predicate IfSoFar(x: Context, s: Stmt, i: nat, b: nat, at: nat, n: nat, now: Code, cond: nat, merge: nat,
      terminates: bool)
    requires s.If? && i <= s.Count() && cond < |now|
  {
    forall final: Code, end: Place {:trigger IfOk(final, x, s, 0, b, at, end)} ::
      && Keeps(b, n, now, {cond, merge}, final)
      && (end == Some((merge, 0)) || (terminates && end.None?))
      && IfOk(final, x, s, i, cond, |now[cond].items|, end)
      ==> IfOk(final, x, s, 0, b, at, end)
  }

  // A block built up to statement `i`.
  ghost predicate SeqSoFar(x: Context, stmts: seq<Stmt>, i: nat, reg: seq<nat>, b: nat, at: nat, n: nat, now: Code,
      current: Option<nat>)
    requires i <= |stmts| && (current.Some? ==> current.value < |now|)
  {
    forall final: Code, end: Place {:trigger SeqOk(final, x, stmts, [], b, at, end)} ::
      && Keeps(b, n, now, Opens(current), final)
      && (current.Some? ==> SeqOk(final, x, stmts[i..], reg, current.value, |now[current.value].items|, end))
      ==> SeqOk(final, x, stmts, [], b, at, end)
  }

  // ---- The region each visit lays down ----

  lemma LaidSimple(x: Context, s: Stmt, e: Event, b: nat, was: Code, now: Code)
    requires (s.Simple? && e == Act(s.a)) || (s.Defer? && e == Registered(s.a))
    requires b < |was| && now == was[b := Node(was[b].items + View(x.actions, [e]), was[b].succs)]
    ensures Laid(x, s, b, |was[b].items|, |was|, now, Some(b))
  {
    var at, to := |was[b].items|, |now[b].items|;
    forall final: Code | Keeps(b, |was|, now, {b}, final)
      ensures StmtOk(final, x, s, b, at, Some((b, to)))
    {
      assert final[b].items[at..to] == now[b].items[at..to];
      SimpleOk(final, x, s, e, b, at, to);
    }
  }

  lemma UnwindInnermost(scopes: seq<seq<nat>>)
    requires scopes != []
    ensures Unwind(scopes, |scopes| - 1) == Runs(scopes[|scopes| - 1])
  {
    assert Runs(scopes[|scopes| - 1]) + [] == Runs(scopes[|scopes| - 1]);
  }

  lemma BlockLaid(x: Context, s: Stmt, b: nat, at: nat, n: nat, now: Code, current: Option<nat>)
    requires s.Block? && (current.Some? ==> current.value < |now|)
    requires LaidSeq(x, s.body, b, at, n, now, current)
    ensures Laid(x, s, b, at, n, now, current)
  {
    hide Sim, ExecSeq;
    forall final: Code | Keeps(b, n, now, Opens(current), final)
      ensures StmtOk(final, x, s, b, at, PlaceOf(now, current))
    {
      assert SeqOk(final, x, s.body, [], b, at, PlaceOf(now, current));
      forall ch, fuel: nat
        ensures Sim(final, x, Config(b, at, ch), PlaceOf(now, current), Exec(s, ch, fuel), fuel)
      {
        assert Exec(s, ch, fuel) == ExecSeq(s.body, [], ch, fuel);
      }
    }
  }

  // What a jump out shows on its way, and where it goes.
  function LeavingTrace(x: Context, s: Stmt): seq<Event>
    requires s.Return? || s.Break? || s.Continue?
  {
    match s
    case Return(value) => [Leave(value)] + Unwind(x.frames, 0)
    case Break => Unwind(x.frames, x.depth) + [BreakNode]
    case _ => Unwind(x.frames, x.depth) + [ContinueNode]
  }

  function LeavingTarget(x: Context, s: Stmt): Option<nat> {
    match s
    case Return(_) => Some(x.exit)
    case Break => x.brk
    case _ => x.cont
  }

  lemma JumpLaid(x: Context, s: Stmt, b: nat, was: Code, now: Code, end: Option<nat>)
    requires s.Return? || s.Break? || s.Continue?
    requires LeavingTarget(x, s).Some? && b < |was| && |was| <= |now|
    requires end.Some? ==> |was| <= end.value < |now|
    requires now[b] == Node(was[b].items + View(x.actions, LeavingTrace(x, s)), [LeavingTarget(x, s).value])
    ensures Laid(x, s, b, |was[b].items|, |was|, now, end)
  {
    hide Sim, View, Unwind;
    var at := |was[b].items|;
    forall final: Code | Keeps(b, |was|, now, Opens(end), final)
      ensures StmtOk(final, x, s, b, at, PlaceOf(now, end))
    {
      assert final[b] == now[b];
      assert final[b].items[at..] == View(x.actions, LeavingTrace(x, s));
      match s
      case Return(_) => ReturnOk(final, x, s, b, at, PlaceOf(now, end));
      case Break => BreakOk(final, x, s, b, at, PlaceOf(now, end));
      case Continue => ContinueOk(final, x, s, b, at, PlaceOf(now, end));
    }
  }

  lemma TryLaid(x: Context, s: Stmt, b: nat, was: Code, now: Code, ok: nat, fail: nat)
    requires s.Try? && b < |was| <= |now| && {ok, fail} == {|was|, |was| + 1} && |now| == |was| + 2
    requires now[b] == Node(was[b].items + [Act(s.a)], [ok, fail])
    requires now[ok] == Node([], []) && now[fail] == Node(Unwind(x.frames, 0), [x.exit])
    ensures Laid(x, s, b, |was[b].items|, |was|, now, Some(ok))
  {
    hide StmtOk, Unwind;
    forall final: Code | Keeps(b, |was|, now, {ok}, final)
      ensures StmtOk(final, x, s, b, |was[b].items|, Some((ok, 0)))
    {
      assert final[b] == now[b] && final[fail] == now[fail];
      assert final[b].items[|was[b].items|..] == [Act(s.a)];
      TryOk(final, x, s, b, |was[b].items|, ok, fail);
    }
  }

  // A whole function: where its body ends normally it goes to the exit.
  lemma TopLaid(x: Context, stmts: seq<Stmt>, b: nat, n: nat, late: Code, cur: Option<nat>, exit: nat, now: Code)
    requires cur.Some? ==> cur.value < |late| && (cur.value == b || n <= cur.value)
    requires LaidSeq(x, stmts, b, 0, n, late, cur)
    requires if cur.Some? then now == late[cur.value := Node(late[cur.value].items, [exit])] else now == late
    ensures SeqOk(now, x, stmts, [], b, 0, Some((exit, 0)))
  {
    hide SeqOk;
    ArmLaid(x, stmts, b, n, late, cur, exit, now);
    assert Keeps(b, n, now, {}, now);
    if cur.None? {
      SeqEndsAnywhere(now, x, stmts, [], b, 0, Some((exit, 0)));
    }
  }

  lemma SeqSoFarBegins(x: Context, stmts: seq<Stmt>, b: nat, n: nat, now: Code)
    requires b < |now|
    ensures SeqSoFar(x, stmts, 0, [], b, |now[b].items|, n, now, Some(b))
  {
    assert stmts[0..] == stmts;
  }

  lemma SeqSoFarStep(x: Context, stmts: seq<Stmt>, i: nat, reg: seq<nat>, b: nat, at: nat, n: nat, was: Code,
      cur: nat, now: Code, current: Option<nat>)
    requires i < |stmts| && cur < |was| && (current.Some? ==> current.value < |now|) && x.depth <= |x.frames|
    requires cur == b || n <= cur
    requires n <= |was|
    requires SeqSoFar(x, stmts, i, reg, b, at, n, was, Some(cur))
    requires Extends(was, cur, now)
    requires current.Some? ==> current.value == cur || |was| <= current.value
    requires Laid(Inside(x, reg), stmts[i], cur, |was[cur].items|, |was|, now, current)
    requires stmts[i].Defer? ==> current.Some? && current.value == cur && now[cur].items == was[cur].items + View(x.actions, [Registered(stmts[i].a)])
    ensures SeqSoFar(x, stmts, i + 1, if stmts[i].Defer? then reg + [stmts[i].a] else reg, b, at, n, now, current)
  {
    hide SeqOk, StmtOk;
    var s := stmts[i];
    var newReg := if s.Defer? then reg + [s.a] else reg;
    var from := |was[cur].items|;
    forall final: Code, end: Place | Keeps(b, n, now, Opens(current), final)
      && (current.Some? ==> SeqOk(final, x, stmts[i + 1..], newReg, current.value, |now[current.value].items|, end))
      ensures SeqOk(final, x, stmts, [], b, at, end)
    {
      assert stmts[i..][0] == s && stmts[i..][1..] == stmts[i + 1..];
      assert Keeps(b, n, was, {cur}, final);
      if s.Defer? {
        var to := |now[cur].items|;
        assert final[cur].items[from..to] == now[cur].items[from..to];
        SeqDefer(final, x, stmts[i..], reg, cur, from, to, end);
      } else {
        assert Keeps(cur, |was|, now, Opens(current), final);
        SeqStep(final, x, stmts[i..], reg, cur, from, PlaceOf(now, current), end);
      }
    }
  }

  // Where control reaches the end of a block, its registered defers follow.
  lemma SeqSoFarEnds(x: Context, stmts: seq<Stmt>, reg: seq<nat>, b: nat, at: nat, n: nat, was: Code, now: Code,
      current: Option<nat>)
    requires current.Some? ==> current.value < |was|
    requires current.Some? ==> now == was[current.value := Node(was[current.value].items + Runs(reg), [])]
    requires current.None? ==> now == was
    requires current.Some? ==> current.value == b || n <= current.value
    requires SeqSoFar(x, stmts, |stmts|, reg, b, at, n, was, current)
    ensures LaidSeq(x, stmts, b, at, n, now, current)
  {
    hide SeqOk;
    forall final: Code | Keeps(b, n, now, Opens(current), final)
      ensures SeqOk(final, x, stmts, [], b, at, PlaceOf(now, current))
    {
      assert Keeps(b, n, was, Opens(current), final);
      assert stmts[|stmts|..] == [];
      if current.Some? {
        var from, to := |was[current.value].items|, |now[current.value].items|;
        assert current.value == b || n <= current.value;
        assert final[current.value].items[from..to] == now[current.value].items[from..to];
        SeqEnd(final, x, reg, current.value, from, to);
      }
    }
  }

  lemma TestsSame(code: Code, final: Code, cond: nat, c: Cond, yes: nat, no: nat)
    requires TestsAt(code, cond, 0, c, yes, no)
    requires cond < |final| && final[cond] == code[cond]
    ensures TestsAt(final, cond, 0, c, yes, no)
  {
  }

  lemma LoopRuns(code: Code, x: Context, s: Stmt, b: nat, at: nat, cond: nat, body: nat, after: nat)
    requires s.While? || s.DoWhile?
    requires TestsAt(code, cond, 0, s.c, body, after)
    requires SeqOk(code, LoopBody(x, after, cond), s.body, [], body, 0, Some((cond, 0)))
    requires b < |code| && at == |code[b].items| && code[b].succs == [if s.While? then cond else body]
    ensures StmtOk(code, x, s, b, at, Some((after, 0)))
  {
    hide SeqOk, Sim, TestsAt, ExecWhile, ExecDoWhile;
    var head := if s.While? then cond else body;
    forall ch, fuel: nat
      ensures Sim(code, x, Config(b, at, ch), Some((after, 0)), Exec(s, ch, fuel), fuel)
    {
      JumpGets(code, x.actions, b, at, [], head, ch);
      if s.While? {
        WhileOk(code, x, s, cond, body, after, ch, fuel);
      } else {
        DoWhileOk(code, x, s, cond, body, after, ch, fuel);
      }
      var r := Exec(s, ch, fuel);
      assert Then([], r) == r by {
        assert [] + r.trace == r.trace;
      }
      SimAfter(code, x, Config(b, at, ch), [], Config(head, 0, ch), Some((after, 0)), r, fuel);
    }
  }

  // ---- If ----

  // A branch's whole region: nothing of it is open any more.
  ghost predicate LaidArm(x: Context, stmts: seq<Stmt>, arm: nat, n: nat, now: Code, merge: nat, falls: bool) {
    forall final: Code :: Keeps(arm, n, now, {}, final) ==>
      SeqOk(final, x, stmts, [], arm, 0, if falls then Some((merge, 0)) else None)
  }

  lemma ArmLaid(x: Context, stmts: seq<Stmt>, arm: nat, n: nat, late: Code, cur: Option<nat>, merge: nat, now: Code)
    requires cur.Some? ==> cur.value < |late| && (cur.value == arm || n <= cur.value)
    requires LaidSeq(x, stmts, arm, 0, n, late, cur)
    requires if cur.Some? then now == late[cur.value := Node(late[cur.value].items, [merge])] else now == late
    ensures LaidArm(x, stmts, arm, n, now, merge, cur.Some?)
  {
    hide SeqOk;
    forall final: Code | Keeps(arm, n, now, {}, final)
      ensures SeqOk(final, x, stmts, [], arm, 0, if cur.Some? then Some((merge, 0)) else None)
    {
      assert Keeps(arm, n, late, Opens(cur), final);
      if cur.Some? {
        SeqJump(final, x, stmts, [], arm, 0, cur.value, |late[cur.value].items|, merge);
      }
    }
  }

  lemma IfSoFarBegins(x: Context, s: Stmt, b: nat, n: nat, now: Code, merge: nat)
    requires s.If? && b < |now|
    ensures IfSoFar(x, s, 0, b, |now[b].items|, n, now, b, merge, true)
    ensures IfSoFar(x, s, 0, b, |now[b].items|, n, now, b, merge, false)
  {
  }

  lemma IfSoFarStep(x: Context, s: Stmt, i: nat, b: nat, at: nat, n: nat, start: Code, cond: nat, merge: nat,
      terminates: bool,
      mid: Code, yes: nat, next: nat, late: Code, falls: bool)
    requires s.If? && i < s.Count()
    requires cond < |start| && merge < |start| && cond != merge && start[merge] == Node([], []) && n <= |start|
    requires cond == b || n <= cond
    requires IfSoFar(x, s, i, b, at, n, start, cond, merge, terminates)
    requires yes == |start| < |mid| && next < |mid| && (next == merge || yes < next)
    requires forall k: nat :: k < |start| && k != cond ==> mid[k] == start[k]
    requires mid[cond] == Node(start[cond].items + [Test(s.Nth(i).c)], [yes, next])
    requires mid[next] == Node([], [])
    requires Extends(mid, yes, late)
    requires LaidArm(x, s.Nth(i).body, yes, |mid|, late, merge, falls)
    ensures late[next] == Node([], []) && next < |late|
    ensures IfSoFar(x, s, i + 1, b, at, n, late, next, merge, terminates && !falls)
  {
    hide SeqOk, IfOk;
    assert late[next] == mid[next];
    var from := |start[cond].items|;
    forall final: Code, end: Place | Keeps(b, n, late, {next, merge}, final)
      && (end == Some((merge, 0)) || (terminates && !falls && end.None?))
      && IfOk(final, x, s, i + 1, next, 0, end)
      ensures IfOk(final, x, s, 0, b, at, end)
    {
      assert Keeps(yes, |mid|, late, {}, final);
      if !falls {
        SeqEndsAnywhere(final, x, s.Nth(i).body, [], yes, 0, end);
      }
      assert final[cond] == mid[cond];
      assert final[cond].items[from..] == [Test(s.Nth(i).c)];
      IfStep(final, x, s, i, cond, from, yes, next, end);
      assert Keeps(b, n, start, {cond, merge}, final);
    }
  }

  lemma BranchExtends(was: Code, b: nat, start: Code, cond: nat, mid: Code, yes: nat, late: Code, others: set<nat>)
    requires Extends(was, b, start) && cond < |start| && (cond == b || |was| <= cond)
    requires |start| == yes < |mid| && forall k: nat :: k < |start| && k != cond ==> mid[k] == start[k]
    requires start[cond].items <= mid[cond].items
    requires Extends(mid, yes, late) && yes !in others && forall k :: k in others ==> k < |mid|
    ensures Extends(was, b, late) && |mid| <= |late| && forall k :: k in others ==> late[k] == mid[k]
  {
  }

  lemma IfLaidElse(x: Context, s: Stmt, b: nat, at: nat, n: nat, start: Code, cond: nat, merge: nat,
      terminates: bool, now: Code, falls: bool)
    requires s.If? && s.hasElse && cond < |start| && merge < |start| && cond != merge && n <= cond && n <= merge
    requires start[cond] == Node([], []) && start[merge] == Node([], [])
    requires IfSoFar(x, s, s.Count(), b, at, n, start, cond, merge, terminates)
    requires Extends(start, cond, now) && LaidArm(x, s.els, cond, |start|, now, merge, falls)
    ensures Laid(x, s, b, at, n, now, if terminates && !falls then None else Some(merge))
  {
    hide SeqOk, IfOk;
    var cur: Option<nat> := if terminates && !falls then None else Some(merge);
    assert now[merge] == Node([], []);
    forall final: Code | Keeps(b, n, now, Opens(cur), final)
      ensures StmtOk(final, x, s, b, at, PlaceOf(now, cur))
    {
      var end := PlaceOf(now, cur);
      assert Keeps(cond, |start|, now, {}, final);
      if !falls {
        SeqEndsAnywhere(final, x, s.els, [], cond, 0, end);
      }
      IfElse(final, x, s, cond, 0, end);
      assert Keeps(b, n, start, {cond, merge}, final);
      IfIsStmt(final, x, s, b, at, end);
    }
  }

  lemma IfLaid(x: Context, s: Stmt, b: nat, at: nat, n: nat, now: Code, merge: nat, terminates: bool)
    requires s.If? && !s.hasElse && merge < |now| && now[merge] == Node([], [])
    requires IfSoFar(x, s, s.Count(), b, at, n, now, merge, merge, terminates)
    ensures Laid(x, s, b, at, n, now, Some(merge))
  {
    hide SeqOk, IfOk;
    forall final: Code | Keeps(b, n, now, {merge}, final)
      ensures StmtOk(final, x, s, b, at, Some((merge, 0)))
    {
      IfElse(final, x, s, merge, 0, Some((merge, 0)));
      assert {merge, merge} == {merge};
      IfIsStmt(final, x, s, b, at, Some((merge, 0)));
    }
  }

  // Without an else, the last false test jumps to the merge block.
  lemma IfLaidJump(x: Context, s: Stmt, b: nat, at: nat, n: nat, start: Code, cond: nat, merge: nat, now: Code)
    requires s.If? && !s.hasElse && cond < |start| && merge < |start| && cond != merge && n <= cond && n <= merge
    requires start[cond] == Node([], []) && start[merge] == Node([], [])
    requires IfSoFar(x, s, s.Count(), b, at, n, start, cond, merge, false)
    requires now == start[cond := Node([], [merge])]
    ensures Laid(x, s, b, at, n, now, Some(merge))
  {
    hide SeqOk, IfOk;
    forall final: Code | Keeps(b, n, now, {merge}, final)
      ensures StmtOk(final, x, s, b, at, Some((merge, 0)))
    {
      IfNone(final, x, s, cond, merge);
      assert Keeps(b, n, start, {cond, merge}, final);
      IfIsStmt(final, x, s, b, at, Some((merge, 0)));
    }
  }

  lemma IfNone(code: Code, x: Context, s: Stmt, b: nat, merge: nat)
    requires s.If? && !s.hasElse && b < |code| && code[b] == Node([], [merge])
    ensures IfOk(code, x, s, s.Count(), b, 0, Some((merge, 0)))
  {
    forall ch, fuel: nat
      ensures Sim(code, x, Config(b, 0, ch), Some((merge, 0)), ExecIf(s, s.Count(), ch, fuel), fuel)
    {
      GetsOne(code, Config(b, 0, ch));
    }
  }

  lemma IfIsStmt(code: Code, x: Context, s: Stmt, b: nat, at: nat, end: Place)
    requires s.If? && IfOk(code, x, s, 0, b, at, end)
    ensures StmtOk(code, x, s, b, at, end)
  {
    hide Sim, ExecIf;
    forall ch, fuel: nat
      ensures Sim(code, x, Config(b, at, ch), end, Exec(s, ch, fuel), fuel)
    {
      assert Sim(code, x, Config(b, at, ch), end, ExecIf(s, 0, ch, fuel), fuel);
    }
  }

  // A finished loop: `b` jumps to its head, the body comes back to `cond`, and
  // going on means going on at `after`.
  lemma LoopLaid(x: Context, s: Stmt, b: nat, at: nat, n: nat, cond: nat, body: nat, after: nat, late: Code,
      falls: bool, now: Code)
    requires s.While? || s.DoWhile?
    requires |late| == |now| && n + 3 <= |now| && {cond, body, after} == {n, n + 1, n + 2}
    requires b < n && at == |now[b].items| && now[b].succs == [if s.While? then cond else body]
    requires TestsAt(now, cond, 0, s.c, body, after)
    requires now[after] == Node([], [])
    requires LaidArm(LoopBody(x, after, cond), s.body, body, n + 3, late, cond, falls)
    requires forall k: nat :: k < |now| && (k == body || n + 3 <= k) ==> now[k] == late[k]
    ensures Laid(x, s, b, at, n, now, Some(after))
  {
    hide SeqOk, Sim, TestsAt;
    forall final: Code | Keeps(b, n, now, {after}, final)
      ensures StmtOk(final, x, s, b, at, Some((after, 0)))
    {
      assert Keeps(body, n + 3, late, {}, final);
      if !falls {
        SeqEndsAnywhere(final, LoopBody(x, after, cond), s.body, [], body, 0, Some((cond, 0)));
      }
      assert final[cond] == now[cond];
      TestsSame(now, final, cond, s.c, body, after);
      LoopRuns(final, x, s, b, at, cond, body, after);
    }
  }

  // ---- Whole functions ----

  ghost function Whole(actions: bool, exit: nat): Context {
    Context(actions, [], 0, None, None, exit)
  }

  // From block 0, `code` performs `body` and ends at `exit`.
  ghost predicate Performs(code: Code, actions: bool, exit: nat, body: seq<Stmt>) {
    && exit < |code| && code[exit] == Node([], [])
    && SeqOk(code, Whole(actions, exit), body, [], 0, 0, Some((exit, 0)))
  }

  // How many machine steps a run takes: an unfinished one, at least its fuel.
  lemma RunLength(code: Code, actions: bool, exit: nat, body: seq<Stmt>, ch: seq<bool>, fuel: nat) returns (n: nat)
    requires Performs(code, actions, exit, body)
    ensures var r := ExecSeq(body, [], ch, fuel); var here := Steps(code, Config(0, 0, ch), n);
            && r.outcome in {Fall, Returned, Failed, Stuck, OutOfFuel}
            && here.Some? && here.value.0 == View(actions, r.trace)
            && (r.outcome.OutOfFuel? ==> n >= fuel)
            && (!r.outcome.OutOfFuel? ==> Next(code, here.value.1).None?)
            && (r.outcome in {Fall, Returned, Failed} ==> here.value.1.b == exit)
            && (r.outcome.Stuck? ==> here.value.1.b != exit)
  {
    var r := ExecSeq(body, [], ch, fuel);
    var c := Config(0, 0, ch);
    assert Sim(code, Whole(actions, exit), c, Some((exit, 0)), r, fuel);
    assert r.trace + Unwind([], 0) == r.trace;
    var t := View(actions, r.trace);
    assert r.outcome in {Fall, Returned, Failed, Stuck, OutOfFuel};
    if r.outcome.OutOfFuel? {
      n :| n >= fuel && Steps(code, c, n).Some? && Steps(code, c, n).value.0 == t;
    } else if r.outcome.Stuck? {
      var d :| Gets(code, c, t, d) && Next(code, d).None? && d.b < |code| && code[d.b].succs != [];
      n :| Steps(code, c, n) == Some((t, d));
    } else {
      n :| Steps(code, c, n) == Some((t, Config(exit, 0, r.ch)));
    }
  }

  // And back: whatever the code does on some decisions is an execution on
  // them, and where the code stops the execution has stopped.
  lemma StepsAreExecution(code: Code, actions: bool, exit: nat, body: seq<Stmt>, ch: seq<bool>, n: nat, fuel: nat)
    requires Performs(code, actions, exit, body) && fuel > n
    requires Steps(code, Config(0, 0, ch), n).Some?
    ensures var (t, d) := Steps(code, Config(0, 0, ch), n).value;
            var r := ExecSeq(body, [], ch, fuel);
            && t <= View(actions, r.trace)
            && (Next(code, d).None? ==> t == View(actions, r.trace) && !r.outcome.OutOfFuel?)
  {
    hide Performs, ExecSeq, Next, View;
    var c := Config(0, 0, ch);
    var (t, d) := Steps(code, c, n).value;
    var m := RunLength(code, actions, exit, body, ch, fuel);
    if m < n {
      HaltsOnce(code, c, m, n);
    } else {
      StepsJoin(code, c, n, m - n);
    }
    if Next(code, d).None? {
      HaltsOnce(code, c, n, m);
    }
  }
}
