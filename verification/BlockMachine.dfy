// Basic blocks and jumps, run on a sequence of decisions, and when a piece of
// such code does what a structured statement does.
module BlockMachine {
  import opened Options
  import opened Graph
  import opened Structured

  datatype Node = Node(items: seq<Event>, succs: seq<nat>)

  type Code = seq<Node>

  datatype Config = Config(b: nat, at: nat, ch: seq<bool>)

  predicate Decided(items: seq<Event>) {
    items != [] && items[|items| - 1].Test? && items[|items| - 1].c.always
  }

  // One step: the next item, or a jump. Two successors are the true and the
  // false target of the condition last evaluated.
  function Next(code: Code, c: Config): Option<(seq<Event>, Config)> {
    if c.b >= |code| then None
    else
      var n := code[c.b];
      if c.at < |n.items| then Some(([n.items[c.at]], Config(c.b, c.at + 1, c.ch)))
      else if n.succs == [] then None
      else if |n.succs| == 1 || Decided(n.items) then Some(([], Config(n.succs[0], 0, c.ch)))
      else if c.ch == [] then None
      else Some(([], Config(if c.ch[0] then n.succs[0] else n.succs[1], 0, c.ch[1..])))
  }

  function Steps(code: Code, c: Config, n: nat): Option<(seq<Event>, Config)>
    decreases n
  {
    if n == 0 then Some(([], c))
    else
      var one := Next(code, c);
      if one.None? then None else
      var rest := Steps(code, one.value.1, n - 1);
      if rest.None? then None else Some((one.value.0 + rest.value.0, rest.value.1))
  }

  ghost predicate Gets(code: Code, c: Config, t: seq<Event>, d: Config) {
    exists n: nat :: Steps(code, c, n) == Some((t, d))
  }

  // Stops with a decision still to come.
  ghost predicate Waits(code: Code, c: Config, t: seq<Event>) {
    exists d :: Gets(code, c, t, d) && Next(code, d).None? && d.b < |code| && code[d.b].succs != []
  }

  // At least `fuel` steps, emitting `t`.
  ghost predicate Far(code: Code, c: Config, fuel: nat, t: seq<Event>) {
    exists n: nat :: n >= fuel && Steps(code, c, n).Some? && Steps(code, c, n).value.0 == t
  }

  lemma {:induction false} StepsJoin(code: Code, c: Config, n: nat, m: nat)
    requires Steps(code, c, n).Some?
    ensures var (t, d) := Steps(code, c, n).value; var rest := Steps(code, d, m);
            Steps(code, c, n + m) == if rest.None? then None else Some((t + rest.value.0, rest.value.1))
    decreases n
  {
    var (t, d) := Steps(code, c, n).value;
    var rest := Steps(code, d, m);
    if n == 0 {
      if rest.Some? {
        assert [] + rest.value.0 == rest.value.0;
      }
    } else {
      var one := Next(code, c).value;
      StepsJoin(code, one.1, n - 1, m);
      if rest.Some? {
        var t1 := Steps(code, one.1, n - 1).value.0;
        assert one.0 + (t1 + rest.value.0) == (one.0 + t1) + rest.value.0;
      }
    }
  }

  lemma GetsNothing(code: Code, c: Config)
    ensures Gets(code, c, [], c)
  {
    assert Steps(code, c, 0) == Some(([], c));
  }

  lemma GetsOne(code: Code, c: Config)
    requires Next(code, c).Some?
    ensures Gets(code, c, Next(code, c).value.0, Next(code, c).value.1)
  {
    var (t, d) := Next(code, c).value;
    assert t + [] == t;
    assert Steps(code, d, 0) == Some(([], d));
    assert Steps(code, c, 1) == Some((t, d));
  }

  lemma GetsJoin(code: Code, c: Config, t: seq<Event>, d: Config, u: seq<Event>, e: Config)
    requires Gets(code, c, t, d) && Gets(code, d, u, e)
    ensures Gets(code, c, t + u, e)
  {
    var n: nat :| Steps(code, c, n) == Some((t, d));
    var m: nat :| Steps(code, d, m) == Some((u, e));
    StepsJoin(code, c, n, m);
    assert Steps(code, c, n + m) == Some((t + u, e));
  }

  lemma GetsFar(code: Code, c: Config, t: seq<Event>, d: Config, fuel: nat, u: seq<Event>)
    requires Gets(code, c, t, d) && Far(code, d, fuel, u)
    ensures Far(code, c, fuel, t + u)
  {
    var n: nat :| Steps(code, c, n) == Some((t, d));
    var m: nat :| m >= fuel && Steps(code, d, m).Some? && Steps(code, d, m).value.0 == u;
    StepsJoin(code, c, n, m);
    assert n + m >= fuel;
  }

  // Straight through a stretch of a block.
  lemma {:induction false} GetsItems(code: Code, b: nat, i: nat, j: nat, ch: seq<bool>)
    requires b < |code| && i <= j <= |code[b].items|
    ensures Gets(code, Config(b, i, ch), code[b].items[i..j], Config(b, j, ch))
    decreases j - i
  {
    var c := Config(b, i, ch);
    if i == j {
      GetsNothing(code, c);
      assert code[b].items[i..j] == [];
    } else {
      GetsOne(code, c);
      GetsItems(code, b, i + 1, j, ch);
      GetsJoin(code, c, [code[b].items[i]], Config(b, i + 1, ch), code[b].items[i + 1..j], Config(b, j, ch));
      assert [code[b].items[i]] + code[b].items[i + 1..j] == code[b].items[i..j];
    }
  }

  // A halted machine stays the same wherever it is looked at from.
  lemma HaltsOnce(code: Code, c: Config, n: nat, m: nat)
    requires Steps(code, c, n).Some? && Next(code, Steps(code, c, n).value.1).None?
    requires Steps(code, c, m).Some?
    ensures m <= n
    ensures Next(code, Steps(code, c, m).value.1).None? ==> n == m
  {
    if m > n {
      StepsJoin(code, c, n, m - n);
    } else if m < n {
      StepsJoin(code, c, m, n - m);
      assert Steps(code, Steps(code, c, m).value.1, n - m).Some?;
    }
  }

  // ---- Paths ----

  function GraphOf(code: Code): Graph {
    Graph(seq(|code|, b requires 0 <= b < |code| => code[b].succs))
  }

  function Emitted(code: Code, p: seq<nat>): seq<Event> {
    if p == [] then []
    else (if p[0] < |code| then code[p[0]].items else []) + Emitted(code, p[1..])
  }

  ghost predicate InBounds(code: Code) {
    forall b: nat, i: nat :: b < |code| && i < |code[b].succs| ==> code[b].succs[i] < |code|
  }

  // The false edge of a literal `true` is never taken.
  ghost predicate Feasible(code: Code, p: seq<nat>) {
    forall k: nat :: k + 1 < |p| && p[k] < |code| && code[p[k]].succs != [] && Decided(code[p[k]].items) ==>
      p[k + 1] == code[p[k]].succs[0]
  }

  // `p` leads from inside one block to inside another, emitting `t`.
  ghost predicate Walks(code: Code, p: seq<nat>, c: Config, t: seq<Event>, d: Config) {
    && PathBetween(GraphOf(code), p, c.b, d.b) && Feasible(code, p)
    && d.b < |code| && d.at <= |code[d.b].items| && c.b < |code| && c.at <= |code[c.b].items|
    && code[c.b].items[..c.at] + t == Emitted(code, p[..|p| - 1]) + code[d.b].items[..d.at]
  }

  lemma WalkFurther(code: Code, c: Config, c1: Config, q: seq<nat>, t: seq<Event>, d: Config)
    requires InBounds(code) && c.b < |code| && c.at <= |code[c.b].items|
    requires Next(code, c) == Some(([], c1)) && Walks(code, q, c1, t, d)
    ensures Walks(code, [c.b] + q, c, t, d)
  {
    hide InBounds, Emitted;
    var p := [c.b] + q;
    assert GraphOf(code).Edge(c.b, c1.b);
    PathFurther(GraphOf(code), c.b, q, c1.b, d.b);
    assert c.at == |code[c.b].items| && code[c.b].items[..c.at] == code[c.b].items;
    assert p[..|p| - 1] == [c.b] + q[..|q| - 1];
    EmittedFirst(code, c.b, q[..|q| - 1]);
    assert code[c1.b].items[..0] + t == t;
  }

  lemma PathFurther(g: Graph, b: nat, q: seq<nat>, c: nat, d: nat)
    requires g.Edge(b, c) && PathBetween(g, q, c, d)
    ensures PathBetween(g, [b] + q, b, d)
  {
    assert IsPath(g, [b, c]);
    PathsJoin(g, [b, c], q, b, c, d);
    assert [b, c] + q[1..] == [b] + q;
  }

  lemma EmittedFirst(code: Code, b: nat, p: seq<nat>)
    requires b < |code|
    ensures Emitted(code, [b] + p) == code[b].items + Emitted(code, p)
  {
    assert ([b] + p)[1..] == p;
  }

  // A machine run is a walk along edges, emitting each block's items.
  lemma {:induction false} StepsFollowPath(code: Code, c: Config, n: nat)
    requires InBounds(code) && c.b < |code| && c.at <= |code[c.b].items| && Steps(code, c, n).Some?
    ensures exists p :: Walks(code, p, c, Steps(code, c, n).value.0, Steps(code, c, n).value.1)
    decreases n
  {
    hide PathBetween, Emitted;
    var (t, d) := Steps(code, c, n).value;
    if n == 0 {
      StayPut(code, c);
    } else {
      var (t1, c1) := Next(code, c).value;
      StepsFollowPath(code, c1, n - 1);
      var t2 := Steps(code, c1, n - 1).value.0;
      var q :| Walks(code, q, c1, t2, d);
      if c.at < |code[c.b].items| {
        assert code[c.b].items[..c.at] + (t1 + t2) == code[c.b].items[..c.at + 1] + t2;
        assert Walks(code, q, c, t, d);
      } else {
        assert t == t2;
        WalkFurther(code, c, c1, q, t, d);
      }
    }
  }

  lemma StayPut(code: Code, c: Config)
    requires c.b < |code| && c.at <= |code[c.b].items|
    ensures Walks(code, [c.b], c, [], c)
  {
  }

  // Some decisions lead along any feasible path.
  lemma {:induction false} PathIsDriven(code: Code, p: seq<nat>, rest: seq<bool>) returns (ch: seq<bool>)
    requires forall b: nat :: b < |code| ==> |code[b].succs| <= 2
    requires IsPath(GraphOf(code), p) && Feasible(code, p)
    ensures Gets(code, Config(p[0], 0, ch), Emitted(code, p[..|p| - 1]), Config(p[|p| - 1], 0, rest))
    decreases |p|
  {
    var b := p[0];
    if |p| == 1 {
      ch := rest;
      GetsNothing(code, Config(b, 0, rest));
    } else {
      var q := p[1..];
      assert GraphOf(code).Edge(p[0], p[0 + 1]);
      TailIsFeasible(code, p);
      var later := PathIsDriven(code, q, rest);
      var n := code[b];
      ch := if |n.succs| == 1 || Decided(n.items) then later else [p[1] == n.succs[0]] + later;
      var to := |n.items|;
      GetsItems(code, b, 0, to, ch);
      assert n.items[0..to] == n.items;
      var here := Config(b, to, ch);
      assert p[0 + 1] == p[1] && p[1] in n.succs;
      GetsOne(code, here);
      assert ch != later ==> ch[1..] == later;
      assert Next(code, here) == Some(([], Config(p[1], 0, later)));
      GetsJoin(code, Config(b, 0, ch), n.items, here, [], Config(p[1], 0, later));
      GetsJoin(code, Config(b, 0, ch), n.items + [], Config(p[1], 0, later), Emitted(code, q[..|q| - 1]), Config(q[|q| - 1], 0, rest));
      assert n.items + [] == n.items;
      assert p[..|p| - 1][1..] == q[..|q| - 1];
    }
  }

  lemma TailIsFeasible(code: Code, p: seq<nat>)
    requires IsPath(GraphOf(code), p) && Feasible(code, p) && |p| > 1
    ensures IsPath(GraphOf(code), p[1..]) && Feasible(code, p[1..])
  {
    var q := p[1..];
    forall i | 0 <= i < |q| - 1
      ensures GraphOf(code).Edge(q[i], q[i + 1])
    {
      assert GraphOf(code).Edge(p[i + 1], p[i + 1 + 1]);
    }
    forall k: nat | k + 1 < |q| && q[k] < |code| && code[q[k]].succs != [] && Decided(code[q[k]].items)
      ensures q[k + 1] == code[q[k]].succs[0]
    {
      assert p[k + 1] == q[k] && p[k + 1 + 1] == q[k + 1];
    }
  }

  // ---- What code shows of a run ----

  // The CFG lists every node; emitted code performs only actions.
  predicate Shown(actions: bool, e: Event) {
    !actions || e.Act? || e.Test? || e.Run? || (e.Leave? && e.value.Some?)
  }

  function View(actions: bool, t: seq<Event>): seq<Event> {
    if t == [] then [] else Show(actions, t[0]) + View(actions, t[1..])
  }

  function Show(actions: bool, e: Event): seq<Event> {
    if Shown(actions, e) then [e] else []
  }

  lemma {:induction false} ViewJoin(actions: bool, t: seq<Event>, u: seq<Event>)
    ensures View(actions, t + u) == View(actions, t) + View(actions, u)
  {
    hide Show;
    if t == [] {
      assert t + u == u;
    } else {
      ViewJoin(actions, t[1..], u);
      assert (t + u)[1..] == t[1..] + u;
      var first, rest, last := Show(actions, t[0]), View(actions, t[1..]), View(actions, u);
      assert first + (rest + last) == (first + rest) + last;
    }
  }

  lemma ViewOne(actions: bool, e: Event)
    ensures View(actions, [e]) == if Shown(actions, e) then [e] else []
  {
    assert [e][1..] == [];
  }

  lemma {:induction false} ViewAll(t: seq<Event>)
    ensures View(false, t) == t
  {
    if t != [] {
      ViewAll(t[1..]);
    }
  }

  lemma {:induction false} ViewRuns(actions: bool, reg: seq<nat>)
    ensures View(actions, Runs(reg)) == Runs(reg)
  {
    if reg != [] {
      var rest := Runs(reg[..|reg| - 1]);
      ViewRuns(actions, reg[..|reg| - 1]);
      ViewJoin(actions, [Run(reg[|reg| - 1])], rest);
      assert View(actions, [Run(reg[|reg| - 1])]) == [Run(reg[|reg| - 1])];
    }
  }

  lemma {:induction false} ViewUnwind(actions: bool, frames: seq<seq<nat>>, depth: nat)
    ensures View(actions, Unwind(frames, depth)) == Unwind(frames, depth)
  {
    if |frames| > depth {
      ViewRuns(actions, frames[|frames| - 1]);
      ViewUnwind(actions, frames[..|frames| - 1], depth);
      ViewJoin(actions, Runs(frames[|frames| - 1]), Unwind(frames[..|frames| - 1], depth));
    }
  }

  lemma UnwindInner(frames: seq<seq<nat>>, reg: seq<nat>, depth: nat)
    requires depth <= |frames|
    ensures Unwind(frames + [reg], depth) == Runs(reg) + Unwind(frames, depth)
  {
    assert (frames + [reg])[..|frames|] == frames;
  }

  // ---- Code that does what a statement does ----

  // Where the surroundings send each way out: the open scopes, those inside
  // the innermost loop, and the targets of break, continue and return.
  datatype Context = Context(actions: bool, frames: seq<seq<nat>>, depth: nat, brk: Option<nat>, cont: Option<nat>,
      exit: nat)

  type Place = Option<(nat, nat)>

  // The machine at `c` performs the run `r`, leaves as it demands, and is then
  // at `end` if `r` falls through.
  ghost predicate Sim(code: Code, x: Context, c: Config, end: Place, r: Result, fuel: nat) {
    match r.outcome
    case Fall => end.Some? && Gets(code, c, View(x.actions, r.trace), Config(end.value.0, end.value.1, r.ch))
    case Broke => x.brk.Some? && Gets(code, c, View(x.actions, r.trace + (Unwind(x.frames, x.depth) + [BreakNode])), Config(x.brk.value, 0, r.ch))
    case Continued => x.cont.Some? && Gets(code, c, View(x.actions, r.trace + (Unwind(x.frames, x.depth) + [ContinueNode])), Config(x.cont.value, 0, r.ch))
    case Returned => Gets(code, c, View(x.actions, r.trace + Unwind(x.frames, 0)), Config(x.exit, 0, r.ch))
    case Failed => Gets(code, c, View(x.actions, r.trace + Unwind(x.frames, 0)), Config(x.exit, 0, r.ch))
    case Stuck => Waits(code, c, View(x.actions, r.trace))
    case OutOfFuel => Far(code, c, fuel, View(x.actions, r.trace))
  }

  ghost predicate StmtOk(code: Code, x: Context, s: Stmt, b: nat, at: nat, end: Place) {
    forall ch, fuel: nat :: Sim(code, x, Config(b, at, ch), end, Exec(s, ch, fuel), fuel)
  }

  ghost predicate SeqOk(code: Code, x: Context, stmts: seq<Stmt>, reg: seq<nat>, b: nat, at: nat, end: Place) {
    forall ch, fuel: nat :: Sim(code, x, Config(b, at, ch), end, ExecSeq(stmts, reg, ch, fuel), fuel)
  }

  ghost predicate IfOk(code: Code, x: Context, s: Stmt, i: nat, b: nat, at: nat, end: Place)
    requires s.If? && i <= s.Count()
  {
    forall ch, fuel: nat :: Sim(code, x, Config(b, at, ch), end, ExecIf(s, i, ch, fuel), fuel)
  }

  // Events before a run that is performed.
  lemma SimAfter(code: Code, x: Context, c: Config, t: seq<Event>, d: Config, end: Place, r: Result, fuel: nat)
    requires Gets(code, c, View(x.actions, t), d) && Sim(code, x, d, end, r, fuel)
    ensures Sim(code, x, c, end, Then(t, r), fuel)
  {
    hide Gets, Far, View, Unwind;
    var v := View(x.actions, t);
    ViewJoin(x.actions, t, r.trace);
    match r.outcome
    case Fall =>
      GetsJoin(code, c, v, d, View(x.actions, r.trace), Config(end.value.0, end.value.1, r.ch));
    case Broke =>
      SimAfterJump(code, x, c, t, d, r.trace, Unwind(x.frames, x.depth) + [BreakNode], Config(x.brk.value, 0, r.ch));
    case Continued =>
      SimAfterJump(code, x, c, t, d, r.trace, Unwind(x.frames, x.depth) + [ContinueNode], Config(x.cont.value, 0,
          r.ch));
    case Returned =>
      SimAfterJump(code, x, c, t, d, r.trace, Unwind(x.frames, 0), Config(x.exit, 0, r.ch));
    case Failed =>
      SimAfterJump(code, x, c, t, d, r.trace, Unwind(x.frames, 0), Config(x.exit, 0, r.ch));
    case Stuck =>
      var e :| Gets(code, d, View(x.actions, r.trace), e) && Next(code, e).None? && e.b < |code| && code[e.b].succs != [];
      GetsJoin(code, c, v, d, View(x.actions, r.trace), e);
    case OutOfFuel =>
      GetsFar(code, c, v, d, fuel, View(x.actions, r.trace));
  }

  lemma SimAfterJump(code: Code, x: Context, c: Config, t: seq<Event>, d: Config, u: seq<Event>, w: seq<Event>,
      e: Config)
    requires Gets(code, c, View(x.actions, t), d) && Gets(code, d, View(x.actions, u + w), e)
    ensures Gets(code, c, View(x.actions, (t + u) + w), e)
  {
    hide Gets, View;
    assert (t + u) + w == t + (u + w);
    ViewJoin(x.actions, t, u + w);
    GetsJoin(code, c, View(x.actions, t), d, View(x.actions, u + w), e);
  }

  // ---- Putting pieces together ----

  // A piece that never falls through may end anywhere.
  lemma SeqEndsAnywhere(code: Code, x: Context, stmts: seq<Stmt>, reg: seq<nat>, b: nat, at: nat, end: Place)
    requires SeqOk(code, x, stmts, reg, b, at, None)
    ensures SeqOk(code, x, stmts, reg, b, at, end)
  {
  }

  // ---- Sequences ----

  lemma SeqEnd(code: Code, x: Context, reg: seq<nat>, b: nat, at: nat, to: nat)
    requires b < |code| && at <= to <= |code[b].items|
    requires code[b].items[at..to] == Runs(reg)
    ensures SeqOk(code, x, [], reg, b, at, Some((b, to)))
  {
    forall ch, fuel: nat
      ensures Sim(code, x, Config(b, at, ch), Some((b, to)), ExecSeq([], reg, ch, fuel), fuel)
    {
      GetsItems(code, b, at, to, ch);
      ViewRuns(x.actions, reg);
    }
  }

  // A defer registers and the block goes on.
  lemma SeqDefer(code: Code, x: Context, stmts: seq<Stmt>, reg: seq<nat>, b: nat, at: nat, to: nat, end: Place)
    requires stmts != [] && stmts[0].Defer?
    requires b < |code| && at <= to <= |code[b].items|
    requires code[b].items[at..to] == View(x.actions, [Registered(stmts[0].a)])
    requires SeqOk(code, x, stmts[1..], reg + [stmts[0].a], b, to, end)
    ensures SeqOk(code, x, stmts, reg, b, at, end)
  {
    hide Sim, View;
    forall ch, fuel: nat
      ensures Sim(code, x, Config(b, at, ch), end, ExecSeq(stmts, reg, ch, fuel), fuel)
    {
      GetsItems(code, b, at, to, ch);
      SimAfter(code, x, Config(b, at, ch), [Registered(stmts[0].a)], Config(b, to, ch), end,
               ExecSeq(stmts[1..], reg + [stmts[0].a], ch, fuel), fuel);
    }
  }

  function Inside(x: Context, reg: seq<nat>): Context {
    x.(frames := x.frames + [reg])
  }

  // A statement with this block's scope innermost, then the rest of the block.
  lemma SeqStep(code: Code, x: Context, stmts: seq<Stmt>, reg: seq<nat>, b: nat, at: nat, mid: Place, end: Place)
    requires stmts != [] && !stmts[0].Defer? && x.depth <= |x.frames|
    requires StmtOk(code, Inside(x, reg), stmts[0], b, at, mid)
    requires mid.Some? ==> SeqOk(code, x, stmts[1..], reg, mid.value.0, mid.value.1, end)
    ensures SeqOk(code, x, stmts, reg, b, at, end)
  {
    hide Gets, View, Waits, Far, Unwind;
    forall ch, fuel: nat
      ensures Sim(code, x, Config(b, at, ch), end, ExecSeq(stmts, reg, ch, fuel), fuel)
    {
      var r := Exec(stmts[0], ch, fuel);
      assert Sim(code, Inside(x, reg), Config(b, at, ch), mid, r, fuel);
      SeqStepRun(code, x, r, reg, Config(b, at, ch), mid, end, fuel);
      if r.outcome.Fall? {
        var rest := ExecSeq(stmts[1..], reg, r.ch, fuel);
        assert Sim(code, x, Config(mid.value.0, mid.value.1, r.ch), end, rest, fuel);
        SimAfter(code, x, Config(b, at, ch), r.trace, Config(mid.value.0, mid.value.1, r.ch), end, rest, fuel);
      }
    }
  }

  // A jump out of a statement also leaves this block's scope.
  lemma SeqStepRun(code: Code, x: Context, r: Result, reg: seq<nat>, c: Config, mid: Place, end: Place, fuel: nat)
    requires x.depth <= |x.frames|
    requires Sim(code, Inside(x, reg), c, mid, r, fuel)
    ensures r.outcome.Fall? ==> mid.Some? && Gets(code, c, View(x.actions, r.trace), Config(mid.value.0, mid.value.1, r.ch))
    ensures r.outcome.Stuck? || r.outcome.OutOfFuel? ==> Sim(code, x, c, end, r, fuel)
    ensures r.outcome in {Broke, Continued, Returned, Failed} ==> Sim(code, x, c, end, r.(trace := r.trace + Runs(reg)), fuel)
  {
    hide Gets, View, Waits, Far, Unwind, Runs;
    UnwindInner(x.frames, reg, x.depth);
    UnwindInner(x.frames, reg, 0);
    var all, inner := Unwind(x.frames, 0), Unwind(x.frames, x.depth);
    assert r.trace + (Runs(reg) + all) == (r.trace + Runs(reg)) + all;
    assert r.trace + ((Runs(reg) + inner) + [BreakNode]) == (r.trace + Runs(reg)) + (inner + [BreakNode]);
    assert r.trace + ((Runs(reg) + inner) + [ContinueNode]) == (r.trace + Runs(reg)) + (inner + [ContinueNode]);
  }

  // At its end a piece jumps to `m`.
  lemma SimJump(code: Code, x: Context, c: Config, r: Result, fuel: nat, b: nat, to: nat, m: nat)
    requires b < |code| && to == |code[b].items| && code[b].succs == [m]
    requires Sim(code, x, c, Some((b, to)), r, fuel)
    ensures Sim(code, x, c, Some((m, 0)), r, fuel)
  {
    if r.outcome.Fall? {
      GetsOne(code, Config(b, to, r.ch));
      GetsJoin(code, c, View(x.actions, r.trace), Config(b, to, r.ch), [], Config(m, 0, r.ch));
      assert View(x.actions, r.trace) + [] == View(x.actions, r.trace);
    }
  }

  lemma SeqJump(code: Code, x: Context, stmts: seq<Stmt>, reg: seq<nat>, b: nat, at: nat, eb: nat, to: nat, m: nat)
    requires eb < |code| && to == |code[eb].items| && code[eb].succs == [m]
    requires SeqOk(code, x, stmts, reg, b, at, Some((eb, to)))
    ensures SeqOk(code, x, stmts, reg, b, at, Some((m, 0)))
  {
    hide Sim;
    forall ch, fuel: nat
      ensures Sim(code, x, Config(b, at, ch), Some((m, 0)), ExecSeq(stmts, reg, ch, fuel), fuel)
    {
      SimJump(code, x, Config(b, at, ch), ExecSeq(stmts, reg, ch, fuel), fuel, eb, to, m);
    }
  }

  // ---- Conditions ----

  // Block `b` evaluates `c` from `at` on and branches.
  predicate TestsAt(code: Code, b: nat, at: nat, c: Cond, yes: nat, no: nat) {
    && b < |code| && at <= |code[b].items| && code[b].items[at..] == [Test(c)]
    && (code[b].succs == [yes, no] || (c.always && code[b].succs == [yes]))
  }

  lemma TestDecides(code: Code, actions: bool, b: nat, at: nat, c: Cond, yes: nat, no: nat, ch: seq<bool>)
    requires TestsAt(code, b, at, c, yes, no)
    ensures var d := Decide(c, ch); var v := View(actions, [Test(c)]);
            && (d.None? ==> Waits(code, Config(b, at, ch), v))
            && (d.Some? ==> Gets(code, Config(b, at, ch), v, Config(if d.value.0 then yes else no, 0, d.value.1)))
  {
    var n := code[b];
    var v := View(actions, [Test(c)]);
    ViewOne(actions, Test(c));
    var at2 := |n.items|;
    assert n.items[at..at2] == n.items[at..];
    GetsItems(code, b, at, at2, ch);
    assert n.items[at2 - 1] == n.items[at..][|n.items[at..]| - 1];
    var here := Config(b, at2, ch);
    if Decide(c, ch).Some? {
      GetsOne(code, here);
      GetsJoin(code, Config(b, at, ch), v, here, [], Next(code, here).value.1);
      assert v + [] == v;
    }
  }

  lemma SimStuck(code: Code, x: Context, c: Config, end: Place, t: seq<Event>, ch: seq<bool>, fuel: nat)
    requires Waits(code, c, View(x.actions, t))
    ensures Sim(code, x, c, end, Then(t, Result([], Stuck, ch)), fuel)
  {
    assert t + [] == t;
  }

  // ---- If ----

  lemma IfElse(code: Code, x: Context, s: Stmt, b: nat, at: nat, end: Place)
    requires s.If?
    requires s.hasElse ==> SeqOk(code, x, s.els, [], b, at, end)
    requires !s.hasElse ==> end == Some((b, at))
    ensures IfOk(code, x, s, s.Count(), b, at, end)
  {
    forall ch, fuel: nat
      ensures Sim(code, x, Config(b, at, ch), end, ExecIf(s, s.Count(), ch, fuel), fuel)
    {
      if s.hasElse {
        assert Sim(code, x, Config(b, at, ch), end, ExecSeq(s.els, [], ch, fuel), fuel);
      } else {
        GetsNothing(code, Config(b, at, ch));
      }
    }
  }

  lemma IfStep(code: Code, x: Context, s: Stmt, i: nat, b: nat, at: nat, yes: nat, no: nat, end: Place)
    requires s.If? && i < s.Count()
    requires TestsAt(code, b, at, s.Nth(i).c, yes, no)
    requires SeqOk(code, x, s.Nth(i).body, [], yes, 0, end)
    requires IfOk(code, x, s, i + 1, no, 0, end)
    ensures IfOk(code, x, s, i, b, at, end)
  {
    hide Sim, Gets, Waits, View, TestsAt;
    forall ch, fuel: nat
      ensures Sim(code, x, Config(b, at, ch), end, ExecIf(s, i, ch, fuel), fuel)
    {
      var c := s.Nth(i).c;
      var d := Decide(c, ch);
      var start := Config(b, at, ch);
      TestDecides(code, x.actions, b, at, c, yes, no, ch);
      if d.None? {
        SimStuck(code, x, start, end, [Test(c)], ch, fuel);
      } else if d.value.0 {
        SimAfter(code, x, start, [Test(c)], Config(yes, 0, d.value.1), end, ExecSeq(s.Nth(i).body, [], d.value.1,
            fuel), fuel);
      } else {
        SimAfter(code, x, start, [Test(c)], Config(no, 0, d.value.1), end, ExecIf(s, i + 1, d.value.1, fuel), fuel);
      }
    }
  }

  // ---- Loops ----

  // A loop body's surroundings: break and continue leave only its own scopes.
  function LoopBody(x: Context, brk: nat, cont: nat): Context {
    x.(depth := |x.frames|, brk := Some(brk), cont := Some(cont))
  }

  // A round of the body, seen from outside the loop.
  lemma BodyRun(code: Code, x: Context, c: Config, brk: nat, cont: nat, r: Result, end: Place, fuel: nat)
    requires Sim(code, LoopBody(x, brk, cont), c, Some((cont, 0)), r, fuel)
    ensures r.outcome.Fall? ==> Gets(code, c, View(x.actions, r.trace), Config(cont, 0, r.ch))
    ensures r.outcome.Continued? ==> Gets(code, c, View(x.actions, r.trace + [ContinueNode]), Config(cont, 0, r.ch))
    ensures r.outcome.Broke? ==> Gets(code, c, View(x.actions, r.trace + [BreakNode]), Config(brk, 0, r.ch))
    ensures r.outcome in {Returned, Failed, Stuck, OutOfFuel} ==> Sim(code, x, c, end, r, fuel)
  {
    hide Gets, View, Waits, Far;
    assert Unwind(x.frames, |x.frames|) == [];
    assert [] + [BreakNode] == [BreakNode] && [] + [ContinueNode] == [ContinueNode];
  }

  lemma {:induction false} WhileOk(code: Code, x: Context, s: Stmt, cond: nat, body: nat, after: nat,
      ch: seq<bool>, fuel: nat)
    requires s.While? && TestsAt(code, cond, 0, s.c, body, after)
    requires SeqOk(code, LoopBody(x, after, cond), s.body, [], body, 0, Some((cond, 0)))
    ensures Sim(code, x, Config(cond, 0, ch), Some((after, 0)), ExecWhile(s, ch, fuel), fuel)
    decreases fuel
  {
    hide TestsAt, View, Gets, Waits, ExecSeq;
    var start := Config(cond, 0, ch);
    var end := Some((after, 0));
    if fuel == 0 {
      FarNowhere(code, start, x.actions);
    } else {
      var d := Decide(s.c, ch);
      TestDecides(code, x.actions, cond, 0, s.c, body, after, ch);
      if d.None? {
        SimStuck(code, x, start, end, [Test(s.c)], ch, fuel);
      } else if !d.value.0 {
        SimHere(code, x, start, [Test(s.c)], after, d.value.1, fuel);
      } else {
        var r := ExecSeq(s.body, [], d.value.1, fuel - 1);
        var inside := Config(body, 0, d.value.1);
        assert Sim(code, LoopBody(x, after, cond), inside, Some((cond, 0)), r, fuel - 1);
        WhileRound(code, x, s, cond, body, after, r, inside, fuel);
        AfterTest(code, x, start, s.c, inside, end, WhileRest(s, r, fuel), fuel);
      }
    }
  }

  lemma {:induction false} WhileRound(code: Code, x: Context, s: Stmt, cond: nat, body: nat, after: nat, r: Result,
      c: Config, fuel: nat)
    requires s.While? && TestsAt(code, cond, 0, s.c, body, after) && fuel > 0
    requires SeqOk(code, LoopBody(x, after, cond), s.body, [], body, 0, Some((cond, 0)))
    requires Sim(code, LoopBody(x, after, cond), c, Some((cond, 0)), r, fuel - 1)
    ensures Sim(code, x, c, Some((after, 0)), WhileRest(s, r, fuel), fuel - 1)
    decreases fuel, 0
  {
    hide TestsAt, View, Gets, Waits, Sim, ExecWhile;
    var end := Some((after, 0));
    BodyRun(code, x, c, after, cond, r, end, fuel - 1);
    match r.outcome
    case Fall =>
      WhileOk(code, x, s, cond, body, after, r.ch, fuel - 1);
      SimAfter(code, x, c, r.trace, Config(cond, 0, r.ch), end, ExecWhile(s, r.ch, fuel - 1), fuel - 1);
    case Continued =>
      WhileOk(code, x, s, cond, body, after, r.ch, fuel - 1);
      SimAfter(code, x, c, r.trace + [ContinueNode], Config(cond, 0, r.ch), end, ExecWhile(s, r.ch, fuel - 1),
          fuel - 1);
    case Broke => SimHere(code, x, c, r.trace + [BreakNode], after, r.ch, fuel - 1);
    case _ =>
  }

  lemma SimHere(code: Code, x: Context, c: Config, t: seq<Event>, m: nat, ch: seq<bool>, fuel: nat)
    requires Gets(code, c, View(x.actions, t), Config(m, 0, ch))
    ensures Sim(code, x, c, Some((m, 0)), Result(t, Fall, ch), fuel)
    ensures Sim(code, x, c, Some((m, 0)), Then(t, Result([], Fall, ch)), fuel)
  {
    assert t + [] == t;
  }

  lemma FarNowhere(code: Code, c: Config, actions: bool)
    ensures Far(code, c, 0, View(actions, []))
  {
    assert Steps(code, c, 0).Some? && Steps(code, c, 0).value.0 == [];
  }

  // A test that goes on at `d` is at least one step.
  lemma AfterTest(code: Code, x: Context, c: Config, test: Cond, d: Config, end: Place, r: Result, fuel: nat)
    requires fuel > 0 && Gets(code, c, View(x.actions, [Test(test)]), d)
    requires Sim(code, x, d, end, r, fuel - 1)
    ensures Sim(code, x, c, end, Then([Test(test)], r), fuel)
  {
    hide Waits, Unwind;
    SimAfter(code, x, c, [Test(test)], d, end, r, fuel - 1);
    if r.outcome.OutOfFuel? {
      var n: nat :| Steps(code, c, n) == Some((View(x.actions, [Test(test)]), d));
      var m: nat :| m >= fuel - 1 && Steps(code, d, m).Some? && Steps(code, d, m).value.0 == View(x.actions, r.trace);
      StepsJoin(code, c, n, m);
      ViewJoin(x.actions, [Test(test)], r.trace);
      assert n + m >= fuel;
    }
  }

  lemma {:induction false} DoWhileOk(code: Code, x: Context, s: Stmt, cond: nat, body: nat, after: nat,
      ch: seq<bool>, fuel: nat)
    requires s.DoWhile? && TestsAt(code, cond, 0, s.c, body, after)
    requires SeqOk(code, LoopBody(x, after, cond), s.body, [], body, 0, Some((cond, 0)))
    ensures Sim(code, x, Config(body, 0, ch), Some((after, 0)), ExecDoWhile(s, ch, fuel), fuel)
    decreases fuel, 1
  {
    hide TestsAt, View, Gets, Waits, Sim, ExecTail;
    var c, end := Config(body, 0, ch), Some((after, 0));
    var r := ExecSeq(s.body, [], ch, fuel);
    assert Sim(code, LoopBody(x, after, cond), c, Some((cond, 0)), r, fuel);
    BodyRun(code, x, c, after, cond, r, end, fuel);
    match r.outcome
    case Fall =>
      TailOk(code, x, s, cond, body, after, r.ch, fuel);
      SimAfter(code, x, c, r.trace, Config(cond, 0, r.ch), end, ExecTail(s, r.ch, fuel), fuel);
    case Continued =>
      TailOk(code, x, s, cond, body, after, r.ch, fuel);
      SimAfter(code, x, c, r.trace + [ContinueNode], Config(cond, 0, r.ch), end, ExecTail(s, r.ch, fuel), fuel);
    case Broke => SimHere(code, x, c, r.trace + [BreakNode], after, r.ch, fuel);
    case _ =>
  }

  lemma {:induction false} TailOk(code: Code, x: Context, s: Stmt, cond: nat, body: nat, after: nat, ch: seq<bool>,
      fuel: nat)
    requires s.DoWhile? && TestsAt(code, cond, 0, s.c, body, after)
    requires SeqOk(code, LoopBody(x, after, cond), s.body, [], body, 0, Some((cond, 0)))
    ensures Sim(code, x, Config(cond, 0, ch), Some((after, 0)), ExecTail(s, ch, fuel), fuel)
    decreases fuel, 0
  {
    hide TestsAt, View, Gets, Waits, SeqOk, ExecDoWhile;
    var start, end := Config(cond, 0, ch), Some((after, 0));
    if fuel == 0 {
      FarNowhere(code, start, x.actions);
    } else {
      var d := Decide(s.c, ch);
      TestDecides(code, x.actions, cond, 0, s.c, body, after, ch);
      if d.None? {
        SimStuck(code, x, start, end, [Test(s.c)], ch, fuel);
      } else if !d.value.0 {
        SimHere(code, x, start, [Test(s.c)], after, d.value.1, fuel);
      } else {
        var inside := Config(body, 0, d.value.1);
        DoWhileOk(code, x, s, cond, body, after, d.value.1, fuel - 1);
        AfterTest(code, x, start, s.c, inside, end, ExecDoWhile(s, d.value.1, fuel - 1), fuel);
      }
    }
  }

  // ---- Statements ----

  lemma SimpleOk(code: Code, x: Context, s: Stmt, e: Event, b: nat, at: nat, to: nat)
    requires (s.Simple? && e == Act(s.a)) || (s.Defer? && e == Registered(s.a))
    requires b < |code| && at <= to <= |code[b].items|
    requires code[b].items[at..to] == View(x.actions, [e])
    ensures StmtOk(code, x, s, b, at, Some((b, to)))
  {
    forall ch, fuel: nat
      ensures Sim(code, x, Config(b, at, ch), Some((b, to)), Exec(s, ch, fuel), fuel)
    {
      GetsItems(code, b, at, to, ch);
    }
  }

  // A `try`: on, or through every open scope's defers out of the function.
  lemma TryOk(code: Code, x: Context, s: Stmt, b: nat, at: nat, ok: nat, fail: nat)
    requires s.Try? && b < |code| && at <= |code[b].items| && code[b].items[at..] == [Act(s.a)] && code[b].succs == [ok, fail]
    requires fail < |code| && code[fail] == Node(Unwind(x.frames, 0), [x.exit])
    ensures StmtOk(code, x, s, b, at, Some((ok, 0)))
  {
    var all := Unwind(x.frames, 0);
    var to := |code[b].items|;
    assert code[b].items[at..to] == code[b].items[at..] && code[b].items[to - 1] == code[b].items[at..][0];
    ViewOne(x.actions, Act(s.a));
    forall ch, fuel: nat
      ensures Sim(code, x, Config(b, at, ch), Some((ok, 0)), Exec(s, ch, fuel), fuel)
    {
      var c, d := Config(b, at, ch), Config(b, to, ch);
      GetsItems(code, b, at, to, ch);
      if ch != [] {
        var e := Next(code, d).value.1;
        GetsOne(code, d);
        GetsJoin(code, c, [Act(s.a)], d, [], e);
        assert [Act(s.a)] + [] == [Act(s.a)];
        if !ch[0] {
          ViewUnwind(x.actions, x.frames, 0);
          assert code[fail].items[0..] == all;
          JumpGets(code, x.actions, fail, 0, all, x.exit, ch[1..]);
          GetsJoin(code, c, [Act(s.a)], e, all, Config(x.exit, 0, ch[1..]));
          ViewJoin(x.actions, [Act(s.a)], all);
        }
      }
    }
  }

  // From `at` on, block `b` shows `t` and jumps to `m`.
  ghost predicate ShowsThenJumps(code: Code, actions: bool, b: nat, at: nat, t: seq<Event>, m: nat) {
    b < |code| && at <= |code[b].items| && code[b].items[at..] == View(actions, t) && code[b].succs == [m]
  }

  lemma JumpGets(code: Code, actions: bool, b: nat, at: nat, t: seq<Event>, m: nat, ch: seq<bool>)
    requires ShowsThenJumps(code, actions, b, at, t, m)
    ensures Gets(code, Config(b, at, ch), View(actions, t), Config(m, 0, ch))
  {
    var to := |code[b].items|;
    assert code[b].items[at..to] == code[b].items[at..];
    GetsItems(code, b, at, to, ch);
    GetsOne(code, Config(b, to, ch));
    GetsJoin(code, Config(b, at, ch), View(actions, t), Config(b, to, ch), [], Config(m, 0, ch));
    assert View(actions, t) + [] == View(actions, t);
  }

  lemma ReturnOk(code: Code, x: Context, s: Stmt, b: nat, at: nat, end: Place)
    requires s.Return? && ShowsThenJumps(code, x.actions, b, at, [Leave(s.value)] + Unwind(x.frames, 0), x.exit)
    ensures StmtOk(code, x, s, b, at, end)
  {
    forall ch, fuel: nat
      ensures Sim(code, x, Config(b, at, ch), end, Exec(s, ch, fuel), fuel)
    {
      JumpGets(code, x.actions, b, at, [Leave(s.value)] + Unwind(x.frames, 0), x.exit, ch);
    }
  }

  lemma BreakOk(code: Code, x: Context, s: Stmt, b: nat, at: nat, end: Place)
    requires s.Break? && x.brk.Some?
    requires ShowsThenJumps(code, x.actions, b, at, Unwind(x.frames, x.depth) + [BreakNode], x.brk.value)
    ensures StmtOk(code, x, s, b, at, end)
  {
    var t := Unwind(x.frames, x.depth) + [BreakNode];
    assert [] + t == t;
    forall ch, fuel: nat
      ensures Sim(code, x, Config(b, at, ch), end, Exec(s, ch, fuel), fuel)
    {
      JumpGets(code, x.actions, b, at, t, x.brk.value, ch);
    }
  }

  lemma ContinueOk(code: Code, x: Context, s: Stmt, b: nat, at: nat, end: Place)
    requires s.Continue? && x.cont.Some?
    requires ShowsThenJumps(code, x.actions, b, at, Unwind(x.frames, x.depth) + [ContinueNode], x.cont.value)
    ensures StmtOk(code, x, s, b, at, end)
  {
    var t := Unwind(x.frames, x.depth) + [ContinueNode];
    assert [] + t == t;
    forall ch, fuel: nat
      ensures Sim(code, x, Config(b, at, ch), end, Exec(s, ch, fuel), fuel)
    {
      JumpGets(code, x.actions, b, at, t, x.cont.value, ch);
    }
  }
}
