// NullabilityPass: which nullable references are proven non-null where, from
// comparisons with null alone; what that proof is worth, and where it is not.
module NullNarrowing {
  import opened Graph
  import opened MustFlow
  import opened Options

  datatype Cond =
    | IsNull(v: nat)            // v == null
    | NotNull(v: nat)           // v != null
    | And(l: Cond, r: Cond)
    | Or(l: Cond, r: Cond)
    | Not(c: Cond)
    | Through(v: nat, id: nat)  // some test that reads through v: v.f > 0
    | Opaque(id: nat)

  datatype Source = Null | AddressOf | PlainRef | Copy(v: nat) | Unknown(id: nat)

  datatype Stmt =
    | Set(v: nat, src: Source)  // `mut v = ...` or `v = ...`, a whole statement
    | Check(c: Cond)            // a condition, or an expression statement

  // How a block ends. A header is one test of a `compare`: it is left by its
  // first edge when its pattern matches and its guard, the last statement, is
  // true.
  datatype End = Jump | Branch | Header

  datatype Block = Block(stmts: seq<Stmt>, end: End)

  // What one visit to a block finds out: unknown tests, unknown references,
  // and whether a header's pattern matches.
  datatype World = World(holds: nat -> bool, given: nat -> bool, matched: bool)

  // ---- What runs: `s` is the set of variables that are not null ----

  function Value(c: Cond, s: set<nat>, w: World): bool {
    match c
    case IsNull(v) => v !in s
    case NotNull(v) => v in s
    case And(l, r) => Value(l, s, w) && Value(r, s, w)
    case Or(l, r) => Value(l, s, w) || Value(r, s, w)
    case Not(d) => !Value(d, s, w)
    case Through(_, id) => w.holds(id)
    case Opaque(id) => w.holds(id)
  }

  // Evaluating `c`, left to right and stopping early, reads through no null
  // tracked reference.
  predicate Safe(c: Cond, s: set<nat>, w: World, tracked: set<nat>) {
    match c
    case And(l, r) => Safe(l, s, w, tracked) && (Value(l, s, w) ==> Safe(r, s, w, tracked))
    case Or(l, r) => Safe(l, s, w, tracked) && (!Value(l, s, w) ==> Safe(r, s, w, tracked))
    case Not(d) => Safe(d, s, w, tracked)
    case Through(v, _) => v in tracked ==> v in s
    case _ => true
  }

  function Given(src: Source, s: set<nat>, w: World): bool {
    match src
    case Null => false
    case AddressOf => true
    case PlainRef => true
    case Copy(v) => v in s
    case Unknown(id) => w.given(id)
  }

  function After(stmt: Stmt, s: set<nat>, w: World): set<nat> {
    match stmt
    case Set(v, src) => if Given(src, s, w) then s + {v} else s - {v}
    case Check(_) => s
  }

  function AfterAll(stmts: seq<Stmt>, s: set<nat>, w: World): set<nat> {
    if stmts == [] then s else AfterAll(stmts[1..], After(stmts[0], s, w), w)
  }

  // ---- What the pass computes ----

  datatype Facts = Facts(onTrue: set<nat>, onFalse: set<nat>)

  // NarrowingVisitor on an expression.
  function Narrow(c: Cond, known: set<nat>, tracked: set<nat>): Facts {
    match c
    case IsNull(v) => if v in tracked then Facts(known - {v}, known + {v}) else Facts(known, known)
    case NotNull(v) => if v in tracked then Facts(known + {v}, known - {v}) else Facts(known, known)
    case And(l, r) =>
      var a := Narrow(l, known, tracked);
      var b := Narrow(r, a.onTrue, tracked);
      Facts(b.onTrue, a.onFalse * b.onFalse)
    case Or(l, r) =>
      var a := Narrow(l, known, tracked);
      var b := Narrow(r, a.onFalse, tracked);
      Facts(a.onTrue * b.onTrue, b.onFalse)
    case _ => Facts(known, known)
  }

  // The reads through unproven references it reports.
  predicate Reported(c: Cond, known: set<nat>, tracked: set<nat>) {
    match c
    case And(l, r) => Reported(l, known, tracked) || Reported(r, Narrow(l, known, tracked).onTrue, tracked)
    case Or(l, r) => Reported(l, known, tracked) || Reported(r, Narrow(l, known, tracked).onFalse, tracked)
    case Not(d) => Reported(d, known, tracked)
    case Through(v, _) => v in tracked && v !in known
    case _ => false
  }

  // classifyRHSNonNull
  predicate Classified(src: Source, known: set<nat>, tracked: set<nat>) {
    match src
    case AddressOf => true
    case PlainRef => true
    case Copy(v) => v in tracked && v in known
    case _ => false
  }

  function NarrowStmt(stmt: Stmt, known: set<nat>, tracked: set<nat>): Facts {
    match stmt
    case Set(v, src) =>
      if v !in tracked then Facts(known, known)
      else
        var k := if Classified(src, known, tracked) then known + {v} else known - {v};
        Facts(k, k)
    case Check(c) => Narrow(c, known, tracked)
  }

  // Every statement but a branching last one hands on what holds "on true".
  function Thread(stmts: seq<Stmt>, known: set<nat>, tracked: set<nat>): set<nat> {
    if stmts == [] then known else Thread(stmts[1..], NarrowStmt(stmts[0], known, tracked).onTrue, tracked)
  }

  // The facts edge `i` of `n` carries out of a block.
  function EdgeFacts(b: Block, n: nat, i: nat, known: set<nat>, tracked: set<nat>): set<nat> {
    if b.stmts == [] then known
    else
      var last := |b.stmts| - 1;
      var f := NarrowStmt(b.stmts[last], Thread(b.stmts[..last], known, tracked), tracked);
      if b.end != Jump && n == 2 && i != 0 then f.onFalse else f.onTrue
  }

  // ---- One condition ----

  // If the facts hold before, what is narrowed holds in the branch taken.
  lemma {:induction false} NarrowIsSound(c: Cond, known: set<nat>, s: set<nat>, w: World, tracked: set<nat>)
    requires known <= s
    ensures Value(c, s, w) ==> Narrow(c, known, tracked).onTrue <= s
    ensures !Value(c, s, w) ==> Narrow(c, known, tracked).onFalse <= s
  {
    match c
    case And(l, r) =>
      NarrowIsSound(l, known, s, w, tracked);
      if Value(l, s, w) {
        NarrowIsSound(r, Narrow(l, known, tracked).onTrue, s, w, tracked);
      }
    case Or(l, r) =>
      NarrowIsSound(l, known, s, w, tracked);
      if !Value(l, s, w) {
        NarrowIsSound(r, Narrow(l, known, tracked).onFalse, s, w, tracked);
      }
    case _ =>
  }

  // A condition with nothing reported reads through no null reference.
  lemma {:induction false} UnreportedIsSafe(c: Cond, known: set<nat>, s: set<nat>, w: World, tracked: set<nat>)
    requires known <= s && !Reported(c, known, tracked)
    ensures Safe(c, s, w, tracked)
  {
    match c
    case And(l, r) =>
      UnreportedIsSafe(l, known, s, w, tracked);
      if Value(l, s, w) {
        NarrowIsSound(l, known, s, w, tracked);
        UnreportedIsSafe(r, Narrow(l, known, tracked).onTrue, s, w, tracked);
      }
    case Or(l, r) =>
      UnreportedIsSafe(l, known, s, w, tracked);
      if !Value(l, s, w) {
        NarrowIsSound(l, known, s, w, tracked);
        UnreportedIsSafe(r, Narrow(l, known, tracked).onFalse, s, w, tracked);
      }
    case Not(d) => UnreportedIsSafe(d, known, s, w, tracked);
    case _ =>
  }

  // ---- Facts about one variable depend on that variable alone ----

  lemma {:induction false} NarrowIsPointwise(c: Cond, a: set<nat>, b: set<nat>, tracked: set<nat>, v: nat)
    requires v in a ==> v in b
    ensures v in Narrow(c, a, tracked).onTrue ==> v in Narrow(c, b, tracked).onTrue
    ensures v in Narrow(c, a, tracked).onFalse ==> v in Narrow(c, b, tracked).onFalse
  {
    match c
    case And(l, r) =>
      NarrowIsPointwise(l, a, b, tracked, v);
      NarrowIsPointwise(r, Narrow(l, a, tracked).onTrue, Narrow(l, b, tracked).onTrue, tracked, v);
    case Or(l, r) =>
      NarrowIsPointwise(l, a, b, tracked, v);
      NarrowIsPointwise(r, Narrow(l, a, tracked).onFalse, Narrow(l, b, tracked).onFalse, tracked, v);
    case _ =>
  }

  lemma NarrowIsMonotone(c: Cond, a: set<nat>, b: set<nat>, tracked: set<nat>)
    requires a <= b
    ensures Narrow(c, a, tracked).onTrue <= Narrow(c, b, tracked).onTrue
    ensures Narrow(c, a, tracked).onFalse <= Narrow(c, b, tracked).onFalse
  {
    forall v
      ensures v in Narrow(c, a, tracked).onTrue ==> v in Narrow(c, b, tracked).onTrue
      ensures v in Narrow(c, a, tracked).onFalse ==> v in Narrow(c, b, tracked).onFalse
    {
      if v in a || v !in a {
        NarrowIsPointwise(c, a, b, tracked, v);
      }
    }
  }

  // ---- Where narrowing is not justified ----

  // A condition that proves nothing from nothing: it may be threaded, its
  // value unseen.
  predicate Quiet(c: Cond, tracked: set<nat>) {
    Narrow(c, {}, tracked).onTrue == {}
  }

  // A guard whose falsehood proves nothing: a header may fail without it.
  predicate QuietWhenFalse(c: Cond, tracked: set<nat>) {
    Narrow(c, {}, tracked).onFalse == {}
  }

  // What `c`, having come out as `outcome`, says about `v`: the last comparison
  // of v evaluated on every way to that outcome.
  datatype Verdict = Silent | NonNull | MaybeNull

  function Later(a: Verdict, b: Verdict): Verdict {
    if b.Silent? then a else b
  }

  function Either(a: Verdict, b: Verdict): Verdict {
    if a.MaybeNull? || b.MaybeNull? then MaybeNull
    else if a.NonNull? && b.NonNull? then NonNull
    else Silent
  }

  function Says(c: Cond, v: nat, outcome: bool): Verdict {
    match c
    case IsNull(u) => if u != v then Silent else if outcome then MaybeNull else NonNull
    case NotNull(u) => if u != v then Silent else if outcome then NonNull else MaybeNull
    case And(l, r) =>
      var both := Later(Says(l, v, true), Says(r, v, outcome));
      if outcome then both else Either(Says(l, v, false), both)
    case Or(l, r) =>
      var both := Later(Says(l, v, false), Says(r, v, outcome));
      if outcome then Either(Says(l, v, true), both) else both
    case _ => Silent
  }

  predicate Holds(verdict: Verdict, before: bool) {
    verdict.NonNull? || (verdict.Silent? && before)
  }

  lemma VerdictsCombine(a: Verdict, b: Verdict, before: bool)
    ensures Holds(Later(a, b), before) == Holds(b, Holds(a, before))
    ensures Holds(Either(a, b), before) == (Holds(a, before) && Holds(b, before))
  {
  }

  // The facts computed are the comparisons' verdicts, one variable at a time.
  lemma {:induction false} NarrowIsVerdict(c: Cond, known: set<nat>, tracked: set<nat>, v: nat)
    requires v in tracked
    ensures v in Narrow(c, known, tracked).onTrue <==> Holds(Says(c, v, true), v in known)
    ensures v in Narrow(c, known, tracked).onFalse <==> Holds(Says(c, v, false), v in known)
    decreases c, 1
  {
    match c
    case And(l, r) => BothAreVerdicts(c, l, r, known, tracked, v);
    case Or(l, r) => BothAreVerdicts(c, l, r, known, tracked, v);
    case _ =>
  }

  lemma {:induction false} BothAreVerdicts(c: Cond, l: Cond, r: Cond, known: set<nat>, tracked: set<nat>, v: nat)
    requires v in tracked && (c == And(l, r) || c == Or(l, r))
    ensures v in Narrow(c, known, tracked).onTrue <==> Holds(Says(c, v, true), v in known)
    ensures v in Narrow(c, known, tracked).onFalse <==> Holds(Says(c, v, false), v in known)
    decreases c, 0
  {
    hide Holds, Later, Either;
    var first := Narrow(l, known, tracked);
    NarrowIsVerdict(l, known, tracked, v);
    NarrowIsVerdict(r, if c.And? then first.onTrue else first.onFalse, tracked, v);
    VerdictsCombine(Says(l, v, c.And?), Says(r, v, true), v in known);
    VerdictsCombine(Says(l, v, c.And?), Says(r, v, false), v in known);
    VerdictsCombine(Says(l, v, !c.And?), Later(Says(l, v, c.And?), Says(r, v, !c.And?)), v in known);
  }

  // So whether a condition is quiet shows in its comparisons.
  lemma QuietShows(c: Cond, tracked: set<nat>)
    ensures Quiet(c, tracked) <==> forall v :: v in tracked ==> Says(c, v, true) != NonNull
    ensures QuietWhenFalse(c, tracked) <==> forall v :: v in tracked ==> Says(c, v, false) != NonNull
  {
    forall v
      ensures v in tracked ==> (v in Narrow(c, {}, tracked).onTrue <==> Says(c, v, true).NonNull?)
      ensures v in tracked ==> (v in Narrow(c, {}, tracked).onFalse <==> Says(c, v, false).NonNull?)
      ensures v !in tracked ==> v !in Narrow(c, {}, tracked).onTrue && v !in Narrow(c, {}, tracked).onFalse
    {
      if v in tracked {
        NarrowIsVerdict(c, {}, tracked, v);
      } else {
        UntrackedIsUnproven(c, {}, tracked, v);
      }
    }
  }

  lemma {:induction false} UntrackedIsUnproven(c: Cond, known: set<nat>, tracked: set<nat>, v: nat)
    requires v !in tracked && v !in known
    ensures v !in Narrow(c, known, tracked).onTrue && v !in Narrow(c, known, tracked).onFalse
  {
    match c
    case And(l, r) =>
      UntrackedIsUnproven(l, known, tracked, v);
      UntrackedIsUnproven(r, Narrow(l, known, tracked).onTrue, tracked, v);
    case Or(l, r) =>
      UntrackedIsUnproven(l, known, tracked, v);
      UntrackedIsUnproven(r, Narrow(l, known, tracked).onFalse, tracked, v);
    case _ =>
  }

  // A statement's value is not looked at, yet its "on true" facts are kept:
  // right for every state exactly when the condition is quiet.
  lemma ThreadingIsSoundIffQuiet(c: Cond, tracked: set<nat>)
    ensures (forall known: set<nat>, s: set<nat> :: known <= s ==> Narrow(c, known, tracked).onTrue <= s) <==> Quiet(c, tracked)
    ensures Quiet(c, tracked) <==> forall v :: v in tracked ==> Says(c, v, true) != NonNull
  {
    QuietShows(c, tracked);
    if Quiet(c, tracked) {
      forall known: set<nat>, s: set<nat> | known <= s
        ensures Narrow(c, known, tracked).onTrue <= s
      {
        QuietAddsNothing(c, known, tracked);
      }
    } else {
      var none: set<nat> := {};
      assert none <= none && !(Narrow(c, none, tracked).onTrue <= none);
    }
  }

  lemma QuietAddsNothing(c: Cond, known: set<nat>, tracked: set<nat>)
    ensures Quiet(c, tracked) ==> Narrow(c, known, tracked).onTrue <= known
    ensures QuietWhenFalse(c, tracked) ==> Narrow(c, known, tracked).onFalse <= known
  {
    forall v | v !in known
      ensures v in Narrow(c, known, tracked).onTrue ==> v in Narrow(c, {}, tracked).onTrue
      ensures v in Narrow(c, known, tracked).onFalse ==> v in Narrow(c, {}, tracked).onFalse
    {
      NarrowIsPointwise(c, known, {}, tracked, v);
    }
  }

  // A header's second edge is also taken when the pattern does not match: its
  // "on false" facts are right for every state exactly when they are quiet.
  lemma HeaderIsSoundIffQuiet(c: Cond, tracked: set<nat>)
    ensures (forall known: set<nat>, s: set<nat> :: known <= s ==> Narrow(c, known, tracked).onFalse <= s) <==> QuietWhenFalse(c, tracked)
    ensures QuietWhenFalse(c, tracked) <==> forall v :: v in tracked ==> Says(c, v, false) != NonNull
  {
    QuietShows(c, tracked);
    if QuietWhenFalse(c, tracked) {
      forall known: set<nat>, s: set<nat> | known <= s
        ensures Narrow(c, known, tracked).onFalse <= s
      {
        QuietAddsNothing(c, known, tracked);
      }
    } else {
      var none: set<nat> := {};
      assert none <= none && !(Narrow(c, none, tracked).onFalse <= none);
    }
  }

  // `p != null;` on its own line, then a read through p: nothing is reported,
  // and p is null.
  lemma DiscardedComparisonFails(w: World)
    ensures var b := Block([Check(NotNull(0)), Check(Through(0, 1))], Jump);
            && !Reported(b.stmts[1].c, Thread(b.stmts[..1], {}, {0}), {0})
            && !Safe(b.stmts[1].c, AfterAll(b.stmts[..1], {}, w), w, {0})
  {
    var stmts := [Check(NotNull(0)), Check(Through(0, 1))];
    assert stmts[..1] == [Check(NotNull(0))];
    assert stmts[..1][1..] == [];
  }

  // `compare x { matches 1 if p == null: ... matches 2: ... p.val ... }`: the
  // edge to the second header carries "p is not null" though the first
  // pattern may simply not have matched.
  lemma UnmatchedGuardFails(w: World)
    requires !w.matched
    ensures var b := Block([Check(IsNull(0))], Header);
            && EdgeTaken(b, 2, 1, {}, w) && {} == AfterAll(b.stmts, {}, w)
            && EdgeFacts(b, 2, 1, {}, {0}) == {0}
  {
    var stmts := [Check(IsNull(0))];
    assert stmts[..0] == [] && stmts[1..] == [];
  }

  // ---- Whole functions ----

  // With state `s` at the block's start, `w` sends control along edge `i` of `n`.
  predicate EdgeTaken(b: Block, n: nat, i: nat, s: set<nat>, w: World) {
    if b.stmts == [] then true
    else
      var last := |b.stmts| - 1;
      var here := AfterAll(b.stmts[..last], s, w);
      match b.end
      case Jump => true
      case Branch => b.stmts[last].Check? ==> n != 2 || (i == 0 <==> Value(b.stmts[last].c, here, w))
      case Header => b.stmts[last].Check? ==> (i == 0 <==> w.matched && Value(b.stmts[last].c, here, w))
  }

  // No block keeps facts of a condition that did not decide where control went.
  predicate Decisive(b: Block, n: nat, tracked: set<nat>) {
    && (forall k: nat :: k + 1 < |b.stmts| && b.stmts[k].Check? ==> Quiet(b.stmts[k].c, tracked))
    && (b.stmts != [] && b.stmts[|b.stmts| - 1].Check? ==>
          var c := b.stmts[|b.stmts| - 1].c;
          match b.end
          case Jump => Quiet(c, tracked)
          case Branch => n == 2 || Quiet(c, tracked)
          case Header => if n == 2 then QuietWhenFalse(c, tracked) else n == 1)
  }

  function Transfers(g: Graph, blocks: seq<Block>, tracked: set<nat>): Transfer {
    (p: nat, i: nat, known: set<nat>) =>
      if p < |blocks| && p < |g.succs| then EdgeFacts(blocks[p], |g.succs[p]|, i, known, tracked) else known
  }

  lemma StmtIsMonotone(stmt: Stmt, a: set<nat>, b: set<nat>, tracked: set<nat>)
    requires a <= b
    ensures NarrowStmt(stmt, a, tracked).onTrue <= NarrowStmt(stmt, b, tracked).onTrue
    ensures NarrowStmt(stmt, a, tracked).onFalse <= NarrowStmt(stmt, b, tracked).onFalse
  {
    if stmt.Check? {
      NarrowIsMonotone(stmt.c, a, b, tracked);
    }
  }

  lemma {:induction false} ThreadIsMonotone(stmts: seq<Stmt>, a: set<nat>, b: set<nat>, tracked: set<nat>)
    requires a <= b
    ensures Thread(stmts, a, tracked) <= Thread(stmts, b, tracked)
  {
    if stmts != [] {
      StmtIsMonotone(stmts[0], a, b, tracked);
      ThreadIsMonotone(stmts[1..], NarrowStmt(stmts[0], a, tracked).onTrue, NarrowStmt(stmts[0], b,
          tracked).onTrue, tracked);
    }
  }

  lemma TransfersAreMonotone(g: Graph, blocks: seq<Block>, tracked: set<nat>, top: set<nat>)
    ensures Monotone(Transfers(g, blocks, tracked), top)
  {
    var f := Transfers(g, blocks, tracked);
    forall p: nat, i: nat, a: set<nat>, b: set<nat> | a <= b <= top
      ensures f(p, i, a) <= f(p, i, b)
    {
      if p < |blocks| && blocks[p].stmts != [] {
        var last := |blocks[p].stmts| - 1;
        ThreadIsMonotone(blocks[p].stmts[..last], a, b, tracked);
        StmtIsMonotone(blocks[p].stmts[last], Thread(blocks[p].stmts[..last], a, tracked),
            Thread(blocks[p].stmts[..last], b, tracked), tracked);
      }
    }
  }

  lemma StmtIsSound(stmt: Stmt, known: set<nat>, s: set<nat>, w: World, tracked: set<nat>)
    requires known <= s && known <= tracked
    requires stmt.Check? ==> Quiet(stmt.c, tracked)
    ensures NarrowStmt(stmt, known, tracked).onTrue <= After(stmt, s, w)
    ensures NarrowStmt(stmt, known, tracked).onTrue <= tracked
  {
    if stmt.Check? {
      QuietAddsNothing(stmt.c, known, tracked);
    }
  }

  lemma {:induction false} ThreadIsSound(stmts: seq<Stmt>, known: set<nat>, s: set<nat>, w: World, tracked: set<nat>)
    requires known <= s && known <= tracked
    requires forall k: nat :: k < |stmts| && stmts[k].Check? ==> Quiet(stmts[k].c, tracked)
    ensures Thread(stmts, known, tracked) <= AfterAll(stmts, s, w)
    ensures Thread(stmts, known, tracked) <= tracked
  {
    if stmts != [] {
      StmtIsSound(stmts[0], known, s, w, tracked);
      ThreadIsSound(stmts[1..], NarrowStmt(stmts[0], known, tracked).onTrue, After(stmts[0], s, w), w, tracked);
    }
  }

  lemma {:induction false} AfterAllLast(stmts: seq<Stmt>, s: set<nat>, w: World)
    requires stmts != []
    ensures AfterAll(stmts, s, w) == After(stmts[|stmts| - 1], AfterAll(stmts[..|stmts| - 1], s, w), w)
  {
    if |stmts| > 1 {
      AfterAllLast(stmts[1..], After(stmts[0], s, w), w);
      assert stmts[..|stmts| - 1][1..] == stmts[1..][..|stmts| - 2];
    } else {
      assert stmts[1..] == [] && stmts[..0] == [];
    }
  }

  // Through a decisive block, along the edge control takes, facts stay true.
  lemma EdgeIsSound(b: Block, n: nat, i: nat, known: set<nat>, s: set<nat>, w: World, tracked: set<nat>)
    requires known <= s && known <= tracked && i < n
    requires Decisive(b, n, tracked) && EdgeTaken(b, n, i, s, w)
    ensures EdgeFacts(b, n, i, known, tracked) <= AfterAll(b.stmts, s, w)
  {
    if b.stmts != [] {
      var last := |b.stmts| - 1;
      var init := b.stmts[..last];
      var mid, here := Thread(init, known, tracked), AfterAll(init, s, w);
      ThreadIsSound(init, known, s, w, tracked);
      AfterAllLast(b.stmts, s, w);
      if b.stmts[last].Check? {
        NarrowIsSound(b.stmts[last].c, mid, here, w, tracked);
        QuietAddsNothing(b.stmts[last].c, mid, tracked);
      }
    }
  }

  // A run: the blocks passed, the state at each one's start, and what each
  // visit found.
  ghost predicate IsRun(g: Graph, blocks: seq<Block>, entry: nat, p: seq<nat>, states: seq<set<nat>>, w: seq<World>) {
    && |p| == |states| == |w| && |p| > 0 && p[0] == entry
    && (forall k: nat :: k < |p| ==> p[k] < |g.succs| == |blocks|)
    && forall k: nat :: k + 1 < |p| ==> Steps(g, blocks, p[k], states[k], w[k], p[k + 1], states[k + 1])
  }

  ghost predicate Steps(g: Graph, blocks: seq<Block>, b: nat, s: set<nat>, w: World, next: nat, t: set<nat>) {
    && b < |g.succs| == |blocks| && t == AfterAll(blocks[b].stmts, s, w)
    && exists i: nat :: i < |g.succs[b]| && g.succs[b][i] == next && EdgeTaken(blocks[b], |g.succs[b]|, i, s, w)
  }

  // Every statement the pass reports on, with the facts it has there.
  predicate ReportedAt(b: Block, k: nat, known: set<nat>, tracked: set<nat>)
    requires k < |b.stmts|
  {
    b.stmts[k].Check? && Reported(b.stmts[k].c, Thread(b.stmts[..k], known, tracked), tracked)
  }

  // On every run the facts at a block are true of the state it starts in.
  lemma {:induction false} FactsHold(g: Graph, blocks: seq<Block>, entry: nat, tracked: set<nat>,
      facts: seq<set<nat>>, p: seq<nat>, states: seq<set<nat>>, w: seq<World>, k: nat)
    requires g.Valid() && |blocks| == |g.succs| && entry < |g.succs|
    requires forall b: nat :: b < |blocks| ==> Decisive(blocks[b], |g.succs[b]|, tracked) && entry !in g.succs[b]
    requires Solution(g, entry, tracked, {}, Transfers(g, blocks, tracked), facts)
    requires IsRun(g, blocks, entry, p, states, w) && k < |p|
    ensures facts[p[k]] <= states[k] && facts[p[k]] <= tracked
  {
    if k > 0 {
      FactsHold(g, blocks, entry, tracked, facts, p, states, w, k - 1);
      var b := p[k - 1];
      assert Steps(g, blocks, b, states[k - 1], w[k - 1], p[k - 1 + 1], states[k - 1 + 1]);
      var i: nat :| i < |g.succs[b]| && g.succs[b][i] == p[k] && EdgeTaken(blocks[b], |g.succs[b]|, i, states[k - 1], w[k - 1]);
      EdgeIsSound(blocks[b], |g.succs[b]|, i, facts[b], states[k - 1], w[k - 1], tracked);
      assert g.succs[b][i] != entry;
    }
  }

  // A statement of a run, with nothing reported on it, reads through no null.
  lemma UnreportedRunsSafely(b: Block, n: nat, k: nat, known: set<nat>, s: set<nat>, w: World, tracked: set<nat>)
    requires known <= s && known <= tracked && Decisive(b, n, tracked)
    requires k < |b.stmts| && b.stmts[k].Check? && !ReportedAt(b, k, known, tracked)
    ensures Safe(b.stmts[k].c, AfterAll(b.stmts[..k], s, w), w, tracked)
  {
    ThreadIsSound(b.stmts[..k], known, s, w, tracked);
    UnreportedIsSafe(b.stmts[k].c, Thread(b.stmts[..k], known, tracked), AfterAll(b.stmts[..k], s, w), w, tracked);
  }

  lemma {:induction false} ThreadStep(stmts: seq<Stmt>, k: nat, known: set<nat>, tracked: set<nat>)
    requires k < |stmts|
    ensures Thread(stmts[..k + 1], known, tracked) == NarrowStmt(stmts[k], Thread(stmts[..k], known, tracked),
        tracked).onTrue
  {
    if k == 0 {
      assert stmts[..1] == [stmts[0]] && stmts[..1][1..] == [] && stmts[..0] == [];
    } else {
      ThreadStep(stmts[1..], k - 1, NarrowStmt(stmts[0], known, tracked).onTrue, tracked);
      assert stmts[..k + 1][1..] == stmts[1..][..k];
      assert stmts[..k][1..] == stmts[1..][..k - 1];
    }
  }

  // Every block hands facts on only where they are justified.
  predicate AllDecisive(g: Graph, blocks: seq<Block>, tracked: set<nat>)
    requires |blocks| == |g.succs|
  {
    forall b: nat :: b < |blocks| ==> Decisive(blocks[b], |g.succs[b]|, tracked)
  }

  // Statements of block `b` without an error read through no null reference.
  ghost predicate SafeBlock(blocks: seq<Block>, b: nat, errors: set<(nat, nat)>, s: set<nat>, w: World,
      tracked: set<nat>) {
    b < |blocks| &&
    forall k: nat :: k < |blocks[b].stmts| && blocks[b].stmts[k].Check? && (b, k) !in errors ==>
      Safe(blocks[b].stmts[k].c, AfterAll(blocks[b].stmts[..k], s, w), w, tracked)
  }

  ghost predicate SafeRun(blocks: seq<Block>, tracked: set<nat>, facts: seq<set<nat>>, errors: set<(nat, nat)>,
      p: seq<nat>, states: seq<set<nat>>, w: seq<World>) {
    && |p| == |states| == |w|
    && forall i: nat :: i < |p| ==>
         p[i] < |facts| && facts[p[i]] <= states[i] && SafeBlock(blocks, p[i], errors, states[i], w[i], tracked)
  }

  // On every run the facts are true, and what no error is reported on reads
  // through no null reference.
  ghost predicate Vouched(g: Graph, blocks: seq<Block>, entry: nat, tracked: set<nat>, facts: seq<set<nat>>,
      errors: set<(nat, nat)>) {
    forall p, states, w :: IsRun(g, blocks, entry, p, states, w) ==> SafeRun(blocks, tracked, facts, errors, p, states, w)
  }

  ghost predicate ReportsExactly(blocks: seq<Block>, tracked: set<nat>, facts: seq<set<nat>>, errors: set<(nat, nat)>)
    requires |facts| == |blocks|
  {
    forall b: nat, k: nat :: (b, k) in errors <==> b < |blocks| && k < |blocks[b].stmts| && ReportedAt(blocks[b], k, facts[b], tracked)
  }

  lemma RunsAreVouched(g: Graph, entry: nat, blocks: seq<Block>, tracked: set<nat>, facts: seq<set<nat>>,
      errors: set<(nat, nat)>)
    requires g.Valid() && |blocks| == |g.succs| == |facts| && entry < |g.succs|
    requires forall b: nat :: b < |blocks| ==> entry !in g.succs[b]
    requires AllDecisive(g, blocks, tracked)
    requires Solution(g, entry, tracked, {}, Transfers(g, blocks, tracked), facts)
    requires ReportsExactly(blocks, tracked, facts, errors)
    ensures Vouched(g, blocks, entry, tracked, facts, errors)
  {
    hide Solution, Transfers, Decisive, ReportedAt, Safe;
    forall p, states, w | IsRun(g, blocks, entry, p, states, w)
      ensures SafeRun(blocks, tracked, facts, errors, p, states, w)
    {
      forall i: nat | i < |p|
        ensures p[i] < |facts| && facts[p[i]] <= states[i] && SafeBlock(blocks, p[i], errors, states[i], w[i], tracked)
      {
        FactsHold(g, blocks, entry, tracked, facts, p, states, w, i);
        var b := blocks[p[i]];
        forall k: nat | k < |b.stmts| && b.stmts[k].Check? && (p[i], k) !in errors
          ensures Safe(b.stmts[k].c, AfterAll(b.stmts[..k], states[i], w[i]), w[i], tracked)
        {
          assert Decisive(b, |g.succs[p[i]]|, tracked);
          UnreportedRunsSafely(b, |g.succs[p[i]]|, k, facts[p[i]], states[i], w[i], tracked);
        }
      }
    }
  }

  // ---- What is proven, without the pass ----

  // `src` is not null in any state that `known` describes.
  ghost predicate Certain(src: Source, known: set<nat>) {
    forall s: set<nat>, w: World :: known <= s ==> Given(src, s, w)
  }

  lemma CertainShows(src: Source, known: set<nat>)
    ensures Certain(src, known) <==> src.AddressOf? || src.PlainRef? || (src.Copy? && src.v in known)
  {
    var w := World(_ => false, _ => false, false);
    assert known <= known;
    assert Given(src, known, w) == (src.AddressOf? || src.PlainRef? || (src.Copy? && src.v in known));
  }

  // The classification finds every source that is certain, and no other.
  lemma ClassifiedIsCertain(src: Source, known: set<nat>, tracked: set<nat>)
    requires known <= tracked
    ensures Classified(src, known, tracked) <==> forall s: set<nat>, w: World :: known <= s ==> Given(src, s, w)
  {
    CertainShows(src, known);
  }

  // Proven after a statement whose condition came out as `outcome`.
  ghost function Learned(stmt: Stmt, outcome: bool, known: set<nat>, tracked: set<nat>): set<nat> {
    set v | v in tracked && LearnedOf(stmt, outcome, known, v)
  }

  ghost predicate LearnedOf(stmt: Stmt, outcome: bool, known: set<nat>, v: nat) {
    match stmt
    case Set(u, src) => if u == v then Certain(src, known) else v in known
    case Check(c) => Holds(Says(c, v, outcome), v in known)
  }

  // Proven after statements that do not end the block.
  ghost function LearnedAll(stmts: seq<Stmt>, known: set<nat>, tracked: set<nat>): set<nat> {
    if stmts == [] then known
    else Learned(stmts[|stmts| - 1], true, LearnedAll(stmts[..|stmts| - 1], known, tracked), tracked)
  }

  // Proven along edge `i` of `n`: the first of a condition's two edges is
  // taken when it is true, the second when it is false.
  ghost function Carried(b: Block, n: nat, i: nat, known: set<nat>, tracked: set<nat>): set<nat> {
    if b.stmts == [] then known
    else
      var last := |b.stmts| - 1;
      Learned(b.stmts[last], b.end == Jump || n != 2 || i == 0, LearnedAll(b.stmts[..last], known, tracked), tracked)
  }

  lemma StmtIsLearned(stmt: Stmt, known: set<nat>, tracked: set<nat>)
    requires known <= tracked
    ensures NarrowStmt(stmt, known, tracked).onTrue == Learned(stmt, true, known, tracked)
    ensures NarrowStmt(stmt, known, tracked).onFalse == Learned(stmt, false, known, tracked)
  {
    hide Narrow, Says, Certain;
    match stmt
    case Set(v, src) => ClassifiedIsLearned(v, src, known, tracked);
    case Check(c) =>
      forall v
        ensures v in Narrow(c, known, tracked).onTrue <==> v in tracked && Holds(Says(c, v, true), v in known)
        ensures v in Narrow(c, known, tracked).onFalse <==> v in tracked && Holds(Says(c, v, false), v in known)
      {
        if v in tracked {
          NarrowIsVerdict(c, known, tracked, v);
        } else {
          UntrackedIsUnproven(c, known, tracked, v);
        }
      }
  }

  lemma ClassifiedIsLearned(v: nat, src: Source, known: set<nat>, tracked: set<nat>)
    requires known <= tracked
    ensures forall outcome ::
      Learned(Set(v, src), outcome, known, tracked) == NarrowStmt(Set(v, src), known, tracked).onTrue
  {
    CertainShows(src, known);
  }

  lemma {:induction false} ThreadIsLearned(stmts: seq<Stmt>, known: set<nat>, tracked: set<nat>)
    requires known <= tracked
    ensures Thread(stmts, known, tracked) == LearnedAll(stmts, known, tracked) <= tracked
  {
    hide Learned;
    if stmts != [] {
      var last := |stmts| - 1;
      ThreadIsLearned(stmts[..last], known, tracked);
      ThreadStep(stmts, last, known, tracked);
      assert stmts[..last + 1] == stmts;
      StmtIsLearned(stmts[last], Thread(stmts[..last], known, tracked), tracked);
      LearnedIsTracked(stmts[last], true, Thread(stmts[..last], known, tracked), tracked);
    }
  }

  lemma LearnedIsTracked(stmt: Stmt, outcome: bool, known: set<nat>, tracked: set<nat>)
    ensures Learned(stmt, outcome, known, tracked) <= tracked
  {
  }

  // What an edge is computed to carry is what is proven along it.
  lemma EdgeIsCarried(b: Block, n: nat, i: nat, known: set<nat>, tracked: set<nat>)
    requires known <= tracked
    ensures EdgeFacts(b, n, i, known, tracked) == Carried(b, n, i, known, tracked) <= tracked
  {
    hide Learned, LearnedAll, Thread, NarrowStmt;
    if b.stmts != [] {
      var last := |b.stmts| - 1;
      ThreadIsLearned(b.stmts[..last], known, tracked);
      StmtIsLearned(b.stmts[last], Thread(b.stmts[..last], known, tracked), tracked);
      LearnedIsTracked(b.stmts[last], true, Thread(b.stmts[..last], known, tracked), tracked);
      LearnedIsTracked(b.stmts[last], false, Thread(b.stmts[..last], known, tracked), tracked);
    }
  }

  // So after `if (c)` the facts on either edge are c's verdicts.
  lemma BranchEdgeIsVerdict(b: Block, i: nat, known: set<nat>, tracked: set<nat>, v: nat)
    requires known <= tracked && v in tracked && i < 2
    requires b.end == Branch && b.stmts != [] && b.stmts[|b.stmts| - 1].Check?
    ensures v in EdgeFacts(b, 2, i, known, tracked) <==>
      Holds(Says(b.stmts[|b.stmts| - 1].c, v, i == 0), v in LearnedAll(b.stmts[..|b.stmts| - 1], known, tracked))
  {
    hide LearnedAll;
    EdgeIsCarried(b, 2, i, known, tracked);
  }

  // ---- The places in a condition that read through a reference ----

  // From the root: left or only operand, or the right one.
  function Operand(c: Cond, path: seq<bool>): Option<Cond>
    decreases |path|
  {
    if path == [] then Some(c)
    else
      match c
      case And(l, r) => Operand(if path[0] then r else l, path[1..])
      case Or(l, r) => Operand(if path[0] then r else l, path[1..])
      case Not(d) => if path[0] then None else Operand(d, path[1..])
      case _ => None
  }

  // Whether `v` is proven when evaluation comes to that operand: by what held
  // before and the comparisons of the operands it has passed.
  function HeldAt(c: Cond, path: seq<bool>, v: nat, before: bool): bool
    decreases |path|
  {
    if path == [] then before
    else
      match c
      case And(l, r) =>
        if path[0] then HeldAt(r, path[1..], v, Holds(Says(l, v, true), before)) else HeldAt(l, path[1..], v, before)
      case Or(l, r) =>
        if path[0] then HeldAt(r, path[1..], v, Holds(Says(l, v, false), before)) else HeldAt(l, path[1..], v, before)
      case Not(d) => HeldAt(d, path[1..], v, before)
      case _ => before
  }

  ghost predicate UnprovenAt(c: Cond, path: seq<bool>, known: set<nat>, tracked: set<nat>) {
    var leaf := Operand(c, path);
    leaf.Some? && leaf.value.Through? && leaf.value.v in tracked && !HeldAt(c, path, leaf.value.v, leaf.value.v in known)
  }

  ghost predicate Unproven(c: Cond, known: set<nat>, tracked: set<nat>) {
    exists path :: UnprovenAt(c, path, known, tracked)
  }

  lemma UnprovenUnder(c: Cond, d: Cond, right: bool, known: set<nat>, next: set<nat>, tracked: set<nat>)
    requires c.And? || c.Or? ==> d == if right then c.r else c.l
    requires c.And? || c.Or? || (c.Not? && d == c.c && !right)
    requires forall v :: v in tracked ==>
      (v in next <==> if right then Holds(Says(c.l, v, c.And?), v in known) else v in known)
    ensures Unproven(d, next, tracked) <==> exists path :: path != [] && path[0] == right && UnprovenAt(c, path, known, tracked)
  {
    if path :| UnprovenAt(d, path, next, tracked) {
      assert ([right] + path)[1..] == path;
      assert UnprovenAt(c, [right] + path, known, tracked);
    }
    if path :| path != [] && path[0] == right && UnprovenAt(c, path, known, tracked) {
      assert UnprovenAt(d, path[1..], next, tracked);
    }
  }

  // A condition is reported exactly if some reading operand is unproven.
  lemma {:induction false} ReportedIsUnproven(c: Cond, known: set<nat>, tracked: set<nat>)
    ensures Reported(c, known, tracked) <==> Unproven(c, known, tracked)
  {
    hide UnprovenAt, Says, Holds, Narrow;
    if c.And? || c.Or? {
      var first := Narrow(c.l, known, tracked);
      var next := if c.And? then first.onTrue else first.onFalse;
      forall v | v in tracked
        ensures v in next <==> Holds(Says(c.l, v, c.And?), v in known)
      {
        NarrowIsVerdict(c.l, known, tracked, v);
      }
      ReportedIsUnproven(c.l, known, tracked);
      ReportedIsUnproven(c.r, next, tracked);
      UnprovenUnder(c, c.l, false, known, known, tracked);
      UnprovenUnder(c, c.r, true, known, next, tracked);
      UnprovenSplits(c, known, tracked);
    } else if c.Not? {
      ReportedIsUnproven(c.c, known, tracked);
      UnprovenUnder(c, c.c, false, known, known, tracked);
      UnprovenSplits(c, known, tracked);
    } else {
      OnlyTheLeaf(c, known, tracked);
    }
  }

  lemma UnprovenSplits(c: Cond, known: set<nat>, tracked: set<nat>)
    requires c.And? || c.Or? || c.Not?
    ensures !UnprovenAt(c, [], known, tracked)
    ensures c.Not? ==> forall path :: path != [] && path[0] ==> !UnprovenAt(c, path, known, tracked)
  {
  }

  lemma OnlyTheLeaf(c: Cond, known: set<nat>, tracked: set<nat>)
    requires !(c.And? || c.Or? || c.Not?)
    ensures Unproven(c, known, tracked) <==> c.Through? && c.v in tracked && c.v !in known
  {
    assert forall path :: path != [] ==> !UnprovenAt(c, path, known, tracked);
    assert UnprovenAt(c, [], known, tracked) <==> c.Through? && c.v in tracked && c.v !in known;
  }

  // ---- Facts are what holds along every route ----

  // Edges from block `from` to block `to`, each a block and an index among its
  // successors.
  ghost predicate IsRoute(g: Graph, from: nat, route: seq<(nat, nat)>, to: nat)
    decreases |route|
  {
    if route == [] then from == to && to < |g.succs|
    else
      var (p, i) := route[|route| - 1];
      p < |g.succs| && i < |g.succs[p]| && g.succs[p][i] == to && IsRoute(g, from, route[..|route| - 1], p)
  }

  ghost function HeldAlong(g: Graph, blocks: seq<Block>, from: nat, route: seq<(nat, nat)>, to: nat, start: set<nat>,
      tracked: set<nat>): set<nat>
    requires IsRoute(g, from, route, to) && |blocks| == |g.succs|
    decreases |route|
  {
    if route == [] then start
    else
      var (p, i) := route[|route| - 1];
      Carried(blocks[p], |g.succs[p]|, i, HeldAlong(g, blocks, from, route[..|route| - 1], p, start, tracked), tracked)
  }

  // Nothing is known at the function's entry; a block that nothing leads to
  // is taken to start with everything.
  function Start(entry: nat, from: nat, tracked: set<nat>): set<nat> {
    if from == entry then {} else tracked
  }

  ghost predicate HeldOnRoutes(g: Graph, blocks: seq<Block>, entry: nat, tracked: set<nat>, b: nat, v: nat)
    requires |blocks| == |g.succs|
  {
    forall from: nat, route :: IsRoute(g, from, route, b) ==>
      v in HeldAlong(g, blocks, from, route, b, Start(entry, from, tracked), tracked)
  }

  lemma {:induction false} FactsHoldAlong(g: Graph, blocks: seq<Block>, entry: nat, tracked: set<nat>, facts: seq<set<nat>>,
      from: nat, route: seq<(nat, nat)>, b: nat)
    requires g.Valid() && |blocks| == |g.succs| && forall c: nat :: c < |blocks| ==> entry !in g.succs[c]
    requires Solution(g, entry, tracked, {}, Transfers(g, blocks, tracked), facts)
    requires IsRoute(g, from, route, b)
    ensures b < |facts|
    ensures facts[b] <= HeldAlong(g, blocks, from, route, b, Start(entry, from, tracked), tracked) <= tracked
    decreases |route|
  {
    hide EdgeFacts, Carried;
    if route != [] {
      var (p, i) := route[|route| - 1];
      var front := route[..|route| - 1];
      FactsHoldAlong(g, blocks, entry, tracked, facts, from, front, p);
      var held := HeldAlong(g, blocks, from, front, p, Start(entry, from, tracked), tracked);
      assert g.succs[p][i] == b && b != entry;
      var f := Transfers(g, blocks, tracked);
      TransfersAreMonotone(g, blocks, tracked, tracked);
      assert facts[b] <= f(p, i, facts[p]) <= f(p, i, held);
      EdgeIsCarried(blocks[p], |g.succs[p]|, i, held, tracked);
    }
  }

  // What keeps `v` from being proven is one variable, or nothing will do.
  lemma StmtCulprit(stmt: Stmt, outcome: bool, known: set<nat>, tracked: set<nat>, v: nat) returns (u: Option<nat>)
    requires v !in Learned(stmt, outcome, known, tracked)
    ensures u.Some? ==> u.value !in known
    ensures forall other: set<nat> :: (u.Some? ==> u.value !in other) ==> v !in Learned(stmt, outcome, other, tracked)
  {
    hide Certain, Says;
    u := if v in tracked then Some(v) else None;
    if v in tracked {
      match stmt
      case Set(w, src) =>
        if w == v {
          u := if src.Copy? then Some(src.v) else None;
          forall other: set<nat>
            ensures Certain(src, other) <==> src.AddressOf? || src.PlainRef? || (src.Copy? && src.v in other)
          {
            CertainShows(src, other);
          }
        }
      case Check(c) =>
        if Says(c, v, outcome).MaybeNull? {
          u := None;
        }
    }
  }

  lemma {:induction false} StmtsCulprit(stmts: seq<Stmt>, known: set<nat>, tracked: set<nat>, v: nat) returns (u: Option<nat>)
    requires v !in LearnedAll(stmts, known, tracked)
    ensures u.Some? ==> u.value !in known
    ensures forall other: set<nat> :: (u.Some? ==> u.value !in other) ==> v !in LearnedAll(stmts, other, tracked)
    decreases |stmts|
  {
    hide Learned;
    if stmts == [] {
      u := Some(v);
    } else {
      var last := |stmts| - 1;
      u := StmtCulprit(stmts[last], true, LearnedAll(stmts[..last], known, tracked), tracked, v);
      if u.Some? {
        u := StmtsCulprit(stmts[..last], known, tracked, u.value);
      }
    }
  }

  lemma EdgeCulprit(b: Block, n: nat, i: nat, known: set<nat>, tracked: set<nat>, v: nat) returns (u: Option<nat>)
    requires v !in Carried(b, n, i, known, tracked)
    ensures u.Some? ==> u.value !in known
    ensures forall other: set<nat> :: (u.Some? ==> u.value !in other) ==> v !in Carried(b, n, i, other, tracked)
  {
    hide Learned, LearnedAll;
    if b.stmts == [] {
      u := Some(v);
    } else {
      var last := |b.stmts| - 1;
      var outcome := b.end == Jump || n != 2 || i == 0;
      u := StmtCulprit(b.stmts[last], outcome, LearnedAll(b.stmts[..last], known, tracked), tracked, v);
      if u.Some? {
        u := StmtsCulprit(b.stmts[..last], known, tracked, u.value);
      }
    }
  }

  ghost function RouteFacts(g: Graph, blocks: seq<Block>, entry: nat, tracked: set<nat>): seq<set<nat>>
    requires |blocks| == |g.succs|
  {
    seq(|blocks|, b requires 0 <= b < |blocks| => set v | v in tracked && HeldOnRoutes(g, blocks, entry, tracked, b, v))
  }

  // What holds on every route to `b` got through each edge into it.
  lemma RoutesPassEdges(g: Graph, blocks: seq<Block>, entry: nat, tracked: set<nat>, p: nat, i: nat, v: nat)
    requires g.Valid() && |blocks| == |g.succs| && p < |g.succs| && i < |g.succs[p]|
    requires HeldOnRoutes(g, blocks, entry, tracked, g.succs[p][i], v)
    ensures v in Carried(blocks[p], |g.succs[p]|, i, RouteFacts(g, blocks, entry, tracked)[p], tracked)
  {
    hide Carried;
    var known := RouteFacts(g, blocks, entry, tracked)[p];
    if v !in Carried(blocks[p], |g.succs[p]|, i, known, tracked) {
      var u := EdgeCulprit(blocks[p], |g.succs[p]|, i, known, tracked, v);
      var from: nat, route := p, [];
      assert IsRoute(g, p, [], p);
      if u.Some? && u.value in tracked {
        from, route :| IsRoute(g, from, route, p) &&
          u.value !in HeldAlong(g, blocks, from, route, p, Start(entry, from, tracked), tracked);
      }
      assert (route + [(p, i)])[..|route|] == route;
      assert IsRoute(g, from, route + [(p, i)], g.succs[p][i]);
      assert v !in HeldAlong(g, blocks, from, route + [(p, i)], g.succs[p][i], Start(entry, from, tracked), tracked);
      assert false;
    }
  }

  lemma RouteFactsSolve(g: Graph, blocks: seq<Block>, entry: nat, tracked: set<nat>)
    requires g.Valid() && |blocks| == |g.succs| && entry < |blocks|
    ensures Solution(g, entry, tracked, {}, Transfers(g, blocks, tracked), RouteFacts(g, blocks, entry, tracked))
  {
    hide Carried, EdgeFacts, HeldOnRoutes;
    var facts := RouteFacts(g, blocks, entry, tracked);
    EntryHoldsNothing(g, blocks, entry, tracked);
    forall p: nat, i: nat | p < |g.succs| && i < |g.succs[p]|
      ensures facts[g.succs[p][i]] <= Transfers(g, blocks, tracked)(p, i, facts[p])
    {
      EdgeIsCarried(blocks[p], |g.succs[p]|, i, facts[p], tracked);
      forall v | v in facts[g.succs[p][i]]
        ensures v in Carried(blocks[p], |g.succs[p]|, i, facts[p], tracked)
      {
        RoutesPassEdges(g, blocks, entry, tracked, p, i, v);
      }
    }
  }

  lemma EntryHoldsNothing(g: Graph, blocks: seq<Block>, entry: nat, tracked: set<nat>)
    requires |blocks| == |g.succs| && entry < |blocks|
    ensures forall v :: !HeldOnRoutes(g, blocks, entry, tracked, entry, v)
  {
    assert IsRoute(g, entry, [], entry);
  }

  // The greatest solution is what holds along every route, no less.
  lemma FactsAreRouteFacts(g: Graph, blocks: seq<Block>, entry: nat, tracked: set<nat>, facts: seq<set<nat>>)
    requires g.Valid() && |blocks| == |g.succs| && entry < |blocks|
    requires forall b: nat :: b < |blocks| ==> entry !in g.succs[b]
    requires Solution(g, entry, tracked, {}, Transfers(g, blocks, tracked), facts)
    requires forall other :: Solution(g, entry, tracked, {}, Transfers(g, blocks, tracked), other) ==> Below(other, facts)
    ensures FactsOnRoutes(g, blocks, entry, tracked, facts)
  {
    hide Solution, Transfers, HeldAlong;
    RouteFactsSolve(g, blocks, entry, tracked);
    forall b: nat, v | b < |facts|
      ensures v in facts[b] <==> HeldOnRoutes(g, blocks, entry, tracked, b, v)
    {
      if v in facts[b] {
        forall from: nat, route | IsRoute(g, from, route, b)
          ensures v in HeldAlong(g, blocks, from, route, b, Start(entry, from, tracked), tracked)
        {
          FactsHoldAlong(g, blocks, entry, tracked, facts, from, route, b);
        }
      }
      if HeldOnRoutes(g, blocks, entry, tracked, b, v) {
        assert IsRoute(g, b, [], b);
        HeldAtOnce(g, blocks, entry, b, tracked);
        assert v in RouteFacts(g, blocks, entry, tracked)[b];
      }
    }
  }

  lemma HeldAtOnce(g: Graph, blocks: seq<Block>, entry: nat, b: nat, tracked: set<nat>)
    requires |blocks| == |g.succs| && b < |blocks|
    ensures HeldAlong(g, blocks, b, [], b, Start(entry, b, tracked), tracked) <= tracked
  {
  }

  ghost predicate FactsOnRoutes(g: Graph, blocks: seq<Block>, entry: nat, tracked: set<nat>, facts: seq<set<nat>>) {
    && |facts| == |blocks| == |g.succs|
    && forall b: nat, v :: b < |facts| ==> (v in facts[b] <==> HeldOnRoutes(g, blocks, entry, tracked, b, v))
  }

  // Where all that leads to `b` can itself be reached, the routes from the
  // entry decide alone.
  lemma ReachableFacts(g: Graph, blocks: seq<Block>, entry: nat, tracked: set<nat>, facts: seq<set<nat>>, b: nat, v: nat)
    requires g.Valid() && |blocks| == |g.succs| && b < |blocks| && v in tracked
    requires FactsOnRoutes(g, blocks, entry, tracked, facts)
    requires forall from: nat, route :: IsRoute(g, from, route, b) ==> exists front :: IsRoute(g, entry, front, from)
    ensures v in facts[b] <==> HeldFromEntry(g, blocks, entry, tracked, b, v)
  {
    hide HeldAlong;
    if HeldFromEntry(g, blocks, entry, tracked, b, v) {
      forall from: nat, route | IsRoute(g, from, route, b)
        ensures v in HeldAlong(g, blocks, from, route, b, Start(entry, from, tracked), tracked)
      {
        if from != entry {
          var front :| IsRoute(g, entry, front, from);
          RoutesJoin(g, blocks, entry, front, from, route, b, tracked);
        }
      }
      assert HeldOnRoutes(g, blocks, entry, tracked, b, v);
    }
    assert Start(entry, entry, tracked) == {};
  }

  ghost predicate HeldFromEntry(g: Graph, blocks: seq<Block>, entry: nat, tracked: set<nat>, b: nat, v: nat)
    requires |blocks| == |g.succs|
  {
    forall route :: IsRoute(g, entry, route, b) ==> v in HeldAlong(g, blocks, entry, route, b, {}, tracked)
  }

  // A route that comes from the entry has no more behind it than one that
  // starts with everything.
  lemma {:induction false} RoutesJoin(g: Graph, blocks: seq<Block>, entry: nat, front: seq<(nat, nat)>, from: nat,
      route: seq<(nat, nat)>, b: nat, tracked: set<nat>)
    requires g.Valid() && |blocks| == |g.succs| && IsRoute(g, entry, front, from) && IsRoute(g, from, route, b)
    ensures IsRoute(g, entry, front + route, b)
    ensures HeldAlong(g, blocks, entry, front + route, b, {}, tracked) <= HeldAlong(g, blocks, from, route, b, tracked, tracked) <= tracked
    decreases |route|
  {
    hide Carried, EdgeFacts;
    if route == [] {
      assert front + route == front;
      HeldIsTracked(g, blocks, entry, front, from, tracked);
    } else {
      var (p, i) := route[|route| - 1];
      var last := |route| - 1;
      RoutesJoin(g, blocks, entry, front, from, route[..last], p, tracked);
      assert (front + route)[..|front + route| - 1] == front + route[..last];
      var less := HeldAlong(g, blocks, entry, front + route[..last], p, {}, tracked);
      var more := HeldAlong(g, blocks, from, route[..last], p, tracked, tracked);
      EdgeIsCarried(blocks[p], |g.succs[p]|, i, less, tracked);
      EdgeIsCarried(blocks[p], |g.succs[p]|, i, more, tracked);
      TransfersAreMonotone(g, blocks, tracked, tracked);
      var f := Transfers(g, blocks, tracked);
      assert f(p, i, less) <= f(p, i, more);
    }
  }

  lemma {:induction false} HeldIsTracked(g: Graph, blocks: seq<Block>, from: nat, route: seq<(nat, nat)>, b: nat, tracked: set<nat>)
    requires |blocks| == |g.succs| && IsRoute(g, from, route, b)
    ensures HeldAlong(g, blocks, from, route, b, {}, tracked) <= tracked
    decreases |route|
  {
    hide Carried, EdgeFacts;
    if route != [] {
      var (p, i) := route[|route| - 1];
      HeldIsTracked(g, blocks, from, route[..|route| - 1], p, tracked);
      EdgeIsCarried(blocks[p], |g.succs[p]|, i, HeldAlong(g, blocks, from, route[..|route| - 1], p, {}, tracked), tracked);
    }
  }

  // `mut p = &x; do { p.val; return; } while (p == null);`: no run comes to the
  // loop's condition, yet its edge back takes "p is not null" from the body.
  lemma UnreachableCodeCounts(facts: seq<set<nat>>)
    requires FactsOnRoutes(DoWhileGraph(), DoWhileBlocks(), 0, {0}, facts)
    ensures 0 !in facts[1]
    ensures HeldFromEntry(DoWhileGraph(), DoWhileBlocks(), 0, {0}, 1, 0)
    ensures Unproven(DoWhileBlocks()[1].stmts[0].c, facts[1], {0})
  {
    var g, blocks := DoWhileGraph(), DoWhileBlocks();
    assert [(2, 0)][..0] == [];
    assert IsRoute(g, 2, [], 2) && IsRoute(g, 2, [(2, 0)], 1);
    assert 0 !in HeldAlong(g, blocks, 2, [(2, 0)], 1, {0}, {0});
    assert !HeldOnRoutes(g, blocks, 0, {0}, 1, 0);
    assert UnprovenAt(blocks[1].stmts[0].c, [], facts[1], {0});
    forall route | IsRoute(g, 0, route, 1)
      ensures 0 in HeldAlong(g, blocks, 0, route, 1, {}, {0})
    {
      OnlyFromEntry(route);
    }
  }

  function DoWhileGraph(): Graph {
    Graph([[1], [3], [1, 3], []])
  }

  function DoWhileBlocks(): seq<Block> {
    [Block([Set(0, AddressOf)], Jump), Block([Check(Through(0, 1))], Jump), Block([Check(IsNull(0))], Branch), Block([], Jump)]
  }

  lemma OnlyFromEntry(route: seq<(nat, nat)>)
    requires IsRoute(DoWhileGraph(), 0, route, 1)
    ensures route == [(0, 0)]
    ensures 0 in HeldAlong(DoWhileGraph(), DoWhileBlocks(), 0, route, 1, {}, {0})
  {
    var g := DoWhileGraph();
    var (p, i) := route[|route| - 1];
    var front := route[..|route| - 1];
    assert p == 0 || p == 2;
    NothingLeadsTo(g, 0, front, p);
    CertainShows(AddressOf, {});
  }

  lemma NothingLeadsTo(g: Graph, from: nat, route: seq<(nat, nat)>, to: nat)
    requires IsRoute(g, from, route, to)
    requires forall p: nat, i: nat :: p < |g.succs| && i < |g.succs[p]| ==> g.succs[p][i] != to
    ensures route == [] && from == to
  {
    if route != [] {
      var (p, i) := route[|route| - 1];
      assert false;
    }
  }

  ghost predicate ErrorsAreUnproven(blocks: seq<Block>, tracked: set<nat>, facts: seq<set<nat>>, errors: set<(nat, nat)>)
    requires |facts| == |blocks|
  {
    forall b: nat, k: nat :: (b, k) in errors <==>
      && b < |blocks| && k < |blocks[b].stmts| && blocks[b].stmts[k].Check?
      && Unproven(blocks[b].stmts[k].c, LearnedAll(blocks[b].stmts[..k], facts[b], tracked), tracked)
  }

  lemma ReportsAreUnproven(blocks: seq<Block>, tracked: set<nat>, facts: seq<set<nat>>, errors: set<(nat, nat)>)
    requires |facts| == |blocks| && forall b: nat :: b < |facts| ==> facts[b] <= tracked
    requires ReportsExactly(blocks, tracked, facts, errors)
    ensures ErrorsAreUnproven(blocks, tracked, facts, errors)
  {
    hide Thread, LearnedAll, Reported, Unproven;
    forall b: nat, k: nat | b < |blocks| && k < |blocks[b].stmts| && blocks[b].stmts[k].Check?
      ensures ReportedAt(blocks[b], k, facts[b], tracked) <==>
        Unproven(blocks[b].stmts[k].c, LearnedAll(blocks[b].stmts[..k], facts[b], tracked), tracked)
    {
      ThreadIsLearned(blocks[b].stmts[..k], facts[b], tracked);
      ReportedIsUnproven(blocks[b].stmts[k].c, Thread(blocks[b].stmts[..k], facts[b], tracked), tracked);
    }
  }

  // runNullabilityDataflow: solve, then walk every block and report. A
  // function it reports nothing on never reads through a null reference.
  method Run(g: Graph, entry: nat, blocks: seq<Block>, tracked: set<nat>) returns (facts: seq<set<nat>>,
      errors: set<(nat, nat)>)
    requires g.Valid() && |blocks| == |g.succs| && entry < |g.succs|
    requires forall b: nat :: b < |blocks| ==> entry !in g.succs[b]
    ensures FactsOnRoutes(g, blocks, entry, tracked, facts) && ErrorsAreUnproven(blocks, tracked, facts, errors)
    ensures ReportsExactly(blocks, tracked, facts, errors)
    ensures Solution(g, entry, tracked, {}, Transfers(g, blocks, tracked), facts)
    ensures forall other :: Solution(g, entry, tracked, {}, Transfers(g, blocks, tracked), other) ==> Below(other, facts)
    ensures AllDecisive(g, blocks, tracked) ==> Vouched(g, blocks, entry, tracked, facts, errors)
  {
    hide Monotone, Solution, Transfers, Reported, NarrowStmt, Thread, Decisive, Safe, IsRun, AfterAll, ReportedAt,
        Vouched, HeldOnRoutes, Unproven, LearnedAll;
    TransfersAreMonotone(g, blocks, tracked, tracked);
    facts := Solve(g, entry, tracked, {}, Transfers(g, blocks, tracked));
    errors := {};
    for b := 0 to |blocks|
      invariant forall c: nat, k: nat :: (c, k) in errors <==> c < b && k < |blocks[c].stmts| && ReportedAt(blocks[c], k, facts[c], tracked)
    {
      var cur := facts[b];
      var stmts := blocks[b].stmts;
      ghost var before := errors;
      ThreadNone(stmts, facts[b], tracked);
      for k := 0 to |stmts|
        invariant cur == Thread(stmts[..k], facts[b], tracked)
        invariant forall c: nat, j: nat :: (c, j) in errors <==>
          (c, j) in before || (c == b && j < k && ReportedAt(blocks[b], j, facts[b], tracked))
      {
        if stmts[k].Check? && Reported(stmts[k].c, cur, tracked) {
          errors := errors + {(b, k)};
        }
        ReportedThere(blocks[b], k, facts[b], tracked);
        ThreadStep(stmts, k, facts[b], tracked);
        cur := NarrowStmt(stmts[k], cur, tracked).onTrue;
      }
    }
    FactsAreRouteFacts(g, blocks, entry, tracked, facts);
    FactsAreTracked(g, blocks, entry, tracked, facts);
    ReportsAreUnproven(blocks, tracked, facts, errors);
    if AllDecisive(g, blocks, tracked) {
      RunsAreVouched(g, entry, blocks, tracked, facts, errors);
    }
  }

  lemma FactsAreTracked(g: Graph, blocks: seq<Block>, entry: nat, tracked: set<nat>, facts: seq<set<nat>>)
    requires Solution(g, entry, tracked, {}, Transfers(g, blocks, tracked), facts)
    ensures forall b: nat :: b < |facts| ==> facts[b] <= tracked
  {
  }

  lemma ReportedThere(b: Block, k: nat, known: set<nat>, tracked: set<nat>)
    requires k < |b.stmts|
    ensures ReportedAt(b, k, known, tracked) <==> b.stmts[k].Check? && Reported(b.stmts[k].c, Thread(b.stmts[..k], known, tracked), tracked)
  {
  }

  lemma ThreadNone(stmts: seq<Stmt>, known: set<nat>, tracked: set<nat>)
    ensures Thread(stmts[..0], known, tracked) == known
  {
  }
}
