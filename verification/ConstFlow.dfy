// solveConstants: constants of tracked variables, block by block, by a
// worklist that starts from "unknown" and only learns.
module ConstFlow {
  import opened Options
  import opened Graph
  import opened Sets
  import opened Int64
  import opened ConstExpr
  import opened WideInt

  // A variable with no entry, or a None entry, is unknown.
  type ConstMap = map<nat, Option<Literal>>

  function Known(m: ConstMap, v: nat): Option<Literal> {
    if v in m then m[v] else None
  }

  // evalConstExpr: the value of `e` when `m`'s constants determine it.
  function EvalConst(e: Expr, m: ConstMap): Option<Literal> {
    match e
    case Num(n) => Some(n)
    case Var(v) => Known(m, v)
    case Bin(op, l, r, _) =>
      var lv, rv := EvalConst(l, m), EvalConst(r, m);
      if lv.None? || rv.None? then None else FoldOp(op, lv.value, rv.value)
    case Assign(_, rhs) => EvalConst(rhs, m)
    case _ => None
  }

  function FoldOp(op: Op, l: int, r: int): Option<Literal> {
    match op
    case Add => Narrowed(AddWide(l, r))
    case Sub => Narrowed(SubWide(l, r))
    case Mul => Narrowed(MulWide(l, r))
    case Div => if r == 0 then None else Narrowed(DivWide(l, r))
    case _ => None
  }

  // applyTransfer: one whole statement.
  function Apply(e: Expr, m: ConstMap, tracked: set<nat>): ConstMap {
    match e
    case Decl(v, init) => if v in tracked then m[v := if init.Some? then EvalConst(init.value, m) else None] else m
    case Assign(v, rhs) => if v in tracked then m[v := EvalConst(rhs, m)] else m
    case Compound(v, _, _, _) => if v in tracked then m[v := None] else m
    case Postfix(v, _, _) => if v in tracked then m[v := None] else m
    case _ => m
  }

  function ApplyAll(stmts: seq<Expr>, m: ConstMap, tracked: set<nat>): ConstMap {
    if stmts == [] then m else ApplyAll(stmts[1..], Apply(stmts[0], m, tracked), tracked)
  }

  // The meet with one more predecessor: a constant stays only if both have it.
  function Join(a: ConstMap, b: ConstMap): ConstMap {
    map v | v in a :: if a[v].Some? && v in b && b[v] == a[v] then a[v] else None
  }

  predicate InRange(preds: seq<nat>, n: nat) {
    forall i: nat :: i < |preds| ==> preds[i] < n
  }

  function JoinAll(out: seq<ConstMap>, preds: seq<nat>): ConstMap
    requires InRange(preds, |out|)
  {
    if preds == [] then map[]
    else if |preds| == 1 then out[preds[0]]
    else Join(JoinAll(out, preds[..|preds| - 1]), out[preds[|preds| - 1]])
  }

  // ---- What is known only grows ----

  ghost predicate Leq(a: ConstMap, b: ConstMap) {
    forall v :: v in a ==> v in b && (a[v].Some? ==> b[v] == a[v])
  }

  lemma EvalConstGrows(e: Expr, a: ConstMap, b: ConstMap)
    requires Leq(a, b)
    ensures EvalConst(e, a).Some? ==> EvalConst(e, b) == EvalConst(e, a)
  {
  }

  lemma ApplyGrows(e: Expr, a: ConstMap, b: ConstMap, tracked: set<nat>)
    requires Leq(a, b)
    ensures Leq(Apply(e, a, tracked), Apply(e, b, tracked))
  {
    match e
    case Decl(v, init) =>
      if init.Some? {
        EvalConstGrows(init.value, a, b);
      }
    case Assign(v, rhs) => EvalConstGrows(rhs, a, b);
    case _ =>
  }

  lemma {:induction false} ApplyAllGrows(stmts: seq<Expr>, a: ConstMap, b: ConstMap, tracked: set<nat>)
    requires Leq(a, b)
    ensures Leq(ApplyAll(stmts, a, tracked), ApplyAll(stmts, b, tracked))
  {
    if stmts != [] {
      ApplyGrows(stmts[0], a, b, tracked);
      ApplyAllGrows(stmts[1..], Apply(stmts[0], a, tracked), Apply(stmts[0], b, tracked), tracked);
    }
  }

  lemma {:induction false} JoinAllGrows(a: seq<ConstMap>, b: seq<ConstMap>, preds: seq<nat>)
    requires |a| == |b| && forall i: nat :: i < |a| ==> Leq(a[i], b[i])
    requires InRange(preds, |a|)
    ensures Leq(JoinAll(a, preds), JoinAll(b, preds))
  {
    if |preds| > 1 {
      JoinAllGrows(a, b, preds[..|preds| - 1]);
    } else if |preds| == 1 {
      assert preds[0] in preds;
    }
  }

  // A constant is in the meet exactly if there is a predecessor and every one
  // has it.
  lemma {:induction false} JoinAllIsMeet(out: seq<ConstMap>, preds: seq<nat>, v: nat, x: Literal)
    requires InRange(preds, |out|)
    ensures Known(JoinAll(out, preds), v) == Some(x) <==>
      preds != [] && forall i: nat :: i < |preds| ==> Known(out[preds[i]], v) == Some(x)
  {
    if |preds| > 1 {
      var n := |preds| - 1;
      JoinAllIsMeet(out, preds[..n], v, x);
      assert forall i: nat :: i < n ==> preds[..n][i] == preds[i];
    }
  }

  // ---- One statement, one variable ----

  predicate Writes(e: Expr, v: nat) {
    (e.Decl? || e.Assign? || e.Compound? || e.Postfix?) && e.v == v
  }

  // The expression whose value a write stores as it is.
  function Stored(e: Expr): Option<Expr> {
    match e
    case Decl(_, init) => init
    case Assign(_, rhs) => Some(rhs)
    case _ => None
  }

  // What a whole statement does to the constant of each variable.
  ghost predicate StepsTo(e: Expr, m: ConstMap, next: ConstMap, tracked: set<nat>) {
    forall v :: Known(next, v) ==
      if v !in tracked || !Writes(e, v) then Known(m, v)
      else if Stored(e).Some? then EvalConst(Stored(e).value, m)
      else None
  }

  lemma ApplySteps(e: Expr, m: ConstMap, tracked: set<nat>)
    ensures StepsTo(e, m, Apply(e, m, tracked), tracked)
  {
  }

  // ---- Knowing less ----

  ghost predicate KnowsLess(a: ConstMap, b: ConstMap) {
    forall v :: Known(a, v).Some? ==> Known(b, v) == Known(a, v)
  }

  ghost predicate AllKnowLess(a: seq<ConstMap>, b: seq<ConstMap>) {
    |a| == |b| && forall i: nat :: i < |a| ==> KnowsLess(a[i], b[i])
  }

  lemma {:induction false} EvalKnowsLess(e: Expr, a: ConstMap, b: ConstMap)
    requires KnowsLess(a, b)
    ensures EvalConst(e, a).Some? ==> EvalConst(e, b) == EvalConst(e, a)
  {
    match e
    case Bin(_, l, r, _) =>
      EvalKnowsLess(l, a, b);
      EvalKnowsLess(r, a, b);
    case Assign(_, rhs) => EvalKnowsLess(rhs, a, b);
    case _ =>
  }

  lemma StepKnowsLess(e: Expr, a: ConstMap, a2: ConstMap, b: ConstMap, b2: ConstMap, tracked: set<nat>)
    requires KnowsLess(a, b) && StepsTo(e, a, a2, tracked) && StepsTo(e, b, b2, tracked)
    ensures KnowsLess(a2, b2)
  {
    if Stored(e).Some? {
      EvalKnowsLess(Stored(e).value, a, b);
    }
  }

  lemma {:induction false} ApplyAllKnowsLess(stmts: seq<Expr>, a: ConstMap, b: ConstMap, tracked: set<nat>)
    requires KnowsLess(a, b)
    ensures KnowsLess(ApplyAll(stmts, a, tracked), ApplyAll(stmts, b, tracked))
  {
    hide KnowsLess, StepsTo;
    if stmts != [] {
      var a2, b2 := Apply(stmts[0], a, tracked), Apply(stmts[0], b, tracked);
      ApplySteps(stmts[0], a, tracked);
      ApplySteps(stmts[0], b, tracked);
      StepKnowsLess(stmts[0], a, a2, b, b2, tracked);
      ApplyAllKnowsLess(stmts[1..], a2, b2, tracked);
    }
  }

  lemma JoinAllKnowsLess(a: seq<ConstMap>, b: seq<ConstMap>, preds: seq<nat>)
    requires AllKnowLess(a, b) && InRange(preds, |a|)
    ensures KnowsLess(JoinAll(a, preds), JoinAll(b, preds))
  {
    forall v | Known(JoinAll(a, preds), v).Some?
      ensures Known(JoinAll(b, preds), v) == Known(JoinAll(a, preds), v)
    {
      var x := Known(JoinAll(a, preds), v).value;
      JoinAllIsMeet(a, preds, v, x);
      JoinAllIsMeet(b, preds, v, x);
      assert forall i: nat :: i < |preds| ==> KnowsLess(a[preds[i]], b[preds[i]]);
    }
  }

  // ---- Keys stay tracked, and how much can still be learned ----

  lemma ApplyAllTracks(stmts: seq<Expr>, m: ConstMap, tracked: set<nat>)
    requires m.Keys <= tracked
    ensures ApplyAll(stmts, m, tracked).Keys <= tracked
  {
  }

  lemma JoinAllTracks(out: seq<ConstMap>, preds: seq<nat>, tracked: set<nat>)
    requires InRange(preds, |out|)
    requires forall i: nat :: i < |out| ==> out[i].Keys <= tracked
    ensures JoinAll(out, preds).Keys <= tracked
  {
    if |preds| > 1 {
      JoinAllTracks(out, preds[..|preds| - 1], tracked);
    } else if |preds| == 1 {
      assert preds[0] in preds;
    }
  }

  ghost function Constants(m: ConstMap): set<nat> {
    set v | v in m && m[v].Some?
  }

  ghost function Unlearned(m: ConstMap, tracked: set<nat>): nat {
    |tracked - m.Keys| + |tracked - Constants(m)|
  }

  ghost function ToLearn(out: seq<ConstMap>, tracked: set<nat>): nat {
    if out == [] then 0 else ToLearn(out[..|out| - 1], tracked) + Unlearned(out[|out| - 1], tracked)
  }

  lemma LearningShrinks(a: ConstMap, b: ConstMap, tracked: set<nat>)
    requires Leq(a, b) && b.Keys <= tracked
    ensures Unlearned(b, tracked) <= Unlearned(a, tracked)
    ensures a != b ==> Unlearned(b, tracked) < Unlearned(a, tracked)
  {
    LargerLeavesLess(tracked, a.Keys, b.Keys);
    LargerLeavesLess(tracked, Constants(a), Constants(b));
    if a != b && a.Keys == b.Keys {
      var v :| v in a && a[v] != b[v];
      assert v in Constants(b) && v !in Constants(a);
    }
  }

  lemma ToLearnUpdate(out: seq<ConstMap>, b: nat, m: ConstMap, tracked: set<nat>)
    requires b < |out| && Leq(out[b], m) && m.Keys <= tracked
    ensures ToLearn(out[b := m], tracked) <= ToLearn(out, tracked)
    ensures out[b] != m ==> ToLearn(out[b := m], tracked) < ToLearn(out, tracked)
  {
    hide Unlearned, Leq;
    var n := |out| - 1;
    if b == n {
      assert out[b := m][..n] == out[..n];
      LearningShrinks(out[n], m, tracked);
    } else {
      assert out[b := m][..n] == out[..n][b := m];
      ToLearnUpdate(out[..n], b, m, tracked);
    }
  }

  // ---- The worklist ----

  // Predecessor and successor lists describe the same edges.
  ghost predicate Mirrored(g: Graph, preds: seq<seq<nat>>) {
    && g.Valid() && |preds| == |g.succs|
    && (forall b: nat :: b < |preds| ==> InRange(preds[b], |g.succs|))
    && forall b: nat, p: nat :: b < |preds| && p < |preds| ==> (p in preds[b] <==> b in g.succs[p])
  }

  // A fixed point: each block starts with its predecessors' meet, and ends
  // with what its statements make of that.
  ghost predicate Converged(preds: seq<seq<nat>>, stmts: seq<seq<Expr>>, tracked: set<nat>, ins: seq<ConstMap>,
      outs: seq<ConstMap>, b: nat)
    requires b < |preds| == |stmts| == |ins| == |outs|
    requires InRange(preds[b], |outs|)
  {
    ins[b] == JoinAll(outs, preds[b]) && outs[b] == ApplyAll(stmts[b], ins[b], tracked)
  }

  ghost predicate Learning(g: Graph, preds: seq<seq<nat>>, stmts: seq<seq<Expr>>, tracked: set<nat>,
      ins: seq<ConstMap>, outs: seq<ConstMap>) {
    && Mirrored(g, preds) && |preds| == |stmts| == |ins| == |outs|
    && forall b: nat :: b < |outs| ==>
         && ins[b].Keys <= tracked && outs[b].Keys <= tracked
         && Leq(ins[b], JoinAll(outs, preds[b]))
         && Leq(outs[b], ApplyAll(stmts[b], ins[b], tracked))
  }

  lemma LeqTransitive(a: ConstMap, b: ConstMap, c: ConstMap)
    requires Leq(a, b) && Leq(b, c)
    ensures Leq(a, c)
  {
  }

  // Recomputing a block only adds knowledge, and keeps the invariant.
  lemma StepKeepsLearning(g: Graph, preds: seq<seq<nat>>, stmts: seq<seq<Expr>>, tracked: set<nat>,
      ins: seq<ConstMap>, outs: seq<ConstMap>, b: nat)
    requires Learning(g, preds, stmts, tracked, ins, outs) && b < |outs|
    ensures var newIn := JoinAll(outs, preds[b]);
            var newOut := ApplyAll(stmts[b], newIn, tracked);
            && Leq(outs[b], newOut) && newOut.Keys <= tracked
            && Learning(g, preds, stmts, tracked, ins[b := newIn], outs[b := newOut])
  {
    hide ApplyAll, JoinAll, Leq;
    var newIn := JoinAll(outs, preds[b]);
    var newOut := ApplyAll(stmts[b], newIn, tracked);
    JoinAllTracks(outs, preds[b], tracked);
    ApplyAllTracks(stmts[b], newIn, tracked);
    ApplyAllGrows(stmts[b], ins[b], newIn, tracked);
    LeqTransitive(outs[b], ApplyAll(stmts[b], ins[b], tracked), newOut);
    var ins', outs' := ins[b := newIn], outs[b := newOut];
    forall i: nat | i < |outs|
      ensures Leq(outs[i], outs'[i])
    {
      LeqReflexive(outs[i]);
    }
    forall c: nat | c < |outs|
      ensures Leq(ins'[c], JoinAll(outs', preds[c])) && Leq(outs'[c], ApplyAll(stmts[c], ins'[c], tracked))
    {
      JoinAllGrows(outs, outs', preds[c]);
      LeqReflexive(newIn);
      LeqReflexive(newOut);
      LeqTransitive(ins'[c], JoinAll(outs, preds[c]), JoinAll(outs', preds[c]));
    }
  }

  lemma LeqReflexive(a: ConstMap)
    ensures Leq(a, a)
  {
  }

  // A join looks only at predecessors.
  lemma {:induction false} JoinIgnoresOthers(outs: seq<ConstMap>, b: nat, m: ConstMap, preds: seq<nat>)
    requires InRange(preds, |outs|) && b < |outs| && b !in preds
    ensures JoinAll(outs[b := m], preds) == JoinAll(outs, preds)
  {
    if |preds| > 1 {
      JoinIgnoresOthers(outs, b, m, preds[..|preds| - 1]);
    }
  }

  // Constants at the blocks' ends that the statements and the meets between
  // them allow.
  ghost predicate Allowed(preds: seq<seq<nat>>, stmts: seq<seq<Expr>>, tracked: set<nat>, outs: seq<ConstMap>) {
    && |outs| == |preds| == |stmts|
    && forall b: nat :: b < |preds| ==>
         InRange(preds[b], |outs|) && KnowsLess(ApplyAll(stmts[b], JoinAll(outs, preds[b]), tracked), outs[b])
  }

  // Nothing is known that any such constants do without.
  ghost predicate Least(preds: seq<seq<nat>>, stmts: seq<seq<Expr>>, tracked: set<nat>, outs: seq<ConstMap>) {
    forall other :: Allowed(preds, stmts, tracked, other) ==> AllKnowLess(outs, other)
  }

  lemma StepStaysLeast(preds: seq<seq<nat>>, stmts: seq<seq<Expr>>, tracked: set<nat>, outs: seq<ConstMap>, b: nat)
    requires Least(preds, stmts, tracked, outs) && b < |preds| == |outs| == |stmts| && InRange(preds[b], |outs|)
    ensures Least(preds, stmts, tracked, outs[b := ApplyAll(stmts[b], JoinAll(outs, preds[b]), tracked)])
  {
    hide ApplyAll, JoinAll, KnowsLess;
    var now := ApplyAll(stmts[b], JoinAll(outs, preds[b]), tracked);
    forall other | Allowed(preds, stmts, tracked, other)
      ensures AllKnowLess(outs[b := now], other)
    {
      JoinAllKnowsLess(outs, other, preds[b]);
      ApplyAllKnowsLess(stmts[b], JoinAll(outs, preds[b]), JoinAll(other, preds[b]), tracked);
      KnowsLessThrough(now, ApplyAll(stmts[b], JoinAll(other, preds[b]), tracked), other[b]);
    }
  }

  lemma KnowsLessThrough(a: ConstMap, b: ConstMap, c: ConstMap)
    requires KnowsLess(a, b) && KnowsLess(b, c)
    ensures KnowsLess(a, c)
  {
  }

  lemma NothingIsLeast(preds: seq<seq<nat>>, stmts: seq<seq<Expr>>, tracked: set<nat>, outs: seq<ConstMap>)
    requires |outs| == |preds| && forall b: nat :: b < |outs| ==> outs[b] == map[]
    ensures Least(preds, stmts, tracked, outs)
  {
  }

  method ApplyStatements(stmts: seq<Expr>, start: ConstMap, tracked: set<nat>) returns (cur: ConstMap)
    ensures cur == ApplyAll(stmts, start, tracked)
  {
    cur := start;
    for i := 0 to |stmts|
      invariant ApplyAll(stmts[i..], cur, tracked) == ApplyAll(stmts, start, tracked)
    {
      assert stmts[i..][0] == stmts[i] && stmts[i..][1..] == stmts[i + 1..];
      cur := Apply(stmts[i], cur, tracked);
    }
  }

  method MeetPredecessors(outs: seq<ConstMap>, preds: seq<nat>) returns (newIn: ConstMap)
    requires InRange(preds, |outs|)
    ensures newIn == JoinAll(outs, preds)
  {
    newIn := map[];
    var first := true;
    for i := 0 to |preds|
      invariant first <==> i == 0
      invariant newIn == JoinAll(outs, preds[..i])
    {
      assert preds[..i + 1][..i] == preds[..i];
      if first {
        newIn := outs[preds[i]];
        first := false;
      } else {
        newIn := Join(newIn, outs[preds[i]]);
      }
    }
    assert preds[..|preds|] == preds;
  }

  // The worklist empties, in a fixed point.
  method SolveConstants(g: Graph, preds: seq<seq<nat>>, stmts: seq<seq<Expr>>,
      tracked: set<nat>) returns (ins: seq<ConstMap>, outs: seq<ConstMap>)
    requires Mirrored(g, preds) && |stmts| == |preds|
    ensures |ins| == |outs| == |stmts|
    ensures forall b: nat :: b < |ins| ==> ins[b].Keys <= tracked && Converged(preds, stmts, tracked, ins, outs, b)
    ensures Least(preds, stmts, tracked, outs)
  {
    hide ApplyAll, JoinAll, Leq, ToLearn, Converged, Least;
    ins := seq(|stmts|, _ => map[]);
    var out: seq<ConstMap> := ins;
    var work: seq<nat> := [];
    for i := 0 to |stmts|
      invariant InRange(work, |stmts|)
      invariant forall b: nat :: b < i ==> b in work
    {
      work := work + [i];
    }
    NothingLearned(g, preds, stmts, tracked, ins);
    NothingIsLeast(preds, stmts, tracked, out);
    while work != []
      invariant Learning(g, preds, stmts, tracked, ins, out) && Least(preds, stmts, tracked, out)
      invariant InRange(work, |stmts|)
      invariant forall b: nat :: b < |stmts| && b !in work ==> Converged(preds, stmts, tracked, ins, out, b)
      decreases ToLearn(out, tracked), |work|
    {
      var b := work[0];
      assert work == [b] + work[1..];
      ghost var others := work[1..];
      work := work[1..];
      var newIn := MeetPredecessors(out, preds[b]);
      var cur := ApplyStatements(stmts[b], newIn, tracked);
      StepKeepsLearning(g, preds, stmts, tracked, ins, out, b);
      StepStaysLeast(preds, stmts, tracked, out, b);
      ToLearnUpdate(out, b, cur, tracked);
      ghost var wasIn, wasOut := ins, out;
      ins := ins[b := newIn];
      if cur != out[b] {
        out := out[b := cur];
        work := work + g.succs[b];
      }
      assert out == wasOut[b := cur];
      forall c: nat | c < |stmts| && c !in work
        ensures Converged(preds, stmts, tracked, ins, out, c)
      {
        assert c !in others;
        if cur != wasOut[b] {
          OthersStayConverged(g, preds, stmts, tracked, wasIn, wasOut, b, newIn, cur, c);
        } else {
          UnchangedOutConverges(preds, stmts, tracked, wasIn, wasOut, b, newIn, c);
        }
      }
    }
    outs := out;
  }

  lemma NothingLearned(g: Graph, preds: seq<seq<nat>>, stmts: seq<seq<Expr>>, tracked: set<nat>, ins: seq<ConstMap>)
    requires Mirrored(g, preds) && |stmts| == |preds| == |ins|
    requires forall b: nat :: b < |ins| ==> ins[b] == map[]
    ensures Learning(g, preds, stmts, tracked, ins, ins)
  {
  }

  // When its OUT does not change, recomputing `b` settles it and disturbs nothing.
  lemma UnchangedOutConverges(preds: seq<seq<nat>>, stmts: seq<seq<Expr>>, tracked: set<nat>, ins: seq<ConstMap>,
      outs: seq<ConstMap>, b: nat, newIn: ConstMap, c: nat)
    requires b < |preds| == |stmts| == |ins| == |outs| && c < |preds|
    requires InRange(preds[b], |outs|) && InRange(preds[c], |outs|)
    requires newIn == JoinAll(outs, preds[b]) && outs[b] == ApplyAll(stmts[b], newIn, tracked)
    requires c == b || Converged(preds, stmts, tracked, ins, outs, c)
    ensures Converged(preds, stmts, tracked, ins[b := newIn], outs, c)
  {
  }

  // Recomputing `b` disturbs only its successors.
  lemma OthersStayConverged(g: Graph, preds: seq<seq<nat>>, stmts: seq<seq<Expr>>, tracked: set<nat>,
      ins: seq<ConstMap>, outs: seq<ConstMap>, b: nat, newIn: ConstMap, newOut: ConstMap, c: nat)
    requires Learning(g, preds, stmts, tracked, ins, outs) && b < |outs|
    requires newIn == JoinAll(outs, preds[b]) && newOut == ApplyAll(stmts[b], newIn, tracked)
    requires c < |outs| && c !in g.succs[b] && (c == b || Converged(preds, stmts, tracked, ins, outs, c))
    ensures Converged(preds, stmts, tracked, ins[b := newIn], outs[b := newOut], c)
  {
    JoinIgnoresOthers(outs, b, newOut, preds[c]);
  }
}
