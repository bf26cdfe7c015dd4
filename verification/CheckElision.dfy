// markElidableChecks: runtime checks are removed only where the constants
// known at the statement prove them, so every run is the run with all checks.
module CheckElision {
  import opened Options
  import opened Graph
  import opened Int64
  import opened ConstExpr
  import opened ConstFlow
  import opened WideInt
  import opened ExprNodes

  ghost predicate Agrees(s: State, m: ConstMap) {
    forall v :: v in m && m[v].Some? ==> s.Get(v) == m[v].value
  }

  // ---- Constants are real values ----

  // Folding succeeds exactly where the checked operation does not panic.
  lemma FoldIsExact(w: World, op: Op, l: int, r: int)
    requires Fits(l) && Fits(r)
    ensures FoldOp(op, l, r).Some? <==> op in {Add, Sub, Mul, Div} && CheckedOp(w, op, l, r).Value?
    ensures FoldOp(op, l, r).Some? ==> CheckedOp(w, op, l, r) == Value(FoldOp(op, l, r).value)
  {
    hide AddWide, SubWide, MulWide, DivWide, Narrowed, TruncDiv;
    match op
    case Add => WideSumIsExact(l, r);
    case Sub => WideSumIsExact(l, r);
    case Mul => WideProductIsExact(l, r);
    case Div =>
      if r != 0 {
        WideQuotientIsExact(l, r);
        QuotientFits(l, r);
      }
    case _ =>
  }

  // Built of literals, known variables and the four foldable operators; an
  // assignment has the value it assigns.
  predicate Foldable(e: Expr, m: ConstMap) {
    match e
    case Num(_) => true
    case Var(v) => v in m && m[v].Some?
    case Bin(op, l, r, _) => op in {Add, Sub, Mul, Div} && Foldable(l, m) && Foldable(r, m)
    case Assign(_, rhs) => Foldable(rhs, m)
    case _ => false
  }

  lemma {:induction false} FoldableKeeps(e: Expr, s: State, w: World, m: ConstMap, tracked: set<nat>)
    requires Foldable(e, m) && Harmless(e, tracked)
    ensures SameTracked(s, Eval(e, s, w, false).1, tracked)
    decreases e
  {
    match e
    case Bin(op, l, r, _) =>
      FoldableKeeps(l, s, w, m, tracked);
      FoldableKeeps(r, Eval(l, s, w, false).1, w, m, tracked);
    case Assign(_, rhs) => FoldableKeeps(rhs, s, w, m, tracked);
    case _ =>
  }

  // An expression has a constant exactly if it is so built and evaluating it
  // does not panic, and then that is its value.
  lemma {:induction false} EvalConstIsExact(e: Expr, s: State, w: World, m: ConstMap, tracked: set<nat>)
    requires Harmless(e, tracked) && m.Keys <= tracked && Agrees(s, m)
    ensures EvalConst(e, m).Some? <==> Foldable(e, m) && Eval(e, s, w, false).0.Value?
    ensures EvalConst(e, m).Some? ==> Eval(e, s, w, false).0 == Value(EvalConst(e, m).value)
    decreases e
  {
    hide FoldOp, CheckedOp;
    match e
    case Bin(op, l, r, _) =>
      EvalConstIsExact(l, s, w, m, tracked);
      if Foldable(l, m) {
        FoldableKeeps(l, s, w, m, tracked);
        EvalConstIsExact(r, Eval(l, s, w, false).1, w, m, tracked);
        if EvalConst(l, m).Some? && EvalConst(r, m).Some? {
          FoldIsExact(w, op, EvalConst(l, m).value, EvalConst(r, m).value);
        }
      }
    case Assign(_, rhs) => EvalConstIsExact(rhs, s, w, m, tracked);
    case _ =>
  }

  // ---- When a check cannot fire ----

  predicate ArithSafe(op: Op, l: int, r: int) {
    match op
    case Add => Narrowed(AddWide(l, r)).Some?
    case Sub => Narrowed(SubWide(l, r)).Some?
    case Mul => Narrowed(MulWide(l, r)).Some?
    case _ => false
  }

  // Three operations at 65 bits, a question about the exact result at 64.
  lemma ArithSafeIsFits(op: Op, l: int, r: int)
    requires Fits(l) && Fits(r)
    ensures op == Add ==> (ArithSafe(op, l, r) <==> Fits(l + r))
    ensures op == Sub ==> (ArithSafe(op, l, r) <==> Fits(l - r))
    ensures op == Mul ==> (ArithSafe(op, l, r) <==> Fits(l * r))
  {
    hide AddWide, SubWide, MulWide, Narrowed;
    WideSumIsExact(l, r);
    WideProductIsExact(l, r);
  }

  // The same recovery test as the emitted shift, on the two constants.
  predicate ShlSafe(l: int, r: int) {
    0 <= r < 64 && FloorDiv(Wrap(l * Pow(2, r)), PowPositive(r)) == l
  }

  // INT32_MIN is kept too: the width of the negation is unknown here.
  predicate NegSafe(v: int) {
    v != MIN && v != -0x8000_0000
  }

  predicate OpSafe(op: Op, l: int, r: int) {
    if op == Shl then ShlSafe(l, r) else ArithSafe(op, l, r)
  }

  lemma OpSafeIsBare(w: World, op: Op, l: int, r: int)
    requires Fits(l) && Fits(r) && OpSafe(op, l, r)
    ensures BareOp(w, op, l, r) == CheckedOp(w, op, l, r)
  {
    hide Wrap, FloorDiv, Pow, TruncDiv, ArithSafe;
    ArithSafeIsFits(op, l, r);
    match op
    case Add => WrapOfFitting(l + r);
    case Sub => WrapOfFitting(l - r);
    case Mul => WrapOfFitting(l * r);
    case _ =>
  }

  // Proven operations are exactly those the check would let pass.
  lemma SafeMeansNoPanic(w: World, op: Op, l: int, r: int)
    requires op in {Add, Sub, Mul, Shl} && Fits(l) && Fits(r)
    ensures OpSafe(op, l, r) <==> CheckedOp(w, op, l, r).Value?
    ensures OpSafe(op, l, r) ==> BareOp(w, op, l, r) == CheckedOp(w, op, l, r)
    ensures op == Shl && 0 <= r < 64 ==> (OpSafe(op, l, r) <==> Fits(l * Pow(2, r)))
  {
    hide Wrap, FloorDiv, Pow, ArithSafe;
    ArithSafeIsFits(op, l, r);
    if op == Shl && 0 <= r < 64 {
      ShlTrapsExactlyOnOverflow(l, r);
    }
    if OpSafe(op, l, r) {
      OpSafeIsBare(w, op, l, r);
    }
  }

  // Negation keeps one check it could drop, and no other.
  lemma NegSafeMeansNoPanic(v: int)
    requires Fits(v)
    ensures NegSafe(v) ==> Check(-v) == Value(Wrap(-v))
    ensures Check(-v).Value? && !NegSafe(v) <==> v == -0x8000_0000
  {
    hide Wrap;
    if v != MIN {
      WrapOfFitting(-v);
    }
  }

  // ---- Marking ----

  predicate OpProven(op: Op, l: Option<int>, r: Option<int>) {
    l.Some? && r.Some? && OpSafe(op, l.value, r.value)
  }

  // markNode; every flag starts out false.
  function Mark(e: Expr, m: ConstMap, tainted: set<nat>): Expr
    decreases e, 1
  {
    match e
    case Bin(op, l, r, _) =>
      Bin(op, Mark(l, m, tainted), Mark(r, m, tainted), OpProven(op, EvalConst(l, m), EvalConst(r, m)))
    case Neg(x, _) =>
      var c := EvalConst(x, m);
      Neg(Mark(x, m, tainted), c.Some? && NegSafe(c.value))
    case Index(arr, size, index, _) =>
      var c := EvalConst(index, m);
      Index(arr, size, Mark(index, m, tainted), c.Some? && arr !in tainted && 0 <= c.value < size)
    case Assign(v, rhs) => Assign(v, Mark(rhs, m, tainted))
    case Compound(v, op, rhs, _) =>
      Compound(v, op, Mark(rhs, m, tainted), OpProven(op, Known(m, v), EvalConst(rhs, m)))
    case Postfix(v, up, _) => Postfix(v, up, OpProven(if up then Add else Sub, Known(m, v), Some(1)))
    case Decl(v, init) => if init.Some? then Decl(v, Some(Mark(init.value, m, tainted))) else e
    case Call(f, args) => Call(f, MarkAll(args, m, tainted))
    case _ => e
  }

  function MarkAll(es: seq<Expr>, m: ConstMap, tainted: set<nat>): seq<Expr>
    decreases es, 0
  {
    if es == [] then [] else [Mark(es[0], m, tainted)] + MarkAll(es[1..], m, tainted)
  }

  // ---- What is marked ----

  // The exact result is known and fits, whatever the marking computes.
  ghost predicate OpCannotOverflow(op: Op, l: Option<int>, r: Option<int>) {
    && l.Some? && r.Some?
    && match op
       case Add => Fits(l.value + r.value)
       case Sub => Fits(l.value - r.value)
       case Mul => Fits(l.value * r.value)
       case Shl => 0 <= r.value < 64 && Fits(l.value * Pow(2, r.value))
       case _ => false
  }

  // The check of node `x` cannot fire when the constants are `m`.
  ghost predicate Provable(x: Expr, m: ConstMap, tainted: set<nat>) {
    match x
    case Bin(op, l, r, _) => OpCannotOverflow(op, EvalConst(l, m), EvalConst(r, m))
    case Neg(y, _) => EvalConst(y, m).Some? && EvalConst(y, m).value !in {-0x8000_0000_0000_0000, -0x8000_0000}
    case Index(arr, size, index, _) =>
      EvalConst(index, m).Some? && 0 <= EvalConst(index, m).value < size && arr !in tainted
    case Compound(v, op, rhs, _) => OpCannotOverflow(op, Known(m, v), EvalConst(rhs, m))
    case Postfix(v, up, _) => Known(m, v).Some? && Fits(Known(m, v).value + if up then 1 else -1)
    case _ => false
  }

  lemma OpProvenIsExact(op: Op, l: Option<Literal>, r: Option<Literal>)
    ensures OpProven(op, l, r) <==> OpCannotOverflow(op, l, r)
  {
    hide ArithSafe, ShlSafe, Wrap, Pow;
    if l.Some? && r.Some? {
      ArithSafeIsFits(op, l.value, r.value);
      if op == Shl {
        ShlSafeIsFits(l.value, r.value);
      } else {
        OnlyArithIsSafe(op, l.value, r.value);
      }
    }
  }

  lemma ShlSafeIsFits(l: int, r: int)
    requires Fits(l)
    ensures ShlSafe(l, r) <==> 0 <= r < 64 && Fits(l * Pow(2, r))
  {
    hide Wrap, FloorDiv, Pow;
    if 0 <= r < 64 {
      ShlTrapsExactlyOnOverflow(l, r);
    }
  }

  lemma OnlyArithIsSafe(op: Op, l: int, r: int)
    ensures ArithSafe(op, l, r) ==> op in {Add, Sub, Mul}
  {
    hide AddWide, SubWide, MulWide, Narrowed;
  }

  lemma FlagIsExact(x: Expr, m: ConstMap, tainted: set<nat>)
    requires HasCheck(x)
    ensures HasCheck(Mark(x, m, tainted)) && (Mark(x, m, tainted).proven <==> Provable(x, m, tainted))
  {
    hide OpProven, OpCannotOverflow, EvalConst;
    match x
    case Bin(op, l, r, _) => OpProvenIsExact(op, EvalConst(l, m), EvalConst(r, m));
    case Compound(v, op, rhs, _) => OpProvenIsExact(op, Known(m, v), EvalConst(rhs, m));
    case Postfix(v, up, _) =>
      OpProvenIsExact(if up then Add else Sub, Known(m, v), Some(1));
      StepFits(m, v, up);
    case _ =>
  }

  lemma StepFits(m: ConstMap, v: nat, up: bool)
    ensures OpCannotOverflow(if up then Add else Sub, Known(m, v), Some(1)) <==>
      Known(m, v).Some? && Fits(Known(m, v).value + if up then 1 else -1)
  {
  }

  lemma {:induction false} MarkKeepsTree(e: Expr, m: ConstMap, tainted: set<nat>)
    ensures Bare(Mark(e, m, tainted)) == Bare(e)
    decreases e, 1
  {
    hide OpProven, EvalConst, NegSafe;
    match e
    case Bin(_, l, r, _) =>
      MarkKeepsTree(l, m, tainted);
      MarkKeepsTree(r, m, tainted);
    case Neg(x, _) => MarkKeepsTree(x, m, tainted);
    case Index(_, _, index, _) => MarkKeepsTree(index, m, tainted);
    case Assign(_, rhs) => MarkKeepsTree(rhs, m, tainted);
    case Compound(_, _, rhs, _) => MarkKeepsTree(rhs, m, tainted);
    case Decl(_, init) =>
      if init.Some? {
        MarkKeepsTree(init.value, m, tainted);
      }
    case Call(_, args) => MarkAllKeepsTrees(args, m, tainted);
    case _ =>
  }

  lemma {:induction false} MarkAllKeepsTrees(es: seq<Expr>, m: ConstMap, tainted: set<nat>)
    ensures |MarkAll(es, m, tainted)| == |es| && BareAll(MarkAll(es, m, tainted)) == BareAll(es)
    ensures forall i: nat :: i < |es| ==> MarkAll(es, m, tainted)[i] == Mark(es[i], m, tainted)
    decreases es, 0
  {
    if es != [] {
      MarkKeepsTree(es[0], m, tainted);
      MarkAllKeepsTrees(es[1..], m, tainted);
      assert MarkAll(es, m, tainted)[1..] == MarkAll(es[1..], m, tainted);
    }
  }

  // Marking reaches every node but those of a deferred statement.
  lemma {:induction false} MarkReaches(e: Expr, m: ConstMap, tainted: set<nat>, path: seq<nat>)
    ensures At(Mark(e, m, tainted), path) ==
      if At(e, path).None? || UnderDefer(e, path) then At(e, path) else Some(Mark(At(e, path).value, m, tainted))
    decreases |path|
  {
    hide OpProven, EvalConst, NegSafe;
    if path != [] {
      var i := path[0];
      if e.Call? {
        MarkAllKeepsTrees(e.args, m, tainted);
      }
      if i < |Children(e)| && !e.Defer? {
        assert Children(Mark(e, m, tainted))[i] == Mark(Children(e)[i], m, tainted);
        MarkReaches(Children(e)[i], m, tainted, path[1..]);
      }
    }
  }

  // A statement before and after: the same tree, and outside a deferred
  // statement a node is flagged exactly if its check cannot fire.
  ghost predicate MarkedExactly(was: Expr, now: Expr, m: ConstMap, tainted: set<nat>) {
    && Bare(now) == Bare(was)
    && forall path :: At(was, path).Some? ==>
         && At(now, path).Some?
         && (UnderDefer(was, path) ==> At(now, path) == At(was, path))
         && (!UnderDefer(was, path) && HasCheck(At(was, path).value) ==>
               && HasCheck(At(now, path).value)
               && (At(now, path).value.proven <==> Provable(At(was, path).value, m, tainted)))
  }

  lemma MarkIsExact(e: Expr, m: ConstMap, tainted: set<nat>)
    ensures MarkedExactly(e, Mark(e, m, tainted), m, tainted)
  {
    hide Mark, Bare, At, UnderDefer, Provable;
    MarkKeepsTree(e, m, tainted);
    forall path | At(e, path).Some?
      ensures At(Mark(e, m, tainted), path) ==
        if UnderDefer(e, path) then At(e, path) else Some(Mark(At(e, path).value, m, tainted))
      ensures HasCheck(At(e, path).value) ==>
        && HasCheck(Mark(At(e, path).value, m, tainted))
        && (Mark(At(e, path).value, m, tainted).proven <==> Provable(At(e, path).value, m, tainted))
    {
      MarkReaches(e, m, tainted, path);
      if HasCheck(At(e, path).value) {
        FlagIsExact(At(e, path).value, m, tainted);
      }
    }
  }

  ghost predicate Ready(s: State, w: World, m: ConstMap, tracked: set<nat>) {
    CallsKeep(w, tracked) && m.Keys <= tracked && Agrees(s, m)
  }

  lemma StaysReady(e: Expr, s: State, w: World, m: ConstMap, tracked: set<nat>, elide: bool)
    requires Ready(s, w, m, tracked) && Harmless(e, tracked)
    ensures Ready(Eval(e, s, w, elide).1, w, m, tracked)
  {
    EvalKeepsTracked(e, s, w, elide, tracked);
  }

  lemma ConstIsValue(e: Expr, s: State, w: World, m: ConstMap, tracked: set<nat>)
    requires Ready(s, w, m, tracked) && Harmless(e, tracked)
    requires EvalConst(e, m).Some? && Eval(e, s, w, false).0.Value?
    ensures Eval(e, s, w, false).0.v == EvalConst(e, m).value
  {
    EvalConstIsExact(e, s, w, m, tracked);
  }

  // A marked expression without its proven checks computes what the original
  // computes with all of them.
  lemma {:induction false} MarkKeepsValue(e: Expr, s: State, w: World, m: ConstMap, tracked: set<nat>,
      tainted: set<nat>)
    requires Ready(s, w, m, tracked) && Harmless(e, tracked)
    ensures Eval(Mark(e, m, tainted), s, w, true) == Eval(e, s, w, false)
    decreases e, 1
  {
    hide Agrees, CallsKeep, EvalConst, OpProven, RunOp, NegSafe;
    match e
    case Bin(_, _, _, _) => MarkKeepsBin(e, s, w, m, tracked, tainted);
    case Neg(_, _) => MarkKeepsNeg(e, s, w, m, tracked, tainted);
    case Index(_, _, _, _) => MarkKeepsIndex(e, s, w, m, tracked, tainted);
    case Assign(_, rhs) => MarkKeepsValue(rhs, s, w, m, tracked, tainted);
    case Compound(v, op, rhs, _) => MarkKeepsCompound(v, op, rhs, s, w, m, tracked, tainted, e);
    case Postfix(_, _, _) => MarkKeepsPostfix(e, s, w, m, tracked, tainted);
    case Decl(_, init) =>
      if init.Some? {
        MarkKeepsValue(init.value, s, w, m, tracked, tainted);
      }
    case Call(_, args) => MarkAllKeepsValues(args, s, w, m, tracked, tainted);
    case _ =>
  }

  lemma MarkKeepsPostfix(e: Expr, s: State, w: World, m: ConstMap, tracked: set<nat>, tainted: set<nat>)
    requires Ready(s, w, m, tracked) && e.Postfix?
    ensures Eval(Mark(e, m, tainted), s, w, true) == Eval(e, s, w, false)
  {
    var op := if e.up then Add else Sub;
    if OpProven(op, Known(m, e.v), Some(1)) {
      OpSafeIsBare(w, op, s.Get(e.v), 1);
    }
  }

  lemma MarkKeepsNeg(e: Expr, s: State, w: World, m: ConstMap, tracked: set<nat>, tainted: set<nat>)
    requires Ready(s, w, m, tracked) && Harmless(e, tracked) && e.Neg?
    ensures Eval(Mark(e, m, tainted), s, w, true) == Eval(e, s, w, false)
    decreases e, 0
  {
    hide Ready, Wrap;
    MarkKeepsValue(e.e, s, w, m, tracked, tainted);
    if EvalConst(e.e, m).Some? && Eval(e.e, s, w, false).0.Value? {
      ConstIsValue(e.e, s, w, m, tracked);
      if NegSafe(EvalConst(e.e, m).value) {
        NegSafeMeansNoPanic(EvalConst(e.e, m).value);
      }
    }
  }

  lemma MarkKeepsIndex(e: Expr, s: State, w: World, m: ConstMap, tracked: set<nat>, tainted: set<nat>)
    requires Ready(s, w, m, tracked) && Harmless(e, tracked) && e.Index?
    ensures Eval(Mark(e, m, tainted), s, w, true) == Eval(e, s, w, false)
    decreases e, 0
  {
    hide Ready;
    MarkKeepsValue(e.index, s, w, m, tracked, tainted);
    if EvalConst(e.index, m).Some? && Eval(e.index, s, w, false).0.Value? {
      ConstIsValue(e.index, s, w, m, tracked);
    }
  }

  lemma MarkKeepsBin(e: Expr, s: State, w: World, m: ConstMap, tracked: set<nat>, tainted: set<nat>)
    requires Ready(s, w, m, tracked) && Harmless(e, tracked) && e.Bin?
    ensures Eval(Mark(e, m, tainted), s, w, true) == Eval(e, s, w, false)
    decreases e, 0
  {
    hide OpSafe, CheckedOp, BareOp, FoldOp, Ready;
    var (lv, s1) := Eval(e.l, s, w, false);
    MarkKeepsValue(e.l, s, w, m, tracked, tainted);
    StaysReady(e.l, s, w, m, tracked, false);
    MarkKeepsValue(e.r, s1, w, m, tracked, tainted);
    var rv := Eval(e.r, s1, w, false).0;
    if lv.Value? && rv.Value? && OpProven(e.op, EvalConst(e.l, m), EvalConst(e.r, m)) {
      ConstIsValue(e.l, s, w, m, tracked);
      ConstIsValue(e.r, s1, w, m, tracked);
      OpSafeIsBare(w, e.op, lv.v, rv.v);
    }
  }

  lemma MarkKeepsCompound(v: nat, op: Op, rhs: Expr, s: State, w: World, m: ConstMap, tracked: set<nat>,
      tainted: set<nat>, e: Expr)
    requires Ready(s, w, m, tracked) && Harmless(rhs, tracked)
    requires e.Compound? && e.v == v && e.op == op && e.rhs == rhs
    ensures Eval(Mark(e, m, tainted), s, w, true) == Eval(e, s, w, false)
    decreases rhs, 2
  {
    MarkKeepsValue(rhs, s, w, m, tracked, tainted);
    EvalKeepsTracked(rhs, s, w, false, tracked);
    if Eval(rhs, s, w, false).0.Value? && OpProven(op, Known(m, v), EvalConst(rhs, m)) {
      EvalConstIsExact(rhs, s, w, m, tracked);
      assert Eval(rhs, s, w, false).1.Get(v) == s.Get(v) == m[v].value;
      OpSafeIsBare(w, op, m[v].value, EvalConst(rhs, m).value);
    }
  }

  lemma {:induction false} MarkAllKeepsValues(es: seq<Expr>, s: State, w: World, m: ConstMap, tracked: set<nat>,
      tainted: set<nat>)
    requires Ready(s, w, m, tracked)
    requires ReadTaintsAll(es) !! tracked && InnerDeclsAll(es) !! tracked
    ensures EvalAll(MarkAll(es, m, tainted), s, w, true) == EvalAll(es, s, w, false)
    decreases es, 0
  {
    if es != [] {
      MarkKeepsValue(es[0], s, w, m, tracked, tainted);
      EvalKeepsTracked(es[0], s, w, false, tracked);
      var s1 := Eval(es[0], s, w, false).1;
      MarkAllKeepsValues(es[1..], s1, w, m, tracked, tainted);
      assert MarkAll(es, m, tainted)[1..] == MarkAll(es[1..], m, tainted);
    }
  }

  // ---- Whole statements ----

  function StatementInner(e: Expr): set<nat> {
    match e
    case Decl(_, init) => if init.Some? then InnerDecls(init.value) else {}
    case _ => InnerDecls(e)
  }

  ghost predicate StatementOk(e: Expr, tracked: set<nat>) {
    StatementTaints(e) !! tracked && StatementInner(e) !! tracked
  }

  // One statement: same outcome with its proven checks removed, and the
  // transfer function's constants are right afterwards.
  lemma StatementIsSound(e: Expr, s: State, w: World, m: ConstMap, tracked: set<nat>, tainted: set<nat>)
    requires Ready(s, w, m, tracked) && StatementOk(e, tracked)
    ensures Eval(Mark(e, m, tainted), s, w, true) == Eval(e, s, w, false)
    ensures Eval(e, s, w, false).0.Value? ==> Ready(Eval(e, s, w, false).1, w, Apply(e, m, tracked), tracked)
  {
    hide CheckedOp, BareOp, OpSafe;
    match e
    case Decl(v, init) =>
      if init.Some? {
        WriteIsSound(v, init.value, s, w, m, tracked, tainted);
      }
    case Assign(v, rhs) => WriteIsSound(v, rhs, s, w, m, tracked, tainted);
    case Compound(v, op, rhs, _) =>
      MarkKeepsCompound(v, op, rhs, s, w, m, tracked, tainted, e);
      EvalKeepsTracked(rhs, s, w, false, tracked);
    case Postfix(_, _, _) => MarkKeepsPostfix(e, s, w, m, tracked, tainted);
    case Var(_) =>
    case _ =>
      MarkKeepsValue(e, s, w, m, tracked, tainted);
      StaysReady(e, s, w, m, tracked, false);
  }

  lemma WriteIsSound(v: nat, rhs: Expr, s: State, w: World, m: ConstMap, tracked: set<nat>, tainted: set<nat>)
    requires Ready(s, w, m, tracked) && Harmless(rhs, tracked)
    ensures Eval(Mark(rhs, m, tainted), s, w, true) == Eval(rhs, s, w, false)
    ensures var (x, s1) := Eval(rhs, s, w, false);
            x.Value? && v in tracked ==> Ready(s1.Set(v, x.v), w, m[v := EvalConst(rhs, m)], tracked)
    ensures var (x, s1) := Eval(rhs, s, w, false);
            x.Value? && v !in tracked ==> Ready(s1.Set(v, x.v), w, m, tracked)
  {
    MarkKeepsValue(rhs, s, w, m, tracked, tainted);
    EvalKeepsTracked(rhs, s, w, false, tracked);
    if EvalConst(rhs, m).Some? && Eval(rhs, s, w, false).0.Value? {
      EvalConstIsExact(rhs, s, w, m, tracked);
    }
  }

  // ---- Whole programs ----

  // What runs in a block: the statements the passes see, and between them the
  // deferred statements that run there.
  datatype Item = Stmt(e: Expr) | Deferred(e: Expr)

  datatype Outcome = Finished(s: State) | Panicked(s: State) | Running(block: nat, s: State)

  function Statements(items: seq<Item>): seq<Expr> {
    if items == [] then []
    else (if items[0].Stmt? then [items[0].e] else []) + Statements(items[1..])
  }

  function RunItems(items: seq<Item>, s: State, w: World, elide: bool, last: int): (Checked, State) {
    if items == [] then (Value(last), s)
    else
      var (x, s1) := Eval(items[0].e, s, w, elide);
      if x.Panic? then (Panic, s1) else RunItems(items[1..], s1, w, elide, x.v)
  }

  // `fuel` blocks of a run from block `b`.
  function Run(g: Graph, blocks: seq<seq<Item>>, b: nat, s: State, w: World, elide: bool, fuel: nat): Outcome
    requires g.Valid() && |blocks| == |g.succs| && b < |blocks|
    decreases fuel
  {
    if fuel == 0 then Running(b, s)
    else
      var (x, s1) := RunItems(blocks[b], s, w, elide, 0);
      if x.Panic? then Panicked(s1)
      else if g.succs[b] == [] then Finished(s1)
      else Run(g, blocks, g.succs[b][w.branch(b, x.v, s1) % |g.succs[b]|], s1, w, elide, fuel - 1)
  }

  // No node of a fresh AST is flagged.
  predicate Unmarked(e: Expr) {
    Bare(e) == e
  }

  lemma {:induction false} UnmarkedKeepsChecks(e: Expr, s: State, w: World)
    requires Unmarked(e)
    ensures Eval(e, s, w, true) == Eval(e, s, w, false)
    decreases e, 1
  {
    match e
    case Bin(_, l, r, _) =>
      UnmarkedKeepsChecks(l, s, w);
      UnmarkedKeepsChecks(r, Eval(l, s, w, false).1, w);
    case Neg(x, _) => UnmarkedKeepsChecks(x, s, w);
    case Index(_, _, index, _) => UnmarkedKeepsChecks(index, s, w);
    case Assign(_, rhs) => UnmarkedKeepsChecks(rhs, s, w);
    case Compound(_, _, rhs, _) => UnmarkedKeepsChecks(rhs, s, w);
    case Decl(_, init) =>
      if init.Some? {
        UnmarkedKeepsChecks(init.value, s, w);
      }
    case Call(_, args) => UnmarkedAllKeepChecks(args, s, w);
    case _ =>
  }

  lemma {:induction false} UnmarkedAllKeepChecks(es: seq<Expr>, s: State, w: World)
    requires BareAll(es) == es
    ensures EvalAll(es, s, w, true) == EvalAll(es, s, w, false)
    decreases es, 0
  {
    if es != [] {
      UnmarkedKeepsChecks(es[0], s, w);
      UnmarkedAllKeepChecks(es[1..], Eval(es[0], s, w, false).1, w);
    }
  }

  // Marking a block from the constants known at its start.
  function MarkItems(items: seq<Item>, m: ConstMap, tracked: set<nat>, tainted: set<nat>): seq<Item> {
    if items == [] then []
    else
      var first := items[0];
      if first.Stmt? then
        [Stmt(Mark(first.e, m, tainted))] + MarkItems(items[1..], Apply(first.e, m, tracked), tracked, tainted)
      else [first] + MarkItems(items[1..], m, tracked, tainted)
  }

  ghost predicate ItemOk(item: Item, tracked: set<nat>) {
    if item.Stmt? then StatementOk(item.e, tracked) else Harmless(item.e, tracked) && Unmarked(item.e)
  }

  lemma {:induction false} ItemsAreSound(items: seq<Item>, s: State, w: World, m: ConstMap, tracked: set<nat>,
      tainted: set<nat>, last: int)
    requires Ready(s, w, m, tracked)
    requires forall i: nat :: i < |items| ==> ItemOk(items[i], tracked)
    ensures RunItems(MarkItems(items, m, tracked, tainted), s, w, true, last) == RunItems(items, s, w, false, last)
    ensures RunItems(items, s, w, false, last).0.Value? ==>
              Ready(RunItems(items, s, w, false, last).1, w, ApplyAll(Statements(items), m, tracked), tracked)
  {
    hide StatementOk, Harmless, Ready;
    if items != [] {
      var first := items[0];
      var (x, s1) := Eval(first.e, s, w, false);
      assert ItemOk(first, tracked);
      if first.Stmt? {
        StatementIsSound(first.e, s, w, m, tracked, tainted);
        assert ([first.e] + Statements(items[1..]))[1..] == Statements(items[1..]);
        if x.Value? {
          ItemsAreSound(items[1..], s1, w, Apply(first.e, m, tracked), tracked, tainted, x.v);
        }
        assert MarkItems(items, m, tracked, tainted)[1..] == MarkItems(items[1..], Apply(first.e, m, tracked),
            tracked, tainted);
      } else {
        assert [] + Statements(items[1..]) == Statements(items[1..]);
        StaysReady(first.e, s, w, m, tracked, false);
        UnmarkedKeepsChecks(first.e, s, w);
        if x.Value? {
          ItemsAreSound(items[1..], s1, w, m, tracked, tainted, x.v);
        }
        assert MarkItems(items, m, tracked, tainted)[1..] == MarkItems(items[1..], m, tracked, tainted);
      }
    }
  }

  // ---- What the pass assumes of a function body ----

  predicate IsStatement(blocks: seq<seq<Item>>, b: nat, i: nat) {
    b < |blocks| && i < |blocks[b]| && blocks[b][i].Stmt?
  }

  ghost predicate Declared(blocks: seq<seq<Item>>, v: nat) {
    exists b: nat, i: nat :: IsStatement(blocks, b, i) && blocks[b][i].e.Decl? && blocks[b][i].e.v == v
  }

  ghost predicate Tainted(blocks: seq<seq<Item>>, v: nat) {
    exists b: nat, i: nat :: IsStatement(blocks, b, i) && TouchedBy(blocks[b][i].e, v)
  }

  ghost predicate AddressTaken(blocks: seq<seq<Item>>, v: nat) {
    exists b: nat, i: nat, path :: IsStatement(blocks, b, i) && At(blocks[b][i].e, path) == Some(AddressOf(v))
  }

  // The statement a deferred run comes from is listed where it is written.
  ghost predicate Listed(blocks: seq<seq<Item>>, e: Expr) {
    exists b: nat, i: nat :: IsStatement(blocks, b, i) && blocks[b][i].e == Defer(e)
  }

  // Fresh nodes, every deferred run listed, and one declaration a variable.
  ghost predicate WellFormed(blocks: seq<seq<Item>>) {
    && (forall b: nat, i: nat :: b < |blocks| && i < |blocks[b]| && blocks[b][i].Deferred? ==>
          Listed(blocks, blocks[b][i].e) && Unmarked(blocks[b][i].e))
    && (forall b: nat, i: nat, v :: IsStatement(blocks, b, i) && Declared(blocks, v) ==>
          v !in StatementInner(blocks[b][i].e))
  }

  // A call reaches a local variable only through its address.
  ghost predicate CallsAreLocal(w: World, blocks: seq<seq<Item>>) {
    forall f: nat, args: seq<int>, s: State, v: nat {:trigger w.call(f, args, s).1.Get(v)} ::
      Declared(blocks, v) && !AddressTaken(blocks, v) ==> w.call(f, args, s).1.Get(v) == s.Get(v)
  }

  ghost predicate TracksExactly(blocks: seq<seq<Item>>, tracked: set<nat>, tainted: set<nat>) {
    && (forall v :: v in tainted <==> Tainted(blocks, v))
    && (forall v :: v in tracked <==> Declared(blocks, v) && !Tainted(blocks, v))
  }

  // computeTrackedVars
  method ComputeTrackedVars(blocks: seq<seq<Item>>) returns (tracked: set<nat>, tainted: set<nat>)
    ensures TracksExactly(blocks, tracked, tainted)
  {
    hide StatementTaints, TouchedBy;
    var declared: set<nat>;
    declared, tainted := {}, {};
    for b := 0 to |blocks|
      invariant forall v :: v in tainted <==> exists c: nat, i: nat :: c < b && IsStatement(blocks, c, i) && TouchedBy(blocks[c][i].e, v)
      invariant forall v :: v in declared <==> exists c: nat, i: nat :: c < b && IsStatement(blocks, c, i) && blocks[c][i].e.Decl? && blocks[c][i].e.v == v
    {
      ghost var wasTainted, wasDeclared := tainted, declared;
      for j := 0 to |blocks[b]|
        invariant forall v :: v in tainted <==> v in wasTainted || exists i: nat :: i < j && IsStatement(blocks, b, i) && TouchedBy(blocks[b][i].e, v)
        invariant forall v :: v in declared <==> v in wasDeclared || exists i: nat :: i < j && IsStatement(blocks, b, i) && blocks[b][i].e.Decl? && blocks[b][i].e.v == v
      {
        var item := blocks[b][j];
        if item.Stmt? {
          assert IsStatement(blocks, b, j);
          forall v
            ensures v in StatementTaints(item.e) <==> TouchedBy(item.e, v)
          {
            StatementTaintsAreTouches(item.e, v);
          }
          tainted := tainted + StatementTaints(item.e);
          if item.e.Decl? {
            declared := declared + {item.e.v};
          }
        }
      }
    }
    tracked := declared - tainted;
  }

  lemma NotTaintedHere(blocks: seq<seq<Item>>, tracked: set<nat>, tainted: set<nat>, b: nat, i: nat)
    requires TracksExactly(blocks, tracked, tainted) && IsStatement(blocks, b, i)
    ensures StatementTaints(blocks[b][i].e) !! tracked
  {
    hide TouchedBy, StatementTaints;
    forall v | v in StatementTaints(blocks[b][i].e)
      ensures v !in tracked
    {
      StatementTaintsAreTouches(blocks[b][i].e, v);
    }
  }

  lemma TrackedItemsAreOk(blocks: seq<seq<Item>>, tracked: set<nat>, tainted: set<nat>, b: nat, i: nat)
    requires WellFormed(blocks) && TracksExactly(blocks, tracked, tainted)
    requires b < |blocks| && i < |blocks[b]|
    ensures ItemOk(blocks[b][i], tracked)
  {
    hide TouchedBy;
    var item := blocks[b][i];
    if item.Stmt? {
      assert IsStatement(blocks, b, i);
      NotTaintedHere(blocks, tracked, tainted, b, i);
    } else {
      var c: nat, j: nat :| IsStatement(blocks, c, j) && blocks[c][j].e == Defer(item.e);
      NotTaintedHere(blocks, tracked, tainted, c, j);
      assert ReadTaints(Defer(item.e)) == VisitTaints(item.e);
      assert ReadTaints(item.e) <= StatementTaints(Defer(item.e));
      assert InnerDecls(item.e) == StatementInner(Defer(item.e));
    }
  }

  // A variable whose address is taken anywhere is tainted.
  lemma AddressTakenIsTainted(blocks: seq<seq<Item>>, v: nat)
    ensures AddressTaken(blocks, v) ==> Tainted(blocks, v)
  {
    if b: nat, i: nat, path :| IsStatement(blocks, b, i) && At(blocks[b][i].e, path) == Some(AddressOf(v)) {
      assert Touches(At(blocks[b][i].e, path).value, v);
      assert TouchedBy(blocks[b][i].e, v);
    }
  }

  lemma TrackedIsLocal(w: World, blocks: seq<seq<Item>>, tracked: set<nat>, tainted: set<nat>)
    requires CallsAreLocal(w, blocks) && TracksExactly(blocks, tracked, tainted)
    ensures CallsKeep(w, tracked)
  {
    forall v | v in tracked
      ensures Declared(blocks, v) && !AddressTaken(blocks, v)
    {
      AddressTakenIsTainted(blocks, v);
    }
  }

  // ---- The main theorem ----

  ghost predicate Solved(g: Graph, preds: seq<seq<nat>>, blocks: seq<seq<Item>>, tracked: set<nat>,
      ins: seq<ConstMap>, outs: seq<ConstMap>) {
    && Mirrored(g, preds)
    && |ins| == |outs| == |preds| == |blocks|
    && forall b: nat {:trigger ins[b]} :: b < |ins| ==>
         ins[b].Keys <= tracked
         && Converged(preds, seq(|blocks|, c requires 0 <= c < |blocks| => Statements(blocks[c])), tracked, ins, outs, b)
  }

  // Constants known after a block are known right where it jumps to.
  lemma JumpKeepsReady(g: Graph, preds: seq<seq<nat>>, blocks: seq<seq<Item>>, tracked: set<nat>,
      ins: seq<ConstMap>, outs: seq<ConstMap>, b: nat, k: nat, s: State, w: World)
    requires Solved(g, preds, blocks, tracked, ins, outs)
    requires b < |blocks| && k < |g.succs[b]|
    requires Ready(s, w, ApplyAll(Statements(blocks[b]), ins[b], tracked), tracked)
    ensures g.succs[b][k] < |blocks| && Ready(s, w, ins[g.succs[b][k]], tracked)
  {
    hide ApplyAll, Statements, CallsKeep;
    var c := g.succs[b][k];
    assert b in preds[c];
    assert ins[b].Keys <= tracked && ins[c].Keys <= tracked;
    assert outs[b] == ApplyAll(Statements(blocks[b]), ins[b], tracked);
    forall v | v in ins[c] && ins[c][v].Some?
      ensures s.Get(v) == ins[c][v].value
    {
      JoinAllIsMeet(outs, preds[c], v, ins[c][v].value);
      var i :| 0 <= i < |preds[c]| && preds[c][i] == b;
    }
  }

  lemma {:induction false} ElisionIsInvisible(g: Graph, preds: seq<seq<nat>>, blocks: seq<seq<Item>>,
      marked: seq<seq<Item>>, tracked: set<nat>, tainted: set<nat>,
      ins: seq<ConstMap>, outs: seq<ConstMap>, b: nat, s: State, w: World, fuel: nat)
    requires Solved(g, preds, blocks, tracked, ins, outs)
    requires WellFormed(blocks) && TracksExactly(blocks, tracked, tainted)
    requires g.Valid() && |marked| == |blocks| == |g.succs| == |ins| && b < |blocks|
    requires forall c: nat :: c < |blocks| ==> marked[c] == MarkItems(blocks[c], ins[c], tracked, tainted)
    requires Ready(s, w, ins[b], tracked)
    ensures Run(g, marked, b, s, w, true, fuel) == Run(g, blocks, b, s, w, false, fuel)
    decreases fuel
  {
    hide Mirrored, Solved, WellFormed, TracksExactly, Ready, ItemOk, MarkItems, RunItems, ApplyAll, Statements;
    if fuel > 0 {
      forall i: nat | i < |blocks[b]|
        ensures ItemOk(blocks[b][i], tracked)
      {
        TrackedItemsAreOk(blocks, tracked, tainted, b, i);
      }
      ItemsAreSound(blocks[b], s, w, ins[b], tracked, tainted, 0);
      var (x, s1) := RunItems(blocks[b], s, w, false, 0);
      if x.Value? && g.succs[b] != [] {
        var k := w.branch(b, x.v, s1) % |g.succs[b]|;
        JumpKeepsReady(g, preds, blocks, tracked, ins, outs, b, k, s1, w);
        ElisionIsInvisible(g, preds, blocks, marked, tracked, tainted, ins, outs, g.succs[b][k], s1, w, fuel - 1);
      }
    }
  }

  // Wherever a run of the program comes to, the constants known at that block
  // are what its variables hold.
  lemma {:induction false} ConstantsAreReal(g: Graph, preds: seq<seq<nat>>, blocks: seq<seq<Item>>,
      tracked: set<nat>, tainted: set<nat>,
      ins: seq<ConstMap>, outs: seq<ConstMap>, b: nat, s: State, w: World, fuel: nat)
    requires Solved(g, preds, blocks, tracked, ins, outs)
    requires WellFormed(blocks) && TracksExactly(blocks, tracked, tainted)
    requires g.Valid() && |blocks| == |g.succs| == |ins| && b < |blocks|
    requires Ready(s, w, ins[b], tracked)
    ensures var r := Run(g, blocks, b, s, w, false, fuel);
            r.Running? ==> r.block < |ins| && Agrees(r.s, ins[r.block])
    decreases fuel
  {
    hide Solved, WellFormed, TracksExactly, ItemOk, MarkItems, CallsKeep, Agrees;
    if fuel > 0 {
      forall i: nat | i < |blocks[b]|
        ensures ItemOk(blocks[b][i], tracked)
      {
        TrackedItemsAreOk(blocks, tracked, tainted, b, i);
      }
      ItemsAreSound(blocks[b], s, w, ins[b], tracked, tainted, 0);
      var (x, s1) := RunItems(blocks[b], s, w, false, 0);
      if x.Value? && g.succs[b] != [] {
        var k := w.branch(b, x.v, s1) % |g.succs[b]|;
        JumpKeepsReady(g, preds, blocks, tracked, ins, outs, b, k, s1, w);
        ConstantsAreReal(g, preds, blocks, tracked, tainted, ins, outs, g.succs[b][k], s1, w, fuel - 1);
      }
    }
  }

  // ---- The constants at every statement ----

  // What is known before each item of a block, and after the last.
  function Table(items: seq<Item>, m: ConstMap, tracked: set<nat>): seq<ConstMap> {
    if items == [] then [m]
    else [m] + Table(items[1..], if items[0].Stmt? then Apply(items[0].e, m, tracked) else m, tracked)
  }

  // Across one item: a statement writes, a deferred run changes no constant.
  ghost predicate Passes(item: Item, m: ConstMap, next: ConstMap, tracked: set<nat>) {
    if item.Stmt? then StepsTo(item.e, m, next, tracked) else forall v :: Known(next, v) == Known(m, v)
  }

  // A constant is in the meet exactly if some edge arrives and all bring it.
  ghost predicate IsMeet(m: ConstMap, ends: seq<ConstMap>) {
    forall v, x: Literal :: Known(m, v) == Some(x) <==>
      ends != [] && forall i: nat :: i < |ends| ==> Known(ends[i], v) == Some(x)
  }

  ghost predicate Shapes(preds: seq<seq<nat>>, blocks: seq<seq<Item>>, table: seq<seq<ConstMap>>) {
    && |table| == |blocks| == |preds|
    && forall b: nat :: b < |table| ==> |table[b]| == |blocks[b]| + 1 && InRange(preds[b], |table|)
  }

  ghost function Ends(preds: seq<nat>, table: seq<seq<ConstMap>>): seq<ConstMap>
    requires InRange(preds, |table|) && forall b: nat :: b < |table| ==> table[b] != []
  {
    seq(|preds|, i requires 0 <= i < |preds| => table[preds[i]][|table[preds[i]]| - 1])
  }

  // Constants for every place in the function that obey its statements and
  // the edges between its blocks.
  ghost predicate Flows(preds: seq<seq<nat>>, blocks: seq<seq<Item>>, tracked: set<nat>, table: seq<seq<ConstMap>>) {
    && Shapes(preds, blocks, table)
    && forall b: nat :: b < |table| ==>
         && IsMeet(table[b][0], Ends(preds[b], table))
         && forall k: nat :: k < |blocks[b]| ==> Passes(blocks[b][k], table[b][k], table[b][k + 1], tracked)
  }

  // Any other such constants know at least as much everywhere.
  ghost predicate LeastFlow(preds: seq<seq<nat>>, blocks: seq<seq<Item>>, tracked: set<nat>,
      table: seq<seq<ConstMap>>) {
    && Flows(preds, blocks, tracked, table)
    && forall other :: Flows(preds, blocks, tracked, other) ==> forall b: nat :: b < |table| ==>
         AllKnowLess(table[b], other[b])
  }

  lemma {:induction false} TableSteps(items: seq<Item>, m: ConstMap, tracked: set<nat>)
    ensures var t := Table(items, m, tracked);
            && |t| == |items| + 1 && t[0] == m && t[|items|] == ApplyAll(Statements(items), m, tracked)
            && forall k: nat :: k < |items| ==> Passes(items[k], t[k], t[k + 1], tracked)
  {
    hide StepsTo, Apply;
    if items != [] {
      var first := items[0];
      var m1 := if first.Stmt? then Apply(first.e, m, tracked) else m;
      var rest := Table(items[1..], m1, tracked);
      TableSteps(items[1..], m1, tracked);
      if first.Stmt? {
        ApplySteps(first.e, m, tracked);
        assert ([first.e] + Statements(items[1..]))[1..] == Statements(items[1..]);
      } else {
        assert [] + Statements(items[1..]) == Statements(items[1..]);
      }
      var t := Table(items, m, tracked);
      assert t == [m] + rest;
      forall k: nat | k < |items|
        ensures Passes(items[k], t[k], t[k + 1], tracked)
      {
        if k > 0 {
          assert items[k] == items[1..][k - 1] && t[k] == rest[k - 1] && t[k + 1] == rest[k];
        }
      }
    }
  }

  lemma {:induction false} MarkItemsAt(items: seq<Item>, m: ConstMap, tracked: set<nat>, tainted: set<nat>, k: nat)
    requires k < |items|
    ensures |MarkItems(items, m, tracked, tainted)| == |items| == |Table(items, m, tracked)| - 1
    ensures MarkItems(items, m, tracked, tainted)[k] ==
      if items[k].Stmt? then Stmt(Mark(items[k].e, Table(items, m, tracked)[k], tainted)) else items[k]
    decreases items
  {
    hide Mark, Apply;
    var m1 := if items[0].Stmt? then Apply(items[0].e, m, tracked) else m;
    assert Table(items, m, tracked) == [m] + Table(items[1..], m1, tracked);
    if |items| > 1 {
      MarkItemsAt(items[1..], m1, tracked, tainted, if k == 0 then 0 else k - 1);
    } else {
      assert items[1..] == [];
    }
  }

  lemma {:induction false} TablesCompare(items: seq<Item>, a: seq<ConstMap>, b: seq<ConstMap>, tracked: set<nat>, k: nat)
    requires |a| == |b| == |items| + 1 && k <= |items| && KnowsLess(a[0], b[0])
    requires forall i: nat :: i < |items| ==> Passes(items[i], a[i], a[i + 1], tracked)
    requires forall i: nat :: i < |items| ==> Passes(items[i], b[i], b[i + 1], tracked)
    ensures KnowsLess(a[k], b[k])
  {
    hide StepsTo;
    if k > 0 {
      TablesCompare(items, a, b, tracked, k - 1);
      assert Passes(items[k - 1], a[k - 1], a[k], tracked) && Passes(items[k - 1], b[k - 1], b[k], tracked);
      if items[k - 1].Stmt? {
        StepKnowsLess(items[k - 1].e, a[k - 1], a[k], b[k - 1], b[k], tracked);
      }
    }
  }

  lemma JoinIsMeet(outs: seq<ConstMap>, preds: seq<nat>, ends: seq<ConstMap>)
    requires InRange(preds, |outs|) && |ends| == |preds|
    requires forall i: nat :: i < |preds| ==> ends[i] == outs[preds[i]]
    ensures IsMeet(JoinAll(outs, preds), ends)
  {
    hide JoinAll;
    forall v, x: Literal
      ensures Known(JoinAll(outs, preds), v) == Some(x) <==>
        ends != [] && forall i: nat :: i < |ends| ==> Known(ends[i], v) == Some(x)
    {
      JoinAllIsMeet(outs, preds, v, x);
    }
  }

  lemma MeetsAgree(a: ConstMap, b: ConstMap, ends: seq<ConstMap>)
    requires IsMeet(a, ends) && IsMeet(b, ends)
    ensures KnowsLess(a, b)
  {
    forall v | Known(a, v).Some?
      ensures Known(b, v) == Known(a, v)
    {
      var x: Literal := Known(a, v).value;
      assert Known(a, v) == Some(x);
    }
  }

  ghost function Tables(blocks: seq<seq<Item>>, ins: seq<ConstMap>, tracked: set<nat>): seq<seq<ConstMap>>
    requires |ins| == |blocks|
  {
    seq(|blocks|, b requires 0 <= b < |blocks| => Table(blocks[b], ins[b], tracked))
  }

  lemma SolvedFlows(g: Graph, preds: seq<seq<nat>>, blocks: seq<seq<Item>>, tracked: set<nat>,
      ins: seq<ConstMap>, outs: seq<ConstMap>)
    requires Solved(g, preds, blocks, tracked, ins, outs)
    ensures Flows(preds, blocks, tracked, Tables(blocks, ins, tracked))
  {
    hide JoinAll, IsMeet, Passes, Statements, Table, ApplyAll;
    var table := Tables(blocks, ins, tracked);
    forall b: nat | b < |blocks|
      ensures |table[b]| == |blocks[b]| + 1 && InRange(preds[b], |table|)
      ensures table[b][0] == ins[b] && table[b][|blocks[b]|] == outs[b]
      ensures forall k: nat :: k < |blocks[b]| ==> Passes(blocks[b][k], table[b][k], table[b][k + 1], tracked)
    {
      TableSteps(blocks[b], ins[b], tracked);
      assert ins[b].Keys <= tracked;
    }
    forall b: nat | b < |blocks|
      ensures IsMeet(table[b][0], Ends(preds[b], table))
    {
      assert ins[b].Keys <= tracked;
      JoinIsMeet(outs, preds[b], Ends(preds[b], table));
    }
  }

  // What any such constants say at the blocks' ends is allowed.
  lemma FlowsAreAllowed(preds: seq<seq<nat>>, blocks: seq<seq<Item>>, stmts: seq<seq<Expr>>, tracked: set<nat>,
      table: seq<seq<ConstMap>>, ends: seq<ConstMap>)
    requires Flows(preds, blocks, tracked, table) && |stmts| == |ends| == |blocks|
    requires forall b: nat :: b < |blocks| ==> stmts[b] == Statements(blocks[b]) && ends[b] == table[b][|blocks[b]|]
    ensures Allowed(preds, stmts, tracked, ends)
    ensures forall b: nat :: b < |blocks| ==> KnowsLess(JoinAll(ends, preds[b]), table[b][0])
  {
    hide JoinAll, IsMeet, Passes, Statements, Table, ApplyAll, KnowsLess;
    forall b: nat | b < |blocks|
      ensures KnowsLess(JoinAll(ends, preds[b]), table[b][0])
      ensures KnowsLess(ApplyAll(stmts[b], JoinAll(ends, preds[b]), tracked), ends[b])
    {
      var start := JoinAll(ends, preds[b]);
      JoinIsMeet(ends, preds[b], Ends(preds[b], table));
      MeetsAgree(start, table[b][0], Ends(preds[b], table));
      TableSteps(blocks[b], start, tracked);
      TablesCompare(blocks[b], Table(blocks[b], start, tracked), table[b], tracked, |blocks[b]|);
    }
  }

  lemma SolvedIsLeast(g: Graph, preds: seq<seq<nat>>, blocks: seq<seq<Item>>, stmts: seq<seq<Expr>>,
      tracked: set<nat>, ins: seq<ConstMap>, outs: seq<ConstMap>)
    requires Solved(g, preds, blocks, tracked, ins, outs)
    requires |stmts| == |blocks| && forall b: nat :: b < |blocks| ==> stmts[b] == Statements(blocks[b])
    requires Least(preds, stmts, tracked, outs)
    ensures LeastFlow(preds, blocks, tracked, Tables(blocks, ins, tracked))
  {
    hide JoinAll, IsMeet, Passes, Statements, Table, ApplyAll, KnowsLess, Allowed;
    SolvedFlows(g, preds, blocks, tracked, ins, outs);
    var table := Tables(blocks, ins, tracked);
    forall other, b: nat | Flows(preds, blocks, tracked, other) && b < |table|
      ensures AllKnowLess(table[b], other[b])
    {
      var ends: seq<ConstMap> := seq(|blocks|, c requires 0 <= c < |blocks| => other[c][|blocks[c]|]);
      FlowsAreAllowed(preds, blocks, stmts, tracked, other, ends);
      JoinAllKnowsLess(outs, ends, preds[b]);
      assert ins[b].Keys <= tracked;
      KnowsLessThrough(ins[b], JoinAll(ends, preds[b]), other[b][0]);
      TableSteps(blocks[b], ins[b], tracked);
      forall k: nat | k <= |blocks[b]|
        ensures KnowsLess(table[b][k], other[b][k])
      {
        TablesCompare(blocks[b], table[b], other[b], tracked, k);
      }
    }
  }

  // Deferred runs keep their checks; statements are marked exactly.
  ghost predicate ItemsMarked(was: seq<Item>, now: seq<Item>, table: seq<ConstMap>, tainted: set<nat>) {
    && |now| == |was| && |table| == |was| + 1
    && forall k: nat :: k < |was| ==>
         if was[k].Deferred? then now[k] == was[k]
         else now[k].Stmt? && MarkedExactly(was[k].e, now[k].e, table[k], tainted)
  }

  lemma MarkItemsIsExact(items: seq<Item>, m: ConstMap, tracked: set<nat>, tainted: set<nat>)
    ensures ItemsMarked(items, MarkItems(items, m, tracked, tainted), Table(items, m, tracked), tainted)
  {
    hide MarkedExactly, Mark;
    forall k: nat | k < |items|
      ensures |MarkItems(items, m, tracked, tainted)| == |items| == |Table(items, m, tracked)| - 1
      ensures var now := MarkItems(items, m, tracked, tainted)[k];
              if items[k].Deferred? then now == items[k]
              else now.Stmt? && MarkedExactly(items[k].e, now.e, Table(items, m, tracked)[k], tainted)
    {
      MarkItemsAt(items, m, tracked, tainted, k);
      if items[k].Stmt? {
        MarkIsExact(items[k].e, Table(items, m, tracked)[k], tainted);
      }
    }
  }

  // markElidableChecks
  method MarkElidableChecks(g: Graph, preds: seq<seq<nat>>, entry: nat,
      blocks: seq<seq<Item>>) returns (marked: seq<seq<Item>>, ghost tracked: set<nat>, ghost tainted: set<nat>,
      ghost table: seq<seq<ConstMap>>)
    requires g.Valid() && Mirrored(g, preds) && |blocks| == |g.succs| && entry < |blocks|
    requires preds[entry] == []
    requires WellFormed(blocks)
    ensures |marked| == |blocks|
    ensures TracksExactly(blocks, tracked, tainted) && LeastFlow(preds, blocks, tracked, table)
    ensures forall b: nat :: b < |blocks| ==> ItemsMarked(blocks[b], marked[b], table[b], tainted)
    ensures forall w: World, s: State, fuel: nat :: CallsAreLocal(w, blocks) ==>
              Run(g, marked, entry, s, w, true, fuel) == Run(g, blocks, entry, s, w, false, fuel)
  {
    hide WellFormed, TracksExactly, CallsAreLocal, CallsKeep, Run, MarkItems, Statements, Flows, ItemsMarked;
    var known, touched := ComputeTrackedVars(blocks);
    tracked, tainted := known, touched;
    var stmts := seq(|blocks|, c requires 0 <= c < |blocks| => Statements(blocks[c]));
    var ins, outs := SolveConstants(g, preds, stmts, known);
    assert Solved(g, preds, blocks, tracked, ins, outs);
    SolvedIsLeast(g, preds, blocks, stmts, tracked, ins, outs);
    table := Tables(blocks, ins, tracked);
    marked := [];
    for b := 0 to |blocks|
      invariant |marked| == b
      invariant forall c: nat :: c < b ==> ItemsMarked(blocks[c], marked[c], table[c], tainted)
      invariant forall c: nat :: c < b ==> marked[c] == MarkItems(blocks[c], ins[c], tracked, tainted)
    {
      MarkItemsIsExact(blocks[b], ins[b], tracked, tainted);
      marked := marked + [MarkItems(blocks[b], ins[b], known, touched)];
    }
    assert ins[entry] == map[];
    forall w: World, s: State, fuel: nat | CallsAreLocal(w, blocks)
      ensures Run(g, marked, entry, s, w, true, fuel) == Run(g, blocks, entry, s, w, false, fuel)
    {
      TrackedIsLocal(w, blocks, tracked, tainted);
      ElisionIsInvisible(g, preds, blocks, marked, tracked, tainted, ins, outs, entry, s, w, fuel);
    }
  }
}
