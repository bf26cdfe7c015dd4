// Expressions as the value-range pass sees them: what they compute, with and
// without their runtime checks, and which variables they may change.
module ConstExpr {
  import opened Options
  import opened Int64

  datatype Op = Add | Sub | Mul | Div | Shl | Other(code: nat)

  // `proven` is the node flag that tells the code generator to leave the
  // runtime check out.
  datatype Expr =
    | Num(n: Literal)
    | Var(v: nat)
    | Bin(op: Op, l: Expr, r: Expr, proven: bool)
    | Neg(e: Expr, proven: bool)
    | Index(arr: nat, size: nat, index: Expr, proven: bool)
    | Assign(v: nat, rhs: Expr)
    | Compound(v: nat, op: Op, rhs: Expr, proven: bool)
    | Postfix(v: nat, up: bool, proven: bool)
    | Decl(v: nat, init: Option<Expr>)
    | AddressOf(v: nat)
    | Call(f: nat, args: seq<Expr>)
    | Defer(stmt: Expr)

  // Variables by name, and everything else a program can change.
  datatype State = State(vars: map<nat, int>, rest: int)
  {
    function Get(v: nat): int {
      if v in vars then vars[v] else 0
    }

    function Set(v: nat, x: int): State {
      this.(vars := vars[v := x])
    }
  }

  // The parts of the machine the pass knows nothing about.
  datatype World = World(
    call: (nat, seq<int>, State) -> (Checked, State),
    load: (int, nat, int) -> int,      // rest of the state, array, index
    other: (nat, int, int) -> Checked, // any operator that is never folded
    unset: nat -> int,                 // what an uninitialised local holds
    address: nat -> int,
    branch: (nat, int, State) -> nat)  // the successor a block's last value picks

  function CheckedOp(w: World, op: Op, l: int, r: int): Checked {
    match op
    case Add => Check(l + r)
    case Sub => Check(l - r)
    case Mul => Check(l * r)
    case Div => if r == 0 || (l == MIN && r == -1) then Panic else Value(TruncDiv(l, r))
    case Shl => CheckedShl(l, r)
    case Other(code) => w.other(code, l, r)
  }

  // What is emitted for a node marked proven: the bare instruction.
  function BareOp(w: World, op: Op, l: int, r: int): Checked {
    match op
    case Add => Value(Wrap(l + r))
    case Sub => Value(Wrap(l - r))
    case Mul => Value(Wrap(l * r))
    case Shl => Value(if 0 <= r < 64 then Wrap(l * Pow(2, r)) else 0)
    case _ => CheckedOp(w, op, l, r)
  }

  function RunOp(w: World, elide: bool, proven: bool, op: Op, l: int, r: int): Checked {
    if elide && proven then BareOp(w, op, l, r) else CheckedOp(w, op, l, r)
  }

  // Evaluation, left to right. With `elide`, a proven node runs unchecked.
  function Eval(e: Expr, s: State, w: World, elide: bool): (Checked, State)
    decreases e, 1
  {
    match e
    case Num(n) => (Value(n), s)
    case Var(v) => (Value(s.Get(v)), s)
    case Bin(op, l, r, proven) =>
      var (lv, s1) := Eval(l, s, w, elide);
      if lv.Panic? then (Panic, s1) else
      var (rv, s2) := Eval(r, s1, w, elide);
      if rv.Panic? then (Panic, s2) else (RunOp(w, elide, proven, op, lv.v, rv.v), s2)
    case Neg(x, proven) =>
      var (xv, s1) := Eval(x, s, w, elide);
      if xv.Panic? then (Panic, s1) else
      (if elide && proven then Value(Wrap(-xv.v)) else Check(-xv.v), s1)
    case Index(arr, size, index, proven) =>
      var (iv, s1) := Eval(index, s, w, elide);
      if iv.Panic? then (Panic, s1) else
      (if elide && proven then Value(w.load(s1.rest, arr, iv.v))
       else if 0 <= iv.v + size && iv.v < size then Value(w.load(s1.rest, arr, if iv.v < 0 then iv.v + size else iv.v))
       else Panic, s1)
    case Assign(v, rhs) =>
      var (xv, s1) := Eval(rhs, s, w, elide);
      if xv.Panic? then (Panic, s1) else (xv, s1.Set(v, xv.v))
    case Compound(v, op, rhs, proven) =>
      var (xv, s1) := Eval(rhs, s, w, elide);
      if xv.Panic? then (Panic, s1) else
      var r := RunOp(w, elide, proven, op, s1.Get(v), xv.v);
      if r.Panic? then (Panic, s1) else (r, s1.Set(v, r.v))
    case Postfix(v, up, proven) =>
      var r := RunOp(w, elide, proven, if up then Add else Sub, s.Get(v), 1);
      if r.Panic? then (Panic, s) else (Value(s.Get(v)), s.Set(v, r.v))
    case Decl(v, init) =>
      if init.None? then (Value(0), s.Set(v, w.unset(v))) else
      var (xv, s1) := Eval(init.value, s, w, elide);
      if xv.Panic? then (Panic, s1) else (xv, s1.Set(v, xv.v))
    case AddressOf(v) => (Value(w.address(v)), s)
    case Call(f, args) =>
      var (vs, s1) := EvalAll(args, s, w, elide);
      if vs.None? then (Panic, s1) else w.call(f, vs.value, s1)
    case Defer(stmt) => (Value(0), s)
  }

  function EvalAll(es: seq<Expr>, s: State, w: World, elide: bool): (Option<seq<int>>, State)
    decreases es, 0
  {
    if es == [] then (Some([]), s)
    else
      var (x, s1) := Eval(es[0], s, w, elide);
      if x.Panic? then (None, s1) else
      var (xs, s2) := EvalAll(es[1..], s1, w, elide);
      if xs.None? then (None, s2) else (Some([x.v] + xs.value), s2)
  }

  // ---- Variables that may be treated as constants ----

  // TrackabilityScan below a read: a bare variable is a read, and every other
  // appearance outside a known reading position taints.
  function ReadTaints(e: Expr): set<nat>
    decreases e, 1
  {
    match e
    case Num(_) => {}
    case Var(_) => {}
    case Bin(_, l, r, _) => ReadTaints(l) + ReadTaints(r)
    case Neg(x, _) => ReadTaints(x)
    case Index(_, _, index, _) => ReadTaints(index)
    case Assign(v, rhs) => {v} + ReadTaints(rhs)
    case Compound(v, _, rhs, _) => {v} + ReadTaints(rhs)
    case Postfix(v, _, _) => {v}
    case Decl(_, init) => if init.Some? then ReadTaints(init.value) else {}
    case AddressOf(v) => {v}
    case Call(_, args) => ReadTaintsAll(args)
    case Defer(stmt) => VisitTaints(stmt)
  }

  function ReadTaintsAll(es: seq<Expr>): set<nat>
    decreases es, 0
  {
    if es == [] then {} else ReadTaints(es[0]) + ReadTaintsAll(es[1..])
  }

  // visitChild: outside a reading position a bare variable taints too.
  function VisitTaints(e: Expr): set<nat>
    decreases e, 2
  {
    if e.Var? then {e.v} else ReadTaints(e)
  }

  // A whole statement: its own write is one the transfer function sees.
  function StatementTaints(e: Expr): set<nat> {
    match e
    case Assign(_, rhs) => ReadTaints(rhs)
    case Compound(_, _, rhs, _) => ReadTaints(rhs)
    case Postfix(_, _, _) => {}
    case Decl(_, init) => if init.Some? then ReadTaints(init.value) else {}
    case _ => VisitTaints(e)
  }

  // Variables declared below the statement level.
  function InnerDecls(e: Expr): set<nat>
    decreases e, 1
  {
    match e
    case Bin(_, l, r, _) => InnerDecls(l) + InnerDecls(r)
    case Neg(x, _) => InnerDecls(x)
    case Index(_, _, index, _) => InnerDecls(index)
    case Assign(_, rhs) => InnerDecls(rhs)
    case Compound(_, _, rhs, _) => InnerDecls(rhs)
    case Decl(v, init) => {v} + if init.Some? then InnerDecls(init.value) else {}
    case Call(_, args) => InnerDeclsAll(args)
    case Defer(stmt) => InnerDecls(stmt)
    case _ => {}
  }

  function InnerDeclsAll(es: seq<Expr>): set<nat>
    decreases es, 0
  {
    if es == [] then {} else InnerDecls(es[0]) + InnerDeclsAll(es[1..])
  }

  // A called function can change a caller's variable only through its address.
  ghost predicate CallsKeep(w: World, tracked: set<nat>) {
    forall f: nat, args: seq<int>, s: State, v: nat {:trigger w.call(f, args, s).1.Get(v)} ::
      v in tracked ==> w.call(f, args, s).1.Get(v) == s.Get(v)
  }

  ghost predicate SameTracked(s: State, t: State, tracked: set<nat>) {
    forall v :: v in tracked ==> s.Get(v) == t.Get(v)
  }

  ghost predicate Harmless(e: Expr, tracked: set<nat>) {
    ReadTaints(e) !! tracked && InnerDecls(e) !! tracked
  }

  // Evaluating an expression in a reading position changes no tracked variable.
  lemma {:induction false} EvalKeepsTracked(e: Expr, s: State, w: World, elide: bool, tracked: set<nat>)
    requires CallsKeep(w, tracked) && Harmless(e, tracked)
    ensures SameTracked(s, Eval(e, s, w, elide).1, tracked)
    decreases e, 1
  {
    match e
    case Bin(op, l, r, proven) =>
      EvalKeepsTracked(l, s, w, elide, tracked);
      EvalKeepsTracked(r, Eval(l, s, w, elide).1, w, elide, tracked);
    case Neg(x, _) => EvalKeepsTracked(x, s, w, elide, tracked);
    case Index(_, _, index, _) => EvalKeepsTracked(index, s, w, elide, tracked);
    case Assign(v, rhs) => EvalKeepsTracked(rhs, s, w, elide, tracked);
    case Compound(v, _, rhs, _) => EvalKeepsTracked(rhs, s, w, elide, tracked);
    case Decl(v, init) =>
      if init.Some? {
        EvalKeepsTracked(init.value, s, w, elide, tracked);
      }
    case Call(f, args) => EvalAllKeepsTracked(args, s, w, elide, tracked);
    case _ =>
  }

  lemma {:induction false} EvalAllKeepsTracked(es: seq<Expr>, s: State, w: World, elide: bool, tracked: set<nat>)
    requires CallsKeep(w, tracked)
    requires ReadTaintsAll(es) !! tracked && InnerDeclsAll(es) !! tracked
    ensures SameTracked(s, EvalAll(es, s, w, elide).1, tracked)
    decreases es, 0
  {
    if es != [] {
      EvalKeepsTracked(es[0], s, w, elide, tracked);
      EvalAllKeepsTracked(es[1..], Eval(es[0], s, w, elide).1, w, elide, tracked);
    }
  }
}
