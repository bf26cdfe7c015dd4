// The nodes of an expression, by their place in it, and what it means for one
// to change a variable behind the value-range pass.
module ExprNodes {
  import opened Options
  import opened ConstExpr

  function Children(e: Expr): seq<Expr> {
    match e
    case Bin(_, l, r, _) => [l, r]
    case Neg(x, _) => [x]
    case Index(_, _, index, _) => [index]
    case Assign(_, rhs) => [rhs]
    case Compound(_, _, rhs, _) => [rhs]
    case Decl(_, init) => if init.Some? then [init.value] else []
    case Call(_, args) => args
    case Defer(stmt) => [stmt]
    case _ => []
  }

  function At(e: Expr, path: seq<nat>): Option<Expr>
    decreases |path|
  {
    if path == [] then Some(e)
    else if path[0] < |Children(e)| then At(Children(e)[path[0]], path[1..])
    else None
  }

  // The place is inside a deferred statement.
  predicate UnderDefer(e: Expr, path: seq<nat>)
    decreases |path|
  {
    path != [] && path[0] < |Children(e)| && (e.Defer? || UnderDefer(Children(e)[path[0]], path[1..]))
  }

  // ---- The flag of a node, and the tree without its flags ----

  predicate HasCheck(e: Expr) {
    e.Bin? || e.Neg? || e.Index? || e.Compound? || e.Postfix?
  }

  function Bare(e: Expr): Expr
    decreases e, 1
  {
    match e
    case Bin(op, l, r, _) => Bin(op, Bare(l), Bare(r), false)
    case Neg(x, _) => Neg(Bare(x), false)
    case Index(arr, size, index, _) => Index(arr, size, Bare(index), false)
    case Assign(v, rhs) => Assign(v, Bare(rhs))
    case Compound(v, op, rhs, _) => Compound(v, op, Bare(rhs), false)
    case Postfix(v, up, _) => Postfix(v, up, false)
    case Decl(v, init) => if init.Some? then Decl(v, Some(Bare(init.value))) else e
    case Call(f, args) => Call(f, BareAll(args))
    case Defer(stmt) => Defer(Bare(stmt))
    case _ => e
  }

  function BareAll(es: seq<Expr>): seq<Expr>
    decreases es, 0
  {
    if es == [] then [] else [Bare(es[0])] + BareAll(es[1..])
  }

  // ---- Variables that change where the transfer function does not look ----

  // `x` itself takes v's address or writes v, or is a deferred mention of it.
  predicate Touches(x: Expr, v: nat) {
    || x == AddressOf(v)
    || (x.Assign? && x.v == v)
    || (x.Compound? && x.v == v)
    || (x.Postfix? && x.v == v)
    || x == Defer(Var(v))
  }

  ghost predicate TouchedIn(e: Expr, v: nat) {
    exists path :: At(e, path).Some? && Touches(At(e, path).value, v)
  }

  ghost predicate TouchedInAny(es: seq<Expr>, v: nat) {
    exists i: nat :: i < |es| && TouchedIn(es[i], v)
  }

  // A place in `e` is `e` itself or a place in a child.
  lemma TouchedUnfolds(e: Expr, v: nat)
    ensures TouchedIn(e, v) <==> Touches(e, v) || TouchedInAny(Children(e), v)
  {
    if TouchedIn(e, v) {
      var path :| At(e, path).Some? && Touches(At(e, path).value, v);
      if path != [] {
        assert At(Children(e)[path[0]], path[1..]) == At(e, path);
        assert TouchedIn(Children(e)[path[0]], v);
      }
    }
    if Touches(e, v) {
      assert At(e, []) == Some(e);
    }
    if i: nat :| i < |Children(e)| && TouchedIn(Children(e)[i], v) {
      var path :| At(Children(e)[i], path).Some? && Touches(At(Children(e)[i], path).value, v);
      assert ([i] + path)[1..] == path;
      assert At(e, [i] + path) == At(Children(e)[i], path);
    }
  }

  lemma {:induction false} ReadTaintsAreTouches(e: Expr, v: nat)
    ensures v in ReadTaints(e) <==> TouchedIn(e, v)
    decreases e, 1
  {
    hide TouchedIn;
    TouchedUnfolds(e, v);
    match e
    case Bin(_, l, r, _) =>
      ReadTaintsAreTouches(l, v);
      ReadTaintsAreTouches(r, v);
      assert Children(e)[0] == l && Children(e)[1] == r;
    case Neg(x, _) => OneChild(e, x, v);
    case Index(_, _, index, _) => OneChild(e, index, v);
    case Assign(_, rhs) => OneChild(e, rhs, v);
    case Compound(_, _, rhs, _) => OneChild(e, rhs, v);
    case Decl(_, init) =>
      if init.Some? {
        OneChild(e, init.value, v);
      }
    case Call(_, args) => ReadTaintsAllAreTouches(args, v);
    case Defer(stmt) =>
      OneChild(e, stmt, v);
      TouchedUnfolds(stmt, v);
    case _ =>
  }

  lemma OneChild(e: Expr, x: Expr, v: nat)
    requires Children(e) == [x]
    ensures TouchedInAny(Children(e), v) <==> v in ReadTaints(x)
    decreases x, 2
  {
    hide TouchedIn;
    ReadTaintsAreTouches(x, v);
    assert Children(e)[0] == x;
  }

  lemma {:induction false} ReadTaintsAllAreTouches(es: seq<Expr>, v: nat)
    ensures v in ReadTaintsAll(es) <==> TouchedInAny(es, v)
    decreases es, 0
  {
    hide TouchedIn;
    if es != [] {
      ReadTaintsAreTouches(es[0], v);
      ReadTaintsAllAreTouches(es[1..], v);
      if i: nat :| i < |es| && TouchedIn(es[i], v) && i > 0 {
        assert es[1..][i - 1] == es[i];
      }
      if i: nat :| i < |es[1..]| && TouchedIn(es[1..][i], v) {
        assert es[i + 1] == es[1..][i];
      }
    }
  }

  // A whole statement's own write is one the transfer function sees; a bare
  // mention of a variable as a statement is no known read.
  ghost predicate TouchedBy(e: Expr, v: nat) {
    || e == Var(v)
    || exists path :: At(e, path).Some? && Touches(At(e, path).value, v) && !(path == [] && OwnWrite(e))
  }

  predicate OwnWrite(e: Expr) {
    e.Assign? || e.Compound? || e.Postfix?
  }

  lemma StatementTaintsAreTouches(e: Expr, v: nat)
    ensures v in StatementTaints(e) <==> TouchedBy(e, v)
  {
    ReadTaintsAreTouches(e, v);
    if OwnWrite(e) {
      WriteTaints(e, v);
    } else {
      assert TouchedIn(e, v) ==> exists path :: At(e, path).Some? && Touches(At(e, path).value, v);
    }
  }

  lemma WriteTaints(e: Expr, v: nat)
    requires OwnWrite(e)
    ensures v in StatementTaints(e) <==> TouchedBy(e, v)
  {
    if e.Assign? || e.Compound? {
      ReadTaintsAreTouches(e.rhs, v);
      if TouchedIn(e.rhs, v) {
        var path :| At(e.rhs, path).Some? && Touches(At(e.rhs, path).value, v);
        assert ([0] + path)[1..] == path;
        assert At(e, [0] + path) == At(e.rhs, path);
      }
      if path :| At(e, path).Some? && Touches(At(e, path).value, v) && path != [] {
        assert At(e, path) == At(e.rhs, path[1..]);
      }
    } else {
      assert forall path :: path != [] ==> At(e, path).None?;
    }
  }
}
