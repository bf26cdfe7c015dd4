// CFGBuilder: the graph every dataflow pass walks, built statement by
// statement, and why its paths are the program's executions.
module CfgBuilder {
  import opened Options
  import opened Graph
  import opened Structured
  import opened BlockMachine
  import opened Layout
  import opened Placement

  const ENTRY: nat := 0
  const EXIT: nat := 1

  // Every edge is in both lists, no block has more than two, and none leads to the entry block.
  ghost predicate Linked(code: Code, preds: seq<seq<nat>>) {
    && |preds| == |code|
    && (forall b: nat :: b < |code| ==> |code[b].succs| <= 2)
    && (forall b: nat, i: nat :: b < |code| && i < |code[b].succs| ==> 0 < code[b].succs[i] < |code|)
    && (forall b: nat, i: nat :: b < |preds| && i < |preds[b]| ==> preds[b][i] < |code|)
    && (forall b: nat, p: nat :: b < |code| && p < |code| ==> (p in preds[b] <==> b in code[p].succs))
  }

  // Both edges of every fork can be taken: none is a test of the literal `true`.
  ghost predicate Forks(code: Code) {
    forall b: nat :: b < |code| && |code[b].succs| == 2 ==> !Decided(code[b].items)
  }

  class CfgBuilder {
    var code: Code
    var preds: seq<seq<nat>>
    // No current block: the last one ended in return, break or continue.
    var current: Option<nat>
    var brk: Option<nat>
    var cont: Option<nat>
    // One list a `{ }` being built: the statements its defers will run.
    var scopes: seq<seq<nat>>
    var loopDepth: nat
    // The literal `true` is no `if`'s condition.
    ghost const plain: bool

    ghost predicate Wired()
      reads this`code, this`preds
    {
      Linked(code, preds) && (plain ==> Forks(code))
    }

    // What holds between visits, when no block is being filled.
    ghost predicate Ready()
      reads this
    {
      && Wired() && |code| > EXIT && code[EXIT] == Node([], [])
      && (brk.Some? <==> cont.Some?)
      && (brk.Some? ==> 0 < brk.value < |code| && 0 < cont.value < |code|)
      && loopDepth <= |scopes|
    }

    ghost predicate Valid()
      reads this
    {
      && Ready() && loopDepth <= |scopes|
      && (current.Some? ==> current.value < |code| && current.value != EXIT && code[current.value].succs == [])
    }

    ghost function Here(): Context
      reads this
    {
      Context(false, scopes, loopDepth, brk, cont, EXIT)
    }

    constructor (ghost plain: bool)
      ensures this.plain == plain && Valid() && code == [Node([], []), Node([], [])] && current == Some(ENTRY)
      ensures brk.None? && scopes == [] && loopDepth == 0
    {
      this.plain := plain;
      code := [Node([], []), Node([], [])];
      preds := [[], []];
      current := Some(ENTRY);
      brk, cont := None, None;
      scopes, loopDepth := [], 0;
    }

    method CreateBlock() returns (b: nat)
      requires Wired()
      modifies this`code, this`preds
      ensures Wired() && b == |old(code)| && code == old(code) + [Node([], [])]
    {
      b := |code|;
      code := code + [Node([], [])];
      preds := preds + [[]];
    }

    method AddStatement(b: nat, e: Event)
      requires Wired() && b < |code| && |code[b].succs| < 2
      modifies this`code
      ensures Wired()
      ensures code == old(code)[b := Node(old(code[b].items) + [e], old(code[b].succs))]
    {
      code := code[b := Node(code[b].items + [e], code[b].succs)];
    }

    // addEdge, from any block but the one still being filled.
    method AddEdge(from: nat, to: nat)
      requires Wired() && |code| > EXIT && from < |code| && 0 < to < |code|
      requires |code[from].succs| < 2 && (plain && |code[from].succs| == 1 ==> !Decided(code[from].items))
      modifies this`code, this`preds
      ensures Wired()
      ensures code == old(code)[from := Node(old(code[from].items), old(code[from].succs) + [to])]
    {
      code := code[from := Node(code[from].items, code[from].succs + [to])];
      preds := preds[to := preds[to] + [from]];
    }

    // What a visit leaves as it was, and where it may leave the insert point.
    twostate predicate Visited(start: nat)
      reads this
    {
      && Valid() && brk == old(brk) && cont == old(cont) && loopDepth == old(loopDepth)
      && Extends(old(code), start, code)
      && (current.Some? ==> current.value == start || |old(code)| <= current.value)
    }

    // One scope's deferred statements, last registered first.
    method EmitScope(frame: seq<nat>)
      requires Valid() && current.Some?
      modifies this`code
      ensures Valid()
      ensures code == old(code)[current.value := Node(old(code[current.value].items) + Runs(frame), [])]
    {
      hide Wired;
      var b := current.value;
      ghost var was := code;
      var j: nat := |frame|;
      assert frame[..j] == frame;
      while j > 0
        invariant Valid() && j <= |frame|
        invariant code == was[b := Node(code[b].items, [])]
        invariant code[b].items + Runs(frame[..j]) == was[b].items + Runs(frame)
      {
        j := j - 1;
        assert frame[..j + 1][..j] == frame[..j];
        AddStatement(b, Run(frame[j]));
      }
      assert code[b].items + [] == code[b].items;
    }

    // emitDeferredRuns: every scope above `depth`, innermost first.
    method EmitDeferredRuns(depth: nat)
      requires Valid() && current.Some?
      modifies this`code
      ensures Valid()
      ensures code == old(code)[current.value := Node(old(code[current.value].items) + Unwind(scopes, depth), [])]
    {
      hide Wired, Runs, Ready;
      var b := current.value;
      ghost var was := code;
      var i: nat := |scopes|;
      assert scopes[..i] == scopes;
      while i > depth
        invariant Valid() && i <= |scopes|
        invariant code == was[b := Node(code[b].items, [])]
        invariant code[b].items + Unwind(scopes[..i], depth) == was[b].items + Unwind(scopes, depth)
      {
        i := i - 1;
        assert scopes[..i + 1][..i] == scopes[..i];
        ghost var items := code[b].items;
        EmitScope(scopes[i]);
        assert items + (Runs(scopes[i]) + Unwind(scopes[..i], depth)) == code[b].items + Unwind(scopes[..i], depth);
      }
      assert code[b].items + [] == code[b].items;
    }

    method VisitExpr(s: Stmt) returns (ok: bool)
      requires Valid() && (plain ==> Plain(s)) && (s.Defer? ==> scopes != [])
      modifies this
      ensures ok <==> old(current).Some? && Placed(s, old(brk).Some?, true)
      ensures ok ==> Visited(old(current).value)
      ensures ok ==> (current.Some? <==> Completes(s))
      ensures ok ==> scopes == Register(old(scopes), s)
      ensures ok && s.Defer? ==> current == old(current)
      ensures ok && s.Defer? ==> code[old(current).value].items == old(code[current.value].items) + [Registered(s.a)]
      ensures ok ==> Laid(old(Here()), Erase(s), old(current).value, |old(code)[old(current).value].items|, |old(code)|, code, current)
      decreases s, 2
    {
      hide Laid, LaidSeq, Wired, EraseAll, Extends, View;
      if current.None? {
        return false;
      }
      match s
      case Block(body) =>
        ghost var b, was, x := current.value, code, Here();
        ok := VisitBlock(body);
        if ok {
          BlockLaid(x, Erase(s), b, |was[b].items|, |was|, code, current);
        }
      case If(_, _, _, _) => ok := VisitIf(s);
      case While(_, _) => ok := VisitWhile(s);
      case DoWhile(_, _) => ok := VisitDoWhile(s);
      case Return(_) =>
        VisitReturn(s);
        ok := true;
      case Break => ok := VisitJump(s);
      case Continue => ok := VisitJump(s);
      case _ =>
        VisitPlain(s);
        ok := true;
    }

    // A defer joins its scope's list. Any other plain statement is only
    // recorded, `try` among them: the early return gets no edge.
    method VisitPlain(s: Stmt)
      requires Valid() && current.Some? && (s.Simple? || s.Try? || s.Defer?) && (s.Defer? ==> scopes != [])
      modifies this`code, this`scopes
      ensures Visited(old(current).value) && current == old(current) && scopes == Register(old(scopes), s)
      ensures s.Defer? ==> code[current.value].items == old(code[current.value].items) + [Registered(s.a)]
      ensures Laid(old(Here()), Erase(s), current.value, |old(code[current.value].items)|, |old(code)|, code, current)
    {
      hide Laid, Wired, EraseAll, View, Extends;
      ghost var b, was, x := current.value, code, Here();
      var e := if s.Defer? then Registered(s.a) else Act(s.a);
      scopes := Register(scopes, s);
      AddStatement(current.value, e);
      ViewAll([e]);
      ExtendsAt(was, b, code[b]);
      LaidSimple(x, Erase(s), e, b, was, code);
    }

    method VisitBlock(body: seq<Stmt>) returns (ok: bool)
      requires Valid() && (plain ==> PlainAll(body)) && current.Some?
      modifies this
      ensures ok <==> PlacedAll(body, old(brk).Some?, true)
      ensures ok ==> Visited(old(current).value) && scopes == old(scopes)
      ensures ok ==> (current.Some? <==> CompletesAll(body))
      ensures ok ==> LaidSeq(old(Here()), EraseAll(body), old(current).value, |old(code)[old(current).value].items|, |old(code)|, code, current)
      decreases body, 1
    {
      hide SeqSoFar, Laid, LaidSeq, Wired, Keeps, Runs, Extends, View, PlacedAll, CompletesAll, Placed, Completes,
          Ready, EraseAll, Erase, PlainAll, Plain;
      ghost var b, at, n, x := current.value, |code[current.value].items|, |code|, Here();
      ghost var es := EraseAll(body);
      ErasedAt(body);
      SeqSoFarBegins(x, es, b, n, code);
      ExtendsSame(code, b);
      OpenScope();
      for i := 0 to |body|
        invariant Visited(b) && n <= |code|
        invariant |scopes| == |old(scopes)| + 1 && scopes[..|scopes| - 1] == old(scopes)
        invariant PlacedAll(body, brk.Some?, true) <==> PlacedAll(body[i..], brk.Some?, true) && (i < |body| ==> i == 0 || current.Some?)
        invariant plain ==> PlainAll(body[i..])
        invariant CompletesAll(body) <==> current.Some? && CompletesAll(body[i..])
        invariant i == 0 ==> current.Some?
        invariant SeqSoFar(x, es, i, scopes[|scopes| - 1], b, at, n, code, current)
      {
        SuffixStep(body, i, brk.Some?, true);
        ghost var was, cur := code, current;
        ok := VisitNext(body, i, es, x, b, at, n);
        if !ok {
          return;
        }
        ExtendsFurther(old(code), b, was, cur.value, code);
      }
      SuffixEnds(body, brk.Some?, true);
      ghost var was := code;
      CloseBlock(x, es, b, at, n);
      if current.Some? {
        ExtendsFurther(old(code), b, was, current.value, code);
      }
      ok := true;
    }

    method OpenScope()
      requires Valid()
      modifies this`scopes
      ensures Valid() && scopes == old(scopes) + [[]]
    {
      scopes := scopes + [[]];
    }

    // The next statement of a block.
    method VisitNext(body: seq<Stmt>, i: nat, ghost es: seq<Stmt>, ghost x: Context, ghost b: nat, ghost at: nat,
        ghost n: nat) returns (ok: bool)
      requires Valid() && i < |body| && (plain ==> Plain(body[i])) && n <= |code| && x.depth <= |x.frames|
      requires current.Some? ==> current.value == b || n <= current.value
      requires scopes != [] && Here() == Inside(x, scopes[|scopes| - 1])
      requires |es| == |body| && es[i] == Erase(body[i])
      requires SeqSoFar(x, es, i, scopes[|scopes| - 1], b, at, n, code, current)
      modifies this
      ensures ok <==> old(current).Some? && Placed(body[i], old(brk).Some?, true)
      ensures ok ==> Visited(old(current).value)
      ensures ok ==> (current.Some? <==> Completes(body[i]))
      ensures ok ==> |scopes| == |old(scopes)| && scopes[..|scopes| - 1] == old(scopes)[..|scopes| - 1]
      ensures ok ==> n <= |code| && SeqSoFar(x, es, i + 1, scopes[|scopes| - 1], b, at, n, code, current)
      decreases body, 0
    {
      hide SeqSoFar, Laid, Wired, Extends, View, Placed, Completes;
      ghost var was, cur, reg := code, current, scopes[|scopes| - 1];
      ok := VisitExpr(body[i]);
      if ok {
        ExtendsLonger(was, cur.value, code);
        if body[i].Defer? {
          ViewAll([Registered(body[i].a)]);
        }
        SeqSoFarStep(x, es, i, reg, b, at, n, was, cur.value, code, current);
      }
    }

    // The last statement is done: this scope's own defers, and the scope is gone.
    method CloseBlock(ghost x: Context, ghost body: seq<Stmt>, ghost b: nat, ghost at: nat, ghost n: nat)
      requires Valid() && loopDepth < |scopes|
      requires current.Some? ==> current.value == b || n <= current.value
      requires SeqSoFar(x, body, |body|, scopes[|scopes| - 1], b, at, n, code, current)
      modifies this`code, this`scopes
      ensures Valid() && scopes == old(scopes)[..|old(scopes)| - 1]
      ensures current.None? ==> code == old(code)
      ensures current.Some? ==> Extends(old(code), current.value, code)
      ensures LaidSeq(x, body, b, at, n, code, current)
    {
      hide SeqSoFar, LaidSeq, Runs;
      ghost var was := code;
      if current.Some? {
        EmitDeferredRuns(|scopes| - 1);
        UnwindInnermost(scopes);
      }
      SeqSoFarEnds(x, body, scopes[|scopes| - 1], b, at, n, was, code, current);
      scopes := scopes[..|scopes| - 1];
    }

    // First the value, then the defers of all open scopes, then the exit.
    method VisitReturn(s: Stmt)
      requires Valid() && current.Some? && s.Return?
      modifies this
      ensures Visited(old(current).value) && scopes == old(scopes) && current.None?
      ensures Laid(old(Here()), s, old(current).value, |old(code)[old(current).value].items|, |old(code)|, code,
          current)
    {
      hide Laid, Wired, Unwind, Extends, View;
      var b := current.value;
      ghost var was, x := code, Here();
      AddStatement(b, Leave(s.value));
      EmitDeferredRuns(0);
      AddEdge(b, EXIT);
      current := None;
      ViewAll(LeavingTrace(x, s));
      assert [] + [EXIT] == [EXIT];
      assert was[b].items + [Leave(s.value)] + Unwind(scopes, 0) == was[b].items + LeavingTrace(x, s);
      assert code == was[b := code[b]];
      ExtendsAt(was, b, code[b]);
      JumpLaid(x, s, b, was, code, None);
    }

    // The loop body's scopes run their defers, then control jumps.
    method VisitJump(s: Stmt) returns (ok: bool)
      requires Valid() && current.Some? && (s.Break? || s.Continue?)
      modifies this
      ensures ok <==> old(brk).Some?
      ensures ok ==> Visited(old(current).value) && scopes == old(scopes) && current.None?
      ensures ok ==> Laid(old(Here()), Erase(s), old(current).value, |old(code)[old(current).value].items|, |old(code)|, code, current)
    {
      hide Laid, Wired, Unwind, Extends, View;
      var target := if s.Break? then brk else cont;
      if target.None? {
        return false;
      }
      var b, node := current.value, if s.Break? then BreakNode else ContinueNode;
      ghost var was, x := code, Here();
      EmitDeferredRuns(loopDepth);
      AddStatement(b, node);
      AddEdge(b, target.value);
      current := None;
      ViewAll(LeavingTrace(x, s));
      assert [] + [target.value] == [target.value];
      assert was[b].items + Unwind(scopes, loopDepth) + [node] == was[b].items + LeavingTrace(x, s);
      assert code == was[b := code[b]];
      ExtendsAt(was, b, code[b]);
      JumpLaid(x, s, b, was, code, None);
      ok := true;
    }

    method VisitIf(s: Stmt) returns (ok: bool)
      requires Valid() && (plain ==> Plain(s)) && current.Some? && s.If?
      modifies this
      ensures ok <==> Placed(s, old(brk).Some?, true)
      ensures ok ==> Visited(old(current).value) && scopes == old(scopes) && (current.Some? <==> Completes(s))
      ensures ok ==> Laid(old(Here()), Erase(s), old(current).value, |old(code)[old(current).value].items|, |old(code)|, code, current)
      decreases s, 1
    {
      hide Laid, LaidArm, Wired, Extends, IfSoFar, PlacedAll, CompletesAll, PlainAll, Erase;
      var cond: nat := current.value;
      ghost var b, at, n, was, x := cond, |code[cond].items|, |code|, code, Here();
      var merge := CreateBlock();
      var allTerminate := true;
      ghost var es := Erase(s);
      ErasedIf(s);
      IfSoFarBegins(x, es, b, n, code, merge);
      ExtendsMore(was, b);
      for i := 0 to s.Count()
        invariant Ready() && brk == old(brk) && cont == old(cont) && loopDepth == old(loopDepth) && scopes == old(scopes)
        invariant Extends(was, b, code) && merge == n < |code| && code[merge] == Node([], [])
        invariant cond < |code| && cond != EXIT && code[cond].succs == []
        invariant i == 0 ==> cond == b
        invariant 0 < i ==> n <= cond && code[cond] == Node([], []) && (cond == merge <==> i == s.Count() && !s.hasElse)
        invariant plain ==> PlainFrom(s, i)
        invariant PlacedFrom(s, 0, brk.Some?, true) <==> PlacedFrom(s, i, brk.Some?, true)
        invariant CompletesFrom(s, 0) <==> !allTerminate || CompletesFrom(s, i)
        invariant IfSoFar(x, es, i, b, at, n, code, cond, merge, allTerminate)
      {
        var falls;
        ok, falls, cond := VisitBranch(s, i, cond, merge, allTerminate, es, x, b, at, n, was);
        if !ok {
          return;
        }
        allTerminate := allTerminate && !falls;
      }
      ghost var start := code;
      ok := VisitLast(s, cond, merge, allTerminate, es, x, b, at, n);
      if ok {
        ExtendsFurther(was, b, start, cond, code);
      }
    }

    // One branch: its test, its body, and where a false test goes.
    method VisitBranch(s: Stmt, i: nat, cond: nat, merge: nat, allTerminate: bool, ghost es: Stmt, ghost x: Context,
        ghost b: nat, ghost at: nat, ghost n: nat, ghost was: Code) returns (ok: bool, falls: bool, next: nat)
      requires Ready() && s.If? && i < s.Count() && (plain ==> PlainFrom(s, i)) && Here() == x
      requires EXIT < |was| == n == merge < |code| && code[merge] == Node([], [])
      requires cond < |code| && cond != EXIT && cond != merge && code[cond].succs == [] && (cond == b || n <= cond)
      requires es.If? && es.Count() == s.Count() && es.Nth(i) == EraseBranch(s.Nth(i))
      requires Extends(was, b, code) && IfSoFar(x, es, i, b, at, n, code, cond, merge, allTerminate)
      modifies this
      ensures ok <==> PlacedAll(s.Nth(i).body, old(brk).Some?, true)
      ensures ok ==> Ready() && brk == old(brk) && cont == old(cont) && loopDepth == old(loopDepth) && scopes == old(scopes)
      ensures ok ==> Extends(was, b, code) && merge < |code| && code[merge] == Node([], [])
      ensures ok ==> n <= next < |code| && code[next] == Node([], []) && (next == merge <==> i + 1 == s.Count() && !s.hasElse)
      ensures ok ==> (falls <==> CompletesAll(s.Nth(i).body))
      ensures ok ==> IfSoFar(x, es, i + 1, b, at, n, code, next, merge, allTerminate && !falls)
      decreases s, 0
    {
      hide Laid, LaidArm, Wired, Extends, IfSoFar, PlacedAll, CompletesAll;
      ghost var start := code;
      var yes;
      yes, next := OpenBranch(s, i, cond, merge);
      ghost var mid := code;
      ok, falls := VisitArm(s.Nth(i).body, yes, merge);
      if ok {
        IfSoFarStep(x, es, i, b, at, n, start, cond, merge, allTerminate, mid, yes, next, code, falls);
        BranchExtends(was, b, start, cond, mid, yes, code, {merge, next});
      }
    }

    // The else body, if there is one. Control goes on at the merge block
    // unless no branch gets there.
    method VisitLast(s: Stmt, cond: nat, merge: nat, allTerminate: bool, ghost es: Stmt, ghost x: Context,
        ghost b: nat, ghost at: nat, ghost n: nat) returns (ok: bool)
      requires Ready() && s.If? && (plain && s.hasElse ==> PlainAll(s.els)) && Here() == x
      requires EXIT < n == merge < |code| && code[merge] == Node([], [])
      requires n <= cond < |code| && code[cond] == Node([], []) && (cond == merge <==> !s.hasElse)
      requires es.If? && es.Count() == s.Count() && es.hasElse == s.hasElse && es.els == EraseAll(s.els)
      requires IfSoFar(x, es, s.Count(), b, at, n, code, cond, merge, allTerminate)
      modifies this
      ensures ok <==> (s.hasElse ==> PlacedAll(s.els, old(brk).Some?, true))
      ensures ok ==> Valid() && brk == old(brk) && cont == old(cont) && loopDepth == old(loopDepth) && scopes == old(scopes)
      ensures ok ==> Extends(old(code), cond, code) && (current.Some? ==> current.value == merge)
      ensures ok ==> (current.Some? <==> !s.hasElse || !allTerminate || CompletesAll(s.els))
      ensures ok ==> Laid(x, es, b, at, n, code, current)
      decreases s, 0
    {
      hide Laid, LaidArm, Wired, Extends, IfSoFar, PlacedAll, CompletesAll, EraseAll;
      ghost var start := code;
      if s.hasElse {
        var falls;
        ok, falls := VisitArm(s.els, cond, merge);
        if !ok {
          return;
        }
        ExtendsOthers(start, cond, code, {merge});
        IfLaidElse(x, es, b, at, n, start, cond, merge, allTerminate, code, falls);
        current := if allTerminate && !falls then None else Some(merge);
      } else {
        ExtendsSame(code, cond);
        IfLaid(x, es, b, at, n, code, merge, allTerminate);
        ok := true;
        current := Some(merge);
      }
    }

    // The test of branch `i`, its body's block, and where a false test goes.
    method OpenBranch(s: Stmt, i: nat, cond: nat, merge: nat) returns (yes: nat, next: nat)
      requires s.If? && i < s.Count() && Ready() && (plain ==> !s.Nth(i).c.always)
      requires cond < |code| && cond != merge && code[cond].succs == [] && 0 < merge < |code|
      modifies this`code, this`preds
      ensures Wired() && yes == |old(code)| < |code|
      ensures if i + 1 < s.Count() || s.hasElse then next == yes + 1 && |code| == next + 1 && code[next] == Node([], []) else next == merge && |code| == yes + 1
      ensures forall k: nat :: k < yes && k != cond ==> code[k] == old(code)[k]
      ensures code[cond] == Node(old(code)[cond].items + [Test(s.Nth(i).c)], [yes, next])
      ensures code[yes] == Node([], [])
    {
      hide Wired;
      yes := CreateBlock();
      next := merge;
      if i + 1 < s.Count() || s.hasElse {
        next := CreateBlock();
      }
      AddStatement(cond, Test(s.Nth(i).c));
      AddEdge(cond, yes);
      AddEdge(cond, next);
      assert [] + [yes] == [yes] && [yes] + [next] == [yes, next];
    }

    // A branch's block: fill it, then go to the merge block.
    method VisitArm(stmts: seq<Stmt>, arm: nat, merge: nat) returns (ok: bool, falls: bool)
      requires Ready() && (plain ==> PlainAll(stmts)) && EXIT < arm < |code| && code[arm] == Node([], []) && 0 < merge < |code| && arm != merge
      modifies this
      ensures ok <==> PlacedAll(stmts, old(brk).Some?, true)
      ensures ok ==> Ready() && brk == old(brk) && cont == old(cont) && loopDepth == old(loopDepth) && scopes == old(scopes)
      ensures ok ==> Extends(old(code), arm, code) && (falls <==> CompletesAll(stmts))
      ensures ok ==> LaidArm(old(Here()), EraseAll(stmts), arm, |old(code)|, code, merge, falls)
      decreases stmts, 2
    {
      hide LaidSeq, LaidArm, Wired, Extends;
      ghost var was, x := code, Here();
      current := Some(arm);
      falls := false;
      ok := VisitBlock(stmts);
      if ok {
        falls := current.Some?;
        ghost var late, cur := code, current;
        ExtendsLonger(was, arm, late);
        if current.Some? {
          AddEdge(current.value, merge);
          assert [] + [merge] == [merge];
          ExtendsAt(late, cur.value, code[cur.value]);
          ExtendsFurther(was, arm, late, cur.value, code);
        }
        ArmLaid(x, EraseAll(stmts), arm, |was|, late, cur, merge, code);
      }
    }

    // The blocks of a while loop, entered at its condition.
    method OpenWhile(c: Cond) returns (cond: nat, body: nat, after: nat)
      requires Valid() && current.Some?
      modifies this`code, this`preds
      ensures Wired() && |code| == |old(code)| + 3
      ensures cond == |old(code)| && body == cond + 1 && after == cond + 2
      ensures forall k: nat :: k < |old(code)| && k != current.value ==> code[k] == old(code)[k]
      ensures code[current.value] == Node(old(code)[current.value].items, [cond])
      ensures code[cond] == Node([Test(c)], if c.always then [body] else [body, after])
      ensures code[body] == Node([], []) && code[after] == Node([], [])
    {
      hide Wired;
      cond := CreateBlock();
      body := CreateBlock();
      after := CreateBlock();
      AddEdge(current.value, cond);
      TestLoop(c, cond, body, after);
    }

    // The literal `true` gets no edge out of the loop.
    method TestLoop(c: Cond, cond: nat, body: nat, after: nat)
      requires Wired() && |code| > EXIT
      requires cond < |code| && 0 < body < |code| && 0 < after < |code| && code[cond] == Node([], [])
      modifies this`code, this`preds
      ensures Wired()
      ensures code == old(code)[cond := Node([Test(c)], if c.always then [body] else [body, after])]
    {
      hide Wired;
      AddStatement(cond, Test(c));
      AddEdge(cond, body);
      if !c.always {
        AddEdge(cond, after);
      }
      assert code[cond].items == [Test(c)];
      assert code[cond].succs == if c.always then [body] else [body, after];
      assert code == old(code)[cond := code[cond]];
    }

    // The blocks of a do-while loop, entered at its body.
    method OpenDoWhile() returns (body: nat, cond: nat, after: nat)
      requires Valid() && current.Some?
      modifies this`code, this`preds
      ensures Wired() && |code| == |old(code)| + 3
      ensures body == |old(code)| && cond == body + 1 && after == body + 2
      ensures forall k: nat :: k < |old(code)| && k != current.value ==> code[k] == old(code)[k]
      ensures code[current.value] == Node(old(code)[current.value].items, [body])
      ensures code[cond] == code[body] == code[after] == Node([], [])
    {
      hide Wired;
      body := CreateBlock();
      cond := CreateBlock();
      after := CreateBlock();
      AddEdge(current.value, body);
    }

    method VisitWhile(s: Stmt) returns (ok: bool)
      requires Valid() && (plain ==> Plain(s)) && current.Some? && s.While?
      modifies this
      ensures ok <==> Placed(s, old(brk).Some?, true)
      ensures ok ==> Visited(old(current).value) && scopes == old(scopes) && current.Some?
      ensures ok ==> Laid(old(Here()), Erase(s), old(current).value, |old(code)[old(current).value].items|, |old(code)|, code, current)
      decreases s, 0
    {
      hide Laid, LaidArm, Wired, Extends;
      var before := current.value;
      ghost var was, x := code, Here();
      var cond, body, after := OpenWhile(s.c);
      ghost var head := code;
      var falls;
      ok, falls := VisitLoopBody(s.body, body, cond, after);
      if !ok {
        return;
      }
      ghost var late := code;
      ExtendsOthers(head, body, late, {before, cond, after});
      LoopLaid(x, Erase(s), before, |was[before].items|, |was|, cond, body, after, late, falls, code);
      LoopExtends(was, before, head, body, late, code);
      current := Some(after);
    }

    method VisitDoWhile(s: Stmt) returns (ok: bool)
      requires Valid() && (plain ==> Plain(s)) && current.Some? && s.DoWhile?
      modifies this
      ensures ok <==> Placed(s, old(brk).Some?, true)
      ensures ok ==> Visited(old(current).value) && scopes == old(scopes) && current.Some?
      ensures ok ==> Laid(old(Here()), Erase(s), old(current).value, |old(code)[old(current).value].items|, |old(code)|, code, current)
      decreases s, 0
    {
      hide Laid, LaidArm, Wired, Extends;
      var before := current.value;
      ghost var was, x := code, Here();
      var body, cond, after := OpenDoWhile();
      ghost var head := code;
      var falls;
      ok, falls := VisitLoopBody(s.body, body, cond, after);
      if !ok {
        return;
      }
      ghost var late := code;
      ExtendsOthers(head, body, late, {before, cond, after});
      TestLoop(s.c, cond, body, after);
      LoopLaid(x, Erase(s), before, |was[before].items|, |was|, cond, body, after, late, falls, code);
      LoopExtends(was, before, head, body, late, code);
      current := Some(after);
    }

    // The body, with its own jump targets and defer depth, and the jump back.
    method VisitLoopBody(stmts: seq<Stmt>, body: nat, cond: nat, after: nat) returns (ok: bool, falls: bool)
      requires Ready() && (plain ==> PlainAll(stmts))
      requires EXIT < body < |code| && code[body] == Node([], []) && 0 < cond < |code| && 0 < after < |code| && body != cond
      modifies this
      ensures ok <==> PlacedAll(stmts, true, true)
      ensures ok ==> Ready() && brk == old(brk) && cont == old(cont) && loopDepth == old(loopDepth) && scopes == old(scopes)
      ensures ok ==> Extends(old(code), body, code)
      ensures ok ==> LaidArm(LoopBody(old(Here()), after, cond), EraseAll(stmts), body, |old(code)|, code, cond, falls)
      decreases stmts, 3
    {
      hide LaidArm, Wired, Extends;
      var savedBreak, savedContinue, savedDepth := brk, cont, loopDepth;
      brk, cont := Some(after), Some(cond);
      loopDepth := |scopes|;
      ghost var was := code;
      ok, falls := VisitArm(stmts, body, cond);
      if ok {
        ExtendsLonger(was, body, code);
        brk, cont, loopDepth := savedBreak, savedContinue, savedDepth;
      }
    }
  }

  // ---- The finished graph ----

  // buildCFG: it refuses a statement after one that leaves no way on and a jump
  // outside a loop, and nothing else. On a refusal, `path` and `k` lead there.
  method BuildCfg(body: seq<Stmt>) returns (ok: bool, code: Code, preds: seq<seq<nat>>, ghost path: Path, ghost k: nat)
    ensures ok <==> PlacedAll(body, false, true)
    ensures !ok ==> Offender(body, path, k, false, true)
    ensures ok ==> forall p, j: nat :: !Offender(body, p, j, false, true)
    ensures ok || exists p, j: nat :: StopAt(body, p, j)
    ensures ok ==> Linked(code, preds) && Performs(code, false, EXIT, EraseAll(body))
    ensures ok && PlainAll(body) ==> Forks(code)
    ensures ok ==> |preds| > ENTRY && preds[ENTRY] == []
  {
    hide Linked, Forks, LaidSeq, SeqOk, PlacedAll, PlainAll, Offender, StopAt;
    PlacedIsNoOffender(body, false, true);
    StraightIsPlaced(body, false, true);
    path, k := [], 0;
    var builder := new CfgBuilder(PlainAll(body));
    ghost var was := builder.code;
    ok := builder.VisitBlock(body);
    code, preds := builder.code, builder.preds;
    if !ok {
      path, k := FindOffender(body, false, true);
      return;
    }
    ghost var late, cur := builder.code, builder.current;
    if builder.current.Some? {
      assert [] + [EXIT] == [EXIT];
      builder.AddEdge(builder.current.value, EXIT);
      code, preds := builder.code, builder.preds;
    }
    ExtendsOthers(was, ENTRY, late, {EXIT});
    TopLaid(Whole(false, EXIT), EraseAll(body), ENTRY, |was|, late, cur, EXIT, code);
    EntryHasNoPredecessor(code, preds);
  }

  lemma EntryHasNoPredecessor(code: Code, preds: seq<seq<nat>>)
    requires Linked(code, preds) && |code| > EXIT
    ensures |preds| > ENTRY && preds[ENTRY] == []
  {
    assert preds[ENTRY] != [] ==> preds[ENTRY][0] in preds[ENTRY];
    forall p: nat
      ensures p !in preds[ENTRY]
    {
      if p < |code| {
        assert ENTRY !in code[p].succs;
      }
    }
  }
}
