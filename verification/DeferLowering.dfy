// Code generation for structured statements: each exit edge carries the
// deferred statements of the scopes it leaves, inlined.
module DeferLowering {
  import opened Options
  import opened Graph
  import opened Structured
  import opened BlockMachine
  import opened Layout
  import opened Placement
  import EarlyReturns
  import GraphRuns
  import DeferOrder

  const ENTRY: nat := 0
  const LEAVE: nat := 1 // where every `ret` goes

  class Lowering {
    var code: Code
    var insert: nat
    var frames: seq<seq<nat>>            // PendingDeferFrames
    var loopBlocks: seq<(nat, nat)>      // continue and break targets
    var loopDepths: seq<nat>             // LoopDeferDepth

    ghost predicate Valid()
      reads this
    {
      && LEAVE < |code| && code[LEAVE] == Node([], [])
      && insert < |code| && insert != LEAVE && code[insert].succs == []
      && |loopBlocks| == |loopDepths|
      && (forall i: nat :: i < |loopDepths| ==> loopDepths[i] <= |frames|)
    }

    ghost function Here(): Context
      reads this
      requires |loopBlocks| == |loopDepths|
    {
      if loopBlocks == [] then Context(true, frames, 0, None, None, LEAVE)
      else
        var top := |loopBlocks| - 1;
        Context(true, frames, loopDepths[top], Some(loopBlocks[top].1), Some(loopBlocks[top].0), LEAVE)
    }

    constructor ()
      ensures Valid() && code == [Node([], []), Node([], [])] && insert == ENTRY
      ensures frames == [] && loopBlocks == [] && loopDepths == []
    {
      code := [Node([], []), Node([], [])];
      insert := ENTRY;
      frames, loopBlocks, loopDepths := [], [], [];
    }

    // Everything but the code and the insert point is as it was.
    twostate predicate Kept(start: nat)
      reads this
    {
      && Valid() && loopBlocks == old(loopBlocks) && loopDepths == old(loopDepths)
      && Extends(old(code), start, code)
      && (insert == start || |old(code)| <= insert)
    }

    method CreateBlock() returns (b: nat)
      modifies this`code
      ensures b == |old(code)| && code == old(code) + [Node([], [])]
    {
      b := |code|;
      code := code + [Node([], [])];
    }

    method Emit(e: Event)
      requires insert < |code|
      modifies this`code
      ensures code == old(code)[insert := Node(old(code[insert].items) + [e], old(code[insert].succs))]
    {
      code := code[insert := Node(code[insert].items + [e], code[insert].succs)];
    }

    // The terminator of the insert block.
    method Jump(targets: seq<nat>)
      requires insert < |code| && code[insert].succs == []
      modifies this`code
      ensures code == old(code)[insert := Node(old(code[insert].items), targets)]
    {
      code := code[insert := Node(code[insert].items, targets)];
    }

    // FlushPendingDefers: frames from the top down to `fromDepth`, each last
    // first. It closes none of them.
    method FlushPendingDefers(fromDepth: nat)
      requires insert < |code|
      modifies this`code
      ensures code == old(code)[insert := Node(old(code[insert].items) + Unwind(frames, fromDepth),
          old(code[insert].succs))]
    {
      ghost var was := code;
      var i: nat := |frames|;
      assert frames[..i] == frames;
      while i > fromDepth
        invariant i <= |frames| && |code| == |was|
        invariant code == was[insert := Node(code[insert].items, was[insert].succs)]
        invariant code[insert].items + Unwind(frames[..i], fromDepth) == was[insert].items + Unwind(frames, fromDepth)
      {
        i := i - 1;
        assert frames[..i + 1][..i] == frames[..i];
        ghost var items := code[insert].items;
        FlushFrame(frames[i]);
        assert items + (Runs(frames[i]) + Unwind(frames[..i],
            fromDepth)) == code[insert].items + Unwind(frames[..i], fromDepth);
      }
      assert code[insert].items + [] == code[insert].items;
    }

    method FlushFrame(frame: seq<nat>)
      requires insert < |code|
      modifies this`code
      ensures code == old(code)[insert := Node(old(code[insert].items) + Runs(frame), old(code[insert].succs))]
    {
      ghost var was := code;
      var j: nat := |frame|;
      assert frame[..j] == frame;
      while j > 0
        invariant j <= |frame| && |code| == |was|
        invariant code == was[insert := Node(code[insert].items, was[insert].succs)]
        invariant code[insert].items + Runs(frame[..j]) == was[insert].items + Runs(frame)
      {
        j := j - 1;
        assert frame[..j + 1][..j] == frame[..j];
        Emit(Run(frame[j]));
      }
      assert code[insert].items + [] == code[insert].items;
    }

    method Codegen(s: Stmt) returns (ok: bool)
      requires Valid() && (s.Defer? ==> frames != [])
      modifies this
      ensures ok <==> Placed(s, old(loopBlocks) != [], false)
      ensures ok ==> Kept(old(insert)) && frames == Register(old(frames), s)
      ensures ok && s.Defer? ==> insert == old(insert) && code == old(code)
      ensures ok ==> Laid(old(Here()), s, old(insert), |old(code[insert].items)|, |old(code)|, code, Some(insert))
      decreases s, 3
    {
      hide Laid, LaidSeq, Extends, View;
      ghost var b, was, x := insert, code, Here();
      ExtendsSame(was, b);
      match s
      case Block(body) =>
        ok := Block(body);
        if ok {
          BlockLaid(x, s, b, |was[b].items|, |was|, code, Some(insert));
        }
      case If(_, _, _, _) => ok := If(s);
      case While(_, _) => ok := While(s);
      case DoWhile(_, _) => ok := DoWhile(s);
      case Return(_) =>
        Return(s);
        ok := true;
      case Try(_) =>
        EarlyReturn(s);
        ok := true;
      case Break => ok := LoopExit(s);
      case Continue => ok := LoopExit(s);
      case Simple(a) =>
        Emit(Act(a));
        ViewOne(true, Act(a));
        ExtendsAt(was, b, code[b]);
        LaidSimple(x, s, Act(a), b, was, code);
        ok := true;
      case Defer(a) =>
        frames := Register(frames, s);
        ViewOne(true, Registered(a));
        assert was[b].items + [] == was[b].items;
        LaidSimple(x, s, Registered(a), b, was, code);
        ok := true;
    }

    method Block(body: seq<Stmt>) returns (ok: bool)
      requires Valid()
      modifies this
      ensures ok <==> PlacedAll(body, old(loopBlocks) != [], false)
      ensures ok ==> Kept(old(insert)) && frames == old(frames)
      ensures ok ==> LaidSeq(old(Here()), body, old(insert), |old(code[insert].items)|, |old(code)|, code, Some(insert))
      decreases body, 1
    {
      hide SeqSoFar, Laid, LaidSeq, Keeps, Runs, Extends, View, PlacedAll, CompletesAll, Placed, Completes;
      ghost var b, at, n, x := insert, |code[insert].items|, |code|, Here();
      SeqSoFarBegins(x, body, b, n, code);
      ExtendsSame(code, b);
      frames := frames + [[]];
      for i := 0 to |body|
        invariant Kept(b) && n <= |code|
        invariant |frames| == |old(frames)| + 1 && frames[..|frames| - 1] == old(frames)
        invariant PlacedAll(body, loopBlocks != [], false) <==> PlacedAll(body[i..], loopBlocks != [], false)
        invariant SeqSoFar(x, body, i, frames[|frames| - 1], b, at, n, code, Some(insert))
      {
        SuffixStep(body, i, loopBlocks != [], false);
        ghost var was, cur := code, insert;
        ok := Next(body, i, x, b, at, n);
        if !ok {
          return;
        }
        ExtendsFurther(old(code), b, was, cur, code);
      }
      SuffixEnds(body, loopBlocks != [], false);
      ghost var was := code;
      CloseBlock(x, body, b, at, n);
      ExtendsFurther(old(code), b, was, insert, code);
      ok := true;
    }

    method Next(body: seq<Stmt>, i: nat, ghost x: Context, ghost b: nat, ghost at: nat, ghost n: nat) returns (ok: bool)
      requires Valid() && i < |body| && n <= |code| && x.depth <= |x.frames|
      requires insert == b || n <= insert
      requires frames != [] && Here() == Inside(x, frames[|frames| - 1])
      requires SeqSoFar(x, body, i, frames[|frames| - 1], b, at, n, code, Some(insert))
      modifies this
      ensures ok <==> Placed(body[i], old(loopBlocks) != [], false)
      ensures ok ==> Kept(old(insert)) && |frames| == |old(frames)| && frames[..|frames| - 1] == old(frames)[..|frames| - 1]
      ensures ok ==> n <= |code| && SeqSoFar(x, body, i + 1, frames[|frames| - 1], b, at, n, code, Some(insert))
      decreases body, 0
    {
      hide SeqSoFar, Laid, Extends, View, Placed, Completes;
      ghost var was, cur, reg := code, insert, frames[|frames| - 1];
      ok := Codegen(body[i]);
      if ok {
        ExtendsLonger(was, cur, code);
        if body[i].Defer? {
          ViewOne(true, Registered(body[i].a));
          assert was[cur].items + [] == was[cur].items;
        }
        SeqSoFarStep(x, body, i, reg, b, at, n, was, cur, code, Some(insert));
      }
    }

    // At its end a block flushes its own frame, and only that, and drops it.
    method CloseBlock(ghost x: Context, ghost body: seq<Stmt>, ghost b: nat, ghost at: nat, ghost n: nat)
      requires Valid() && frames != [] && (forall i: nat :: i < |loopDepths| ==> loopDepths[i] < |frames|)
      requires insert == b || n <= insert
      requires SeqSoFar(x, body, |body|, frames[|frames| - 1], b, at, n, code, Some(insert))
      modifies this`code, this`frames
      ensures Valid() && frames == old(frames)[..|old(frames)| - 1]
      ensures Extends(old(code), insert, code)
      ensures LaidSeq(x, body, b, at, n, code, Some(insert))
    {
      hide SeqSoFar, LaidSeq, Runs;
      ghost var was := code;
      FlushPendingDefers(|frames| - 1);
      UnwindInnermost(frames);
      SeqSoFarEnds(x, body, frames[|frames| - 1], b, at, n, was, code, Some(insert));
      frames := frames[..|frames| - 1];
    }

    // The value first, then every open frame, then out of the function. What
    // follows goes to a block nothing jumps to.
    method Return(s: Stmt)
      requires Valid() && s.Return?
      modifies this
      ensures Kept(old(insert)) && frames == old(frames)
      ensures Laid(old(Here()), s, old(insert), |old(code[insert].items)|, |old(code)|, code, Some(insert))
    {
      hide Laid, Unwind, View, Extends;
      ghost var b, was, x := insert, code, Here();
      if s.value.Some? {
        Emit(Leave(s.value));
      }
      FlushPendingDefers(0);
      ViewJoin(true, [Leave(s.value)], Unwind(x.frames, 0));
      ViewOne(true, Leave(s.value));
      ViewUnwind(true, x.frames, 0);
      assert code[b].items == was[b].items + View(true, LeavingTrace(x, s));
      LeaveBlock(x, s, was, LEAVE);
    }

    // `try`: the failure block runs every open frame and returns; code goes on
    // in the success block.
    method EarlyReturn(s: Stmt)
      requires Valid() && s.Try?
      modifies this
      ensures Kept(old(insert)) && frames == old(frames)
      ensures Laid(old(Here()), s, old(insert), |old(code[insert].items)|, |old(code)|, code, Some(insert))
    {
      hide Laid, Unwind;
      ghost var b, was, x := insert, code, Here();
      Emit(Act(s.a));
      var success := CreateBlock();
      var failure := CreateBlock();
      Jump([success, failure]);
      insert := failure;
      FlushPendingDefers(0);
      assert [] + Unwind(frames, 0) == Unwind(frames, 0);
      Jump([LEAVE]);
      insert := success;
      TryLaid(x, s, b, was, code, success, failure);
    }

    method LoopExit(s: Stmt) returns (ok: bool)
      requires Valid() && (s.Break? || s.Continue?)
      modifies this
      ensures ok <==> old(loopBlocks) != []
      ensures ok ==> Kept(old(insert)) && frames == old(frames)
      ensures ok ==> Laid(old(Here()), s, old(insert), |old(code[insert].items)|, |old(code)|, code, Some(insert))
    {
      hide Laid, Unwind, View, Extends;
      if loopBlocks == [] {
        return false;
      }
      ghost var b, was, x := insert, code, Here();
      var top := |loopBlocks| - 1;
      FlushPendingDefers(loopDepths[top]);
      ghost var node := if s.Break? then BreakNode else ContinueNode;
      ViewJoin(true, Unwind(x.frames, x.depth), [node]);
      ViewOne(true, node);
      ViewUnwind(true, x.frames, x.depth);
      assert Unwind(x.frames, x.depth) + [] == Unwind(x.frames, x.depth);
      assert code[b].items == was[b].items + View(true, LeavingTrace(x, s));
      LeaveBlock(x, s, was, if s.Break? then loopBlocks[top].1 else loopBlocks[top].0);
      ok := true;
    }

    // The jump itself, and the dead block code generation goes on in.
    method LeaveBlock(ghost x: Context, ghost s: Stmt, ghost was: Code, target: nat)
      requires Valid() && |was| == |code| && insert < |was| && code == was[insert := Node(code[insert].items, [])]
      requires s.Return? || s.Break? || s.Continue?
      requires x.actions && LeavingTarget(x, s) == Some(target)
      requires code[insert].items == was[insert].items + View(true, LeavingTrace(x, s))
      modifies this`code, this`insert
      ensures Valid() && |was| <= insert && Extends(was, old(insert), code)
      ensures Laid(x, s, old(insert), |was[old(insert)].items|, |was|, code, Some(insert))
    {
      hide Laid, Unwind, View, Extends;
      ghost var b := insert;
      Jump([target]);
      ghost var jumped := code;
      var dead := CreateBlock();
      insert := dead;
      assert jumped == was[b := jumped[b]];
      ExtendsAt(was, b, jumped[b]);
      ExtendsMore(jumped, b);
      ExtendsFurther(was, b, jumped, b, code);
      JumpLaid(x, s, b, was, code, Some(dead));
    }

    method If(s: Stmt) returns (ok: bool)
      requires Valid() && s.If?
      modifies this
      ensures ok <==> Placed(s, old(loopBlocks) != [], false)
      ensures ok ==> Kept(old(insert)) && frames == old(frames)
      ensures ok ==> Laid(old(Here()), s, old(insert), |old(code[insert].items)|, |old(code)|, code, Some(insert))
      decreases s, 1
    {
      hide Laid, LaidArm, Extends, IfSoFar, PlacedAll;
      ghost var b, at, n, was, x := insert, |code[insert].items|, |code|, code, Here();
      var merge := CreateBlock();
      IfSoFarBegins(x, s, b, n, code, merge);
      ExtendsMore(was, b);
      for i := 0 to s.Count()
        invariant Valid() && loopBlocks == old(loopBlocks) && loopDepths == old(loopDepths) && frames == old(frames)
        invariant Extends(was, b, code) && merge == n < |code| && code[merge] == Node([], [])
        invariant if i == 0 then insert == b else n < insert && code[insert] == Node([], [])
        invariant PlacedFrom(s, 0, loopBlocks != [], false) <==> PlacedFrom(s, i, loopBlocks != [], false)
        invariant IfSoFar(x, s, i, b, at, n, code, insert, merge, false)
      {
        ok := Branch(s, i, merge, x, b, at, n, was);
        if !ok {
          return;
        }
      }
      ghost var start, cond := code, insert;
      ok := LastBranch(s, merge, x, b, at, n);
      if ok {
        ExtendsFurther(was, b, start, cond, code);
      }
    }

    // One branch: its test, its body, and the block a false test goes to.
    method Branch(s: Stmt, i: nat, merge: nat, ghost x: Context, ghost b: nat, ghost at: nat, ghost n: nat,
        ghost was: Code) returns (ok: bool)
      requires Valid() && s.If? && i < s.Count() && Here() == x
      requires LEAVE < |was| == n == merge < |code| && code[merge] == Node([], []) && insert != merge
      requires (insert == b || n < insert) && Extends(was, b, code)
      requires IfSoFar(x, s, i, b, at, n, code, insert, merge, false)
      modifies this
      ensures ok <==> PlacedAll(s.Nth(i).body, old(loopBlocks) != [], false)
      ensures ok ==> Valid() && loopBlocks == old(loopBlocks) && loopDepths == old(loopDepths) && frames == old(frames)
      ensures ok ==> Extends(was, b, code) && merge < |code| && code[merge] == Node([], [])
      ensures ok ==> n < insert && code[insert] == Node([], [])
      ensures ok ==> IfSoFar(x, s, i + 1, b, at, n, code, insert, merge, false)
      decreases s, 0
    {
      hide Laid, LaidArm, Extends, IfSoFar, PlacedAll;
      ghost var start, from := code, insert;
      var yes, next := OpenBranch(s.Nth(i).c);
      ghost var mid := code;
      ok := Arm(s.Nth(i).body, yes, merge);
      if ok {
        IfSoFarStep(x, s, i, b, at, n, start, from, merge, false, mid, yes, next, code, true);
        BranchExtends(was, b, start, from, mid, yes, code, {merge, next, LEAVE});
        insert := next;
      }
    }

    // The final else block: its body if there is one, and on to the merge block.
    method LastBranch(s: Stmt, merge: nat, ghost x: Context, ghost b: nat, ghost at: nat, ghost n: nat) returns (ok: bool)
      requires Valid() && s.If? && Here() == x
      requires LEAVE < n == merge < insert && code[merge] == code[insert] == Node([], [])
      requires IfSoFar(x, s, s.Count(), b, at, n, code, insert, merge, false)
      modifies this
      ensures ok <==> (s.hasElse ==> PlacedAll(s.els, old(loopBlocks) != [], false))
      ensures ok ==> Valid() && loopBlocks == old(loopBlocks) && loopDepths == old(loopDepths) && frames == old(frames)
      ensures ok ==> insert == merge && Extends(old(code), old(insert), code)
      ensures ok ==> Laid(x, s, b, at, n, code, Some(insert))
      decreases s, 0
    {
      hide Laid, LaidArm, Extends, IfSoFar, PlacedAll;
      ghost var start, cond := code, insert;
      if s.hasElse {
        ok := Arm(s.els, insert, merge);
        if !ok {
          return;
        }
        IfLaidElse(x, s, b, at, n, start, cond, merge, false, code, true);
      } else {
        Jump([merge]);
        ok := true;
        ExtendsAt(start, cond, code[cond]);
        IfLaidJump(x, s, b, at, n, start, cond, merge, code);
      }
      ExtendsOthers(start, cond, code, {merge, LEAVE});
      insert := merge;
    }

    // A branch's condition, and the blocks for its two outcomes.
    method OpenBranch(c: Cond) returns (yes: nat, next: nat)
      requires Valid()
      modifies this`code
      ensures yes == |old(code)| && next == yes + 1 && |code| == next + 1
      ensures forall k: nat :: k < yes && k != insert ==> code[k] == old(code)[k]
      ensures code[insert] == Node(old(code[insert].items) + [Test(c)], [yes, next])
      ensures code[yes] == code[next] == Node([], [])
    {
      Emit(Test(c));
      yes := CreateBlock();
      next := CreateBlock();
      Jump([yes, next]);
    }

    // Fill a branch's block and go to the merge block.
    method Arm(stmts: seq<Stmt>, arm: nat, merge: nat) returns (ok: bool)
      requires |loopBlocks| == |loopDepths| && (forall i: nat :: i < |loopDepths| ==> loopDepths[i] <= |frames|)
      requires LEAVE < arm < |code| && code[arm] == code[LEAVE] == Node([], []) && arm != merge && merge < |code|
      modifies this
      ensures ok <==> PlacedAll(stmts, old(loopBlocks) != [], false)
      ensures ok ==> loopBlocks == old(loopBlocks) && loopDepths == old(loopDepths) && frames == old(frames)
      ensures ok ==> Extends(old(code), arm, code) && |code| >= |old(code)|
      ensures ok ==> LaidArm(old(Here()), stmts, arm, |old(code)|, code, merge, true)
      decreases stmts, 2
    {
      hide LaidSeq, LaidArm, Extends;
      ghost var was, x := code, Here();
      insert := arm;
      ok := Block(stmts);
      if ok {
        ghost var late, cur := code, insert;
        ExtendsLonger(was, arm, late);
        Jump([merge]);
        ExtendsAt(late, cur, code[cur]);
        ExtendsFurther(was, arm, late, cur, code);
        ArmLaid(x, stmts, arm, |was|, late, Some(cur), merge, code);
      }
    }

    method While(s: Stmt) returns (ok: bool)
      requires Valid() && s.While?
      modifies this
      ensures ok <==> Placed(s, old(loopBlocks) != [], false)
      ensures ok ==> Kept(old(insert)) && frames == old(frames)
      ensures ok ==> Laid(old(Here()), s, old(insert), |old(code[insert].items)|, |old(code)|, code, Some(insert))
      decreases s, 0
    {
      hide Laid, LaidArm, Extends;
      ghost var b, was, x := insert, code, Here();
      var cond := CreateBlock();
      var body := CreateBlock();
      var after := CreateBlock();
      Jump([cond]);
      insert := cond;
      Emit(Test(s.c));
      Jump([body, after]);
      ghost var head := code;
      ok := LoopBody(s.body, body, cond, after);
      if !ok {
        return;
      }
      ExtendsOthers(head, body, code, {b, cond, after, LEAVE});
      assert head[cond].items == [Test(s.c)];
      LoopLaid(x, s, b, |was[b].items|, |was|, cond, body, after, code, true, code);
      LoopExtends(was, b, head, body, code, code);
      insert := after;
    }

    method DoWhile(s: Stmt) returns (ok: bool)
      requires Valid() && s.DoWhile?
      modifies this
      ensures ok <==> Placed(s, old(loopBlocks) != [], false)
      ensures ok ==> Kept(old(insert)) && frames == old(frames)
      ensures ok ==> Laid(old(Here()), s, old(insert), |old(code[insert].items)|, |old(code)|, code, Some(insert))
      decreases s, 0
    {
      hide Laid, LaidArm, Extends;
      ghost var b, was, x := insert, code, Here();
      var body := CreateBlock();
      var cond := CreateBlock();
      var after := CreateBlock();
      Jump([body]);
      ghost var head := code;
      ok := LoopBody(s.body, body, cond, after);
      if !ok {
        return;
      }
      ghost var late := code;
      ExtendsOthers(head, body, late, {b, cond, after, LEAVE});
      insert := cond;
      Emit(Test(s.c));
      Jump([body, after]);
      assert code[cond].items == [Test(s.c)];
      LoopLaid(x, s, b, |was[b].items|, |was|, cond, body, after, late, true, code);
      LoopExtends(was, b, head, body, late, code);
      insert := after;
    }

    // The body between pushing and popping the loop's targets and depth.
    method LoopBody(stmts: seq<Stmt>, body: nat, cond: nat, after: nat) returns (ok: bool)
      requires |loopBlocks| == |loopDepths| && (forall i: nat :: i < |loopDepths| ==> loopDepths[i] <= |frames|)
      requires LEAVE < body < |code| && code[body] == code[LEAVE] == Node([], []) && body != cond && cond < |code|
      modifies this
      ensures ok <==> PlacedAll(stmts, true, false)
      ensures ok ==> loopBlocks == old(loopBlocks) && loopDepths == old(loopDepths) && frames == old(frames)
      ensures ok ==> Extends(old(code), body, code)
      ensures ok ==> LaidArm(BlockMachine.LoopBody(old(Here()), after, cond), stmts, body, |old(code)|, code, cond, true)
      decreases stmts, 3
    {
      hide LaidArm, Extends;
      ghost var x := Here();
      loopBlocks := loopBlocks + [(cond, after)];
      loopDepths := loopDepths + [|frames|];
      assert Here() == BlockMachine.LoopBody(x, after, cond);
      ok := Arm(stmts, body, cond);
      if ok {
        loopBlocks := loopBlocks[..|loopBlocks| - 1];
        loopDepths := loopDepths[..|loopDepths| - 1];
      }
    }
  }

  // ---- The emitted function ----

  // A function body and its epilogue. Only a jump outside a loop is refused.
  method Lower(body: seq<Stmt>) returns (ok: bool, code: Code)
    ensures ok <==> forall path, k: nat :: !Offender(body, path, k, false, false)
    ensures ok ==> Performs(code, true, LEAVE, body)
  {
    hide LaidSeq, SeqOk, PlacedAll, Offender;
    PlacedIsNoOffender(body, false, false);
    var lowering := new Lowering();
    ghost var was := lowering.code;
    ok := lowering.Block(body);
    code := lowering.code;
    if !ok {
      return;
    }
    ghost var late, cur := lowering.code, lowering.insert;
    lowering.Jump([LEAVE]);
    code := lowering.code;
    ExtendsOthers(was, ENTRY, late, {LEAVE});
    TopLaid(Whole(true, LEAVE), body, ENTRY, |was|, late, Some(cur), LEAVE, code);
  }

  // The emitted code performs exactly the program's actions, deferred runs
  // included, on every sequence of decisions, and stops where the program does.
  lemma CodeKeepsActions(code: Code, body: seq<Stmt>, ch: seq<bool>, n: nat)
    requires Performs(code, true, LEAVE, body) && Steps(code, Config(ENTRY, 0, ch), n).Some?
    ensures var (t, d) := Steps(code, Config(ENTRY, 0, ch), n).value;
            var r := ExecSeq(body, [], ch, n + 1);
            && t <= View(true, r.trace)
            && (Next(code, d).None? ==> t == View(true, r.trace) && !r.outcome.OutOfFuel?)
  {
    StepsAreExecution(code, true, LEAVE, body, ch, n, n + 1);
  }

  // A complete run of the code runs every defer it passed, once, last first,
  // whether it falls off the end, returns or fails.
  lemma CodeRunsEveryDefer(code: Code, body: seq<Stmt>, ch: seq<bool>, fuel: nat)
    requires Performs(code, true, LEAVE, body)
    requires ExecSeq(body, [], ch, fuel).outcome in {Fall, Returned, Failed}
    ensures exists t, d :: Gets(code, Config(ENTRY, 0, ch), View(true, t), d) && d.b == LEAVE
              && t == ExecSeq(body, [], ch, fuel).trace && DeferOrder.Unstack(t, []) == Some([])
  {
    hide Performs, ExecSeq;
    var n := RunLength(code, true, LEAVE, body, ch, fuel);
    DeferOrder.BlocksNest(body, [], ch, fuel, []);
    var none: seq<nat> := [];
    assert none + none == none;
    var t := ExecSeq(body, [], ch, fuel).trace;
    var d := Steps(code, Config(ENTRY, 0, ch), n).value.1;
    assert Gets(code, Config(ENTRY, 0, ch), View(true, t), d);
  }

  // The code, on some decisions, runs to its end and its actions are `acts`.
  ghost predicate CodeEnds(code: Code, acts: seq<Event>) {
    exists ch, d :: Gets(code, Config(ENTRY, 0, ch), acts, d) && d.b == LEAVE
  }

  // Where the graph has a path, the code has a complete run with the path's
  // actions and the deferred statements listed on it.
  lemma PathsAreCodeRuns(cfg: Code, preds: seq<seq<nat>>, code: Code, body: seq<Stmt>, t: seq<Event>)
    requires GraphRuns.Built(cfg, preds, body) && Performs(code, true, LEAVE, body)
    requires GraphRuns.HasPath(cfg, t)
    ensures CodeEnds(code, View(true, t))
  {
    hide GraphRuns.Built, GraphRuns.HasPath, Performs, ExecSeq, View;
    GraphRuns.PathsAreRuns(cfg, preds, body, t);
    var ch, fuel: nat :| ExecSeq(body, [], ch, fuel).trace == t && ExecSeq(body, [], ch, fuel).outcome in {Fall, Returned};
    var n := RunLength(code, true, LEAVE, body, ch, fuel);
    var d := Steps(code, Config(ENTRY, 0, ch), n).value.1;
    assert Gets(code, Config(ENTRY, 0, ch), View(true, t), d);
  }

  // And every complete run of the code shows the actions of a path, or is that
  // of a `try` that fails before the end.
  lemma CodeRunsArePaths(cfg: Code, preds: seq<seq<nat>>, code: Code, body: seq<Stmt>, acts: seq<Event>)
    requires GraphRuns.Built(cfg, preds, body) && Performs(code, true, LEAVE, body) && CodeEnds(code, acts)
    ensures || (exists t :: GraphRuns.HasPath(cfg, t) && View(true, t) == acts)
            || (!EarlyReturns.TriesAtEndAll(body) && exists t :: GraphRuns.HasRun(body, t, {Failed}) && View(true, t) == acts)
  {
    hide GraphRuns.Built, GraphRuns.HasPath, ExecSeq, View, EarlyReturns.TriesAtEndAll, SeqOk;
    var ch, d :| Gets(code, Config(ENTRY, 0, ch), acts, d) && d.b == LEAVE;
    var n: nat :| Steps(code, Config(ENTRY, 0, ch), n) == Some((acts, d));
    var r := ExecSeq(body, [], ch, n + 1);
    StepsAreExecution(code, true, LEAVE, body, ch, n, n + 1);
    var m := RunLength(code, true, LEAVE, body, ch, n + 1);
    HaltsOnce(code, Config(ENTRY, 0, ch), n, m);
    assert View(true, r.trace) == acts;
    if r.outcome.Failed? && !EarlyReturns.TriesAtEndAll(body) {
      assert GraphRuns.HasRun(body, r.trace, {Failed});
    } else {
      GraphRuns.CompleteRunIsAPath(cfg, preds, body, ch, n + 1);
    }
  }
}
