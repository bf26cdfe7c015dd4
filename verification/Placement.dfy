// Why a body is refused: the statement that stands where none may, by its
// place in the tree.
module Placement {
  import opened Options
  import opened Structured

  // The blocks right below a statement, in source order.
  function Bodies(s: Stmt): seq<seq<Stmt>> {
    match s
    case Block(body) => [body]
    case If(_, _, hasElse, els) =>
      seq(s.Count(), i requires 0 <= i < s.Count() => s.Nth(i).body) + if hasElse then [els] else []
    case While(_, body) => [body]
    case DoWhile(body, _) => [body]
    case _ => []
  }

  // Down from a body: which statement, and which of its blocks.
  type Path = seq<(nat, nat)>

  function ListAt(body: seq<Stmt>, path: Path): Option<seq<Stmt>>
    decreases |path|
  {
    if path == [] then Some(body)
    else
      var (k, j) := path[0];
      if k < |body| && j < |Bodies(body[k])| then ListAt(Bodies(body[k])[j], path[1..]) else None
  }

  predicate LoopAbove(body: seq<Stmt>, path: Path)
    decreases |path|
  {
    if path == [] then false
    else
      var (k, j) := path[0];
      && k < |body| && j < |Bodies(body[k])|
      && (body[k].While? || body[k].DoWhile? || LoopAbove(Bodies(body[k])[j], path[1..]))
  }

  predicate Stops(s: Stmt) {
    s.Return? || s.Break? || s.Continue?
  }

  // Nothing can follow: a return, break or continue, a block that holds such
  // a statement, or an if with an else all of whose branches do.
  predicate NoWayOn(s: Stmt)
    decreases s, 1
  {
    match s
    case Return(_) => true
    case Break => true
    case Continue => true
    case Block(body) => HoldsStop(body)
    case If(_, _, hasElse, els) =>
      hasElse && HoldsStop(els) && forall i: nat :: i < s.Count() ==> HoldsStop(s.Nth(i).body)
    case _ => false
  }

  predicate HoldsStop(stmts: seq<Stmt>)
    decreases stmts, 0
  {
    exists k: nat :: k < |stmts| && NoWayOn(stmts[k])
  }

  // Statement `k` of a block in the tree is a break or continue with no loop
  // above it or, with `strict`, follows one that leaves no way on.
  predicate Offender(body: seq<Stmt>, path: Path, k: nat, inLoop: bool, strict: bool) {
    ListAt(body, path).Some? && k < |ListAt(body, path).value| &&
    var list := ListAt(body, path).value;
    || ((list[k].Break? || list[k].Continue?) && !inLoop && !LoopAbove(body, path))
    || (strict && k > 0 && NoWayOn(list[k - 1]))
  }

  predicate StopAt(body: seq<Stmt>, path: Path, k: nat) {
    ListAt(body, path).Some? && k < |ListAt(body, path).value| && Stops(ListAt(body, path).value[k])
  }

  // ---- Completing is having a way on ----

  lemma {:induction false} CompletesIsWayOn(s: Stmt)
    ensures Completes(s) <==> !NoWayOn(s)
    decreases s, 1
  {
    match s
    case Block(body) => AllCompleteIsWayOn(body);
    case If(_, _, _, els) =>
      AllCompleteIsWayOn(els);
      BranchesAreWayOn(s, 0);
    case _ =>
  }

  lemma {:induction false} AllCompleteIsWayOn(stmts: seq<Stmt>)
    ensures CompletesAll(stmts) <==> !HoldsStop(stmts)
    decreases stmts, 0
  {
    if stmts != [] {
      CompletesIsWayOn(stmts[0]);
      AllCompleteIsWayOn(stmts[1..]);
      if k: nat :| k < |stmts| && NoWayOn(stmts[k]) && k > 0 {
        assert stmts[1..][k - 1] == stmts[k];
      }
      if k: nat :| k < |stmts[1..]| && NoWayOn(stmts[1..][k]) {
        assert stmts[k + 1] == stmts[1..][k];
      }
    }
  }

  lemma {:induction false} BranchesAreWayOn(s: Stmt, i: nat)
    requires s.If? && i <= s.Count()
    ensures CompletesFrom(s, i) <==> exists j: nat :: i <= j < s.Count() && !HoldsStop(s.Nth(j).body)
    decreases s, 0, s.Count() - i
  {
    hide HoldsStop;
    if i < s.Count() {
      AllCompleteIsWayOn(s.Nth(i).body);
      BranchesAreWayOn(s, i + 1);
    }
  }

  // ---- One level at a time ----

  lemma {:induction false} AllPlaced(stmts: seq<Stmt>, inLoop: bool, strict: bool)
    ensures PlacedAll(stmts, inLoop, strict) <==> forall k: nat :: k < |stmts| ==>
      Placed(stmts[k], inLoop, strict) && (strict && k + 1 < |stmts| ==> Completes(stmts[k]))
    decreases |stmts|
  {
    hide Placed, Completes;
    if stmts != [] {
      AllPlaced(stmts[1..], inLoop, strict);
      forall k: nat | k < |stmts[1..]|
        ensures stmts[1..][k] == stmts[k + 1]
      {
      }
      if PlacedAll(stmts, inLoop, strict) {
        forall k: nat | k < |stmts|
          ensures Placed(stmts[k], inLoop, strict) && (strict && k + 1 < |stmts| ==> Completes(stmts[k]))
        {
          if k > 0 {
            assert stmts[1..][k - 1] == stmts[k];
          }
        }
      }
    }
  }

  predicate IsLoop(s: Stmt) {
    s.While? || s.DoWhile?
  }

  lemma BodiesPlaced(s: Stmt, inLoop: bool, strict: bool)
    ensures Placed(s, inLoop, strict) <==>
      && (s.Break? || s.Continue? ==> inLoop)
      && forall j: nat :: j < |Bodies(s)| ==> PlacedAll(Bodies(s)[j], inLoop || IsLoop(s), strict)
  {
    hide PlacedAll;
    if s.If? {
      BranchesPlaced(s, 0, inLoop, strict);
      if s.hasElse {
        assert Bodies(s)[s.Count()] == s.els;
      }
      assert forall j: nat :: j < s.Count() ==> Bodies(s)[j] == s.Nth(j).body;
    } else if s.Block? || s.While? || s.DoWhile? {
      assert Bodies(s)[0] == s.body;
    }
  }

  lemma {:induction false} BranchesPlaced(s: Stmt, i: nat, inLoop: bool, strict: bool)
    requires s.If? && i <= s.Count()
    ensures PlacedFrom(s, i, inLoop, strict) <==> forall j: nat :: i <= j < s.Count() ==> PlacedAll(s.Nth(j).body, inLoop, strict)
    decreases s.Count() - i
  {
    hide PlacedAll;
    if i < s.Count() {
      BranchesPlaced(s, i + 1, inLoop, strict);
    }
  }

  // ---- Placed is: no offender ----

  lemma {:induction false} PlacedHasNoOffender(body: seq<Stmt>, path: Path, k: nat, inLoop: bool, strict: bool)
    requires PlacedAll(body, inLoop, strict)
    ensures !Offender(body, path, k, inLoop, strict)
    decreases |path|
  {
    hide Placed, PlacedAll, Completes, NoWayOn;
    AllPlaced(body, inLoop, strict);
    if path == [] {
      if k < |body| {
        BodiesPlaced(body[k], inLoop, strict);
        if 0 < k {
          CompletesIsWayOn(body[k - 1]);
          assert body[k - 1 + 1] == body[k];
        }
      }
    } else if ListAt(body, path).Some? {
      var (i, j) := path[0];
      BodiesPlaced(body[i], inLoop, strict);
      PlacedHasNoOffender(Bodies(body[i])[j], path[1..], k, inLoop || IsLoop(body[i]), strict);
    }
  }

  lemma {:induction false} FindOffender(stmts: seq<Stmt>, inLoop: bool, strict: bool) returns (path: Path, k: nat)
    requires !PlacedAll(stmts, inLoop, strict)
    ensures Offender(stmts, path, k, inLoop, strict)
    decreases stmts, 0
  {
    hide Placed, Completes, NoWayOn;
    AllPlaced(stmts, inLoop, strict);
    path, k := [], 0;
    var i: nat :| i < |stmts| && !(Placed(stmts[i], inLoop, strict) && (strict && i + 1 < |stmts| ==> Completes(stmts[i])));
    if Placed(stmts[i], inLoop, strict) {
      CompletesIsWayOn(stmts[i]);
      k := i + 1;
    } else if (stmts[i].Break? || stmts[i].Continue?) && !inLoop {
      k := i;
    } else {
      var j;
      j, path, k := FindBelow(stmts[i], inLoop, strict);
      ghost var deeper: Path := [(i, j)] + path;
      assert deeper[1..] == path;
      path := deeper;
    }
  }

  lemma {:induction false} FindBelow(s: Stmt, inLoop: bool, strict: bool) returns (j: nat, path: Path, k: nat)
    requires !Placed(s, inLoop, strict) && (s.Break? || s.Continue? ==> inLoop)
    ensures j < |Bodies(s)| && Offender(Bodies(s)[j], path, k, inLoop || IsLoop(s), strict)
    decreases s, 1
  {
    hide PlacedAll, Offender;
    BodiesPlaced(s, inLoop, strict);
    j :| j < |Bodies(s)| && !PlacedAll(Bodies(s)[j], inLoop || IsLoop(s), strict);
    match s
    case Block(body) => path, k := FindOffender(body, inLoop, strict);
    case While(_, body) => path, k := FindOffender(body, true, strict);
    case DoWhile(body, _) => path, k := FindOffender(body, true, strict);
    case If(_, _, _, els) =>
      if j < s.Count() {
        path, k := FindOffender(s.Nth(j).body, inLoop, strict);
      } else {
        path, k := FindOffender(els, inLoop, strict);
      }
  }

  // Well placed is: no statement stands where none may.
  lemma PlacedIsNoOffender(body: seq<Stmt>, inLoop: bool, strict: bool)
    ensures PlacedAll(body, inLoop, strict) <==> forall path, k: nat :: !Offender(body, path, k, inLoop, strict)
  {
    hide PlacedAll, Offender;
    if PlacedAll(body, inLoop, strict) {
      forall path, k: nat
        ensures !Offender(body, path, k, inLoop, strict)
      {
        PlacedHasNoOffender(body, path, k, inLoop, strict);
      }
    } else {
      var path, k := FindOffender(body, inLoop, strict);
    }
  }

  // ---- Plain is: no `if` on the literal `true` ----

  predicate TrueIfAt(body: seq<Stmt>, path: Path, k: nat) {
    ListAt(body, path).Some? && k < |ListAt(body, path).value| && TestsTrue(ListAt(body, path).value[k])
  }

  predicate TestsTrue(s: Stmt) {
    s.If? && exists i: nat :: i < s.Count() && s.Nth(i).c.always
  }

  lemma {:induction false} AllPlain(stmts: seq<Stmt>)
    ensures PlainAll(stmts) <==> forall k: nat :: k < |stmts| ==> Plain(stmts[k])
    decreases |stmts|
  {
    hide Plain;
    if stmts != [] {
      AllPlain(stmts[1..]);
      assert forall k: nat :: k < |stmts[1..]| ==> stmts[1..][k] == stmts[k + 1];
      if PlainAll(stmts) {
        forall k: nat | k < |stmts|
          ensures Plain(stmts[k])
        {
          if k > 0 {
            assert stmts[1..][k - 1] == stmts[k];
          }
        }
      }
    }
  }

  lemma BodiesPlain(s: Stmt)
    ensures Plain(s) <==> !TestsTrue(s) && forall j: nat :: j < |Bodies(s)| ==> PlainAll(Bodies(s)[j])
  {
    hide PlainAll;
    if s.If? {
      BranchesPlain(s, 0);
      if s.hasElse {
        assert Bodies(s)[s.Count()] == s.els;
      }
      assert forall j: nat :: j < s.Count() ==> Bodies(s)[j] == s.Nth(j).body;
    } else if s.Block? || s.While? || s.DoWhile? {
      assert Bodies(s)[0] == s.body;
    }
  }

  lemma {:induction false} BranchesPlain(s: Stmt, i: nat)
    requires s.If? && i <= s.Count()
    ensures PlainFrom(s, i) <==>
      && (forall j: nat :: i <= j < s.Count() ==> !s.Nth(j).c.always && PlainAll(s.Nth(j).body))
      && (s.hasElse ==> PlainAll(s.els))
    decreases s.Count() - i
  {
    hide PlainAll;
    if i < s.Count() {
      BranchesPlain(s, i + 1);
    }
  }

  lemma {:induction false} PlainHasNoTrueIf(body: seq<Stmt>, path: Path, k: nat)
    requires PlainAll(body)
    ensures !TrueIfAt(body, path, k)
    decreases |path|
  {
    hide Plain, PlainAll, TestsTrue;
    AllPlain(body);
    if path == [] {
      if k < |body| {
        BodiesPlain(body[k]);
      }
    } else if ListAt(body, path).Some? {
      var (i, j) := path[0];
      BodiesPlain(body[i]);
      PlainHasNoTrueIf(Bodies(body[i])[j], path[1..], k);
    }
  }

  lemma {:induction false} FindTrueIf(stmts: seq<Stmt>) returns (path: Path, k: nat)
    requires !PlainAll(stmts)
    ensures TrueIfAt(stmts, path, k)
    decreases stmts, 0
  {
    hide Plain, TestsTrue;
    AllPlain(stmts);
    k :| k < |stmts| && !Plain(stmts[k]);
    path := [];
    if !TestsTrue(stmts[k]) {
      var i, j := k, 0;
      j, path, k := FindTrueIfBelow(stmts[i]);
      ghost var deeper: Path := [(i, j)] + path;
      assert deeper[1..] == path;
      path := deeper;
    }
  }

  lemma {:induction false} FindTrueIfBelow(s: Stmt) returns (j: nat, path: Path, k: nat)
    requires !Plain(s) && !TestsTrue(s)
    ensures j < |Bodies(s)| && TrueIfAt(Bodies(s)[j], path, k)
    decreases s, 1
  {
    hide PlainAll, TrueIfAt, TestsTrue;
    BodiesPlain(s);
    j :| j < |Bodies(s)| && !PlainAll(Bodies(s)[j]);
    match s
    case Block(body) => path, k := FindTrueIf(body);
    case While(_, body) => path, k := FindTrueIf(body);
    case DoWhile(body, _) => path, k := FindTrueIf(body);
    case If(_, _, _, els) =>
      if j < s.Count() {
        path, k := FindTrueIf(s.Nth(j).body);
      } else {
        path, k := FindTrueIf(els);
      }
  }

  // Plain is: nowhere in the tree does an `if` test the literal `true`.
  lemma PlainIsNoTrueIf(body: seq<Stmt>)
    ensures PlainAll(body) <==> forall path, k: nat :: !TrueIfAt(body, path, k)
  {
    hide PlainAll, TrueIfAt;
    if PlainAll(body) {
      forall path, k: nat
        ensures !TrueIfAt(body, path, k)
      {
        PlainHasNoTrueIf(body, path, k);
      }
    } else {
      var path, k := FindTrueIf(body);
    }
  }

  // ---- Straight bodies ----

  lemma {:induction false} ListBelow(body: seq<Stmt>, path: Path, rest: Path)
    requires ListAt(body, path).Some?
    ensures ListAt(body, path + rest) == ListAt(ListAt(body, path).value, rest)
    decreases |path|
  {
    if path == [] {
      assert path + rest == rest;
    } else {
      assert (path + rest)[1..] == path[1..] + rest;
      ListBelow(Bodies(body[path[0].0])[path[0].1], path[1..], rest);
    }
  }

  // What leaves no way on is a stopping statement or has one below it.
  lemma {:induction false} StopBelow(s: Stmt) returns (path: Path, k: nat)
    requires NoWayOn(s) && !Stops(s)
    ensures Bodies(s) != [] && StopAt(Bodies(s)[0], path, k)
    decreases s, 1
  {
    match s
    case Block(body) =>
      var i: nat :| i < |body| && NoWayOn(body[i]);
      path, k := StopIn(body, i);
    case If(first, _, _, _) =>
      assert HoldsStop(s.Nth(0).body);
      var i: nat :| i < |first.body| && NoWayOn(first.body[i]);
      assert Bodies(s)[0] == s.Nth(0).body == first.body;
      path, k := StopIn(first.body, i);
  }

  lemma {:induction false} StopIn(stmts: seq<Stmt>, i: nat) returns (path: Path, k: nat)
    requires i < |stmts| && NoWayOn(stmts[i])
    ensures StopAt(stmts, path, k)
    decreases stmts, 0
  {
    path, k := [], i;
    if !Stops(stmts[i]) {
      path, k := StopBelow(stmts[i]);
      ghost var deeper: Path := [(i, 0)] + path;
      assert deeper[1..] == path;
      path := deeper;
    }
  }

  // A body in which no return, break or continue stands is well placed.
  lemma StraightIsPlaced(body: seq<Stmt>, inLoop: bool, strict: bool)
    ensures PlacedAll(body, inLoop, strict) || exists path, k: nat :: StopAt(body, path, k)
  {
    hide NoWayOn, PlacedAll;
    if !PlacedAll(body, inLoop, strict) {
      var path, k := FindOffender(body, inLoop, strict);
      var list := ListAt(body, path).value;
      if Stops(list[k]) {
        assert StopAt(body, path, k);
      } else {
        var rest, l := StopIn(list, k - 1);
        ListBelow(body, path, rest);
        assert StopAt(body, path + rest, l);
      }
    }
  }
}
