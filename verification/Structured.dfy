// Structured statements, and what a run of them does: the order of every
// statement, condition and deferred statement.
module Structured {
  import opened Options

  // `always` marks the literal `true`.
  datatype Cond = Cond(id: nat, always: bool)

  datatype Branch = Branch(c: Cond, body: seq<Stmt>)

  // Every body is a `{ }` block, as the parser makes it.
  datatype Stmt =
    | Simple(a: nat)
    | Defer(a: nat)
    | Block(body: seq<Stmt>)
    | If(first: Branch, elseifs: seq<Branch>, hasElse: bool, els: seq<Stmt>)
    | While(c: Cond, body: seq<Stmt>)
    | DoWhile(body: seq<Stmt>, c: Cond)
    | Return(value: Option<nat>)
    | Try(a: nat)   // `try f();`: on failure, the function returns f's error
    | Break
    | Continue
  {
    // Branches of an if/elseif chain.
    function Count(): nat
      requires If?
    {
      1 + |elseifs|
    }

    function Nth(i: nat): Branch
      requires If? && i < Count()
    {
      if i == 0 then first else elseifs[i - 1]
    }
  }

  datatype Event =
    | Act(a: nat)              // an ordinary statement runs
    | Test(c: Cond)            // a condition is evaluated
    | Registered(a: nat)       // control passes a `defer`
    | Run(a: nat)              // a deferred statement runs
    | Leave(value: Option<nat>) // `return`, its value computed
    | BreakNode
    | ContinueNode

  // `Failed` is the early return of a `try`; `Stuck` waits for a decision.
  datatype Outcome = Fall | Broke | Continued | Returned | Failed | Stuck | OutOfFuel

  // To its end, with every `try` on the way succeeding.
  predicate Done(o: Outcome) {
    o in {Fall, Broke, Continued, Returned}
  }

  predicate Complete(o: Outcome) {
    Done(o) || o == Failed
  }

  // A run: its events, how it ended, and the decisions left for later.
  datatype Result = Result(trace: seq<Event>, outcome: Outcome, ch: seq<bool>)

  function Then(t: seq<Event>, r: Result): Result {
    r.(trace := t + r.trace)
  }

  // A scope's deferred statements, last registered first.
  function Runs(reg: seq<nat>): seq<Event> {
    if reg == [] then [] else [Run(reg[|reg| - 1])] + Runs(reg[..|reg| - 1])
  }

  // Leaving every scope above `depth`, innermost first.
  function Unwind(frames: seq<seq<nat>>, depth: nat): seq<Event> {
    if |frames| <= depth then []
    else Runs(frames[|frames| - 1]) + Unwind(frames[..|frames| - 1], depth)
  }

  // The next decision; the literal `true` needs none.
  function Decide(c: Cond, ch: seq<bool>): Option<(bool, seq<bool>)> {
    if c.always then Some((true, ch))
    else if ch == [] then None
    else Some((ch[0], ch[1..]))
  }

  // Execution on the decisions `ch`. Defers belong to the block they are
  // written in and run on every way out of it. `fuel` bounds loop rounds.
  function Exec(s: Stmt, ch: seq<bool>, fuel: nat): Result
    decreases fuel, s, 1
  {
    match s
    case Simple(a) => Result([Act(a)], Fall, ch)
    case Defer(a) => Result([Registered(a)], Fall, ch)
    case Block(body) => ExecSeq(body, [], ch, fuel)
    case If(_, _, _, _) => ExecIf(s, 0, ch, fuel)
    case While(_, _) => ExecWhile(s, ch, fuel)
    case DoWhile(_, _) => ExecDoWhile(s, ch, fuel)
    case Return(value) => Result([Leave(value)], Returned, ch)
    case Try(a) =>
      if ch == [] then Result([Act(a)], Stuck, ch)
      else Result([Act(a)], if ch[0] then Fall else Failed, ch[1..])
    case Break => Result([], Broke, ch)
    case Continue => Result([], Continued, ch)
  }

  // The rest of a block whose defers so far are `reg`.
  function ExecSeq(stmts: seq<Stmt>, reg: seq<nat>, ch: seq<bool>, fuel: nat): Result
    decreases fuel, stmts, 0
  {
    if stmts == [] then Result(Runs(reg), Fall, ch)
    else
      var r := Exec(stmts[0], ch, fuel);
      match r.outcome
      case Fall =>
        Then(r.trace, ExecSeq(stmts[1..], if stmts[0].Defer? then reg + [stmts[0].a] else reg, r.ch, fuel))
      case Stuck => r
      case OutOfFuel => r
      case _ => r.(trace := r.trace + Runs(reg))
  }

  // An if/elseif chain from its branch `i`.
  function ExecIf(s: Stmt, i: nat, ch: seq<bool>, fuel: nat): Result
    requires s.If? && i <= s.Count()
    decreases fuel, s, 0, s.Count() - i
  {
    if i == s.Count() then
      if s.hasElse then ExecSeq(s.els, [], ch, fuel) else Result([], Fall, ch)
    else
      var d := Decide(s.Nth(i).c, ch);
      Then([Test(s.Nth(i).c)],
        if d.None? then Result([], Stuck, ch)
        else if d.value.0 then ExecSeq(s.Nth(i).body, [], d.value.1, fuel)
        else ExecIf(s, i + 1, d.value.1, fuel))
  }

  function ExecWhile(s: Stmt, ch: seq<bool>, fuel: nat): Result
    requires s.While?
    decreases fuel, s, 0
  {
    if fuel == 0 then Result([], OutOfFuel, ch)
    else
      var d := Decide(s.c, ch);
      Then([Test(s.c)],
        if d.None? then Result([], Stuck, ch)
        else if !d.value.0 then Result([], Fall, d.value.1)
        else
          var r := ExecSeq(s.body, [], d.value.1, fuel - 1);
          match r.outcome
          case Fall => Then(r.trace, ExecWhile(s, r.ch, fuel - 1))
          case Continued => Then(r.trace + [ContinueNode], ExecWhile(s, r.ch, fuel - 1))
          case Broke => Result(r.trace + [BreakNode], Fall, r.ch)
          case _ => r)
  }

  // A while loop after its body's run `r`.
  function WhileRest(s: Stmt, r: Result, fuel: nat): Result
    requires s.While? && fuel > 0
  {
    match r.outcome
    case Fall => Then(r.trace, ExecWhile(s, r.ch, fuel - 1))
    case Continued => Then(r.trace + [ContinueNode], ExecWhile(s, r.ch, fuel - 1))
    case Broke => Result(r.trace + [BreakNode], Fall, r.ch)
    case _ => r
  }

  // One test of a while loop, and its body if it is true.
  lemma WhileUnfolds(s: Stmt, ch: seq<bool>, fuel: nat)
    requires s.While? && fuel > 0
    ensures var d := Decide(s.c, ch);
            ExecWhile(s, ch, fuel) == Then([Test(s.c)],
              if d.None? then Result([], Stuck, ch)
              else if !d.value.0 then Result([], Fall, d.value.1)
              else WhileRest(s, ExecSeq(s.body, [], d.value.1, fuel - 1), fuel))
  {
  }

  function ExecDoWhile(s: Stmt, ch: seq<bool>, fuel: nat): Result
    requires s.DoWhile?
    decreases fuel, s, 0, 1
  {
    var r := ExecSeq(s.body, [], ch, fuel);
    match r.outcome
    case Fall => Then(r.trace, ExecTail(s, r.ch, fuel))
    case Continued => Then(r.trace + [ContinueNode], ExecTail(s, r.ch, fuel))
    case Broke => Result(r.trace + [BreakNode], Fall, r.ch)
    case _ => r
  }

  // The condition after a do-while's body.
  function ExecTail(s: Stmt, ch: seq<bool>, fuel: nat): Result
    requires s.DoWhile?
    decreases fuel, s, 0, 0
  {
    if fuel == 0 then Result([], OutOfFuel, ch)
    else
      var d := Decide(s.c, ch);
      Then([Test(s.c)],
        if d.None? then Result([], Stuck, ch)
        else if !d.value.0 then Result([], Fall, d.value.1)
        else ExecDoWhile(s, d.value.1, fuel - 1))
  }

  // ---- What the compiler can see without running ----

  // Control can leave `s` at its end, as far as its shape tells.
  predicate Completes(s: Stmt)
    decreases s, 1
  {
    match s
    case Block(body) => CompletesAll(body)
    case If(_, _, hasElse, els) => !hasElse || CompletesAll(els) || CompletesFrom(s, 0)
    case Return(_) => false
    case Break => false
    case Continue => false
    case _ => true
  }

  predicate CompletesAll(stmts: seq<Stmt>)
    decreases stmts, 0
  {
    stmts == [] || (Completes(stmts[0]) && CompletesAll(stmts[1..]))
  }

  predicate CompletesFrom(s: Stmt, i: nat)
    requires s.If? && i <= s.Count()
    decreases s, 0, s.Count() - i
  {
    i < s.Count() && (CompletesAll(s.Nth(i).body) || CompletesFrom(s, i + 1))
  }

  // ---- The nodes of a statement ----

  // An event that reads and writes nothing.
  predicate Mute(e: Event) {
    e.BreakNode? || e.ContinueNode? || e == Leave(None) || (e.Test? && e.c.always)
  }

  // What a run of `s` can show, such events aside.
  function Nodes(s: Stmt): set<Event>
    decreases s, 1
  {
    match s
    case Simple(a) => {Act(a)}
    case Try(a) => {Act(a)}
    case Defer(a) => {Registered(a), Run(a)}
    case Block(body) => NodesAll(body)
    case If(_, _, _, _) => NodesFrom(s, 0)
    case While(c, body) => NodesOfTest(c) + NodesAll(body)
    case DoWhile(body, c) => NodesOfTest(c) + NodesAll(body)
    case Return(value) => if value.Some? then {Leave(value)} else {}
    case _ => {}
  }

  function NodesOfTest(c: Cond): set<Event> {
    if c.always then {} else {Test(c)}
  }

  function NodesAll(stmts: seq<Stmt>): set<Event>
    decreases stmts, 0
  {
    if stmts == [] then {} else Nodes(stmts[0]) + NodesAll(stmts[1..])
  }

  function NodesFrom(s: Stmt, i: nat): set<Event>
    requires s.If? && i <= s.Count()
    decreases s, 0, s.Count() - i
  {
    if i == s.Count() then NodesAll(s.els)
    else NodesOfTest(s.Nth(i).c) + NodesAll(s.Nth(i).body) + NodesFrom(s, i + 1)
  }

  // No node occurs twice, as in a syntax tree, where each is an object.
  predicate Distinct(s: Stmt)
    decreases s, 1
  {
    match s
    case Block(body) => DistinctAll(body)
    case If(_, _, _, _) => DistinctFrom(s, 0)
    case While(c, body) => DistinctAll(body) && NodesOfTest(c) !! NodesAll(body)
    case DoWhile(body, c) => DistinctAll(body) && NodesOfTest(c) !! NodesAll(body)
    case _ => true
  }

  predicate DistinctAll(stmts: seq<Stmt>)
    decreases stmts, 0
  {
    stmts == [] || (Distinct(stmts[0]) && DistinctAll(stmts[1..]) && Nodes(stmts[0]) !! NodesAll(stmts[1..]))
  }

  predicate DistinctFrom(s: Stmt, i: nat)
    requires s.If? && i <= s.Count()
    decreases s, 0, s.Count() - i
  {
    if i == s.Count() then DistinctAll(s.els)
    else
      && DistinctAll(s.Nth(i).body) && DistinctFrom(s, i + 1)
      && NodesOfTest(s.Nth(i).c) !! NodesAll(s.Nth(i).body) + NodesFrom(s, i + 1)
      && NodesAll(s.Nth(i).body) !! NodesFrom(s, i + 1)
  }

  // The literal `true` stands in loops only.
  predicate Plain(s: Stmt)
    decreases s, 1
  {
    match s
    case Block(body) => PlainAll(body)
    case If(_, _, _, _) => PlainFrom(s, 0)
    case While(_, body) => PlainAll(body)
    case DoWhile(body, _) => PlainAll(body)
    case _ => true
  }

  predicate PlainAll(stmts: seq<Stmt>)
    decreases stmts, 0
  {
    stmts == [] || (Plain(stmts[0]) && PlainAll(stmts[1..]))
  }

  predicate PlainFrom(s: Stmt, i: nat)
    requires s.If? && i <= s.Count()
    decreases s, 0, s.Count() - i
  {
    if i == s.Count() then s.hasElse ==> PlainAll(s.els)
    else !s.Nth(i).c.always && PlainAll(s.Nth(i).body) && PlainFrom(s, i + 1)
  }

  // ---- As the graph builder sees it: a `try` is a statement like any other ----

  function Erase(s: Stmt): Stmt
    decreases s, 1
  {
    match s
    case Try(a) => Simple(a)
    case Block(body) => Block(EraseAll(body))
    case If(first, elseifs, hasElse, els) => If(EraseBranch(first), EraseBranches(elseifs), hasElse, EraseAll(els))
    case While(c, body) => While(c, EraseAll(body))
    case DoWhile(body, c) => DoWhile(EraseAll(body), c)
    case _ => s
  }

  function EraseAll(stmts: seq<Stmt>): seq<Stmt>
    decreases stmts, 0
  {
    if stmts == [] then [] else [Erase(stmts[0])] + EraseAll(stmts[1..])
  }

  function EraseBranch(b: Branch): Branch
    decreases b, 0
  {
    Branch(b.c, EraseAll(b.body))
  }

  function EraseBranches(bs: seq<Branch>): seq<Branch>
    decreases bs, 0
  {
    if bs == [] then [] else [EraseBranch(bs[0])] + EraseBranches(bs[1..])
  }

  lemma {:induction false} ErasedAt(stmts: seq<Stmt>)
    ensures |EraseAll(stmts)| == |stmts|
    ensures forall i: nat :: i < |stmts| ==> EraseAll(stmts)[i] == Erase(stmts[i])
  {
    if stmts != [] {
      ErasedAt(stmts[1..]);
    }
  }

  lemma {:induction false} ErasedBranchesAt(bs: seq<Branch>)
    ensures |EraseBranches(bs)| == |bs|
    ensures forall i: nat :: i < |bs| ==> EraseBranches(bs)[i] == EraseBranch(bs[i])
  {
    if bs != [] {
      ErasedBranchesAt(bs[1..]);
    }
  }

  lemma ErasedIf(s: Stmt)
    requires s.If?
    ensures Erase(s).If? && Erase(s).Count() == s.Count()
    ensures Erase(s).hasElse == s.hasElse && Erase(s).els == EraseAll(s.els)
    ensures forall i: nat :: i < s.Count() ==> Erase(s).Nth(i) == EraseBranch(s.Nth(i))
  {
    ErasedBranchesAt(s.elseifs);
  }

  // Jumps stand inside loops and, with `strict`, nothing follows a terminator.
  predicate Placed(s: Stmt, inLoop: bool, strict: bool)
    decreases s, 1
  {
    match s
    case Block(body) => PlacedAll(body, inLoop, strict)
    case If(_, _, hasElse, els) =>
      PlacedFrom(s, 0, inLoop, strict) && (hasElse ==> PlacedAll(els, inLoop, strict))
    case While(_, body) => PlacedAll(body, true, strict)
    case DoWhile(body, _) => PlacedAll(body, true, strict)
    case Break => inLoop
    case Continue => inLoop
    case _ => true
  }

  predicate PlacedAll(stmts: seq<Stmt>, inLoop: bool, strict: bool)
    decreases stmts, 0
  {
    stmts == [] ||
    (Placed(stmts[0], inLoop, strict) && PlacedAll(stmts[1..], inLoop, strict)
     && (strict && |stmts| > 1 ==> Completes(stmts[0])))
  }

  predicate PlacedFrom(s: Stmt, i: nat, inLoop: bool, strict: bool)
    requires s.If? && i <= s.Count()
    decreases s, 0, s.Count() - i
  {
    i == s.Count() || (PlacedAll(s.Nth(i).body, inLoop, strict) && PlacedFrom(s, i + 1, inLoop, strict))
  }

  lemma SuffixStep(stmts: seq<Stmt>, i: nat, inLoop: bool, strict: bool)
    requires i < |stmts|
    ensures CompletesAll(stmts[i..]) <==> Completes(stmts[i]) && CompletesAll(stmts[i + 1..])
    ensures PlainAll(stmts[i..]) <==> Plain(stmts[i]) && PlainAll(stmts[i + 1..])
    ensures PlacedAll(stmts[i..], inLoop, strict) <==>
            Placed(stmts[i], inLoop, strict) && PlacedAll(stmts[i + 1..], inLoop, strict)
            && (strict && i + 1 < |stmts| ==> Completes(stmts[i]))
  {
    assert stmts[i..][0] == stmts[i] && stmts[i..][1..] == stmts[i + 1..];
  }

  lemma SuffixEnds(stmts: seq<Stmt>, inLoop: bool, strict: bool)
    ensures stmts[0..] == stmts && stmts[|stmts|..] == []
    ensures CompletesAll(stmts[|stmts|..]) && PlacedAll(stmts[|stmts|..], inLoop, strict)
  {
  }
}
