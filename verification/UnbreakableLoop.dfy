// hasUnbreakableLoop: Tarjan's strongly-connected-component search, stopped
// at the first loop that nothing leaves.
module UnbreakableLoop {
  import opened Graph
  import opened Options

  // Some run from `u` can end: a block with no successor lies ahead.
  ghost predicate CanEnd(g: Graph, u: nat) {
    exists t: nat :: t < |g.succs| && g.succs[t] == [] && Reaches(g, u, t)
  }

  // A loop no edge leaves: its blocks reach one another, each has a
  // successor, and every successor is in the loop.
  ghost predicate ClosedLoop(g: Graph, loop: set<nat>) {
    && loop != {}
    && (forall u :: u in loop ==> u < |g.succs| && g.succs[u] != [])
    && (forall u, v :: u in loop && g.Edge(u, v) ==> v in loop)
    && forall u, v :: u in loop && v in loop ==> Reaches(g, u, v)
  }

  lemma ClosedLoopNeverEnds(g: Graph, loop: set<nat>, u: nat)
    requires ClosedLoop(g, loop) && u in loop
    ensures !CanEnd(g, u)
  {
    forall t: nat | t < |g.succs| && Reaches(g, u, t)
      ensures g.succs[t] != []
    {
      ClosedSetIsNeverLeft(g, loop, u, t);
    }
  }

  // The variables the search updates.
  datatype Search = Search(
    counter: nat,
    disc: map<nat, nat>,    // discovery index
    low: map<nat, nat>,     // lowest index known reachable
    onStack: set<nat>,
    stack: seq<nat>,
    found: bool)
  {
    predicate Popped(u: nat) {
      u in disc && u !in onStack
    }
  }

  // What the fields mean, apart from the graph.
  ghost predicate Sound(s: Search, reach: set<nat>) {
    && s.low.Keys == s.disc.Keys <= reach
    && (forall u :: u in s.disc ==> s.disc[u] < s.counter)
    && (forall u :: u in s.stack <==> u in s.onStack)
    && (forall u :: u in s.onStack ==> u in s.disc)
    && forall i: nat, j: nat :: i < j < |s.stack| ==> s.disc[s.stack[i]] < s.disc[s.stack[j]]
  }

  // A popped block can end, and its edges lead to popped blocks.
  ghost predicate Retired(g: Graph, s: Search, u: nat) {
    && CanEnd(g, u)
    && (u < |g.succs| ==> forall w :: w in g.succs[u] ==> s.Popped(w))
  }

  // A stack block reaches the stack block its low-link names.
  ghost predicate Linked(g: Graph, s: Search, u: nat) {
    && u in s.low && u in s.disc && s.low[u] <= s.disc[u]
    && exists w :: w in s.onStack && w in s.disc && s.disc[w] == s.low[u] && Reaches(g, u, w)
  }

  // No edge of `u` leads to a stack block below its low-link.
  ghost predicate EdgesCovered(g: Graph, s: Search, u: nat) {
    u in s.low && u < |g.succs| && forall w :: w in g.succs[u] ==> w in s.disc && (w in s.onStack ==> s.low[u] <= s.disc[w])
  }

  // A stack block whose visit is over hangs below an older one.
  ghost predicate Settled(g: Graph, s: Search, u: nat) {
    EdgesCovered(g, s, u) && u in s.disc && s.low[u] < s.disc[u]
  }

  // The invariant between calls; `active` are the blocks being visited.
  ghost predicate Invariant(g: Graph, reach: set<nat>, s: Search, active: set<nat>) {
    && Sound(s, reach)
    && active <= s.onStack
    && (forall u: nat :: s.Popped(u) ==> Retired(g, s, u))
    && (forall u: nat :: u in s.onStack ==> Linked(g, s, u))
    && (forall u: nat :: u in s.onStack && u !in active ==> Settled(g, s, u))
  }

  ghost predicate ReachClosed(g: Graph, reach: set<nat>) {
    && (forall u :: u in reach ==> u < |g.succs|)
    && forall u, v :: u in reach && g.Edge(u, v) ==> v in reach
  }

  ghost predicate LoopFound(g: Graph, reach: set<nat>) {
    exists loop: set<nat> :: loop <= reach && ClosedLoop(g, loop)
  }

  // Nothing known of the blocks already discovered has changed.
  ghost predicate Extends(s: Search, s': Search) {
    && s.counter <= s'.counter
    && (forall u :: u in s.disc ==> u in s'.disc && s'.disc[u] == s.disc[u])
    && (forall u :: u in s.low ==> u in s'.low)
    && (forall u :: u in s.onStack && u in s.low && u in s'.low ==> s'.low[u] == s.low[u])
    && (forall u :: u in s.disc ==> (u in s'.onStack <==> u in s.onStack))
    && (forall u :: u in s'.disc && u !in s.disc ==> s.counter <= s'.disc[u])
  }

  // The blocks above `base` on the stack hang below `v`.
  ghost predicate Segment(g: Graph, base: Search, s: Search, v: nat)
    requires v in s.low
  {
    forall u :: u in s.onStack && u !in base.disc && u in s.low ==> s.low[v] <= s.low[u] && Reaches(g, v, u)
  }

  // What a finished visit of `v` leaves, unless a loop was found.
  ghost predicate Visited(g: Graph, reach: set<nat>, s: Search, s': Search, active: set<nat>, v: nat) {
    && Invariant(g, reach, s', active)
    && Extends(s, s')
    && v in s'.disc && v in s'.low
    && Segment(g, s, s', v)
    && (v !in s'.onStack ==> s'.stack == s.stack && s'.onStack == s.onStack && s.counter <= s'.low[v])
  }

  function Enter(s: Search, v: nat): Search {
    s.(counter := s.counter + 1, disc := s.disc[v := s.counter], low := s.low[v := s.counter],
       onStack := s.onStack + {v}, stack := s.stack + [v])
  }

  lemma EnterKeepsEach(g: Graph, s: Search, v: nat, u: nat)
    requires v !in s.disc && u in s.disc && u != v
    requires forall x :: x in s.onStack ==> x in s.disc
    ensures Retired(g, s, u) ==> Retired(g, Enter(s, v), u)
    ensures Linked(g, s, u) ==> Linked(g, Enter(s, v), u)
    ensures Settled(g, s, u) ==> Settled(g, Enter(s, v), u)
  {
    hide Reaches, CanEnd;
    var s' := Enter(s, v);
    assert forall w: nat :: s'.Popped(w) <==> s.Popped(w);
    if Linked(g, s, u) {
      var w :| w in s.onStack && w in s.disc && s.disc[w] == s.low[u] && Reaches(g, u, w);
      assert w in s'.onStack && s'.disc[w] == s'.low[u];
    }
  }

  lemma EnterKeepsSound(s: Search, reach: set<nat>, v: nat)
    requires Sound(s, reach) && v in reach && v !in s.disc
    ensures Sound(Enter(s, v), reach)
    ensures forall u :: u in s.onStack ==> u in s.disc
  {
    var s' := Enter(s, v);
    forall u
      ensures u in s'.stack <==> u in s'.onStack
    {
    }
    forall i: nat, j: nat | i < j < |s'.stack|
      ensures s'.disc[s'.stack[i]] < s'.disc[s'.stack[j]]
    {
      assert s.stack[i] in s.stack;
      if j < |s.stack| {
        assert s.stack[j] in s.stack;
      }
    }
  }

  lemma LowerKeepsSound(s: Search, reach: set<nat>, v: nat, low: nat)
    requires Sound(s, reach) && v in s.low
    ensures Sound(s.(low := s.low[v := low]), reach)
    ensures forall u :: u in s.onStack ==> u in s.disc
  {
    var s' := s.(low := s.low[v := low]);
    assert s'.low.Keys == s.low.Keys;
  }

  lemma EnteredIsLinked(g: Graph, s: Search, v: nat)
    requires v < |g.succs| && v !in s.disc
    requires forall u :: u in s.onStack ==> u in s.disc
    ensures Linked(g, Enter(s, v), v) && Segment(g, s, Enter(s, v), v)
  {
    ReachesSelf(g, v);
    assert Enter(s, v).disc[v] == Enter(s, v).low[v];
  }

  lemma LoweredIsLinked(g: Graph, s: Search, v: nat, target: nat)
    requires Linked(g, s, v)
    requires target in s.onStack && target in s.disc && Reaches(g, v, target) && s.disc[target] < s.low[v]
    ensures Linked(g, s.(low := s.low[v := s.disc[target]]), v)
  {
    hide Reaches;
    var s' := s.(low := s.low[v := s.disc[target]]);
    assert s'.disc[target] == s'.low[v];
  }

  lemma EnterKeepsInvariant(g: Graph, reach: set<nat>, s: Search, active: set<nat>, v: nat)
    requires ReachClosed(g, reach)
    requires Invariant(g, reach, s, active) && v in reach && v !in s.disc
    ensures Invariant(g, reach, Enter(s, v), active + {v})
    ensures Segment(g, s, Enter(s, v), v)
  {
    var s' := Enter(s, v);
    hide Reaches, CanEnd, Retired, Linked, Settled, Sound;
    EnterKeepsSound(s, reach, v);
    EnteredIsLinked(g, s, v);
    forall u: nat | u in s.disc
      ensures s'.Popped(u) ==> Retired(g, s', u)
      ensures u in s'.onStack ==> Linked(g, s', u)
      ensures u in s'.onStack && u !in active + {v} ==> Settled(g, s', u)
    {
      EnterKeepsEach(g, s, v, u);
    }
  }

  lemma LowerKeepsEach(g: Graph, s: Search, v: nat, low: nat, u: nat)
    requires v in s.low && low < s.low[v] && u != v
    ensures Retired(g, s, u) ==> Retired(g, s.(low := s.low[v := low]), u)
    ensures Linked(g, s, u) ==> Linked(g, s.(low := s.low[v := low]), u)
    ensures Settled(g, s, u) ==> Settled(g, s.(low := s.low[v := low]), u)
  {
    hide Reaches, CanEnd;
    var s' := s.(low := s.low[v := low]);
    assert forall w: nat :: s'.Popped(w) <==> s.Popped(w);
    if Linked(g, s, u) {
      var w :| w in s.onStack && w in s.disc && s.disc[w] == s.low[u] && Reaches(g, u, w);
      assert w in s'.onStack && s'.disc[w] == s'.low[u];
    }
  }

  // Lowering an active block's low-link to an index it reaches.
  lemma LowerKeepsInvariant(g: Graph, reach: set<nat>, s: Search, active: set<nat>, v: nat, target: nat, low: nat)
    requires Invariant(g, reach, s, active) && v in active && v in s.low
    requires target in s.onStack && target in s.disc && s.disc[target] == low < s.low[v]
    requires Reaches(g, v, target)
    ensures Invariant(g, reach, s.(low := s.low[v := low]), active)
  {
    hide Reaches, CanEnd, Retired, Linked, Settled, Sound;
    var s' := s.(low := s.low[v := low]);
    LowerKeepsSound(s, reach, v, low);
    LoweredIsLinked(g, s, v, target);
    forall u: nat | u in s.disc && u != v
      ensures s'.Popped(u) ==> Retired(g, s', u)
      ensures u in s'.onStack ==> Linked(g, s', u)
      ensures u in s'.onStack && u !in active ==> Settled(g, s', u)
    {
      LowerKeepsEach(g, s, v, low, u);
    }
  }

  // A block whose low-link is below it stays on the stack.
  lemma LeaveKeepsInvariant(g: Graph, reach: set<nat>, s: Search, active: set<nat>, v: nat)
    requires Invariant(g, reach, s, active + {v})
    requires Settled(g, s, v)
    ensures Invariant(g, reach, s, active)
  {
    hide Reaches, CanEnd, Retired, Linked, Settled;
    assert forall u: nat :: u in s.onStack && u !in active ==> u == v || u !in active + {v};
  }

  lemma InvariantIsSound(g: Graph, reach: set<nat>, s: Search, active: set<nat>)
    requires Invariant(g, reach, s, active)
    ensures Sound(s, reach)
  {
  }

  lemma SoundFacts(s: Search, reach: set<nat>)
    requires Sound(s, reach)
    ensures forall u :: u in s.onStack ==> u in s.disc
    ensures forall u :: u in s.disc ==> s.disc[u] < s.counter
    ensures s.low.Keys == s.disc.Keys <= reach
  {
  }

  lemma LowestReached(g: Graph, s: Search, w: nat) returns (t: nat)
    requires Linked(g, s, w)
    ensures t in s.onStack && t in s.disc && s.disc[t] == s.low[w] && Reaches(g, w, t)
  {
    t :| t in s.onStack && t in s.disc && s.disc[t] == s.low[w] && Reaches(g, w, t);
  }

  lemma BlocksExist(g: Graph, reach: set<nat>, s: Search, v: nat)
    requires Sound(s, reach) && ReachClosed(g, reach) && v in s.disc
    ensures v < |g.succs|
  {
  }

  // Every block above a root reaches the root, through lower and lower blocks.
  lemma SegmentReachesRoot(g: Graph, reach: set<nat>, base: Search, s: Search, active: set<nat>, v: nat, u: nat)
    requires Invariant(g, reach, s, active + {v}) && ReachClosed(g, reach)
    requires v in s.onStack && s.low[v] == s.disc[v] == base.counter
    requires Extends(base, s) && Segment(g, base, s, v)
    requires active <= base.disc.Keys
    requires forall x :: x in base.disc ==> base.disc[x] < base.counter
    requires u in s.onStack && u !in base.disc
    ensures Reaches(g, u, v)
    decreases s.disc[u]
  {
    hide Reaches, CanEnd, Retired, Linked, EdgesCovered, Sound;
    InvariantIsSound(g, reach, s, active + {v});
    SoundFacts(s, reach);
    if u == v {
      BlocksExist(g, reach, s, v);
      ReachesSelf(g, v);
    } else {
      assert Settled(g, s, u) && Linked(g, s, u);
      var w := LowestReached(g, s, u);
      assert w !in base.disc;
      SegmentReachesRoot(g, reach, base, s, active, v, w);
      ReachesTransitive(g, u, w, v);
    }
  }

  // ---- One successor of the block being visited ----

  // The edge to `w` is accounted for in `v`'s low-link.
  ghost predicate Covered(s: Search, v: nat, w: nat) {
    v in s.low && w in s.disc && (w in s.onStack ==> s.low[v] <= s.disc[w])
  }

  // Between two successors of `v`, whose visit began at `base`.
  ghost predicate Visiting(g: Graph, reach: set<nat>, base: Search, s: Search, active: set<nat>, v: nat) {
    && Invariant(g, reach, s, active + {v})
    && Extends(base, s)
    && v in s.low && v in s.disc && v in s.onStack && s.disc[v] == base.counter && s.low[v] <= base.counter
    && Segment(g, base, s, v)
  }

  function Lower(s: Search, v: nat, low: nat): Search
    requires v in s.low
  {
    s.(low := s.low[v := if low < s.low[v] then low else s.low[v]])
  }

  lemma LowerKeepsVisiting(g: Graph, reach: set<nat>, base: Search, s: Search, active: set<nat>, v: nat, target: nat)
    requires Visiting(g, reach, base, s, active, v) && v !in base.disc
    requires forall u :: u in base.onStack ==> u in base.disc
    requires target in s.onStack && target in s.disc && Reaches(g, v, target)
    ensures Visiting(g, reach, base, Lower(s, v, s.disc[target]), active, v)
  {
    hide Invariant, Reaches;
    var low := s.disc[target];
    if low < s.low[v] {
      LowerKeepsInvariant(g, reach, s, active + {v}, v, target, low);
    } else {
      assert s.low[v := s.low[v]] == s.low;
    }
  }

  // A visited successor on the stack.
  lemma BackEdge(g: Graph, reach: set<nat>, base: Search, s: Search, active: set<nat>, v: nat, w: nat)
    requires g.Valid() && g.Edge(v, w)
    requires Visiting(g, reach, base, s, active, v) && v !in base.disc
    requires forall u :: u in base.onStack ==> u in base.disc
    requires w in s.onStack && w in s.disc
    ensures Visiting(g, reach, base, Lower(s, v, s.disc[w]), active, v)
    ensures Covered(Lower(s, v, s.disc[w]), v, w)
  {
    hide Invariant, Reaches, Segment, Extends;
    ReachesNext(g, v, w);
    LowerKeepsVisiting(g, reach, base, s, active, v, w);
  }

  lemma ExtendsTwice(a: Search, b: Search, c: Search)
    requires Extends(a, b) && Extends(b, c)
    requires forall u :: u in a.onStack ==> u in a.disc
    requires a.low.Keys == a.disc.Keys && b.low.Keys == b.disc.Keys
    ensures Extends(a, c)
  {
  }

  // The child's blocks that stay on the stack join `v`'s segment.
  lemma ChildSegment(g: Graph, base: Search, s: Search, s': Search, v: nat, w: nat)
    requires g.Valid() && g.Edge(v, w)
    requires v in s.low && v in s.onStack && v in s.disc && w in s'.low && v in s'.low && s'.low[v] == s.low[v]
    requires s.low.Keys == s.disc.Keys && v != w
    requires Segment(g, base, s, v) && Segment(g, s, s', w) && Extends(s, s')
    ensures Segment(g, base, Lower(s', v, s'.low[w]), v)
  {
    hide Reaches;
    var t := Lower(s', v, s'.low[w]);
    ReachesNext(g, v, w);
    forall u | u in t.onStack && u !in base.disc && u in t.low
      ensures t.low[v] <= t.low[u] && Reaches(g, v, u)
    {
      if u in s.disc {
        assert u in s.onStack && u in s.low;
      } else {
        assert Reaches(g, w, u);
        ReachesTransitive(g, v, w, u);
      }
    }
  }

  lemma ChildInvariant(g: Graph, reach: set<nat>, s: Search, active: set<nat>, v: nat, w: nat)
    requires g.Valid() && g.Edge(v, w)
    requires Invariant(g, reach, s, active) && v in active && v in s.low
    requires w in s.onStack && w in s.low
    ensures Invariant(g, reach, Lower(s, v, s.low[w]), active)
  {
    hide Reaches, Retired, Settled, Linked, Sound;
    assert Linked(g, s, w);
    var t := LowestReached(g, s, w);
    ReachesNext(g, v, w);
    ReachesTransitive(g, v, w, t);
    if s.low[w] < s.low[v] {
      LowerKeepsInvariant(g, reach, s, active, v, t, s.low[w]);
    } else {
      assert s.low[v := s.low[v]] == s.low;
    }
  }

  lemma LowerExtends(base: Search, s: Search, v: nat, low: nat)
    requires Extends(base, s) && v in s.low && v !in base.disc
    requires forall u :: u in base.onStack ==> u in base.disc
    ensures Extends(base, Lower(s, v, low))
  {
  }

  // A fresh successor, after its own visit.
  lemma ChildReturns(g: Graph, reach: set<nat>, base: Search, s: Search, s': Search, active: set<nat>, v: nat, w: nat)
    requires g.Valid() && g.Edge(v, w)
    requires Visiting(g, reach, base, s, active, v) && v !in base.disc
    requires Sound(base, reach)
    requires w !in s.disc && Visited(g, reach, s, s', active + {v}, w)
    ensures w in s'.low && v in s'.low
    ensures Visiting(g, reach, base, Lower(s', v, s'.low[w]), active, v)
    ensures Covered(Lower(s', v, s'.low[w]), v, w)
  {
    hide Reaches, Invariant, Linked, Sound, Segment, Extends;
    SoundFacts(base, reach);
    InvariantIsSound(g, reach, s, active + {v});
    SoundFacts(s, reach);
    InvariantIsSound(g, reach, s', active + {v});
    SoundFacts(s', reach);
    OldBlockKept(s, s', v);
    ExtendsTwice(base, s, s');
    ChildSegment(g, base, s, s', v, w);
    LowerExtends(base, s', v, s'.low[w]);
    if w in s'.onStack {
      ChildInvariant(g, reach, s', active + {v}, v, w);
      StackIsLinked(g, reach, s', active + {v}, w);
      LowAtMostDisc(g, s', w);
    } else {
      assert s'.low[v := s'.low[v]] == s'.low;
    }
  }

  lemma OldBlockKept(s: Search, s': Search, v: nat)
    requires Extends(s, s') && v in s.onStack && v in s.disc && v in s.low
    ensures v in s'.onStack && v in s'.disc && v in s'.low && s'.disc[v] == s.disc[v] && s'.low[v] == s.low[v]
    ensures s.counter <= s'.counter
  {
  }

  lemma StackIsLinked(g: Graph, reach: set<nat>, s: Search, active: set<nat>, w: nat)
    requires Invariant(g, reach, s, active) && w in s.onStack
    ensures Linked(g, s, w)
  {
  }

  lemma LowAtMostDisc(g: Graph, s: Search, w: nat)
    requires Linked(g, s, w)
    ensures w in s.low && w in s.disc && s.low[w] <= s.disc[w]
  {
  }

  // ---- The end of a visit ----

  lemma CanEndBefore(g: Graph, u: nat, w: nat)
    requires Reaches(g, u, w) && CanEnd(g, w)
    ensures CanEnd(g, u)
  {
    var t: nat :| t < |g.succs| && g.succs[t] == [] && Reaches(g, w, t);
    ReachesTransitive(g, u, w, t);
  }

  // The blocks from the root `v` up: the component the search pops.
  ghost function Above(base: Search, s: Search): set<nat> {
    set u | u in s.onStack && u !in base.disc
  }

  // An edge of the component leads into it or to a popped block.
  lemma ComponentEdges(g: Graph, reach: set<nat>, base: Search, s: Search, active: set<nat>, v: nat, u: nat, w: nat)
    requires Visiting(g, reach, base, s, active, v) && s.low[v] == s.disc[v]
    requires Sound(base, reach) && active <= base.onStack
    requires forall x :: x in g.succs[v] ==> Covered(s, v, x)
    requires v < |g.succs| && u in Above(base, s) && u < |g.succs| && w in g.succs[u]
    ensures w in Above(base, s) || s.Popped(w)
  {
    hide Reaches, Retired, Linked;
    if u != v {
      assert Settled(g, s, u);
    }
  }

  function Pop(base: Search, s: Search): Search {
    s.(stack := base.stack, onStack := s.onStack * base.onStack)
  }

  lemma PopKeepsEach(g: Graph, base: Search, s: Search, u: nat)
    requires Extends(base, s)
    requires forall x :: x in base.onStack ==> x in base.disc
    requires forall x :: x in s.onStack ==> x in s.disc
    requires forall x :: x in base.disc ==> base.disc[x] < base.counter
    ensures Retired(g, s, u) ==> Retired(g, Pop(base, s), u)
    ensures u in base.onStack && Linked(g, s, u) ==> Linked(g, Pop(base, s), u)
    ensures Settled(g, s, u) ==> Settled(g, Pop(base, s), u)
  {
    hide Reaches, CanEnd;
    var s' := Pop(base, s);
    assert forall w: nat :: s.Popped(w) ==> s'.Popped(w);
    if u in base.onStack && Linked(g, s, u) {
      var t := LowestReached(g, s, u);
      assert t in base.disc && t in s'.onStack;
    }
  }

  lemma PopKeepsSound(reach: set<nat>, base: Search, s: Search)
    requires Sound(base, reach) && Sound(s, reach) && Extends(base, s)
    ensures Sound(Pop(base, s), reach)
    ensures Pop(base, s).onStack == base.onStack
  {
    var s' := Pop(base, s);
    assert forall u :: u in base.onStack ==> u in base.disc && u in s.onStack;
    forall i: nat, j: nat | i < j < |s'.stack|
      ensures s'.disc[s'.stack[i]] < s'.disc[s'.stack[j]]
    {
      assert base.stack[i] in base.stack && base.stack[j] in base.stack;
    }
  }

  // Popping a component whose blocks can all end.
  lemma PopKeepsInvariant(g: Graph, reach: set<nat>, base: Search, s: Search, active: set<nat>, v: nat)
    requires Visiting(g, reach, base, s, active, v) && s.low[v] == s.disc[v]
    requires Sound(base, reach) && active <= base.onStack
    requires v < |g.succs| && v !in base.disc && v !in active
    requires forall x :: x in g.succs[v] ==> Covered(s, v, x)
    requires forall u :: u in Above(base, s) ==> CanEnd(g, u)
    ensures Invariant(g, reach, Pop(base, s), active)
  {
    hide Reaches, CanEnd, Linked, Settled, Retired, Sound, Covered, Segment;
    var s' := Pop(base, s);
    SoundFacts(base, reach);
    SoundFacts(s, reach);
    PopKeepsSound(reach, base, s);
    forall u: nat
      ensures s'.Popped(u) ==> Retired(g, s', u)
      ensures u in s'.onStack ==> Linked(g, s', u)
      ensures u in s'.onStack && u !in active ==> Settled(g, s', u)
    {
      PopKeepsEach(g, base, s, u);
      if u in Above(base, s) {
        ComponentRetires(g, reach, base, s, active, v, u);
      }
    }
  }

  lemma ComponentRetires(g: Graph, reach: set<nat>, base: Search, s: Search, active: set<nat>, v: nat, u: nat)
    requires Visiting(g, reach, base, s, active, v) && s.low[v] == s.disc[v]
    requires Sound(base, reach) && active <= base.onStack
    requires v < |g.succs|
    requires forall x :: x in g.succs[v] ==> Covered(s, v, x)
    requires u in Above(base, s) && CanEnd(g, u)
    ensures Retired(g, Pop(base, s), u)
  {
    hide Reaches, CanEnd, Linked, Settled, Sound, Covered, Segment, Invariant;
    if u < |g.succs| {
      forall w | w in g.succs[u]
        ensures Pop(base, s).Popped(w)
      {
        ComponentEdges(g, reach, base, s, active, v, u, w);
        InvariantIsSound(g, reach, s, active + {v});
        SoundFacts(s, reach);
        SoundFacts(base, reach);
      }
    }
  }

  // The blocks of the component reach one another.
  lemma ComponentIsConnected(g: Graph, reach: set<nat>, base: Search, s: Search, active: set<nat>, v: nat, u: nat,
      w: nat)
    requires Visiting(g, reach, base, s, active, v) && s.low[v] == s.disc[v]
    requires Sound(base, reach) && ReachClosed(g, reach) && active <= base.onStack
    requires u in Above(base, s) && w in Above(base, s)
    ensures Reaches(g, u, w)
  {
    hide Reaches, Retired, Linked, Settled;
    SegmentReachesRoot(g, reach, base, s, active, v, u);
    assert Reaches(g, v, w);
    ReachesTransitive(g, u, v, w);
  }

  // One block of the component can end, so all can.
  lemma ComponentCanEnd(g: Graph, reach: set<nat>, base: Search, s: Search, active: set<nat>, v: nat, x: nat)
    requires Visiting(g, reach, base, s, active, v) && s.low[v] == s.disc[v]
    requires Sound(base, reach) && ReachClosed(g, reach) && active <= base.onStack
    requires x in Above(base, s) && CanEnd(g, x)
    ensures forall u :: u in Above(base, s) ==> CanEnd(g, u)
  {
    hide Visiting, Sound, CanEnd, Reaches;
    forall u | u in Above(base, s)
      ensures CanEnd(g, u)
    {
      ComponentIsConnected(g, reach, base, s, active, v, u, x);
      CanEndBefore(g, u, x);
    }
  }

  // No edge leaves a component with a cycle: the loop is found.
  lemma ComponentIsClosedLoop(g: Graph, reach: set<nat>, base: Search, s: Search, active: set<nat>, v: nat)
    requires Visiting(g, reach, base, s, active, v) && s.low[v] == s.disc[v]
    requires Sound(base, reach) && ReachClosed(g, reach) && active <= base.onStack
    requires v !in base.disc && Above(base, s) <= reach
    requires Above(base, s) != {v} || g.Edge(v, v)
    requires forall u, w :: u in Above(base, s) && g.Edge(u, w) ==> w in Above(base, s)
    ensures LoopFound(g, reach)
  {
    hide Reaches, Sound, Invariant;
    var loop := Above(base, s);
    assert v in loop;
    forall u, w | u in loop && w in loop
      ensures Reaches(g, u, w)
    {
      ComponentIsConnected(g, reach, base, s, active, v, u, w);
    }
    forall u | u in loop
      ensures u < |g.succs| && g.succs[u] != []
    {
      if loop == {v} {
        assert g.Edge(v, v);
      } else {
        var w :| w in loop && w != u;
        ReachingTakesAnEdge(g, u, w);
      }
    }
    assert ClosedLoop(g, loop);
  }

  lemma PopsOne(stack: seq<nat>, k: nat, component: set<nat>)
    requires k < |stack| && forall u :: u in component <==> u in stack[k + 1..]
    ensures forall u :: u in component + {stack[k]} <==> u in stack[k..]
  {
    assert stack[k..] == [stack[k]] + stack[k + 1..];
  }

  lemma PopsFrom(stack: seq<nat>, k: nat)
    requires k <= |stack|
    ensures forall u :: u in stack[k..] || u in stack[..k] ==> u in stack
  {
  }

  class TarjanSearch {
    const g: Graph
    const reach: set<nat>
    var s: Search

    constructor (g: Graph, reach: set<nat>)
      ensures this.g == g && this.reach == reach
      ensures s == Search(0, map[], map[], {}, [], false)
    {
      this.g := g;
      this.reach := reach;
      s := Search(0, map[], map[], {}, [], false);
    }

    // The recursive search from `v`, which pops `v`'s component when `v` is
    // its root and sets `found` when no edge leaves a component with a cycle.
    method Visit(v: nat, ghost active: set<nat>)
      requires g.Valid() && ReachClosed(g, reach)
      requires !s.found && Invariant(g, reach, s, active)
      requires v in reach && v !in s.disc
      modifies this
      ensures s.found ==> LoopFound(g, reach)
      ensures !s.found ==> Visited(g, reach, old(s), s, active, v)
      ensures v in s.disc && v in s.low
      ensures old(s).disc.Keys <= s.disc.Keys && old(s).low.Keys <= s.low.Keys
      ensures old(s).stack <= s.stack && (forall u :: u in s.stack ==> u in reach)
      decreases reach - s.disc.Keys, 0
    {
      hide Reaches, Invariant, Visited, Extends, Segment, Covered, LoopFound, ReachClosed, Sound;
      ghost var base := s;
      ghost var stacked := base.stack + [v];
      s := Enter(s, v);
      StartVisiting(g, reach, base, active, v);
      for i := 0 to |g.succs[v]|
        invariant v in s.disc && v in s.low
        invariant base.disc.Keys <= s.disc.Keys && base.low.Keys <= s.low.Keys
        invariant stacked <= s.stack && (forall u :: u in s.stack ==> u in reach)
        invariant s.found ==> LoopFound(g, reach)
        invariant !s.found ==> Visiting(g, reach, base, s, active, v) && CoveredUpTo(g, s, v, i)
      {
        VisitEdge(v, i, base, stacked, active);
      }
      if s.low[v] == s.disc[v] {
        CloseComponent(v, base, active);
      } else if !s.found {
        LeaveVisit(g, reach, base, s, active, v);
      }
    }

    // One edge out of `v`: down a tree edge, or back within the stack.
    method VisitEdge(v: nat, i: nat, ghost base: Search, ghost stacked: seq<nat>, ghost active: set<nat>)
      requires g.Valid() && ReachClosed(g, reach)
      requires v in reach && v < |g.succs| && i < |g.succs[v]|
      requires v in s.disc && v in s.low && v !in base.disc
      requires base.disc.Keys <= s.disc.Keys && base.low.Keys <= s.low.Keys
      requires stacked <= s.stack && (forall u :: u in s.stack ==> u in reach)
      requires s.found ==> LoopFound(g, reach)
      requires !s.found ==> Visiting(g, reach, base, s, active, v) && CoveredUpTo(g, s, v, i)
      requires Sound(base, reach) && active <= base.onStack && v !in active
      modifies this
      ensures v in s.disc && v in s.low
      ensures base.disc.Keys <= s.disc.Keys && base.low.Keys <= s.low.Keys && old(s).disc.Keys <= s.disc.Keys
      ensures stacked <= s.stack && (forall u :: u in s.stack ==> u in reach)
      ensures s.found ==> LoopFound(g, reach)
      ensures !s.found ==> Visiting(g, reach, base, s, active, v) && CoveredUpTo(g, s, v, i + 1)
      decreases reach - s.disc.Keys, 1
    {
      hide Reaches, Invariant, Visited, Extends, Segment, Covered, LoopFound, ReachClosed, Sound;
      var w := g.succs[v][i];
      ghost var before := s;
      SuccessorsAreReached(g, reach, v, i);
      if s.found || w !in reach {
        return;
      }
      if w !in s.disc {
        Visit(w, active + {v});
        if !s.found {
          ChildStep(g, reach, base, before, s, active, v, i);
        }
        s := Lower(s, v, s.low[w]);
      } else if w in s.onStack {
        BackEdgeStep(g, reach, base, s, active, v, i);
        s := Lower(s, v, s.disc[w]);
      } else {
        CrossEdgeStep(g, s, v, i);
      }
    }

    // `v` is a root: its component leaves the stack, and is a closed loop if
    // it goes round and nothing leaves it.
    method CloseComponent(v: nat, ghost base: Search, ghost active: set<nat>)
      requires g.Valid() && ReachClosed(g, reach)
      requires v in reach && v < |g.succs| && v in s.disc && v in s.low && s.low[v] == s.disc[v] && v !in base.disc
      requires base.disc.Keys <= s.disc.Keys && base.low.Keys <= s.low.Keys
      requires base.stack + [v] <= s.stack && (forall u :: u in s.stack ==> u in reach)
      requires s.found ==> LoopFound(g, reach)
      requires !s.found ==> Visiting(g, reach, base, s, active, v) && CoveredUpTo(g, s, v, |g.succs[v]|)
      requires Sound(base, reach) && active <= base.onStack && v !in active
      modifies this
      ensures s.found ==> LoopFound(g, reach)
      ensures !s.found ==> Visited(g, reach, base, s, active, v)
      ensures v in s.disc && v in s.low
      ensures base.disc.Keys <= s.disc.Keys && base.low.Keys <= s.low.Keys
      ensures base.stack <= s.stack && (forall u :: u in s.stack ==> u in reach)
    {
      hide Reaches, Invariant, Visited, Extends, Segment, Covered, LoopFound, ReachClosed, Sound;
      ghost var top := s;
      var component := PopComponent(v, |base.stack|);
      if !s.found {
        ComponentPopped(g, reach, base, top, active, v, |s.stack|, component);
      }
      var selfLoop := HasSelfLoop(v);
      if |component| == 1 && !selfLoop {
        if !s.found {
          LoneBlockEnds(g, reach, base, top, active, v, component);
        }
        return;
      }
      var exitFrom := FindExit(component);
      if exitFrom.Some? {
        if !s.found {
          ExitEnds(g, reach, base, top, active, v, exitFrom.value.0, exitFrom.value.1);
        }
        return;
      }
      if !s.found {
        ComponentIsClosedLoop(g, reach, base, top, active, v);
      }
      s := s.(found := true);
    }

    // Pops the stack down to `v`.
    method PopComponent(v: nat, ghost depth: nat) returns (component: set<nat>)
      requires depth < |s.stack| && s.stack[depth] == v
      modifies this
      ensures s == old(s).(stack := s.stack, onStack := old(s).onStack - component)
      ensures depth <= |s.stack| < |old(s).stack| && s.stack == old(s).stack[..|s.stack|]
      ensures old(s).stack[|s.stack|] == v
      ensures forall u :: u in component <==> u in old(s).stack[|s.stack|..]
      ensures forall u :: u in component || u in s.stack ==> u in old(s).stack
    {
      ghost var top := s;
      var w := s.stack[|s.stack| - 1];
      s := s.(stack := s.stack[..|s.stack| - 1], onStack := s.onStack - {w});
      component := {w};
      while w != v
        invariant s == top.(stack := s.stack, onStack := top.onStack - component)
        invariant depth <= |s.stack| < |top.stack| && s.stack == top.stack[..|s.stack|]
        invariant w == top.stack[|s.stack|] && (w != v ==> depth < |s.stack|)
        invariant forall u :: u in component <==> u in top.stack[|s.stack|..]
        decreases |s.stack|
      {
        w := s.stack[|s.stack| - 1];
        PopsOne(top.stack, |s.stack| - 1, component);
        s := s.(stack := s.stack[..|s.stack| - 1], onStack := s.onStack - {w});
        component := component + {w};
      }
      PopsFrom(top.stack, |s.stack|);
    }

    method HasSelfLoop(v: nat) returns (r: bool)
      requires v < |g.succs|
      ensures r <==> g.Edge(v, v)
    {
      for i := 0 to |g.succs[v]|
        invariant v !in g.succs[v][..i]
      {
        if g.succs[v][i] == v {
          return true;
        }
      }
      assert g.succs[v][..|g.succs[v]|] == g.succs[v];
      r := false;
    }

    // An edge from the component to a reachable block outside it.
    method FindExit(component: set<nat>) returns (r: Option<(nat, nat)>)
      requires ReachClosed(g, reach) && component <= reach
      ensures r.Some? ==> r.value.0 in component && g.Edge(r.value.0, r.value.1) && r.value.1 !in component
      ensures r.None? ==> forall u, w :: u in component && g.Edge(u, w) ==> w in component
    {
      var rest := component;
      while rest != {}
        invariant rest <= component
        invariant forall u, w :: u in component && u !in rest && g.Edge(u, w) ==> w in component
      {
        var b :| b in rest;
        rest := rest - {b};
        for i := 0 to |g.succs[b]|
          invariant forall j: nat :: j < i ==> g.succs[b][j] in component
        {
          var t := g.succs[b][i];
          assert g.Edge(b, t);
          if t in reach && t !in component {
            return Some((b, t));
          }
        }
      }
      r := None;
    }
  }

  // hasUnbreakableLoop, on the blocks computeReachability marked: true exactly
  // when some of them lie on a loop nothing leaves, or equivalently when one
  // of them can reach no block without a successor.
  method HasUnbreakableLoop(g: Graph, reach: set<nat>) returns (r: bool)
    requires g.Valid() && ReachClosed(g, reach)
    ensures r <==> exists loop: set<nat> :: loop <= reach && ClosedLoop(g, loop)
    ensures r <==> exists u :: u in reach && !CanEnd(g, u)
  {
    hide Reaches, Retired, Linked, Settled, Visited, ClosedLoop;
    var search := new TarjanSearch(g, reach);
    assert Invariant(g, reach, search.s, {});
    for b := 0 to |g.succs|
      invariant !search.s.found && search.g == g && search.reach == reach
      invariant Invariant(g, reach, search.s, {})
      invariant forall u: nat :: u < b && u in reach ==> u in search.s.disc
    {
      if b in reach && b !in search.s.disc {
        ghost var before := search.s;
        search.Visit(b, {});
        if search.s.found {
          LoopMeansNoEnd(g, reach);
          return true;
        }
        VisitedKeeps(g, reach, before, search.s, b);
      }
    }
    AllRetired(g, reach, search.s);
    r := false;
  }

  lemma VisitedKeeps(g: Graph, reach: set<nat>, s: Search, s': Search, v: nat)
    requires Visited(g, reach, s, s', {}, v)
    ensures Invariant(g, reach, s', {}) && v in s'.disc
    ensures forall u :: u in s.disc ==> u in s'.disc
  {
  }

  lemma LoopMeansNoEnd(g: Graph, reach: set<nat>)
    requires LoopFound(g, reach)
    ensures exists u :: u in reach && !CanEnd(g, u)
    ensures exists loop: set<nat> :: loop <= reach && ClosedLoop(g, loop)
  {
    var loop: set<nat> :| loop <= reach && ClosedLoop(g, loop);
    var u :| u in loop;
    ClosedLoopNeverEnds(g, loop, u);
  }

  lemma SettledHangsOnOlder(g: Graph, reach: set<nat>, s: Search, u: nat) returns (t: nat)
    requires Invariant(g, reach, s, {}) && u in s.onStack && u in s.disc
    ensures t in s.onStack && t in s.disc && s.disc[t] < s.disc[u]
  {
    assert Settled(g, s, u) && Linked(g, s, u);
    t := LowestReached(g, s, u);
  }

  lemma NoneIsOldest(g: Graph, reach: set<nat>, s: Search, u: nat)
    requires Invariant(g, reach, s, {}) && u in s.disc
    ensures u !in s.onStack
    decreases s.disc[u]
  {
    if u in s.onStack {
      var t := SettledHangsOnOlder(g, reach, s, u);
      NoneIsOldest(g, reach, s, t);
    }
  }

  // With every call returned nothing can be left on the stack: its oldest
  // block would hang below an older one.
  lemma AllRetired(g: Graph, reach: set<nat>, s: Search)
    requires Invariant(g, reach, s, {}) && ReachClosed(g, reach)
    requires forall u: nat :: u < |g.succs| && u in reach ==> u in s.disc
    ensures forall u :: u in reach ==> CanEnd(g, u)
    ensures !exists loop: set<nat> :: loop <= reach && ClosedLoop(g, loop)
  {
    hide Reaches, ClosedLoop, CanEnd;
    forall u | u in reach
      ensures CanEnd(g, u)
    {
      NoneIsOldest(g, reach, s, u);
      assert s.Popped(u);
      assert Retired(g, s, u);
    }
    forall loop: set<nat> | loop <= reach && ClosedLoop(g, loop)
      ensures false
    {
      LoopHasMember(g, loop);
      var u :| u in loop;
      ClosedLoopNeverEnds(g, loop, u);
    }
  }

  lemma LoopHasMember(g: Graph, loop: set<nat>)
    requires ClosedLoop(g, loop)
    ensures loop != {}
  {
  }

  ghost predicate CoveredUpTo(g: Graph, s: Search, v: nat, i: nat) {
    v < |g.succs| && i <= |g.succs[v]| && forall j: nat :: j < i ==> Covered(s, v, g.succs[v][j])
  }

  lemma SuccessorsAreReached(g: Graph, reach: set<nat>, v: nat, i: nat)
    requires ReachClosed(g, reach) && v in reach && v < |g.succs| && i < |g.succs[v]|
    ensures g.succs[v][i] in reach
  {
    assert g.Edge(v, g.succs[v][i]);
  }

  lemma CoveredPrefixStays(g: Graph, s: Search, s': Search, v: nat, i: nat)
    requires CoveredUpTo(g, s, v, i)
    requires v in s.low && v in s'.low && s'.low[v] <= s.low[v]
    requires forall u :: u in s.disc ==> u in s'.disc && s'.disc[u] == s.disc[u] && (u in s'.onStack ==> u in s.onStack)
    ensures CoveredUpTo(g, s', v, i)
  {
  }

  lemma ChildStep(g: Graph, reach: set<nat>, base: Search, s: Search, s': Search, active: set<nat>, v: nat, i: nat)
    requires g.Valid() && Sound(base, reach) && v !in base.disc
    requires Visiting(g, reach, base, s, active, v) && CoveredUpTo(g, s, v, i) && i < |g.succs[v]|
    requires g.succs[v][i] !in s.disc && Visited(g, reach, s, s', active + {v}, g.succs[v][i])
    ensures v in s'.low && g.succs[v][i] in s'.low
    ensures Visiting(g, reach, base, Lower(s', v, s'.low[g.succs[v][i]]), active, v)
    ensures CoveredUpTo(g, Lower(s', v, s'.low[g.succs[v][i]]), v, i + 1)
  {
    hide Invariant, Segment, Reaches, Sound;
    var w := g.succs[v][i];
    ChildReturns(g, reach, base, s, s', active, v, w);
    CoveredPrefixStays(g, s, Lower(s', v, s'.low[w]), v, i);
  }

  lemma BackEdgeStep(g: Graph, reach: set<nat>, base: Search, s: Search, active: set<nat>, v: nat, i: nat)
    requires g.Valid() && Sound(base, reach) && v !in base.disc
    requires Visiting(g, reach, base, s, active, v) && CoveredUpTo(g, s, v, i) && i < |g.succs[v]|
    requires g.succs[v][i] in s.disc && g.succs[v][i] in s.onStack
    ensures Visiting(g, reach, base, Lower(s, v, s.disc[g.succs[v][i]]), active, v)
    ensures CoveredUpTo(g, Lower(s, v, s.disc[g.succs[v][i]]), v, i + 1)
  {
    hide Invariant, Segment, Reaches, Extends, Sound;
    var w := g.succs[v][i];
    SoundFacts(base, reach);
    BackEdge(g, reach, base, s, active, v, w);
    CoveredPrefixStays(g, s, Lower(s, v, s.disc[w]), v, i);
  }

  lemma CrossEdgeStep(g: Graph, s: Search, v: nat, i: nat)
    requires CoveredUpTo(g, s, v, i) && v < |g.succs| && i < |g.succs[v]| && v in s.low
    requires g.succs[v][i] in s.disc && g.succs[v][i] !in s.onStack
    ensures CoveredUpTo(g, s, v, i + 1)
  {
  }

  lemma AllCovered(g: Graph, s: Search, v: nat)
    requires v < |g.succs| && CoveredUpTo(g, s, v, |g.succs[v]|)
    ensures forall x :: x in g.succs[v] ==> Covered(s, v, x)
  {
  }

  lemma OnePosition(s: Search, reach: set<nat>, i: nat, j: nat)
    requires Sound(s, reach) && i < |s.stack| && j < |s.stack| && s.stack[i] == s.stack[j]
    ensures i == j
  {
  }

  // The stack from `v`'s position up holds the blocks discovered since.
  lemma AboveIsSuffix(base: Search, s: Search, reach: set<nat>, v: nat, i: nat)
    requires Sound(s, reach) && Sound(base, reach) && Extends(base, s)
    requires base.stack + [v] <= s.stack && v in s.disc && s.disc[v] == base.counter
    requires i < |s.stack|
    ensures s.stack[i] in Above(base, s) <==> |base.stack| <= i
    ensures s.stack[i] in base.onStack <==> i < |base.stack|
  {
    var k := |base.stack|;
    assert s.stack[k] == v;
    assert s.stack[i] in s.stack;
    if i < k {
      assert s.stack[i] == base.stack[i];
      assert base.stack[i] in base.stack;
    } else {
      assert s.disc[s.stack[i]] >= s.disc[s.stack[k]];
    }
  }

  // What the stack loop took off is the component.
  lemma ComponentPopped(g: Graph, reach: set<nat>, base: Search, s: Search, active: set<nat>, v: nat, m: nat,
      component: set<nat>)
    requires Visiting(g, reach, base, s, active, v) && Sound(base, reach)
    requires base.stack + [v] <= s.stack
    requires |base.stack| <= m < |s.stack| && s.stack[m] == v
    requires forall u :: u in component <==> u in s.stack[m..]
    ensures m == |base.stack| && component == Above(base, s)
    ensures component <= reach
    ensures s.(stack := s.stack[..m], onStack := s.onStack - component) == Pop(base, s)
  {
    hide Invariant, Segment, Extends, Above, Sound;
    InvariantIsSound(g, reach, s, active + {v});
    SoundFacts(s, reach);
    OnePosition(s, reach, |base.stack|, m);
    OnStackIsStack(s, reach);
    forall i: nat | i < |s.stack|
      ensures s.stack[i] in Above(base, s) <==> m <= i
      ensures s.stack[i] in base.onStack <==> i < m
      ensures s.stack[i] in component <==> m <= i
    {
      AboveIsSuffix(base, s, reach, v, i);
      if s.stack[i] in component {
        var j :| 0 <= j < |s.stack| - m && s.stack[m..][j] == s.stack[i];
        OnePosition(s, reach, m + j, i);
      }
    }
    AboveIsOnStack(base, s);
    assert forall u :: u in component ==> u in s.stack;
    assert s.stack[..m] == base.stack;
  }

  lemma AboveIsOnStack(base: Search, s: Search)
    ensures Above(base, s) <= s.onStack
  {
  }

  lemma OnStackIsStack(s: Search, reach: set<nat>)
    requires Sound(s, reach)
    ensures forall u :: u in s.onStack <==> exists i: nat :: i < |s.stack| && s.stack[i] == u
  {
  }

  lemma VisitEnds(g: Graph, reach: set<nat>, base: Search, s: Search, active: set<nat>, v: nat)
    requires Visiting(g, reach, base, s, active, v) && s.low[v] == s.disc[v]
    requires Sound(base, reach) && active <= base.onStack
    requires v < |g.succs| && v !in base.disc
    requires CoveredUpTo(g, s, v, |g.succs[v]|)
    requires forall u :: u in Above(base, s) ==> CanEnd(g, u)
    ensures Visited(g, reach, base, Pop(base, s), active, v)
  {
    hide Invariant, Reaches, CanEnd, Above;
    AllCovered(g, s, v);
    SoundFacts(base, reach);
    PopKeepsInvariant(g, reach, base, s, active, v);
    InvariantIsSound(g, reach, s, active + {v});
    PopKeepsSound(reach, base, s);
  }

  lemma LoneBlockEnds(g: Graph, reach: set<nat>, base: Search, s: Search, active: set<nat>, v: nat, component: set<nat>)
    requires Visiting(g, reach, base, s, active, v) && s.low[v] == s.disc[v]
    requires g.Valid() && Sound(base, reach) && ReachClosed(g, reach) && active <= base.onStack
    requires v < |g.succs| && v !in base.disc
    requires CoveredUpTo(g, s, v, |g.succs[v]|)
    requires component == Above(base, s) && |component| == 1 && !g.Edge(v, v)
    ensures Visited(g, reach, base, Pop(base, s), active, v)
  {
    hide Invariant, Reaches, CanEnd, Sound, Segment, Extends;
    assert v in component;
    OnlyMember(component, v);
    if g.succs[v] == [] {
      EndsHere(g, v);
    } else {
      var w := g.succs[v][0];
      assert g.Edge(v, w);
      ExitCanEnd(g, reach, base, s, active, v, v, w);
    }
    VisitEnds(g, reach, base, s, active, v);
  }

  lemma EndsHere(g: Graph, v: nat)
    requires v < |g.succs| && g.succs[v] == []
    ensures CanEnd(g, v)
  {
    ReachesSelf(g, v);
  }

  lemma OnlyMember(c: set<nat>, v: nat)
    requires |c| == 1 && v in c
    ensures c == {v}
  {
    assert |c - {v}| == 0;
  }

  // An edge out of the component leads to a popped block, which can end.
  lemma ExitCanEnd(g: Graph, reach: set<nat>, base: Search, s: Search, active: set<nat>, v: nat, u: nat, w: nat)
    requires Visiting(g, reach, base, s, active, v) && s.low[v] == s.disc[v]
    requires g.Valid() && Sound(base, reach) && ReachClosed(g, reach) && active <= base.onStack
    requires v < |g.succs| && v !in base.disc
    requires CoveredUpTo(g, s, v, |g.succs[v]|)
    requires u in Above(base, s) && g.Edge(u, w) && w !in Above(base, s)
    ensures CanEnd(g, u)
  {
    hide Reaches, CanEnd, Sound, Segment, Extends, Linked, Settled;
    AllCovered(g, s, v);
    ComponentEdges(g, reach, base, s, active, v, u, w);
    assert Retired(g, s, w);
    ReachesNext(g, u, w);
    CanEndBefore(g, u, w);
  }

  lemma ExitEnds(g: Graph, reach: set<nat>, base: Search, s: Search, active: set<nat>, v: nat, u: nat, w: nat)
    requires Visiting(g, reach, base, s, active, v) && s.low[v] == s.disc[v]
    requires g.Valid() && Sound(base, reach) && ReachClosed(g, reach) && active <= base.onStack
    requires v < |g.succs| && v !in base.disc
    requires CoveredUpTo(g, s, v, |g.succs[v]|)
    requires u in Above(base, s) && g.Edge(u, w) && w !in Above(base, s)
    ensures Visited(g, reach, base, Pop(base, s), active, v)
  {
    hide Visiting, Sound, CanEnd, Reaches, CoveredUpTo, Above;
    ExitCanEnd(g, reach, base, s, active, v, u, w);
    ComponentCanEnd(g, reach, base, s, active, v, u);
    VisitEnds(g, reach, base, s, active, v);
  }

  lemma LeaveVisit(g: Graph, reach: set<nat>, base: Search, s: Search, active: set<nat>, v: nat)
    requires Visiting(g, reach, base, s, active, v) && s.low[v] != s.disc[v]
    requires v < |g.succs| && CoveredUpTo(g, s, v, |g.succs[v]|)
    ensures Visited(g, reach, base, s, active, v)
  {
    hide Invariant, Reaches, Segment, Extends;
    AllCovered(g, s, v);
    LeaveKeepsInvariant(g, reach, s, active, v);
  }

  lemma StartVisiting(g: Graph, reach: set<nat>, base: Search, active: set<nat>, v: nat)
    requires ReachClosed(g, reach) && Invariant(g, reach, base, active)
    requires v in reach && v !in base.disc
    ensures Visiting(g, reach, base, Enter(base, v), active, v)
    ensures v < |g.succs| && Sound(base, reach) && active <= base.onStack && v !in active
    ensures forall u :: u in Enter(base, v).stack ==> u in reach
    ensures CoveredUpTo(g, Enter(base, v), v, 0)
  {
    hide Reaches, Retired, Linked, Settled;
    EnterKeepsInvariant(g, reach, base, active, v);
    EnterKeepsSound(base, reach, v);
  }
}
