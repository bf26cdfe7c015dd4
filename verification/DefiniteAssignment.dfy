// DefiniteAssignmentPass: a read is an error exactly when some path from the
// entry reaches it with the variable never assigned.
module DefiniteAssignment {
  import opened Graph
  import opened Events
  import opened MustFlow

  // OUT[b] = IN[b] with the block's definitions added, on every edge.
  function Through(blocks: seq<seq<Event>>): Transfer {
    (p: nat, i: nat, s: set<nat>) => if p < |blocks| then s + Defs(blocks[p]) else s
  }

  // The path definition: control can reach event `k` of block `b` with `v`
  // unassigned.
  ghost predicate MissesDef(blocks: seq<seq<Event>>, p: seq<nat>, v: nat) {
    forall i :: 0 <= i < |p| && p[i] < |blocks| ==> v !in Defs(blocks[p[i]])
  }

  ghost predicate ReachableUnassigned(g: Graph, blocks: seq<seq<Event>>, entry: nat, b: nat, v: nat) {
    exists p :: PathBetween(g, p, entry, b) && MissesDef(blocks, p[..|p| - 1], v)
  }

  ghost predicate UseBeforeAssignment(g: Graph, blocks: seq<seq<Event>>, entry: nat, declared: set<nat>, b: nat,
      k: nat) {
    && b < |blocks| && k < |blocks[b]| && blocks[b][k].Read? && blocks[b][k].v in declared
    && ReachableUnassigned(g, blocks, entry, b, blocks[b][k].v)
    && blocks[b][k].v !in Defs(blocks[b][..k])
  }

  lemma ThroughIsMonotone(blocks: seq<seq<Event>>, top: set<nat>)
    ensures Monotone(Through(blocks), top)
  {
  }

  // Along any path the fixed point's facts come from a definition passed.
  lemma FactsAreAssigned(g: Graph, blocks: seq<seq<Event>>, entry: nat, top: set<nat>, facts: seq<set<nat>>,
      p: seq<nat>, n: nat, v: nat)
    requires |blocks| == |g.succs| && entry < |g.succs|
    requires Solution(g, entry, top, {}, Through(blocks), facts)
    requires IsPath(g, p) && p[0] == entry && n < |p|
    requires v in facts[p[n]]
    ensures !MissesDef(blocks, p[..n], v)
    decreases n
  {
    if n > 0 {
      assert g.Edge(p[n - 1], p[n - 1 + 1]);
      var i :| 0 <= i < |g.succs[p[n - 1]]| && g.succs[p[n - 1]][i] == p[n];
      assert p[n] != entry;
      if v in Defs(blocks[p[n - 1]]) {
        assert p[..n][n - 1] == p[n - 1];
      } else {
        FactsAreAssigned(g, blocks, entry, top, facts, p, n - 1, v);
        var j :| 0 <= j < n - 1 && p[..n - 1][j] < |blocks| && v in Defs(blocks[p[..n - 1][j]]);
        assert p[..n][j] == p[..n - 1][j];
      }
    }
  }

  ghost function PathFacts(g: Graph, blocks: seq<seq<Event>>, entry: nat, top: set<nat>): seq<set<nat>> {
    seq(|g.succs|, b requires 0 <= b < |g.succs| => set v | v in top && !ReachableUnassigned(g, blocks, entry, b, v))
  }

  // The path definition solves the flow equations.
  lemma PathFactsAreSolution(g: Graph, blocks: seq<seq<Event>>, entry: nat, top: set<nat>)
    requires g.Valid() && |blocks| == |g.succs| && entry < |g.succs|
    ensures Solution(g, entry, top, {}, Through(blocks), PathFacts(g, blocks, entry, top))
  {
    var facts := PathFacts(g, blocks, entry, top);
    forall v
      ensures ReachableUnassigned(g, blocks, entry, entry, v)
    {
      assert PathBetween(g, [entry], entry, entry) && MissesDef(blocks, [entry][..0], v);
    }
    forall q: nat, i: nat, v | q < |g.succs| && i < |g.succs[q]| && v in facts[g.succs[q][i]]
      ensures v in facts[q] + Defs(blocks[q])
    {
      if v !in Defs(blocks[q]) && ReachableUnassigned(g, blocks, entry, q, v) {
        UnassignedFlows(g, blocks, entry, q, g.succs[q][i], v);
      }
    }
  }

  lemma UnassignedFlows(g: Graph, blocks: seq<seq<Event>>, entry: nat, q: nat, b: nat, v: nat)
    requires g.Valid() && g.Edge(q, b) && |blocks| == |g.succs|
    requires v !in Defs(blocks[q]) && ReachableUnassigned(g, blocks, entry, q, v)
    ensures ReachableUnassigned(g, blocks, entry, b, v)
  {
    var p :| PathBetween(g, p, entry, q) && MissesDef(blocks, p[..|p| - 1], v);
    var longer := p + [b];
    assert PathBetween(g, p, entry, q) && PathBetween(g, [q, b], q, b);
    PathsJoin(g, p, [q, b], entry, q, b);
    assert p + [q, b][1..] == longer;
    assert longer[..|longer| - 1] == p;
    forall i | 0 <= i < |p| && p[i] < |blocks|
      ensures v !in Defs(blocks[p[i]])
    {
      assert i < |p| - 1 ==> p[..|p| - 1][i] == p[i];
    }
  }

  // The greatest fixed point is the meet over all paths.
  lemma FixpointIsPathFacts(g: Graph, blocks: seq<seq<Event>>, entry: nat, top: set<nat>, facts: seq<set<nat>>)
    requires g.Valid() && |blocks| == |g.succs| && entry < |g.succs|
    requires Solution(g, entry, top, {}, Through(blocks), facts)
    requires forall other :: Solution(g, entry, top, {}, Through(blocks), other) ==> Below(other, facts)
    ensures facts == PathFacts(g, blocks, entry, top)
  {
    PathFactsAreSolution(g, blocks, entry, top);
    var exact := PathFacts(g, blocks, entry, top);
    assert Below(exact, facts);
    forall b: nat | b < |facts|
      ensures facts[b] == exact[b]
    {
      forall v | v in facts[b]
        ensures !ReachableUnassigned(g, blocks, entry, b, v)
      {
        forall p | PathBetween(g, p, entry, b)
          ensures !MissesDef(blocks, p[..|p| - 1], v)
        {
          FactsAreAssigned(g, blocks, entry, top, facts, p, |p| - 1, v);
        }
      }
    }
  }

  // The pass: solve, then walk every block once more and report.
  method Run(g: Graph, entry: nat, blocks: seq<seq<Event>>, declared: set<nat>) returns (errors: set<(nat, nat)>)
    requires g.Valid() && |blocks| == |g.succs| && entry < |g.succs|
    ensures forall b: nat, k: nat :: (b, k) in errors <==> UseBeforeAssignment(g, blocks, entry, declared, b, k)
  {
    hide Monotone, Solution, ReachableUnassigned, Through;
    ThroughIsMonotone(blocks, declared);
    var facts := Solve(g, entry, declared, {}, Through(blocks));
    FixpointIsPathFacts(g, blocks, entry, declared, facts);
    errors := {};
    for b := 0 to |blocks|
      invariant forall c: nat, k: nat :: (c, k) in errors <==> c < b && UseBeforeAssignment(g, blocks, entry, declared, c, k)
    {
      var cur := facts[b];
      ghost var before := errors;
      for k := 0 to |blocks[b]|
        invariant cur == facts[b] + Defs(blocks[b][..k])
        invariant forall c: nat, j: nat :: (c, j) in errors <==>
          (c, j) in before || (c == b && j < k && UseBeforeAssignment(g, blocks, entry, declared, c, j))
      {
        var e := blocks[b][k];
        DefsStep(blocks[b], k);
        if e.Read? {
          if e.v in declared && e.v !in cur {
            errors := errors + {(b, k)};
          }
        } else {
          cur := cur + {e.v};
        }
      }
      assert blocks[b][..|blocks[b]|] == blocks[b];
    }
  }

  // ConstructorFieldAssignmentPass: the same flow over fields of `self`. A
  // required field is missing exactly when the constructor can end with it
  // never assigned.
  method MissingFields(g: Graph, entry: nat, exit: nat, blocks: seq<seq<Event>>,
      required: seq<nat>) returns (missing: seq<nat>)
    requires g.Valid() && |blocks| == |g.succs| && entry < |g.succs| && exit < |g.succs|
    ensures forall f :: f in missing <==> f in required && ReachableUnassigned(g, blocks, entry, exit, f)
  {
    hide Monotone, Solution, ReachableUnassigned, Through;
    missing := [];
    if required == [] {
      return;
    }
    var all := set f | f in required;
    ThroughIsMonotone(blocks, all);
    var facts := Solve(g, entry, all, {}, Through(blocks));
    FixpointIsPathFacts(g, blocks, entry, all, facts);
    for i := 0 to |required|
      invariant forall f :: f in missing <==> f in required[..i] && ReachableUnassigned(g, blocks, entry, exit, f)
    {
      assert required[i] in all;
      if required[i] !in facts[exit] {
        missing := missing + [required[i]];
      }
    }
  }
}
