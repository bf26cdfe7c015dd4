// Control-flow graphs as successor lists, and paths in them.
module Graph {

  // Block `b`'s successors, in the order their edges were added.
  datatype Graph = Graph(succs: seq<seq<nat>>)
  {
    ghost predicate Valid() {
      forall b: nat, i: nat :: b < |succs| && i < |succs[b]| ==> succs[b][i] < |succs|
    }

    predicate Edge(u: nat, v: nat) {
      u < |succs| && v in succs[u]
    }
  }

  ghost predicate IsPath(g: Graph, p: seq<nat>) {
    && |p| > 0
    && (forall i :: 0 <= i < |p| ==> p[i] < |g.succs|)
    && forall i :: 0 <= i < |p| - 1 ==> g.Edge(p[i], p[i + 1])
  }

  ghost predicate PathBetween(g: Graph, p: seq<nat>, u: nat, v: nat) {
    IsPath(g, p) && p[0] == u && p[|p| - 1] == v
  }

  ghost predicate Reaches(g: Graph, u: nat, v: nat) {
    exists p :: PathBetween(g, p, u, v)
  }

  lemma ReachesSelf(g: Graph, u: nat)
    requires u < |g.succs|
    ensures Reaches(g, u, u)
  {
    assert PathBetween(g, [u], u, u);
  }

  lemma ReachesNext(g: Graph, u: nat, v: nat)
    requires g.Valid() && g.Edge(u, v)
    ensures Reaches(g, u, v)
  {
    assert PathBetween(g, [u, v], u, v);
  }

  lemma PathsJoin(g: Graph, p: seq<nat>, q: seq<nat>, u: nat, v: nat, w: nat)
    requires PathBetween(g, p, u, v) && PathBetween(g, q, v, w)
    ensures PathBetween(g, p + q[1..], u, w)
  {
    var r := p + q[1..];
    forall i | 0 <= i < |r| - 1
      ensures g.Edge(r[i], r[i + 1])
    {
      if i < |p| - 1 {
        assert g.Edge(p[i], p[i + 1]);
      } else {
        assert g.Edge(q[i - (|p| - 1)], q[i - (|p| - 1) + 1]);
      }
    }
  }

  lemma ReachesTransitive(g: Graph, u: nat, v: nat, w: nat)
    requires Reaches(g, u, v) && Reaches(g, v, w)
    ensures Reaches(g, u, w)
  {
    var p :| PathBetween(g, p, u, v);
    var q :| PathBetween(g, q, v, w);
    PathsJoin(g, p, q, u, v, w);
  }

  lemma ReachesFurther(g: Graph, u: nat, v: nat, w: nat)
    requires g.Valid() && Reaches(g, u, v) && g.Edge(v, w)
    ensures Reaches(g, u, w)
  {
    ReachesNext(g, v, w);
    ReachesTransitive(g, u, v, w);
  }

  // A set closed under edges holds every block a member reaches.
  lemma ClosedSetIsNeverLeft(g: Graph, inside: set<nat>, u: nat, v: nat)
    requires forall x, y :: x in inside && g.Edge(x, y) ==> y in inside
    requires u in inside && Reaches(g, u, v)
    ensures v in inside
  {
    var p :| PathBetween(g, p, u, v);
    for i := 0 to |p| - 1
      invariant p[i] in inside
    {
      assert g.Edge(p[i], p[i + 1]);
    }
  }

  // A block that reaches a different one has a successor.
  lemma ReachingTakesAnEdge(g: Graph, u: nat, v: nat)
    requires Reaches(g, u, v) && u != v
    ensures u < |g.succs| && g.succs[u] != []
  {
    var p :| PathBetween(g, p, u, v);
    assert g.Edge(p[0], p[0 + 1]);
  }

  // computeReachability: breadth-first search from the entry block.
  method ComputeReachability(g: Graph, entry: nat) returns (reachable: set<nat>)
    requires g.Valid() && entry < |g.succs|
    ensures forall b: nat :: b in reachable <==> Reaches(g, entry, b)
  {
    hide Reaches;
    reachable := {entry};
    var worklist := [entry];
    ReachesSelf(g, entry);
    ghost var all := set b: nat {:trigger g.succs[b]} | b < |g.succs|;
    while worklist != []
      invariant reachable <= all
      invariant entry in reachable
      invariant forall b: nat :: b in reachable ==> Reaches(g, entry, b)
      invariant forall b :: b in worklist ==> b in reachable
      invariant forall u, v :: u in reachable && u !in worklist && g.Edge(u, v) ==> v in reachable
      decreases all - reachable, |worklist|
    {
      hide IsPath, PathBetween;
      var current := worklist[0];
      assert worklist == [current] + worklist[1..];
      ghost var waiting := worklist[1..];
      ghost var before := reachable;
      worklist := worklist[1..];
      assert current in all;
      for i := 0 to |g.succs[current]|
        invariant before <= reachable <= all
        invariant reachable == before ==> worklist == waiting
        invariant entry in reachable
        invariant forall b: nat :: b in reachable ==> Reaches(g, entry, b)
        invariant forall b :: b in worklist ==> b in reachable
        invariant forall b :: b in waiting ==> b in worklist
        invariant forall b :: b in reachable && b !in before ==> b in worklist
        invariant forall j :: 0 <= j < i ==> g.succs[current][j] in reachable
      {
        var s := g.succs[current][i];
        if s !in reachable {
          assert g.Edge(current, s);
          ReachesFurther(g, entry, current, s);
          reachable := reachable + {s};
          worklist := worklist + [s];
        }
      }
    }
    forall b: nat | Reaches(g, entry, b)
      ensures b in reachable
    {
      ClosedSetIsNeverLeft(g, reachable, entry, b);
    }
  }
}
