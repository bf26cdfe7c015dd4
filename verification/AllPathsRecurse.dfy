// allPathsRecurse: a search over paths, each with its own visited set, decides
// plain reachability with the self-calling blocks taken out.
module AllPathsRecurse {
  import opened Graph

  // A path from `u` to `exit` that meets no block of `avoid`.
  ghost predicate FreePath(g: Graph, avoid: set<nat>, p: seq<nat>, u: nat, exit: nat) {
    PathBetween(g, p, u, exit) && forall i :: 0 <= i < |p| ==> p[i] !in avoid
  }

  ghost predicate Free(g: Graph, avoid: set<nat>, u: nat, exit: nat) {
    exists p :: FreePath(g, avoid, p, u, exit)
  }

  lemma FreeStep(g: Graph, avoid: set<nat>, u: nat, v: nat, exit: nat)
    requires g.Edge(u, v) && u !in avoid && Free(g, avoid + {u}, v, exit)
    ensures Free(g, avoid, u, exit)
  {
    var p :| FreePath(g, avoid + {u}, p, v, exit);
    var q := [u] + p;
    forall i | 0 <= i < |q| - 1
      ensures g.Edge(q[i], q[i + 1])
    {
      assert i > 0 ==> g.Edge(p[i - 1], p[i - 1 + 1]);
    }
    assert FreePath(g, avoid, q, u, exit);
  }

  // Cutting the loops through `u` out of a walk: after its last visit to `u`
  // it goes on from a successor of `u` and never comes back.
  lemma CutLoops(g: Graph, avoid: set<nat>, p: seq<nat>, u: nat, exit: nat) returns (v: nat)
    requires FreePath(g, avoid, p, u, exit) && u != exit
    ensures g.Edge(u, v) && Free(g, avoid + {u}, v, exit)
    decreases |p|
  {
    assert g.Edge(p[0], p[0 + 1]);
    var rest := p[1..];
    assert PathBetween(g, rest, p[1], exit) by {
      forall i | 0 <= i < |rest| - 1
        ensures g.Edge(rest[i], rest[i + 1])
      {
        assert g.Edge(p[i + 1], p[i + 1 + 1]);
      }
    }
    if u in rest {
      var k :| 0 <= k < |rest| && rest[k] == u;
      var tail := rest[k..];
      forall i | 0 <= i < |tail| - 1
        ensures g.Edge(tail[i], tail[i + 1])
      {
        assert g.Edge(rest[k + i], rest[k + i + 1]);
      }
      assert FreePath(g, avoid, tail, u, exit);
      v := CutLoops(g, avoid, tail, u, exit);
    } else {
      v := p[1];
      assert FreePath(g, avoid + {u}, rest, v, exit);
    }
  }

  // The recursive lambda of allPathsRecurse; false means a path to the exit
  // with no self-call was found.
  method Search(g: Graph, exit: nat, selfCalls: set<nat>, cur: nat, seen: bool, onPath: set<nat>) returns (all: bool)
    requires g.Valid() && cur < |g.succs| && exit < |g.succs|
    requires exit !in onPath && forall u :: u in onPath ==> u < |g.succs|
    ensures !all <==> !seen && Free(g, selfCalls + onPath, cur, exit)
    decreases (set u: nat {:trigger g.succs[u]} | u < |g.succs|) - onPath
  {
    var nowSeen := seen || cur in selfCalls;
    if cur == exit {
      AtExit(g, selfCalls + onPath, exit);
      return nowSeen;
    }
    if cur in onPath {
      NotFromAvoided(g, selfCalls + onPath, cur, exit);
      return true;
    }
    if g.succs[cur] == [] {
      NotFromDeadEnd(g, selfCalls + onPath, cur, exit);
      return true;
    }
    var longer := onPath + {cur};
    assert selfCalls + longer == selfCalls + onPath + {cur};
    for i := 0 to |g.succs[cur]|
      invariant forall j: nat :: j < i && !nowSeen ==> !Free(g, selfCalls + longer, g.succs[cur][j], exit)
    {
      assert g.Edge(cur, g.succs[cur][i]);
      var child := Search(g, exit, selfCalls, g.succs[cur][i], nowSeen, longer);
      if !child {
        FreeStep(g, selfCalls + onPath, cur, g.succs[cur][i], exit);
        return false;
      }
    }
    if !nowSeen {
      NotThroughSuccessors(g, selfCalls + onPath, cur, exit);
    }
    NotFromAvoided(g, selfCalls + onPath, cur, exit);
    all := true;
  }

  lemma NotThroughSuccessors(g: Graph, avoid: set<nat>, u: nat, exit: nat)
    requires u < |g.succs| && u != exit
    requires forall j: nat :: j < |g.succs[u]| ==> !Free(g, avoid + {u}, g.succs[u][j], exit)
    ensures !Free(g, avoid, u, exit)
  {
    if Free(g, avoid, u, exit) {
      var p :| FreePath(g, avoid, p, u, exit);
      var v := CutLoops(g, avoid, p, u, exit);
    }
  }

  lemma AtExit(g: Graph, avoid: set<nat>, exit: nat)
    requires exit < |g.succs|
    ensures Free(g, avoid, exit, exit) <==> exit !in avoid
  {
    if exit !in avoid {
      assert FreePath(g, avoid, [exit], exit, exit);
    }
    NotFromAvoided(g, avoid, exit, exit);
  }

  lemma NotFromAvoided(g: Graph, avoid: set<nat>, u: nat, exit: nat)
    ensures u in avoid ==> !Free(g, avoid, u, exit)
  {
    forall p | PathBetween(g, p, u, exit) && u in avoid
      ensures !FreePath(g, avoid, p, u, exit)
    {
      assert p[0] == u;
    }
  }

  lemma NotFromDeadEnd(g: Graph, avoid: set<nat>, u: nat, exit: nat)
    requires u < |g.succs| && g.succs[u] == [] && u != exit
    ensures !Free(g, avoid, u, exit)
  {
    forall p: seq<nat> | |p| > 1 && p[0] == u
      ensures !IsPath(g, p)
    {
      assert !g.Edge(p[0], p[0 + 1]);
    }
  }

  // True exactly when some block calls the function itself and, with such
  // blocks taken out, the exit cannot be reached from the entry.
  method AllPathsRecurse(g: Graph, entry: nat, exit: nat, selfCalls: set<nat>) returns (r: bool)
    requires g.Valid() && entry < |g.succs| && exit < |g.succs|
    ensures r <==> selfCalls != {} && !Free(g, selfCalls, entry, exit)
  {
    if selfCalls == {} {
      return false;
    }
    assert selfCalls + {} == selfCalls;
    r := Search(g, exit, selfCalls, entry, false, {});
  }
}
