// The fixed point the definite-assignment and nullability passes share: facts
// that must hold on every way into a block, shrinking from "everything".
module MustFlow {
  import opened Graph
  import opened Sets

  // What edge `i` out of block `p` lets through of the facts at `p`'s start.
  type Transfer = (nat, nat, set<nat>) -> set<nat>

  ghost predicate Monotone(f: Transfer, top: set<nat>) {
    forall p: nat, i: nat, a: set<nat>, b: set<nat> {:trigger f(p, i, a), f(p, i, b)} ::
      a <= b <= top ==> f(p, i, a) <= f(p, i, b)
  }

  // `facts` claims nothing an edge does not justify.
  ghost predicate Solution(g: Graph, entry: nat, top: set<nat>, entryIn: set<nat>, f: Transfer, facts: seq<set<nat>>) {
    && |facts| == |g.succs|
    && (forall b: nat :: b < |facts| ==> facts[b] <= top)
    && (entry < |facts| ==> facts[entry] <= entryIn)
    && forall p: nat, i: nat :: p < |g.succs| && i < |g.succs[p]| && g.succs[p][i] < |facts| && g.succs[p][i] != entry ==>
         facts[g.succs[p][i]] <= f(p, i, facts[p])
  }

  ghost predicate Below(a: seq<set<nat>>, b: seq<set<nat>>) {
    |a| == |b| && forall i: nat :: i < |a| ==> a[i] <= b[i]
  }

  // Every edge into `b` that comes before edge `i` of block `p` lets `x` through.
  ghost predicate LetBy(g: Graph, f: Transfer, facts: seq<set<nat>>, b: nat, x: nat, p: nat, i: nat)
    requires |facts| == |g.succs|
  {
    forall q: nat, j: nat :: q < |g.succs| && j < |g.succs[q]| && g.succs[q][j] == b && (q < p || (q == p && j < i)) ==>
      x in f(q, j, facts[q])
  }

  // The meet over the edges into `b`; `top` when there is none.
  ghost function MeetOf(g: Graph, top: set<nat>, f: Transfer, facts: seq<set<nat>>, b: nat): set<nat>
    requires |facts| == |g.succs|
  {
    set x | x in top && LetBy(g, f, facts, b, x, |g.succs|, 0)
  }

  ghost function Size(facts: seq<set<nat>>): nat {
    if facts == [] then 0 else Size(facts[..|facts| - 1]) + |facts[|facts| - 1]|
  }

  lemma SizeShrinks(facts: seq<set<nat>>, b: nat, s: set<nat>)
    requires b < |facts| && s < facts[b]
    ensures Size(facts[b := s]) < Size(facts)
  {
    var n := |facts| - 1;
    if b == n {
      ProperSubset(s, facts[n]);
      assert facts[b := s][..n] == facts[..n];
    } else {
      assert facts[b := s][..n] == facts[..n][b := s];
      SizeShrinks(facts[..n], b, s);
    }
  }

  // One intersection over all edges into `b`.
  method Meet(g: Graph, top: set<nat>, f: Transfer, facts: seq<set<nat>>, b: nat) returns (r: set<nat>, hasPred: bool)
    requires |facts| == |g.succs|
    ensures r == MeetOf(g, top, f, facts, b)
    ensures !hasPred ==> forall p: nat :: p < |g.succs| ==> b !in g.succs[p]
  {
    r, hasPred := top, false;
    for p := 0 to |g.succs|
      invariant forall x :: x in r <==> x in top && LetBy(g, f, facts, b, x, p, 0)
      invariant !hasPred ==> forall q: nat :: q < p ==> b !in g.succs[q]
    {
      for i := 0 to |g.succs[p]|
        invariant forall x :: x in r <==> x in top && LetBy(g, f, facts, b, x, p, i)
        invariant !hasPred ==> forall q: nat :: q < p ==> b !in g.succs[q]
        invariant !hasPred ==> forall j: nat :: j < i ==> g.succs[p][j] != b
      {
        forall x
          ensures LetBy(g, f, facts, b, x, p, i + 1) <==>
            LetBy(g, f, facts, b, x, p, i) && (g.succs[p][i] == b ==> x in f(p, i, facts[p]))
        {
        }
        if g.succs[p][i] == b {
          hasPred := true;
          r := r * f(p, i, facts[p]);
        }
      }
      forall x
        ensures LetBy(g, f, facts, b, x, p, |g.succs[p]|) <==> LetBy(g, f, facts, b, x, p + 1, 0)
      {
      }
    }
  }

  // The while-changed loop: it ends, in the greatest solution.
  method Solve(g: Graph, entry: nat, top: set<nat>, entryIn: set<nat>, f: Transfer) returns (facts: seq<set<nat>>)
    requires g.Valid() && entry < |g.succs| && entryIn <= top
    requires Monotone(f, top)
    ensures Solution(g, entry, top, entryIn, f, facts) && facts[entry] == entryIn
    ensures forall other :: Solution(g, entry, top, entryIn, f, other) ==> Below(other, facts)
  {
    facts := seq(|g.succs|, b requires 0 <= b < |g.succs| => if b == entry then entryIn else top);
    TopIsBounded(g, entry, top, entryIn, f, facts);
    var changed := true;
    while changed
      invariant Bounded(g, entry, top, entryIn, f, facts)
      invariant !changed ==> Solution(g, entry, top, entryIn, f, facts)
      decreases Size(facts), changed
    {
      changed := false;
      ghost var start := facts;
      for b := 0 to |g.succs|
        invariant Bounded(g, entry, top, entryIn, f, facts)
        invariant !changed ==> facts == start && Stable(g, entry, f, facts, b)
        invariant changed ==> Size(facts) < Size(start)
      {
        if b == entry {
          continue;
        }
        var newIn, hasPred := Meet(g, top, f, facts, b);
        if hasPred && newIn != facts[b] {
          SizeShrinks(facts, b, newIn);
          UpdateKeepsBounds(g, entry, top, entryIn, f, facts, b);
          facts := facts[b := newIn];
          changed := true;
        } else if !changed {
          BlockIsStable(g, entry, top, entryIn, f, facts, b);
        }
      }
      if !changed {
        StableIsSolution(g, entry, top, entryIn, f, facts);
      }
    }
  }

  // Edges into the blocks before `n` are satisfied.
  ghost predicate Stable(g: Graph, entry: nat, f: Transfer, facts: seq<set<nat>>, n: nat)
    requires |facts| == |g.succs|
  {
    forall p: nat, i: nat :: p < |g.succs| && i < |g.succs[p]| && g.succs[p][i] < |facts| && g.succs[p][i] < n && g.succs[p][i] != entry ==>
      facts[g.succs[p][i]] <= f(p, i, facts[p])
  }

  // Between updates: above every solution, and never below the next meet.
  ghost predicate Bounded(g: Graph, entry: nat, top: set<nat>, entryIn: set<nat>, f: Transfer, facts: seq<set<nat>>) {
    && |facts| == |g.succs|
    && (forall b: nat :: b < |facts| ==> facts[b] <= top)
    && entry < |facts| && facts[entry] == entryIn
    && (forall b: nat :: b < |facts| && b != entry ==> MeetOf(g, top, f, facts, b) <= facts[b])
    && forall other :: Solution(g, entry, top, entryIn, f, other) ==> Below(other, facts)
  }

  lemma MeetIsMonotone(g: Graph, top: set<nat>, f: Transfer, lower: seq<set<nat>>, upper: seq<set<nat>>, b: nat)
    requires Monotone(f, top) && |upper| == |g.succs| && Below(lower, upper)
    requires forall p: nat :: p < |upper| ==> upper[p] <= top
    ensures MeetOf(g, top, f, lower, b) <= MeetOf(g, top, f, upper, b)
  {
    forall x | x in MeetOf(g, top, f, lower, b)
      ensures LetBy(g, f, upper, b, x, |g.succs|, 0)
    {
      forall q: nat, j: nat | q < |g.succs| && j < |g.succs[q]| && g.succs[q][j] == b
        ensures x in f(q, j, upper[q])
      {
        assert LetBy(g, f, lower, b, x, |g.succs|, 0);
        assert x in f(q, j, lower[q]);
        assert lower[q] <= upper[q] <= top;
        assert f(q, j, lower[q]) <= f(q, j, upper[q]);
      }
    }
  }

  lemma SolutionIsBelowMeet(g: Graph, entry: nat, top: set<nat>, entryIn: set<nat>, f: Transfer,
      facts: seq<set<nat>>, other: seq<set<nat>>, b: nat)
    requires Solution(g, entry, top, entryIn, f, other) && b < |g.succs| && b != entry
    requires Monotone(f, top) && |facts| == |g.succs| && Below(other, facts)
    requires forall p: nat :: p < |facts| ==> facts[p] <= top
    ensures other[b] <= MeetOf(g, top, f, facts, b)
  {
    assert other[b] <= MeetOf(g, top, f, other, b);
    MeetIsMonotone(g, top, f, other, facts, b);
  }

  lemma UpdateKeepsBounds(g: Graph, entry: nat, top: set<nat>, entryIn: set<nat>, f: Transfer,
      facts: seq<set<nat>>, b: nat)
    requires Monotone(f, top) && Bounded(g, entry, top, entryIn, f, facts)
    requires b < |facts| && b != entry
    ensures Bounded(g, entry, top, entryIn, f, facts[b := MeetOf(g, top, f, facts, b)])
  {
    hide MeetOf, Monotone, Solution;
    var facts' := facts[b := MeetOf(g, top, f, facts, b)];
    assert Below(facts', facts);
    forall c: nat | c < |facts| && c != entry
      ensures MeetOf(g, top, f, facts', c) <= facts'[c]
    {
      MeetIsMonotone(g, top, f, facts', facts, c);
    }
    forall other | Solution(g, entry, top, entryIn, f, other)
      ensures Below(other, facts')
    {
      SolutionIsBelowMeet(g, entry, top, entryIn, f, facts, other, b);
    }
  }

  lemma BlockIsStable(g: Graph, entry: nat, top: set<nat>, entryIn: set<nat>, f: Transfer, facts: seq<set<nat>>, b: nat)
    requires |facts| == |g.succs| && b < |facts| && Stable(g, entry, f, facts, b)
    requires facts[b] == MeetOf(g, top, f, facts, b) || forall p: nat :: p < |g.succs| ==> b !in g.succs[p]
    ensures Stable(g, entry, f, facts, b + 1)
  {
    forall p: nat, i: nat | p < |g.succs| && i < |g.succs[p]| && g.succs[p][i] == b
      ensures facts[b] <= f(p, i, facts[p])
    {
      assert b in g.succs[p];
    }
  }

  lemma StableIsSolution(g: Graph, entry: nat, top: set<nat>, entryIn: set<nat>, f: Transfer, facts: seq<set<nat>>)
    requires Bounded(g, entry, top, entryIn, f, facts) && Stable(g, entry, f, facts, |facts|)
    ensures Solution(g, entry, top, entryIn, f, facts)
  {
  }

  lemma TopIsBounded(g: Graph, entry: nat, top: set<nat>, entryIn: set<nat>, f: Transfer, facts: seq<set<nat>>)
    requires |facts| == |g.succs| && entry < |facts| && entryIn <= top
    requires forall b: nat :: b < |facts| ==> facts[b] == if b == entry then entryIn else top
    ensures Bounded(g, entry, top, entryIn, f, facts)
  {
  }
}
