// The passes on a graph the builder made: what they ask of it, and the events
// they find in its blocks.
module BuiltGraphs {
  import opened Graph
  import opened Structured
  import opened BlockMachine
  import opened CfgBuilder
  import opened NodeEvents
  import Events
  import ConstFlow
  import DefiniteAssignment
  import Liveness

  // Predecessor lists mirror successor lists, and nothing leads back to the
  // entry: constant propagation may start it knowing nothing, definite
  // assignment and narrowing may keep its facts fixed.
  lemma BuiltGraphFitsThePasses(code: Code, preds: seq<seq<nat>>)
    requires Linked(code, preds) && |code| > EXIT
    ensures GraphOf(code).Valid() && ConstFlow.Mirrored(GraphOf(code), preds)
    ensures |preds| > ENTRY && preds[ENTRY] == []
    ensures forall b: nat :: b < |code| ==> ENTRY !in GraphOf(code).succs[b]
  {
    var g := GraphOf(code);
    EntryHasNoPredecessor(code, preds);
    forall b: nat | b < |code|
      ensures ENTRY !in g.succs[b]
    {
      assert g.succs[b] == code[b].succs;
    }
    forall b: nat, p: nat | b < |preds| && p < |preds|
      ensures p in preds[b] <==> b in g.succs[p]
    {
      assert g.succs[p] == code[p].succs;
    }
  }

  function BlockEvents(uses: Uses, code: Code): (blocks: seq<seq<Events.Event>>)
    ensures |blocks| == |code|
  {
    seq(|code|, b requires 0 <= b < |code| => Flat(uses, code[b].items))
  }

  lemma {:induction false} FlatAlong(uses: Uses, code: Code, p: seq<nat>)
    requires forall i :: 0 <= i < |p| ==> p[i] < |code|
    ensures Flat(uses, Emitted(code, p)) == Liveness.Along(BlockEvents(uses, code), p)
  {
    if p != [] {
      FlatAlong(uses, code, p[1..]);
      FlatJoin(uses, code[p[0]].items, Emitted(code, p[1..]));
    }
  }

  lemma {:induction false} DefsAlong(uses: Uses, code: Code, p: seq<nat>, v: nat)
    requires forall i :: 0 <= i < |p| ==> p[i] < |code|
    ensures v !in Events.Defs(Flat(uses, Emitted(code, p))) <==> DefiniteAssignment.MissesDef(BlockEvents(uses, code), p, v)
  {
    if p != [] {
      var first := code[p[0]].items;
      DefsAlong(uses, code, p[1..], v);
      FlatJoin(uses, first, Emitted(code, p[1..]));
      Events.DefsConcat(Flat(uses, first), Flat(uses, Emitted(code, p[1..])));
      assert forall i :: 0 < i < |p| ==> p[1..][i - 1] == p[i];
    }
  }

  // The events of a trace before those of node `n`, and those after.
  lemma EventAt(uses: Uses, t: seq<Event>, n: nat, j: nat)
    requires n < |t| && j < |uses(t[n])|
    ensures var k := |Flat(uses, t[..n])| + j; var all := Flat(uses, t);
      && k < |all| && all[k] == uses(t[n])[j] && all[..k] == Flat(uses, t[..n]) + uses(t[n])[..j]
      && all[k + 1..] == uses(t[n])[j + 1..] + Flat(uses, t[n + 1..])
  {
    assert t == t[..n] + ([t[n]] + t[n + 1..]);
    FlatJoin(uses, t[..n], [t[n]] + t[n + 1..]);
    FlatJoin(uses, [t[n]], t[n + 1..]);
    FlatOne(uses, t[n]);
  }

  // Every event is some node's.
  lemma {:induction false} EventFrom(uses: Uses, t: seq<Event>, k: nat) returns (n: nat, j: nat)
    requires k < |Flat(uses, t)|
    ensures n < |t| && j < |uses(t[n])| && k == |Flat(uses, t[..n])| + j
  {
    if k < |uses(t[0])| {
      n, j := 0, k;
      assert t[..0] == [];
    } else {
      var i;
      i, j := EventFrom(uses, t[1..], k - |uses(t[0])|);
      n := i + 1;
      assert t[..n] == [t[0]] + t[1..][..i];
      FlatJoin(uses, [t[0]], t[1..][..i]);
      FlatOne(uses, t[0]);
    }
  }
}
