// LivenessAnalysisPass: live variables are those some path reads before
// writing, and a store reported dead has no later reader.
module Liveness {
  import opened Graph
  import opened Sets
  import opened Events

  // Reads of a block that no earlier write of the block shadows.
  ghost function Exposed(events: seq<Event>): set<nat> {
    if events == [] then {}
    else if events[0].Read? then Exposed(events[1..]) + {events[0].v}
    else Exposed(events[1..]) - {events[0].v}
  }

  // The event-by-event walk, from what is live at the end.
  ghost function Walk(events: seq<Event>, out: set<nat>): set<nat> {
    if events == [] then out
    else if events[0].Read? then Walk(events[1..], out) + {events[0].v}
    else Walk(events[1..], out) - {events[0].v}
  }

  // The walk and the Gen/Kill equation agree.
  lemma {:induction false} WalkIsGenKill(events: seq<Event>, out: set<nat>)
    ensures Walk(events, out) == Exposed(events) + (out - Defs(events))
  {
    if events != [] {
      WalkIsGenKill(events[1..], out);
      assert events == [events[0]] + events[1..];
      DefsConcat([events[0]], events[1..]);
    }
  }

  lemma {:induction false} ExposedConcat(a: seq<Event>, b: seq<Event>)
    ensures Exposed(a + b) == Exposed(a) + (Exposed(b) - Defs(a))
  {
    if a == [] {
      assert a + b == b;
    } else {
      assert (a + b)[1..] == a[1..] + b;
      assert a == [a[0]] + a[1..];
      DefsConcat([a[0]], a[1..]);
      ExposedConcat(a[1..], b);
    }
  }

  // The path definition: from the start of `b`, some path reads `v` before
  // writing it.
  ghost predicate ReadAhead(g: Graph, blocks: seq<seq<Event>>, p: seq<nat>, v: nat)
    requires |blocks| == |g.succs|
  {
    && IsPath(g, p)
    && v in Exposed(blocks[p[|p| - 1]])
    && forall i :: 0 <= i < |p| - 1 ==> v !in Defs(blocks[p[i]])
  }

  ghost predicate Live(g: Graph, blocks: seq<seq<Event>>, b: nat, v: nat)
    requires |blocks| == |g.succs|
  {
    exists p :: ReadAhead(g, blocks, p, v) && p[0] == b
  }

  ghost predicate LiveAfter(g: Graph, blocks: seq<seq<Event>>, b: nat, v: nat)
    requires g.Valid() && |blocks| == |g.succs| && b < |blocks|
  {
    exists i: nat :: i < |g.succs[b]| && Live(g, blocks, g.succs[b][i], v)
  }

  lemma LiveUnfolds(g: Graph, blocks: seq<seq<Event>>, b: nat, v: nat)
    requires g.Valid() && |blocks| == |g.succs| && b < |blocks|
    ensures Live(g, blocks, b, v) <==> v in Exposed(blocks[b]) || (v !in Defs(blocks[b]) && LiveAfter(g, blocks, b, v))
  {
    if v in Exposed(blocks[b]) {
      assert ReadAhead(g, blocks, [b], v);
    }
    if v !in Defs(blocks[b]) && LiveAfter(g, blocks, b, v) {
      var i: nat :| i < |g.succs[b]| && Live(g, blocks, g.succs[b][i], v);
      var p :| ReadAhead(g, blocks, p, v) && p[0] == g.succs[b][i];
      var q := [b] + p;
      forall j | 0 <= j < |q| - 1
        ensures g.Edge(q[j], q[j + 1])
      {
        assert j > 0 ==> g.Edge(p[j - 1], p[j - 1 + 1]);
      }
      assert ReadAhead(g, blocks, q, v) && q[0] == b;
    }
    if Live(g, blocks, b, v) && v !in Exposed(blocks[b]) {
      var p :| ReadAhead(g, blocks, p, v) && p[0] == b;
      LivePathStep(g, blocks, p, v);
    }
  }

  lemma LivePathStep(g: Graph, blocks: seq<seq<Event>>, p: seq<nat>, v: nat)
    requires g.Valid() && |blocks| == |g.succs| && ReadAhead(g, blocks, p, v)
    requires v !in Exposed(blocks[p[0]])
    ensures v !in Defs(blocks[p[0]]) && LiveAfter(g, blocks, p[0], v)
  {
    var q := p[1..];
    assert g.Edge(p[0], p[0 + 1]);
    var i :| 0 <= i < |g.succs[p[0]]| && g.succs[p[0]][i] == p[1];
    forall j | 0 <= j < |q| - 1
      ensures g.Edge(q[j], q[j + 1]) && v !in Defs(blocks[q[j]])
    {
      assert g.Edge(p[j + 1], p[j + 1 + 1]);
    }
    assert ReadAhead(g, blocks, q, v) && q[0] == g.succs[p[0]][i];
  }

  // ---- The fixed point ----

  ghost predicate Equations(g: Graph, blocks: seq<seq<Event>>, liveIn: seq<set<nat>>, liveOut: seq<set<nat>>, n: nat)
    requires g.Valid() && |blocks| == |g.succs| == |liveIn| == |liveOut|
  {
    forall b: nat :: n <= b < |blocks| ==> SuccessorsIn(g, liveIn, b) <= liveOut[b] && Walk(blocks[b], liveOut[b]) <= liveIn[b]
  }

  ghost function SuccessorsIn(g: Graph, liveIn: seq<set<nat>>, b: nat): set<nat>
    requires g.Valid() && |liveIn| == |g.succs| && b < |liveIn|
  {
    set i: nat, v | i < |g.succs[b]| && v in liveIn[g.succs[b][i]] :: v
  }

  // Nothing is recorded live that is not.
  ghost predicate Justified(g: Graph, blocks: seq<seq<Event>>, liveIn: seq<set<nat>>, liveOut: seq<set<nat>>) {
    && g.Valid() && |blocks| == |g.succs| == |liveIn| == |liveOut|
    && forall b: nat :: b < |blocks| ==>
         && (forall v :: v in liveIn[b] ==> Live(g, blocks, b, v))
         && (forall v :: v in liveOut[b] ==> LiveAfter(g, blocks, b, v))
  }

  // A solution of the equations misses nothing live.
  lemma SolutionIsComplete(g: Graph, blocks: seq<seq<Event>>, liveIn: seq<set<nat>>, liveOut: seq<set<nat>>,
      p: seq<nat>, v: nat)
    requires g.Valid() && |blocks| == |g.succs| == |liveIn| == |liveOut|
    requires Equations(g, blocks, liveIn, liveOut, 0)
    requires ReadAhead(g, blocks, p, v)
    ensures v in liveIn[p[0]]
    decreases |p|
  {
    WalkIsGenKill(blocks[p[0]], liveOut[p[0]]);
    if v !in Exposed(blocks[p[0]]) {
      var q := p[1..];
      assert g.Edge(p[0], p[0 + 1]);
      var i :| 0 <= i < |g.succs[p[0]]| && g.succs[p[0]][i] == p[1];
      forall j | 0 <= j < |q| - 1
        ensures g.Edge(q[j], q[j + 1]) && v !in Defs(blocks[q[j]])
      {
        assert g.Edge(p[j + 1], p[j + 1 + 1]);
      }
      SolutionIsComplete(g, blocks, liveIn, liveOut, q, v);
      assert v in SuccessorsIn(g, liveIn, p[0]);
    }
  }

  // How far the sets are from holding every variable.
  ghost function Missing(all: set<nat>, sets: seq<set<nat>>): nat {
    if sets == [] then 0 else Missing(all, sets[..|sets| - 1]) + |all - sets[|sets| - 1]|
  }

  lemma MissingUpdate(all: set<nat>, sets: seq<set<nat>>, b: nat, s: set<nat>)
    requires b < |sets| && sets[b] <= s <= all
    ensures Missing(all, sets[b := s]) <= Missing(all, sets)
    ensures sets[b] != s ==> Missing(all, sets[b := s]) < Missing(all, sets)
  {
    var n := |sets| - 1;
    if b == n {
      assert sets[b := s][..n] == sets[..n];
      LargerLeavesLess(all, sets[n], s);
    } else {
      assert sets[b := s][..n] == sets[..n][b := s];
      MissingUpdate(all, sets[..n], b, s);
    }
  }

  // The sets only grow.
  ghost predicate Growing(g: Graph, blocks: seq<seq<Event>>, all: set<nat>, liveIn: seq<set<nat>>,
      liveOut: seq<set<nat>>) {
    && g.Valid() && |blocks| == |g.succs| == |liveIn| == |liveOut|
    && forall b: nat :: b < |blocks| ==>
         && Exposed(blocks[b]) <= all && liveIn[b] <= all && liveOut[b] <= all
         && liveOut[b] <= SuccessorsIn(g, liveIn, b)
         && liveIn[b] <= Walk(blocks[b], SuccessorsIn(g, liveIn, b))
  }

  lemma SuccessorsGrow(g: Graph, lower: seq<set<nat>>, upper: seq<set<nat>>, b: nat)
    requires g.Valid() && |lower| == |upper| == |g.succs| && b < |lower|
    requires forall i: nat :: i < |lower| ==> lower[i] <= upper[i]
    ensures SuccessorsIn(g, lower, b) <= SuccessorsIn(g, upper, b)
  {
    forall v | v in SuccessorsIn(g, lower, b)
      ensures v in SuccessorsIn(g, upper, b)
    {
      var i: nat :| i < |g.succs[b]| && v in lower[g.succs[b][i]];
      assert v in upper[g.succs[b][i]];
    }
  }

  lemma WalkGrows(events: seq<Event>, a: set<nat>, b: set<nat>)
    requires a <= b
    ensures Walk(events, a) <= Walk(events, b)
  {
    WalkIsGenKill(events, a);
    WalkIsGenKill(events, b);
  }

  lemma UpdateKeepsGrowing(g: Graph, blocks: seq<seq<Event>>, all: set<nat>, liveIn: seq<set<nat>>,
      liveOut: seq<set<nat>>, b: nat)
    requires Growing(g, blocks, all, liveIn, liveOut) && b < |blocks|
    ensures var newOut := SuccessorsIn(g, liveIn, b);
            var newIn := Walk(blocks[b], newOut);
            && liveOut[b] <= newOut <= all && liveIn[b] <= newIn <= all
            && Growing(g, blocks, all, liveIn[b := newIn], liveOut[b := newOut])
  {
    hide Exposed, Walk, SuccessorsIn;
    var newOut := SuccessorsIn(g, liveIn, b);
    var newIn := Walk(blocks[b], newOut);
    SuccessorsInBounded(g, liveIn, all, b);
    WalkIsGenKill(blocks[b], newOut);
    var in', out' := liveIn[b := newIn], liveOut[b := newOut];
    forall c: nat | c < |blocks|
      ensures out'[c] <= SuccessorsIn(g, in', c) && in'[c] <= Walk(blocks[c], SuccessorsIn(g, in', c))
    {
      SuccessorsGrow(g, liveIn, in', c);
      WalkGrows(blocks[c], SuccessorsIn(g, liveIn, c), SuccessorsIn(g, in', c));
    }
  }

  lemma SuccessorsInBounded(g: Graph, liveIn: seq<set<nat>>, all: set<nat>, b: nat)
    requires g.Valid() && |liveIn| == |g.succs| && b < |liveIn|
    requires forall i: nat :: i < |liveIn| ==> liveIn[i] <= all
    ensures SuccessorsIn(g, liveIn, b) <= all
  {
  }

  lemma UpdateIsJustified(g: Graph, blocks: seq<seq<Event>>, liveIn: seq<set<nat>>, liveOut: seq<set<nat>>, b: nat)
    requires Justified(g, blocks, liveIn, liveOut) && b < |blocks|
    ensures var newOut := SuccessorsIn(g, liveIn, b);
            Justified(g, blocks, liveIn[b := Walk(blocks[b], newOut)], liveOut[b := newOut])
  {
    hide Live, Exposed, Walk;
    var newOut := SuccessorsIn(g, liveIn, b);
    WalkIsGenKill(blocks[b], newOut);
    forall v | v in newOut
      ensures LiveAfter(g, blocks, b, v)
    {
      var i: nat :| i < |g.succs[b]| && v in liveIn[g.succs[b][i]];
      assert Live(g, blocks, g.succs[b][i], v);
    }
    forall v | v in Walk(blocks[b], newOut)
      ensures Live(g, blocks, b, v)
    {
      LiveUnfolds(g, blocks, b, v);
    }
  }

  // Step 1 for one block: upward-exposed reads, and writes.
  method GenKill(events: seq<Event>) returns (gen: set<nat>, kill: set<nat>)
    ensures gen == Exposed(events) && kill == Defs(events)
  {
    gen, kill := {}, {};
    var written := {};
    for k := 0 to |events|
      invariant gen == Exposed(events[..k])
      invariant kill == written == Defs(events[..k])
    {
      ExposedConcat(events[..k], [events[k]]);
      assert events[..k] + [events[k]] == events[..k + 1];
      DefsStep(events, k);
      assert Exposed([]) == {};
      match events[k]
      case Read(v) =>
        if v !in written {
          gen := gen + {v};
        }
      case Def(v) =>
        kill := kill + {v};
        written := written + {v};
    }
    assert events[..|events|] == events;
  }

  // Step 2: the backward fixed point ends, with exactly the live variables.
  method Solve(g: Graph, blocks: seq<seq<Event>>) returns (liveIn: seq<set<nat>>, liveOut: seq<set<nat>>)
    requires g.Valid() && |blocks| == |g.succs|
    ensures |liveIn| == |liveOut| == |blocks|
    ensures forall b: nat, v :: b < |blocks| ==> (v in liveIn[b] <==> Live(g, blocks, b, v))
    ensures forall b: nat, v :: b < |blocks| ==> (v in liveOut[b] <==> LiveAfter(g, blocks, b, v))
    ensures forall b: nat :: b < |blocks| ==> Walk(blocks[b], liveOut[b]) == liveIn[b]
  {
    hide Live, LiveAfter, Exposed, Walk, SuccessorsIn, Defs, Growing, Justified, Missing, Equations;
    var gen: seq<set<nat>>, kill: seq<set<nat>> := [], [];
    ghost var all: set<nat> := {};
    for b := 0 to |blocks|
      invariant |gen| == |kill| == b
      invariant forall c: nat :: c < b ==> gen[c] == Exposed(blocks[c]) <= all && kill[c] == Defs(blocks[c])
    {
      var gb, kb := GenKill(blocks[b]);
      gen, kill := gen + [gb], kill + [kb];
      all := all + gb;
    }
    liveIn := gen;
    liveOut := seq(|blocks|, _ => {});
    StartIsSound(g, blocks, all, liveIn, liveOut);
    var changed := true;
    while changed
      invariant |liveIn| == |liveOut| == |blocks|
      invariant Growing(g, blocks, all, liveIn, liveOut) && Justified(g, blocks, liveIn, liveOut)
      invariant !changed ==> Equations(g, blocks, liveIn, liveOut, 0)
      decreases Missing(all, liveIn) + Missing(all, liveOut), changed
    {
      changed := false;
      ghost var startIn, startOut := liveIn, liveOut;
      NoEquations(g, blocks, liveIn, liveOut);
      for b := |blocks| downto 0
        invariant |liveIn| == |liveOut| == |blocks|
        invariant Growing(g, blocks, all, liveIn, liveOut) && Justified(g, blocks, liveIn, liveOut)
        invariant !changed ==> liveIn == startIn && liveOut == startOut && Equations(g, blocks, liveIn, liveOut, b)
        invariant changed ==> Missing(all, liveIn) + Missing(all, liveOut) < Missing(all, startIn) + Missing(all, startOut)
      {
        var newOut := UnionOfSuccessors(g, liveIn, b);
        var newIn := gen[b] + (newOut - kill[b]);
        WalkIsGenKill(blocks[b], newOut);
        UpdateKeepsGrowing(g, blocks, all, liveIn, liveOut, b);
        UpdateIsJustified(g, blocks, liveIn, liveOut, b);
        if newOut != liveOut[b] || newIn != liveIn[b] {
          MissingUpdate(all, liveIn, b, newIn);
          MissingUpdate(all, liveOut, b, newOut);
          liveOut := liveOut[b := newOut];
          liveIn := liveIn[b := newIn];
          changed := true;
        } else if !changed {
          EquationsStep(g, blocks, liveIn, liveOut, b);
        }
      }
    }
    SolutionIsExact(g, blocks, all, liveIn, liveOut);
  }

  lemma NoEquations(g: Graph, blocks: seq<seq<Event>>, liveIn: seq<set<nat>>, liveOut: seq<set<nat>>)
    requires g.Valid() && |blocks| == |g.succs| == |liveIn| == |liveOut|
    ensures Equations(g, blocks, liveIn, liveOut, |blocks|)
  {
  }

  lemma EquationsStep(g: Graph, blocks: seq<seq<Event>>, liveIn: seq<set<nat>>, liveOut: seq<set<nat>>, b: nat)
    requires g.Valid() && |blocks| == |g.succs| == |liveIn| == |liveOut| && b < |blocks|
    requires Equations(g, blocks, liveIn, liveOut, b + 1)
    requires liveOut[b] == SuccessorsIn(g, liveIn, b) && liveIn[b] == Walk(blocks[b], liveOut[b])
    ensures Equations(g, blocks, liveIn, liveOut, b)
  {
  }

  method UnionOfSuccessors(g: Graph, liveIn: seq<set<nat>>, b: nat) returns (r: set<nat>)
    requires g.Valid() && |liveIn| == |g.succs| && b < |liveIn|
    ensures r == SuccessorsIn(g, liveIn, b)
  {
    r := {};
    for i := 0 to |g.succs[b]|
      invariant forall v :: v in r <==> exists j: nat :: j < i && v in liveIn[g.succs[b][j]]
    {
      r := r + liveIn[g.succs[b][i]];
    }
  }

  lemma StartIsSound(g: Graph, blocks: seq<seq<Event>>, all: set<nat>, liveIn: seq<set<nat>>, liveOut: seq<set<nat>>)
    requires g.Valid() && |blocks| == |g.succs| == |liveIn| == |liveOut|
    requires forall b: nat :: b < |blocks| ==> liveIn[b] == Exposed(blocks[b]) <= all && liveOut[b] == {}
    ensures Growing(g, blocks, all, liveIn, liveOut) && Justified(g, blocks, liveIn, liveOut)
  {
    hide Live, Exposed, Walk;
    forall b: nat | b < |blocks|
      ensures liveIn[b] <= Walk(blocks[b], SuccessorsIn(g, liveIn, b))
      ensures forall v :: v in liveIn[b] ==> Live(g, blocks, b, v)
    {
      WalkIsGenKill(blocks[b], SuccessorsIn(g, liveIn, b));
      forall v | v in liveIn[b]
        ensures Live(g, blocks, b, v)
      {
        LiveUnfolds(g, blocks, b, v);
      }
    }
  }

  lemma SolutionIsExact(g: Graph, blocks: seq<seq<Event>>, all: set<nat>, liveIn: seq<set<nat>>, liveOut: seq<set<nat>>)
    requires Growing(g, blocks, all, liveIn, liveOut) && Justified(g, blocks, liveIn, liveOut)
    requires Equations(g, blocks, liveIn, liveOut, 0)
    ensures forall b: nat, v :: b < |blocks| ==> (v in liveIn[b] <==> Live(g, blocks, b, v))
    ensures forall b: nat, v :: b < |blocks| ==> (v in liveOut[b] <==> LiveAfter(g, blocks, b, v))
    ensures forall b: nat :: b < |blocks| ==> Walk(blocks[b], liveOut[b]) == liveIn[b]
  {
    hide Walk, Exposed;
    forall b: nat, v | b < |blocks| && Live(g, blocks, b, v)
      ensures v in liveIn[b]
    {
      var p :| ReadAhead(g, blocks, p, v) && p[0] == b;
      SolutionIsComplete(g, blocks, liveIn, liveOut, p, v);
    }
    forall b: nat, v | b < |blocks| && LiveAfter(g, blocks, b, v)
      ensures v in liveOut[b]
    {
      var i: nat :| i < |g.succs[b]| && Live(g, blocks, g.succs[b][i], v);
      assert v in liveIn[g.succs[b][i]];
      assert v in SuccessorsIn(g, liveIn, b);
    }
    forall b: nat | b < |blocks|
      ensures Walk(blocks[b], liveOut[b]) == liveIn[b]
    {
      assert liveOut[b] == SuccessorsIn(g, liveIn, b);
    }
  }

  // ---- Dead stores ----

  // Some continuation from just after event `k` of block `b` reads `v` before
  // writing it.
  ghost predicate NeededAfter(g: Graph, blocks: seq<seq<Event>>, b: nat, k: nat, v: nat)
    requires g.Valid() && |blocks| == |g.succs| && b < |blocks| && k < |blocks[b]|
  {
    var rest := blocks[b][k + 1..];
    v in Exposed(rest) || (v !in Defs(rest) && LiveAfter(g, blocks, b, v))
  }

  ghost predicate DeadStore(g: Graph, blocks: seq<seq<Event>>, watched: set<nat>, b: nat, k: nat) {
    && g.Valid() && |blocks| == |g.succs| && b < |blocks| && k < |blocks[b]|
    && blocks[b][k].Def? && blocks[b][k].v in watched
    && !NeededAfter(g, blocks, b, k, blocks[b][k].v)
  }

  // Step 4: walks each block backward from LiveOut. `watched` are the locals a
  // report may name: declared in the body, read somewhere, no pattern binding
  // and no leading underscore.
  method DeadStores(g: Graph, blocks: seq<seq<Event>>, watched: set<nat>) returns (dead: set<(nat, nat)>)
    requires g.Valid() && |blocks| == |g.succs|
    ensures forall b: nat, k: nat :: (b, k) in dead <==> DeadStore(g, blocks, watched, b, k)
  {
    hide Live, LiveAfter, Exposed, Defs, NeededAfter;
    var liveIn, liveOut := Solve(g, blocks);
    dead := {};
    for b := 0 to |blocks|
      invariant forall c: nat, k: nat :: (c, k) in dead <==> c < b && DeadStore(g, blocks, watched, c, k)
    {
      var after := liveOut[b];
      ghost var before := dead;
      assert blocks[b][|blocks[b]|..] == [];
      for k := |blocks[b]| downto 0
        invariant after == Walk(blocks[b][k..], liveOut[b])
        invariant forall c: nat, j: nat :: (c, j) in dead <==>
          (c, j) in before || (c == b && k <= j && DeadStore(g, blocks, watched, c, j))
      {
        var e := blocks[b][k];
        assert blocks[b][k..][1..] == blocks[b][k + 1..];
        if e.Read? {
          after := after + {e.v};
        } else {
          WalkIsNeeded(g, blocks, b, k, liveOut[b], e.v);
          if e.v in watched && e.v !in after {
            dead := dead + {(b, k)};
          }
          after := after - {e.v};
        }
      }
    }
  }

  lemma WalkIsNeeded(g: Graph, blocks: seq<seq<Event>>, b: nat, k: nat, out: set<nat>, v: nat)
    requires g.Valid() && |blocks| == |g.succs| && b < |blocks| && k < |blocks[b]|
    requires forall u :: u in out <==> LiveAfter(g, blocks, b, u)
    ensures v in Walk(blocks[b][k + 1..], out) <==> NeededAfter(g, blocks, b, k, v)
  {
    WalkIsGenKill(blocks[b][k + 1..], out);
  }

  // ---- What a dead store means to a running program ----

  function Look(store: map<nat, int>, v: nat): int {
    if v in store then store[v] else 0
  }

  ghost predicate AgreeBut(s: map<nat, int>, t: map<nat, int>, except: set<nat>) {
    forall u: nat :: u !in except ==> Look(s, u) == Look(t, u)
  }

  lemma SameWriteAgrees(s: map<nat, int>, t: map<nat, int>, except: set<nat>, v: nat, x: int)
    requires AgreeBut(s, t, except)
    ensures AgreeBut(s[v := x], t[v := x], except - {v})
  {
    forall u: nat | u !in except - {v}
      ensures Look(s[v := x], u) == Look(t[v := x], u)
    {
      assert u != v ==> Look(s, u) == Look(t, u);
    }
  }

  // The values read, in order: each write stores something computed from
  // where it stands and the values read before it.
  ghost function Observe(events: seq<Event>, at: nat, store: map<nat, int>, compute: (nat, seq<int>) -> int,
      seen: seq<int>): seq<int>
    decreases |events|
  {
    if events == [] then seen
    else if events[0].Read? then Observe(events[1..], at + 1, store, compute, seen + [Look(store, events[0].v)])
    else Observe(events[1..], at + 1, store[events[0].v := compute(at, seen)], compute, seen)
  }

  ghost function Along(blocks: seq<seq<Event>>, p: seq<nat>): seq<Event>
    requires forall i :: 0 <= i < |p| ==> p[i] < |blocks|
  {
    if p == [] then [] else blocks[p[0]] + Along(blocks, p[1..])
  }

  // A way execution can go on after block `b`: nowhere, or along a path.
  ghost predicate Continues(g: Graph, b: nat, p: seq<nat>) {
    p == [] || (IsPath(g, p) && g.Edge(b, p[0]))
  }

  lemma {:induction false} UnexposedIsUnread(events: seq<Event>, at: nat, s: map<nat, int>, t: map<nat, int>, v: nat,
      compute: (nat, seq<int>) -> int, seen: seq<int>)
    requires v !in Exposed(events)
    requires AgreeBut(s, t, {v})
    ensures Observe(events, at, s, compute, seen) == Observe(events, at, t, compute, seen)
    decreases |events|
  {
    if events != [] {
      var e := events[0];
      if e.Read? {
        UnexposedIsUnread(events[1..], at + 1, s, t, v, compute, seen + [Look(s, e.v)]);
      } else if e.v != v {
        SameWriteAgrees(s, t, {v}, e.v, compute(at, seen));
        assert {v} - {e.v} == {v};
        UnexposedIsUnread(events[1..], at + 1, s[e.v := compute(at, seen)], t[e.v := compute(at, seen)], v, compute, seen);
      } else {
        SameWriteAgrees(s, t, {v}, v, compute(at, seen));
        assert {v} - {v} == {};
        SameStoreSameReads(events[1..], at + 1, s[v := compute(at, seen)], t[v := compute(at, seen)], compute, seen);
      }
    }
  }

  lemma {:induction false} SameStoreSameReads(events: seq<Event>, at: nat, s: map<nat, int>, t: map<nat, int>,
      compute: (nat, seq<int>) -> int, seen: seq<int>)
    requires AgreeBut(s, t, {})
    ensures Observe(events, at, s, compute, seen) == Observe(events, at, t, compute, seen)
    decreases |events|
  {
    if events != [] {
      var e := events[0];
      if e.Read? {
        SameStoreSameReads(events[1..], at + 1, s, t, compute, seen + [Look(s, e.v)]);
      } else {
        SameWriteAgrees(s, t, {}, e.v, compute(at, seen));
        assert {} - {e.v} == {};
        SameStoreSameReads(events[1..], at + 1, s[e.v := compute(at, seen)], t[e.v := compute(at, seen)], compute, seen);
      }
    }
  }

  lemma {:induction false} ObservationsExtend(events: seq<Event>, at: nat, s: map<nat, int>, compute: (nat, seq<int>) -> int,
      seen: seq<int>)
    ensures seen <= Observe(events, at, s, compute, seen)
    decreases |events|
  {
    if events != [] {
      if events[0].Read? {
        ObservationsExtend(events[1..], at + 1, s, compute, seen + [Look(s, events[0].v)]);
      } else {
        ObservationsExtend(events[1..], at + 1, s[events[0].v := compute(at, seen)], compute, seen);
      }
    }
  }

  lemma {:induction false} ExposedIsRead(events: seq<Event>, at: nat, s: map<nat, int>, t: map<nat, int>, v: nat,
      compute: (nat, seq<int>) -> int, seen: seq<int>)
    requires v in Exposed(events)
    requires Look(s, v) != Look(t, v) && AgreeBut(s, t, {v})
    ensures Observe(events, at, s, compute, seen) != Observe(events, at, t, compute, seen)
    decreases |events|
  {
    var e := events[0];
    if e.Read? && e.v == v {
      ObservationsExtend(events[1..], at + 1, s, compute, seen + [Look(s, v)]);
      ObservationsExtend(events[1..], at + 1, t, compute, seen + [Look(t, v)]);
      assert (seen + [Look(s, v)])[|seen|] != (seen + [Look(t, v)])[|seen|];
    } else if e.Read? {
      ExposedIsRead(events[1..], at + 1, s, t, v, compute, seen + [Look(s, e.v)]);
    } else {
      SameWriteAgrees(s, t, {v}, e.v, compute(at, seen));
      assert {v} - {e.v} == {v};
      ExposedIsRead(events[1..], at + 1, s[e.v := compute(at, seen)], t[e.v := compute(at, seen)], v, compute, seen);
    }
  }

  // What is exposed along a path is live at its start, and the other way for
  // the path a live variable's reader lies on.
  lemma {:induction false} ExposedAlongIsLive(g: Graph, blocks: seq<seq<Event>>, p: seq<nat>, v: nat)
    requires g.Valid() && |blocks| == |g.succs| && IsPath(g, p)
    requires v in Exposed(Along(blocks, p))
    ensures Live(g, blocks, p[0], v)
    decreases |p|
  {
    ExposedConcat(blocks[p[0]], Along(blocks, p[1..]));
    LiveUnfolds(g, blocks, p[0], v);
    if v !in Exposed(blocks[p[0]]) {
      TailIsPath(g, p);
      ExposedAlongIsLive(g, blocks, p[1..], v);
      var i :| 0 <= i < |g.succs[p[0]]| && g.succs[p[0]][i] == p[1];
    }
  }

  lemma TailIsPath(g: Graph, p: seq<nat>)
    requires IsPath(g, p) && |p| > 1
    ensures IsPath(g, p[1..]) && g.Edge(p[0], p[1])
  {
    assert g.Edge(p[0], p[0 + 1]);
    forall i | 0 <= i < |p[1..]| - 1
      ensures g.Edge(p[1..][i], p[1..][i + 1])
    {
      assert g.Edge(p[i + 1], p[i + 1 + 1]);
    }
  }

  lemma {:induction false} ReadAheadIsExposed(g: Graph, blocks: seq<seq<Event>>, p: seq<nat>, v: nat)
    requires g.Valid() && |blocks| == |g.succs| && ReadAhead(g, blocks, p, v)
    ensures v in Exposed(Along(blocks, p))
    decreases |p|
  {
    ExposedConcat(blocks[p[0]], Along(blocks, p[1..]));
    if |p| > 1 {
      TailIsPath(g, p);
      assert forall i :: 0 <= i < |p[1..]| - 1 ==> p[1..][i] == p[i + 1];
      ReadAheadIsExposed(g, blocks, p[1..], v);
    }
  }

  // A store the pass calls dead may write anything: no continuation of the
  // program reads a different value anywhere.
  lemma DeadStoreIsUnobservable(g: Graph, blocks: seq<seq<Event>>, b: nat, k: nat, v: nat, p: seq<nat>, at: nat,
                                store: map<nat, int>, x: int, y: int, compute: (nat, seq<int>) -> int, seen: seq<int>)
    requires g.Valid() && |blocks| == |g.succs| && b < |blocks| && k < |blocks[b]|
    requires !NeededAfter(g, blocks, b, k, v) && Continues(g, b, p)
    ensures var events := blocks[b][k + 1..] + Along(blocks, p);
            Observe(events, at, store[v := x], compute, seen) == Observe(events, at, store[v := y], compute, seen)
  {
    var rest := blocks[b][k + 1..];
    ExposedConcat(rest, Along(blocks, p));
    if p != [] && v in Exposed(Along(blocks, p)) {
      ExposedAlongIsLive(g, blocks, p, v);
      var i :| 0 <= i < |g.succs[b]| && g.succs[b][i] == p[0];
      assert LiveAfter(g, blocks, b, v);
    }
    UnexposedIsUnread(rest + Along(blocks, p), at, store[v := x], store[v := y], v, compute, seen);
  }

  // And a store that is needed is observable: some continuation tells any two
  // values apart.
  lemma NeededStoreIsObservable(g: Graph, blocks: seq<seq<Event>>, b: nat, k: nat, v: nat, at: nat,
                                store: map<nat, int>, x: int, y: int, compute: (nat, seq<int>) -> int,
                                    seen: seq<int>) returns (p: seq<nat>)
    requires g.Valid() && |blocks| == |g.succs| && b < |blocks| && k < |blocks[b]|
    requires NeededAfter(g, blocks, b, k, v) && x != y
    ensures Continues(g, b, p)
    ensures var events := blocks[b][k + 1..] + Along(blocks, p);
            Observe(events, at, store[v := x], compute, seen) != Observe(events, at, store[v := y], compute, seen)
  {
    var rest := blocks[b][k + 1..];
    p := [];
    if v !in Exposed(rest) {
      var i: nat :| i < |g.succs[b]| && Live(g, blocks, g.succs[b][i], v);
      p :| ReadAhead(g, blocks, p, v) && p[0] == g.succs[b][i];
      ReadAheadIsExposed(g, blocks, p, v);
    }
    ExposedConcat(rest, Along(blocks, p));
    ExposedIsRead(rest + Along(blocks, p), at, store[v := x], store[v := y], v, compute, seen);
  }
}
