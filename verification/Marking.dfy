// The mark phase on the sorted table: which blocks a step marks, and why the
// marks at the end are exactly the reachable blocks.
module Marking {
  import opened GcModel
  import opened Options
  import opened BlockTable

  ghost predicate SameButMarks(a: seq<GcBlock>, b: seq<GcBlock>) {
    && |a| == |b|
    && forall i: nat {:trigger b[i]} {:trigger a[i]} :: i < |a| ==> a[i].(marked := b[i].marked) == b[i]
  }

  lemma MarksChangeNoBlock(a: seq<GcBlock>, b: seq<GcBlock>, deadCount: nat, pending: seq<GcBlock>)
    requires SameButMarks(a, b)
    requires TableOk(a, deadCount, pending)
    ensures TableOk(b, deadCount, pending) && Entries(b) == Entries(a)
    ensures NoneDead(a) ==> NoneDead(b)
  {
    hide Apart;
    SameDead(a, b);
    assert forall i: nat :: i < |a| ==> a[i].AsEntry() == b[i].AsEntry() && a[i].dead == b[i].dead;
  }

  lemma SameDead(a: seq<GcBlock>, b: seq<GcBlock>)
    requires SameButMarks(a, b)
    ensures CountDead(a) == CountDead(b)
  {
    if a != [] {
      var n := |a| - 1;
      assert a[n].dead == b[n].dead;
      SameDead(a[..n], b[..n]);
    }
  }

  // Blocks the mark phase can still push.
  ghost function Unmarked(bs: seq<GcBlock>): nat {
    if bs == [] then 0 else Unmarked(bs[..|bs| - 1]) + if bs[|bs| - 1].marked then 0 else 1
  }

  lemma UnmarkedUpdate(bs: seq<GcBlock>, i: nat)
    requires i < |bs| && !bs[i].marked
    ensures Unmarked(bs[i := bs[i].(marked := true)]) == Unmarked(bs) - 1
  {
    var n := |bs| - 1;
    if i == n {
      assert bs[i := bs[i].(marked := true)][..n] == bs[..n];
    } else {
      assert bs[i := bs[i].(marked := true)][..n] == bs[..n][i := bs[i].(marked := true)];
      UnmarkedUpdate(bs[..n], i);
    }
  }

  // Some traced word before word `w` of repetition `k` of `e` points into `f`.
  ghost predicate PointsToBefore(e: Entry, mem: Memory, f: Entry, k: nat, w: nat) {
    exists i: nat, j: nat :: (i < k || (i == k && j < w)) && e.Traced(i, j) && f.Holds(mem(e.SlotAddress(i, j)))
  }

  lemma NextWord(e: Entry, mem: Memory, f: Entry, k: nat, w: nat)
    ensures PointsToBefore(e, mem, f, k, w + 1) <==>
      PointsToBefore(e, mem, f, k, w) || (e.Traced(k, w) && f.Holds(mem(e.SlotAddress(k, w))))
  {
    if PointsToBefore(e, mem, f, k, w + 1) && !PointsToBefore(e, mem, f, k, w) {
      var i: nat, j: nat :| (i < k || (i == k && j < w + 1)) && e.Traced(i, j) && f.Holds(mem(e.SlotAddress(i, j)));
      assert i == k && j == w;
    }
  }

  lemma NextRepetition(e: Entry, mem: Memory, f: Entry, k: nat)
    requires e.desc.Some?
    ensures PointsToBefore(e, mem, f, k, e.desc.value.wordCount) <==> PointsToBefore(e, mem, f, k + 1, 0)
  {
  }

  lemma ScaleMonotone(i: nat, k: nat, stride: nat)
    ensures k <= i ==> k * stride <= i * stride
  {
  }

  lemma LastRepetition(e: Entry, mem: Memory, f: Entry, k: nat)
    requires e.desc.Some? && e.desc.value.size > 0
    requires k * e.desc.value.size + e.desc.value.size > e.size
    ensures PointsToBefore(e, mem, f, k, 0) <==> PointsTo(e, mem, f)
  {
    forall i: nat, j: nat | e.Traced(i, j)
      ensures i < k
    {
      ScaleMonotone(i, k, e.desc.value.size);
    }
  }

  // The marks after a step that pushed each newly marked block.
  ghost predicate Pushed(before: seq<GcBlock>, after: seq<GcBlock>, wl: seq<nat>, wl': seq<nat>) {
    && SameButMarks(before, after)
    && (forall i: nat {:trigger after[i].marked} :: i < |before| && before[i].marked ==> after[i].marked)
    && (forall i: nat {:trigger after[i].marked} :: i < |before| && after[i].marked && !before[i].marked ==> i in wl')
    && (forall i :: i in wl ==> i in wl')
    && (forall i :: i in wl' ==> i in wl || (i < |after| && after[i].marked))
    && |wl'| + Unmarked(after) == |wl| + Unmarked(before)
  }

  lemma PushedChains(a: seq<GcBlock>, b: seq<GcBlock>, c: seq<GcBlock>, wl: seq<nat>, wl': seq<nat>, wl'': seq<nat>)
    requires Pushed(a, b, wl, wl') && Pushed(b, c, wl', wl'')
    ensures Pushed(a, c, wl, wl'')
  {
    hide Unmarked;
    assert forall i: nat :: i < |a| ==> a[i].(marked := b[i].marked) == b[i] && b[i].(marked := c[i].marked) == c[i];
    assert forall i: nat :: i < |b| && b[i].marked ==> c[i].marked;
  }

  // Every marked block is reachable, and every pointer of a marked block that
  // is not waiting on the worklist leads to a marked block.
  ghost predicate MarkInvariant(bs: seq<GcBlock>, mem: Memory, words: seq<nat>, wl: seq<nat>) {
    && (forall i: nat {:trigger bs[i].marked} :: i < |bs| && bs[i].marked ==> Reachable(Entries(bs), mem, words, bs[i].AsEntry()))
    && (forall i: nat, j: nat {:trigger bs[i].marked, bs[j].marked} :: i < |bs| && j < |bs| && bs[i].marked && i !in wl ==>
          (PointsTo(bs[i].AsEntry(), mem, bs[j].AsEntry()) ==> bs[j].marked))
    && (forall i :: i in wl ==> i < |bs| && bs[i].marked)
  }

  ghost predicate RootsMarked(bs: seq<GcBlock>, words: seq<nat>) {
    forall i: nat {:trigger bs[i].marked} :: i < |bs| && Rooted(words, bs[i].AsEntry()) ==> bs[i].marked
  }

  // Considering a root word marks the block that holds it.
  lemma RootStep(before: seq<GcBlock>, after: seq<GcBlock>, mem: Memory, words: seq<nat>, n: nat, wl: seq<nat>,
      wl': seq<nat>)
    requires n < |words|
    requires NoneDead(before)
    requires MarkInvariant(before, mem, words, wl) && RootsMarked(before, words[..n])
    requires Pushed(before, after, wl, wl')
    requires forall i: nat {:trigger after[i].marked} :: i < |after| && after[i].marked && !before[i].marked ==> after[i].AsEntry().Holds(words[n])
    requires forall i: nat {:trigger after[i].marked} :: i < |after| && after[i].AsEntry().Holds(words[n]) ==> after[i].marked
    ensures MarkInvariant(after, mem, words, wl') && RootsMarked(after, words[..n + 1])
  {
    hide Unmarked, PointsTo, Reachable;
    SameEntries(before, after);
    forall i: nat | i < |after| && after[i].marked
      ensures Reachable(Entries(after), mem, words, after[i].AsEntry())
    {
      assert before[i].AsEntry() == after[i].AsEntry() && !before[i].dead;
      assert after[i].AsEntry() in Entries(after);
      if !before[i].marked {
        assert Rooted(words, after[i].AsEntry());
        RootIsReachable(Entries(after), mem, words, after[i].AsEntry());
      }
    }
    forall i: nat | i < |after| && Rooted(words[..n + 1], after[i].AsEntry())
      ensures after[i].marked
    {
      assert before[i].AsEntry() == after[i].AsEntry();
      var k :| 0 <= k < n + 1 && after[i].AsEntry().Holds(words[..n + 1][k]);
      assert k < n ==> words[..n][k] == words[k] && Rooted(words[..n], before[i].AsEntry()) && before[i].marked;
    }
    assert forall i: nat :: i < |after| ==> before[i].AsEntry() == after[i].AsEntry();
  }

  lemma SameEntries(a: seq<GcBlock>, b: seq<GcBlock>)
    requires SameButMarks(a, b)
    ensures Entries(a) == Entries(b)
  {
    assert forall i: nat :: i < |a| ==> a[i].AsEntry() == b[i].AsEntry() && a[i].dead == b[i].dead;
  }

  // Tracing the block popped off the worklist.
  lemma TraceStep(before: seq<GcBlock>, after: seq<GcBlock>, mem: Memory, words: seq<nat>, x: nat, wl: seq<nat>,
      wl': seq<nat>)
    requires NoneDead(before) && x < |before|
    requires MarkInvariant(before, mem, words, wl + [x])
    requires Pushed(before, after, wl, wl')
    requires forall i: nat {:trigger after[i].marked} :: i < |after| && after[i].marked && !before[i].marked ==>
      PointsTo(before[x].AsEntry(), mem, after[i].AsEntry())
    requires forall i: nat {:trigger after[i].marked} :: i < |after| && PointsTo(before[x].AsEntry(), mem, after[i].AsEntry()) ==> after[i].marked
    ensures MarkInvariant(after, mem, words, wl')
  {
    hide Unmarked, PointsTo, Reachable;
    SameEntries(before, after);
    assert x in wl + [x];
    forall i: nat | i < |after| && after[i].marked
      ensures Reachable(Entries(after), mem, words, after[i].AsEntry())
    {
      assert before[i].AsEntry() == after[i].AsEntry() && !before[i].dead;
      assert after[i].AsEntry() in Entries(after);
      if !before[i].marked {
        ReachableExtends(Entries(after), mem, words, before[x].AsEntry(), after[i].AsEntry());
      }
    }
    forall i: nat, j: nat | i < |after| && j < |after| && after[i].marked && i !in wl' && PointsTo(after[i].AsEntry(), mem, after[j].AsEntry())
      ensures after[j].marked
    {
      assert before[i].AsEntry() == after[i].AsEntry() && before[j].AsEntry() == after[j].AsEntry();
      assert before[i].marked;
      if i != x {
        assert i !in wl + [x];
        assert before[j].marked;
      }
    }
    forall i | i in wl'
      ensures i < |after| && after[i].marked
    {
      assert i in wl ==> i in wl + [x] && before[i].marked;
    }
  }

  lemma RecordsDiffer(bs: seq<GcBlock>, i: nat, j: nat)
    requires SortedApart(bs) && i < |bs| && j < |bs|
    ensures bs[i].AsEntry() == bs[j].AsEntry() ==> i == j
  {
  }

  ghost function MarkedEntries(bs: seq<GcBlock>): set<Entry> {
    set j: nat | j < |bs| && bs[j].marked :: bs[j].AsEntry()
  }

  // With the worklist empty, marked blocks point to marked blocks.
  lemma MarkedIsClosed(bs: seq<GcBlock>, mem: Memory, words: seq<nat>)
    requires MarkInvariant(bs, mem, words, [])
    ensures forall a, b :: a in MarkedEntries(bs) && b in Entries(bs) && PointsTo(a, mem, b) ==> b in MarkedEntries(bs)
  {
    hide PointsTo, Reachable, Rooted;
    forall a, b | a in MarkedEntries(bs) && b in Entries(bs) && PointsTo(a, mem, b)
      ensures b in MarkedEntries(bs)
    {
      var j: nat :| j < |bs| && bs[j].marked && bs[j].AsEntry() == a;
      var k: nat :| k < |bs| && !bs[k].dead && bs[k].AsEntry() == b;
      assert bs[k].marked;
    }
  }

  lemma RootedIsMarked(bs: seq<GcBlock>, words: seq<nat>)
    requires RootsMarked(bs, words)
    ensures forall r :: r in Entries(bs) && Rooted(words, r) ==> r in MarkedEntries(bs)
  {
    hide Rooted;
    forall r | r in Entries(bs) && Rooted(words, r)
      ensures r in MarkedEntries(bs)
    {
      var k: nat :| k < |bs| && !bs[k].dead && bs[k].AsEntry() == r;
      assert bs[k].marked;
    }
  }

  // With the worklist empty, the marks are exactly the reachable blocks.
  lemma MarksAreExact(bs: seq<GcBlock>, mem: Memory, words: seq<nat>, i: nat)
    requires NoneDead(bs) && SortedApart(bs)
    requires MarkInvariant(bs, mem, words, []) && RootsMarked(bs, words)
    requires i < |bs|
    ensures bs[i].marked <==> Reachable(Entries(bs), mem, words, bs[i].AsEntry())
  {
    hide PointsTo, Reachable, Rooted, SortedApart, RootsMarked;
    if Reachable(Entries(bs), mem, words, bs[i].AsEntry()) {
      MarkedIsClosed(bs, mem, words);
      RootedIsMarked(bs, words);
      ClosedSetHoldsReachable(Entries(bs), mem, words, MarkedEntries(bs), bs[i].AsEntry());
      var j: nat :| j < |bs| && bs[j].marked && bs[j].AsEntry() == bs[i].AsEntry();
      RecordsDiffer(bs, i, j);
    }
  }

  lemma PushedNothing(bs: seq<GcBlock>, wl: seq<nat>)
    ensures Pushed(bs, bs, wl, wl)
  {
  }

  // Everything block `x` points to is marked, and nothing else was.
  ghost predicate Traced(before: seq<GcBlock>, after: seq<GcBlock>, mem: Memory, x: nat)
    requires x < |before| && |before| == |after|
  {
    forall i: nat {:trigger after[i].marked} :: i < |after| ==>
      (after[i].marked <==> before[i].marked || PointsTo(before[x].AsEntry(), mem, after[i].AsEntry()))
  }

  // The same, with the words from word `w` of repetition `k` on still to do.
  ghost predicate TracedBefore(before: seq<GcBlock>, after: seq<GcBlock>, mem: Memory, e: Entry, k: nat, w: nat)
    requires |before| == |after|
  {
    forall i: nat {:trigger after[i].marked} :: i < |after| ==>
      (after[i].marked <==> before[i].marked || PointsToBefore(e, mem, after[i].AsEntry(), k, w))
  }

  // One traced word considered.
  lemma WordTraced(before: seq<GcBlock>, now: seq<GcBlock>, after: seq<GcBlock>, mem: Memory, e: Entry, k: nat, w: nat)
    requires SameButMarks(before, now) && SameButMarks(now, after)
    requires TracedBefore(before, now, mem, e, k, w)
    requires e.Traced(k, w) ==> forall i: nat {:trigger after[i].marked} :: i < |after| ==>
      (after[i].marked <==> now[i].marked || after[i].AsEntry().Holds(mem(e.SlotAddress(k, w))))
    requires !e.Traced(k, w) ==> after == now
    ensures TracedBefore(before, after, mem, e, k, w + 1)
  {
    forall i: nat | i < |after|
      ensures after[i].marked <==> before[i].marked || PointsToBefore(e, mem, after[i].AsEntry(), k, w + 1)
    {
      hide PointsToBefore;
      assert now[i].AsEntry() == after[i].AsEntry();
      assert now[i].marked <==> before[i].marked || PointsToBefore(e, mem, now[i].AsEntry(), k, w);
      NextWord(e, mem, after[i].AsEntry(), k, w);
    }
  }

  lemma RepetitionTraced(before: seq<GcBlock>, after: seq<GcBlock>, mem: Memory, e: Entry, k: nat)
    requires |before| == |after| && e.desc.Some?
    requires TracedBefore(before, after, mem, e, k, e.desc.value.wordCount)
    ensures TracedBefore(before, after, mem, e, k + 1, 0)
  {
    forall i: nat | i < |after|
      ensures after[i].marked <==> before[i].marked || PointsToBefore(e, mem, after[i].AsEntry(), k + 1, 0)
    {
      NextRepetition(e, mem, after[i].AsEntry(), k);
    }
  }

  lemma AllTraced(before: seq<GcBlock>, after: seq<GcBlock>, mem: Memory, x: nat, k: nat)
    requires x < |before| && |before| == |after|
    requires var e := before[x].AsEntry();
             && e.desc.Some? && e.desc.value.size > 0
             && k * e.desc.value.size + e.desc.value.size > e.size
             && TracedBefore(before, after, mem, e, k, 0)
    ensures Traced(before, after, mem, x)
  {
    forall i: nat | i < |after|
      ensures after[i].marked <==> before[i].marked || PointsTo(before[x].AsEntry(), mem, after[i].AsEntry())
    {
      LastRepetition(before[x].AsEntry(), mem, after[i].AsEntry(), k);
    }
  }

  lemma StartOfMark(bs: seq<GcBlock>, mem: Memory, words: seq<nat>)
    requires forall i: nat :: i < |bs| ==> !bs[i].marked
    ensures MarkInvariant(bs, mem, words, []) && RootsMarked(bs, words[..0])
  {
  }

  lemma RootsStayMarked(before: seq<GcBlock>, after: seq<GcBlock>, words: seq<nat>, wl: seq<nat>, wl': seq<nat>)
    requires RootsMarked(before, words) && Pushed(before, after, wl, wl')
    ensures RootsMarked(after, words)
  {
    hide Unmarked, Rooted;
    assert forall i: nat :: i < |after| ==> before[i].AsEntry() == after[i].AsEntry() && (before[i].marked ==> after[i].marked);
  }

  lemma AllMarksExact(bs: seq<GcBlock>, deadCount: nat, mem: Memory, words: seq<nat>)
    requires TableOk(bs, deadCount, []) && NoneDead(bs)
    requires MarkInvariant(bs, mem, words, []) && RootsMarked(bs, words)
    ensures forall i: nat {:trigger bs[i].marked} :: i < |bs| ==> (bs[i].marked <==> Reachable(Entries(bs), mem, words, bs[i].AsEntry()))
  {
    forall i: nat | i < |bs|
      ensures bs[i].marked <==> Reachable(Entries(bs), mem, words, bs[i].AsEntry())
    {
      MarksAreExact(bs, mem, words, i);
    }
  }

  lemma NoWordTraced(bs: seq<GcBlock>, mem: Memory, e: Entry)
    ensures TracedBefore(bs, bs, mem, e, 0, 0)
  {
  }

  // ---- What the sweep and the pins owe the marks ----

  // A block of no bytes holds no address: no word can keep it alive.
  lemma EmptyBlockIsUnreachable(table: set<Entry>, mem: Memory, words: seq<nat>, e: Entry)
    requires e.size == 0
    ensures !Reachable(table, mem, words, e)
  {
    forall trace | IsTrace(table, mem, words, trace)
      ensures trace[|trace| - 1] != e
    {
      if |trace| > 1 {
        assert PointsTo(trace[|trace| - 2], mem, trace[|trace| - 2 + 1]);
      }
    }
  }

  lemma SweepKeepsSurvivors(bs: seq<GcBlock>, deadCount: nat, mem: Memory, words: seq<nat>)
    requires TableOk(bs, deadCount, []) && NoneDead(bs)
    requires forall i: nat {:trigger bs[i].marked} :: i < |bs| ==> (bs[i].marked <==> Reachable(Entries(bs), mem, words, bs[i].AsEntry()))
    ensures Entries(Kept(IsMarked, bs)) == Survivors(Entries(bs), mem, words)
    ensures TableOk(Kept(IsMarked, bs), 0, []) && NoneDead(Kept(IsMarked, bs))
  {
    var kept := Kept(IsMarked, bs);
    KeptStaysSorted(IsMarked, bs);
    KeptEntries(IsMarked, bs);
    hide Reachable, SortedApart, AboveSentinels;
    forall i: nat | i < |kept|
      ensures !kept[i].dead
    {
      var j := KeptIsDrawn(IsMarked, bs, i);
    }
    NoDeadCounted(kept);
    forall e | e in Entries(bs) && Reachable(Entries(bs), mem, words, e)
      ensures e in Entries(kept)
    {
      var i: nat :| i < |bs| && !bs[i].dead && bs[i].AsEntry() == e;
      assert bs[i].marked;
    }
    forall e | e in Entries(kept)
      ensures e in Survivors(Entries(bs), mem, words)
    {
      var i: nat :| i < |bs| && IsMarked(bs[i]) && !bs[i].dead && bs[i].AsEntry() == e;
      assert bs[i].marked;
    }
  }

  // A pinned block survives every collection unless a realloc emptied it:
  // exactly then its pin is left naming nothing.
  lemma PinsAfterCollection(pins: seq<Pin>, live: set<Entry>, mem: Memory, words: seq<nat>)
    requires Disjoint(live) && DistinctPins(pins) && PinsName(pins, live)
    requires forall i: nat :: i < |pins| ==> pins[i].start in words
    ensures PinsName(pins, Survivors(live, mem, words)) <==> PinnedNonempty(pins, live)
    ensures forall e :: e in live && PinCount(pins, e.start) > 0 && e.size > 0 ==> e in Survivors(live, mem, words)
  {
    var kept := Survivors(live, mem, words);
    forall e | e in live && PinCount(pins, e.start) > 0
      ensures e in kept <==> e.size > 0
      ensures PinsName(pins, kept) ==> e in kept
    {
      if forall i: nat :: i < |pins| ==> pins[i].start != e.start {
        PinCountAbsent(pins, e.start);
        assert false;
      }
      var i: nat :| i < |pins| && pins[i].start == e.start;
      if e.size > 0 {
        var k :| 0 <= k < |words| && words[k] == e.start;
        assert Rooted(words, e);
        RootIsReachable(live, mem, words, e);
      } else {
        EmptyBlockIsUnreachable(live, mem, words, e);
      }
      if PinsName(pins, kept) {
        var x :| x in At(kept, pins[i].start);
        StartsDiffer(live, x, e);
      }
    }
    if forall e :: e in live && PinCount(pins, e.start) > 0 ==> e.size > 0 {
      forall i: nat | i < |pins|
        ensures At(kept, pins[i].start) != {}
      {
        PinCountPresent(pins, i);
        var x :| x in At(live, pins[i].start);
        assert x in At(kept, pins[i].start);
      }
    }
  }

  lemma StartsDiffer(live: set<Entry>, a: Entry, b: Entry)
    requires Disjoint(live) && a in live && b in live && a.start == b.start
    ensures a == b
  {
  }
}
