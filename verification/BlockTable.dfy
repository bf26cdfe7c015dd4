// The collector's two-tier block table: blocks of the last collection in a
// sorted array, blocks registered since in the pending table, and the pins.
// Whatever the tiers hold, the table means one set of disjoint live blocks.
module BlockTable {
  import opened GcModel
  import opened Options
  import opened PendingBlocks

  datatype Pin = Pin(start: nat, count: nat)

  // The live blocks among some records.
  ghost function Entries(bs: seq<GcBlock>): set<Entry> {
    set i: nat | i < |bs| && !bs[i].dead :: bs[i].AsEntry()
  }

  ghost predicate PairwiseApart(bs: seq<GcBlock>) {
    forall i: nat, j: nat :: i < |bs| && j < |bs| && i != j ==> Apart(bs[i].AsEntry(), bs[j].AsEntry())
  }

  // Strictly sorted by start, with no two records sharing a byte.
  ghost predicate SortedApart(bs: seq<GcBlock>) {
    forall i: nat, j: nat :: i < j < |bs| ==> bs[i].AsEntry().End() <= bs[j].start
  }

  ghost predicate CrossApart(blocks: seq<GcBlock>, pending: seq<GcBlock>) {
    forall i: nat, j: nat :: i < |blocks| && j < |pending| && !blocks[i].dead ==> Apart(blocks[i].AsEntry(), pending[j].AsEntry())
  }

  ghost predicate AboveSentinels(bs: seq<GcBlock>) {
    forall i: nat :: i < |bs| ==> bs[i].start > 1
  }

  ghost predicate NoneDead(bs: seq<GcBlock>) {
    forall i: nat :: i < |bs| ==> !bs[i].dead
  }

  ghost function CountDead(bs: seq<GcBlock>): nat {
    if bs == [] then 0 else CountDead(bs[..|bs| - 1]) + if bs[|bs| - 1].dead then 1 else 0
  }

  ghost predicate TableOk(blocks: seq<GcBlock>, deadCount: nat, pending: seq<GcBlock>) {
    && SortedApart(blocks) && AboveSentinels(blocks)
    && deadCount == CountDead(blocks)
    && PairwiseApart(pending) && AboveSentinels(pending) && NoneDead(pending)
    && CrossApart(blocks, pending)
  }

  lemma TableIsDisjoint(blocks: seq<GcBlock>, deadCount: nat, pending: seq<GcBlock>)
    requires TableOk(blocks, deadCount, pending)
    ensures Disjoint(Entries(blocks) + Entries(pending))
  {
  }

  lemma NoDeadCounted(bs: seq<GcBlock>)
    ensures CountDead(bs) == 0 <==> NoneDead(bs)
  {
    if bs != [] {
      var n := |bs| - 1;
      NoDeadCounted(bs[..n]);
      assert NoneDead(bs[..n]) && !bs[n].dead ==> NoneDead(bs) by {
        if NoneDead(bs[..n]) && !bs[n].dead {
          forall i: nat | i < |bs| ensures !bs[i].dead {
            if i < n { assert bs[..n][i] == bs[i]; }
          }
        }
      }
      assert NoneDead(bs) ==> NoneDead(bs[..n]);
    }
  }

  lemma CountDeadUpdate(bs: seq<GcBlock>, i: nat)
    requires i < |bs| && !bs[i].dead
    ensures CountDead(bs[i := bs[i].(dead := true)]) == CountDead(bs) + 1
  {
    var n := |bs| - 1;
    if i == n {
      assert bs[i := bs[i].(dead := true)][..n] == bs[..n];
    } else {
      assert bs[i := bs[i].(dead := true)][..n] == bs[..n][i := bs[i].(dead := true)];
      CountDeadUpdate(bs[..n], i);
    }
  }

  // ---- Compaction: dropping dead records, and unmarked ones in the sweep ----

  predicate IsLive(b: GcBlock) { !b.dead }

  predicate IsMarked(b: GcBlock) { b.marked }

  ghost function Kept(keep: GcBlock -> bool, bs: seq<GcBlock>): seq<GcBlock> {
    if bs == [] then []
    else Kept(keep, bs[..|bs| - 1]) + if keep(bs[|bs| - 1]) then [bs[|bs| - 1]] else []
  }

  // One step of the in-place compaction loops: `bs` holds the kept records
  // up to `w` and has not been touched from `i` on.
  lemma CompactionStep(keep: GcBlock -> bool, was: seq<GcBlock>, bs: seq<GcBlock>, w: nat, i: nat)
    requires w <= i < |bs| == |was|
    requires bs[..w] == Kept(keep, was[..i]) && bs[i..] == was[i..]
    ensures bs[i] == was[i]
    ensures keep(bs[i]) ==> bs[w := bs[i]][..w + 1] == Kept(keep, was[..i + 1]) && bs[w := bs[i]][i + 1..] == was[i + 1..]
    ensures !keep(bs[i]) ==> bs[..w] == Kept(keep, was[..i + 1]) && bs[i + 1..] == was[i + 1..]
  {
    assert was[..i + 1][..i] == was[..i];
    assert bs[i] == bs[i..][0] == was[i..][0];
    assert bs[i + 1..] == bs[i..][1..];
    assert was[i + 1..] == was[i..][1..];
  }

  lemma KeptMembers(keep: GcBlock -> bool, bs: seq<GcBlock>, b: GcBlock)
    ensures b in Kept(keep, bs) <==> b in bs && keep(b)
  {
    if bs != [] {
      var n := |bs| - 1;
      assert bs == bs[..n] + [bs[n]];
      KeptMembers(keep, bs[..n], b);
    }
  }

  lemma KeptIsDrawn(keep: GcBlock -> bool, bs: seq<GcBlock>, i: nat) returns (j: nat)
    requires i < |Kept(keep, bs)|
    ensures j < |bs| && bs[j] == Kept(keep, bs)[i] && keep(bs[j])
  {
    KeptMembers(keep, bs, Kept(keep, bs)[i]);
    j :| j < |bs| && bs[j] == Kept(keep, bs)[i];
  }

  lemma KeptEndsBefore(keep: GcBlock -> bool, bs: seq<GcBlock>, last: GcBlock, i: nat)
    requires SortedApart(bs + [last]) && AboveSentinels(bs + [last])
    requires i < |Kept(keep, bs)|
    ensures Kept(keep, bs)[i].AsEntry().End() <= last.start && Kept(keep, bs)[i].start > 1
  {
    hide Kept;
    var j := KeptIsDrawn(keep, bs, i);
    assert (bs + [last])[j] == bs[j] && (bs + [last])[|bs|] == last;
  }

  lemma SortedThen(front: seq<GcBlock>, last: GcBlock)
    requires SortedApart(front) && AboveSentinels(front)
    requires last.start > 1 && forall i: nat :: i < |front| ==> front[i].AsEntry().End() <= last.start
    ensures SortedApart(front + [last]) && AboveSentinels(front + [last])
  {
  }

  lemma SortedBefore(bs: seq<GcBlock>, n: nat)
    requires n < |bs| && SortedApart(bs) && AboveSentinels(bs)
    ensures SortedApart(bs[..n]) && AboveSentinels(bs[..n]) && bs[n].start > 1
  {
  }

  lemma KeptStaysSorted(keep: GcBlock -> bool, bs: seq<GcBlock>)
    requires SortedApart(bs) && AboveSentinels(bs)
    ensures SortedApart(Kept(keep, bs)) && AboveSentinels(Kept(keep, bs))
    ensures |Kept(keep, bs)| <= |bs|
  {
    if bs != [] {
      hide SortedApart, AboveSentinels;
      var n := |bs| - 1;
      var front := Kept(keep, bs[..n]);
      SortedBefore(bs, n);
      KeptStaysSorted(keep, bs[..n]);
      assert bs == bs[..n] + [bs[n]];
      forall i: nat | i < |front|
        ensures front[i].AsEntry().End() <= bs[n].start && front[i].start > 1
      {
        KeptEndsBefore(keep, bs[..n], bs[n], i);
      }
      SortedThen(front, bs[n]);
    }
  }

  lemma KeptEntries(keep: GcBlock -> bool, bs: seq<GcBlock>)
    ensures forall e :: e in Entries(Kept(keep, bs)) <==> exists i: nat :: i < |bs| && keep(bs[i]) && !bs[i].dead && bs[i].AsEntry() == e
  {
    var kept := Kept(keep, bs);
    forall e | e in Entries(kept)
      ensures exists i: nat :: i < |bs| && keep(bs[i]) && !bs[i].dead && bs[i].AsEntry() == e
    {
      var j: nat :| j < |kept| && !kept[j].dead && kept[j].AsEntry() == e;
      KeptMembers(keep, bs, kept[j]);
      var i: nat :| i < |bs| && bs[i] == kept[j];
    }
    forall i: nat | i < |bs| && keep(bs[i]) && !bs[i].dead
      ensures bs[i].AsEntry() in Entries(kept)
    {
      KeptMembers(keep, bs, bs[i]);
      var j: nat :| j < |kept| && kept[j] == bs[i];
    }
  }

  // ---- Sorting ----

  function Insert(b: GcBlock, bs: seq<GcBlock>): seq<GcBlock> {
    if bs == [] || b.start < bs[0].start then [b] + bs else [bs[0]] + Insert(b, bs[1..])
  }

  // What qsort() leaves: with no two starts equal, sorting has one outcome.
  function SortByStart(bs: seq<GcBlock>): seq<GcBlock> {
    if bs == [] then [] else Insert(bs[0], SortByStart(bs[1..]))
  }

  lemma InsertPermutes(b: GcBlock, bs: seq<GcBlock>)
    ensures multiset(Insert(b, bs)) == multiset(bs) + multiset{b}
    ensures |Insert(b, bs)| == |bs| + 1
  {
    if bs == [] || b.start < bs[0].start {
    } else {
      assert bs == [bs[0]] + bs[1..];
      InsertPermutes(b, bs[1..]);
    }
  }

  lemma SortPermutes(bs: seq<GcBlock>)
    ensures multiset(SortByStart(bs)) == multiset(bs)
    ensures |SortByStart(bs)| == |bs|
  {
    if bs != [] {
      assert bs == [bs[0]] + bs[1..];
      SortPermutes(bs[1..]);
      InsertPermutes(bs[0], SortByStart(bs[1..]));
    }
  }

  lemma {:induction false} InsertSorts(b: GcBlock, bs: seq<GcBlock>)
    requires SortedApart(bs)
    requires forall x :: x in bs ==> Apart(b.AsEntry(), x.AsEntry())
    ensures SortedApart(Insert(b, bs))
  {
    if bs == [] || b.start < bs[0].start {
      forall i: nat | i < |bs|
        ensures b.AsEntry().End() <= bs[i].start
      {
        assert bs[i] in bs;
        assert i > 0 ==> bs[0].AsEntry().End() <= bs[i].start;
      }
      ConsSorts(b, bs);
    } else {
      var rest := Insert(b, bs[1..]);
      InsertSorts(b, bs[1..]);
      InsertPermutes(b, bs[1..]);
      forall i: nat | i < |rest|
        ensures bs[0].AsEntry().End() <= rest[i].start
      {
        hide SortedApart;
        assert rest[i] in multiset(rest);
        assert rest[i] == b || rest[i] in bs[1..];
        assert bs[0] in bs;
        FirstEndsBefore(bs, rest[i]);
      }
      ConsSorts(bs[0], rest);
    }
  }

  lemma ConsSorts(b: GcBlock, bs: seq<GcBlock>)
    requires SortedApart(bs) && forall i: nat :: i < |bs| ==> b.AsEntry().End() <= bs[i].start
    ensures SortedApart([b] + bs)
  {
  }

  lemma FirstEndsBefore(bs: seq<GcBlock>, x: GcBlock)
    requires bs != [] && SortedApart(bs)
    ensures x in bs[1..] ==> bs[0].AsEntry().End() <= x.start
  {
  }

  lemma SortSorts(bs: seq<GcBlock>)
    requires PairwiseApart(bs)
    ensures SortedApart(SortByStart(bs))
  {
    if bs != [] {
      SortSorts(bs[1..]);
      SortPermutes(bs[1..]);
      forall x | x in SortByStart(bs[1..])
        ensures Apart(bs[0].AsEntry(), x.AsEntry())
      {
        assert x in multiset(SortByStart(bs[1..]));
        assert x in bs[1..];
      }
      InsertSorts(bs[0], SortByStart(bs[1..]));
    }
  }

  lemma SameMembersSameEntries(a: seq<GcBlock>, b: seq<GcBlock>)
    requires forall x :: x in a <==> x in b
    ensures Entries(a) == Entries(b)
    ensures NoneDead(a) ==> NoneDead(b)
    ensures AboveSentinels(a) ==> AboveSentinels(b)
  {
    assert forall i: nat :: i < |b| ==> b[i] in a;
    forall i: nat | i < |a| && !a[i].dead
      ensures a[i].AsEntry() in Entries(b)
    {
      assert a[i] in b;
    }
    forall i: nat | i < |b| && !b[i].dead
      ensures b[i].AsEntry() in Entries(a)
    {
      assert b[i] in a;
    }
  }

  lemma EntriesConcat(a: seq<GcBlock>, b: seq<GcBlock>)
    ensures Entries(a + b) == Entries(a) + Entries(b)
  {
    var all := a + b;
    forall i: nat | i < |a| && !a[i].dead ensures a[i].AsEntry() in Entries(all) {
      assert all[i] == a[i];
    }
    forall i: nat | i < |b| && !b[i].dead ensures b[i].AsEntry() in Entries(all) {
      assert all[|a| + i] == b[i];
    }
  }

  lemma ConcatIsApart(blocks: seq<GcBlock>, pending: seq<GcBlock>)
    requires TableOk(blocks, 0, pending)
    ensures PairwiseApart(blocks + pending) && AboveSentinels(blocks + pending) && NoneDead(blocks + pending)
  {
    NoDeadCounted(blocks);
  }

  lemma NoTierConflict(bs: seq<GcBlock>)
    requires SortedApart(bs) && AboveSentinels(bs) && CountDead(bs) == 0
    ensures TableOk(bs, 0, [])
  {
  }

  // Merging the pending blocks into a sorted array with no dead record.
  lemma MergeKeepsTable(blocks: seq<GcBlock>, pending: seq<GcBlock>)
    requires TableOk(blocks, 0, pending)
    ensures TableOk(SortByStart(blocks + pending), 0, [])
    ensures Entries(SortByStart(blocks + pending)) == Entries(blocks) + Entries(pending)
    ensures NoneDead(SortByStart(blocks + pending))
  {
    var all := blocks + pending;
    var sorted := SortByStart(all);
    ConcatIsApart(blocks, pending);
    SortPermutes(all);
    SortSorts(all);
    hide PairwiseApart, SortByStart, SortedApart, NoneDead, AboveSentinels, Entries;
    forall x
      ensures x in sorted <==> x in all
    {
      assert x in multiset(sorted) <==> x in multiset(all);
    }
    SameMembersSameEntries(all, sorted);
    EntriesConcat(blocks, pending);
    NoDeadCounted(sorted);
    NoTierConflict(sorted);
  }

  lemma EmptyTable()
    ensures TableOk([], 0, []) && Entries([]) == {}
  {
  }

  // ---- Steps of the table, on its two tiers ----

  lemma AppendKeepsTable(blocks: seq<GcBlock>, deadCount: nat, pending: seq<GcBlock>, b: GcBlock)
    requires TableOk(blocks, deadCount, pending)
    requires !b.dead && Free(b.AsEntry(), Entries(blocks) + Entries(pending))
    ensures TableOk(blocks, deadCount, pending + [b])
    ensures Entries(pending + [b]) == Entries(pending) + {b.AsEntry()}
    ensures forall i: nat :: i < |pending| ==> pending[i].start != b.start
  {
    var longer := pending + [b];
    forall i: nat | i < |pending|
      ensures Apart(pending[i].AsEntry(), b.AsEntry())
    {
      assert pending[i].AsEntry() in Entries(pending);
    }
    forall i: nat | i < |blocks| && !blocks[i].dead
      ensures Apart(blocks[i].AsEntry(), b.AsEntry())
    {
      assert blocks[i].AsEntry() in Entries(blocks);
    }
    assert longer[|pending|] == b;
    forall i: nat | i < |pending| ensures pending[i].AsEntry() in Entries(longer) {
      assert longer[i] == pending[i];
    }
  }

  lemma RemovePendingKeepsTable(blocks: seq<GcBlock>, deadCount: nat, pending: seq<GcBlock>, idx: nat)
    requires TableOk(blocks, deadCount, pending) && idx < |pending|
    ensures var last := |pending| - 1;
            var pending' := pending[idx := pending[last]][..last];
            && TableOk(blocks, deadCount, pending')
            && Entries(pending') == Entries(pending) - {pending[idx].AsEntry()}
            && At(Entries(blocks) + Entries(pending), pending[idx].start) == {pending[idx].AsEntry()}
            && pending[idx].AsEntry() !in Entries(blocks)
  {
    var last := |pending| - 1;
    var pending' := pending[idx := pending[last]][..last];
    forall i: nat | i < |pending| && i != idx
      ensures pending[i].AsEntry() in Entries(pending') && pending[i].start != pending[idx].start
    {
      assert pending'[if i == last then idx else i] == pending[i];
    }
  }

  lemma KillKeepsTable(blocks: seq<GcBlock>, deadCount: nat, pending: seq<GcBlock>, i: nat)
    requires TableOk(blocks, deadCount, pending) && i < |blocks| && !blocks[i].dead
    ensures var blocks' := blocks[i := blocks[i].(dead := true)];
            && TableOk(blocks', deadCount + 1, pending)
            && Entries(blocks') == Entries(blocks) - {blocks[i].AsEntry()}
            && At(Entries(blocks) + Entries(pending), blocks[i].start) == {blocks[i].AsEntry()}
            && blocks[i].AsEntry() !in Entries(pending)
  {
    var blocks' := blocks[i := blocks[i].(dead := true)];
    CountDeadUpdate(blocks, i);
    hide CountDead;
    KillKeepsEntries(blocks, i);
    forall j: nat | j < |pending|
      ensures pending[j].start != blocks[i].start
    {
      assert Apart(blocks[i].AsEntry(), pending[j].AsEntry());
    }
  }

  lemma KillKeepsEntries(blocks: seq<GcBlock>, i: nat)
    requires SortedApart(blocks) && i < |blocks| && !blocks[i].dead
    ensures Entries(blocks[i := blocks[i].(dead := true)]) == Entries(blocks) - {blocks[i].AsEntry()}
    ensures At(Entries(blocks), blocks[i].start) == {blocks[i].AsEntry()}
  {
    var blocks' := blocks[i := blocks[i].(dead := true)];
    forall j: nat | j < |blocks| && j != i && !blocks[j].dead
      ensures blocks[j].AsEntry() in Entries(blocks') && blocks[j].start != blocks[i].start
    {
      assert blocks'[j] == blocks[j];
    }
  }

  lemma DropDeadKeepsTable(blocks: seq<GcBlock>, deadCount: nat, pending: seq<GcBlock>)
    requires TableOk(blocks, deadCount, pending)
    ensures TableOk(Kept(IsLive, blocks), 0, pending)
    ensures Entries(Kept(IsLive, blocks)) == Entries(blocks)
    ensures NoneDead(Kept(IsLive, blocks))
  {
    var blocks' := Kept(IsLive, blocks);
    KeptStaysSorted(IsLive, blocks);
    KeptEntries(IsLive, blocks);
    hide SortedApart, PairwiseApart, AboveSentinels;
    forall i: nat | i < |blocks'|
      ensures !blocks'[i].dead
      ensures forall j: nat :: j < |pending| ==> Apart(blocks'[i].AsEntry(), pending[j].AsEntry())
    {
      var k := KeptIsDrawn(IsLive, blocks, i);
    }
    NoDeadCounted(blocks');
  }

  // ---- Pins ----

  ghost predicate DistinctPins(pins: seq<Pin>) {
    && (forall i: nat, j: nat :: i < j < |pins| ==> pins[i].start != pins[j].start)
    && forall i: nat :: i < |pins| ==> pins[i].count > 0
  }

  // Pins outstanding on the block that starts at `a`.
  ghost function PinCount(pins: seq<Pin>, a: nat): nat {
    if pins == [] then 0
    else PinCount(pins[..|pins| - 1], a) + if pins[|pins| - 1].start == a then pins[|pins| - 1].count else 0
  }

  // Every pin names the start of a live block.
  ghost predicate PinsName(pins: seq<Pin>, live: set<Entry>) {
    forall i: nat :: i < |pins| ==> At(live, pins[i].start) != {}
  }

  lemma PinCountUpdate(pins: seq<Pin>, i: nat, p: Pin, a: nat)
    requires i < |pins|
    ensures PinCount(pins[i := p], a) + (if pins[i].start == a then pins[i].count else 0)
         == PinCount(pins, a) + (if p.start == a then p.count else 0)
  {
    var n := |pins| - 1;
    if i == n {
      assert pins[i := p][..n] == pins[..n];
    } else {
      assert pins[i := p][..n] == pins[..n][i := p];
      PinCountUpdate(pins[..n], i, p, a);
    }
  }

  lemma PinCountAbsent(pins: seq<Pin>, a: nat)
    requires forall i: nat :: i < |pins| ==> pins[i].start != a
    ensures PinCount(pins, a) == 0
  {
  }

  lemma PinCountPresent(pins: seq<Pin>, i: nat)
    requires DistinctPins(pins) && i < |pins|
    ensures PinCount(pins, pins[i].start) == pins[i].count > 0
  {
    var a := pins[i].start;
    var rest := pins[i := Pin(a + 1, 0)];
    PinCountUpdate(pins, i, Pin(a + 1, 0), a);
    PinCountAbsent(rest, a);
  }

  ghost predicate PinnedNonempty(pins: seq<Pin>, live: set<Entry>) {
    forall e {:trigger PinCount(pins, e.start)} :: e in live && PinCount(pins, e.start) > 0 ==> e.size > 0
  }

  // The pins after a realloc: the old block's pins now pin the new one.
  ghost predicate PinsMoved(before: seq<Pin>, after: seq<Pin>, oldAddr: nat, p: nat) {
    var moved := PinCount(before, oldAddr);
    forall a {:trigger PinCount(after, a)} ::
      PinCount(after, a) == if moved == 0 then PinCount(before, a)
                            else if a == p then moved
                            else if a == oldAddr then 0
                            else PinCount(before, a)
  }

  lemma PinsStayNamed(pins: seq<Pin>, live: set<Entry>, oldAddr: nat, e: Entry)
    requires DistinctPins(pins) && PinsName(pins, live)
    requires forall i: nat :: i < |pins| ==> pins[i].start != oldAddr
    ensures PinsName(pins, live - At(live, oldAddr) + {e})
    ensures PinsMoved(pins, pins, oldAddr, e.start)
  {
    var live' := live - At(live, oldAddr) + {e};
    PinCountAbsent(pins, oldAddr);
    forall i: nat | i < |pins|
      ensures At(live', pins[i].start) != {}
    {
      assert At(live, pins[i].start) != {};
      var x :| x in At(live, pins[i].start);
      assert x in At(live', pins[i].start);
    }
  }

  lemma NoPinAtNull(pins: seq<Pin>, live: set<Entry>)
    requires Disjoint(live) && PinsName(pins, live)
    ensures forall i: nat :: i < |pins| ==> pins[i].start != 0
  {
  }

  lemma PinFollowsBlock(pins: seq<Pin>, live: set<Entry>, i: nat, e: Entry)
    requires DistinctPins(pins) && PinsName(pins, live)
    requires i < |pins|
    requires Free(e, live - At(live, pins[i].start))
    ensures var pins' := pins[i := pins[i].(start := e.start)];
            && DistinctPins(pins')
            && PinsName(pins', live - At(live, pins[i].start) + {e})
            && PinsMoved(pins, pins', pins[i].start, e.start)
  {
    var was := pins[i].start;
    var pins' := pins[i := pins[i].(start := e.start)];
    var live' := live - At(live, was) + {e};
    assert e in At(live', e.start);
    forall j: nat | j < |pins| && j != i
      ensures pins[j].start != e.start && pins[j].start != was && At(live', pins[j].start) != {}
    {
      assert pins[j].start != was;
      var x :| x in At(live, pins[j].start);
      assert x in live - At(live, was) && Apart(e, x);
      assert x in At(live', pins[j].start);
    }
    PinCountPresent(pins, i);
    if e.start != was {
      PinCountAbsent(pins, e.start);
    }
    forall a
      ensures PinCount(pins', a) == if a == e.start then pins[i].count else if a == was then 0 else PinCount(pins, a)
    {
      PinCountUpdate(pins, i, pins'[i], a);
    }
  }

  lemma NothingAt(blocks: seq<GcBlock>, pending: seq<GcBlock>, addr: nat)
    requires forall j: nat :: j < |pending| ==> pending[j].start != addr
    requires forall j: nat :: j < |blocks| && blocks[j].start == addr ==> blocks[j].dead
    ensures At(Entries(blocks) + Entries(pending), addr) == {}
  {
  }

  lemma NothingAtNull(live: set<Entry>)
    requires Disjoint(live)
    ensures At(live, 0) == {}
  {
  }

  lemma PendingIsLive(blocks: seq<GcBlock>, deadCount: nat, pending: seq<GcBlock>, i: nat)
    requires TableOk(blocks, deadCount, pending) && i < |pending|
    ensures pending[i].AsEntry() in Entries(blocks) + Entries(pending)
  {
  }

  lemma NullIsHeldByNone(live: set<Entry>)
    requires Disjoint(live)
    ensures forall e :: e in live ==> !e.Holds(0)
  {
  }

  // The block holding an address is told from all others by its start.
  lemma HolderAlone(live: set<Entry>, b: Entry, p: nat)
    requires Disjoint(live) && b in live && b.Holds(p)
    ensures forall e :: e in live ==> (e.Holds(p) <==> e == b)
    ensures forall e :: e in live ==> (e.start == b.start <==> e == b)
  {
  }

  // Changing one pin's count changes that block's count and no other; a pin
  // whose count falls to zero is swapped out.
  lemma BumpPin(pins: seq<Pin>, live: set<Entry>, i: nat, count: nat)
    requires DistinctPins(pins) && PinsName(pins, live) && i < |pins|
    ensures var pins' := if count == 0 then pins[i := pins[|pins| - 1]][..|pins| - 1] else pins[i := pins[i].(count := count)];
            && DistinctPins(pins') && PinsName(pins', live)
            && forall a :: PinCount(pins', a) == if a == pins[i].start then count else PinCount(pins, a)
  {
    var n := |pins| - 1;
    var a0 := pins[i].start;
    PinCountPresent(pins, i);
    if count == 0 {
      forall a
        ensures PinCount(pins[i := pins[n]][..n], a) == if a == a0 then 0 else PinCount(pins, a)
      {
        PinCountUpdate(pins, i, pins[n], a);
        assert pins[i := pins[n]][n] == pins[n];
      }
    } else {
      forall a
        ensures PinCount(pins[i := pins[i].(count := count)], a) == if a == a0 then count else PinCount(pins, a)
      {
        PinCountUpdate(pins, i, pins[i].(count := count), a);
      }
    }
  }

  lemma NewPin(pins: seq<Pin>, live: set<Entry>, b: Entry)
    requires DistinctPins(pins) && PinsName(pins, live) && b in live
    requires forall i: nat :: i < |pins| ==> pins[i].start != b.start
    ensures var pins' := pins + [Pin(b.start, 1)];
            && DistinctPins(pins') && PinsName(pins', live)
            && forall a :: PinCount(pins', a) == PinCount(pins, a) + if a == b.start then 1 else 0
  {
    var pins' := pins + [Pin(b.start, 1)];
    assert b in At(live, b.start);
    assert pins'[..|pins|] == pins;
  }

  lemma SwapRemoval(s: seq<nat>, i: nat, left: seq<nat>)
    requires i < |s| && left == s[i := s[|s| - 1]][..|s| - 1]
    ensures multiset(left) == multiset(s) - multiset{s[i]}
  {
    var n := |s| - 1;
    var t := s[i := s[n]];
    assert t == t[..n] + [s[n]];
    assert multiset(t) == multiset(t[..n]) + multiset{s[n]};
    SumCancels(multiset(t[..n]), multiset(s) - multiset{s[i]}, multiset{s[n]});
  }

  lemma AbsentRemoval(s: seq<nat>, x: nat)
    requires forall j :: 0 <= j < |s| ==> s[j] != x
    ensures multiset(s) - multiset{x} == multiset(s)
  {
    assert x !in s;
  }

  lemma SumCancels(a: multiset<nat>, b: multiset<nat>, c: multiset<nat>)
    requires a + c == b + c
    ensures a == b
  {
    assert forall x :: (a + c)[x] == a[x] + c[x] && (b + c)[x] == b[x] + c[x];
  }

  lemma NoPinAt(pins: seq<Pin>, live: set<Entry>, a: nat)
    requires PinsName(pins, live) && At(live, a) == {}
    ensures forall i: nat :: i < |pins| ==> pins[i].start != a
  {
  }

  lemma HeldBlockNonempty(before: seq<Pin>, after: seq<Pin>, live: set<Entry>, b: Entry, p: nat)
    requires PinnedNonempty(before, live) && b.Holds(p)
    requires forall e {:trigger PinCount(after, e.start)} :: e in live && e != b ==> PinCount(after, e.start) == PinCount(before, e.start)
    ensures PinnedNonempty(after, live)
  {
  }

  lemma MovedPinsNonempty(before: seq<Pin>, after: seq<Pin>, live: set<Entry>, oldAddr: nat, e: Entry)
    requires PinnedNonempty(before, live) && PinsName(before, live) && DistinctPins(before)
    requires PinsMoved(before, after, oldAddr, e.start)
    requires Free(e, live - At(live, oldAddr))
    ensures PinnedNonempty(after, live - At(live, oldAddr) + {e}) <==> e.size > 0 || PinCount(before, oldAddr) == 0
  {
    var live' := live - At(live, oldAddr) + {e};
    if PinCount(before, oldAddr) == 0 && e.start != oldAddr {
      assert At(live, e.start) == {} by {
        assert forall x :: x in live && x !in At(live, oldAddr) ==> Apart(e, x);
      }
      NoPinAt(before, live, e.start);
      PinCountAbsent(before, e.start);
    }
    assert e in live';
    forall x | x in live' && x != e
      ensures PinCount(after, x.start) > 0 ==> x.size > 0
    {
      assert Apart(e, x);
      assert x.start != e.start && x.start != oldAddr;
      assert PinCount(after, x.start) == PinCount(before, x.start);
    }
  }

  lemma PinsMissFreshBlock(pins: seq<Pin>, live: set<Entry>, e: Entry)
    requires Free(e, live)
    ensures DistinctPins(pins) && PinsName(pins, live) && PinnedNonempty(pins, live) ==>
      PinsName(pins, live + {e}) && PinnedNonempty(pins, live + {e})
  {
    if DistinctPins(pins) && PinsName(pins, live) && PinnedNonempty(pins, live) {
      assert At(live, e.start) == {} by {
        assert forall x :: x in live ==> Apart(e, x);
      }
      NoPinAt(pins, live, e.start);
      PinCountAbsent(pins, e.start);
      forall i: nat | i < |pins|
        ensures At(live + {e}, pins[i].start) != {}
      {
        assert At(live, pins[i].start) != {};
        assert At(live, pins[i].start) != {};
        var x :| x in At(live, pins[i].start);
        assert x in At(live + {e}, pins[i].start);
      }
    }
  }

  // ---- The table ----

  class Table {
    const pending: PendingTable
    var blocks: seq<GcBlock>
    var deadCount: nat
    var pins: seq<Pin>
    var globals: seq<nat> // addresses of registered global root slots

    ghost predicate Valid()
      reads this, pending, pending.keys, pending.vals
    {
      && pending.Valid()
      && TableOk(blocks, deadCount, pending.blocks)
    }

    ghost function Repr(): set<object>
      reads this, pending
    {
      {this, pending, pending.keys, pending.vals}
    }

    // What the table means.
    ghost function Live(): set<Entry>
      reads this, pending
    {
      Entries(blocks) + Entries(pending.blocks)
    }

    // Pins are distinct, outstanding, and name live blocks.
    ghost predicate PinsOk()
      reads this, pending
    {
      DistinctPins(pins) && PinsName(pins, Live())
    }

    // Moreover no pinned block was emptied by a realloc: what every pin needs
    // to survive a collection.
    ghost predicate PinsSafe()
      reads this, pending
    {
      PinsOk() && PinnedNonempty(pins, Live())
    }

    // The index answers for `addr` by a block or not at all. Only address 1,
    // its deleted marker, can meet a removed block's slot instead, whose stale
    // position the runtime would then use.
    ghost predicate NoFalseHit(addr: nat)
      reads this, pending, pending.keys
    {
      addr == DELETED ==> Missed(pending.keys[..], DELETED)
    }

    constructor ()
      ensures Valid() && fresh(Repr())
      ensures Live() == {} && pins == [] && globals == []
    {
      hide PendingTable.Valid, TableOk, Entries;
      pending := new PendingTable();
      blocks := [];
      deadCount := 0;
      pins := [];
      globals := [];
      EmptyTable();
    }

    lemma LiveIsDisjoint()
      requires Valid()
      ensures Disjoint(Live())
    {
      TableIsDisjoint(blocks, deadCount, pending.blocks);
    }

    // turf_gc_register_block
    method Register(p: nat, size: nat, desc: Option<TypeDesc>)
      requires Valid()
      requires p != 0 ==> Free(Entry(p, size, desc), Live())
      modifies this, pending, pending.keys, pending.vals
      ensures Valid() && fresh(Repr() - old(Repr()))
      ensures Live() == old(Live()) + if p == 0 then {} else {Entry(p, size, desc)}
      ensures pins == old(pins) && globals == old(globals)
      ensures old(PinsSafe()) ==> PinsSafe()
    {
      if p == 0 {
        return;
      }
      hide PendingTable.Valid, TableOk, Entries, PinsName, DistinctPins, PinnedNonempty;
      var b := GcBlock(p, size, desc, false, false);
      PinsMissFreshBlock(pins, Live(), b.AsEntry());
      AppendKeepsTable(blocks, deadCount, pending.blocks, b);
      pending.Append(b);
    }

    // find_exact_in_blocks: binary search; a dead record is no block.
    method FindExactInBlocks(addr: nat) returns (i: int)
      requires Valid()
      ensures i >= 0 ==> i < |blocks| && blocks[i].start == addr && !blocks[i].dead
      ensures i < 0 ==> forall j: nat :: j < |blocks| && blocks[j].start == addr ==> blocks[j].dead
    {
      var lo, hi := 0, |blocks|;
      while lo < hi
        invariant 0 <= lo <= hi <= |blocks|
        invariant forall j: nat :: j < lo ==> blocks[j].start < addr
        invariant forall j: nat :: hi <= j < |blocks| ==> addr < blocks[j].start
      {
        var mid := lo + (hi - lo) / 2;
        if blocks[mid].start == addr {
          return if blocks[mid].dead then -1 else mid;
        }
        if blocks[mid].start < addr {
          lo := mid + 1;
        } else {
          hi := mid;
        }
      }
      i := -1;
    }

    // The first half of turf_gc_reregister_block: drop the block at `oldAddr`,
    // if the table has one, from whichever tier holds it.
    method Forget(oldAddr: nat)
      requires Valid() && NoFalseHit(oldAddr)
      modifies this`blocks, this`deadCount, pending, pending.keys, pending.vals
      ensures Valid() && fresh(Repr() - old(Repr()))
      ensures Live() == old(Live()) - At(old(Live()), oldAddr)
    {
      hide PendingTable.Valid, TableOk, Entries, At, Disjoint;
      var idx := pending.Find(oldAddr);
      if idx >= 0 {
        // unsorted: swap with the last
        RemovePendingKeepsTable(blocks, deadCount, pending.blocks, idx);
        pending.Remove(idx);
      } else {
        idx := FindExactInBlocks(oldAddr);
        if idx >= 0 {
          // sorted: marked, not removed
          KillKeepsTable(blocks, deadCount, pending.blocks, idx);
          blocks := blocks[idx := blocks[idx].(dead := true)];
          deadCount := deadCount + 1;
        } else {
          NothingAt(blocks, pending.blocks, oldAddr);
        }
      }
    }

    // turf_gc_reregister_block: a realloc moved, shrank or grew a block. A
    // pin on the old block follows it.
    method Reregister(oldAddr: nat, p: nat, size: nat, desc: Option<TypeDesc>)
      requires Valid() && NoFalseHit(oldAddr)
      requires Free(Entry(p, size, desc), Live() - At(Live(), oldAddr))
      modifies this, pending, pending.keys, pending.vals
      ensures Valid() && fresh(Repr() - old(Repr()))
      ensures Live() == old(Live()) - At(old(Live()), oldAddr) + {Entry(p, size, desc)}
      ensures globals == old(globals)
      ensures old(PinsOk()) ==> PinsOk() && PinsMoved(old(pins), pins, oldAddr, p)
      ensures old(PinsSafe()) ==> (PinsSafe() <==> size > 0 || PinCount(old(pins), oldAddr) == 0)
    {
      hide PendingTable.Valid, TableOk, Entries, Disjoint, DistinctPins, PinsName, PinsMoved;
      ghost var live := Live();
      TableIsDisjoint(blocks, deadCount, pending.blocks);
      var pinIdx := -1;
      if oldAddr != 0 {
        pinIdx := FindPin(oldAddr);
        Forget(oldAddr);
      } else {
        NothingAtNull(live);
      }
      assert Live() == live - At(live, oldAddr);
      Register(p, size, desc);
      if pinIdx >= 0 {
        pins := pins[pinIdx := pins[pinIdx].(start := p)];
      }
      if old(PinsOk()) {
        if pinIdx >= 0 {
          PinFollowsBlock(old(pins), live, pinIdx, Entry(p, size, desc));
        } else {
          NoPinAtNull(old(pins), live);
          PinsStayNamed(old(pins), live, oldAddr, Entry(p, size, desc));
        }
        if old(PinsSafe()) {
          MovedPinsNonempty(old(pins), pins, live, oldAddr, Entry(p, size, desc));
        }
      }
    }

    // find_pin
    method FindPin(start: nat) returns (i: int)
      ensures i >= 0 ==> i < |pins| && pins[i].start == start
      ensures i < 0 ==> forall j: nat :: j < |pins| ==> pins[j].start != start
    {
      i := 0;
      while i < |pins|
        invariant 0 <= i <= |pins|
        invariant forall j: nat :: j < i ==> pins[j].start != start
      {
        if pins[i].start == start {
          return;
        }
        i := i + 1;
      }
      i := -1;
    }

    // turf_gc_is_registered; address 1 is the index's deleted marker.
    method IsRegistered(p: nat) returns (r: bool)
      requires Valid()
      ensures r <==> !NoFalseHit(p) || exists e :: e in Live() && e.start == p
    {
      hide PendingTable.Valid, TableOk, Disjoint;
      TableIsDisjoint(blocks, deadCount, pending.blocks);
      if p == 0 {
        NothingAtNull(Live());
        assert forall e :: e in Live() && e.start == 0 ==> e in At(Live(), 0);
        return false;
      }
      var i := pending.Find(p);
      if i >= 0 {
        if p != DELETED {
          PendingIsLive(blocks, deadCount, pending.blocks, i);
        }
        return true;
      }
      i := FindExactInBlocks(p);
      if i < 0 {
        NothingAt(blocks, pending.blocks, p);
        assert forall e :: e in Live() && e.start == p ==> e in At(Live(), p);
      }
      r := i >= 0;
      assert r ==> blocks[i].AsEntry() in Entries(blocks);
    }

    // The order-preserving first half of gc_rebuild_index.
    method DropDead()
      modifies this`blocks, this`deadCount
      ensures blocks == Kept(IsLive, old(blocks)) && deadCount == 0
    {
      var w := 0;
      ghost var was := blocks;
      for i := 0 to |blocks|
        invariant 0 <= w <= i <= |blocks| == |was|
        invariant blocks[..w] == Kept(IsLive, was[..i])
        invariant blocks[i..] == was[i..]
      {
        CompactionStep(IsLive, was, blocks, w, i);
        if !blocks[i].dead {
          blocks := blocks[w := blocks[i]];
          w := w + 1;
        }
      }
      assert was[..|was|] == was;
      blocks := blocks[..w];
      deadCount := 0;
    }

    // gc_rebuild_index: drop dead records, merge the pending ones, sort.
    method RebuildIndex()
      requires Valid()
      modifies this`blocks, this`deadCount, pending`blocks, pending`used, pending.keys
      ensures Valid() && pending.blocks == []
      ensures deadCount == 0 && NoneDead(blocks)
      ensures Live() == old(Live()) == Entries(blocks)
    {
      hide PendingTable.Valid, SortedApart, PairwiseApart, CrossApart, AboveSentinels, SortByStart, Entries, NoneDead;
      NoDeadCounted(blocks);
      EmptyTable();
      DropDeadKeepsTable(blocks, deadCount, pending.blocks);
      if deadCount != 0 {
        DropDead();
        NoDeadCounted(blocks);
      }
      if |pending.blocks| == 0 {
        return;
      }
      MergeKeepsTable(blocks, pending.blocks);
      blocks := SortByStart(blocks + pending.blocks);
      pending.Clear();
    }

    // gc_find_containing: the last record starting at or before `addr`, if it
    // is live and holds it.
    method FindContaining(addr: nat) returns (i: int)
      requires Valid()
      ensures i >= 0 ==> i < |blocks| && !blocks[i].dead && blocks[i].AsEntry().Holds(addr)
      ensures i < 0 ==> forall j: nat :: j < |blocks| && !blocks[j].dead ==> !blocks[j].AsEntry().Holds(addr)
    {
      var lo, hi := 0, |blocks|;
      while lo < hi
        invariant 0 <= lo <= hi <= |blocks|
        invariant forall j: nat :: j < lo ==> blocks[j].start <= addr
        invariant forall j: nat :: hi <= j < |blocks| ==> addr < blocks[j].start
      {
        var mid := lo + (hi - lo) / 2;
        if blocks[mid].start <= addr {
          lo := mid + 1;
        } else {
          hi := mid;
        }
      }
      if lo == 0 {
        return -1;
      }
      forall j: nat | j < lo - 1
        ensures !blocks[j].AsEntry().Holds(addr)
      {
        assert blocks[j].AsEntry().End() <= blocks[lo - 1].start;
      }
      if !blocks[lo - 1].dead && addr < blocks[lo - 1].start + blocks[lo - 1].size {
        return lo - 1;
      }
      i := -1;
    }

    // gc_find_containing_any: usable between collections.
    method FindContainingAny(addr: nat) returns (r: Option<Entry>)
      requires Valid()
      ensures r.Some? ==> r.value in Live() && r.value.Holds(addr)
      ensures r.None? ==> forall e :: e in Live() ==> !e.Holds(addr)
    {
      hide PendingTable.Valid, SortedApart, PairwiseApart, CrossApart, AboveSentinels;
      var i := FindContaining(addr);
      if i >= 0 {
        assert blocks[i].AsEntry() in Entries(blocks);
        return Some(blocks[i].AsEntry());
      }
      for k := 0 to |pending.blocks|
        invariant forall j: nat :: j < k ==> !pending.blocks[j].AsEntry().Holds(addr)
      {
        var cand := pending.blocks[k];
        if cand.start <= addr < cand.start + cand.size {
          assert cand.AsEntry() in Entries(pending.blocks);
          return Some(cand.AsEntry());
        }
      }
      r := None;
    }

    // turf_rt_string_capacity: the bytes from `p` to the end of its block.
    method StringCapacity(p: nat) returns (r: int)
      requires Valid() && NoFalseHit(p)
      ensures r >= 0 ==> exists e :: e in Live() && (e.start == p || e.Holds(p)) && p + r == e.start + e.size
      ensures r < 0 ==> r == -1 && forall e :: e in Live() ==> e.start != p && !e.Holds(p)
    {
      hide PendingTable.Valid, TableOk, Disjoint;
      TableIsDisjoint(blocks, deadCount, pending.blocks);
      if p == 0 {
        NothingAtNull(Live());
        assert forall e :: e in Live() && e.start == 0 ==> e in At(Live(), 0);
        return -1;
      }
      var i := pending.Find(p);
      if i >= 0 {
        PendingIsLive(blocks, deadCount, pending.blocks, i);
        assert pending.blocks[i].AsEntry() in Live();
        return pending.blocks[i].size;
      }
      i := FindExactInBlocks(p);
      if i >= 0 {
        assert blocks[i].AsEntry() in Live();
        return blocks[i].size;
      }
      NothingAt(blocks, pending.blocks, p);
      assert forall e :: e in Live() && e.start == p ==> e in At(Live(), p);
      var b := FindContainingAny(p);
      if b.Some? {
        return b.value.start + b.value.size - p;
      }
      r := -1;
    }

    // turf_rt_pin: pins the block holding `p`; anything else is ignored.
    method AddPin(p: nat)
      requires Valid() && PinsOk()
      modifies this`pins
      ensures Valid() && PinsOk() && Live() == old(Live())
      ensures forall e {:trigger PinCount(pins, e.start)} :: e in Live() ==>
        PinCount(pins, e.start) == PinCount(old(pins), e.start) + if e.Holds(p) then 1 else 0
      ensures old(PinsSafe()) ==> PinsSafe()
    {
      hide PendingTable.Valid, TableOk, Disjoint, Apart, DistinctPins, PinsName, PinCount;
      TableIsDisjoint(blocks, deadCount, pending.blocks);
      if p == 0 {
        NullIsHeldByNone(Live());
        return;
      }
      var b := FindContainingAny(p);
      if b.None? {
        return;
      }
      HolderAlone(Live(), b.value, p);
      var idx := FindPin(b.value.start);
      if idx >= 0 {
        PinCountPresent(pins, idx);
        BumpPin(pins, Live(), idx, pins[idx].count + 1);
        pins := pins[idx := pins[idx].(count := pins[idx].count + 1)];
      } else {
        NewPin(pins, Live(), b.value);
        pins := pins + [Pin(b.value.start, 1)];
      }
      if old(PinsSafe()) {
        HeldBlockNonempty(old(pins), pins, Live(), b.value, p);
      }
    }

    // turf_rt_unpin: undoes one pin; false is the panic on an unpinned block.
    method RemovePin(p: nat) returns (ok: bool)
      requires Valid() && PinsOk()
      modifies this`pins
      ensures Valid() && PinsOk() && Live() == old(Live())
      ensures ok <==> forall e :: e in Live() && e.Holds(p) ==> PinCount(old(pins), e.start) > 0
      ensures !ok ==> pins == old(pins)
      ensures ok ==> forall e {:trigger PinCount(pins, e.start)} :: e in Live() ==>
        PinCount(pins, e.start) == PinCount(old(pins), e.start) - if e.Holds(p) then 1 else 0
      ensures old(PinsSafe()) ==> PinsSafe()
    {
      hide PendingTable.Valid, TableOk, Disjoint, Apart, DistinctPins, PinsName, PinCount;
      TableIsDisjoint(blocks, deadCount, pending.blocks);
      ok := true;
      if p == 0 {
        NullIsHeldByNone(Live());
        return;
      }
      var b := FindContainingAny(p);
      if b.None? {
        return;
      }
      HolderAlone(Live(), b.value, p);
      var idx := FindPin(b.value.start);
      if idx < 0 {
        PinCountAbsent(pins, b.value.start);
        return false;
      }
      PinCountPresent(pins, idx);
      BumpPin(pins, Live(), idx, pins[idx].count - 1);
      if pins[idx].count == 1 {
        pins := pins[idx := pins[|pins| - 1]][..|pins| - 1];
      } else {
        pins := pins[idx := pins[idx].(count := pins[idx].count - 1)];
      }
    }

    // turf_rt_add_global_root
    method AddGlobalRoot(slot: nat)
      modifies this`globals
      ensures multiset(globals) == multiset(old(globals)) + if slot == 0 then multiset{} else multiset{slot}
    {
      if slot != 0 {
        globals := globals + [slot];
      }
    }

    // turf_rt_remove_global_root: one registration of the slot, if any.
    method RemoveGlobalRoot(slot: nat)
      modifies this`globals
      ensures multiset(globals) == multiset(old(globals)) - multiset{slot}
    {
      var i := 0;
      while i < |globals|
        invariant 0 <= i <= |globals|
        invariant globals == old(globals)
        invariant forall j :: 0 <= j < i ==> globals[j] != slot
      {
        if globals[i] == slot {
          ghost var was := globals;
          globals := globals[i := globals[|globals| - 1]][..|globals| - 1];
          SwapRemoval(was, i, globals);
          return;
        }
        i := i + 1;
      }
      AbsentRemoval(globals, slot);
    }
  }
}
