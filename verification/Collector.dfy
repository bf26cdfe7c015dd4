// The mark-sweep collector and the allocation entry points that drive it.
module Collector {
  import opened GcModel
  import opened Options
  import opened PendingBlocks
  import opened BlockTable
  import opened Marking
  import opened Accounting

  const INITIAL_THRESHOLD: nat := 1048576 // 1 MiB

  ghost function Slots(mem: Memory, globals: seq<nat>): seq<nat> {
    seq(|globals|, i requires 0 <= i < |globals| => mem(globals[i]))
  }

  ghost function PinStarts(pins: seq<Pin>): seq<nat> {
    seq(|pins|, i requires 0 <= i < |pins| => pins[i].start)
  }

  // Every word the mark phase starts from: registers and stack, then global
  // slots, then pinned blocks.
  ghost function RootWords(words: seq<nat>, mem: Memory, globals: seq<nat>, pins: seq<Pin>): seq<nat> {
    words + Slots(mem, globals) + PinStarts(pins)
  }

  class GcHeap {
    const table: Table
    var bytesSinceCollect: nat
    var threshold: nat
    var collectCount: nat
    var freedCount: nat
    var liveCount: nat
    var liveBytes: nat
    // g_stats
    var allocCount: nat
    var reallocCount: nat
    var bytesRequested: nat
    // reallocs of a pointer the table did not know, which registered a new block
    ghost var adopted: nat

    // What holds between any two calls, so over every run. Heap growth is
    // bounded by the last sweep's live bytes, and no block is lost or
    // invented: what was allocated is registered or was freed.
    ghost predicate Valid()
      reads this, table, table.pending, table.pending.keys, table.pending.vals
    {
      && table.Valid()
      && threshold == NextThreshold(liveBytes)
      && bytesSinceCollect < threshold
      && Bytes(table.Live()) <= liveBytes + bytesSinceCollect
      && |table.Live()| + freedCount == allocCount + adopted
    }

    // Read as numbers: between calls the heap stays under three times what the
    // last sweep left alive, or under 1 MiB more than it.
    lemma HeapStaysBounded()
      requires Valid()
      ensures Bytes(table.Live()) < liveBytes + if 2 * liveBytes > 0x10_0000 then 2 * liveBytes else 0x10_0000
    {
    }

    ghost function Repr(): set<object>
      reads this, table, table.pending
    {
      {this as object} + table.Repr()
    }

    constructor ()
      ensures Valid() && fresh(Repr()) && table.Live() == {} && table.PinsSafe()
      ensures liveBytes == bytesSinceCollect == collectCount == 0
    {
      hide PendingTable.Valid, TableOk;
      table := new Table();
      bytesSinceCollect, threshold := 0, INITIAL_THRESHOLD;
      collectCount, freedCount, liveCount, liveBytes := 0, 0, 0, 0;
      allocCount, reallocCount, bytesRequested, adopted := 0, 0, 0, 0;
    }

    // gc_consider_root: marks and pushes the block holding `candidate`.
    method ConsiderRoot(candidate: nat, wl: seq<nat>) returns (wl': seq<nat>)
      requires table.Valid() && NoneDead(table.blocks)
      modifies table`blocks
      ensures table.Valid() && NoneDead(table.blocks)
      ensures Pushed(old(table.blocks), table.blocks, wl, wl')
      ensures forall i: nat {:trigger table.blocks[i].marked} :: i < |table.blocks| ==>
        (table.blocks[i].marked <==> old(table.blocks)[i].marked || table.blocks[i].AsEntry().Holds(candidate))
    {
      wl' := wl;
      ghost var before := table.blocks;
      var i := table.FindContaining(candidate);
      HeldOnce(before, table.deadCount, table.pending.blocks, candidate);
      if i >= 0 && !table.blocks[i].marked {
        UnmarkedUpdate(before, i);
        table.blocks := table.blocks[i := table.blocks[i].(marked := true)];
        MarksChangeNoBlock(before, table.blocks, table.deadCount, table.pending.blocks);
        wl' := wl + [i];
      }
    }

    // gc_scan_block_precise: considers every traced word of block `x`, at
    // every repetition of its descriptor that fits.
    method ScanBlock(x: nat, mem: Memory, wl: seq<nat>) returns (wl': seq<nat>)
      requires table.Valid() && NoneDead(table.blocks)
      requires x < |table.blocks|
      modifies table`blocks
      ensures table.Valid() && NoneDead(table.blocks)
      ensures Pushed(old(table.blocks), table.blocks, wl, wl')
      ensures Traced(old(table.blocks), table.blocks, mem, x)
    {
      hide PendingTable.Valid, TableOk, NoneDead, Unmarked, PointsToBefore;
      wl' := wl;
      ghost var before := table.blocks;
      var e := table.blocks[x].AsEntry();
      PushedNothing(before, wl);
      if e.desc.None? || e.desc.value.size == 0 {
        assert forall f :: !PointsTo(e, mem, f);
        return;
      }
      var stride := e.desc.value.size;
      var off := 0;
      NoWordTraced(before, mem, e);
      ghost var k: nat := 0;
      while off + stride <= e.size
        invariant off == k * stride
        invariant table.Valid() && NoneDead(table.blocks)
        invariant Pushed(before, table.blocks, wl, wl')
        invariant TracedBefore(before, table.blocks, mem, e, k, 0)
        decreases e.size - off
      {
        for w := 0 to e.desc.value.wordCount
          invariant table.Valid() && NoneDead(table.blocks)
          invariant Pushed(before, table.blocks, wl, wl')
          invariant TracedBefore(before, table.blocks, mem, e, k, w)
        {
          ghost var now := table.blocks;
          ghost var waiting := wl';
          if e.desc.value.IsPointerWord(w) && e.start + off + w * 8 + 8 <= e.start + e.size {
            wl' := ConsiderRoot(mem(e.start + off + w * 8), wl');
            PushedChains(before, now, table.blocks, wl, waiting, wl');
          }
          WordTraced(before, now, table.blocks, mem, e, k, w);
        }
        RepetitionTraced(before, table.blocks, mem, e, k);
        off := off + stride;
        k := k + 1;
      }
      AllTraced(before, table.blocks, mem, x, k);
    }

    // Between two steps of the mark phase.
    ghost predicate InMark(live: set<Entry>, mem: Memory, roots: seq<nat>, wl: seq<nat>)
      reads this, table, table.pending, table.pending.keys, table.pending.vals
    {
      && table.Valid() && table.pending.blocks == [] && NoneDead(table.blocks)
      && Entries(table.blocks) == live
      && MarkInvariant(table.blocks, mem, roots, wl)
    }

    // One step of the root scan.
    method ScanRoot(word: nat, ghost live: set<Entry>, ghost mem: Memory, ghost roots: seq<nat>, ghost n: nat,
        wl: seq<nat>)
      returns (wl': seq<nat>)
      requires InMark(live, mem, roots, wl) && n < |roots| && roots[n] == word
      requires RootsMarked(table.blocks, roots[..n])
      modifies table`blocks
      ensures InMark(live, mem, roots, wl') && RootsMarked(table.blocks, roots[..n + 1])
    {
      ghost var before := table.blocks;
      hide PendingTable.Valid, TableOk, Entries, MarkInvariant, RootsMarked, NoneDead, SameButMarks, Reachable;
      wl' := ConsiderRoot(word, wl);
      SameEntries(before, table.blocks);
      RootStep(before, table.blocks, mem, roots, n, wl, wl');
    }

    // One turn of the worklist loop: pop a block and trace it.
    method TraceTop(ghost live: set<Entry>, mem: Memory, ghost roots: seq<nat>, wl: seq<nat>) returns (wl': seq<nat>)
      requires wl != [] && InMark(live, mem, roots, wl)
      requires RootsMarked(table.blocks, roots)
      modifies table`blocks
      ensures InMark(live, mem, roots, wl') && RootsMarked(table.blocks, roots)
      ensures |wl'| + Unmarked(table.blocks) == |wl| + Unmarked(old(table.blocks)) - 1
    {
      ghost var before := table.blocks;
      hide PendingTable.Valid, TableOk, Entries, RootsMarked, NoneDead, SameButMarks, Reachable, Traced, PointsTo;
      var x, rest := wl[|wl| - 1], wl[..|wl| - 1];
      assert wl == rest + [x];
      assert x in wl;
      wl' := ScanBlock(x, mem, rest);
      SameEntries(before, table.blocks);
      TraceStep(before, table.blocks, mem, roots, x, rest, wl');
      RootsStayMarked(before, table.blocks, roots, rest, wl');
    }

    method ClearMarks()
      requires table.Valid()
      modifies table`blocks
      ensures table.Valid() && SameButMarks(old(table.blocks), table.blocks)
      ensures forall i: nat :: i < |table.blocks| ==> !table.blocks[i].marked
    {
      ghost var before := table.blocks;
      for i := 0 to |table.blocks|
        invariant SameButMarks(before, table.blocks)
        invariant forall j: nat :: j < i ==> !table.blocks[j].marked
      {
        table.blocks := table.blocks[i := table.blocks[i].(marked := false)];
      }
      MarksChangeNoBlock(before, table.blocks, table.deadCount, table.pending.blocks);
    }

    // One sorted tier, nothing marked, nothing to trace.
    method BeginMark(ghost mem: Memory, ghost roots: seq<nat>) returns (ghost live: set<Entry>)
      requires table.Valid()
      modifies table`blocks, table`deadCount, table.pending`blocks, table.pending`used, table.pending.keys
      ensures live == old(table.Live()) == table.Live()
      ensures InMark(live, mem, roots, []) && RootsMarked(table.blocks, roots[..0])
    {
      hide PendingTable.Valid, TableOk, Entries, MarkInvariant, RootsMarked, SameButMarks;
      table.RebuildIndex();
      live := table.Live();
      ghost var rebuilt := table.blocks;
      ClearMarks();
      MarksChangeNoBlock(rebuilt, table.blocks, table.deadCount, table.pending.blocks);
      StartOfMark(table.blocks, mem, roots);
    }

    // Register and stack words, then global slots, then pins.
    method ScanRoots(words: seq<nat>, mem: Memory, ghost live: set<Entry>, ghost roots: seq<nat>) returns (wl: seq<nat>)
      requires roots == RootWords(words, mem, table.globals, table.pins)
      requires InMark(live, mem, roots, []) && RootsMarked(table.blocks, roots[..0])
      modifies table`blocks
      ensures InMark(live, mem, roots, wl) && RootsMarked(table.blocks, roots)
    {
      hide PendingTable.Valid, TableOk, Entries, InMark, RootsMarked;
      wl := [];
      for n := 0 to |words|
        invariant InMark(live, mem, roots, wl) && RootsMarked(table.blocks, roots[..n])
      {
        wl := ScanRoot(words[n], live, mem, roots, n, wl);
      }
      for n := 0 to |table.globals|
        invariant InMark(live, mem, roots, wl) && RootsMarked(table.blocks, roots[..|words| + n])
      {
        wl := ScanRoot(mem(table.globals[n]), live, mem, roots, |words| + n, wl);
      }
      for n := 0 to |table.pins|
        invariant InMark(live, mem, roots, wl) && RootsMarked(table.blocks, roots[..|words| + |table.globals| + n])
      {
        wl := ScanRoot(table.pins[n].start, live, mem, roots, |words| + |table.globals| + n, wl);
      }
      assert roots[..|roots|] == roots;
    }

    // gc_mark: afterwards a block is marked exactly when it is reachable.
    method Mark(words: seq<nat>, mem: Memory)
      requires table.Valid()
      modifies table`blocks, table`deadCount, table.pending`blocks, table.pending`used, table.pending.keys
      ensures table.Valid() && table.pending.blocks == [] && NoneDead(table.blocks)
      ensures table.Live() == old(table.Live()) == Entries(table.blocks)
      ensures forall i: nat {:trigger table.blocks[i].marked} :: i < |table.blocks| ==>
        (table.blocks[i].marked <==> Reachable(table.Live(), mem, RootWords(words, mem, table.globals, table.pins), table.blocks[i].AsEntry()))
    {
      hide PendingTable.Valid, TableOk, Entries, MarkInvariant, RootsMarked, Reachable, Unmarked;
      ghost var roots := RootWords(words, mem, table.globals, table.pins);
      ghost var live := BeginMark(mem, roots);
      var wl := ScanRoots(words, mem, live, roots);
      while wl != []
        invariant InMark(live, mem, roots, wl) && RootsMarked(table.blocks, roots)
        decreases |wl| + Unmarked(table.blocks)
      {
        wl := TraceTop(live, mem, roots, wl);
      }
      AllMarksExact(table.blocks, table.deadCount, mem, roots);
    }

    // gc_sweep: frees every unmarked block, compacts the rest, and sets the
    // next trigger to twice the live bytes, with a floor.
    method Sweep()
      modifies this`freedCount, this`liveCount, this`liveBytes, this`threshold, table`blocks
      ensures table.blocks == Kept(IsMarked, old(table.blocks))
      ensures freedCount == old(freedCount) + |old(table.blocks)| - |table.blocks|
      ensures liveCount == |table.blocks| && liveBytes == RecordBytes(table.blocks)
      ensures threshold == NextThreshold(liveBytes)
    {
      var w, bytes, freed := 0, 0, 0;
      ghost var was := table.blocks;
      for i := 0 to |table.blocks|
        invariant 0 <= w <= i <= |table.blocks| == |was|
        invariant table.blocks[..w] == Kept(IsMarked, was[..i])
        invariant table.blocks[i..] == was[i..]
        invariant bytes == RecordBytes(table.blocks[..w])
        invariant freed == i - w && freedCount == old(freedCount)
      {
        hide Kept, RecordBytes;
        CompactionStep(IsMarked, was, table.blocks, w, i);
        RecordBytesStep(table.blocks, w, table.blocks[i]);
        if table.blocks[i].marked {
          bytes := bytes + table.blocks[i].size;
          table.blocks := table.blocks[w := table.blocks[i]];
          w := w + 1;
        } else {
          freed := freed + 1;
        }
      }
      assert was[..|was|] == was;
      table.blocks := table.blocks[..w];
      freedCount := freedCount + freed;
      liveCount := w;
      liveBytes := bytes;
      threshold := if bytes * 2 < INITIAL_THRESHOLD then INITIAL_THRESHOLD else bytes * 2;
    }

    // turf_rt_collect: the surviving blocks are exactly the reachable ones.
    method Collect(words: seq<nat>, mem: Memory)
      requires table.Valid()
      modifies this`freedCount, this`liveCount, this`liveBytes, this`threshold, this`bytesSinceCollect,
          this`collectCount
      modifies table`blocks, table`deadCount, table.pending`blocks, table.pending`used, table.pending.keys
      ensures table.Valid()
      ensures table.Live() == Survivors(old(table.Live()), mem, RootWords(words, mem, table.globals, table.pins))
      ensures liveCount == |table.Live()| && liveBytes == Bytes(table.Live())
      ensures freedCount == old(freedCount) + |old(table.Live())| - |table.Live()|
      ensures threshold == NextThreshold(liveBytes) && bytesSinceCollect == 0
      ensures collectCount == old(collectCount) + 1
      ensures old(|table.Live()| + freedCount == allocCount + adopted) ==> Valid()
      ensures old(table.PinsOk()) ==> (table.PinsOk() <==> old(table.PinsSafe()))
      ensures old(table.PinsSafe()) ==> table.PinsSafe()
      ensures old(table.PinsOk()) ==>
        forall e :: e in old(table.Live()) && PinCount(table.pins, e.start) > 0 && e.size > 0 ==> e in table.Live()
    {
      hide PendingTable.Valid, TableOk, Entries, Reachable, NoneDead, DistinctPins, PinsName, Disjoint, PinCount,
          Survivors, RootWords, Bytes, PinnedNonempty, Kept, RecordBytes, CountDead;
      ghost var live := table.Live();
      ghost var roots := RootWords(words, mem, table.globals, table.pins);
      TableIsDisjoint(table.blocks, table.deadCount, table.pending.blocks);
      Mark(words, mem);
      SweepKeepsSurvivors(table.blocks, table.deadCount, mem, roots);
      MarkedTableCounts(table.blocks, table.deadCount);
      NoDeadCounted(table.blocks);
      Sweep();
      EmptyTable();
      MarkedTableCounts(table.blocks, 0);
      bytesSinceCollect := 0;
      collectCount := collectCount + 1;
      SurvivorsAreFewer(live, mem, roots);
      FewerStayNonempty(table.pins, live, table.Live());
      if old(table.PinsOk()) {
        PinsAreRoots(words, mem, table.globals, table.pins);
        PinsAfterCollection(table.pins, live, mem, roots);
      }
    }

    ghost function Roots(words: seq<nat>, mem: Memory): seq<nat>
      reads this, table
    {
      RootWords(words, mem, table.globals, table.pins)
    }

    // The table holds the blocks of `live` and the new one, or what of them a
    // collection kept; the new block survives one whenever its address is
    // among the words scanned and it holds any byte at all.
    ghost predicate Admitted(collected: bool, live: set<Entry>, e: Entry, words: seq<nat>, mem: Memory)
      reads this, table, table.pending
    {
      && table.Live() == AfterPressure(collected, live + {e}, mem, Roots(words, mem))
      && (e.start in words && e.size > 0 ==> e in table.Live())
      && (collected && e.size == 0 ==> e !in table.Live())
    }

    lemma AdmittedNow(collected: bool, live: set<Entry>, e: Entry, words: seq<nat>, mem: Memory)
      requires table.Live() == AfterPressure(collected, live + {e}, mem, Roots(words, mem))
      ensures Admitted(collected, live, e, words, mem)
    {
      hide Survivors, RootWords;
      NewBlockAtCollection(live + {e}, mem, words, table.globals, table.pins, e);
    }

    // Without stress a call collects exactly if the bytes requested since the
    // last sweep have come to twice what it left alive, or to 1 MiB if that is
    // more; what the next call will count from follows. `since`, `live` and
    // `count` are the figures before the call.
    ghost predicate Paced(since: nat, live: nat, count: nat, bytes: nat, stress: bool)
      reads this, table, table.pending
    {
      && (if 2 * live > 0x10_0000
          then collectCount != count <==> stress || since + bytes >= 2 * live
          else collectCount != count <==> stress || since + bytes >= 0x10_0000)
      && (if collectCount != count
          then collectCount == count + 1 && bytesSinceCollect == 0 && liveBytes == Bytes(table.Live())
          else bytesSinceCollect == since + bytes && liveBytes == live)
    }

    // turf_gc_note_alloc: collect on every call under stress, else when the
    // bytes requested since the last sweep reach the threshold.
    method NoteAlloc(bytes: nat, stress: bool, words: seq<nat>, mem: Memory)
      requires table.Valid() && threshold == NextThreshold(liveBytes)
      requires Bytes(table.Live()) <= liveBytes + bytesSinceCollect + bytes
      requires |table.Live()| + freedCount == allocCount + adopted
      modifies this`freedCount, this`liveCount, this`liveBytes, this`threshold, this`bytesSinceCollect,
          this`collectCount
      modifies table`blocks, table`deadCount, table.pending`blocks, table.pending`used, table.pending.keys
      ensures Valid()
      ensures var collected := stress || old(bytesSinceCollect) + bytes >= old(threshold);
              && table.Live() == AfterPressure(collected, old(table.Live()), mem, Roots(words, mem))
              && collectCount == old(collectCount) + (if collected then 1 else 0)
      ensures Paced(old(bytesSinceCollect), old(liveBytes), old(collectCount), bytes, stress)
      ensures old(table.PinsSafe()) ==> table.PinsSafe()
    {
      hide PendingTable.Valid, TableOk, Bytes, Survivors, RootWords, PinsName, DistinctPins, PinnedNonempty;
      ghost var live := table.Live();
      bytesSinceCollect := bytesSinceCollect + bytes;
      if stress || bytesSinceCollect >= threshold {
        Collect(words, mem);
        SurvivorsAreFewer(live, mem, RootWords(words, mem, table.globals, table.pins));
      }
    }

    // turf_rt_alloc and turf_rt_alloc_zeroed, `p` being what malloc or calloc
    // returned; None is the out-of-memory panic. The new block is registered
    // before the collection it may trigger.
    method Alloc(bytes: nat, desc: Option<TypeDesc>, p: nat, stress: bool, words: seq<nat>,
        mem: Memory) returns (r: Option<nat>)
      requires Valid()
      requires p != 0 ==> Free(Entry(p, bytes, desc), table.Live())
      modifies this, table, table.pending, table.pending.keys, table.pending.vals
      ensures Valid() && fresh(Repr() - old(Repr()))
      ensures r == if p == 0 then None else Some(p)
      ensures r.None? ==> table.Live() == old(table.Live())
      ensures r.None? ==> collectCount == old(collectCount) && bytesSinceCollect == old(bytesSinceCollect)
      ensures r.Some? ==> Admitted(collectCount != old(collectCount), old(table.Live()), Entry(p, bytes, desc), words, mem)
      ensures r.Some? ==> Paced(old(bytesSinceCollect), old(liveBytes), old(collectCount), bytes, stress)
      ensures old(table.PinsSafe()) ==> table.PinsSafe()
      ensures table.pins == old(table.pins) && table.globals == old(table.globals)
      ensures allocCount == old(allocCount) + (if r.Some? then 1 else 0) && reallocCount == old(reallocCount) && adopted == old(adopted)
      ensures bytesRequested == old(bytesRequested) + if r.Some? then bytes else 0
    {
      hide PendingTable.Valid, TableOk, Bytes, AfterPressure, RootWords, Disjoint, PinsName, DistinctPins,
          PinnedNonempty, PinCount, NextThreshold, Table.Live, Table.Valid, Table.PinsSafe, Survivors, Admitted,
          Roots, GcHeap.Valid, Free;
      if p == 0 {
        return None;
      }
      ghost var e := Entry(p, bytes, desc);
      ghost var live := table.Live();
      Enrol(p, bytes, desc);
      NoteAlloc(bytes, stress, words, mem);
      AdmittedNow(collectCount != old(collectCount), live, e, words, mem);
      r := Some(p);
    }

    // The table's part of an allocation, and its counters.
    method Enrol(p: nat, bytes: nat, desc: Option<TypeDesc>)
      requires Valid() && p != 0 && Free(Entry(p, bytes, desc), table.Live())
      modifies this`allocCount, this`bytesRequested, table, table.pending, table.pending.keys, table.pending.vals
      ensures table.Valid() && fresh(Repr() - old(Repr())) && threshold == NextThreshold(liveBytes)
      ensures table.Live() == old(table.Live()) + {Entry(p, bytes, desc)}
      ensures Bytes(table.Live()) <= liveBytes + bytesSinceCollect + bytes
      ensures |table.Live()| + freedCount == allocCount + adopted
      ensures old(table.PinsSafe()) ==> table.PinsSafe()
      ensures table.pins == old(table.pins) && table.globals == old(table.globals)
      ensures allocCount == old(allocCount) + 1 && bytesRequested == old(bytesRequested) + bytes
    {
      hide PendingTable.Valid, TableOk, Bytes, Disjoint, PinsName, DistinctPins, PinnedNonempty, PinCount,
          NextThreshold, Table.Live, Table.Valid, Table.PinsSafe;
      ghost var e := Entry(p, bytes, desc);
      ghost var live := table.Live();
      FreeIsNew(live, e);
      BytesWith(live, e);
      table.Register(p, bytes, desc);
      allocCount := allocCount + 1;
      bytesRequested := bytesRequested + bytes;
    }

    // turf_rt_realloc, `q` being what realloc(p, newSize) returned.
    method Realloc(p: nat, newSize: nat, desc: Option<TypeDesc>, q: nat, stress: bool, words: seq<nat>,
        mem: Memory) returns (r: Option<nat>)
      requires Valid() && table.NoFalseHit(p)
      requires q != 0 ==> Free(Entry(q, newSize, desc), table.Live() - At(table.Live(), p))
      modifies this, table, table.pending, table.pending.keys, table.pending.vals
      ensures Valid() && fresh(Repr() - old(Repr()))
      ensures r == if q == 0 then None else Some(q)
      ensures r.None? ==> table.Live() == old(table.Live())
      ensures r.None? ==> collectCount == old(collectCount) && bytesSinceCollect == old(bytesSinceCollect)
      ensures r.Some? ==> Admitted(collectCount != old(collectCount),
                                   old(table.Live()) - At(old(table.Live()), p), Entry(q, newSize, desc), words, mem)
      ensures r.Some? ==> Paced(old(bytesSinceCollect), old(liveBytes), old(collectCount), newSize, stress)
      ensures old(table.PinsSafe()) && (newSize > 0 || PinCount(old(table.pins), p) == 0) ==> table.PinsSafe()
      ensures r.Some? && old(table.PinsOk()) ==> PinsMoved(old(table.pins), table.pins, p, q)
      ensures table.globals == old(table.globals)
      ensures allocCount == old(allocCount) && reallocCount == old(reallocCount) + if r.Some? then 1 else 0
      ensures bytesRequested == old(bytesRequested) + if r.Some? then newSize else 0
      ensures adopted == old(adopted) + if r.Some? && At(old(table.Live()), p) == {} then 1 else 0
    {
      hide PendingTable.Valid, TableOk, Bytes, AfterPressure, RootWords, Disjoint, PinsName, DistinctPins,
          PinnedNonempty, PinCount, PinsMoved, NextThreshold, Table.Live, Table.Valid, Table.PinsSafe,
          Table.PinsOk, Table.NoFalseHit, At, Free, Survivors, Admitted, Roots, GcHeap.Valid, GcHeap.Paced, Missed;
      if q == 0 {
        return None;
      }
      ghost var e := Entry(q, newSize, desc);
      ghost var live := table.Live();
      Exchange(p, newSize, desc, q);
      NoteAlloc(newSize, stress, words, mem);
      AdmittedNow(collectCount != old(collectCount), live - At(live, p), e, words, mem);
      r := Some(q);
    }

    // The table's part of a realloc, and its counters.
    method Exchange(p: nat, newSize: nat, desc: Option<TypeDesc>, q: nat)
      requires Valid() && table.NoFalseHit(p)
      requires Free(Entry(q, newSize, desc), table.Live() - At(table.Live(), p))
      modifies this`reallocCount, this`bytesRequested, this`adopted, table, table.pending, table.pending.keys,
          table.pending.vals
      ensures table.Valid() && fresh(Repr() - old(Repr())) && threshold == NextThreshold(liveBytes)
      ensures table.Live() == old(table.Live()) - At(old(table.Live()), p) + {Entry(q, newSize, desc)}
      ensures Bytes(table.Live()) <= liveBytes + bytesSinceCollect + newSize
      ensures |table.Live()| + freedCount == allocCount + adopted
      ensures old(table.PinsSafe()) && (newSize > 0 || PinCount(old(table.pins), p) == 0) ==> table.PinsSafe()
      ensures old(table.PinsOk()) ==> PinsMoved(old(table.pins), table.pins, p, q)
      ensures table.globals == old(table.globals)
      ensures reallocCount == old(reallocCount) + 1 && bytesRequested == old(bytesRequested) + newSize
      ensures adopted == old(adopted) + if At(old(table.Live()), p) == {} then 1 else 0
    {
      hide PendingTable.Valid, TableOk, Bytes, Disjoint, PinsName, DistinctPins, PinnedNonempty, PinCount,
          PinsMoved, NextThreshold, Table.Live, Table.Valid, Table.PinsSafe, Table.PinsOk, At, Free;
      ghost var live := table.Live();
      table.LiveIsDisjoint();
      ReplacementAccounts(live, p, Entry(q, newSize, desc));
      table.Reregister(p, q, newSize, desc);
      reallocCount := reallocCount + 1;
      bytesRequested := bytesRequested + newSize;
      if At(live, p) == {} {
        adopted := adopted + 1;
      }
    }
  }

  lemma HeldOnce(bs: seq<GcBlock>, deadCount: nat, pending: seq<GcBlock>, addr: nat)
    requires TableOk(bs, deadCount, pending)
    ensures forall i: nat, j: nat {:trigger bs[i], bs[j]} :: i < |bs| && j < |bs| && bs[i].AsEntry().Holds(addr) && bs[j].AsEntry().Holds(addr) ==> i == j
  {
    forall i: nat, j: nat | i < j < |bs|
      ensures !(bs[i].AsEntry().Holds(addr) && bs[j].AsEntry().Holds(addr))
    {
      assert bs[i].AsEntry().End() <= bs[j].start;
    }
  }

  // The live set after the allocation-pressure check.
  ghost function AfterPressure(collected: bool, live: set<Entry>, mem: Memory, roots: seq<nat>): set<Entry> {
    if collected then Survivors(live, mem, roots) else live
  }

  function NextThreshold(liveBytes: nat): nat {
    if liveBytes * 2 < INITIAL_THRESHOLD then INITIAL_THRESHOLD else liveBytes * 2
  }

  lemma MarkedTableCounts(bs: seq<GcBlock>, deadCount: nat)
    requires TableOk(bs, deadCount, []) && NoneDead(bs)
    ensures RecordBytes(bs) == Bytes(Entries(bs)) && |bs| == |Entries(bs)|
    ensures CountDead(bs) == deadCount == 0
  {
    RecordsAreEntries(bs);
    NoDeadCounted(bs);
  }

  lemma PinsAreRoots(words: seq<nat>, mem: Memory, globals: seq<nat>, pins: seq<Pin>)
    ensures forall i: nat :: i < |pins| ==> pins[i].start in RootWords(words, mem, globals, pins)
  {
    var roots := RootWords(words, mem, globals, pins);
    forall i: nat | i < |pins|
      ensures pins[i].start in roots
    {
      assert roots[|words| + |globals| + i] == pins[i].start;
    }
  }

  lemma SurvivorsAreFewer(live: set<Entry>, mem: Memory, words: seq<nat>)
    ensures Survivors(live, mem, words) <= live
  {
  }

  lemma FewerStayNonempty(pins: seq<Pin>, live: set<Entry>, fewer: set<Entry>)
    requires fewer <= live
    ensures PinnedNonempty(pins, live) ==> PinnedNonempty(pins, fewer)
  {
  }

  // The block just allocated, at the collection its own allocation triggers.
  lemma NewBlockAtCollection(live: set<Entry>, mem: Memory, words: seq<nat>, globals: seq<nat>, pins: seq<Pin>,
      e: Entry)
    requires e in live
    ensures forall c :: e.start in words && e.size > 0 ==> e in AfterPressure(c, live, mem, RootWords(words, mem, globals, pins))
    ensures e.size == 0 ==> e !in AfterPressure(true, live, mem, RootWords(words, mem, globals, pins))
  {
    var roots := RootWords(words, mem, globals, pins);
    if e.start in words && e.size > 0 {
      var k :| 0 <= k < |words| && words[k] == e.start;
      assert roots[k] == e.start && Rooted(roots, e);
      RootIsReachable(live, mem, roots, e);
    }
    if e.size == 0 {
      EmptyBlockIsUnreachable(live, mem, roots, e);
    }
  }
}
