// The blocks no collection has seen yet: an unsorted array with an
// open-addressing hash index from a block's start to its position.
module PendingBlocks {
  import opened GcModel

  const EMPTY: nat := 0
  const DELETED: nat := 1

  // The bits of `x` below a power-of-two capacity.
  function LowBits(x: nat, cap: nat): (r: nat)
    requires cap > 0
    ensures r < cap
  {
    if cap == 1 then 0 else LowBits(x / 2, cap / 2) * 2 + x % 2
  }

  // Fibonacci hashing of the address, masked to the capacity.
  function Home(addr: nat, cap: nat): (h: nat)
    requires cap > 0
    ensures h < cap
  {
    LowBits(addr * 0x9E3779B97F4A7C15 % 0x1_0000_0000_0000_0000 / 0x1_0000_0000, cap)
  }

  function Next(s: nat, cap: nat): (r: nat)
    requires s < cap
    ensures r < cap
  {
    if s + 1 == cap then 0 else s + 1
  }

  // How many probes a search from `home` makes before it looks at slot `s`.
  ghost function Distance(home: nat, s: nat, cap: nat): nat
    requires home < cap && s < cap
  {
    if s >= home then s - home else s + cap - home
  }

  // No search from `home` stops before slot `s`.
  ghost predicate Unbroken(keys: seq<nat>, home: nat, s: nat)
    requires home < |keys| && s < |keys|
  {
    forall k: nat {:trigger keys[k]} :: k < |keys| && Distance(home, k, |keys|) < Distance(home, s, |keys|) ==> keys[k] != EMPTY
  }

  ghost predicate AllUnbroken(keys: seq<nat>) {
    forall s: nat {:trigger keys[s]} :: s < |keys| && keys[s] > DELETED ==> Unbroken(keys, Home(keys[s], |keys|), s)
  }

  // Slots that are live or deleted.
  ghost function Occupied(keys: seq<nat>): nat {
    if keys == [] then 0
    else Occupied(keys[..|keys| - 1]) + if keys[|keys| - 1] == EMPTY then 0 else 1
  }

  lemma OccupiedUpdate(keys: seq<nat>, s: nat, key: nat)
    requires s < |keys| && key != EMPTY
    ensures Occupied(keys[s := key]) == Occupied(keys) + if keys[s] == EMPTY then 1 else 0
  {
    var n := |keys| - 1;
    if s == n {
      assert keys[s := key][..n] == keys[..n];
    } else {
      assert keys[s := key][..n] == keys[..n][s := key];
      OccupiedUpdate(keys[..n], s, key);
    }
  }

  lemma OccupiedNone(keys: seq<nat>)
    requires forall s :: 0 <= s < |keys| ==> keys[s] == EMPTY
    ensures Occupied(keys) == 0
  {
  }

  // The load bound leaves a slot no search passes.
  lemma SomeSlotEmpty(keys: seq<nat>)
    requires Occupied(keys) < |keys|
    ensures exists s: nat :: s < |keys| && keys[s] == EMPTY
  {
    var n := |keys| - 1;
    if keys[n] != EMPTY {
      SomeSlotEmpty(keys[..n]);
      var s: nat :| s < n && keys[..n][s] == EMPTY;
      assert keys[s] == EMPTY;
    }
  }

  ghost predicate Filed(keys: seq<nat>, vals: seq<nat>, addr: nat, i: nat)
    requires |keys| == |vals|
  {
    exists s: nat :: s < |keys| && keys[s] == addr && vals[s] == i
  }

  // `addr` filed in a slot that held no block; nothing else moved.
  ghost predicate Placed(ks: seq<nat>, vs: seq<nat>, ks': seq<nat>, vs': seq<nat>, addr: nat, i: nat)
    requires |ks| == |vs|
  {
    exists s: nat ::
      && s < |ks| && ks[s] <= DELETED
      && ks' == ks[s := addr]
      && vs' == vs[s := i]
  }

  // The index agrees with the array: every block is filed under its start,
  // every live slot names a block, and no search for it stops short.
  ghost predicate Indexed(keys: seq<nat>, vals: seq<nat>, blocks: seq<GcBlock>) {
    && |keys| == |vals|
    && (forall i: nat {:trigger blocks[i]} :: i < |blocks| ==> Filed(keys, vals, blocks[i].start, i))
    && (forall s: nat {:trigger keys[s]} :: s < |keys| && keys[s] > DELETED ==>
          vals[s] < |blocks| && blocks[vals[s]].start == keys[s])
    && AllUnbroken(keys)
    && (forall s: nat, t: nat {:trigger keys[s], keys[t]} ::
          s < |keys| && t < |keys| && keys[s] == keys[t] && keys[s] > DELETED ==> s == t)
  }

  ghost predicate DistinctStarts(blocks: seq<GcBlock>) {
    && (forall i: nat {:trigger blocks[i]} :: i < |blocks| ==> blocks[i].start > DELETED)
    && forall i: nat, j: nat {:trigger blocks[i], blocks[j]} ::
         i < |blocks| && j < |blocks| && blocks[i].start == blocks[j].start ==> i == j
  }

  // One probe: the search goes on past `s`, and is one step closer to the hole.
  lemma ProbeStep(keys: seq<nat>, home: nat, s: nat, hole: nat)
    requires home < |keys| && s < |keys| && hole < |keys|
    requires keys[hole] == EMPTY && keys[s] != EMPTY
    requires Unbroken(keys, home, s)
    requires Distance(home, s, |keys|) <= Distance(home, hole, |keys|)
    ensures Distance(home, Next(s, |keys|), |keys|) == Distance(home, s, |keys|) + 1 <= Distance(home, hole, |keys|)
    ensures Unbroken(keys, home, Next(s, |keys|))
  {
    var r := Next(s, |keys|);
    forall k: nat | k < |keys| && Distance(home, k, |keys|) < Distance(home, r, |keys|)
      ensures keys[k] != EMPTY
    {
      assert k == s || Distance(home, k, |keys|) < Distance(home, s, |keys|);
    }
  }

  // What a search for `addr` finds: the first slot of its probe sequence that
  // holds `addr`, with no empty slot before it.
  ghost predicate Hit(keys: seq<nat>, addr: nat, s: nat)
    requires |keys| > 0
  {
    && s < |keys| && keys[s] == addr && addr != EMPTY
    && Unbroken(keys, Home(addr, |keys|), s)
    && forall k: nat {:trigger keys[k]} ::
         k < |keys| && Distance(Home(addr, |keys|), k, |keys|) < Distance(Home(addr, |keys|), s, |keys|) ==> keys[k] != addr
  }

  ghost predicate Missed(keys: seq<nat>, addr: nat) {
    |keys| > 0 ==> forall s: nat :: !Hit(keys, addr, s)
  }

  // For every address but the deleted marker itself, the search is a lookup.
  lemma SearchIsLookup(keys: seq<nat>, vals: seq<nat>, blocks: seq<GcBlock>, addr: nat, i: nat)
    requires Indexed(keys, vals, blocks) && DistinctStarts(blocks)
    requires addr != DELETED
    ensures (exists s: nat :: |keys| > 0 && Hit(keys, addr, s) && vals[s] == i) <==> i < |blocks| && blocks[i].start == addr
    ensures Missed(keys, addr) <==> forall j: nat :: j < |blocks| ==> blocks[j].start != addr
  {
    forall j: nat | j < |blocks| && blocks[j].start == addr
      ensures exists s: nat :: |keys| > 0 && Hit(keys, addr, s) && vals[s] == j
    {
      assert Filed(keys, vals, addr, j);
      var s: nat :| s < |keys| && keys[s] == addr && vals[s] == j;
      assert Hit(keys, addr, s);
    }
  }

  // The deleted marker is address 1. A lookup of address 1 reports a block
  // exactly when a deleted slot lies on its probe path.
  lemma SearchForDeletedMarker(keys: seq<nat>)
    requires |keys| > 0
    ensures Missed(keys, DELETED) <==>
      forall s: nat :: s < |keys| && keys[s] == DELETED ==> !Unbroken(keys, Home(DELETED, |keys|), s)
  {
    forall s: nat | s < |keys| && keys[s] == DELETED && Unbroken(keys, Home(DELETED, |keys|), s)
      ensures !Missed(keys, DELETED)
    {
      DeletedMarkerIsFound(keys, s);
    }
  }

  lemma DeletedMarkerIsFound(keys: seq<nat>, s: nat)
    requires |keys| > 0 && s < |keys| && keys[s] == DELETED
    requires Unbroken(keys, Home(DELETED, |keys|), s)
    ensures !Missed(keys, DELETED)
    decreases Distance(Home(DELETED, |keys|), s, |keys|)
  {
    if !Hit(keys, DELETED, s) {
      var k: nat :| k < |keys| && Distance(Home(DELETED, |keys|), k, |keys|) < Distance(Home(DELETED, |keys|), s, |keys|) && keys[k] == DELETED;
      DeletedMarkerIsFound(keys, k);
    }
  }

  lemma HomesOfTheExample()
    ensures Home(16624, 1024) == 441 && Home(1, 1024) == 441
  {
    assert 16624 * 0x9E3779B97F4A7C15 % 0x1_0000_0000_0000_0000 / 0x1_0000_0000 == 846233017;
    assert 1 * 0x9E3779B97F4A7C15 % 0x1_0000_0000_0000_0000 / 0x1_0000_0000 == 2654435769;
    assert LowBits(826399, 1) == 0;
    assert LowBits(1652798, 2) == 0;
    assert LowBits(3305597, 4) == 1;
    assert LowBits(6611195, 8) == 3;
    assert LowBits(13222390, 16) == 6;
    assert LowBits(26444781, 32) == 13;
    assert LowBits(52889563, 64) == 27;
    assert LowBits(105779127, 128) == 55;
    assert LowBits(211558254, 256) == 110;
    assert LowBits(423116508, 512) == 220;
    assert LowBits(846233017, 1024) == 441;
    assert LowBits(2592222, 1) == 0;
    assert LowBits(5184444, 2) == 0;
    assert LowBits(10368889, 4) == 1;
    assert LowBits(20737779, 8) == 3;
    assert LowBits(41475558, 16) == 6;
    assert LowBits(82951117, 32) == 13;
    assert LowBits(165902235, 64) == 27;
    assert LowBits(331804471, 128) == 55;
    assert LowBits(663608942, 256) == 110;
    assert LowBits(1327217884, 512) == 220;
    assert LowBits(2654435769, 1024) == 441;
  }

  // For instance: register a block at 16624 in an empty index, remove it, and
  // address 1, which never was a block, is found.
  lemma FreedBlockAnswersForAddressOne(keys: seq<nat>)
    requires |keys| == 1024 && forall s :: 0 <= s < |keys| ==> keys[s] == EMPTY
    ensures !Missed(keys[Home(16624, 1024) := 16624][Home(16624, 1024) := DELETED], 1)
  {
    HomesOfTheExample();
    var freed := keys[441 := 16624][441 := DELETED];
    assert freed[441] == DELETED && Unbroken(freed, 441, 441);
    DeletedMarkerIsFound(freed, 441);
  }

  // A start that none of the filed blocks has is not in the index.
  lemma NotFiled(keys: seq<nat>, vals: seq<nat>, blocks: seq<GcBlock>, addr: nat)
    requires Indexed(keys, vals, blocks)
    requires addr > DELETED
    requires forall i: nat {:trigger blocks[i]} :: i < |blocks| ==> blocks[i].start != addr
    ensures addr !in keys
  {
  }

  // Filling a slot at the end of its own probe sequence breaks no search.
  lemma PlacedKeepsUnbroken(keys: seq<nat>, s: nat, addr: nat)
    requires s < |keys| && addr > DELETED
    requires AllUnbroken(keys) && Unbroken(keys, Home(addr, |keys|), s)
    ensures AllUnbroken(keys[s := addr])
  {
    var keys' := keys[s := addr];
    forall t: nat | t < |keys| && keys'[t] > DELETED
      ensures Unbroken(keys', Home(keys'[t], |keys|), t)
    {
      assert Unbroken(keys, Home(keys'[t], |keys|), t) by {
        assert t != s ==> keys[t] == keys'[t];
      }
    }
  }

  lemma EmptyIndex(keys: seq<nat>, vals: seq<nat>)
    requires |keys| == |vals|
    requires forall s :: 0 <= s < |keys| ==> keys[s] == EMPTY
    ensures Indexed(keys, vals, []) && Occupied(keys) == 0
  {
    OccupiedNone(keys);
  }

  // Deleting one block's slot hides no other block from a search.
  lemma DeletionHidesNoOther(keys: seq<nat>, vals: seq<nat>, blocks: seq<GcBlock>, s: nat, j: nat)
    requires Indexed(keys, vals, blocks) && DistinctStarts(blocks)
    requires s < |keys| && j < |blocks| && keys[s] != blocks[j].start
    ensures !Missed(keys[s := DELETED], blocks[j].start)
  {
    assert Filed(keys, vals, blocks[j].start, j);
    var t: nat :| t < |keys| && keys[t] == blocks[j].start && vals[t] == j;
    var keys', home := keys[s := DELETED], Home(keys[t], |keys|);
    hide Home, Filed;
    assert Unbroken(keys, home, t) && Unbroken(keys', home, t);
    forall k: nat | k < |keys| && k != t
      ensures keys'[k] != keys[t]
    {
      assert keys[k] == keys[t] ==> k == t;
    }
    assert Hit(keys', blocks[j].start, t);
  }

  lemma DeletionKeepsUnbroken(keys: seq<nat>, s: nat)
    requires s < |keys| && AllUnbroken(keys)
    ensures AllUnbroken(keys[s := DELETED])
  {
    var keys' := keys[s := DELETED];
    forall t: nat | t < |keys| && keys'[t] > DELETED
      ensures Unbroken(keys', Home(keys'[t], |keys|), t)
    {
      assert Unbroken(keys, Home(keys[t], |keys|), t);
    }
  }

  lemma RemovalKeepsStarts(blocks: seq<GcBlock>, idx: nat)
    requires DistinctStarts(blocks) && idx < |blocks|
    ensures DistinctStarts(blocks[idx := blocks[|blocks| - 1]][..|blocks| - 1])
  {
  }

  // Every live slot left after a removal names the block it should.
  lemma RemovalKeepsLiveSlots(keys: seq<nat>, vals: seq<nat>, blocks: seq<GcBlock>, idx: nat, s: nat,
      vals': seq<nat>, t: nat)
    requires Indexed(keys, vals, blocks) && DistinctStarts(blocks)
    requires idx < |blocks| && s < |keys| && keys[s] == blocks[idx].start
    requires |vals'| == |vals|
    requires idx == |blocks| - 1 ==> vals' == vals
    requires forall u: nat {:trigger vals'[u]} :: u < |keys| && idx != |blocks| - 1 ==>
      vals'[u] == if keys[u] == blocks[|blocks| - 1].start then idx else vals[u]
    requires t < |keys| && t != s && keys[t] > DELETED
    ensures vals'[t] < |blocks| - 1
    ensures blocks[idx := blocks[|blocks| - 1]][vals'[t]].start == keys[t]
  {
    hide Home, Unbroken;
    assert blocks[vals[t]].start == keys[t];
  }

  lemma RemovalKeepsFiled(keys: seq<nat>, vals: seq<nat>, blocks: seq<GcBlock>, idx: nat, s: nat, m: nat, i: nat)
    requires Indexed(keys, vals, blocks) && DistinctStarts(blocks)
    requires idx < |blocks| && s < |keys| && keys[s] == blocks[idx].start
    requires m < |keys| && keys[m] == blocks[|blocks| - 1].start
    requires i < |blocks| - 1
    ensures Filed(keys[s := DELETED], if idx == |blocks| - 1 then vals else vals[m := idx],
        blocks[idx := blocks[|blocks| - 1]][i].start, i)
  {
    hide Home, Unbroken;
    var j := if i == idx then |blocks| - 1 else i;
    assert Filed(keys, vals, blocks[j].start, j);
    var t: nat :| t < |keys| && keys[t] == blocks[j].start && vals[t] == j;
    assert t != s;
    assert keys[s := DELETED][t] == blocks[j].start;
    assert i == idx ==> t == m;
  }

  // Swap-with-last removal, with the index kept in step.
  lemma RemovalKeepsIndex(keys: seq<nat>, vals: seq<nat>, blocks: seq<GcBlock>, idx: nat, s: nat, m: nat)
    requires Indexed(keys, vals, blocks) && DistinctStarts(blocks)
    requires idx < |blocks| && s < |keys| && keys[s] == blocks[idx].start
    requires m < |keys| && keys[m] == blocks[|blocks| - 1].start
    ensures var last := |blocks| - 1;
            && Indexed(keys[s := DELETED], if idx == last then vals else vals[m := idx], blocks[idx := blocks[last]][..last])
            && DistinctStarts(blocks[idx := blocks[last]][..last])
  {
    hide Home, Unbroken, Filed;
    var last := |blocks| - 1;
    var keys', vals', blocks' := keys[s := DELETED], if idx == last then vals else vals[m := idx],
        blocks[idx := blocks[last]][..last];
    forall t: nat | t < |keys| && keys'[t] > DELETED
      ensures vals'[t] < |blocks'| && blocks'[vals'[t]].start == keys'[t]
    {
      assert keys[t] == keys'[t];
      RemovalKeepsLiveSlots(keys, vals, blocks, idx, s, vals', t);
    }
    forall i: nat | i < |blocks'|
      ensures Filed(keys', vals', blocks'[i].start, i)
    {
      RemovalKeepsFiled(keys, vals, blocks, idx, s, m, i);
    }
    DeletionKeepsUnbroken(keys, s);
    RemovalKeepsStarts(blocks, idx);
  }

  class PendingTable {
    var blocks: seq<GcBlock>
    var keys: array<nat>
    var vals: array<nat>
    var used: nat // live and deleted slots

    ghost predicate Valid()
      reads this, keys, vals
    {
      && keys != vals
      && keys.Length == vals.Length
      && DistinctStarts(blocks)
      && Indexed(keys[..], vals[..], blocks)
      && used == Occupied(keys[..])
      && used * 10 <= keys.Length * 7
    }

    constructor ()
      ensures Valid() && fresh(keys) && fresh(vals)
      ensures blocks == []
    {
      blocks := [];
      keys := new nat[0];
      vals := new nat[0];
      used := 0;
    }

    // Files `addr` in the first slot of its probe sequence that holds no block.
    method Place(addr: nat, i: nat)
      requires keys != vals && keys.Length == vals.Length
      requires addr > DELETED && addr !in keys[..]
      requires used == Occupied(keys[..]) && used < keys.Length
      requires AllUnbroken(keys[..])
      modifies this`used, keys, vals
      ensures Placed(old(keys[..]), old(vals[..]), keys[..], vals[..], addr, i)
      ensures used == Occupied(keys[..])
      ensures used <= old(used) + 1
      ensures AllUnbroken(keys[..])
    {

      hide Home;
      ghost var before := keys[..];
      SomeSlotEmpty(before);
      ghost var hole: nat :| hole < |before| && before[hole] == EMPTY;
      var home := Home(addr, keys.Length);
      var s: nat := home;
      while keys[s] != EMPTY && keys[s] != DELETED
        invariant s < keys.Length && keys[..] == before && vals[..] == old(vals[..]) && used == old(used)
        invariant Unbroken(before, home, s)
        invariant Distance(home, s, |before|) <= Distance(home, hole, |before|)
        decreases Distance(home, hole, |before|) - Distance(home, s, |before|)
      {
        ProbeStep(before, home, s, hole);
        s := Next(s, keys.Length);
      }
      assert before[s] == keys[s];
      OccupiedUpdate(before, s, addr);
      if keys[s] == EMPTY {
        used := used + 1;
      }
      keys[s] := addr;
      vals[s] := i;
      PlacedKeepsUnbroken(before, s, addr);
      assert keys[..] == before[s := addr];
      assert vals[..] == old(vals[..])[s := i];
      assert Placed(before, old(vals[..]), keys[..], vals[..], addr, i);
    }

    // A larger, empty index with every pending block filed again.
    method Rebuild()
      requires DistinctStarts(blocks)
      modifies this`keys, this`vals, this`used
      ensures Valid() && fresh(keys) && fresh(vals)
      ensures used <= |blocks|
    {
      hide Home, Unbroken, AllUnbroken, Filed, Occupied, Placed;
      var cap := 1024;
      while cap < (|blocks| + 1) * 4
        invariant cap > 0
        decreases (|blocks| + 1) * 4 - cap
      {
        cap := cap * 2;
      }
      keys := new nat[cap](_ => EMPTY);
      vals := new nat[cap](_ => 0);
      used := 0;
      EmptyIndex(keys[..], vals[..]);
      for i := 0 to |blocks|
        invariant keys != vals && keys.Length == vals.Length == cap
        invariant fresh(keys) && fresh(vals)
        invariant used == Occupied(keys[..]) && used <= i
        invariant Indexed(keys[..], vals[..], blocks[..i])
      {
        ghost var ks, vs := keys[..], vals[..];
        NotFiled(ks, vs, blocks[..i], blocks[i].start);
        Place(blocks[i].start, i);
        assert blocks[..i + 1][..i] == blocks[..i];
        IndexGrows(ks, vs, keys[..], vals[..], blocks[..i + 1]);
      }
      assert blocks[..|blocks|] == blocks;
    }

    // Registers a block: O(1) unless the index has to grow.
    method Append(b: GcBlock)
      requires Valid()
      requires b.start > DELETED
      requires forall i: nat {:trigger blocks[i]} :: i < |blocks| ==> blocks[i].start != b.start
      modifies this, keys, vals
      ensures Valid()
      ensures blocks == old(blocks) + [b]
      ensures (keys == old(keys) && vals == old(vals)) || (fresh(keys) && fresh(vals))
    {
      hide Home, Unbroken, AllUnbroken, Filed, Occupied, Placed;
      ghost var ks, vs := keys[..], vals[..];
      NotFiled(ks, vs, blocks, b.start);
      blocks := blocks + [b];
      assert blocks[..|blocks| - 1] == old(blocks);
      if keys.Length == 0 || (used + 1) * 10 > keys.Length * 7 {
        Rebuild();
      } else {
        Place(b.start, |blocks| - 1);
        IndexGrows(ks, vs, keys[..], vals[..], blocks);
      }
    }

    // The slot a search for `addr` stops at.
    method FindSlot(addr: nat) returns (found: bool, s: nat)
      requires keys.Length > 0 ==> Occupied(keys[..]) < keys.Length
      ensures found ==> keys.Length > 0 && Hit(keys[..], addr, s)
      ensures !found ==> Missed(keys[..], addr)
    {
      hide Home, Occupied;
      found, s := false, 0;
      if keys.Length == 0 {
        return;
      }
      ghost var ks := keys[..];
      SomeSlotEmpty(ks);
      ghost var hole: nat :| hole < |ks| && ks[hole] == EMPTY;
      ghost var home := Home(addr, keys.Length);
      s := Home(addr, keys.Length);
      while keys[s] != EMPTY
        invariant s < keys.Length && home < |ks|
        invariant Unbroken(ks, home, s)
        invariant forall k: nat {:trigger ks[k]} :: k < |ks| && Distance(home, k, |ks|) < Distance(home, s, |ks|) ==> ks[k] != addr
        invariant Distance(home, s, |ks|) <= Distance(home, hole, |ks|)
        decreases Distance(home, hole, |ks|) - Distance(home, s, |ks|)
      {
        assert ks[s] == keys[s];
        if keys[s] == addr {
          found := true;
          return;
        }
        ProbeStep(ks, home, s, hole);
        s := Next(s, keys.Length);
      }
    }

    // The position of the block starting at `addr`, or -1.
    method Find(addr: nat) returns (i: int)
      requires Valid()
      ensures i < 0 ==> forall j: nat :: j < |blocks| ==> blocks[j].start != addr
      ensures addr != DELETED && i >= 0 ==> i < |blocks| && blocks[i].start == addr
      ensures addr == DELETED ==> (i < 0 <==> Missed(keys[..], DELETED))
    {
      hide Home;
      var found, s := FindSlot(addr);
      i := if found then vals[s] else -1;
      if addr != DELETED {
        SearchIsLookup(keys[..], vals[..], blocks, addr, if found then vals[s] else 0);
      }
    }

    // Removes the block at `idx` by moving the last one into its place.
    method Remove(idx: nat)
      requires Valid()
      requires idx < |blocks|
      modifies this`blocks, keys, vals
      ensures Valid()
      ensures blocks == old(blocks)[idx := old(blocks)[|old(blocks)| - 1]][..|old(blocks)| - 1]
    {
      hide Home, Indexed, AllUnbroken, Unbroken;
      ghost var ks, vs := keys[..], vals[..];
      SearchIsLookup(ks, vs, blocks, blocks[idx].start, idx);
      var found, s := FindSlot(blocks[idx].start);
      if found {
        keys[s] := DELETED;
        OccupiedUpdate(ks, s, DELETED);
      }
      ghost var ks' := keys[..];
      assert ks' == ks[s := DELETED];
      var last := |blocks| - 1;
      ghost var m: nat := s;
      if idx == last {
        blocks := blocks[..last];
      } else {
        DeletionHidesNoOther(ks, vs, blocks, s, last);
        var moved, t := FindSlot(blocks[last].start);
        blocks := blocks[idx := blocks[last]][..last];
        if moved {
          vals[t] := idx;
        }
        m := t;
      }
      assert keys[..] == ks';
      assert vals[..] == if idx == last then vs else vs[m := idx];
      RemovalKeepsIndex(ks, vs, old(blocks), idx, s, m);
    }

    method Clear()
      requires Valid()
      modifies this`blocks, this`used, keys
      ensures Valid()
      ensures blocks == []
    {
      blocks := [];
      for s := 0 to keys.Length
        invariant blocks == []
        invariant forall k :: 0 <= k < s ==> keys[k] == EMPTY
      {
        keys[s] := EMPTY;
      }
      used := 0;
      EmptyIndex(keys[..], vals[..]);
    }
  }

  lemma IndexGrows(ks: seq<nat>, vs: seq<nat>, ks': seq<nat>, vs': seq<nat>, blocks: seq<GcBlock>)
    requires |blocks| > 0 && DistinctStarts(blocks)
    requires Indexed(ks, vs, blocks[..|blocks| - 1])
    requires blocks[|blocks| - 1].start !in ks
    requires Placed(ks, vs, ks', vs', blocks[|blocks| - 1].start, |blocks| - 1)
    requires AllUnbroken(ks')
    ensures Indexed(ks', vs', blocks)
  {
    var n := |blocks| - 1;
    var b := blocks[n].start;
    var s: nat :| s < |ks| && ks[s] <= DELETED && ks' == ks[s := b] && vs' == vs[s := n];
    forall i: nat | i < |blocks|
      ensures Filed(ks', vs', blocks[i].start, i)
    {
      if i == n {
        assert ks'[s] == b && vs'[s] == n;
      } else {
        assert Filed(ks, vs, blocks[..n][i].start, i);
        var t: nat :| t < |ks| && ks[t] == blocks[..n][i].start && vs[t] == i;
        assert t != s;
        assert ks'[t] == blocks[i].start && vs'[t] == i;
      }
    }
    forall t: nat | t < |ks'| && ks'[t] > DELETED
      ensures vs'[t] < |blocks| && blocks[vs'[t]].start == ks'[t]
    {
      if t != s {
        assert ks[t] > DELETED;
        assert blocks[..n][vs[t]].start == ks[t];
      }
    }
  }
}
