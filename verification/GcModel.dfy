// The collector's vocabulary: blocks, descriptors, and what it means for a
// block to be reachable. Nothing here depends on how the block table stores
// its blocks; every table operation and the collector are specified against
// these definitions.
module GcModel {
  import opened Options

  // A type descriptor: the stride in bytes, the number of 8-byte words it
  // covers, and the words whose bit is set in its pointer bitmap.
  datatype TypeDesc = TypeDesc(size: nat, wordCount: nat, pointerBits: set<nat>)
  {
    predicate IsPointerWord(w: nat) {
      w < wordCount && w in pointerBits
    }
  }

  // One record of the block table. `marked` belongs to the mark phase, `dead`
  // to a sorted record whose memory a realloc gave back.
  datatype GcBlock = GcBlock(start: nat, size: nat, desc: Option<TypeDesc>, marked: bool, dead: bool)
  {
    function AsEntry(): Entry {
      Entry(start, size, desc)
    }
  }

  // What the program knows of a live block: an interval and a descriptor.
  datatype Entry = Entry(start: nat, size: nat, desc: Option<TypeDesc>)
  {
    // The containment test is strict at the end: an empty block holds nothing.
    predicate Holds(addr: nat) {
      start <= addr < start + size
    }

    // The allocator gives every block, an empty one too, an address of its own.
    function End(): nat {
      start + if size == 0 then 1 else size
    }

    // Word `w` of repetition `k` of the descriptor is traced.
    ghost predicate Traced(k: nat, w: nat) {
      && desc.Some?
      && desc.value.size > 0
      && w < desc.value.wordCount && w in desc.value.pointerBits
      && k * desc.value.size + desc.value.size <= size
      && k * desc.value.size + w * 8 + 8 <= size
    }

    ghost function SlotAddress(k: nat, w: nat): nat
      requires Traced(k, w)
    {
      start + k * desc.value.size + w * 8
    }
  }

  type Memory = nat -> nat

  ghost predicate Apart(a: Entry, b: Entry) {
    a.End() <= b.start || b.End() <= a.start
  }

  // The allocator's promise: live blocks never share a byte.
  ghost predicate Disjoint(table: set<Entry>) {
    && (forall a, b :: a in table && b in table && a != b ==> Apart(a, b))
    && (forall a :: a in table ==> a.start > 1)
  }

  // An interval the allocator may hand out while `table` is live.
  ghost predicate Free(e: Entry, table: set<Entry>) {
    e.start > 1 && forall b :: b in table ==> Apart(e, b)
  }

  ghost function At(table: set<Entry>, addr: nat): set<Entry> {
    set e | e in table && e.start == addr
  }

  ghost predicate PointsTo(e: Entry, mem: Memory, f: Entry) {
    exists k: nat, w: nat :: e.Traced(k, w) && f.Holds(mem(e.SlotAddress(k, w)))
  }

  ghost predicate Rooted(words: seq<nat>, e: Entry) {
    exists i :: 0 <= i < |words| && e.Holds(words[i])
  }

  // A chain of live blocks from a root word to its last block.
  ghost predicate IsTrace(table: set<Entry>, mem: Memory, words: seq<nat>, trace: seq<Entry>) {
    && |trace| > 0
    && (forall i :: 0 <= i < |trace| ==> trace[i] in table)
    && Rooted(words, trace[0])
    && forall i :: 0 <= i < |trace| - 1 ==> PointsTo(trace[i], mem, trace[i + 1])
  }

  ghost predicate Reachable(table: set<Entry>, mem: Memory, words: seq<nat>, e: Entry) {
    exists trace :: IsTrace(table, mem, words, trace) && trace[|trace| - 1] == e
  }

  // What a collection must keep.
  ghost function Survivors(table: set<Entry>, mem: Memory, words: seq<nat>): set<Entry> {
    set e | e in table && Reachable(table, mem, words, e)
  }

  lemma RootIsReachable(table: set<Entry>, mem: Memory, words: seq<nat>, e: Entry)
    requires e in table && Rooted(words, e)
    ensures Reachable(table, mem, words, e)
  {
    assert IsTrace(table, mem, words, [e]);
    assert [e][|[e]| - 1] == e;
  }

  lemma ReachableExtends(table: set<Entry>, mem: Memory, words: seq<nat>, e: Entry, f: Entry)
    requires Reachable(table, mem, words, e)
    requires f in table && PointsTo(e, mem, f)
    ensures Reachable(table, mem, words, f)
  {
    var trace :| IsTrace(table, mem, words, trace) && trace[|trace| - 1] == e;
    var longer := trace + [f];
    assert IsTrace(table, mem, words, longer);
    assert longer[|longer| - 1] == f;
  }

  // A set of blocks that holds every rooted block and is closed under
  // pointers holds everything reachable: what lets the sweep trust the marks.
  lemma ClosedSetHoldsReachable(table: set<Entry>, mem: Memory, words: seq<nat>, kept: set<Entry>, e: Entry)
    requires forall r :: r in table && Rooted(words, r) ==> r in kept
    requires forall a, b :: a in kept && b in table && PointsTo(a, mem, b) ==> b in kept
    requires Reachable(table, mem, words, e)
    ensures e in kept
  {
    var trace :| IsTrace(table, mem, words, trace) && trace[|trace| - 1] == e;
    for i := 0 to |trace| - 1
      invariant trace[i] in kept
    {
      assert PointsTo(trace[i], mem, trace[i + 1]);
    }
  }

  // At most one live block holds an address.
  lemma HolderIsUnique(table: set<Entry>, a: Entry, b: Entry, addr: nat)
    requires Disjoint(table) && a in table && b in table
    requires a.Holds(addr) && b.Holds(addr)
    ensures a == b
  {
  }
}
