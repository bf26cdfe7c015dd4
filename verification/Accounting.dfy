// Counting blocks and bytes of the live set.
module Accounting {
  import opened GcModel
  import opened BlockTable

  ghost function Bytes(live: set<Entry>): nat {
    if live == {} then 0
    else var e :| e in live; e.size + Bytes(live - {e})
  }

  lemma BytesWithout(live: set<Entry>, e: Entry)
    requires e in live
    ensures Bytes(live) == e.size + Bytes(live - {e})
  {
    var f :| f in live && Bytes(live) == f.size + Bytes(live - {f});
    if f != e {
      BytesWithout(live - {f}, e);
      BytesWithout(live - {e}, f);
      assert live - {f} - {e} == live - {e} - {f};
    }
  }

  lemma BytesWith(live: set<Entry>, e: Entry)
    requires e !in live
    ensures Bytes(live + {e}) == Bytes(live) + e.size
    ensures |live + {e}| == |live| + 1
  {
    BytesWithout(live + {e}, e);
    assert live + {e} - {e} == live;
  }

  lemma OneBlockAt(live: set<Entry>, o: Entry)
    requires Disjoint(live) && o in live
    ensures At(live, o.start) == {o}
  {
  }

  lemma FreeIsNew(live: set<Entry>, e: Entry)
    requires Free(e, live)
    ensures e !in live
  {
  }

  // A realloc takes at most one block out and puts one in.
  lemma ReplacementAccounts(live: set<Entry>, oldAddr: nat, e: Entry)
    requires Disjoint(live) && Free(e, live - At(live, oldAddr))
    ensures var after := live - At(live, oldAddr) + {e};
            && Bytes(after) <= Bytes(live) + e.size
            && |after| == |live| + if At(live, oldAddr) == {} then 1 else 0
  {
    var rest := live - At(live, oldAddr);
    FreeIsNew(rest, e);
    hide Disjoint, Free, Bytes;
    BytesWith(rest, e);
    if At(live, oldAddr) == {} {
      assert rest == live;
    } else {
      var o :| o in At(live, oldAddr);
      OneBlockAt(live, o);
      BytesWithout(live, o);
    }
  }

  // The sorted array lists each live block once.
  ghost function RecordBytes(bs: seq<GcBlock>): nat {
    if bs == [] then 0 else RecordBytes(bs[..|bs| - 1]) + bs[|bs| - 1].size
  }

  lemma RecordBytesStep(bs: seq<GcBlock>, w: nat, b: GcBlock)
    requires w < |bs|
    ensures RecordBytes(bs[w := b][..w + 1]) == RecordBytes(bs[..w]) + b.size
  {
    assert bs[w := b][..w + 1][..w] == bs[..w];
  }

  lemma RecordsAreEntries(bs: seq<GcBlock>)
    requires SortedApart(bs) && NoneDead(bs)
    ensures RecordBytes(bs) == Bytes(Entries(bs))
    ensures |bs| == |Entries(bs)|
  {
    if bs != [] {
      var n := |bs| - 1;
      var e := bs[n].AsEntry();
      assert NoneDead(bs[..n]) && SortedApart(bs[..n]);
      RecordsAreEntries(bs[..n]);
      LastRecord(bs);
      BytesWith(Entries(bs[..n]), e);
    }
  }

  lemma LastRecord(bs: seq<GcBlock>)
    requires SortedApart(bs) && NoneDead(bs) && bs != []
    ensures Entries(bs) == Entries(bs[..|bs| - 1]) + {bs[|bs| - 1].AsEntry()}
    ensures bs[|bs| - 1].AsEntry() !in Entries(bs[..|bs| - 1])
  {
    var n := |bs| - 1;
    assert bs == bs[..n] + [bs[n]];
    EntriesConcat(bs[..n], [bs[n]]);
    assert [bs[n]][0] == bs[n];
    assert Entries([bs[n]]) == {bs[n].AsEntry()};
    forall i: nat | i < n
      ensures bs[..n][i].AsEntry() != bs[n].AsEntry()
    {
      assert bs[i].AsEntry().End() <= bs[n].start;
    }
  }
}
