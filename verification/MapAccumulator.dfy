/**
 The accumulator a decoded dictionary is collected in: a linear scan while it is small, a hash
 index from then on, and the plain fold throughout.
 */
module MapAccumulators {
  import opened Bytes
  import opened Wrappers
  import opened Values
  import Entries

  /** At or below this many entries a duplicate is found by scanning. */
  const HASH_DEDUP_THRESHOLD := 32

  class MapAccumulator {
    var entries: seq<Entry>
    var index: Option<map<bytes, nat>>

    /** The index, once built, sends exactly the keys present to their positions. */
    static ghost predicate Indexes(m: map<bytes, nat>, entries: seq<Entry>) {
      && (forall key :: key in m ==> m[key] < |entries| && entries[m[key]].key == key)
      && (forall i :: 0 <= i < |entries| ==> entries[i].key in m)
    }

    ghost predicate Valid()
      reads this
    {
      && DistinctKeys(entries)
      && (index.Some? <==> |entries| > HASH_DEDUP_THRESHOLD)
      && (index.Some? ==> Indexes(index.value, entries))
    }

    constructor ()
      ensures Valid() && entries == []
    {
      entries := [];
      index := None;
    }

    /** One entry under last-seen-value-wins, by hash once the index exists and by scan before. */
    method Insert(key: bytes, value: Value)
      requires Valid()
      modifies this
      ensures Valid() && entries == Entries.Insert(old(entries), Entry(key, value))
    {
      hide Entries.Insert, Entries.Find;
      if index.Some? {
        var m := index.value;
        if key in m {
          assert Entries.Find(entries, key) == m[key];
          entries := entries[m[key] := Entry(key, value)];
        } else {
          assert Entries.Find(entries, key) == |entries|;
          index := Some(m[key := |entries|]);
          entries := entries + [Entry(key, value)];
        }
        return;
      }
      var i := Scan(key);
      if i < |entries| {
        entries := entries[i := Entry(key, value)];
        return;
      }
      entries := entries + [Entry(key, value)];
      if |entries| > HASH_DEDUP_THRESHOLD {
        var m := BuildIndex();
        index := Some(m);
      }
    }

    method Scan(key: bytes) returns (i: nat)
      ensures i == Entries.Find(entries, key)
    {
      hide Entries.Find;
      i := 0;
      while i < |entries| && entries[i].key != key
        invariant i <= |entries|
        invariant forall j :: 0 <= j < i ==> entries[j].key != key
      {
        i := i + 1;
      }
    }

    method BuildIndex() returns (m: map<bytes, nat>)
      requires DistinctKeys(entries)
      ensures Indexes(m, entries)
    {
      m := map[];
      for i := 0 to |entries|
        invariant forall key :: key in m ==> m[key] < i && entries[m[key]].key == key
        invariant forall j :: 0 <= j < i ==> entries[j].key in m
      {
        m := m[entries[i].key := i];
      }
    }
  }

  /** Feeding any pairs to a fresh accumulator yields their deduplication. */
  method Accumulate(pairs: seq<Entry>) returns (r: seq<Entry>)
    ensures r == Entries.Dedup(pairs) && Entries.LastSeenWins(r, pairs)
  {
    var acc := new MapAccumulator();
    for i := 0 to |pairs|
      invariant fresh(acc) && acc.Valid()
      invariant Entries.Fold(acc.entries, pairs[i..]) == Entries.Dedup(pairs)
    {
      acc.Insert(pairs[i].key, pairs[i].value);
      assert pairs[i..][1..] == pairs[i + 1..];
    }
    r := acc.entries;
    Entries.DedupMeaning(pairs);
  }
}
