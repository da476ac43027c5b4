/**
 Dictionary entries under "last seen value wins": the plain fold and what it means.
 */
module Entries {
  import opened Bytes
  import opened Values

  /** The position of `key` among `entries`, or their number when it is absent. */
  function Find(entries: seq<Entry>, key: bytes): (i: nat)
    ensures i <= |entries|
    ensures i < |entries| ==> entries[i].key == key
    ensures forall j :: 0 <= j < i ==> entries[j].key != key
  {
    if entries == [] || entries[0].key == key then 0 else 1 + Find(entries[1..], key)
  }

  /** A repeated key overwrites its value in place; a new key goes to the end. */
  function Insert(entries: seq<Entry>, e: Entry): (r: seq<Entry>)
    ensures var i := Find(entries, e.key);
            r == if i < |entries| then entries[i := e] else entries + [e]
    ensures DistinctKeys(entries) ==> DistinctKeys(r)
  {
    if entries == [] then [e]
    else if entries[0].key == e.key then [e] + entries[1..]
    else [entries[0]] + Insert(entries[1..], e)
  }

  function Fold(acc: seq<Entry>, pairs: seq<Entry>): (r: seq<Entry>)
    ensures DistinctKeys(acc) ==> DistinctKeys(r)
    decreases |pairs|
  {
    if pairs == [] then acc else Fold(Insert(acc, pairs[0]), pairs[1..])
  }

  function Dedup(pairs: seq<Entry>): (r: seq<Entry>)
    ensures DistinctKeys(r)
  {
    Fold([], pairs)
  }

  lemma {:induction false} FoldDistinct(acc: seq<Entry>, pairs: seq<Entry>)
    requires DistinctKeys(acc + pairs)
    ensures Fold(acc, pairs) == acc + pairs
    decreases |pairs|
  {
    hide Insert;
    if pairs == [] {
      assert acc + pairs == acc;
    } else {
      forall j | 0 <= j < |acc|
        ensures acc[j].key != pairs[0].key
      {
        assert (acc + pairs)[j].key != (acc + pairs)[|acc|].key;
      }
      assert acc + [pairs[0]] + pairs[1..] == acc + pairs;
      FoldDistinct(acc + [pairs[0]], pairs[1..]);
    }
  }

  /** Distinct entries survive deduplication untouched. */
  lemma DedupDistinct(pairs: seq<Entry>)
    requires DistinctKeys(pairs)
    ensures Dedup(pairs) == pairs
  {
    assert [] + pairs == pairs;
    FoldDistinct([], pairs);
  }

  // ---- What the fold means -----------------------------------------------------------------

  lemma {:induction false} FoldSnoc(acc: seq<Entry>, pairs: seq<Entry>, e: Entry)
    ensures Fold(acc, pairs + [e]) == Insert(Fold(acc, pairs), e)
    decreases |pairs|
  {
    hide Insert, DistinctKeys;
    if pairs == [] {
      assert (pairs + [e])[1..] == [];
    } else {
      FoldSnoc(Insert(acc, pairs[0]), pairs[1..], e);
      assert (pairs + [e])[1..] == pairs[1..] + [e];
    }
  }

  /** The position of the last pair with this key; -1 when there is none. */
  function FindLast(pairs: seq<Entry>, key: bytes): (i: int)
    ensures -1 <= i < |pairs|
    ensures i >= 0 ==> pairs[i].key == key
    ensures forall j :: i < j < |pairs| ==> pairs[j].key != key
  {
    if pairs == [] then -1
    else if pairs[|pairs| - 1].key == key then |pairs| - 1
    else FindLast(pairs[..|pairs| - 1], key)
  }

  /** The distinct keys of `pairs`, in first-seen order, each with its last-seen value. */
  ghost predicate LastSeenWins(r: seq<Entry>, pairs: seq<Entry>) {
    && (forall p: Entry :: p in pairs ==> Find(r, p.key) < |r|)
    && (forall k :: 0 <= k < |r| ==>
          FindLast(pairs, r[k].key) >= 0 && r[k] == pairs[FindLast(pairs, r[k].key)])
    && (forall i, j :: 0 <= i < j < |r| ==> Find(pairs, r[i].key) < Find(pairs, r[j].key))
  }

  lemma {:induction false} DedupMeaning(pairs: seq<Entry>)
    ensures LastSeenWins(Dedup(pairs), pairs)
  {
    if pairs != [] {
      var ps, e := pairs[..|pairs| - 1], pairs[|pairs| - 1];
      assert pairs == ps + [e];
      DedupMeaning(ps);
      FoldSnoc([], ps, e);
      InsertMeaning(Dedup(ps), ps, e);
    }
  }

  lemma FindSnoc(pairs: seq<Entry>, e: Entry, key: bytes)
    ensures Find(pairs + [e], key)
         == if Find(pairs, key) < |pairs| then Find(pairs, key) else if e.key == key then |pairs| else |pairs| + 1
  {
    hide Find;
    var all := pairs + [e];
    assert all[|pairs|] == e;
    assert forall j :: 0 <= j < |pairs| ==> all[j] == pairs[j];
  }

  lemma FindLastSnoc(pairs: seq<Entry>, e: Entry, key: bytes)
    ensures FindLast(pairs + [e], key) == if e.key == key then |pairs| else FindLast(pairs, key)
  {
  }

  /** A key the deduplicated list does not hold has not been seen at all. */
  lemma Unseen(r: seq<Entry>, pairs: seq<Entry>, key: bytes)
    requires LastSeenWins(r, pairs) && Find(r, key) == |r|
    ensures Find(pairs, key) == |pairs|
  {
  }

  /** A key it does hold is found in the pairs before their end. */
  lemma Seen(r: seq<Entry>, pairs: seq<Entry>, k: nat)
    requires LastSeenWins(r, pairs) && k < |r|
    ensures Find(pairs, r[k].key) < |pairs|
  {
  }

  lemma OrderKept(r: seq<Entry>, pairs: seq<Entry>, e: Entry)
    requires DistinctKeys(r) && LastSeenWins(r, pairs)
    ensures forall i, j :: 0 <= i < j < |Insert(r, e)| ==>
              Find(pairs + [e], Insert(r, e)[i].key) < Find(pairs + [e], Insert(r, e)[j].key)
  {
    hide Find, FindLast, Insert;
    var r' := Insert(r, e);
    forall i, j | 0 <= i < j < |r'|
      ensures Find(pairs + [e], r'[i].key) < Find(pairs + [e], r'[j].key)
    {
      Seen(r, pairs, i);
      FindSnoc(pairs, e, r'[i].key);
      FindSnoc(pairs, e, r'[j].key);
      if j < |r| {
        Seen(r, pairs, j);
        assert Find(pairs, r[i].key) < Find(pairs, r[j].key);
      } else {
        Unseen(r, pairs, e.key);
      }
    }
  }

  lemma InsertMeaning(r: seq<Entry>, pairs: seq<Entry>, e: Entry)
    requires DistinctKeys(r) && LastSeenWins(r, pairs)
    ensures LastSeenWins(Insert(r, e), pairs + [e])
  {
    hide Find, FindLast, Insert;
    var r', pairs' := Insert(r, e), pairs + [e];
    OrderKept(r, pairs, e);
    forall k | 0 <= k < |r'|
      ensures FindLast(pairs', r'[k].key) >= 0 && r'[k] == pairs'[FindLast(pairs', r'[k].key)]
    {
      FindLastSnoc(pairs, e, r'[k].key);
    }
    forall p: Entry | p in pairs'
      ensures Find(r', p.key) < |r'|
    {
      var k := if p == e then Find(r, e.key) else Find(r, p.key);
      assert p == e || p in pairs;
      assert r'[k].key == p.key;
    }
  }
}
