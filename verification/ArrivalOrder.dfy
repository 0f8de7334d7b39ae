/** A map with the order in which its keys were added, as the span stores keep
    it, against a plain list of entries. */
module ArrivalOrder {
  datatype Entry<K, D> = Entry(key: K, data: D)

  ghost predicate Distinct<K>(keys: seq<K>) {
    forall i, j :: 0 <= i < j < |keys| ==> keys[i] != keys[j]
  }

  /** The order lists every key of the map once. */
  ghost predicate Agree<K, D>(m: map<K, D>, order: seq<K>) {
    Distinct(order) && (forall k | k in m :: k in order) && (forall k | k in order :: k in m)
  }

  function Entries<K, D>(m: map<K, D>, order: seq<K>): (entries: seq<Entry<K, D>>)
    requires forall k :: k in order ==> k in m
    ensures |entries| == |order|
    ensures forall i :: 0 <= i < |order| ==> entries[i] == Entry(order[i], m[order[i]])
  {
    if order == [] then []
    else
      assert order == [order[0]] + order[1..];
      [Entry(order[0], m[order[0]])] + Entries(m, order[1..])
  }

  // ----- the list -----

  function Keys<K, D>(entries: seq<Entry<K, D>>): (keys: seq<K>)
    ensures |keys| == |entries|
    ensures forall i :: 0 <= i < |entries| ==> keys[i] == entries[i].key
  {
    if entries == [] then [] else [entries[0].key] + Keys(entries[1..])
  }

  function Updated<K(==), D>(entries: seq<Entry<K, D>>, key: K, merge: D -> D): (r: seq<Entry<K, D>>)
    ensures |r| == |entries|
    ensures forall i :: 0 <= i < |r| ==>
                          r[i] == if entries[i].key == key then Entry(key, merge(entries[i].data)) else entries[i]
  {
    if entries == [] then []
    else
      [if entries[0].key == key then Entry(key, merge(entries[0].data)) else entries[0]] + Updated(entries[1..],
          key, merge)
  }

  function Trimmed<K, D>(entries: seq<Entry<K, D>>, max: nat): seq<Entry<K, D>> {
    if |entries| >= max && entries != [] then entries[1..] else entries
  }

  /** Adds to the entry of a key, or makes one at the end, for which the oldest
      entry goes if the list is full. */
  function Put<K(==), D>(entries: seq<Entry<K, D>>, max: nat, key: K, first: D, merge: D -> D): seq<Entry<K, D>> {
    if key in Keys(entries) then Updated(entries, key, merge)
    else Trimmed(entries, max) + [Entry(key, first)]
  }

  /** An entry leaves only when the list is full and a new key comes, and then it
      is the oldest. */
  lemma {:induction false} PutExactly<K, D>(entries: seq<Entry<K, D>>, max: nat, key: K, first: D, merge: D -> D)
    requires max > 0
    ensures var after := Put(entries, max, key, first, merge);
            if exists i :: 0 <= i < |entries| && entries[i].key == key
            then |after| == |entries| && forall i :: 0 <= i < |after| ==>
              after[i] == if entries[i].key == key then Entry(key, merge(entries[i].data)) else entries[i]
            else if |entries| < max then after == entries + [Entry(key, first)]
            else after == entries[1..] + [Entry(key, first)]
  {
    if key in Keys(entries) {
      var i :| 0 <= i < |entries| && Keys(entries)[i] == key;
      assert entries[i].key == key;
    } else {
      forall i | 0 <= i < |entries| ensures entries[i].key != key {
        assert Keys(entries)[i] == entries[i].key;
      }
    }
  }

  ghost predicate Bounded<K, D>(entries: seq<Entry<K, D>>, max: nat) {
    Distinct(Keys(entries)) && |entries| <= max
  }

  lemma {:induction false} PutKeepsBounds<K, D>(entries: seq<Entry<K, D>>, max: nat, key: K, first: D, merge: D -> D)
    requires Bounded(entries, max) && max > 0
    ensures Bounded(Put(entries, max, key, first, merge), max)
  {
    var after := Put(entries, max, key, first, merge);
    if key in Keys(entries) {
      assert Keys(after) == Keys(entries);
    } else {
      var kept := Trimmed(entries, max);
      assert forall i :: 0 <= i < |kept| ==> Keys(after)[i] == Keys(entries)[i + |entries| - |kept|];
    }
  }

  // ----- the map with its order implements the list -----

  lemma {:induction false} DistinctCount<K>(keys: seq<K>)
    requires Distinct(keys)
    ensures |set k | k in keys| == |keys|
  {
    if keys != [] {
      DistinctCount(keys[1..]);
      var rest := set k | k in keys[1..];
      assert keys[0] !in rest by {
        assert forall i :: 0 <= i < |keys[1..]| ==> keys[1..][i] == keys[i + 1] != keys[0];
      }
      assert (set k | k in keys) == {keys[0]} + rest by {
        assert keys == [keys[0]] + keys[1..];
      }
    }
  }

  lemma {:induction false} SameSize<K, D>(m: map<K, D>, order: seq<K>)
    requires Agree(m, order)
    ensures |m| == |order|
  {
    DistinctCount(order);
    assert m.Keys == set k | k in order;
  }

  lemma {:induction false} EntryKeys<K, D>(m: map<K, D>, order: seq<K>)
    requires Agree(m, order)
    ensures Keys(Entries(m, order)) == order
  {
  }

  /** Dropping the head of the order and its key drops the first entry. */
  lemma {:induction false} EvictAgrees<K, D>(m: map<K, D>, order: seq<K>)
    requires Agree(m, order) && order != []
    ensures var m' := m - {order[0]};
            Agree(m', order[1..]) && Entries(m', order[1..]) == Entries(m, order)[1..]
  {
    TailKeys(order);
    assert order == [order[0]] + order[1..];
    TailEntries(m, order);
  }

  lemma {:induction false} TailKeys<K>(order: seq<K>)
    requires Distinct(order) && order != []
    ensures Distinct(order[1..]) && order[0] !in order[1..]
  {
    var rest := order[1..];
    assert forall i :: 0 <= i < |rest| ==> rest[i] == order[i + 1];
  }

  lemma {:induction false} TailEntries<K, D>(m: map<K, D>, order: seq<K>)
    requires order != [] && order[0] !in order[1..]
    requires forall k :: k in order ==> k in m
    ensures Entries(m - {order[0]}, order[1..]) == Entries(m, order)[1..]
  {
    var rest := order[1..];
    forall i | 0 <= i < |rest| ensures Entries(m - {order[0]}, rest)[i] == Entries(m, order)[i + 1] {
      assert rest[i] == order[i + 1];
    }
  }

  lemma {:induction false} InsertAgrees<K, D>(m: map<K, D>, order: seq<K>, key: K, data: D)
    requires Agree(m, order) && key !in m
    ensures Agree(m[key := data], order + [key])
    ensures Entries(m[key := data], order + [key]) == Entries(m, order) + [Entry(key, data)]
  {
    var m' := m[key := data];
    forall i | 0 <= i < |order| ensures order[i] != key && m'[order[i]] == m[order[i]] {
    }
  }

  lemma {:induction false} UpdateAgrees<K, D>(m: map<K, D>, order: seq<K>, key: K, merge: D -> D)
    requires Agree(m, order) && key in m
    ensures Agree(m[key := merge(m[key])], order)
    ensures Entries(m[key := merge(m[key])], order) == Updated(Entries(m, order), key, merge)
  {
  }
}
