/** One IndexedDB object store with an in-line key path: a finite map from
    key to record, where the key is extracted from the record itself. */
module ObjectStore {
  import Keys
  import opened Seqs

  /** Every record sits under the key its key path extracts from it. */
  predicate KeyedBy<R>(store: map<string, R>, keyOf: R -> string)
  {
    forall k :: k in store ==> keyOf(store[k]) == k
  }

  /** The keys of a sequence of records, position by position. */
  function KeysOf<R>(rs: seq<R>, keyOf: R -> string): (ks: seq<string>)
    ensures |ks| == |rs|
    ensures forall i :: 0 <= i < |rs| ==> ks[i] == keyOf(rs[i])
  {
    seq(|rs|, i requires 0 <= i < |rs| => keyOf(rs[i]))
  }

  /** `put`: the "store a record into an object store" algorithm of the W3C
      Indexed Database API 3.0, with overwriting allowed. An upsert under the
      record's own key: it replaces the record with that key, if any. */
  function Put<R>(store: map<string, R>, keyOf: R -> string, r: R): (s': map<string, R>)
    ensures keyOf(r) in s' && s'[keyOf(r)] == r
    ensures s'.Keys == store.Keys + {keyOf(r)}
    ensures forall k :: k in store && k != keyOf(r) ==> s'[k] == store[k]
    ensures KeyedBy(store, keyOf) ==> KeyedBy(s', keyOf)
  {
    store[keyOf(r) := r]
  }

  /** `delete(key)`: removes the record under key; an absent key is no error
      and changes nothing, so deleting twice is deleting once. */
  function Delete<R>(store: map<string, R>, key: string): (s': map<string, R>)
    ensures s'.Keys == store.Keys - {key}
    ensures forall k :: k in s' ==> s'[k] == store[k]
    ensures key !in store ==> s' == store
  {
    store - {key}
  }

  /** The records under the given keys, in the order of the keys. */
  function ByKeys<R>(store: map<string, R>, ks: seq<string>): (rs: seq<R>)
    requires forall i :: 0 <= i < |ks| ==> ks[i] in store
    ensures |rs| == |ks|
    ensures forall i :: 0 <= i < |ks| ==> rs[i] == store[ks[i]]
  {
    seq(|ks|, i requires 0 <= i < |ks| => store[ks[i]])
  }

  /** `getAll()`: every record of the store, in ascending key order. */
  function GetAll<R(==)>(store: map<string, R>): (rs: seq<R>)
    ensures |rs| == |store|
    ensures forall i :: 0 <= i < |rs| ==> rs[i] in store.Values
    ensures forall k :: k in store ==> store[k] in rs
  {
    var ks := Keys.SortedKeys(store.Keys);
    var rs := ByKeys(store, ks);
    assert forall k :: k in store ==> store[k] in rs by {
      forall k | k in store ensures store[k] in rs {
        var i :| 0 <= i < |ks| && ks[i] == k;
        assert rs[i] == store[k];
      }
    }
    rs
  }

  /** getAll of a keyed store: records come in strictly ascending key order,
      each being exactly the record stored under its key. */
  lemma GetAllOrdered<R>(store: map<string, R>, keyOf: R -> string)
    requires KeyedBy(store, keyOf)
    ensures Keys.Ascending(KeysOf(GetAll(store), keyOf))
    ensures forall i :: 0 <= i < |GetAll(store)| ==>
      keyOf(GetAll(store)[i]) in store && store[keyOf(GetAll(store)[i])] == GetAll(store)[i]
    ensures forall k :: k in KeysOf(GetAll(store), keyOf) <==> k in store
  {
    var ks := Keys.SortedKeys(store.Keys);
    var rs := GetAll(store);
    assert rs == ByKeys(store, ks);
    assert KeysOf(rs, keyOf) == ks;
  }

  /** Distinct keys in getAll's output: at most one record per key. */
  lemma GetAllOnePerKey<R>(store: map<string, R>, keyOf: R -> string, i: int, j: int)
    requires KeyedBy(store, keyOf)
    requires 0 <= i < |GetAll(store)| && 0 <= j < |GetAll(store)|
    requires keyOf(GetAll(store)[i]) == keyOf(GetAll(store)[j])
    ensures i == j
  {
    GetAllOrdered(store, keyOf);
    Keys.AscendingNoDuplicates(KeysOf(GetAll(store), keyOf));
  }

  /** The upsert law: after put(r), getAll holds r, and r is the only record
      with r's key; the count grows by one only when the key was new. */
  lemma PutThenGetAll<R>(store: map<string, R>, keyOf: R -> string, r: R)
    requires KeyedBy(store, keyOf)
    ensures var rs := GetAll(Put(store, keyOf, r));
      && r in rs
      && (forall i :: 0 <= i < |rs| && keyOf(rs[i]) == keyOf(r) ==> rs[i] == r)
      && |rs| == |GetAll(store)| + (if keyOf(r) in store then 0 else 1)
  {
    var s' := Put(store, keyOf, r);
    var rs := GetAll(s');
    assert forall i :: 0 <= i < |rs| && keyOf(rs[i]) == keyOf(r) ==> rs[i] == r by {
      GetAllOrdered(s', keyOf);
    }
    assert |s'.Keys| == |store.Keys| + (if keyOf(r) in store then 0 else 1) by {
      if keyOf(r) in store {
        assert s'.Keys == store.Keys;
      } else {
        assert s'.Keys == store.Keys + {keyOf(r)};
      }
    }
    assert |s'| == |s'.Keys| && |store| == |store.Keys|;
  }

  /** Records with other keys survive a put unchanged. */
  lemma PutKeepsOthers<R>(store: map<string, R>, keyOf: R -> string, r: R, x: R)
    requires KeyedBy(store, keyOf)
    requires x in GetAll(store) && keyOf(x) != keyOf(r)
    ensures x in GetAll(Put(store, keyOf, r))
  {
    GetAllOrdered(store, keyOf);
    var i :| 0 <= i < |GetAll(store)| && GetAll(store)[i] == x;
  }

  /** Filtering a listing keeps its keys ascending. */
  lemma {:induction false} FilterKeepsAscending<R>(rs: seq<R>, keyOf: R -> string, p: R -> bool)
    requires Keys.Ascending(KeysOf(rs, keyOf))
    ensures Keys.Ascending(KeysOf(Filter(rs, p), keyOf))
    decreases |rs|
  {
    if |rs| > 0 {
      var tail := rs[1..];
      var ks := KeysOf(rs, keyOf);
      assert Keys.Ascending(KeysOf(tail, keyOf)) by {
        assert KeysOf(tail, keyOf) == ks[1..];
      }
      FilterKeepsAscending(tail, keyOf, p);
      var ft := Filter(tail, p);
      if p(rs[0]) {
        var kt := KeysOf(ft, keyOf);
        HeadBelowFilteredTail(rs, keyOf, p);
        Keys.AscendingCons(ks[0], kt);
        assert KeysOf(Filter(rs, p), keyOf) == [ks[0]] + kt;
      } else {
        assert Filter(rs, p) == ft;
      }
    }
  }

  /** In an ascending listing the first key is below every key the rest
      keeps after filtering. */
  lemma HeadBelowFilteredTail<R>(rs: seq<R>, keyOf: R -> string, p: R -> bool)
    requires Keys.Ascending(KeysOf(rs, keyOf)) && |rs| > 0
    ensures var kt := KeysOf(Filter(rs[1..], p), keyOf);
      forall j :: 0 <= j < |kt| ==> Keys.Less(keyOf(rs[0]), kt[j])
  {
    var tail := rs[1..];
    var ks := KeysOf(rs, keyOf);
    var ft := Filter(tail, p);
    var kt := KeysOf(ft, keyOf);
    forall j | 0 <= j < |kt| ensures Keys.Less(keyOf(rs[0]), kt[j]) {
      assert ft[j] in tail;
      var m :| 0 <= m < |tail| && tail[m] == ft[j];
      assert ks[m + 1] == kt[j] && ks[0] == keyOf(rs[0]);
    }
  }

  lemma SameKeysSameRecords<R>(a: seq<R>, b: seq<R>, store: map<string, R>, keyOf: R -> string)
    requires KeysOf(a, keyOf) == KeysOf(b, keyOf)
    requires forall i :: 0 <= i < |a| ==> keyOf(a[i]) in store && store[keyOf(a[i])] == a[i]
    requires forall i :: 0 <= i < |b| ==> keyOf(b[i]) in store && store[keyOf(b[i])] == b[i]
    ensures a == b
  {
    assert |a| == |b|;
    forall i | 0 <= i < |a| ensures a[i] == b[i] {
      assert KeysOf(a, keyOf)[i] == KeysOf(b, keyOf)[i];
    }
  }

  /** The records whose key differs from key. */
  function KeyIsNot<R>(keyOf: R -> string, key: string): R -> bool
  {
    r => keyOf(r) != key
  }

  /** The keys left after filtering out one key are the store's other keys. */
  lemma KeptKeys<R>(store: map<string, R>, keyOf: R -> string, key: string)
    requires KeyedBy(store, keyOf)
    ensures forall k :: k in KeysOf(Filter(GetAll(store), KeyIsNot(keyOf, key)), keyOf) <==> k in store && k != key
  {
    KeptKeysSound(store, keyOf, key);
    KeptKeysComplete(store, keyOf, key);
  }

  lemma KeptKeysSound<R>(store: map<string, R>, keyOf: R -> string, key: string)
    requires KeyedBy(store, keyOf)
    ensures forall k :: k in KeysOf(Filter(GetAll(store), KeyIsNot(keyOf, key)), keyOf) ==> k in store && k != key
  {
    var before := GetAll(store);
    var kept := Filter(before, KeyIsNot(keyOf, key));
    forall k | k in KeysOf(kept, keyOf) ensures k in store && k != key {
      var i :| 0 <= i < |kept| && KeysOf(kept, keyOf)[i] == k;
      assert kept[i] in before && KeyIsNot(keyOf, key)(kept[i]);
      assert kept[i] in store.Values;
    }
  }

  lemma KeptKeysComplete<R>(store: map<string, R>, keyOf: R -> string, key: string)
    requires KeyedBy(store, keyOf)
    ensures forall k :: k in store && k != key ==> k in KeysOf(Filter(GetAll(store), KeyIsNot(keyOf, key)), keyOf)
  {
    var before := GetAll(store);
    var kept := Filter(before, KeyIsNot(keyOf, key));
    forall k | k in store && k != key ensures k in KeysOf(kept, keyOf) {
      var x := store[k];
      assert x in before && keyOf(x) == k;
      assert KeyIsNot(keyOf, key)(x);
      var j :| 0 <= j < |before| && before[j] == x;
      assert x in kept;
      var i :| 0 <= i < |kept| && kept[i] == x;
      assert KeysOf(kept, keyOf)[i] == k;
    }
  }

  /** The delete law: getAll after delete(key) is getAll before it with
      exactly the record under key taken out, the rest in the same order. */
  lemma DeleteThenGetAll<R>(store: map<string, R>, keyOf: R -> string, key: string)
    requires KeyedBy(store, keyOf)
    ensures GetAll(Delete(store, key)) == Filter(GetAll(store), KeyIsNot(keyOf, key))
  {
    var s' := Delete(store, key);
    var after := GetAll(s');
    var kept := Filter(GetAll(store), KeyIsNot(keyOf, key));
    KeptKeysInOrder(store, keyOf, key);
    GetAllOrdered(s', keyOf);
    KeptRecordsStored(store, keyOf, key);
    SameKeysSameRecords(kept, after, s', keyOf);
  }

  /** Filtering out one key leaves exactly the keys of the store after the
      delete, in the same order. */
  lemma KeptKeysInOrder<R>(store: map<string, R>, keyOf: R -> string, key: string)
    requires KeyedBy(store, keyOf)
    ensures KeysOf(Filter(GetAll(store), KeyIsNot(keyOf, key)), keyOf) == KeysOf(GetAll(Delete(store, key)), keyOf)
  {
    var kept := Filter(GetAll(store), KeyIsNot(keyOf, key));
    var after := GetAll(Delete(store, key));
    assert Keys.Ascending(KeysOf(kept, keyOf)) by {
      GetAllOrdered(store, keyOf);
      FilterKeepsAscending(GetAll(store), keyOf, KeyIsNot(keyOf, key));
    }
    assert Keys.Ascending(KeysOf(after, keyOf)) && forall k :: k in KeysOf(after, keyOf) <==> k in store && k != key by {
      GetAllOrdered(Delete(store, key), keyOf);
    }
    KeptKeys(store, keyOf, key);
    Keys.AscendingUnique(KeysOf(kept, keyOf), KeysOf(after, keyOf));
  }

  /** Every record a filter by key keeps is still stored after the delete. */
  lemma KeptRecordsStored<R>(store: map<string, R>, keyOf: R -> string, key: string)
    requires KeyedBy(store, keyOf)
    ensures var kept := Filter(GetAll(store), KeyIsNot(keyOf, key));
      forall i :: 0 <= i < |kept| ==> keyOf(kept[i]) in Delete(store, key) && Delete(store, key)[keyOf(kept[i])] == kept[i]
  {
    var kept := Filter(GetAll(store), KeyIsNot(keyOf, key));
    GetAllOrdered(store, keyOf);
    forall i | 0 <= i < |kept|
      ensures keyOf(kept[i]) in Delete(store, key) && Delete(store, key)[keyOf(kept[i])] == kept[i]
    {
      assert kept[i] in GetAll(store);
    }
  }
}
