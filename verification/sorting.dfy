/** `Array.prototype.sort((a, b) => key(b) - key(a))`: a stable sort into
    non-increasing key order (the sort has been stable since ES2019). */
module Sorting {

  predicate SortedDesc<T>(s: seq<T>, key: T -> int)
  {
    forall i, j :: 0 <= i < j < |s| ==> key(s[i]) >= key(s[j])
  }

  /** The elements of s whose key is k, in their order in s. */
  function WithKey<T>(s: seq<T>, key: T -> int, k: int): seq<T>
    decreases |s|
  {
    if |s| == 0 then []
    else (if key(s[0]) == k then [s[0]] else []) + WithKey(s[1..], key, k)
  }

  /** Places x before the first element whose key is not above key(x). */
  function Insert<T>(x: T, s: seq<T>, key: T -> int): (r: seq<T>)
    requires SortedDesc(s, key)
    ensures SortedDesc(r, key)
    ensures multiset(r) == multiset(s) + multiset{x}
    ensures |r| == |s| + 1
    ensures r[0] == x || (|s| > 0 && r[0] == s[0])
    decreases |s|
  {
    if |s| == 0 || key(x) >= key(s[0]) then [x] + s
    else
      assert s == [s[0]] + s[1..];
      [s[0]] + Insert(x, s[1..], key)
  }

  function SortDesc<T>(s: seq<T>, key: T -> int): (r: seq<T>)
    ensures SortedDesc(r, key)
    ensures multiset(r) == multiset(s)
    ensures |r| == |s|
    decreases |s|
  {
    if |s| == 0 then []
    else
      assert s == [s[0]] + s[1..];
      Insert(s[0], SortDesc(s[1..], key), key)
  }

  lemma {:induction false} WithKeyAppend<T>(a: seq<T>, b: seq<T>, key: T -> int, k: int)
    ensures WithKey(a + b, key, k) == WithKey(a, key, k) + WithKey(b, key, k)
    decreases |a|
  {
    if |a| > 0 {
      assert (a + b)[1..] == a[1..] + b;
      WithKeyAppend(a[1..], b, key, k);
    } else {
      assert a + b == b;
    }
  }

  lemma WithKeySingleton<T>(y: T, key: T -> int, k: int)
    ensures WithKey([y], key, k) == if key(y) == k then [y] else []
  {
    assert [y][1..] == [];
  }

  /** Two pieces of which one is empty can change places. */
  lemma SwapEmpty<T>(a: seq<T>, b: seq<T>, c: seq<T>)
    requires a == [] || b == []
    ensures a + (b + c) == b + (a + c)
  {
  }

  lemma {:induction false} InsertStable<T>(x: T, s: seq<T>, key: T -> int, k: int)
    requires SortedDesc(s, key)
    ensures WithKey(Insert(x, s, key), key, k) == WithKey([x] + s, key, k)
    decreases |s|
  {
    if |s| > 0 && key(x) < key(s[0]) {
      var rest := Insert(x, s[1..], key);
      var hx := WithKey([x], key, k);
      var h0 := WithKey([s[0]], key, k);
      var tail := WithKey(s[1..], key, k);
      assert Insert(x, s, key) == [s[0]] + rest;
      assert hx == [] || h0 == [] by {
        WithKeySingleton(x, key, k);
        WithKeySingleton(s[0], key, k);
      }
      assert WithKey([s[0]] + rest, key, k) == h0 + WithKey(rest, key, k) by {
        WithKeyAppend([s[0]], rest, key, k);
      }
      assert WithKey(rest, key, k) == hx + tail by {
        InsertStable(x, s[1..], key, k);
        WithKeyAppend([x], s[1..], key, k);
      }
      SwapEmpty(h0, hx, tail);
      assert WithKey(s, key, k) == h0 + tail by {
        WithKeyAppend([s[0]], s[1..], key, k);
        assert [s[0]] + s[1..] == s;
      }
      WithKeyAppend([x], s, key, k);
    }
  }

  /** Stability: among elements with equal keys the sort keeps the input order. */
  lemma {:induction false} SortStable<T>(s: seq<T>, key: T -> int, k: int)
    ensures WithKey(SortDesc(s, key), key, k) == WithKey(s, key, k)
    decreases |s|
  {
    if |s| > 0 {
      var t := SortDesc(s[1..], key);
      calc {
        WithKey(SortDesc(s, key), key, k);
        WithKey(Insert(s[0], t, key), key, k);
        { InsertStable(s[0], t, key, k); }
        WithKey([s[0]] + t, key, k);
        { WithKeyAppend([s[0]], t, key, k); }
        WithKey([s[0]], key, k) + WithKey(t, key, k);
        { SortStable(s[1..], key, k); }
        WithKey([s[0]], key, k) + WithKey(s[1..], key, k);
        { WithKeyAppend([s[0]], s[1..], key, k); assert [s[0]] + s[1..] == s; }
        WithKey(s, key, k);
      }
    }
  }

  /** `x` is an element of `s` whose key no element of `s` exceeds. */
  predicate IsMax<T(==)>(x: T, s: seq<T>, key: T -> int)
  {
    x in s && forall i :: 0 <= i < |s| ==> key(s[i]) <= key(x)
  }

  /** The head of the sorted sequence is an element with the greatest key. */
  lemma HeadIsMax<T>(s: seq<T>, key: T -> int)
    requires |s| > 0
    ensures IsMax(SortDesc(s, key)[0], s, key)
  {
    var v := SortDesc(s, key);
    assert v[0] in multiset(v);
    forall i | 0 <= i < |s| ensures key(s[i]) <= key(v[0]) {
      assert s[i] in multiset(s);
      var j :| 0 <= j < |v| && v[j] == s[i];
    }
  }
}
