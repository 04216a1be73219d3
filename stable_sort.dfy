/**
 * A stable sort by key, the behaviour Python's `list.sort(key=...)` promises:
 * the result is ordered by key, is a permutation of the input, and keeps the
 * input order of elements whose keys are equal. The order on keys is a
 * parameter, required to be a total preorder.
 */
module StableSort {

  /** `le` is reflexive, total and transitive. */
  ghost predicate TotalPreorder<K(!new)>(le: (K, K) -> bool)
  {
    && (forall a, b :: le(a, b) || le(b, a))
    && (forall a, b, c :: le(a, b) && le(b, c) ==> le(a, c))
  }

  /** `s` is in non-decreasing order of `key`. */
  ghost predicate SortedBy<T, K>(s: seq<T>, key: T -> K, le: (K, K) -> bool)
  {
    forall i, j :: 0 <= i < j < |s| ==> le(key(s[i]), key(s[j]))
  }

  /** The elements of `s` whose key is `k`, in their order in `s`. */
  ghost function WithKey<T, K>(s: seq<T>, key: T -> K, k: K): seq<T>
    decreases |s|
  {
    if s == [] then []
    else (if key(s[0]) == k then [s[0]] else []) + WithKey(s[1..], key, k)
  }

  /** Inserts `x` before the first element of `s` whose key is not earlier
      than its own, so `x` goes ahead of the elements with an equal key. */
  function Insert<T(==), K>(x: T, s: seq<T>, key: T -> K, le: (K, K) -> bool): (r: seq<T>)
    ensures multiset(r) == multiset(s) + multiset{x}
    decreases |s|
  {
    if s == [] then [x]
    else if le(key(x), key(s[0])) then [x] + s
    else
      assert s == [s[0]] + s[1..];
      [s[0]] + Insert(x, s[1..], key, le)
  }

  /** Inserting into a sorted sequence keeps it sorted. */
  lemma {:induction false} InsertSorted<T, K(!new)>(x: T, s: seq<T>, key: T -> K, le: (K, K) -> bool)
    requires TotalPreorder(le) && SortedBy(s, key, le)
    ensures SortedBy(Insert(x, s, key, le), key, le)
    decreases |s|
  {
    if s == [] {
    } else if le(key(x), key(s[0])) {
      var r := [x] + s;
      forall a, b | 0 <= a < b < |r| ensures le(key(r[a]), key(r[b])) {
        if a == 0 {
          assert r[b] == s[b - 1];
          assert le(key(s[0]), key(s[b - 1])) || b - 1 == 0;
        } else {
          assert r[a] == s[a - 1] && r[b] == s[b - 1];
        }
      }
    } else {
      var rest := Insert(x, s[1..], key, le);
      assert SortedBy(s[1..], key, le) by {
        forall a, b | 0 <= a < b < |s| - 1 ensures le(key(s[1..][a]), key(s[1..][b])) {
          assert s[1..][a] == s[a + 1] && s[1..][b] == s[b + 1];
        }
      }
      InsertSorted(x, s[1..], key, le);
      forall j | 0 <= j < |rest| ensures le(key(s[0]), key(rest[j])) {
        assert rest[j] in multiset(rest);
        if rest[j] != x {
          assert rest[j] in multiset(s[1..]);
          var i :| 0 <= i < |s[1..]| && s[1..][i] == rest[j];
          assert s[i + 1] == rest[j];
        }
      }
      var r := [s[0]] + rest;
      assert Insert(x, s, key, le) == r;
      forall a, b | 0 <= a < b < |r| ensures le(key(r[a]), key(r[b])) {
        if a > 0 { assert r[a] == rest[a - 1] && r[b] == rest[b - 1]; }
        else { assert r[b] == rest[b - 1]; }
      }
    }
  }

  lemma WithKeyCons<T, K>(y: T, t: seq<T>, key: T -> K, k: K)
    ensures WithKey([y] + t, key, k) == (if key(y) == k then [y] else []) + WithKey(t, key, k)
  {
    assert ([y] + t)[1..] == t;
  }

  /** Inserting `x` puts it ahead of every element of `s` with the same key:
      the elements it passes all have keys strictly earlier than its own. */
  lemma {:induction false} InsertWithKey<T, K(!new)>(x: T, s: seq<T>, key: T -> K, le: (K, K) -> bool, k: K)
    requires TotalPreorder(le)
    ensures WithKey(Insert(x, s, key, le), key, k) == (if key(x) == k then [x] else []) + WithKey(s, key, k)
    decreases |s|
  {
    if s == [] {
      WithKeyCons(x, [], key, k);
      assert [x] + [] == [x];
    } else if le(key(x), key(s[0])) {
      WithKeyCons(x, s, key, k);
    } else {
      InsertWithKey(x, s[1..], key, le, k);
      assert le(key(x), key(x));
      InsertPastHead(x, s, key, le, k);
    }
  }

  /** When `x` goes past the head of `s` and the claim of `InsertWithKey`
      holds for the tail, it holds for `s`: the head's key is strictly earlier
      than `x`'s (`le` being reflexive at `x`'s key), so it is not `k` when
      `x`'s key is. */
  lemma InsertPastHead<T, K(!new)>(x: T, s: seq<T>, key: T -> K, le: (K, K) -> bool, k: K)
    requires s != [] && !le(key(x), key(s[0])) && le(key(x), key(x))
    requires WithKey(Insert(x, s[1..], key, le), key, k) == (if key(x) == k then [x] else []) + WithKey(s[1..], key, k)
    ensures WithKey(Insert(x, s, key, le), key, k) == (if key(x) == k then [x] else []) + WithKey(s, key, k)
  {
    var rest := Insert(x, s[1..], key, le);
    var mine := if key(x) == k then [x] else [];
    var tail := WithKey(s[1..], key, k);
    var headPart := if key(s[0]) == k then [s[0]] else [];
    calc {
      WithKey(Insert(x, s, key, le), key, k);
      { assert Insert(x, s, key, le) == [s[0]] + rest; }
      WithKey([s[0]] + rest, key, k);
      { WithKeyCons(s[0], rest, key, k); }
      headPart + (mine + tail);
      { assert key(x) == k ==> headPart == [];
        SwapEmpty(headPart, mine, tail); }
      mine + (headPart + tail);
      // WithKey unfolds once on the non-empty `s`.
      mine + WithKey(s, key, k);
    }
  }

  /** Two pieces, one of them empty, can be swapped in front of a third. */
  lemma SwapEmpty<T>(a: seq<T>, b: seq<T>, c: seq<T>)
    requires a == [] || b == []
    ensures a + (b + c) == b + (a + c)
  {
    if a == [] {
      assert a + (b + c) == b + c == b + (a + c);
    } else {
      assert a + (b + c) == a + c == b + (a + c);
    }
  }

  /** Stable insertion sort: ordered by key and a permutation of `s`. */
  function SortBy<T(==), K(!new)>(s: seq<T>, key: T -> K, le: (K, K) -> bool): (r: seq<T>)
    requires TotalPreorder(le)
    ensures SortedBy(r, key, le)
    ensures multiset(r) == multiset(s)
    decreases |s|
  {
    if s == [] then []
    else
      assert s == [s[0]] + s[1..];
      var sorted := SortBy(s[1..], key, le);
      InsertSorted(s[0], sorted, key, le);
      Insert(s[0], sorted, key, le)
  }

  /** The sort is stable: for every key, the elements with that key appear in
      the result in the same order as in the input. */
  lemma {:induction false} SortByStable<T, K(!new)>(s: seq<T>, key: T -> K, le: (K, K) -> bool, k: K)
    requires TotalPreorder(le)
    ensures WithKey(SortBy(s, key, le), key, k) == WithKey(s, key, k)
    decreases |s|
  {
    if s != [] {
      SortByStable(s[1..], key, le, k);
      InsertWithKey(s[0], SortBy(s[1..], key, le), key, le, k);
      WithKeyCons(s[0], s[1..], key, k);
      assert [s[0]] + s[1..] == s;
    }
  }
}
