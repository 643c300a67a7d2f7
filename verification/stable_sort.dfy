/**
 * A stable sort by an integer key. `Array.prototype.sort` with a comparator
 * that returns 0 on equal keys keeps equal elements in input order on
 * every current engine; this module is the verified counterpart.
 */
module StableSort {

  /** Keys never decrease along `s`. */
  predicate Sorted<T>(s: seq<T>, key: T -> int) {
    forall i, j :: 0 <= i < j < |s| ==> key(s[i]) <= key(s[j])
  }

  /** The elements of `s` whose key is `k`, in their order in `s`. */
  function WithKey<T>(s: seq<T>, key: T -> int, k: int): (r: seq<T>)
    ensures |r| <= |s|
  {
    if |s| == 0 then []
    else (if key(s[0]) == k then [s[0]] else []) + WithKey(s[1..], key, k)
  }

  /** The number of elements of `s` whose key is below `k`. */
  function CountBelow<T>(s: seq<T>, key: T -> int, k: int): (n: nat)
    ensures n <= |s|
  {
    if |s| == 0 then 0
    else (if key(s[0]) < k then 1 else 0) + CountBelow(s[1..], key, k)
  }

  /** Puts `x` in front of the first element whose key is not below its own. */
  function Insert<T>(x: T, s: seq<T>, key: T -> int): (r: seq<T>)
    requires Sorted(s, key)
    ensures Sorted(r, key)
    ensures |r| == |s| + 1
    ensures multiset(r) == multiset(s) + multiset{x}
  {
    if |s| == 0 || key(x) <= key(s[0]) then [x] + s
    else
      var rest := Insert(x, s[1..], key);
      InsertBehindHead(x, s, rest, key);
      [s[0]] + rest
  }

  /** The step of `Insert` that keeps the head: the result is still sorted and one larger. */
  lemma {:induction false} InsertBehindHead<T>(x: T, s: seq<T>, rest: seq<T>, key: T -> int)
    requires Sorted(s, key) && |s| > 0 && key(s[0]) < key(x)
    requires Sorted(rest, key) && multiset(rest) == multiset(s[1..]) + multiset{x}
    ensures Sorted([s[0]] + rest, key)
    ensures multiset([s[0]] + rest) == multiset(s) + multiset{x}
  {
    forall j | 0 <= j < |rest|
      ensures key(s[0]) <= key(rest[j])
    {
      assert rest[j] in multiset(rest);
      if rest[j] != x {
        assert rest[j] in multiset(s[1..]);
        var i :| 0 <= i < |s[1..]| && s[1..][i] == rest[j];
        assert s[i + 1] == rest[j];
      }
    }
    assert s == [s[0]] + s[1..];
  }

  /** Insertion sort: a permutation of `s` whose keys never decrease. */
  function Sort<T>(s: seq<T>, key: T -> int): (r: seq<T>)
    ensures Sorted(r, key)
    ensures |r| == |s|
    ensures multiset(r) == multiset(s)
  {
    if |s| == 0 then []
    else
      assert s == [s[0]] + s[1..];
      Insert(s[0], Sort(s[1..], key), key)
  }

  lemma {:induction false} InsertWithKey<T>(x: T, s: seq<T>, key: T -> int, k: int)
    requires Sorted(s, key)
    ensures WithKey(Insert(x, s, key), key, k)
            == (if key(x) == k then [x] else []) + WithKey(s, key, k)
  {
    if |s| == 0 || key(x) <= key(s[0]) {
      assert Insert(x, s, key) == [x] + s;
      WithKeyCons(x, s, key, k);
    } else {
      var rest := Insert(x, s[1..], key);
      assert Insert(x, s, key) == [s[0]] + rest;
      InsertWithKey(x, s[1..], key, k);
      WithKeyCons(s[0], rest, key, k);
      WithKeyCons(s[0], s[1..], key, k);
      assert [s[0]] + s[1..] == s;
      if key(x) == k {
        assert key(s[0]) != k;
      }
    }
  }

  /** The elements with key `k` of a sequence with head `h`. */
  lemma {:induction false} WithKeyCons<T>(h: T, t: seq<T>, key: T -> int, k: int)
    ensures WithKey([h] + t, key, k) == (if key(h) == k then [h] else []) + WithKey(t, key, k)
  {
    assert ([h] + t)[1..] == t;
  }

  /**
   * Stability: for every key, the elements carrying it come out of the sort
   * in the order they went in.
   */
  lemma {:induction false} SortIsStable<T>(s: seq<T>, key: T -> int, k: int)
    ensures WithKey(Sort(s, key), key, k) == WithKey(s, key, k)
  {
    if |s| > 0 {
      SortIsStable(s[1..], key, k);
      InsertWithKey(s[0], Sort(s[1..], key), key, k);
    }
  }

  /** Stability for every key at once. */
  lemma {:induction false} SortIsStableForAllKeys<T>(s: seq<T>, key: T -> int)
    ensures forall k :: WithKey(Sort(s, key), key, k) == WithKey(s, key, k)
  {
    forall k
      ensures WithKey(Sort(s, key), key, k) == WithKey(s, key, k)
    {
      SortIsStable(s, key, k);
    }
  }

  /** Taking the elements of one key distributes over concatenation. */
  lemma {:induction false} WithKeyAppend<T>(a: seq<T>, b: seq<T>, key: T -> int, k: int)
    ensures WithKey(a + b, key, k) == WithKey(a, key, k) + WithKey(b, key, k)
  {
    if |a| == 0 {
      assert a + b == b;
    } else {
      WithKeyAppend(a[1..], b, key, k);
      assert a + b == [a[0]] + (a[1..] + b);
      WithKeyCons(a[0], a[1..] + b, key, k);
      assert a == [a[0]] + a[1..];
      WithKeyCons(a[0], a[1..], key, k);
    }
  }

  /** Sorting a sequence that is already sorted changes nothing. */
  lemma {:induction false} SortSortedIsIdentity<T>(s: seq<T>, key: T -> int)
    requires Sorted(s, key)
    ensures Sort(s, key) == s
  {
    if |s| > 0 {
      SortSortedIsIdentity(s[1..], key);
      assert [s[0]] + s[1..] == s;
    }
  }

  /**
   * A stable sort is unique: two sorted sequences with the same elements per
   * key, in the same order per key, are equal.
   */
  lemma {:induction false} StableSortUnique<T>(a: seq<T>, b: seq<T>, key: T -> int)
    requires Sorted(a, key) && Sorted(b, key)
    requires forall k :: WithKey(a, key, k) == WithKey(b, key, k)
    ensures a == b
  {
    if |a| == 0 || |b| == 0 {
      NonEmptyWithKey(a, b, key);
    } else {
      var m, m' := key(a[0]), key(b[0]);
      HeadKeyIsLeast(a, b, key);
      HeadKeyIsLeast(b, a, key);
      assert m == m';
      var wa, wb := WithKey(a, key, m), WithKey(b, key, m);
      assert wa == [a[0]] + WithKey(a[1..], key, m);
      assert wb == [b[0]] + WithKey(b[1..], key, m);
      assert wa == wb;
      assert a[0] == wa[0] == wb[0] == b[0];
      forall k
        ensures WithKey(a[1..], key, k) == WithKey(b[1..], key, k)
      {
        TailWithKey(a, b, key, k);
      }
      StableSortUnique(a[1..], b[1..], key);
      assert a == [a[0]] + a[1..] && b == [b[0]] + b[1..];
    }
  }

  lemma {:induction false} NonEmptyWithKey<T>(a: seq<T>, b: seq<T>, key: T -> int)
    requires |a| == 0 || |b| == 0
    requires forall k :: WithKey(a, key, k) == WithKey(b, key, k)
    ensures |a| == 0 && |b| == 0
  {
    if |a| > 0 {
      InWithKey(a, key, a[0]);
    } else if |b| > 0 {
      InWithKey(b, key, b[0]);
    }
  }

  /** Every element of `s` appears among the elements with its own key. */
  lemma {:induction false} InWithKey<T>(s: seq<T>, key: T -> int, x: T)
    requires x in s
    ensures x in WithKey(s, key, key(x))
  {
    if s[0] != x {
      InWithKey(s[1..], key, x);
    }
  }

  /** The elements with key `k` all come from `s`. */
  lemma {:induction false} WithKeyIn<T>(s: seq<T>, key: T -> int, k: int, x: T)
    requires x in WithKey(s, key, k)
    ensures x in s && key(x) == k
  {
    if |s| > 0 && !(key(s[0]) == k && x == s[0]) {
      WithKeyIn(s[1..], key, k, x);
    }
  }

  lemma {:induction false} HeadKeyIsLeast<T>(a: seq<T>, b: seq<T>, key: T -> int)
    requires |a| > 0 && |b| > 0 && Sorted(b, key)
    requires WithKey(a, key, key(a[0])) == WithKey(b, key, key(a[0]))
    ensures key(b[0]) <= key(a[0])
  {
    InWithKey(a, key, a[0]);
    WithKeyIn(b, key, key(a[0]), a[0]);
    var j :| 0 <= j < |b| && b[j] == a[0];
    if j > 0 {
      assert key(b[0]) <= key(b[j]);
    }
  }

  lemma {:induction false} TailWithKey<T>(a: seq<T>, b: seq<T>, key: T -> int, k: int)
    requires |a| > 0 && |b| > 0 && a[0] == b[0]
    requires WithKey(a, key, k) == WithKey(b, key, k)
    ensures WithKey(a[1..], key, k) == WithKey(b[1..], key, k)
  {
    var h := if key(a[0]) == k then [a[0]] else [];
    var ta, tb := WithKey(a[1..], key, k), WithKey(b[1..], key, k);
    assert WithKey(a, key, k) == h + ta;
    assert WithKey(b, key, k) == h + tb;
    assert (h + ta)[|h|..] == ta;
    assert (h + tb)[|h|..] == tb;
  }

  lemma {:induction false} InsertCountBelow<T>(x: T, s: seq<T>, key: T -> int, k: int)
    requires Sorted(s, key)
    ensures CountBelow(Insert(x, s, key), key, k) == CountBelow(s, key, k) + (if key(x) < k then 1 else 0)
  {
    if |s| == 0 || key(x) <= key(s[0]) {
      assert ([x] + s)[1..] == s;
    } else {
      InsertCountBelow(x, s[1..], key, k);
      assert ([s[0]] + Insert(x, s[1..], key))[1..] == Insert(x, s[1..], key);
    }
  }

  /** Sorting keeps the number of elements below any key. */
  lemma {:induction false} SortCountBelow<T>(s: seq<T>, key: T -> int, k: int)
    ensures CountBelow(Sort(s, key), key, k) == CountBelow(s, key, k)
  {
    if |s| > 0 {
      SortCountBelow(s[1..], key, k);
      InsertCountBelow(s[0], Sort(s[1..], key), key, k);
    }
  }

  /**
   * In a sorted sequence, an element whose key no other element shares sits
   * exactly after the elements with smaller keys.
   */
  lemma {:induction false} UniqueKeyPosition<T>(s: seq<T>, key: T -> int, j: int)
    requires Sorted(s, key)
    requires 0 <= j < |s|
    requires forall i :: 0 <= i < |s| && i != j ==> key(s[i]) != key(s[j])
    ensures j == CountBelow(s, key, key(s[j]))
  {
    if j == 0 {
      CountBelowNone(s[1..], key, key(s[0]));
    } else {
      assert key(s[0]) < key(s[j]);
      UniqueKeyPosition(s[1..], key, j - 1);
    }
  }

  lemma {:induction false} CountBelowNone<T>(s: seq<T>, key: T -> int, k: int)
    requires forall i :: 0 <= i < |s| ==> key(s[i]) >= k
    ensures CountBelow(s, key, k) == 0
  {
    if |s| > 0 {
      CountBelowNone(s[1..], key, k);
    }
  }

  /** Replacing one element by one with a key that is not below `k` does not raise the count below `k`. */
  lemma {:induction false} CountBelowUpdate<T>(s: seq<T>, key: T -> int, k: int, i: int, y: T)
    requires 0 <= i < |s|
    requires key(y) >= k
    ensures CountBelow(s[i := y], key, k) <= CountBelow(s, key, k)
  {
    if i == 0 {
      assert s[i := y][1..] == s[1..];
    } else {
      CountBelowUpdate(s[1..], key, k, i - 1, y);
      assert s[i := y][1..] == s[1..][i - 1 := y];
    }
  }
}
