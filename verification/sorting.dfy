/** Python's `sorted(xs, key=key, reverse=True)`: a stable sort, largest key
    first, with elements of equal key left in their input order. Modelled as an
    insertion sort, generic in the element type, the key and the key order. */
module Sorting {

  /** `geq` is reflexive: every key is at least itself. */
  ghost predicate Reflexive<K(!new)>(geq: (K, K) -> bool) {
    forall a :: geq(a, a)
  }

  /** `geq` is total and transitive (a total preorder, like `>=` on numbers or strings). */
  ghost predicate TotalPreorder<K(!new)>(geq: (K, K) -> bool) {
    && (forall a, b :: geq(a, b) || geq(b, a))
    && (forall a, b, c :: geq(a, b) && geq(b, c) ==> geq(a, c))
  }

  /** Keys never increase along `s`. */
  ghost predicate SortedDesc<T, K>(s: seq<T>, key: T -> K, geq: (K, K) -> bool) {
    forall i, j :: 0 <= i < j < |s| ==> geq(key(s[i]), key(s[j]))
  }

  /** The elements of `s` whose key is `k`, in their order in `s`. */
  function KeyClass<T, K(==)>(s: seq<T>, key: T -> K, k: K): (r: seq<T>)
    ensures |r| <= |s|
    ensures forall i :: 0 <= i < |r| ==> key(r[i]) == k
  {
    if s == [] then [] else (if key(s[0]) == k then [s[0]] else []) + KeyClass(s[1..], key, k)
  }

  /** Inserts `x` in front of the first element whose key it is at least. */
  function Insert<T, K>(x: T, s: seq<T>, key: T -> K, geq: (K, K) -> bool): (r: seq<T>)
    ensures multiset(r) == multiset(s) + multiset{x}
  {
    if s == [] then [x]
    else if geq(key(x), key(s[0])) then [x] + s
    else
      assert s == [s[0]] + s[1..];
      [s[0]] + Insert(x, s[1..], key, geq)
  }

  function SortDesc<T, K>(xs: seq<T>, key: T -> K, geq: (K, K) -> bool): (r: seq<T>)
    ensures multiset(r) == multiset(xs)
    ensures |r| == |xs|
  {
    if xs == [] then []
    else
      assert xs == [xs[0]] + xs[1..];
      Insert(xs[0], SortDesc(xs[1..], key, geq), key, geq)
  }

  lemma {:induction false} InsertSorted<T, K(!new)>(x: T, s: seq<T>, key: T -> K, geq: (K, K) -> bool)
    requires TotalPreorder(geq) && SortedDesc(s, key, geq)
    ensures SortedDesc(Insert(x, s, key, geq), key, geq)
  {
    if s == [] {
      assert Insert(x, s, key, geq) == [x];
    } else if geq(key(x), key(s[0])) {
      assert Insert(x, s, key, geq) == [x] + s;
      forall j | 0 <= j < |s| ensures geq(key(x), key(s[j])) {
        if j > 0 {
          assert geq(key(s[0]), key(s[j]));
        }
      }
      ConsSorted(x, s, key, geq);
    } else {
      var rest := Insert(x, s[1..], key, geq);
      assert Insert(x, s, key, geq) == [s[0]] + rest;
      TailSorted(s, key, geq);
      InsertSorted(x, s[1..], key, geq);
      HeadDominatesInsert(x, s, key, geq);
      ConsSorted(s[0], rest, key, geq);
    }
  }

  /** Dropping the head of an ordered list leaves it ordered. */
  lemma TailSorted<T, K>(s: seq<T>, key: T -> K, geq: (K, K) -> bool)
    requires s != [] && SortedDesc(s, key, geq)
    ensures SortedDesc(s[1..], key, geq)
  {
    forall i, j | 0 <= i < j < |s[1..]| ensures geq(key(s[1..][i]), key(s[1..][j])) {
      assert s[1..][i] == s[i + 1] && s[1..][j] == s[j + 1];
    }
  }

  /** An element at least as large as every element of an ordered list can go in front. */
  lemma ConsSorted<T, K>(h: T, t: seq<T>, key: T -> K, geq: (K, K) -> bool)
    requires SortedDesc(t, key, geq)
    requires forall j :: 0 <= j < |t| ==> geq(key(h), key(t[j]))
    ensures SortedDesc([h] + t, key, geq)
  {
    var r := [h] + t;
    forall i, j | 0 <= i < j < |r| ensures geq(key(r[i]), key(r[j])) {
      if i == 0 {
        assert r[j] == t[j - 1];
      } else {
        assert r[i] == t[i - 1] && r[j] == t[j - 1];
      }
    }
  }

  /** When `x` goes past the head of an ordered `s`, that head is at least
      every element of what follows it. */
  lemma HeadDominatesInsert<T, K(!new)>(x: T, s: seq<T>, key: T -> K, geq: (K, K) -> bool)
    requires TotalPreorder(geq) && SortedDesc(s, key, geq)
    requires s != [] && !geq(key(x), key(s[0]))
    ensures forall j :: 0 <= j < |Insert(x, s[1..], key, geq)| ==> geq(key(s[0]), key(Insert(x, s[1..], key, geq)[j]))
  {
    var rest := Insert(x, s[1..], key, geq);
    assert geq(key(s[0]), key(x));
    forall j | 0 <= j < |rest| ensures geq(key(s[0]), key(rest[j])) {
      assert rest[j] in multiset(rest);
      if rest[j] != x {
        assert rest[j] in multiset(s[1..]);
        var m :| 0 <= m < |s[1..]| && s[1..][m] == rest[j];
        assert s[m + 1] == rest[j];
      }
    }
  }

  /** The output is ordered largest key first. */
  lemma {:induction false} SortDescSorted<T, K(!new)>(xs: seq<T>, key: T -> K, geq: (K, K) -> bool)
    requires TotalPreorder(geq)
    ensures SortedDesc(SortDesc(xs, key, geq), key, geq)
  {
    if xs != [] {
      SortDescSorted(xs[1..], key, geq);
      InsertSorted(xs[0], SortDesc(xs[1..], key, geq), key, geq);
    }
  }

  /** The key class of a list with a known first element. */
  lemma KeyClassCons<T, K>(h: T, t: seq<T>, key: T -> K, k: K)
    ensures KeyClass([h] + t, key, k) == (if key(h) == k then [h] else []) + KeyClass(t, key, k)
  {
    assert ([h] + t)[1..] == t;
  }

  /** Inserting `x` puts it in front of every element that has its key. */
  lemma {:induction false} InsertKeyClass<T, K(!new)>(x: T, s: seq<T>, key: T -> K, geq: (K, K) -> bool, k: K)
    requires Reflexive(geq)
    ensures KeyClass(Insert(x, s, key, geq), key, k) == KeyClass([x] + s, key, k)
  {
    if s == [] || geq(key(x), key(s[0])) {
      assert Insert(x, s, key, geq) == [x] + s;
    } else {
      var rest := Insert(x, s[1..], key, geq);
      InsertKeyClass(x, s[1..], key, geq, k);
      assert Insert(x, s, key, geq) == [s[0]] + rest;
      assert s == [s[0]] + s[1..];
      // x and s[0] cannot share the key: x would have gone first
      assert key(x) != k || key(s[0]) != k;
      SwapPastHead(x, s[0], s[1..], rest, key, k);
    }
  }

  /** Moving `x` past a head `h` of another key leaves every key class as it was. */
  lemma SwapPastHead<T, K>(x: T, h: T, t: seq<T>, rest: seq<T>, key: T -> K, k: K)
    requires key(x) != k || key(h) != k
    requires KeyClass(rest, key, k) == KeyClass([x] + t, key, k)
    ensures KeyClass([h] + rest, key, k) == KeyClass([x] + ([h] + t), key, k)
  {
    KeyClassCons(h, rest, key, k);
    KeyClassCons(x, t, key, k);
    KeyClassCons(x, [h] + t, key, k);
    KeyClassCons(h, t, key, k);
    var tail := KeyClass(t, key, k);
    if key(x) == k {
      assert KeyClass([h] + rest, key, k) == [x] + tail;
    } else if key(h) == k {
      assert KeyClass([h] + rest, key, k) == [h] + tail;
    } else {
      assert KeyClass([h] + rest, key, k) == tail;
    }
  }

  /** Stability: for every key, the elements with that key come out in the
      order they went in. */
  lemma {:induction false} SortDescStable<T, K(!new)>(xs: seq<T>, key: T -> K, geq: (K, K) -> bool, k: K)
    requires Reflexive(geq)
    ensures KeyClass(SortDesc(xs, key, geq), key, k) == KeyClass(xs, key, k)
  {
    if xs != [] {
      var sorted := SortDesc(xs[1..], key, geq);
      SortDescStable(xs[1..], key, geq, k);
      InsertKeyClass(xs[0], sorted, key, geq, k);
      assert ([xs[0]] + sorted)[1..] == sorted;
    }
  }
}
