/** Stable sorting by a key, as Python's `list.sort(key=...)` does it.
    The sort is written as an insertion sort; `StableSortIsUnique` shows that
    every sorted permutation that keeps equal-key elements in their original
    order is this one, so the choice of algorithm does not matter. */
module Sorting {

  /** `le` is a total order on keys. */
  ghost predicate TotalOrder<K(!new)>(le: (K, K) -> bool) {
    && (forall a :: le(a, a))
    && (forall a, b :: le(a, b) && le(b, a) ==> a == b)
    && (forall a, b, c :: le(a, b) && le(b, c) ==> le(a, c))
    && (forall a, b :: le(a, b) || le(b, a))
  }

  /** Keys appear in non-decreasing order under `le`. */
  ghost predicate SortedBy<T, K>(s: seq<T>, key: T -> K, le: (K, K) -> bool) {
    forall i, j :: 0 <= i < j < |s| ==> le(key(s[i]), key(s[j]))
  }

  /** The elements of `s` whose key is `k`, in their order in `s`. */
  function KeyFilter<T, K(==)>(s: seq<T>, key: T -> K, k: K): seq<T> {
    if s == [] then []
    else (if key(s[0]) == k then [s[0]] else []) + KeyFilter(s[1..], key, k)
  }

  /** Inserts `x` in front of the first element whose key is not below its own. */
  function Insert<T, K>(x: T, s: seq<T>, key: T -> K, le: (K, K) -> bool): (r: seq<T>)
    ensures |r| == |s| + 1
    ensures multiset(r) == multiset(s) + multiset{x}
  {
    if s == [] then [x]
    else if le(key(x), key(s[0])) then [x] + s
    else
      assert s == [s[0]] + s[1..];
      [s[0]] + Insert(x, s[1..], key, le)
  }

  /** The stable sort of `s` by `key` under `le`. */
  function SortBy<T, K>(s: seq<T>, key: T -> K, le: (K, K) -> bool): (r: seq<T>)
    ensures |r| == |s|
    ensures multiset(r) == multiset(s)
  {
    if s == [] then []
    else
      assert s == [s[0]] + s[1..];
      Insert(s[0], SortBy(s[1..], key, le), key, le)
  }

  lemma {:induction false} InsertSorted<T, K(!new)>(x: T, s: seq<T>, key: T -> K, le: (K, K) -> bool)
    requires TotalOrder(le)
    requires SortedBy(s, key, le)
    ensures SortedBy(Insert(x, s, key, le), key, le)
  {
    if s != [] && !le(key(x), key(s[0])) {
      var rest := Insert(x, s[1..], key, le);
      InsertSorted(x, s[1..], key, le);
      assert le(key(s[0]), key(x));
      assert multiset(rest) == multiset(s[1..]) + multiset{x};
      forall j | 0 <= j < |rest| ensures le(key(s[0]), key(rest[j])) {
        assert rest[j] in multiset(rest);
        if rest[j] != x {
          assert rest[j] in multiset(s[1..]);
          var m :| 0 <= m < |s[1..]| && s[1..][m] == rest[j];
          assert s[m + 1] == rest[j];
        }
      }
      var r := [s[0]] + rest;
      forall i, j | 0 <= i < j < |r| ensures le(key(r[i]), key(r[j])) {
        if i > 0 {
          assert r[i] == rest[i - 1] && r[j] == rest[j - 1];
        } else {
          assert r[j] == rest[j - 1];
        }
      }
    } else if s != [] {
      var r := [x] + s;
      forall i, j | 0 <= i < j < |r| ensures le(key(r[i]), key(r[j])) {
        if i > 0 {
          assert r[i] == s[i - 1] && r[j] == s[j - 1];
        } else {
          assert r[j] == s[j - 1];
          assert le(key(s[0]), key(s[j - 1])) || j - 1 == 0;
        }
      }
    }
  }

  /** The result of `SortBy` is sorted. */
  lemma {:induction false} SortByIsSorted<T, K(!new)>(s: seq<T>, key: T -> K, le: (K, K) -> bool)
    requires TotalOrder(le)
    ensures SortedBy(SortBy(s, key, le), key, le)
  {
    if s != [] {
      SortByIsSorted(s[1..], key, le);
      InsertSorted(s[0], SortBy(s[1..], key, le), key, le);
    }
  }

  lemma {:induction false} InsertKeyFilter<T, K(!new)>(x: T, s: seq<T>, key: T -> K, le: (K, K) -> bool, k: K)
    requires forall a :: le(a, a)
    ensures KeyFilter(Insert(x, s, key, le), key, k)
         == (if key(x) == k then [x] else []) + KeyFilter(s, key, k)
  {
    var p := if key(x) == k then [x] else [];
    if s == [] {
      assert [x][1..] == [];
    } else if le(key(x), key(s[0])) {
      assert ([x] + s)[1..] == s;
    } else {
      var rest := Insert(x, s[1..], key, le);
      var q := if key(s[0]) == k then [s[0]] else [];
      InsertKeyFilter(x, s[1..], key, le, k);
      assert ([s[0]] + rest)[1..] == rest;
      assert KeyFilter([s[0]] + rest, key, k) == q + (p + KeyFilter(s[1..], key, k));
      assert key(s[0]) != key(x);
      assert p == [] || q == [];
      assert KeyFilter(s, key, k) == q + KeyFilter(s[1..], key, k);
    }
  }

  /** `SortBy` is stable: for every key, the elements with that key keep
      their relative order. */
  lemma {:induction false} SortByIsStable<T, K(!new)>(s: seq<T>, key: T -> K, le: (K, K) -> bool, k: K)
    requires TotalOrder(le)
    ensures KeyFilter(SortBy(s, key, le), key, k) == KeyFilter(s, key, k)
  {
    if s != [] {
      SortByIsStable(s[1..], key, le, k);
      InsertKeyFilter(s[0], SortBy(s[1..], key, le), key, le, k);
    }
  }

  lemma {:induction false} KeyFilterMember<T, K>(s: seq<T>, key: T -> K, k: K)
    requires KeyFilter(s, key, k) != []
    ensures exists j :: 0 <= j < |s| && key(s[j]) == k
  {
    if key(s[0]) != k {
      KeyFilterMember(s[1..], key, k);
      var j :| 0 <= j < |s[1..]| && key(s[1..][j]) == k;
      assert key(s[j + 1]) == k;
    }
  }

  /** Two sorted sequences that hold, key by key, the same elements in the
      same order are equal: a stable sort has only one possible result. */
  lemma {:induction false} StableSortIsUnique<T, K(!new)>(r1: seq<T>, r2: seq<T>, key: T -> K, le: (K, K) -> bool)
    requires TotalOrder(le)
    requires SortedBy(r1, key, le) && SortedBy(r2, key, le)
    requires forall k :: KeyFilter(r1, key, k) == KeyFilter(r2, key, k)
    ensures r1 == r2
  {
    if r1 != [] {
      var k1 := key(r1[0]);
      assert KeyFilter(r1, key, k1) != [];
      assert KeyFilter(r2, key, k1) != [];
      KeyFilterMember(r2, key, k1);
      var j2 :| 0 <= j2 < |r2| && key(r2[j2]) == k1;
      var k2 := key(r2[0]);
      assert KeyFilter(r2, key, k2) != [];
      assert KeyFilter(r1, key, k2) != [];
      KeyFilterMember(r1, key, k2);
      var j1 :| 0 <= j1 < |r1| && key(r1[j1]) == k2;
      assert le(k2, k1) by { if j2 > 0 { assert le(key(r2[0]), key(r2[j2])); } }
      assert le(k1, k2) by { if j1 > 0 { assert le(key(r1[0]), key(r1[j1])); } }
      assert k1 == k2;
      assert KeyFilter(r1, key, k1)[0] == r1[0];
      assert KeyFilter(r2, key, k1)[0] == r2[0];
      assert r1[0] == r2[0];
      forall k ensures KeyFilter(r1[1..], key, k) == KeyFilter(r2[1..], key, k) {
        var p := if key(r1[0]) == k then [r1[0]] else [];
        var t1, t2 := KeyFilter(r1[1..], key, k), KeyFilter(r2[1..], key, k);
        assert KeyFilter(r1, key, k) == p + t1;
        assert KeyFilter(r2, key, k) == p + t2;
        assert (p + t1)[|p|..] == t1;
        assert (p + t2)[|p|..] == t2;
      }
      StableSortIsUnique(r1[1..], r2[1..], key, le);
      assert r1 == [r1[0]] + r1[1..];
      assert r2 == [r2[0]] + r2[1..];
    }
  }

  /** Any sorted and stable rearrangement of `s` is `SortBy(s)`. */
  lemma SortByIsTheStableSort<T, K(!new)>(s: seq<T>, r: seq<T>, key: T -> K, le: (K, K) -> bool)
    requires TotalOrder(le)
    requires SortedBy(r, key, le)
    requires forall k :: KeyFilter(r, key, k) == KeyFilter(s, key, k)
    ensures r == SortBy(s, key, le)
  {
    SortByIsSorted(s, key, le);
    forall k ensures KeyFilter(r, key, k) == KeyFilter(SortBy(s, key, le), key, k) {
      SortByIsStable(s, key, le, k);
    }
    StableSortIsUnique(r, SortBy(s, key, le), key, le);
  }
}
