/** Python's stable `list.sort()` on records compared by one integer key
    (the price): a later element never moves before an earlier one of equal key. */
module Sorting {

  predicate SortedBy<T>(s: seq<T>, key: T -> int) {
    forall i, j :: 0 <= i < j < |s| ==> key(s[i]) <= key(s[j])
  }

  /** The elements of `s` whose key is `k`, in their order in `s`. */
  function WithKey<T>(s: seq<T>, key: T -> int, k: int): seq<T> {
    if s == [] then []
    else (if key(s[0]) == k then [s[0]] else []) + WithKey(s[1..], key, k)
  }

  /** Places `x` after every element of `s` whose key is not greater than its own. */
  function Insert<T>(x: T, s: seq<T>, key: T -> int): seq<T> {
    if s == [] then [x]
    else if key(x) < key(s[0]) then [x] + s
    else [s[0]] + Insert(x, s[1..], key)
  }

  /** Insertion sort, inserting the elements from first to last. */
  function SortBy<T>(s: seq<T>, key: T -> int): (r: seq<T>)
    ensures SortedBy(r, key)
    ensures multiset(r) == multiset(s)
    ensures forall k :: WithKey(r, key, k) == WithKey(s, key, k)
  {
    if s == [] then []
    else
      var init := s[..|s| - 1];
      var x := s[|s| - 1];
      var t := SortBy(init, key);
      InsertIntoSorted(x, t, key);
      assert s == init + [x];
      WithKeyAppend(init, [x], key);
      WithKeySingleton(x, key);
      Insert(x, t, key)
  }

  lemma {:induction false} WithKeyAppend<T>(a: seq<T>, b: seq<T>, key: T -> int)
    ensures forall k :: WithKey(a + b, key, k) == WithKey(a, key, k) + WithKey(b, key, k)
  {
    if a != [] {
      WithKeyAppend(a[1..], b, key);
      assert (a + b)[1..] == a[1..] + b;
    } else {
      assert a + b == b;
    }
  }

  lemma {:induction false} WithKeyAbsent<T>(s: seq<T>, key: T -> int, k: int)
    requires forall i :: 0 <= i < |s| ==> key(s[i]) != k
    ensures WithKey(s, key, k) == []
  {
    if s != [] {
      WithKeyAbsent(s[1..], key, k);
    }
  }

  lemma WithKeySingleton<T>(x: T, key: T -> int)
    ensures forall k :: WithKey([x], key, k) == (if key(x) == k then [x] else [])
  {
    forall k ensures WithKey([x], key, k) == (if key(x) == k then [x] else []) {
      assert [x][1..] == [];
    }
  }

  /** Inserting into a sorted sequence keeps it sorted, adds exactly `x`,
      and puts `x` after every element of equal key. */
  lemma InsertIntoSorted<T>(x: T, s: seq<T>, key: T -> int)
    requires SortedBy(s, key)
    ensures SortedBy(Insert(x, s, key), key)
    ensures multiset(Insert(x, s, key)) == multiset(s) + multiset{x}
    ensures forall k :: WithKey(Insert(x, s, key), key, k)
                        == WithKey(s, key, k) + (if key(x) == k then [x] else [])
  {
    InsertMultiset(x, s, key);
    InsertKeepsSorted(x, s, key);
    InsertWithKey(x, s, key);
  }

  lemma {:induction false} InsertMultiset<T>(x: T, s: seq<T>, key: T -> int)
    ensures multiset(Insert(x, s, key)) == multiset(s) + multiset{x}
  {
    if s != [] && key(x) >= key(s[0]) {
      InsertMultiset(x, s[1..], key);
      assert s == [s[0]] + s[1..];
    }
  }

  /** Inserting an element no smaller than `lo` into elements no smaller than `lo`
      gives elements no smaller than `lo`. */
  lemma {:induction false} InsertBounded<T>(x: T, s: seq<T>, key: T -> int, lo: int)
    requires lo <= key(x) && forall i :: 0 <= i < |s| ==> lo <= key(s[i])
    ensures forall i :: 0 <= i < |Insert(x, s, key)| ==> lo <= key(Insert(x, s, key)[i])
  {
    if s != [] && key(x) >= key(s[0]) {
      InsertBounded(x, s[1..], key, lo);
      assert Insert(x, s, key) == [s[0]] + Insert(x, s[1..], key);
    }
  }

  lemma {:induction false} InsertKeepsSorted<T>(x: T, s: seq<T>, key: T -> int)
    requires SortedBy(s, key)
    ensures SortedBy(Insert(x, s, key), key)
  {
    if s != [] && key(x) >= key(s[0]) {
      var r := Insert(x, s[1..], key);
      InsertKeepsSorted(x, s[1..], key);
      InsertBounded(x, s[1..], key, key(s[0]));
      assert Insert(x, s, key) == [s[0]] + r;
    }
  }

  lemma {:induction false} InsertWithKey<T>(x: T, s: seq<T>, key: T -> int)
    requires SortedBy(s, key)
    ensures forall k :: WithKey(Insert(x, s, key), key, k)
                        == WithKey(s, key, k) + (if key(x) == k then [x] else [])
  {
    if s == [] {
      WithKeySingleton(x, key);
    } else if key(x) < key(s[0]) {
      forall k
        ensures WithKey(Insert(x, s, key), key, k)
                == WithKey(s, key, k) + (if key(x) == k then [x] else [])
      {
        assert ([x] + s)[1..] == s;
        if key(x) == k {
          WithKeyAbsent(s, key, k);
        }
      }
    } else {
      InsertWithKey(x, s[1..], key);
      var r := Insert(x, s[1..], key);
      assert Insert(x, s, key) == [s[0]] + r;
      assert ([s[0]] + r)[1..] == r;
      forall k
        ensures WithKey(Insert(x, s, key), key, k)
                == WithKey(s, key, k) + (if key(x) == k then [x] else [])
      {
        var head := if key(s[0]) == k then [s[0]] else [];
        assert WithKey([s[0]] + r, key, k) == head + WithKey(r, key, k);
        assert WithKey(s, key, k) == head + WithKey(s[1..], key, k);
        assert head + (WithKey(s[1..], key, k) + (if key(x) == k then [x] else []))
               == (head + WithKey(s[1..], key, k)) + (if key(x) == k then [x] else []);
      }
    }
  }

  /** A sorted sequence with the same equal-key subsequences as `s` is the stable sort of `s`:
      sortedness and stability determine the result. */
  lemma {:induction false} StableSortIsUnique<T>(s: seq<T>, r: seq<T>, key: T -> int)
    requires SortedBy(r, key)
    requires forall k :: WithKey(r, key, k) == WithKey(s, key, k)
    ensures r == SortBy(s, key)
  {
    var q := SortBy(s, key);
    SortedWithSameKeysEqual(r, q, key);
  }

  lemma WithKeyHead<T>(s: seq<T>, key: T -> int)
    requires s != []
    ensures WithKey(s, key, key(s[0])) != []
  {
  }

  lemma {:induction false} SortedWithSameKeysEqual<T>(a: seq<T>, b: seq<T>, key: T -> int)
    requires SortedBy(a, key) && SortedBy(b, key)
    requires forall k :: WithKey(a, key, k) == WithKey(b, key, k)
    ensures a == b
    decreases |a| + |b|
  {
    if a == [] && b == [] {
    } else if a == [] {
      WithKeyHead(b, key);
      assert false;
    } else if b == [] {
      WithKeyHead(a, key);
      assert false;
    } else {
      var ka, kb := key(a[0]), key(b[0]);
      if ka < kb {
        WithKeyAbsent(b, key, ka);
        WithKeyHead(a, key);
        assert false;
      } else if kb < ka {
        WithKeyAbsent(a, key, kb);
        WithKeyHead(b, key);
        assert false;
      } else {
        assert WithKey(a, key, ka)[0] == a[0];
        assert WithKey(b, key, kb)[0] == b[0];
        assert a[0] == b[0];
        forall k ensures WithKey(a[1..], key, k) == WithKey(b[1..], key, k) {
          var head := if ka == k then [a[0]] else [];
          assert WithKey(a, key, k) == head + WithKey(a[1..], key, k);
          assert WithKey(b, key, k) == head + WithKey(b[1..], key, k);
          assert (head + WithKey(a[1..], key, k))[|head|..] == WithKey(a[1..], key, k);
          assert (head + WithKey(b[1..], key, k))[|head|..] == WithKey(b[1..], key, k);
        }
        SortedWithSameKeysEqual(a[1..], b[1..], key);
        assert a == [a[0]] + a[1..];
        assert b == [b[0]] + b[1..];
      }
    }
  }
}
