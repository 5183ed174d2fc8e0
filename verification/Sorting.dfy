/**
 * Stable sorting by an integer-pair key, as `sort_by_key` sorts: what it keeps, when its result is
 * the only one, and totals that no permutation changes. Everything here is about sequences; no
 * other module defines a sort of its own.
 */
module Sorting {

  /** A key; pairs compare lexicographically. */
  type Key = (int, int)

  predicate Leq(a: Key, b: Key) {
    a.0 < b.0 || (a.0 == b.0 && a.1 <= b.1)
  }

  ghost predicate Sorted<T>(xs: seq<T>, key: T -> Key) {
    forall i, j :: 0 <= i < j < |xs| ==> Leq(key(xs[i]), key(xs[j]))
  }

  /** Puts an element before the first one whose key is not smaller. */
  function Insert<T>(x: T, xs: seq<T>, key: T -> Key): (r: seq<T>)
    ensures multiset(r) == multiset{x} + multiset(xs)
    ensures |r| == |xs| + 1
  {
    if xs == [] then [x]
    else if Leq(key(x), key(xs[0])) then [x] + xs
    else
      assert xs == [xs[0]] + xs[1..];
      [xs[0]] + Insert(x, xs[1..], key)
  }

  function SortBy<T>(xs: seq<T>, key: T -> Key): (r: seq<T>)
    ensures multiset(r) == multiset(xs)
    ensures |r| == |xs|
  {
    if xs == [] then []
    else
      assert xs == [xs[0]] + xs[1..];
      Insert(xs[0], SortBy(xs[1..], key), key)
  }

  lemma {:induction false} MemberOfEqualMultisets<T>(xs: seq<T>, ys: seq<T>, x: T)
    requires multiset(xs) == multiset(ys)
    ensures x in xs <==> x in ys
  {
    assert x in multiset(xs) <==> x in multiset(ys);
  }

  lemma {:induction false} InsertSorted<T>(x: T, xs: seq<T>, key: T -> Key)
    requires Sorted(xs, key)
    ensures Sorted(Insert(x, xs, key), key)
  {
    if xs == [] || Leq(key(x), key(xs[0])) {
    } else {
      var rest := Insert(x, xs[1..], key);
      InsertSorted(x, xs[1..], key);
      forall j | 0 <= j < |rest| ensures Leq(key(xs[0]), key(rest[j])) {
        assert rest[j] in multiset(rest);
        if rest[j] != x {
          assert rest[j] in multiset(xs[1..]);
        }
      }
    }
  }

  lemma {:induction false} SortBySorted<T>(xs: seq<T>, key: T -> Key)
    ensures Sorted(SortBy(xs, key), key)
  {
    if xs != [] {
      SortBySorted(xs[1..], key);
      InsertSorted(xs[0], SortBy(xs[1..], key), key);
    }
  }

  /** The elements with one key, in their order. */
  function WithKey<T>(xs: seq<T>, key: T -> Key, k: Key): seq<T> {
    if xs == [] then [] else (if key(xs[0]) == k then [xs[0]] else []) + WithKey(xs[1..], key, k)
  }

  lemma {:induction false} InsertStable<T>(x: T, xs: seq<T>, key: T -> Key, k: Key)
    requires Sorted(xs, key)
    ensures WithKey(Insert(x, xs, key), key, k) == WithKey([x] + xs, key, k)
  {
    hide WithKey, Sorted;
    if xs != [] && !Leq(key(x), key(xs[0])) {
      var rest := xs[1..];
      assert Sorted(rest, key) by {
        RestSorted(xs, key);
      }
      InsertStable(x, rest, key, k);
      assert Insert(x, xs, key) == [xs[0]] + Insert(x, rest, key) && [xs[0]] + rest == xs;
      SwappedKeys(x, xs[0], Insert(x, rest, key), rest, key, k);
    } else {
      assert Insert(x, xs, key) == [x] + xs;
    }
  }

  lemma {:induction false} RestSorted<T>(xs: seq<T>, key: T -> Key)
    requires Sorted(xs, key) && xs != []
    ensures Sorted(xs[1..], key)
  {
  }

  lemma {:induction false} SwappedKeys<T>(x: T, y: T, xs: seq<T>, ys: seq<T>, key: T -> Key, k: Key)
    requires key(x) != key(y) && WithKey(xs, key, k) == WithKey([x] + ys, key, k)
    ensures WithKey([y] + xs, key, k) == WithKey([x] + ([y] + ys), key, k)
  {
    hide WithKey;
    WithKeyFirst(y, xs, key, k);
    WithKeyFirst(x, ys, key, k);
    WithKeyFirst(x, [y] + ys, key, k);
    WithKeyFirst(y, ys, key, k);
  }

  lemma {:induction false} WithKeyFirst<T>(x: T, xs: seq<T>, key: T -> Key, k: Key)
    ensures WithKey([x] + xs, key, k) == (if key(x) == k then [x] else []) + WithKey(xs, key, k)
  {
    assert ([x] + xs)[1..] == xs;
  }

  /** Sorting is stable: elements with equal keys keep their order. */
  lemma {:induction false} SortByStable<T>(xs: seq<T>, key: T -> Key, k: Key)
    ensures WithKey(SortBy(xs, key), key, k) == WithKey(xs, key, k)
  {
    if xs != [] {
      SortByStable(xs[1..], key, k);
      SortBySorted(xs[1..], key);
      InsertStable(xs[0], SortBy(xs[1..], key), key, k);
      assert ([xs[0]] + SortBy(xs[1..], key))[1..] == SortBy(xs[1..], key);
    }
  }

  /** A list already in order stays as it is. */
  lemma {:induction false} SortBySortedIdentity<T>(xs: seq<T>, key: T -> Key)
    requires Sorted(xs, key)
    ensures SortBy(xs, key) == xs
  {
    if xs != [] {
      SortBySortedIdentity(xs[1..], key);
      assert xs == [xs[0]] + xs[1..];
    }
  }

  /** When keys tell elements apart, a sorted arrangement is unique. */
  lemma {:induction false} SortedUnique<T>(xs: seq<T>, ys: seq<T>, key: T -> Key)
    requires multiset(xs) == multiset(ys)
    requires Sorted(xs, key) && Sorted(ys, key)
    requires forall a, b :: a in xs && b in xs && key(a) == key(b) ==> a == b
    ensures xs == ys
  {
    assert |xs| == |multiset(xs)| == |multiset(ys)| == |ys|;
    if xs != [] {
      assert xs[0] in multiset(ys) && ys[0] in multiset(xs);
      assert xs[0] == ys[0];
      assert xs == [xs[0]] + xs[1..] && ys == [ys[0]] + ys[1..];
      assert multiset(xs[1..]) == multiset(xs) - multiset{xs[0]};
      assert multiset(ys[1..]) == multiset(ys) - multiset{ys[0]};
      SortedUnique(xs[1..], ys[1..], key);
    }
  }

  // ---- What a permutation conserves

  /** What the elements of a list give together. */
  ghost function Total<T, X>(xs: seq<T>, f: T -> multiset<X>): multiset<X> {
    if xs == [] then multiset{} else f(xs[0]) + Total(xs[1..], f)
  }

  lemma {:induction false} TotalOne<T, X>(x: T, f: T -> multiset<X>)
    ensures Total([x], f) == f(x)
  {
    assert Total([x][1..], f) == multiset{};
  }

  lemma {:induction false} TotalConcat<T, X>(a: seq<T>, b: seq<T>, f: T -> multiset<X>)
    ensures Total(a + b, f) == Total(a, f) + Total(b, f)
  {
    if a == [] {
      assert a + b == b;
    } else {
      TotalConcat(a[1..], b, f);
      assert (a + b)[0] == a[0] && (a + b)[1..] == a[1..] + b;
    }
  }

  lemma {:induction false} TotalSame<T, X>(a: seq<T>, b: seq<T>, f: T -> multiset<X>)
    requires |a| == |b| && forall i :: 0 <= i < |a| ==> f(a[i]) == f(b[i])
    ensures Total(a, f) == Total(b, f)
  {
    if a != [] {
      TotalSame(a[1..], b[1..], f);
    }
  }

  lemma {:induction false} WithoutOne<T>(xs: seq<T>, i: nat)
    requires i < |xs|
    ensures multiset(xs[..i] + xs[i + 1..]) == multiset(xs) - multiset{xs[i]}
  {
    assert xs == xs[..i] + [xs[i]] + xs[i + 1..];
  }

  lemma {:induction false} TotalWithout<T, X>(xs: seq<T>, i: nat, f: T -> multiset<X>)
    requires i < |xs|
    ensures Total(xs, f) == f(xs[i]) + Total(xs[..i] + xs[i + 1..], f)
  {
    var before, after := xs[..i], xs[i + 1..];
    assert xs == before + ([xs[i]] + after);
    TotalConcat(before, after, f);
    TotalConcat(before, [xs[i]] + after, f);
    TotalConcat([xs[i]], after, f);
    TotalOne(xs[i], f);
  }

  /** A permutation gives the same total. */
  lemma {:induction false} TotalMultiset<T, X>(a: seq<T>, b: seq<T>, f: T -> multiset<X>)
    requires multiset(a) == multiset(b)
    ensures Total(a, f) == Total(b, f)
  {
    if a == [] {
      assert |b| == |multiset(b)| == |multiset(a)| == 0;
    } else {
      assert a[0] in multiset(b);
      var i :| 0 <= i < |b| && b[i] == a[0];
      WithoutOne(a, 0);
      WithoutOne(b, i);
      assert a[..0] + a[1..] == a[1..];
      TotalMultiset(a[1..], b[..i] + b[i + 1..], f);
      TotalWithout(b, i, f);
    }
  }

  lemma {:induction false} Twice<T>(xs: seq<T>, i: nat, j: nat)
    requires i < j < |xs| && xs[i] == xs[j]
    ensures multiset(xs)[xs[i]] >= 2
  {
    assert xs == xs[..j] + [xs[j]] + xs[j + 1..];
    assert xs[i] in xs[..j] && xs[i] in multiset(xs[..j]);
  }

  lemma {:induction false} Repeats<T>(xs: seq<T>, x: T, n: nat)
    requires n <= |xs|
    ensures multiset(xs[..n])[x] >= 2 ==> exists k, m :: 0 <= k < m < n && xs[k] == x && xs[m] == x
    ensures n == |xs| ==> xs[..n] == xs
  {
    if n > 0 {
      Repeats(xs, x, n - 1);
      assert xs[..n] == xs[..n - 1] + [xs[n - 1]];
      if multiset(xs[..n])[x] >= 2 && xs[n - 1] == x && multiset(xs[..n - 1])[x] < 2 {
        assert x in multiset(xs[..n - 1]);
        var k :| 0 <= k < n - 1 && xs[..n - 1][k] == x;
        assert xs[k] == x && xs[n - 1] == x;
      }
    }
  }
}
