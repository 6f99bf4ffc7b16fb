/** `Array.prototype.sort` as the dashboard uses it: a stable sort driven by
    a comparator that subtracts two numeric keys, so that elements end up
    ascending by key and elements with equal keys keep their input order.

    The specification is insertion sort written as functions over
    sequences; the method sorts an array in place and is proved to produce
    exactly that sequence. Which algorithm the JavaScript engine really runs
    does not matter: a stable sort by a key has only one possible output. */
module StableSort {

  /** Non-decreasing by `key`. */
  predicate SortedBy<T>(s: seq<T>, key: T -> real) {
    forall i, j :: 0 <= i < j < |s| ==> key(s[i]) <= key(s[j])
  }

  /** The elements of `s` whose key is `k`, in their order in `s`. */
  function WithKey<T>(s: seq<T>, key: T -> real, k: real): (r: seq<T>)
    ensures |r| <= |s|
    ensures forall x :: x in r ==> x in s && key(x) == k
  {
    if s == [] then []
    else if key(s[0]) == k then [s[0]] + WithKey(s[1..], key, k)
    else WithKey(s[1..], key, k)
  }

  /** Puts `x` in front of the first element of `t` whose key is not
      smaller than its own. */
  function Insert<T>(x: T, t: seq<T>, key: T -> real): seq<T> {
    if t == [] || key(x) <= key(t[0]) then [x] + t
    else [t[0]] + Insert(x, t[1..], key)
  }

  /** The stable sort of `s` by `key`, ascending. */
  function SortBy<T>(s: seq<T>, key: T -> real): seq<T> {
    if s == [] then [] else Insert(s[0], SortBy(s[1..], key), key)
  }

  lemma {:induction false} InsertPermutes<T>(x: T, t: seq<T>, key: T -> real)
    ensures multiset(Insert(x, t, key)) == multiset{x} + multiset(t)
  {
    if t != [] && key(t[0]) < key(x) {
      InsertPermutes(x, t[1..], key);
      assert t == [t[0]] + t[1..];
    }
  }

  lemma {:induction false} InsertKeepsSorted<T>(x: T, t: seq<T>, key: T -> real)
    requires SortedBy(t, key)
    ensures SortedBy(Insert(x, t, key), key)
  {
    if t != [] && key(t[0]) < key(x) {
      var r := Insert(x, t[1..], key);
      InsertKeepsSorted(x, t[1..], key);
      InsertPermutes(x, t[1..], key);
      forall y | y in r ensures key(t[0]) <= key(y) {
        assert y in multiset(r);
        if y != x {
          assert y in multiset(t[1..]);
        }
      }
    }
  }

  /** Inserting `x` adds it to the group of its own key, in front, and
      leaves every other group alone. */
  lemma {:induction false} InsertWithKey<T>(x: T, t: seq<T>, key: T -> real, k: real)
    requires SortedBy(t, key)
    ensures WithKey(Insert(x, t, key), key, k)
         == if key(x) == k then [x] + WithKey(t, key, k) else WithKey(t, key, k)
  {
    if t == [] || key(x) <= key(t[0]) {
      assert Insert(x, t, key)[1..] == t;
    } else {
      InsertWithKey(x, t[1..], key, k);
      assert Insert(x, t, key)[1..] == Insert(x, t[1..], key);
    }
  }

  /** Where `Insert` puts `x`: after the prefix `t[..m]` of smaller keys. */
  lemma {:induction false} InsertAt<T>(x: T, t: seq<T>, key: T -> real, m: nat)
    requires m <= |t|
    requires forall i :: 0 <= i < m ==> key(t[i]) < key(x)
    requires m == |t| || key(x) <= key(t[m])
    ensures Insert(x, t, key) == t[..m] + [x] + t[m..]
  {
    if m > 0 {
      InsertAt(x, t[1..], key, m - 1);
      assert t[1..][..m - 1] == t[1..m];
      assert t[1..][m - 1..] == t[m..];
      assert t[..m] == [t[0]] + t[1..m];
    }
  }

  /** The sort is ascending by key. */
  lemma {:induction false} SortBySorted<T>(s: seq<T>, key: T -> real)
    ensures SortedBy(SortBy(s, key), key)
  {
    if s != [] {
      SortBySorted(s[1..], key);
      InsertKeepsSorted(s[0], SortBy(s[1..], key), key);
    }
  }

  /** The sort is a permutation of its input. */
  lemma {:induction false} SortByPermutes<T>(s: seq<T>, key: T -> real)
    ensures multiset(SortBy(s, key)) == multiset(s)
  {
    if s != [] {
      SortByPermutes(s[1..], key);
      InsertPermutes(s[0], SortBy(s[1..], key), key);
      assert s == [s[0]] + s[1..];
    }
  }

  /** The sort is stable: the elements sharing any one key come out in the
      order they went in. */
  lemma {:induction false} SortByStable<T>(s: seq<T>, key: T -> real, k: real)
    ensures WithKey(SortBy(s, key), key, k) == WithKey(s, key, k)
  {
    if s != [] {
      SortByStable(s[1..], key, k);
      SortBySorted(s[1..], key);
      InsertWithKey(s[0], SortBy(s[1..], key), key, k);
    }
  }

  /** Two sequences sorted with strictly increasing keys that hold the
      same elements are equal: with distinct keys, the order of the input
      cannot show through. */
  lemma {:induction false} StrictlySortedUnique<T>(s: seq<T>, t: seq<T>, key: T -> real)
    requires forall i, j :: 0 <= i < j < |s| ==> key(s[i]) < key(s[j])
    requires forall i, j :: 0 <= i < j < |t| ==> key(t[i]) < key(t[j])
    requires multiset(s) == multiset(t)
    ensures s == t
  {
    if s == [] {
      assert |t| == |multiset(t)| == 0;
    } else {
      assert s[0] in multiset(t) by { assert s[0] in multiset(s); }
      assert t[0] in multiset(s) by { assert t[0] in multiset(t); }
      var i :| 0 <= i < |t| && t[i] == s[0];
      var j :| 0 <= j < |s| && s[j] == t[0];
      assert s[0] == t[0];
      TailsSameElements(s, t);
      StrictlySortedUnique(s[1..], t[1..], key);
    }
  }

  lemma TailsSameElements<T>(s: seq<T>, t: seq<T>)
    requires s != [] && t != [] && s[0] == t[0]
    requires multiset(s) == multiset(t)
    ensures multiset(s[1..]) == multiset(t[1..])
  {
    assert s == [s[0]] + s[1..];
    assert t == [t[0]] + t[1..];
    assert multiset(s) == multiset{s[0]} + multiset(s[1..]);
    assert multiset(t) == multiset{s[0]} + multiset(t[1..]);
    assert multiset(s[1..]) == multiset(s) - multiset{s[0]};
    assert multiset(t[1..]) == multiset(t) - multiset{s[0]};
  }

  /** Sorts `a` in place, stably and ascending by `key`. Works from the
      right: the suffix `a[i..]` is always the sorted form of the original
      suffix, and the element just left of it is inserted into it. */
  method SortInPlace<T>(a: array<T>, key: T -> real)
    modifies a
    ensures a[..] == SortBy(old(a[..]), key)
  {
    ghost var orig := a[..];
    var i := a.Length;
    while i > 0
      invariant 0 <= i <= a.Length
      invariant a[..i] == orig[..i]
      invariant a[i..] == SortBy(orig[i..], key)
    {
      i := i - 1;
      assert orig[i..][1..] == orig[i + 1..];
      SortBySorted(orig[i + 1..], key);
      InsertInPlace(a, i, key);
      assert a[..i] == orig[..i];
    }
    assert orig[0..] == orig;
  }

  /** Moves `a[i]` into the sorted suffix `a[i+1..]`, shifting the elements
      with smaller keys one place left. */
  method InsertInPlace<T>(a: array<T>, i: nat, key: T -> real)
    requires i < a.Length
    requires SortedBy(a[i + 1..], key)
    modifies a
    ensures a[..i] == old(a[..i])
    ensures a[i..] == Insert(old(a[i]), old(a[i + 1..]), key)
  {
    ghost var t := a[i + 1..];
    var x := a[i];
    var j := i;
    while j + 1 < a.Length && key(a[j + 1]) < key(x)
      invariant i <= j < a.Length
      invariant forall k :: 0 <= k < i ==> a[k] == old(a[k])
      invariant forall k :: i <= k < j ==> a[k] == t[k - i]
      invariant forall k :: j < k < a.Length ==> a[k] == t[k - i - 1]
      invariant forall k :: 0 <= k < j - i ==> key(t[k]) < key(x)
    {
      a[j] := a[j + 1];
      j := j + 1;
    }
    a[j] := x;
    InsertAt(x, t, key, j - i);
    Placed(old(a[..]), a[..], i, j - i, t, x);
  }

  /** The array after one insertion, read as a sequence: the prefix is
      untouched and the suffix is `t` with `x` placed after `m` elements. */
  lemma Placed<T>(before: seq<T>, after: seq<T>, i: nat, m: nat, t: seq<T>, x: T)
    requires |after| == |before| == i + 1 + |t| && m <= |t|
    requires forall k :: 0 <= k < i ==> after[k] == before[k]
    requires forall k :: i <= k < i + m ==> after[k] == t[k - i]
    requires after[i + m] == x
    requires forall k :: i + m < k < |after| ==> after[k] == t[k - i - 1]
    ensures after[..i] == before[..i]
    ensures after[i..] == t[..m] + [x] + t[m..]
  {
    var want := t[..m] + [x] + t[m..];
    forall k | 0 <= k < |after| - i ensures after[i..][k] == want[k] {
      if k < m {
        assert want[k] == t[k];
      } else if k > m {
        assert want[k] == t[k - 1];
      }
    }
  }
}
