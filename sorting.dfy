/** `Array.prototype.sort` with a comparator `(a, b) => key(b) - key(a)`: a stable sort,
    largest key first. The model is an insertion sort, which is stable. */
module Sorting {
  import opened Seqs

  /** Largest key first. */
  predicate Descending<T>(s: seq<T>, key: T -> int)
  {
    forall i, j :: 0 <= i < j < |s| ==> key(s[i]) >= key(s[j])
  }

  /** The elements whose key is `c`. */
  function HasKey<T>(key: T -> int, c: int): T -> bool
  {
    x => key(x) == c
  }

  /** Puts `x`, which precedes every element of `t` in the input, in front of the first
      element whose key is not larger than its own, so that ties keep their input order. */
  function Insert<T>(x: T, t: seq<T>, key: T -> int): seq<T>
  {
    if t == [] || key(t[0]) <= key(x) then [x] + t
    else [t[0]] + Insert(x, t[1..], key)
  }

  function SortDesc<T>(s: seq<T>, key: T -> int): seq<T>
  {
    if s == [] then [] else Insert(s[0], SortDesc(s[1..], key), key)
  }

  lemma {:induction false} InsertPermutes<T>(x: T, t: seq<T>, key: T -> int)
    ensures multiset(Insert(x, t, key)) == multiset(t) + multiset{x}
  {
    if t != [] && key(t[0]) > key(x) {
      InsertPermutes(x, t[1..], key);
      assert t == [t[0]] + t[1..];
    }
  }

  lemma {:induction false} InsertMembers<T>(x: T, t: seq<T>, key: T -> int)
    ensures forall y :: y in Insert(x, t, key) ==> y == x || y in t
  {
    if t != [] && key(t[0]) > key(x) {
      InsertMembers(x, t[1..], key);
    }
  }

  lemma {:induction false} InsertKeepsOrder<T>(x: T, t: seq<T>, key: T -> int)
    requires Descending(t, key)
    ensures Descending(Insert(x, t, key), key)
  {
    if t != [] && key(t[0]) > key(x) {
      var tail := t[1..];
      DescendingTail(t, key);
      InsertKeepsOrder(x, tail, key);
      InsertMembers(x, tail, key);
      var rest := Insert(x, tail, key);
      forall y | y in rest ensures key(y) <= key(t[0]) {
        if y != x {
          var j :| 0 <= j < |tail| && tail[j] == y;
          assert y == t[j + 1];
        }
      }
      DescendingCons(t[0], rest, key);
    }
  }

  lemma DescendingTail<T>(t: seq<T>, key: T -> int)
    requires t != [] && Descending(t, key)
    ensures Descending(t[1..], key)
  {
    var tail := t[1..];
    forall i, j | 0 <= i < j < |tail| ensures key(tail[i]) >= key(tail[j]) {
      assert tail[i] == t[i + 1] && tail[j] == t[j + 1];
    }
  }

  /** An element whose key is at least every key of a descending list can go in front of it. */
  lemma DescendingCons<T>(h: T, rest: seq<T>, key: T -> int)
    requires Descending(rest, key) && forall y :: y in rest ==> key(y) <= key(h)
    ensures Descending([h] + rest, key)
  {
    var r := [h] + rest;
    forall i, j | 0 <= i < j < |r| ensures key(r[i]) >= key(r[j]) {
      assert r[j] == rest[j - 1] && r[j] in rest;
      if i > 0 {
        assert r[i] == rest[i - 1];
      }
    }
  }

  /** The sorted list is a permutation of its input. */
  lemma {:induction false} SortPermutes<T>(s: seq<T>, key: T -> int)
    ensures multiset(SortDesc(s, key)) == multiset(s)
  {
    if s != [] {
      SortPermutes(s[1..], key);
      InsertPermutes(s[0], SortDesc(s[1..], key), key);
      assert s == [s[0]] + s[1..];
    }
  }

  /** The sorted list has the largest key first. */
  lemma {:induction false} SortOrdered<T>(s: seq<T>, key: T -> int)
    ensures Descending(SortDesc(s, key), key)
  {
    if s != [] {
      SortOrdered(s[1..], key);
      InsertKeepsOrder(s[0], SortDesc(s[1..], key), key);
    }
  }

  /** Inserting `x` keeps, among the elements of any one key, the order: `x` first. */
  lemma {:induction false} InsertStable<T>(x: T, t: seq<T>, key: T -> int, c: int)
    ensures Filter(Insert(x, t, key), HasKey(key, c)) ==
      (if key(x) == c then [x] else []) + Filter(t, HasKey(key, c))
  {
    if t == [] || key(t[0]) <= key(x) {
      assert ([x] + t)[1..] == t;
    } else {
      InsertStable(x, t[1..], key, c);
      assert ([t[0]] + Insert(x, t[1..], key))[1..] == Insert(x, t[1..], key);
    }
  }

  /** The sort is stable: the elements that share a key keep their input order. */
  lemma {:induction false} SortStable<T>(s: seq<T>, key: T -> int, c: int)
    ensures Filter(SortDesc(s, key), HasKey(key, c)) == Filter(s, HasKey(key, c))
  {
    if s != [] {
      SortStable(s[1..], key, c);
      InsertStable(s[0], SortDesc(s[1..], key), key, c);
    }
  }

  /** Inserting `x` into `t` puts it after the first `d` elements when exactly those have a
      larger key: it lands before the first element whose key is not larger. */
  lemma {:induction false} InsertAfter<T>(x: T, t: seq<T>, d: int, key: T -> int)
    requires 0 <= d <= |t|
    requires forall m :: 0 <= m < d ==> key(t[m]) > key(x)
    requires d == |t| || key(t[d]) <= key(x)
    ensures Insert(x, t, key) == t[..d] + [x] + t[d..]
  {
    if d > 0 {
      InsertAfter(x, t[1..], d - 1, key);
      assert t[..d] == [t[0]] + t[1..][..d - 1];
      assert t[d..] == t[1..][d - 1..];
    }
  }

  /** The array after an insertion step, read as a sequence: the part before `i` as it
      was, then `t` with `x` put at position `j - i`. */
  lemma Assembled<T>(s: seq<T>, s0: seq<T>, i: int, j: int, t: seq<T>, x: T)
    requires 0 <= i <= j < |s| == |s0| && |t| == |s| - i - 1
    requires forall k :: 0 <= k < i ==> s[k] == s0[k]
    requires forall k :: i <= k < j ==> s[k] == t[k - i]
    requires s[j] == x
    requires forall k :: j < k < |s| ==> s[k] == t[k - i - 1]
    ensures s[..i] == s0[..i]
    ensures s[i..] == t[..j - i] + [x] + t[j - i..]
  {
    var r := t[..j - i] + [x] + t[j - i..];
    assert forall m :: 0 <= m < |r| ==> s[i..][m] == r[m];
  }

  /** One insertion step of the in-place sort: `a[i]` moves right past every element of
      the sorted `a[i+1..]` with a larger key, which shift one place left. */
  method InsertAt<T>(a: array<T>, i: int, key: T -> int)
    requires 0 <= i < a.Length
    modifies a
    ensures a[..i] == old(a[..i])
    ensures a[i..] == Insert(old(a[i]), old(a[i + 1..]), key)
  {
    var x := a[i];
    ghost var t := a[i + 1..];
    var j := i;
    while j + 1 < a.Length && key(a[j + 1]) > key(x)
      invariant i <= j < a.Length && |t| == a.Length - i - 1
      invariant forall k :: 0 <= k < i ==> a[k] == old(a[k])
      invariant forall k :: i <= k < j ==> a[k] == t[k - i]
      invariant forall k :: j < k < a.Length ==> a[k] == t[k - i - 1]
      invariant forall m :: 0 <= m < j - i ==> key(t[m]) > key(x)
    {
      a[j] := a[j + 1];
      j := j + 1;
    }
    InsertAfter(x, t, j - i, key);
    a[j] := x;
    Assembled(a[..], old(a[..]), i, j, t, x);
  }

  /** `a.sort(...)` in place: afterwards the array holds the stable, largest-key-first
      ordering of what it held before. */
  method SortInPlace<T>(a: array<T>, key: T -> int)
    modifies a
    ensures a[..] == SortDesc(old(a[..]), key)
  {
    var i := a.Length;
    while i > 0
      invariant 0 <= i <= a.Length
      invariant a[..i] == old(a[..i])
      invariant a[i..] == SortDesc(old(a[..])[i..], key)
    {
      i := i - 1;
      ghost var before := a[..];
      InsertAt(a, i, key);
      assert old(a[..])[i..][1..] == old(a[..])[i + 1..];
      assert before[i + 1..] == SortDesc(old(a[..])[i + 1..], key);
    }
    assert a[0..] == a[..];
  }
}
