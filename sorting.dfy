/** The one sort the system relies on, in three places: JavaScript's
    `Array.prototype.sort` with a "larger key first" comparator (the
    client's streak and its top-habits list) and the database's
    `order_by("-date")` (the server's streak). It is a stable insertion sort
    on an integer key, largest key first. */
module Sorting {

  /** Keys never increase from left to right. */
  ghost predicate NonIncreasing<T>(s: seq<T>, key: T -> int) {
    forall i, j :: 0 <= i < j < |s| ==> key(s[i]) >= key(s[j])
  }

  function Identity(x: int): int { x }

  /** The keys of `s`, in order (`s.map(key)`). */
  function Keys<T>(s: seq<T>, key: T -> int): (r: seq<int>)
    ensures |r| == |s|
    ensures forall i :: 0 <= i < |s| ==> r[i] == key(s[i])
  {
    if s == [] then [] else [key(s[0])] + Keys(s[1..], key)
  }

  /** Puts `x` in front of the first element whose key is not larger than
      its own, so that among equal keys `x` comes first. */
  function Insert<T>(x: T, s: seq<T>, key: T -> int): (r: seq<T>)
    requires NonIncreasing(s, key)
    ensures NonIncreasing(r, key)
    ensures multiset(r) == multiset(s) + multiset{x}
    ensures |r| == |s| + 1
  {
    if s == [] || key(x) >= key(s[0]) then [x] + s
    else
      var rest := Insert(x, s[1..], key);
      InsertedBelowHead(x, s, rest, key);
      [s[0]] + rest
  }

  /** When `x` goes below the head of `s`, the head is at least every key
      of the rest with `x` inserted. */
  lemma InsertedBelowHead<T>(x: T, s: seq<T>, rest: seq<T>, key: T -> int)
    requires s != [] && NonIncreasing(s, key) && key(x) < key(s[0])
    requires multiset(rest) == multiset(s[1..]) + multiset{x}
    ensures NonIncreasing(s[1..], key)
    ensures multiset([s[0]] + rest) == multiset(s) + multiset{x}
    ensures forall i :: 0 <= i < |rest| ==> key(s[0]) >= key(rest[i])
  {
    assert s == [s[0]] + s[1..];
    forall i | 0 <= i < |rest|
      ensures key(s[0]) >= key(rest[i])
    {
      assert rest[i] in multiset(rest);
      if rest[i] != x {
        assert rest[i] in multiset(s[1..]);
        var m :| 1 <= m < |s| && s[m] == rest[i];
      }
    }
  }

  /** Stable sort, largest key first. */
  function SortByKeyDesc<T>(s: seq<T>, key: T -> int): (r: seq<T>)
    ensures NonIncreasing(r, key)
    ensures multiset(r) == multiset(s)
    ensures |r| == |s|
  {
    if s == [] then []
    else
      assert s == [s[0]] + s[1..];
      Insert(s[0], SortByKeyDesc(s[1..], key), key)
  }

  lemma {:induction false} KeysConcat<T>(a: seq<T>, b: seq<T>, key: T -> int)
    ensures Keys(a + b, key) == Keys(a, key) + Keys(b, key)
  {
    // both sides have the same length and agree at every index
  }

  lemma KeysHead<T>(s: seq<T>, key: T -> int)
    requires s != []
    ensures multiset(Keys(s, key)) == multiset{key(s[0])} + multiset(Keys(s[1..], key))
  {
  }

  /** Inserting adds exactly the inserted element's key to the keys. */
  lemma {:induction false} InsertAddsKey<T>(x: T, s: seq<T>, key: T -> int)
    requires NonIncreasing(s, key)
    ensures multiset(Keys(Insert(x, s, key), key)) == multiset(Keys(s, key)) + multiset{key(x)}
    decreases |s|
  {
    if s == [] || key(x) >= key(s[0]) {
      InsertInFront(x, s, key);
    } else {
      TailNonIncreasing(s, key);
      InsertAddsKey(x, s[1..], key);
      InsertBelowHead(x, s, key);
    }
  }

  lemma InsertInFront<T>(x: T, s: seq<T>, key: T -> int)
    requires NonIncreasing(s, key)
    requires s == [] || key(x) >= key(s[0])
    ensures multiset(Keys(Insert(x, s, key), key)) == multiset(Keys(s, key)) + multiset{key(x)}
  {
    var r := Insert(x, s, key);
    assert r == [x] + s;
    assert r[1..] == s;
    KeysHead(r, key);
  }

  lemma InsertBelowHead<T>(x: T, s: seq<T>, key: T -> int)
    requires s != [] && key(x) < key(s[0])
    requires NonIncreasing(s, key) && NonIncreasing(s[1..], key)
    requires multiset(Keys(Insert(x, s[1..], key), key)) == multiset(Keys(s[1..], key)) + multiset{key(x)}
    ensures multiset(Keys(Insert(x, s, key), key)) == multiset(Keys(s, key)) + multiset{key(x)}
  {
    var r := Insert(x, s, key);
    var rest := Insert(x, s[1..], key);
    assert r == [s[0]] + rest;
    assert r[1..] == rest;
    KeysHead(r, key);
    KeysHead(s, key);
    Regroup(multiset(Keys(r, key)), multiset(Keys(rest, key)), multiset(Keys(s[1..], key)), multiset(Keys(s, key)), key(s[0]), key(x));
  }

  lemma Regroup(a: multiset<int>, b: multiset<int>, c: multiset<int>, d: multiset<int>, h: int, x: int)
    requires a == multiset{h} + b && b == c + multiset{x} && d == multiset{h} + c
    ensures a == d + multiset{x}
  {
  }

  /** Sorting keeps the keys: the sorted copy has the same multiset of keys. */
  lemma {:induction false} SortKeepsKeys<T>(s: seq<T>, key: T -> int)
    ensures multiset(Keys(SortByKeyDesc(s, key), key)) == multiset(Keys(s, key))
    decreases |s|
  {
    if s != [] {
      var t := SortByKeyDesc(s[1..], key);
      assert SortByKeyDesc(s, key) == Insert(s[0], t, key);
      SortKeepsKeys(s[1..], key);
      InsertAddsKey(s[0], t, key);
      KeysHead(s, key);
    }
  }

  /** The keys of a sequence sorted by key are in non-increasing order. */
  lemma KeysOfSorted<T>(s: seq<T>, key: T -> int)
    requires NonIncreasing(s, key)
    ensures NonIncreasing(Keys(s, key), Identity)
  {
  }

  /** Dropping the head keeps a sequence sorted. */
  lemma TailNonIncreasing<T>(s: seq<T>, key: T -> int)
    requires s != [] && NonIncreasing(s, key)
    ensures NonIncreasing(s[1..], key)
  {
    forall i, j | 0 <= i < j < |s| - 1
      ensures key(s[1..][i]) >= key(s[1..][j])
    {
      assert s[1..][i] == s[i + 1] && s[1..][j] == s[j + 1];
    }
  }

  /** The head of a non-increasing sequence is its largest element. */
  lemma HeadIsLargest(a: seq<int>, v: int)
    requires NonIncreasing(a, Identity)
    requires v in multiset(a)
    ensures a[0] >= v
  {
    var j :| 0 <= j < |a| && a[j] == v;
    if j > 0 {
      assert Identity(a[0]) >= Identity(a[j]);
    }
  }

  /** A multiset of integers has exactly one non-increasing arrangement. */
  lemma {:induction false} SortedIsUnique(a: seq<int>, b: seq<int>)
    requires NonIncreasing(a, Identity) && NonIncreasing(b, Identity)
    requires multiset(a) == multiset(b)
    ensures a == b
    decreases |a|
  {
    if a == [] {
      assert |b| == 0;
    } else {
      assert b != [];
      HeadIsLargest(a, b[0]);
      HeadIsLargest(b, a[0]);
      assert a == [a[0]] + a[1..] && b == [b[0]] + b[1..];
      assert a[0] == b[0];
      assert multiset(a[1..]) == multiset(a) - multiset{a[0]};
      assert multiset(b[1..]) == multiset(b) - multiset{b[0]};
      TailNonIncreasing(a, Identity);
      TailNonIncreasing(b, Identity);
      SortedIsUnique(a[1..], b[1..]);
    }
  }

  /** Sorting by a key and then reading the keys gives the sorted keys, and
      so depends only on which keys occur, not on the input order or on
      anything else in the elements. */
  lemma SortedKeysDependOnlyOnKeys<T>(a: seq<T>, b: seq<T>, key: T -> int)
    requires multiset(Keys(a, key)) == multiset(Keys(b, key))
    ensures Keys(SortByKeyDesc(a, key), key) == Keys(SortByKeyDesc(b, key), key)
  {
    var sa, sb := SortByKeyDesc(a, key), SortByKeyDesc(b, key);
    SortKeepsKeys(a, key);
    SortKeepsKeys(b, key);
    KeysOfSorted(sa, key);
    KeysOfSorted(sb, key);
    SortedIsUnique(Keys(sa, key), Keys(sb, key));
  }

  /** No element of `s` left out of `r` has a larger key than one in `r`. */
  ghost predicate KeptAreLargest<T>(s: seq<T>, r: seq<T>, key: T -> int) {
    forall x, y :: x in s && x !in r && y in r ==> key(x) <= key(y)
  }

  /** The first `m` elements of `sorted`, a sorted permutation of `s`: a
      sub-multiset, still sorted, and no element left out has a larger key
      than one kept. */
  lemma PrefixOfSorted<T>(s: seq<T>, sorted: seq<T>, m: nat, key: T -> int)
    requires NonIncreasing(sorted, key) && multiset(sorted) == multiset(s) && m <= |sorted|
    ensures NonIncreasing(sorted[..m], key)
    ensures multiset(sorted[..m]) <= multiset(s)
    ensures KeptAreLargest(s, sorted[..m], key)
  {
    assert sorted == sorted[..m] + sorted[m..];
    assert multiset(sorted) == multiset(sorted[..m]) + multiset(sorted[m..]);
    forall x, y | x in s && x !in sorted[..m] && y in sorted[..m]
      ensures key(x) <= key(y)
    {
      assert x in multiset(sorted);
      var k :| 0 <= k < |sorted| && sorted[k] == x;
      var i :| 0 <= i < m && sorted[i] == y;
      assert k >= m;
    }
  }
}
