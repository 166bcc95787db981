/** Order-preserving filtering of a sequence: a database `filter` on a
    table, and JavaScript's `Array.prototype.filter`. */
module Sequences {

  /** The elements of `s` that `keep` accepts, in their order in `s`. */
  function Where<T(!new)>(s: seq<T>, keep: T -> bool): (r: seq<T>)
    ensures forall x :: x in r <==> x in s && keep(x)
    ensures |r| <= |s|
  {
    if s == [] then []
    else if keep(s[0]) then [s[0]] + Where(s[1..], keep)
    else Where(s[1..], keep)
  }

  /** Filtering keeps every pairwise property of the rows that are left, such
      as unique ids and one completion per day. */
  lemma {:induction false} WhereKeepsPairwise<T(!new)>(s: seq<T>, keep: T -> bool, p: (T, T) -> bool)
    requires forall i, j :: 0 <= i < j < |s| ==> p(s[i], s[j])
    ensures forall i, j :: 0 <= i < j < |Where(s, keep)| ==> p(Where(s, keep)[i], Where(s, keep)[j])
    decreases |s|
  {
    if s != [] {
      var tail := Where(s[1..], keep);
      forall i, j | 0 <= i < j < |s| - 1
        ensures p(s[1..][i], s[1..][j])
      {
        assert s[1..][i] == s[i + 1] && s[1..][j] == s[j + 1];
      }
      WhereKeepsPairwise(s[1..], keep, p);
      if keep(s[0]) {
        var r := [s[0]] + tail;
        forall i, j | 0 <= i < j < |r|
          ensures p(r[i], r[j])
        {
          if i == 0 {
            assert r[j] == tail[j - 1] && tail[j - 1] in s[1..];
            var k :| 0 <= k < |s[1..]| && s[1..][k] == r[j];
            assert s[k + 1] == r[j];
          } else {
            assert r[i] == tail[i - 1] && r[j] == tail[j - 1];
          }
        }
      }
    }
  }

  /** Filtering keeps the input order: it distributes over concatenation,
      and a one-element sequence is kept exactly when it is accepted. */
  lemma {:induction false} WhereConcat<T(!new)>(a: seq<T>, b: seq<T>, keep: T -> bool)
    ensures Where(a + b, keep) == Where(a, keep) + Where(b, keep)
    decreases |a|
  {
    if a == [] {
      assert a + b == b;
    } else {
      assert (a + b)[0] == a[0] && (a + b)[1..] == a[1..] + b;
      WhereConcat(a[1..], b, keep);
      if keep(a[0]) {
        assert [a[0]] + (Where(a[1..], keep) + Where(b, keep))
            == ([a[0]] + Where(a[1..], keep)) + Where(b, keep);
      }
    }
  }

  lemma WhereSingle<T(!new)>(x: T, keep: T -> bool)
    ensures Where([x], keep) == if keep(x) then [x] else []
  {
    assert [x][1..] == [];
  }

  /** Two tests that agree on every element keep the same elements. */
  lemma {:induction false} WhereAgrees<T(!new)>(s: seq<T>, p: T -> bool, q: T -> bool)
    requires forall i :: 0 <= i < |s| ==> p(s[i]) == q(s[i])
    ensures Where(s, p) == Where(s, q)
    decreases |s|
  {
    if s != [] {
      assert p(s[0]) == q(s[0]);
      WhereAgrees(s[1..], p, q);
    }
  }
}
