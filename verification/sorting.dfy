/** Ascending sort of RTT samples (Python's `sorted`) and the uniqueness of a sorted arrangement. */
module Sorting {

  predicate Sorted(s: seq<real>)
  {
    forall i, j :: 0 <= i < j < |s| ==> s[i] <= s[j]
  }

  /** Places `x` into the sorted sequence `s`. */
  function Insert(x: real, s: seq<real>): (r: seq<real>)
    requires Sorted(s)
    ensures Sorted(r) && |r| == |s| + 1
    ensures multiset(r) == multiset(s) + multiset{x}
  {
    if |s| == 0 then [x]
    else if x <= s[0] then [x] + s
    else
      SortedTail(s);
      var tail := Insert(x, s[1..]);
      assert s == [s[0]] + s[1..];
      BelowAll(s[0], x, s[1..], tail);
      ConsSorted(s[0], tail);
      [s[0]] + tail
  }

  lemma SortedTail(s: seq<real>)
    requires Sorted(s) && |s| > 0
    ensures Sorted(s[1..])
  {
    forall i, j | 0 <= i < j < |s[1..]|
      ensures s[1..][i] <= s[1..][j]
    {
      assert s[1..][i] == s[i + 1] && s[1..][j] == s[j + 1];
    }
  }

  lemma ConsSorted(h: real, t: seq<real>)
    requires Sorted(t) && forall k :: 0 <= k < |t| ==> h <= t[k]
    ensures Sorted([h] + t)
  {
    var r := [h] + t;
    forall i, j | 0 <= i < j < |r|
      ensures r[i] <= r[j]
    {
      assert r[j] == t[j - 1];
      if i > 0 {
        assert r[i] == t[i - 1];
      }
    }
  }

  /** A lower bound of `s` and `x` is a lower bound of anything holding `s` and `x`. */
  lemma BelowAll(h: real, x: real, s: seq<real>, r: seq<real>)
    requires h <= x && forall k :: 0 <= k < |s| ==> h <= s[k]
    requires multiset(r) == multiset(s) + multiset{x}
    ensures forall k :: 0 <= k < |r| ==> h <= r[k]
  {
    forall k | 0 <= k < |r|
      ensures h <= r[k]
    {
      assert r[k] in multiset(r);
      if r[k] != x {
        assert r[k] in multiset(s);
      }
    }
  }

  /** Python's `sorted(samples)` on real values: an ascending permutation of the input. */
  function Sort(s: seq<real>): (r: seq<real>)
    ensures Sorted(r) && |r| == |s|
    ensures multiset(r) == multiset(s)
  {
    if |s| == 0 then []
    else
      assert s == [s[0]] + s[1..];
      Insert(s[0], Sort(s[1..]))
  }

  /** The first element of a non-empty sorted sequence is below every element. */
  lemma SortedHeadIsLeast(s: seq<real>, y: real)
    requires Sorted(s) && |s| > 0
    requires y in multiset(s)
    ensures s[0] <= y
  {
    var k :| 0 <= k < |s| && s[k] == y;
  }

  /** Two sorted arrangements of the same samples are the same sequence. */
  lemma {:induction false} SortedUnique(a: seq<real>, b: seq<real>)
    requires Sorted(a) && Sorted(b)
    requires multiset(a) == multiset(b)
    ensures a == b
    decreases |a|
  {
    assert |a| == |multiset(a)| == |multiset(b)| == |b|;
    if |a| > 0 {
      assert a[0] in multiset(b) && b[0] in multiset(a);
      SortedHeadIsLeast(b, a[0]);
      SortedHeadIsLeast(a, b[0]);
      assert a[0] == b[0];
      var a', b' := a[1..], b[1..];
      assert a == [a[0]] + a';
      assert b == [b[0]] + b';
      assert multiset(a) == multiset{a[0]} + multiset(a');
      assert multiset(b) == multiset{b[0]} + multiset(b');
      assert multiset(a') == multiset(a) - multiset{a[0]};
      assert multiset(b') == multiset(b) - multiset{b[0]};
      assert Sorted(a') by {
        forall i, j | 0 <= i < j < |a'| ensures a'[i] <= a'[j] {
          assert a'[i] == a[i + 1] && a'[j] == a[j + 1];
        }
      }
      assert Sorted(b') by {
        forall i, j | 0 <= i < j < |b'| ensures b'[i] <= b'[j] {
          assert b'[i] == b[i + 1] && b'[j] == b[j + 1];
        }
      }
      SortedUnique(a', b');
    }
  }
}
