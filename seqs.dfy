/** Sequence operations behind `Array.prototype.filter` and `new Set(...)`,
    and the order and duplicate-freedom facts the client's lists rely on. */
module Seqs {

  /** `s.filter(p)`: the elements satisfying `p`, each kept as often as it occurs, in order. */
  function Filter<T>(s: seq<T>, p: T -> bool): (r: seq<T>)
    ensures |r| <= |s|
  {
    if s == [] then []
    else if p(s[0]) then [s[0]] + Filter(s[1..], p) else Filter(s[1..], p)
  }

  /** The filter keeps exactly the elements of `s` satisfying `p`. */
  lemma {:induction false} FilterMembers<T(!new)>(s: seq<T>, p: T -> bool)
    ensures forall x :: x in Filter(s, p) <==> x in s && p(x)
    decreases |s|
  {
    if s != [] {
      FilterMembers(s[1..], p);
      assert forall x :: x in s <==> x == s[0] || x in s[1..];
    }
  }

  /** The filter keeps each element satisfying `p` as often as it occurs,
      and no other. */
  lemma {:induction false} FilterCounts<T(!new)>(s: seq<T>, p: T -> bool)
    ensures forall x :: multiset(Filter(s, p))[x] == if p(x) then multiset(s)[x] else 0
    decreases |s|
  {
    if s != [] {
      FilterCounts(s[1..], p);
      assert s == [s[0]] + s[1..];
    }
  }

  /** `a` can be obtained from `b` by deleting elements, without reordering. */
  predicate IsSubsequence<T(==)>(a: seq<T>, b: seq<T>)
    decreases |b|
  {
    a == [] ||
    (b != [] && ((a[0] == b[0] && IsSubsequence(a[1..], b[1..])) || IsSubsequence(a, b[1..])))
  }

  lemma {:induction false} SubsequenceMembers<T>(a: seq<T>, b: seq<T>)
    requires IsSubsequence(a, b)
    ensures |a| <= |b|
    ensures forall x :: x in a ==> x in b
    decreases |b|
  {
    if a != [] {
      if a[0] == b[0] && IsSubsequence(a[1..], b[1..]) {
        SubsequenceMembers(a[1..], b[1..]);
        assert a == [a[0]] + a[1..];
      } else {
        SubsequenceMembers(a, b[1..]);
      }
    }
  }

  lemma {:induction false} SubsequenceReflexive<T>(a: seq<T>)
    ensures IsSubsequence(a, a)
    decreases |a|
  {
    if a != [] {
      SubsequenceReflexive(a[1..]);
    }
  }

  /** Filtering only deletes: the result is a subsequence of the input. */
  lemma {:induction false} FilterIsSubsequence<T(!new)>(s: seq<T>, p: T -> bool)
    ensures IsSubsequence(Filter(s, p), s)
    decreases |s|
  {
    if s != [] {
      FilterIsSubsequence(s[1..], p);
    }
  }

  /** A weaker predicate keeps more: filtering by `p` gives a subsequence of
      filtering by `q` when `p` implies `q` on the elements of `s`. */
  lemma {:induction false} FilterMonotone<T(!new)>(s: seq<T>, p: T -> bool, q: T -> bool)
    requires forall x :: x in s && p(x) ==> q(x)
    ensures IsSubsequence(Filter(s, p), Filter(s, q))
    decreases |s|
  {
    if s != [] {
      FilterMonotone(s[1..], p, q);
      if !p(s[0]) && q(s[0]) {
        var fq := Filter(s, q);
        assert fq[1..] == Filter(s[1..], q);
        if Filter(s, p) != [] {
          assert IsSubsequence(Filter(s, p), fq[1..]);
        }
      }
    }
  }

  /** Filtering twice by the same predicate is filtering once. */
  lemma {:induction false} FilterIdempotent<T(!new)>(s: seq<T>, p: T -> bool)
    ensures Filter(Filter(s, p), p) == Filter(s, p)
    decreases |s|
  {
    if s != [] {
      FilterIdempotent(s[1..], p);
      if p(s[0]) {
        assert Filter(s, p)[1..] == Filter(s[1..], p);
      }
    }
  }

  /** A predicate true of every element filters nothing out. */
  lemma {:induction false} FilterKeepsAll<T(!new)>(s: seq<T>, p: T -> bool)
    requires forall x :: x in s ==> p(x)
    ensures Filter(s, p) == s
    decreases |s|
  {
    if s != [] {
      FilterKeepsAll(s[1..], p);
      assert s == [s[0]] + s[1..];
    }
  }

  /** Filtering a concatenation filters each part. */
  lemma {:induction false} FilterAppend<T>(a: seq<T>, b: seq<T>, p: T -> bool)
    ensures Filter(a + b, p) == Filter(a, p) + Filter(b, p)
    decreases |a|
  {
    if a != [] {
      assert (a + b)[0] == a[0];
      assert (a + b)[1..] == a[1..] + b;
      FilterAppend(a[1..], b, p);
      if p(a[0]) {
        assert [a[0]] + (Filter(a[1..], p) + Filter(b, p)) == ([a[0]] + Filter(a[1..], p)) + Filter(b, p);
      }
    } else {
      assert a + b == b;
    }
  }

  /** A predicate false of `x` and true of everything around it filters out
      just `x`. */
  lemma FilterDropsMiddle<T(!new)>(front: seq<T>, x: T, back: seq<T>, p: T -> bool)
    requires !p(x)
    requires forall y :: y in front ==> p(y)
    requires forall y :: y in back ==> p(y)
    ensures Filter(front + [x] + back, p) == front + back
  {
    FilterKeepsAll(front, p);
    FilterKeepsAll(back, p);
    FilterAppend(front + [x], back, p);
    FilterAppend(front, [x], p);
    assert Filter([x], p) == [];
  }

  /** Predicates that agree on the elements of `s` filter it alike. */
  lemma {:induction false} FilterAgreeing<T(!new)>(s: seq<T>, p: T -> bool, q: T -> bool)
    requires forall x :: x in s ==> p(x) == q(x)
    ensures Filter(s, p) == Filter(s, q)
    decreases |s|
  {
    if s != [] {
      FilterAgreeing(s[1..], p, q);
    }
  }

  /** No element occurs twice. */
  predicate NoDup<T(==)>(s: seq<T>) {
    forall i, j :: 0 <= i < j < |s| ==> s[i] != s[j]
  }

  /** A subsequence of a duplicate-free sequence is duplicate-free. */
  lemma {:induction false} SubsequenceNoDup<T>(a: seq<T>, b: seq<T>)
    requires IsSubsequence(a, b) && NoDup(b)
    ensures NoDup(a)
    decreases |b|
  {
    if a != [] {
      assert NoDup(b[1..]);
      if a[0] == b[0] && IsSubsequence(a[1..], b[1..]) {
        SubsequenceNoDup(a[1..], b[1..]);
        SubsequenceMembers(a[1..], b[1..]);
        assert b[0] !in b[1..];
        forall j | 0 < j < |a|
          ensures a[0] != a[j]
        {
          assert a[j] == a[1..][j - 1];
        }
      } else {
        SubsequenceNoDup(a, b[1..]);
      }
    }
  }

  /** The index of the first occurrence of `x` in `s`. */
  function IndexOf<T(==)>(s: seq<T>, x: T): (i: nat)
    requires x in s
    ensures i < |s| && s[i] == x && x !in s[..i]
  {
    if s[0] == x then 0
    else
      var j := IndexOf(s[1..], x);
      assert s[..j + 1] == [s[0]] + s[1..][..j];
      1 + j
  }

  /** Appending leaves the first occurrences of the earlier elements where
      they were, and puts a new element's first occurrence at the end. */
  lemma IndexOfExtend<T>(p: seq<T>, y: T)
    ensures forall x :: x in p ==> IndexOf(p + [y], x) == IndexOf(p, x)
    ensures y !in p ==> IndexOf(p + [y], y) == |p|
  {
    var s := p + [y];
    forall x | x in p
      ensures IndexOf(s, x) == IndexOf(p, x)
    {
      var i, j := IndexOf(s, x), IndexOf(p, x);
      forall k | 0 <= k < i
        ensures s[k] != x
      {
        assert s[..i][k] == s[k];
      }
      forall k | 0 <= k < j
        ensures p[k] != x
      {
        assert p[..j][k] == p[k];
      }
      assert s[j] == x;
    }
    if y !in p {
      assert forall k :: 0 <= k < |p| ==> s[k] == p[k];
    }
  }

  /** `[...new Set(s)]`: each distinct element once, in the order of its
      first occurrence. */
  function Distinct<T(==,!new)>(s: seq<T>): (r: seq<T>)
    ensures NoDup(r)
    ensures forall x :: x in r <==> x in s
    ensures IsSubsequence(r, s)
    ensures forall i, j :: 0 <= i < j < |r| ==> IndexOf(s, r[i]) < IndexOf(s, r[j])
    decreases |s|
  {
    if s == [] then []
    else
      var p := s[..|s| - 1];
      var rest := Distinct(p);
      var last := s[|s| - 1];
      assert s == p + [last];
      SubsequenceAppend(rest, p, last);
      IndexOfExtend(p, last);
      if last in rest then rest else rest + [last]
  }

  /** Appending to the longer sequence keeps a subsequence, and appending to
      both keeps it too. */
  lemma {:induction false} SubsequenceAppend<T>(a: seq<T>, b: seq<T>, x: T)
    requires IsSubsequence(a, b)
    ensures IsSubsequence(a, b + [x])
    ensures IsSubsequence(a + [x], b + [x])
    decreases |b|
  {
    if a == [] {
      SubsequenceDropFront([x], b);
      assert a + [x] == [x];
    } else {
      assert (b + [x])[1..] == b[1..] + [x];
      assert (a + [x])[1..] == a[1..] + [x];
      if a[0] == b[0] && IsSubsequence(a[1..], b[1..]) {
        SubsequenceAppend(a[1..], b[1..], x);
      } else {
        SubsequenceAppend(a, b[1..], x);
      }
    }
  }

  lemma {:induction false} SubsequenceDropFront<T>(a: seq<T>, b: seq<T>)
    ensures IsSubsequence(a, b + a)
    decreases |b|
  {
    if b == [] {
      SubsequenceReflexive(a);
      assert b + a == a;
    } else {
      SubsequenceDropFront(a, b[1..]);
      assert (b + a)[1..] == b[1..] + a;
    }
  }

  /** No element occurs twice exactly when every element is counted at most once. */
  lemma {:induction false} NoDupIffCounts<T>(s: seq<T>)
    ensures NoDup(s) <==> forall x :: multiset(s)[x] <= 1
    decreases |s|
  {
    if NoDup(s) {
      if s != [] {
        assert NoDup(s[1..]);
        NoDupIffCounts(s[1..]);
        assert s == [s[0]] + s[1..];
        assert s[0] !in s[1..];
      }
    } else {
      var i, j :| 0 <= i < j < |s| && s[i] == s[j];
      assert s == s[..j] + s[j..];
      assert s[i] in s[..j];
      assert s[j] in s[j..];
      assert multiset(s)[s[i]] == multiset(s[..j])[s[i]] + multiset(s[j..])[s[i]];
    }
  }
}
