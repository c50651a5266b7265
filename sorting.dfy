/** The order the default `Array.prototype.sort` puts strings in, and a sort by it. */
module Sorting {

  /** `a` sorts no later than `b`: compared character by character, and a
      proper prefix before the longer string. */
  predicate LessEq(a: string, b: string)
    decreases |a|
  {
    a == [] || (b != [] && (a[0] < b[0] || (a[0] == b[0] && LessEq(a[1..], b[1..]))))
  }

  /** `k` is the first position where `a` and `b` differ, and `a` has the smaller character there. */
  predicate FirstDifferenceBelow(a: string, b: string, k: int) {
    0 <= k < |a| && k < |b| && a[..k] == b[..k] && a[k] < b[k]
  }

  /** `LessEq` is the lexicographic order: `a` is a prefix of `b`, or at the
      first position where they differ `a` has the smaller character. */
  lemma {:induction false} LessEqIff(a: string, b: string)
    ensures LessEq(a, b) <==>
      (|a| <= |b| && a == b[..|a|]) || exists k :: FirstDifferenceBelow(a, b, k)
    decreases |a|
  {
    if a != [] && b != [] {
      LessEqIff(a[1..], b[1..]);
      if |a| <= |b| && a == b[..|a|] {
        assert a[1..] == b[1..][..|a| - 1];
      }
      if exists k :: FirstDifferenceBelow(a, b, k) {
        var k :| FirstDifferenceBelow(a, b, k);
        if k > 0 {
          assert a[0] == a[..k][0] && b[0] == b[..k][0];
          assert a[1..][..k - 1] == a[..k][1..] && b[1..][..k - 1] == b[..k][1..];
          assert FirstDifferenceBelow(a[1..], b[1..], k - 1);
        }
      }
      if LessEq(a, b) {
        if a[0] < b[0] {
          assert FirstDifferenceBelow(a, b, 0);
        } else if exists k :: FirstDifferenceBelow(a[1..], b[1..], k) {
          var k :| FirstDifferenceBelow(a[1..], b[1..], k);
          assert a[..k + 1] == [a[0]] + a[1..][..k];
          assert b[..k + 1] == [b[0]] + b[1..][..k];
          assert FirstDifferenceBelow(a, b, k + 1);
        } else {
          assert a == [a[0]] + a[1..];
          assert b[..|a|] == [b[0]] + b[1..][..|a| - 1];
        }
      }
    }
  }

  lemma {:induction false} LessEqReflexive(a: string)
    ensures LessEq(a, a)
    decreases |a|
  {
    if a != [] {
      LessEqReflexive(a[1..]);
    }
  }

  lemma {:induction false} LessEqAntisymmetric(a: string, b: string)
    requires LessEq(a, b) && LessEq(b, a)
    ensures a == b
    decreases |a|
  {
    if a != [] && b != [] {
      assert a[0] == b[0];
      LessEqAntisymmetric(a[1..], b[1..]);
      assert a == [a[0]] + a[1..];
      assert b == [b[0]] + b[1..];
    }
  }

  lemma {:induction false} LessEqTransitive(a: string, b: string, c: string)
    requires LessEq(a, b) && LessEq(b, c)
    ensures LessEq(a, c)
    decreases |a|
  {
    if a != [] && a[0] == b[0] && b[0] == c[0] {
      LessEqTransitive(a[1..], b[1..], c[1..]);
    }
  }

  lemma {:induction false} LessEqTotal(a: string, b: string)
    ensures LessEq(a, b) || LessEq(b, a)
    decreases |a|
  {
    if a != [] && b != [] && a[0] == b[0] {
      LessEqTotal(a[1..], b[1..]);
    }
  }

  predicate Sorted(s: seq<string>) {
    forall i, j :: 0 <= i < j < |s| ==> LessEq(s[i], s[j])
  }

  /** Sorted and without repetitions: every element strictly before the next. */
  predicate StrictlySorted(s: seq<string>) {
    forall i, j :: 0 <= i < j < |s| ==> LessEq(s[i], s[j]) && s[i] != s[j]
  }

  lemma PrependSorted(x: string, s: seq<string>)
    requires Sorted(s)
    requires forall y :: y in s ==> LessEq(x, y)
    ensures Sorted([x] + s)
  {
    forall i, j | 0 <= i < j < |[x] + s|
      ensures LessEq(([x] + s)[i], ([x] + s)[j])
    {
      if i == 0 {
        assert ([x] + s)[j] == s[j - 1];
      }
    }
  }

  lemma LeastOfSorted(x: string, s: seq<string>)
    requires Sorted(s) && s != [] && LessEq(x, s[0])
    ensures forall y :: y in s ==> LessEq(x, y)
  {
    forall y | y in s
      ensures LessEq(x, y)
    {
      var j :| 0 <= j < |s| && s[j] == y;
      if j > 0 {
        LessEqTransitive(x, s[0], y);
      }
    }
  }

  /** Inserts `x` before the first element it sorts no later than. */
  function Insert(x: string, s: seq<string>): (r: seq<string>)
    requires Sorted(s)
    ensures Sorted(r)
    ensures multiset(r) == multiset(s) + multiset{x}
    decreases |s|
  {
    if s == [] then [x]
    else if LessEq(x, s[0]) then
      LeastOfSorted(x, s);
      PrependSorted(x, s);
      [x] + s
    else
      LessEqTotal(x, s[0]);
      var t := Insert(x, s[1..]);
      assert s == [s[0]] + s[1..];
      assert forall y :: y in t ==> y in multiset(s[1..]) + multiset{x};
      assert forall y :: y in s[1..] ==> LessEq(s[0], y);
      PrependSorted(s[0], t);
      [s[0]] + t
  }

  /** `s.sort()`: the same elements, as often, in ascending order. */
  function Sort(s: seq<string>): (r: seq<string>)
    ensures Sorted(r)
    ensures multiset(r) == multiset(s)
    decreases |s|
  {
    if s == [] then []
    else
      assert s == [s[0]] + s[1..];
      Insert(s[0], Sort(s[1..]))
  }

  /** A sorted sequence without duplicates is strictly sorted. */
  lemma SortedNoRepeatsIsStrict(s: seq<string>)
    requires Sorted(s)
    requires forall i, j :: 0 <= i < j < |s| ==> s[i] != s[j]
    ensures StrictlySorted(s)
  {
  }

  /** There is only one strictly sorted arrangement of a set of strings. */
  lemma {:induction false} StrictlySortedUnique(a: seq<string>, b: seq<string>)
    requires StrictlySorted(a) && StrictlySorted(b)
    requires forall x :: x in a <==> x in b
    ensures a == b
    decreases |a|
  {
    assert a != [] ==> a[0] in b;
    assert b != [] ==> b[0] in a;
    if a != [] && b != [] {
      var i :| 0 <= i < |a| && a[i] == b[0];
      var j :| 0 <= j < |b| && b[j] == a[0];
      if i > 0 {
        assert LessEq(a[0], b[0]);
      } else {
        LessEqReflexive(a[0]);
      }
      if j > 0 {
        assert LessEq(b[0], a[0]);
      } else {
        LessEqReflexive(b[0]);
      }
      LessEqAntisymmetric(a[0], b[0]);
      forall x
        ensures x in a[1..] <==> x in b[1..]
      {
        if x in a[1..] {
          var k :| 0 <= k < |a| - 1 && a[1..][k] == x;
          assert a[k + 1] == x && x != a[0] && x in b;
          var m :| 0 <= m < |b| && b[m] == x;
          assert m != 0 && b[1..][m - 1] == x;
        }
        if x in b[1..] {
          var k :| 0 <= k < |b| - 1 && b[1..][k] == x;
          assert b[k + 1] == x && x != b[0] && x in a;
          var m :| 0 <= m < |a| && a[m] == x;
          assert m != 0 && a[1..][m - 1] == x;
        }
      }
      StrictlySortedUnique(a[1..], b[1..]);
      assert a == [a[0]] + a[1..];
      assert b == [b[0]] + b[1..];
    }
  }
}
