/**
 * Python's `sorted(s)` of a set: the elements of `s`, each once, in
 * ascending order. Ascending is given by a strict total order `lt`
 * (`<` on the element type).
 */
module Sorting {
  import Strings

  ghost predicate StrictTotalOrder<T(!new)>(lt: (T, T) -> bool)
  {
    && (forall a :: !lt(a, a))
    && (forall a, b, c :: lt(a, b) && lt(b, c) ==> lt(a, c))
    && (forall a, b :: a != b ==> lt(a, b) || lt(b, a))
  }

  /** Every element is below every later one (so there are no repeats). */
  predicate Increasing<T>(s: seq<T>, lt: (T, T) -> bool)
  {
    forall i, j :: 0 <= i < j < |s| ==> lt(s[i], s[j])
  }

  /** `m` is the least element of `s`. */
  predicate IsLeast<T>(m: T, s: set<T>, lt: (T, T) -> bool)
  {
    m in s && forall x :: x in s && x != m ==> lt(m, x)
  }

  /** A non-empty finite set has a least element. */
  lemma MinExists<T(!new)>(s: set<T>, lt: (T, T) -> bool)
    requires StrictTotalOrder(lt) && s != {}
    ensures exists m :: IsLeast(m, s, lt)
    decreases s
  {
    var y :| y in s;
    var rest := s - {y};
    if rest == {} {
      assert forall x :: x in s ==> x in rest || x == y;
      assert IsLeast(y, s, lt);
    } else {
      MinExists(rest, lt);
      var m :| IsLeast(m, rest, lt);
      if lt(y, m) {
        forall x | x in s && x != y
          ensures lt(y, x)
        {
          if x != m {
            assert lt(m, x);
          }
        }
        assert IsLeast(y, s, lt);
      } else {
        assert lt(m, y);
        assert IsLeast(m, s, lt);
      }
    }
  }

  /** `sorted(s)`: the elements of `s`, each exactly once, in increasing order. */
  function Sorted<T(!new)>(s: set<T>, lt: (T, T) -> bool): (r: seq<T>)
    requires StrictTotalOrder(lt)
    ensures Increasing(r, lt)
    ensures |r| == |s|
    ensures forall x :: x in r <==> x in s
    decreases s
  {
    if s == {} then []
    else
      MinExists(s, lt);
      var m :| IsLeast(m, s, lt);
      var rest := Sorted(s - {m}, lt);
      assert forall j :: 0 < j < |[m] + rest| ==> ([m] + rest)[j] == rest[j - 1];
      [m] + rest
  }

  /** Sequences with the same elements are empty together. */
  lemma SameElementsEmpty<T>(a: seq<T>, b: seq<T>)
    requires forall x :: x in a <==> x in b
    ensures a == [] <==> b == []
  {
    if a != [] {
      assert a[0] in b;
    }
    if b != [] {
      assert b[0] in a;
    }
  }

  /** Two increasing sequences with the same elements are equal: `Sorted` is the only answer. */
  lemma {:induction false} IncreasingUnique<T(!new)>(a: seq<T>, b: seq<T>, lt: (T, T) -> bool)
    requires StrictTotalOrder(lt)
    requires Increasing(a, lt) && Increasing(b, lt)
    requires forall x :: x in a <==> x in b
    ensures a == b
    decreases |a|
  {
    SameElementsEmpty(a, b);
    if a != [] {
      var a0, b0 := a[0], b[0];
      assert a0 in b && b0 in a;
      assert a0 == b0 || lt(b0, a0);
      assert a0 == b0 || lt(a0, b0);
      assert a0 == b0;
      forall x
        ensures x in a[1..] <==> x in b[1..]
      {
        if x in a[1..] {
          var i :| 1 <= i < |a| && a[i] == x;
          assert lt(a0, x);
          assert x in b;
          var j :| 0 <= j < |b| && b[j] == x;
          assert j != 0;
          assert b[1..][j - 1] == x;
        }
        if x in b[1..] {
          var j :| 1 <= j < |b| && b[j] == x;
          assert lt(b0, x);
          assert x in a;
          var i :| 0 <= i < |a| && a[i] == x;
          assert i != 0;
          assert a[1..][i - 1] == x;
        }
      }
      IncreasingUnique(a[1..], b[1..], lt);
      assert a == [a0] + a[1..] && b == [b0] + b[1..];
    }
  }

  predicate IntLt(a: int, b: int)
  {
    a < b
  }

  lemma IntLtIsStrictTotalOrder()
    ensures StrictTotalOrder(IntLt)
  {
  }

  lemma StrLtIsStrictTotalOrder()
    ensures StrictTotalOrder(Strings.StrLt)
  {
    forall a
      ensures !Strings.StrLt(a, a)
    {
      Strings.StrLtIrreflexive(a);
    }
    forall a, b, c | Strings.StrLt(a, b) && Strings.StrLt(b, c)
      ensures Strings.StrLt(a, c)
    {
      Strings.StrLtTransitive(a, b, c);
    }
    forall a, b | a != b
      ensures Strings.StrLt(a, b) || Strings.StrLt(b, a)
    {
      Strings.StrLtTotal(a, b);
    }
  }

  /** `sorted()` of a set of strings. */
  function SortedStrings(s: set<string>): (r: seq<string>)
    ensures Increasing(r, Strings.StrLt) && |r| == |s|
    ensures forall x :: x in r <==> x in s
  {
    StrLtIsStrictTotalOrder();
    Sorted(s, Strings.StrLt)
  }

  /** `sorted()` of a set of integers. */
  function SortedInts(s: set<int>): (r: seq<int>)
    ensures Increasing(r, IntLt) && |r| == |s|
    ensures forall x :: x in r <==> x in s
  {
    IntLtIsStrictTotalOrder();
    Sorted(s, IntLt)
  }
}
