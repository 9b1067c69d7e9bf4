/** Option and Result values, and a few facts about finite sets of integers. */
module Common {

  datatype Option<+T> = None | Some(value: T)

  datatype Result<+T, +E> = Success(value: T) | Failure(error: E)

  function Max(a: int, b: int): int {
    if a < b then b else a
  }

  /** A set of integers that fits in an interval of n integers has at most n elements. */
  lemma {:induction false} IntervalBound(s: set<int>, lo: int, n: nat)
    requires forall x | x in s :: lo <= x < lo + n
    ensures |s| <= n
    decreases n
  {
    if n == 0 {
      if s != {} {
        var x := Member(s);
      }
    } else {
      var rest := s - {lo + n - 1};
      IntervalBound(rest, lo, n - 1);
      assert s <= rest + {lo + n - 1};
      SubsetSize(s, rest + {lo + n - 1});
    }
  }

  lemma Member<T>(s: set<T>) returns (x: T)
    requires s != {}
    ensures x in s
  {
    x :| x in s;
  }

  lemma {:induction false} SubsetSize<T>(a: set<T>, b: set<T>)
    requires a <= b
    ensures |a| <= |b|
    decreases |a|
  {
    if a != {} {
      var x :| x in a;
      SubsetSize(a - {x}, b - {x});
    }
  }

  lemma Regroup<E>(a: seq<E>, b: seq<E>)
    requires b != []
    ensures a + b == (a + b[..|b| - 1]) + [b[|b| - 1]]
  {
  }

  lemma {:induction false} Least(s: set<int>) returns (lo: int)
    requires s != {}
    ensures lo in s && forall x | x in s :: lo <= x
    decreases |s|
  {
    var x := Member(s);
    if s == {x} {
      lo := x;
    } else {
      var m := Least(s - {x});
      lo := if m < x then m else x;
      assert forall y | y in s :: y == x || y in s - {x};
    }
  }

  /** Multiples of n are n apart. */
  lemma MulGap(a: int, b: int, d: nat)
    requires a < b
    ensures b * d >= a * d + d
  {
    assert b * d == a * d + d + (b - a - 1) * d;
    assert (b - a - 1) * d >= 0;
  }
}
