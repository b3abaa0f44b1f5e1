/** Optional values, and small facts about sets, used across the model. */
module Collections {

  datatype Option<T> = None | Some(value: T)

  lemma EmptyOrInhabited(s: set<int>)
    ensures s == {} || exists a :: a in s
  {
    if forall a :: a !in s {
      assert s == {};
    }
  }

  /** A finite set inside another is no larger. */
  lemma {:induction false} SubsetIsNoLarger(a: set<int>, b: set<int>)
    requires a <= b
    ensures |a| <= |b|
  {
    EmptyOrInhabited(a);
    if a != {} {
      var x :| x in a;
      SubsetIsNoLarger(a - {x}, b - {x});
    }
  }

  /** Two subsets of a set that together outnumber it share an element. */
  lemma Overlap(a: set<int>, b: set<int>, u: set<int>) returns (x: int)
    requires a <= u && b <= u && |a| + |b| > |u|
    ensures x in a && x in b
  {
    SubsetIsNoLarger(a + b, u);
    assert |a + b| + |a * b| == |a| + |b|;
    EmptyOrInhabited(a * b);
    x :| x in a * b;
  }

  /** The ids `1` to `n`. */
  function Range(n: nat): (s: set<int>)
    ensures |s| == n && forall i :: i in s <==> 1 <= i <= n
  {
    if n == 0 then {} else Range(n - 1) + {n}
  }

  /** A sequence without repetition is as long as the set of its elements. */
  lemma {:induction false} DistinctCount(xs: seq<int>, s: set<int>)
    requires forall a, b :: 0 <= a < b < |xs| ==> xs[a] != xs[b]
    requires forall x :: x in xs <==> x in s
    ensures |xs| == |s|
    decreases |xs|
  {
    if xs == [] {
      EmptyOrInhabited(s);
    } else {
      var x := xs[0];
      assert xs == [x] + xs[1..];
      assert s == (s - {x}) + {x};
      DistinctCount(xs[1..], s - {x});
    }
  }
}
