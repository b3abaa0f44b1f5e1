/**
 Lagrange interpolation at zero over a prime field: the weights a dealer applies to its share and a
 combiner applies to its partials, the interpolating polynomial, and the theorem that ties them.
 */
module Lagrange {
  import opened PrimeField
  import opened Polynomial

  /** The product of `xs[j] - x` over `j < k` other than `i`. */
  function Differences(xs: seq<int>, i: nat, k: nat, x: int): int
    requires k <= |xs|
  {
    if k == 0 then 1
    else if k - 1 == i then Differences(xs, i, k - 1, x)
    else Differences(xs, i, k - 1, x) * (xs[k - 1] - x)
  }

  /** The Lagrange weight at zero of the `i`-th of the identifiers `xs`. */
  function Weight(p: int, xs: seq<int>, i: nat): (w: int)
    requires p >= 2 && i < |xs|
    ensures 0 <= w < p
  {
    (Differences(xs, i, |xs|, 0) * Inverse(p, Differences(xs, i, |xs|, xs[i]))) % p
  }

  function WeightedSum(p: int, xs: seq<int>, ys: seq<int>, k: nat): int
    requires p >= 2 && k <= |xs| == |ys|
  {
    if k == 0 then 0 else WeightedSum(p, xs, ys, k - 1) + Weight(p, xs, k - 1) * ys[k - 1]
  }

  /** Interpolation of the points `(xs[i], ys[i])` at zero. */
  function AtZero(p: int, xs: seq<int>, ys: seq<int>): (y: int)
    requires p >= 2 && |xs| == |ys|
    ensures 0 <= y < p
  {
    WeightedSum(p, xs, ys, |xs|) % p
  }

  /** The product of the factors `xs[j] - X` over `j < k` other than `i`. */
  function Basis(xs: seq<int>, i: nat, k: nat): (f: Poly)
    requires k <= |xs|
    ensures |f| == if k <= i then k + 1 else k
  {
    if k == 0 then [1]
    else if k - 1 == i then Basis(xs, i, k - 1)
    else TimesFactor(Basis(xs, i, k - 1), xs[k - 1])
  }

  function Coefficient(p: int, xs: seq<int>, y: int, i: nat): int
    requires p >= 2 && i < |xs|
  {
    y * Inverse(p, Differences(xs, i, |xs|, xs[i]))
  }

  function PartialInterpolant(p: int, xs: seq<int>, ys: seq<int>, k: nat): (f: Poly)
    requires p >= 2 && k <= |xs| == |ys|
    ensures |f| == if k == 0 then 0 else |xs|
  {
    if k == 0 then []
    else Plus(PartialInterpolant(p, xs, ys, k - 1),
              Scale(Coefficient(p, xs, ys[k - 1], k - 1), Basis(xs, k - 1, |xs|)))
  }

  /** The polynomial through all the points. */
  function Interpolant(p: int, xs: seq<int>, ys: seq<int>): (f: Poly)
    requires p >= 2 && |xs| == |ys|
    ensures |f| == |xs|
  {
    PartialInterpolant(p, xs, ys, |xs|)
  }

  // ---- Basis polynomials ----

  lemma {:induction false} EvalBasis(xs: seq<int>, i: nat, k: nat, x: int)
    requires k <= |xs|
    ensures Eval(Basis(xs, i, k), x) == Differences(xs, i, k, x)
  {
    if k == 0 {
      EvalConstant(1, x);
    } else {
      EvalBasis(xs, i, k - 1, x);
      if k - 1 != i {
        EvalFactorStep(Basis(xs, i, k - 1), xs[k - 1], x, Differences(xs, i, k - 1, x));
      }
    }
  }

  lemma EvalFactorStep(f: Poly, r: int, x: int, d: int)
    requires Eval(f, x) == d
    ensures Eval(TimesFactor(f, r), x) == d * (r - x)
  {
    EvalTimesFactor(f, r, x);
    assert (r - x) * d == d * (r - x);
  }

  lemma EvalConstant(c: int, x: int)
    ensures Eval([c], x) == c
  {
    assert [c][1..] == [];
    assert x * Eval([], x) == 0;
  }

  lemma {:induction false} DifferencesVanish(xs: seq<int>, i: nat, k: nat, m: nat)
    requires m < k <= |xs| && m != i
    ensures Differences(xs, i, k, xs[m]) == 0
  {
    if m < k - 1 { DifferencesVanish(xs, i, k - 1, m); }
  }

  lemma {:induction false} DifferencesNonZero(p: int, xs: seq<int>, i: nat, k: nat, x: int)
    requires IsPrime(p) && k <= |xs|
    requires forall j :: 0 <= j < k && j != i ==> !Same(p, xs[j], x)
    ensures !Same(p, Differences(xs, i, k, x), 0)
  {
    if k > 0 {
      DifferencesNonZero(p, xs, i, k - 1, x);
      if k - 1 != i {
        SameIffMultiple(p, xs[k - 1], x);
        if Same(p, Differences(xs, i, k, x), 0) {
          NoZeroDivisors(p, Differences(xs, i, k - 1, x), xs[k - 1] - x);
        }
      }
    }
  }

  lemma DenominatorNonZero(p: int, xs: seq<int>, i: nat)
    requires IsPrime(p) && Distinct(p, xs) && i < |xs|
    ensures !Same(p, Differences(xs, i, |xs|, xs[i]), 0)
  {
    forall j | 0 <= j < |xs| && j != i ensures !Same(p, xs[j], xs[i]) {
      if j < i { assert !Same(p, xs[j], xs[i]); } else { assert !Same(p, xs[i], xs[j]); }
    }
    DifferencesNonZero(p, xs, i, |xs|, xs[i]);
  }

  /** No weight of distinct non-zero identifiers is zero: every contribution matters. */
  lemma WeightNonZero(p: int, xs: seq<int>, i: nat)
    requires IsPrime(p) && Distinct(p, xs) && i < |xs|
    requires forall j :: 0 <= j < |xs| ==> !Same(p, xs[j], 0)
    ensures !Same(p, Weight(p, xs, i), 0)
  {
    var num, den := Differences(xs, i, |xs|, 0), Differences(xs, i, |xs|, xs[i]);
    DifferencesNonZero(p, xs, i, |xs|, 0);
    DenominatorNonZero(p, xs, i);
    var inv := Inverse(p, den);
    ReducedIsSame(p, num * inv);
    if Same(p, num * inv, 0) {
      NoZeroDivisors(p, num, inv);
      SameMulRight(p, inv, 0, den);
    }
  }

  // ---- The interpolating polynomial ----

  /** The interpolant's terms below `k` reproduce exactly the points below `k`. */
  lemma {:induction false} PartialAtPoint(p: int, xs: seq<int>, ys: seq<int>, k: nat, m: nat)
    requires IsPrime(p) && Distinct(p, xs) && k <= |xs| == |ys| && m < |xs|
    ensures Same(p, Eval(PartialInterpolant(p, xs, ys, k), xs[m]), if m < k then ys[m] else 0)
  {
    if k > 0 {
      var i := k - 1;
      PartialAtPoint(p, xs, ys, i, m);
      if m == i {
        EvalNextTerm(p, xs, ys, k, xs[i]);
        DenominatorNonZero(p, xs, i);
        OwnPointStep(p, Eval(PartialInterpolant(p, xs, ys, i), xs[i]), ys[i], Differences(xs, i, |xs|, xs[i]));
      } else {
        OtherPointStep(p, xs, ys, k, m);
      }
    }
  }

  /** A term vanishes at the other points. */
  lemma OtherPointStep(p: int, xs: seq<int>, ys: seq<int>, k: nat, m: nat)
    requires p >= 2 && 0 < k <= |xs| == |ys| && m < |xs| && m != k - 1
    ensures Eval(PartialInterpolant(p, xs, ys, k), xs[m]) == Eval(PartialInterpolant(p, xs, ys, k - 1), xs[m])
  {
    EvalNextTerm(p, xs, ys, k, xs[m]);
    DifferencesVanish(xs, k - 1, |xs|, m);
  }

  /** One more term adds its coefficient times the product of differences. */
  lemma EvalNextTerm(p: int, xs: seq<int>, ys: seq<int>, k: nat, x: int)
    requires p >= 2 && 0 < k <= |xs| == |ys|
    ensures Eval(PartialInterpolant(p, xs, ys, k), x)
         == Eval(PartialInterpolant(p, xs, ys, k - 1), x)
            + Coefficient(p, xs, ys[k - 1], k - 1) * Differences(xs, k - 1, |xs|, x)
  {
    var i := k - 1;
    var head, c, b := PartialInterpolant(p, xs, ys, i), Coefficient(p, xs, ys[i], i), Basis(xs, i, |xs|);
    EvalPlus(head, Scale(c, b), x);
    EvalScale(c, b, x);
    EvalBasis(xs, i, |xs|, x);
  }

  lemma OwnPointStep(p: int, head: int, y: int, den: int)
    requires IsPrime(p) && !Same(p, den, 0) && Same(p, head, 0)
    ensures Same(p, head + (y * Inverse(p, den)) * den, y)
  {
    TermAtOwnPoint(p, y, den);
    SameAdd(p, head, 0, (y * Inverse(p, den)) * den, y);
  }

  lemma TermAtOwnPoint(p: int, y: int, den: int)
    requires IsPrime(p) && !Same(p, den, 0)
    ensures Same(p, (y * Inverse(p, den)) * den, y)
  {
    var inv := Inverse(p, den);
    SameMulRight(p, den * inv, 1, y);
    assert (y * inv) * den == y * (den * inv);
  }

  lemma {:induction false} PartialAtZero(p: int, xs: seq<int>, ys: seq<int>, k: nat)
    requires p >= 2 && k <= |xs| == |ys|
    ensures Same(p, Eval(PartialInterpolant(p, xs, ys, k), 0), WeightedSum(p, xs, ys, k))
  {
    if k > 0 {
      var i := k - 1;
      PartialAtZero(p, xs, ys, i);
      EvalNextTerm(p, xs, ys, k, 0);
      TermAtZero(p, ys[i], Differences(xs, i, |xs|, 0), Inverse(p, Differences(xs, i, |xs|, xs[i])));
      SameAdd(p, Eval(PartialInterpolant(p, xs, ys, i), 0), WeightedSum(p, xs, ys, i),
              Coefficient(p, xs, ys[i], i) * Differences(xs, i, |xs|, 0), Weight(p, xs, i) * ys[i]);
    }
  }

  lemma TermAtZero(p: int, y: int, num: int, inv: int)
    requires p > 0
    ensures Same(p, (y * inv) * num, ((num * inv) % p) * y)
  {
    ReducedIsSame(p, num * inv);
    SameMulRight(p, (num * inv) % p, num * inv, y);
    assert (y * inv) * num == (num * inv) * y;
  }

  /** The interpolant passes through every point and takes the combined value at zero. */
  lemma InterpolantFits(p: int, xs: seq<int>, ys: seq<int>)
    requires IsPrime(p) && Distinct(p, xs) && |xs| == |ys|
    ensures forall m :: 0 <= m < |xs| ==> Same(p, Eval(Interpolant(p, xs, ys), xs[m]), ys[m])
    ensures Same(p, Eval(Interpolant(p, xs, ys), 0), AtZero(p, xs, ys))
  {
    forall m | 0 <= m < |xs| ensures Same(p, Eval(Interpolant(p, xs, ys), xs[m]), ys[m]) {
      PartialAtPoint(p, xs, ys, |xs|, m);
    }
    PartialAtZero(p, xs, ys, |xs|);
    ReducedIsSame(p, WeightedSum(p, xs, ys, |xs|));
  }

  /** The values `ys` are those of `f` at the identifiers `xs`. */
  ghost predicate OnPolynomial(p: int, f: Poly, xs: seq<int>, ys: seq<int>)
    requires p > 0
  {
    |xs| == |ys| && forall i :: 0 <= i < |xs| ==> Same(p, ys[i], Eval(f, xs[i]))
  }

  /** Lagrange's theorem: enough values of a polynomial determine its intercept. */
  lemma InterceptRecovered(p: int, f: Poly, xs: seq<int>, ys: seq<int>)
    requires IsPrime(p) && Distinct(p, xs) && OnPolynomial(p, f, xs, ys) && |f| <= |xs|
    ensures AtZero(p, xs, ys) == Eval(f, 0) % p
  {
    InterpolantFits(p, xs, ys);
    var g := Interpolant(p, xs, ys);
    forall i | 0 <= i < |xs| ensures Same(p, Eval(f, xs[i]), Eval(g, xs[i])) {
      assert Same(p, ys[i], Eval(f, xs[i]));
    }
    AgreeEverywhere(p, f, g, xs, 0);
    CanonicalResidue(p, AtZero(p, xs, ys), Eval(f, 0));
  }

  lemma CanonicalResidue(p: int, a: int, b: int)
    requires 0 <= a < p && Same(p, a, b)
    ensures a == b % p
  {
  }

  /** Interpolation is linear in the values. */
  lemma {:induction false} WeightedSumLinear(p: int, xs: seq<int>, ys: seq<int>, zs: seq<int>, c: int, k: nat)
    requires p >= 2 && k <= |xs| == |ys| == |zs|
    requires forall i :: 0 <= i < |xs| ==> Same(p, ys[i], zs[i] * c)
    ensures Same(p, WeightedSum(p, xs, ys, k), WeightedSum(p, xs, zs, k) * c)
  {
    if k > 0 {
      WeightedSumLinear(p, xs, ys, zs, c, k - 1);
      LinearStep(p, WeightedSum(p, xs, ys, k - 1), WeightedSum(p, xs, zs, k - 1), Weight(p, xs, k - 1),
                 ys[k - 1], zs[k - 1], c);
    }
  }

  lemma LinearStep(p: int, a: int, b: int, w: int, y: int, z: int, c: int)
    requires p >= 2 && Same(p, a, b * c) && Same(p, y, z * c)
    ensures Same(p, a + w * y, (b + w * z) * c)
  {
    SameMulRight(p, y, z * c, w);
    SameAdd(p, a, b * c, w * y, w * (z * c));
    assert b * c + w * (z * c) == (b + w * z) * c;
  }

  /** Changing one value moves the weighted sum by that weight times the change. */
  lemma {:induction false} WeightedSumDiffers(p: int, xs: seq<int>, ys: seq<int>, zs: seq<int>, i: nat, k: nat)
    requires p >= 2 && k <= |xs| == |ys| == |zs| && i < |xs|
    requires forall j :: 0 <= j < |xs| && j != i ==> Same(p, ys[j], zs[j])
    ensures Same(p, WeightedSum(p, xs, ys, k) - WeightedSum(p, xs, zs, k),
                 if i < k then Weight(p, xs, i) * (ys[i] - zs[i]) else 0)
  {
    if k > 0 {
      WeightedSumDiffers(p, xs, ys, zs, i, k - 1);
      var a, b := WeightedSum(p, xs, ys, k - 1), WeightedSum(p, xs, zs, k - 1);
      if k - 1 == i {
        ChangedTerm(p, a, b, Weight(p, xs, i), ys[i], zs[i]);
      } else {
        var d := if i < k - 1 then Weight(p, xs, i) * (ys[i] - zs[i]) else 0;
        SameTerm(p, a, b, d, Weight(p, xs, k - 1), ys[k - 1], zs[k - 1]);
      }
    }
  }

  lemma ChangedTerm(p: int, a: int, b: int, w: int, y: int, z: int)
    requires p >= 2 && Same(p, a - b, 0)
    ensures Same(p, (a + w * y) - (b + w * z), w * (y - z))
  {
    assert (a + w * y) - (b + w * z) == (a - b) + w * (y - z);
    SameAdd(p, a - b, 0, w * (y - z), w * (y - z));
  }

  lemma SameTerm(p: int, a: int, b: int, d: int, w: int, y: int, z: int)
    requires p >= 2 && Same(p, a - b, d) && Same(p, y, z)
    ensures Same(p, (a + w * y) - (b + w * z), d)
  {
    assert (a + w * y) - (b + w * z) == (a - b) + w * (y - z);
    SameIffMultiple(p, y, z);
    SameMulRight(p, y - z, 0, w);
    SameAdd(p, a - b, d, w * (y - z), 0);
  }

  /** With all other values on `f`, the intercept is recovered exactly when the `i`-th value is on `f`. */
  lemma InterceptRecoveredIff(p: int, f: Poly, xs: seq<int>, ys: seq<int>, i: nat)
    requires IsPrime(p) && Distinct(p, xs) && |f| <= |xs| == |ys| && i < |xs|
    requires forall j :: 0 <= j < |xs| ==> !Same(p, xs[j], 0)
    requires forall j :: 0 <= j < |xs| && j != i ==> Same(p, ys[j], Eval(f, xs[j]))
    ensures AtZero(p, xs, ys) == Eval(f, 0) % p <==> Same(p, ys[i], Eval(f, xs[i]))
  {
    var zs := ys[i := Eval(f, xs[i])];
    InterceptRecovered(p, f, xs, zs);
    WeightedSumDiffers(p, xs, ys, zs, i, |xs|);
    WeightNonZero(p, xs, i);
    var sy, sz := WeightedSum(p, xs, ys, |xs|), WeightedSum(p, xs, zs, |xs|);
    assert Same(p, sz % p, sz) by { ReducedIsSame(p, sz); }
    DetectionArithmetic(p, sy, sz, Weight(p, xs, i), ys[i], zs[i], sz);
    assert Same(p, sy % p, sy) by { ReducedIsSame(p, sy); }
  }

  /** The nested accumulation loops that interpolate a list of points at zero. */
  method ComputeAtZero(p: int, xs: seq<int>, ys: seq<int>) returns (acc: int)
    requires p >= 2 && |xs| == |ys|
    ensures acc == AtZero(p, xs, ys)
  {
    acc := 0;
    var i := 0;
    while i < |xs|
      invariant 0 <= i <= |xs|
      invariant acc == WeightedSum(p, xs, ys, i) % p
    {
      var num, den := 1, 1;
      var j := 0;
      while j < |xs|
        invariant 0 <= j <= |xs|
        invariant Same(p, num, Differences(xs, i, j, 0))
        invariant Same(p, den, Differences(xs, i, j, xs[i]))
      {
        if i != j {
          ReducedIsSame(p, num * xs[j]);
          ReducedIsSame(p, den * (xs[j] - xs[i]));
          SameMulRight(p, num, Differences(xs, i, j, 0), xs[j]);
          SameMulRight(p, den, Differences(xs, i, j, xs[i]), xs[j] - xs[i]);
          num, den := (num * xs[j]) % p, (den * (xs[j] - xs[i])) % p;
        }
        j := j + 1;
      }
      AccumulateStep(p, xs, ys, i, acc, num, den);
      acc := (acc + ys[i] * num * Inverse(p, den)) % p;
      i := i + 1;
    }
  }

  lemma AccumulateStep(p: int, xs: seq<int>, ys: seq<int>, i: nat, acc: int, num: int, den: int)
    requires p >= 2 && |xs| == |ys| && i < |xs|
    requires acc == WeightedSum(p, xs, ys, i) % p
    requires Same(p, num, Differences(xs, i, |xs|, 0)) && Same(p, den, Differences(xs, i, |xs|, xs[i]))
    ensures Same(p, acc + ys[i] * num * Inverse(p, den), WeightedSum(p, xs, ys, i + 1))
  {
    var inv := Inverse(p, den);
    assert inv == Inverse(p, Differences(xs, i, |xs|, xs[i]));
    AccumulateTerm(p, ys[i], num, Differences(xs, i, |xs|, 0), inv);
    ReducedIsSame(p, WeightedSum(p, xs, ys, i));
    SameAdd(p, acc, WeightedSum(p, xs, ys, i), ys[i] * num * inv, Weight(p, xs, i) * ys[i]);
  }

  lemma AccumulateTerm(p: int, y: int, num: int, num': int, inv: int)
    requires p > 0 && Same(p, num, num')
    ensures Same(p, y * num * inv, ((num' * inv) % p) * y)
  {
    SameMulRight(p, num, num', y * inv);
    TermAtZero(p, y, num', inv);
    assert y * num * inv == (y * inv) * num;
  }
}
