/**
 Polynomials with integer coefficients, least significant first.  All identities here are exact
 over the integers; the field enters only through `Same`.
 */
module Polynomial {
  import opened PrimeField

  type Poly = seq<int>

  function Eval(f: Poly, x: int): int {
    if f == [] then 0 else f[0] + x * Eval(f[1..], x)
  }

  function Plus(f: Poly, g: Poly): (h: Poly)
    ensures |h| == if |f| >= |g| then |f| else |g|
  {
    if f == [] then g
    else if g == [] then f
    else [f[0] + g[0]] + Plus(f[1..], g[1..])
  }

  function Scale(c: int, f: Poly): (h: Poly)
    ensures |h| == |f|
  {
    if f == [] then [] else [c * f[0]] + Scale(c, f[1..])
  }

  /** `(r - X) * f`. */
  function TimesFactor(f: Poly, r: int): (h: Poly)
    ensures |h| == |f| + 1
  {
    Plus(Scale(r, f), [0] + Scale(-1, f))
  }

  /** The quotient of `f - f(r)` by `X - r`. */
  function Quotient(f: Poly, r: int): (q: Poly)
    ensures |q| == if f == [] then 0 else |f| - 1
  {
    if |f| <= 1 then [] else [Eval(f[1..], r)] + Quotient(f[1..], r)
  }

  lemma {:induction false} EvalPlus(f: Poly, g: Poly, x: int)
    ensures Eval(Plus(f, g), x) == Eval(f, x) + Eval(g, x)
  {
    if f != [] && g != [] {
      var h := Plus(f, g);
      assert h[1..] == Plus(f[1..], g[1..]);
      EvalPlus(f[1..], g[1..], x);
      assert x * (Eval(f[1..], x) + Eval(g[1..], x)) == x * Eval(f[1..], x) + x * Eval(g[1..], x);
    }
  }

  lemma {:induction false} EvalScale(c: int, f: Poly, x: int)
    ensures Eval(Scale(c, f), x) == c * Eval(f, x)
  {
    if f != [] {
      assert Scale(c, f)[1..] == Scale(c, f[1..]);
      EvalScale(c, f[1..], x);
      var e := Eval(f[1..], x);
      assert c * (f[0] + x * e) == c * f[0] + x * (c * e);
    }
  }

  lemma EvalTimesFactor(f: Poly, r: int, x: int)
    ensures Eval(TimesFactor(f, r), x) == (r - x) * Eval(f, x)
  {
    var shifted := [0] + Scale(-1, f);
    EvalPlus(Scale(r, f), shifted, x);
    EvalScale(r, f, x);
    EvalScale(-1, f, x);
    assert shifted[1..] == Scale(-1, f);
    var e := Eval(f, x);
    assert r * e + x * (-1 * e) == (r - x) * e;
  }

  /** Division with remainder by a linear factor, exactly over the integers. */
  lemma {:induction false} EvalQuotient(f: Poly, r: int, x: int)
    ensures Eval(f, x) - Eval(f, r) == (x - r) * Eval(Quotient(f, r), x)
  {
    if |f| == 1 {
      assert f[1..] == [];
      assert x * Eval(f[1..], x) == 0 == r * Eval(f[1..], r);
    } else if |f| > 1 {
      var g := f[1..];
      EvalQuotient(g, r, x);
      assert Quotient(f, r)[1..] == Quotient(g, r);
      QuotientStep(x, r, Eval(g, x), Eval(g, r), Eval(Quotient(g, r), x));
    }
  }

  lemma QuotientStep(x: int, r: int, gx: int, gr: int, q: int)
    requires gx - gr == (x - r) * q
    ensures x * gx - r * gr == (x - r) * (gr + x * q)
  {
    assert x * gx - r * gr == x * (gx - gr) + (x - r) * gr;
    assert x * ((x - r) * q) == (x - r) * (x * q);
  }

  /** Every coefficient of `f` is the zero scalar. */
  ghost predicate IsZero(p: int, f: Poly)
    requires p > 0
  {
    forall i :: 0 <= i < |f| ==> Same(p, f[i], 0)
  }

  lemma {:induction false} ZeroEvaluatesToZero(p: int, f: Poly, x: int)
    requires p > 0 && IsZero(p, f)
    ensures Same(p, Eval(f, x), 0)
  {
    if f != [] {
      ZeroEvaluatesToZero(p, f[1..], x);
      SameMulRight(p, Eval(f[1..], x), 0, x);
      SameAdd(p, f[0], 0, x * Eval(f[1..], x), 0);
    }
  }

  lemma {:induction false} ZeroQuotient(p: int, f: Poly, r: int)
    requires p > 0 && IsZero(p, Quotient(f, r)) && Same(p, Eval(f, r), 0)
    ensures IsZero(p, f)
  {
    if f != [] {
      var g := f[1..];
      assert Same(p, Eval(g, r), 0) by {
        if g != [] { assert Quotient(f, r)[0] == Eval(g, r); }
      }
      if g != [] {
        assert Quotient(g, r) == Quotient(f, r)[1..];
        ZeroQuotient(p, g, r);
      }
      SameMulRight(p, Eval(g, r), 0, r);
      SameAdd(p, Eval(f, r), 0, r * Eval(g, r), 0);
      assert Same(p, f[0], 0);
      forall i | 0 <= i < |f| ensures Same(p, f[i], 0) {
        if i > 0 { assert f[i] == g[i - 1]; }
      }
    }
  }

  /** Pairwise different scalars. */
  predicate Distinct(p: int, xs: seq<int>)
    requires p > 0
  {
    forall i, j :: 0 <= i < j < |xs| ==> !Same(p, xs[i], xs[j])
  }

  /** The root theorem: a polynomial with at least as many distinct roots as coefficients is zero. */
  lemma {:induction false} TooManyRoots(p: int, f: Poly, xs: seq<int>)
    requires IsPrime(p) && Distinct(p, xs) && |f| <= |xs|
    requires forall i :: 0 <= i < |xs| ==> Same(p, Eval(f, xs[i]), 0)
    ensures IsZero(p, f)
    decreases |xs|
  {
    if f != [] {
      var r, rest, q := xs[0], xs[1..], Quotient(f, xs[0]);
      forall j | 0 <= j < |rest| ensures Same(p, Eval(q, rest[j]), 0) {
        var x := rest[j];
        assert x == xs[j + 1];
        EvalQuotient(f, r, x);
        SameAdd(p, Eval(f, x), 0, Eval(f, r), 0);
        SameIffMultiple(p, r, x);
        SameIffMultiple(p, x, r);
        NoZeroDivisors(p, x - r, Eval(q, x));
      }
      TooManyRoots(p, q, rest);
      ZeroQuotient(p, f, r);
    }
  }

  /** Two polynomials that agree on enough points agree everywhere, and in every coefficient. */
  lemma AgreeEverywhere(p: int, f: Poly, g: Poly, xs: seq<int>, x: int)
    requires IsPrime(p) && Distinct(p, xs) && |f| <= |xs| && |g| <= |xs|
    requires forall i :: 0 <= i < |xs| ==> Same(p, Eval(f, xs[i]), Eval(g, xs[i]))
    ensures IsZero(p, Plus(f, Scale(-1, g)))
    ensures Same(p, Eval(f, x), Eval(g, x))
  {
    var h := Plus(f, Scale(-1, g));
    forall i | 0 <= i < |xs| ensures Same(p, Eval(h, xs[i]), 0) {
      DifferenceVanishes(p, f, g, xs[i]);
    }
    TooManyRoots(p, h, xs);
    ZeroEvaluatesToZero(p, h, x);
    DifferenceVanishes(p, f, g, x);
  }

  lemma DifferenceVanishes(p: int, f: Poly, g: Poly, x: int)
    requires p > 0
    ensures Same(p, Eval(Plus(f, Scale(-1, g)), x), 0) <==> Same(p, Eval(f, x), Eval(g, x))
  {
    EvalPlus(f, Scale(-1, g), x);
    EvalScale(-1, g, x);
    SameIffMultiple(p, Eval(f, x), Eval(g, x));
  }

  // ---- Canonical coefficients ----

  predicate IsCanonical(p: int, f: Poly) {
    forall i :: 0 <= i < |f| ==> 0 <= f[i] < p
  }

  function Reduce(p: int, f: Poly): (g: Poly)
    requires p > 0
    ensures |g| == |f| && IsCanonical(p, g)
  {
    if f == [] then [] else [f[0] % p] + Reduce(p, f[1..])
  }

  lemma {:induction false} EvalReduce(p: int, f: Poly, x: int)
    requires p > 0
    ensures Same(p, Eval(Reduce(p, f), x), Eval(f, x))
  {
    if f != [] {
      assert Reduce(p, f)[1..] == Reduce(p, f[1..]);
      EvalReduce(p, f[1..], x);
      SameMulRight(p, Eval(Reduce(p, f[1..]), x), Eval(f[1..], x), x);
      ReducedIsSame(p, f[0]);
      SameAdd(p, f[0] % p, f[0], x * Eval(Reduce(p, f[1..]), x), x * Eval(f[1..], x));
    }
  }

  lemma CanonicalScalars(p: int, a: int, b: int)
    requires 0 <= a < p && 0 <= b < p && Same(p, a - b, 0)
    ensures a == b
  {
    SameIffMultiple(p, a, b);
  }

  lemma {:induction false} DifferenceAt(f: Poly, g: Poly, i: int)
    requires 0 <= i < |f| == |g|
    ensures Plus(f, Scale(-1, g))[i] == f[i] - g[i]
  {
    if i > 0 {
      assert Scale(-1, g)[1..] == Scale(-1, g[1..]);
      DifferenceAt(f[1..], g[1..], i - 1);
    }
  }

  /** Canonical polynomials of one length that differ by the zero polynomial are equal. */
  lemma CanonicalIsUnique(p: int, f: Poly, g: Poly)
    requires p > 0 && IsCanonical(p, f) && IsCanonical(p, g) && |f| == |g|
    requires IsZero(p, Plus(f, Scale(-1, g)))
    ensures f == g
  {
    forall i | 0 <= i < |f| ensures f[i] == g[i] {
      DifferenceAt(f, g, i);
      assert Same(p, Plus(f, Scale(-1, g))[i], 0);
      CanonicalScalars(p, f[i], g[i]);
    }
  }
}
