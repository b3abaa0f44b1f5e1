/**
 The threshold-BLS derivation.  The group has prime order, so a point is represented by its
 discrete logarithm to a fixed generator: `s * H` is the product of scalars, and the pairing check
 of a signature against a public key is equality of the two products.
 */
module Threshold {
  import opened PrimeField
  import opened Polynomial
  import opened Lagrange

  datatype Share = Share(id: int, value: int)

  /** A partial signature: the identifier travels inside it, next to the point. */
  datatype Partial = Partial(id: int, point: int)

  datatype Sigma = Sigma(point: int) | CombineFailed

  /** One node's contribution `f(id) * H(msg)`; `h` is the point the message hashes to. */
  function DprfPartial(p: int, share: Share, h: int): Partial
    requires p > 0
  {
    Partial(share.id, (share.value * h) % p)
  }

  function Ids(partials: seq<Partial>): (xs: seq<int>)
    ensures |xs| == |partials|
  {
    seq(|partials|, i requires 0 <= i < |partials| => partials[i].id)
  }

  function Points(partials: seq<Partial>): (ys: seq<int>)
    ensures |ys| == |partials|
  {
    seq(|partials|, i requires 0 <= i < |partials| => partials[i].point)
  }

  /** The library refuses fewer than two shares, repeated identifiers and the identifier zero. */
  predicate Combinable(p: int, partials: seq<Partial>)
    requires p > 0
  {
    |partials| >= 2 && UsableIds(p, Ids(partials))
  }

  predicate UsableIds(p: int, xs: seq<int>)
    requires p > 0
  {
    Distinct(p, xs) && forall i :: 0 <= i < |xs| ==> !Same(p, xs[i], 0)
  }

  /** In-group Lagrange interpolation of the partials. */
  function DprfSigma(p: int, partials: seq<Partial>): Sigma
    requires p >= 2
  {
    if Combinable(p, partials) then Sigma(AtZero(p, Ids(partials), Points(partials))) else CombineFailed
  }

  /** The check of a combined signature against the group public key. */
  predicate DprfVerify(p: int, sigma: int, groupKey: int, h: int)
    requires p > 0
  {
    Same(p, sigma, groupKey * h)
  }

  /** The partial is the one the holder of `f(id)` computes for the point `h`. */
  ghost predicate Honest(p: int, f: Poly, h: int, q: Partial)
    requires p > 0
  {
    Same(p, q.point, Eval(f, q.id) * h)
  }

  lemma PartialOfShareIsHonest(p: int, f: Poly, h: int, share: Share)
    requires p > 0 && Same(p, share.value, Eval(f, share.id))
    ensures Honest(p, f, h, DprfPartial(p, share, h))
  {
    SameMulRight(p, share.value, Eval(f, share.id), h);
    ReducedIsSame(p, share.value * h);
  }

  /** Combining at least `|f|` honest partials gives `f(0) * h`, which verifies against `f(0)`. */
  lemma HonestSetCombines(p: int, f: Poly, h: int, partials: seq<Partial>)
    requires IsPrime(p) && Combinable(p, partials) && |f| <= |partials|
    requires forall i :: 0 <= i < |partials| ==> Honest(p, f, h, partials[i])
    ensures DprfSigma(p, partials) == Sigma((Eval(f, 0) * h) % p)
    ensures DprfVerify(p, DprfSigma(p, partials).point, Eval(f, 0) % p, h)
  {
    var xs, ys := Ids(partials), Points(partials);
    var zs := seq(|xs|, i requires 0 <= i < |xs| => Eval(f, xs[i]));
    forall i | 0 <= i < |xs| ensures Same(p, ys[i], zs[i] * h) {
      assert Honest(p, f, h, partials[i]);
    }
    WeightedSumLinear(p, xs, ys, zs, h, |xs|);
    InterceptRecovered(p, f, xs, zs);
    ReducedIsSame(p, WeightedSum(p, xs, zs, |xs|));
    ReducedIsSame(p, Eval(f, 0));
    SameMulRight(p, WeightedSum(p, xs, zs, |xs|), Eval(f, 0), h);
    SameMulRight(p, Eval(f, 0) % p, Eval(f, 0), h);
    ReducedIsSame(p, Eval(f, 0) * h);
  }

  /**
   Any two sets of at least `t` shares combine to one signature, even when they sit on different
   polynomials, as long as the polynomials share their intercept.
   */
  lemma AnyTwoSetsAgree(p: int, t: nat, f: Poly, g: Poly, h: int, a: seq<Partial>, b: seq<Partial>)
    requires IsPrime(p) && Combinable(p, a) && Combinable(p, b)
    requires |f| <= t <= |a| && |g| <= t <= |b| && Same(p, Eval(f, 0), Eval(g, 0))
    requires forall i :: 0 <= i < |a| ==> Honest(p, f, h, a[i])
    requires forall i :: 0 <= i < |b| ==> Honest(p, g, h, b[i])
    ensures DprfSigma(p, a) == DprfSigma(p, b)
  {
    HonestSetCombines(p, f, h, a);
    HonestSetCombines(p, g, h, b);
    SameMulRight(p, Eval(f, 0), Eval(g, 0), h);
  }

  /**
   Verification detects a single bad partial: in a set whose other members are honest, the combined
   signature verifies if and only if the remaining partial is honest too.
   */
  lemma OneBadPartialIsDetected(p: int, f: Poly, h: int, partials: seq<Partial>, i: nat)
    requires IsPrime(p) && Combinable(p, partials) && |f| <= |partials| && i < |partials|
    requires forall j :: 0 <= j < |partials| && j != i ==> Honest(p, f, h, partials[j])
    ensures DprfVerify(p, DprfSigma(p, partials).point, Eval(f, 0) % p, h) <==> Honest(p, f, h, partials[i])
  {
    var good := partials[i := Partial(partials[i].id, Eval(f, partials[i].id) * h)];
    assert Ids(good) == Ids(partials);
    HonestSetCombines(p, f, h, good);
    var xs, ys, zs := Ids(partials), Points(partials), Points(good);
    assert forall j :: 0 <= j < |xs| && j != i ==> ys[j] == zs[j];
    WeightedSumDiffers(p, xs, ys, zs, i, |xs|);
    WeightNonZero(p, xs, i);
    DetectionArithmetic(p, WeightedSum(p, xs, ys, |xs|), WeightedSum(p, xs, zs, |xs|),
                        Weight(p, xs, i), ys[i], zs[i], (Eval(f, 0) % p) * h);
  }

  // ---- Secrecy below the threshold ----

  /** `f` is a canonical sharing polynomial of master `s` that gives each holder its share. */
  ghost predicate Explains(p: int, t: nat, f: Poly, s: int, xs: seq<int>, ys: seq<int>)
    requires p > 0
  {
    |f| == t && IsCanonical(p, f) && Same(p, Eval(f, 0), s) && OnPolynomial(p, f, xs, ys)
  }

  /** Any `t - 1` shares are explained, for every candidate master, by exactly one polynomial. */
  lemma BelowThresholdEveryMasterIsPossible(p: int, t: nat, s: int, xs: seq<int>, ys: seq<int>)
    requires IsPrime(p) && UsableIds(p, xs) && |xs| == |ys| == t - 1
    ensures exists f :: Explains(p, t, f, s, xs, ys)
    ensures forall f, g :: Explains(p, t, f, s, xs, ys) && Explains(p, t, g, s, xs, ys) ==> f == g
  {
    var xs0, ys0 := [0] + xs, [s] + ys;
    forall i, j | 0 <= i < j < |xs0| ensures !Same(p, xs0[i], xs0[j]) {
      if i == 0 { assert xs0[j] == xs[j - 1]; } else { assert xs0[i] == xs[i - 1] && xs0[j] == xs[j - 1]; }
    }
    InterpolantFits(p, xs0, ys0);
    var f := Reduce(p, Interpolant(p, xs0, ys0));
    forall i | 0 <= i < |xs0| ensures Same(p, Eval(f, xs0[i]), ys0[i]) {
      EvalReduce(p, Interpolant(p, xs0, ys0), xs0[i]);
    }
    assert Same(p, Eval(f, xs0[0]), ys0[0]);
    forall i | 0 <= i < |xs| ensures Same(p, ys[i], Eval(f, xs[i])) {
      assert xs0[i + 1] == xs[i] && ys0[i + 1] == ys[i];
    }
    assert Explains(p, t, f, s, xs, ys);
    forall a, b | Explains(p, t, a, s, xs, ys) && Explains(p, t, b, s, xs, ys) ensures a == b {
      ExplanationIsUnique(p, t, a, b, s, xs, ys);
    }
  }

  lemma ExplanationIsUnique(p: int, t: nat, f: Poly, g: Poly, s: int, xs: seq<int>, ys: seq<int>)
    requires IsPrime(p) && UsableIds(p, xs) && |xs| == t - 1
    requires Explains(p, t, f, s, xs, ys) && Explains(p, t, g, s, xs, ys)
    ensures f == g
  {
    var xs0 := [0] + xs;
    forall i, j | 0 <= i < j < |xs0| ensures !Same(p, xs0[i], xs0[j]) {
      if i == 0 { assert xs0[j] == xs[j - 1]; } else { assert xs0[i] == xs[i - 1] && xs0[j] == xs[j - 1]; }
    }
    forall i | 0 <= i < |xs0| ensures Same(p, Eval(f, xs0[i]), Eval(g, xs0[i])) {
      if i > 0 {
        assert xs0[i] == xs[i - 1];
        assert Same(p, ys[i - 1], Eval(f, xs[i - 1])) && Same(p, ys[i - 1], Eval(g, xs[i - 1]));
      }
    }
    AgreeEverywhere(p, f, g, xs0, 0);
    CanonicalIsUnique(p, f, g);
  }
}
