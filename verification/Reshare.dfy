/**
 The algebra of a key-generation or reshare session.  Every participant deals a polynomial of at
 most `t` coefficients; a participant's new share is the sum of what it was dealt, and the session's
 group key is the sum of the intercepts.  A dealer's intercept is its weighted old share, a
 recovering node's is zero.
 */
module Reshare {
  import opened PrimeField
  import opened Polynomial
  import opened Lagrange
  import opened Threshold

  /** The sum of the values dealt for the point `x`. */
  function Dealt(polys: seq<Poly>, x: int): int {
    if polys == [] then 0 else Eval(polys[0], x) + Dealt(polys[1..], x)
  }

  function NewShare(p: int, polys: seq<Poly>, id: int): (v: int)
    requires p > 0
    ensures 0 <= v < p
  {
    Dealt(polys, id) % p
  }

  function SessionKey(p: int, polys: seq<Poly>): (k: int)
    requires p > 0
    ensures 0 <= k < p
  {
    Dealt(polys, 0) % p
  }

  /** The one polynomial all new shares lie on. */
  function Total(polys: seq<Poly>): Poly {
    if polys == [] then [] else Plus(polys[0], Total(polys[1..]))
  }

  predicate AllShort(t: nat, polys: seq<Poly>) {
    forall j :: 0 <= j < |polys| ==> |polys[j]| <= t
  }

  lemma {:induction false} TotalDeals(t: nat, polys: seq<Poly>, x: int)
    requires AllShort(t, polys)
    ensures |Total(polys)| <= t && Eval(Total(polys), x) == Dealt(polys, x)
  {
    if polys != [] {
      TotalDeals(t, polys[1..], x);
      EvalPlus(polys[0], Total(polys[1..]), x);
    }
  }

  /** The intercepts of a session: weighted shares from the dealers, zero from everyone after them. */
  ghost predicate Intercepts(p: int, dealers: seq<int>, shares: seq<int>, polys: seq<Poly>)
    requires p >= 2
  {
    && |dealers| == |shares| <= |polys|
    && (forall i :: 0 <= i < |dealers| ==> Same(p, Eval(polys[i], 0), Weight(p, dealers, i) * shares[i]))
    && (forall i :: |dealers| <= i < |polys| ==> Same(p, Eval(polys[i], 0), 0))
  }

  lemma {:induction false} DealtSplits(polys: seq<Poly>, k: nat, x: int)
    requires k < |polys|
    ensures Dealt(polys[..k + 1], x) == Dealt(polys[..k], x) + Eval(polys[k], x)
  {
    if k == 0 {
      assert polys[..1][1..] == [] && polys[..0] == [];
    } else {
      assert polys[..k + 1][1..] == polys[1..][..k] && polys[..k][1..] == polys[1..][..k - 1];
      DealtSplits(polys[1..], k - 1, x);
    }
  }

  lemma {:induction false} InterceptsAddUp(p: int, dealers: seq<int>, shares: seq<int>, polys: seq<Poly>, k: nat)
    requires p >= 2 && Intercepts(p, dealers, shares, polys) && k <= |polys|
    ensures Same(p, Dealt(polys[..k], 0),
                 WeightedSum(p, dealers, shares, if k <= |dealers| then k else |dealers|))
  {
    if k > 0 {
      InterceptsAddUp(p, dealers, shares, polys, k - 1);
      DealtSplits(polys, k - 1, 0);
      if k <= |dealers| {
        SameAdd(p, Dealt(polys[..k - 1], 0), WeightedSum(p, dealers, shares, k - 1),
                Eval(polys[k - 1], 0), Weight(p, dealers, k - 1) * shares[k - 1]);
      } else {
        SameAdd(p, Dealt(polys[..k - 1], 0), WeightedSum(p, dealers, shares, |dealers|), Eval(polys[k - 1], 0), 0);
      }
    }
  }

  /**
   Whatever shares the dealers bring, from one epoch or several, the outcome is consistent: all new
   shares lie on one polynomial of at most `t` coefficients, and its intercept, the session's group
   key, is the interpolation of the shares that were dealt.
   */
  lemma SessionOutcome(p: int, t: nat, dealers: seq<int>, shares: seq<int>, polys: seq<Poly>)
    requires p >= 2 && AllShort(t, polys) && Intercepts(p, dealers, shares, polys)
    ensures |Total(polys)| <= t
    ensures forall id :: NewShare(p, polys, id) == Eval(Total(polys), id) % p
    ensures SessionKey(p, polys) == Eval(Total(polys), 0) % p == AtZero(p, dealers, shares)
  {
    TotalDeals(t, polys, 0);
    forall id ensures NewShare(p, polys, id) == Eval(Total(polys), id) % p {
      TotalDeals(t, polys, id);
    }
    InterceptsAddUp(p, dealers, shares, polys, |polys|);
    assert polys[..|polys|] == polys;
  }

  /** A reshare or refresh by at least `t` dealers of one polynomial preserves the master. */
  lemma ResharePreservesMaster(p: int, t: nat, f: Poly, dealers: seq<int>, shares: seq<int>, polys: seq<Poly>)
    requires IsPrime(p) && AllShort(t, polys) && Intercepts(p, dealers, shares, polys)
    requires UsableIds(p, dealers) && |f| <= t <= |dealers| && OnPolynomial(p, f, dealers, shares)
    ensures |Total(polys)| <= t && SessionKey(p, polys) == Eval(f, 0) % p == Eval(Total(polys), 0) % p
    ensures forall id :: NewShare(p, polys, id) == Eval(Total(polys), id) % p
  {
    SessionOutcome(p, t, dealers, shares, polys);
    InterceptRecovered(p, f, dealers, shares);
  }

  /** End to end: any `t` members of the reshared committee derive what the old committee derived. */
  lemma ResharedCommitteeDerivesTheSameKey(
    p: int, t: nat, f: Poly, dealers: seq<int>, shares: seq<int>, polys: seq<Poly>, h: int, partials: seq<Partial>)
    requires IsPrime(p) && AllShort(t, polys) && Intercepts(p, dealers, shares, polys)
    requires UsableIds(p, dealers) && |f| <= t <= |dealers| && OnPolynomial(p, f, dealers, shares)
    requires Combinable(p, partials) && t <= |partials|
    requires forall i :: 0 <= i < |partials| ==>
      partials[i] == DprfPartial(p, Share(partials[i].id, NewShare(p, polys, partials[i].id)), h)
    ensures DprfSigma(p, partials) == Sigma((Eval(f, 0) * h) % p)
  {
    ResharePreservesMaster(p, t, f, dealers, shares, polys);
    var g := Total(polys);
    forall i | 0 <= i < |partials| ensures Honest(p, g, h, partials[i]) {
      ReducedIsSame(p, Eval(g, partials[i].id));
      PartialOfShareIsHonest(p, g, h, Share(partials[i].id, NewShare(p, polys, partials[i].id)));
    }
    HonestSetCombines(p, g, h, partials);
    SameMulRight(p, Eval(g, 0), Eval(f, 0), h);
  }

  /**
   The group-key guard is exact for one stale dealer: when all dealers but the `i`-th bring shares
   of `f`, the session's key equals the master if and only if the `i`-th share is on `f` too.
   */
  lemma GuardDetectsAStaleDealer(
    p: int, t: nat, f: Poly, dealers: seq<int>, shares: seq<int>, polys: seq<Poly>, i: nat)
    requires IsPrime(p) && AllShort(t, polys) && Intercepts(p, dealers, shares, polys)
    requires UsableIds(p, dealers) && |f| <= t <= |dealers| && i < |dealers|
    requires forall j :: 0 <= j < |dealers| && j != i ==> Same(p, shares[j], Eval(f, dealers[j]))
    ensures SessionKey(p, polys) == Eval(f, 0) % p <==> Same(p, shares[i], Eval(f, dealers[i]))
  {
    SessionOutcome(p, t, dealers, shares, polys);
    InterceptRecoveredIff(p, f, dealers, shares, i);
  }

  /** A share from before a refresh is useless after it unless the refresh left it unchanged. */
  lemma OldShareIsUselessAfterRefresh(p: int, before: Poly, after: Poly, h: int, partials: seq<Partial>, i: nat)
    requires IsPrime(p) && Combinable(p, partials) && |after| <= |partials| && i < |partials| && !Same(p, h, 0)
    requires Honest(p, before, h, partials[i])
    requires forall j :: 0 <= j < |partials| && j != i ==> Honest(p, after, h, partials[j])
    ensures DprfVerify(p, DprfSigma(p, partials).point, Eval(after, 0) % p, h)
            <==> Same(p, Eval(before, partials[i].id), Eval(after, partials[i].id))
  {
    OneBadPartialIsDetected(p, after, h, partials, i);
    CancelIff(p, h, Eval(before, partials[i].id), Eval(after, partials[i].id));
  }
}
