/**
 The scalar field of the cluster: integers modulo a prime `p`.  A scalar is any integer and two
 integers denote the same scalar when their remainders modulo `p` agree, so polynomial identities
 can be proved exactly over the integers and reduced at the end.
 */
module PrimeField {

  ghost predicate IsPrime(p: int) {
    p >= 2 && forall d: int :: 1 < d < p ==> p % d != 0
  }

  /** `a` and `b` denote the same scalar. */
  predicate Same(p: int, a: int, b: int)
    requires p > 0
  {
    a % p == b % p
  }

  lemma MultipleIsZero(p: int, k: int)
    requires p > 0
    ensures (p * k) % p == 0
  {
    DivisionIsUnique(p, k, 0, (p * k) / p, (p * k) % p);
  }

  lemma DivisionIsUnique(p: int, q: int, r: int, q': int, r': int)
    requires p > 0 && 0 <= r < p && 0 <= r' < p && p * q + r == p * q' + r'
    ensures q == q' && r == r'
  {
    NoFurther(p, q, r, q', r');
    NoFurther(p, q', r', q, r);
  }

  lemma NoFurther(p: int, q: int, r: int, q': int, r': int)
    requires p > 0 && 0 <= r && r' < p && p * q + r == p * q' + r'
    ensures q <= q'
  {
    assert q > q' ==> p * q >= p * (q' + 1) by {
      if q > q' { MulMonotone(p, q' + 1, q); }
    }
  }

  lemma MulMonotone(p: int, a: int, b: int)
    requires p > 0 && a <= b
    ensures p * a <= p * b
  {
    assert p * (b - a) >= 0;
  }

  /** Adding a multiple of `p` does not change the scalar. */
  lemma ShiftByMultiple(p: int, a: int, k: int)
    requires p > 0
    ensures Same(p, a + p * k, a)
  {
    var q, r := a / p, a % p;
    assert p * (q + k) == p * q + p * k;
    DivisionIsUnique(p, q + k, r, (a + p * k) / p, (a + p * k) % p);
  }

  /** Two integers denote the same scalar exactly when they differ by a multiple of `p`. */
  lemma SameIffMultiple(p: int, a: int, b: int)
    requires p > 0
    ensures Same(p, a, b) <==> exists k :: a == b + p * k
    ensures Same(p, a, b) <==> Same(p, a - b, 0)
  {
    if Same(p, a, b) {
      var k := a / p - b / p;
      assert p * k == p * (a / p) - p * (b / p);
      assert a == b + p * k;
      MultipleIsZero(p, k);
      assert a - b == p * k;
    }
    if exists k :: a == b + p * k {
      var k :| a == b + p * k;
      ShiftByMultiple(p, b, k);
    }
    if Same(p, a - b, 0) {
      assert 0 % p == 0;
      var k := (a - b) / p;
      assert a == b + p * k;
      ShiftByMultiple(p, b, k);
    }
  }

  lemma SameAdd(p: int, a: int, a': int, b: int, b': int)
    requires p > 0 && Same(p, a, a') && Same(p, b, b')
    ensures Same(p, a + b, a' + b') && Same(p, a - b, a' - b')
  {
    SameIffMultiple(p, a, a');
    SameIffMultiple(p, b, b');
    var k :| a == a' + p * k;
    var l :| b == b' + p * l;
    assert p * (k + l) == p * k + p * l && p * (k - l) == p * k - p * l;
    ShiftByMultiple(p, a' + b', k + l);
    ShiftByMultiple(p, a' - b', k - l);
  }

  lemma SameMulRight(p: int, a: int, a': int, b: int)
    requires p > 0 && Same(p, a, a')
    ensures Same(p, a * b, a' * b) && Same(p, b * a, b * a')
  {
    SameIffMultiple(p, a, a');
    var k :| a == a' + p * k;
    assert a * b == a' * b + p * (k * b);
    ShiftByMultiple(p, a' * b, k * b);
  }

  lemma SameMul(p: int, a: int, a': int, b: int, b': int)
    requires p > 0 && Same(p, a, a') && Same(p, b, b')
    ensures Same(p, a * b, a' * b')
  {
    SameMulRight(p, a, a', b);
    SameMulRight(p, b, b', a');
  }

  /** A remainder denotes the same scalar as the number it was taken from. */
  lemma ReducedIsSame(p: int, a: int)
    requires p > 0
    ensures Same(p, a % p, a)
  {
    assert a == a % p + p * (a / p);
    ShiftByMultiple(p, a % p, a / p);
  }

  // ---- Inverses, by the extended Euclidean algorithm ----

  datatype Bezout = Bezout(gcd: int, u: int, v: int)

  function ExtendedGcd(a: int, b: int): (r: Bezout)
    requires a >= 0 && b >= 0 && a + b > 0
    ensures r.gcd == a * r.u + b * r.v
    ensures r.gcd > 0 && a % r.gcd == 0 && b % r.gcd == 0
    decreases b
  {
    if b == 0 then
      Bezout(a, 1, 0)
    else
      var s := ExtendedGcd(b, a % b);
      BezoutStep(a, b, a / b, a % b, s.gcd, s.u, s.v);
      Bezout(s.gcd, s.v, s.u - (a / b) * s.v)
  }

  lemma BezoutStep(a: int, b: int, q: int, r: int, g: int, u: int, v: int)
    requires g > 0 && a == b * q + r
    requires g == b * u + r * v && b % g == 0 && r % g == 0
    ensures g == a * v + b * (u - q * v)
    ensures a % g == 0
  {
    Expand(b, q, r, u, v);
    DividesCombination(g, b, q, r);
  }

  lemma DividesCombination(g: int, b: int, q: int, r: int)
    requires g > 0 && b % g == 0 && r % g == 0
    ensures (b * q + r) % g == 0
  {
    var m, k := b / g, r / g;
    assert b == g * m && r == g * k;
    Factor(g, m, q, k);
    MultipleIsZero(g, m * q + k);
  }

  lemma DivisorAtMost(g: int, r: int)
    requires g > 0 && r > 0 && r % g == 0
    ensures g <= r
  {
    var k := r / g;
    assert r == g * k;
    assert k >= 1;
    MulMonotone(g, 1, k);
  }

  lemma Expand(b: int, q: int, r: int, u: int, v: int)
    ensures b * u + r * v == (b * q + r) * v + b * (u - q * v)
  {
    assert (b * q + r) * v == b * (q * v) + r * v;
    assert b * (u - q * v) == b * u - b * (q * v);
  }

  lemma Factor(g: int, m: int, q: int, k: int)
    ensures (g * m) * q + g * k == g * (m * q + k)
  {
    assert (g * m) * q == g * (m * q);
  }

  /** The inverse of a non-zero scalar; `invert().unwrap()` in the source. */
  function Inverse(p: int, a: int): (b: int)
    requires p >= 2
    ensures 0 <= b < p
    ensures IsPrime(p) && !Same(p, a, 0) ==> Same(p, a * b, 1)
  {
    var e := ExtendedGcd(a % p, p);
    assert IsPrime(p) && !Same(p, a, 0) ==> Same(p, a * (e.u % p), 1) by {
      if IsPrime(p) && !Same(p, a, 0) {
        InverseWorks(p, a, e);
      }
    }
    e.u % p
  }

  lemma InverseWorks(p: int, a: int, e: Bezout)
    requires IsPrime(p) && !Same(p, a, 0)
    requires e.gcd == (a % p) * e.u + p * e.v && e.gcd > 0 && (a % p) % e.gcd == 0 && p % e.gcd == 0
    ensures Same(p, a * (e.u % p), 1)
  {
    var r, g := a % p, e.gcd;
    assert 0 < r < p;
    DivisorAtMost(g, r);
    assert g == 1;
    assert 1 == r * e.u + p * e.v;
    ShiftByMultiple(p, r * e.u, e.v);
    ReducedIsSame(p, a);
    ReducedIsSame(p, e.u);
    SameMul(p, r, a, e.u, e.u % p);
  }

  /** Euclid's lemma: a prime field has no zero divisors. */
  lemma NoZeroDivisors(p: int, a: int, b: int)
    requires IsPrime(p) && Same(p, a * b, 0)
    ensures Same(p, a, 0) || Same(p, b, 0)
  {
    if !Same(p, a, 0) {
      var i := Inverse(p, a);
      SameMul(p, a * b, 0, i, i);
      SameMul(p, a * i, 1, b, b);
      assert a * b * i == a * i * b;
    }
  }

  /** Scalar equations can be divided by a non-zero scalar. */
  lemma Cancel(p: int, a: int, b: int, c: int)
    requires IsPrime(p) && !Same(p, a, 0) && Same(p, a * b, a * c)
    ensures Same(p, b, c)
  {
    SameIffMultiple(p, a * b, a * c);
    assert a * b - a * c == a * (b - c);
    NoZeroDivisors(p, a, b - c);
    SameIffMultiple(p, b, c);
  }

  lemma CancelIff(p: int, h: int, a: int, b: int)
    requires IsPrime(p) && !Same(p, h, 0)
    ensures Same(p, a * h, b * h) <==> Same(p, a, b)
  {
    assert a * h == h * a && b * h == h * b;
    if Same(p, a * h, b * h) {
      Cancel(p, h, a, b);
    }
    if Same(p, a, b) {
      SameMulRight(p, a, b, h);
    }
  }

  /** If two sums differ by a non-zero weight times `y - z`, they agree exactly when `y` and `z` do. */
  lemma DetectionArithmetic(p: int, sy: int, sz: int, w: int, y: int, z: int, target: int)
    requires IsPrime(p) && !Same(p, w, 0) && Same(p, sy - sz, w * (y - z)) && Same(p, sz % p, target)
    ensures Same(p, sy % p, target) <==> Same(p, y, z)
  {
    ReducedIsSame(p, sy);
    ReducedIsSame(p, sz);
    SameIffMultiple(p, sy, sz);
    SameIffMultiple(p, y, z);
    if Same(p, sy, sz) {
      NoZeroDivisors(p, w, y - z);
    }
    if Same(p, y - z, 0) {
      SameMulRight(p, y - z, 0, w);
    }
  }

  lemma SmallResidue(p: int, x: int)
    requires 0 <= x < p
    ensures x % p == x
  {
  }
}
