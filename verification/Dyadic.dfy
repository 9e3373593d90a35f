/** Powers of two, as integers and as reals, and the shift arithmetic of
    machine words written with them. */
module Dyadic {

  function Pow2(n: nat): (r: nat)
    ensures r > 0
  {
    if n == 0 then 1 else 2 * Pow2(n - 1)
  }

  /** 2^e for any integer e. */
  ghost function Two(e: int): (r: real)
    ensures r > 0.0
  {
    if e >= 0 then Pow2(e) as real else Inverse(Pow2(-e) as real)
  }

  ghost function Inverse(x: real): (r: real)
    requires x > 0.0
    ensures r > 0.0 && r * x == 1.0
  {
    1.0 / x
  }

  lemma {:induction false} Pow2Add(a: nat, b: nat)
    ensures Pow2(a + b) == Pow2(a) * Pow2(b)
    decreases a
  {
    if a > 0 {
      Pow2Add(a - 1, b);
      assert Pow2(a + b) == 2 * (Pow2(a - 1) * Pow2(b));
      MulAssoc(2, Pow2(a - 1), Pow2(b));
    }
  }

  lemma MulAssoc(a: int, b: int, c: int)
    ensures a * (b * c) == a * b * c
  {
  }

  lemma {:induction false} Pow2Mono(a: nat, b: nat)
    requires a <= b
    ensures Pow2(a) <= Pow2(b)
    ensures a < b ==> 2 * Pow2(a) <= Pow2(b)
    decreases b - a
  {
    if a < b {
      Pow2Mono(a + 1, b);
    }
  }

  /** One step of the exponent doubles the value, on either side of zero. */
  lemma TwoStep(e: int)
    ensures Two(e + 1) == 2.0 * Two(e)
  {
    if e < -1 {
      var p := Pow2(-e - 1) as real;
      assert Pow2(-e) as real == 2.0 * p;
      RealCancel(Two(e + 1), 2.0 * Two(e), p);
    } else if e == -1 {
      assert Two(-1) * 2.0 == 1.0;
    }
  }

  lemma RealCancel(a: real, b: real, p: real)
    requires p > 0.0 && a * p == 1.0 && b * p == 1.0
    ensures a == b
  {
    assert (a - b) * p == 0.0;
  }

  lemma {:induction false} TwoAdd(e: int, n: nat)
    ensures Two(e + n) == Two(e) * Pow2(n) as real
    decreases n
  {
    hide Two;
    if n > 0 {
      TwoAdd(e, n - 1);
      TwoStep(e + (n - 1));
      var t, p := Two(e), Pow2(n - 1) as real;
      assert e + (n - 1) + 1 == e + n;
      assert Two(e + n) == 2.0 * (t * p);
      RealMulAssoc(t, p);
      assert Pow2(n) as real == 2.0 * p;
    } else {
      assert e + n == e;
    }
  }

  lemma RealMulAssoc(a: real, p: real)
    ensures 2.0 * (a * p) == a * (2.0 * p)
  {
  }

  lemma TwoMono(a: int, b: int)
    requires a <= b
    ensures Two(a) <= Two(b)
  {
    hide Two;
    TwoAdd(a, b - a);
    assert a + (b - a) == b;
    RealMulMono(Two(a), 1.0, Pow2(b - a) as real);
  }

  lemma RealMulMono(u: real, a: real, b: real)
    requires u >= 0.0 && a <= b
    ensures u * a <= u * b
    ensures a * u <= b * u
  {
    assert u * (b - a) >= 0.0;
  }

  lemma RealMulStrict(u: real, a: real, b: real)
    requires u > 0.0
    ensures a < b <==> a * u < b * u
    ensures a <= b <==> a * u <= b * u
    ensures a == b <==> a * u == b * u
  {
    if a < b {
      assert u * (b - a) > 0.0;
    } else if a > b {
      assert u * (a - b) > 0.0;
    }
  }

  lemma TwoCases(b: int)
    ensures b >= 0 ==> Two(b) == Pow2(b) as real
    ensures b < 0 ==> Two(b) * Pow2(-b) as real == 1.0
  {
  }

  lemma TwoSum(a: int, b: int)
    ensures Two(a + b) == Two(a) * Two(b)
  {
    hide Two, Pow2;
    TwoCases(b);
    if b >= 0 {
      TwoAdd(a, b);
    } else {
      TwoAdd(a + b, -b);
      ThreeMul(Two(a + b), Pow2(-b) as real, Two(b));
    }
  }

  lemma ThreeMul(x: real, p: real, y: real)
    requires y * p == 1.0
    ensures x * p * y == x
  {
    assert x * p * y == x * (y * p);
  }

  lemma {:induction false} RealOfMul(m: nat, s: nat)
    ensures (m * s) as real == m as real * s as real
    decreases m
  {
    if m > 0 {
      RealOfMul(m - 1, s);
      assert m * s == (m - 1) * s + s;
      Distribute(m - 1, s as real);
    }
  }

  lemma Distribute(k: int, t: real)
    ensures (k + 1) as real * t == k as real * t + t
    ensures (k + 2) as real * t == k as real * t + 2.0 * t
  {
    assert (k + 1) as real == k as real + 1.0 && (k + 2) as real == k as real + 2.0;
  }

  /** The dyadic number m * 2^q. */
  ghost function Val(m: nat, q: int): real {
    m as real * Two(q)
  }

  /** m * 2^q rescaled to a finer unit. */
  lemma Rescale(m: nat, q: int, n: nat)
    ensures Val(m, q + n) == Val(m * Pow2(n), q)
  {
    hide Two, Pow2;
    TwoAdd(q, n);
    RealOfMul(m, Pow2(n));
    MulThree(m as real, Two(q), Pow2(n) as real);
  }

  lemma MulThree(m: real, t: real, s: real)
    ensures m * (t * s) == m * s * t
  {
  }

  lemma ValOrder(a: nat, b: nat, q: int)
    ensures a < b <==> Val(a, q) < Val(b, q)
    ensures a <= b <==> Val(a, q) <= Val(b, q)
    ensures a == b <==> Val(a, q) == Val(b, q)
  {
    hide Two;
    RealMulStrict(Two(q), a as real, b as real);
  }

  lemma ValAdd(a: nat, b: nat, q: int)
    ensures Val(a + b, q) == Val(a, q) + Val(b, q)
    ensures Val(0, q) == 0.0 && Val(1, q) == Two(q)
  {
    hide Two;
    RealDistribute(a as real, b as real, Two(q));
    assert (a + b) as real == a as real + b as real;
  }

  lemma RealDistribute(a: real, b: real, t: real)
    ensures (a + b) * t == a * t + b * t
  {
  }

  lemma ValMul(a: nat, p: int, b: nat, q: int)
    ensures Val(a, p) * Val(b, q) == Val(a * b, p + q)
  {
    hide Two;
    TwoSum(p, q);
    RealOfMul(a, b);
    MulFour(a as real, Two(p), b as real, Two(q));
  }

  lemma MulFour(a: real, s: real, b: real, t: real)
    ensures (a * s) * (b * t) == (a * b) * (s * t)
  {
    assert (a * s) * (b * t) == a * (s * (b * t));
    assert s * (b * t) == b * (s * t);
    assert a * (b * (s * t)) == (a * b) * (s * t);
  }
}
