/** fcmp compares bit patterns; this is why it orders the values they denote. */
module FcmpOrder {
  import opened Dyadic
  import opened Words
  import opened SoftFloat
  import opened Fpscr

  lemma Parts(f: U64)
    ensures f % SIGN == Exponent(f) * HIDDEN + Fraction(f) && Fraction(f) < HIDDEN && Exponent(f) <= 2047
  {
  }

  /** The magnitude as one significand and exponent, denormals included. */
  lemma Spelled(e: nat, m: nat) returns (s: nat, q: int)
    requires m < HIDDEN
    ensures s < 2 * HIDDEN && (e > 0 ==> s >= HIDDEN) && (e == 0 ==> s < HIDDEN)
    ensures s == (if e == 0 then m else HIDDEN + m) && q == (if e == 0 then 1 else e) - 1075
  {
    s, q := if e == 0 then m else HIDDEN + m, (if e == 0 then 1 else e) - 1075;
  }

  lemma Sized(f: U64, s: nat, q: int)
    requires s == (if Exponent(f) == 0 then Fraction(f) else HIDDEN + Fraction(f))
    requires q == (if Exponent(f) == 0 then 1 else Exponent(f)) - 1075
    ensures Magnitude(f) == Val(s, q)
  {
    hide Val, Exponent, Fraction;
  }

  /** A larger exponent field is a larger magnitude. */
  lemma LargerExponent(s: nat, q: int, s': nat, q': int)
    requires q < q' && s < 2 * HIDDEN && s' >= HIDDEN
    ensures Val(s, q) < Val(s', q')
  {
    hide Val, Two;
    var n := q' - q;
    assert s' * Pow2(n) >= 2 * HIDDEN by {
      Pow2Mono(1, n);
      assert Pow2(1) == 2;
      hide Pow2;
      MulLe(HIDDEN, s', Pow2(n));
      MulLe(2, Pow2(n), HIDDEN);
    }
    Rescale(s', q, n);
    ValOrder(s, s' * Pow2(n), q);
  }

  /** Patterns without their sign bit are ordered as their magnitudes. */
  lemma MagnitudeOrder(a: U64, b: U64)
    requires IsFinite(a) && IsFinite(b)
    ensures a % SIGN < b % SIGN ==> Magnitude(a) < Magnitude(b)
    ensures a % SIGN == b % SIGN ==> Magnitude(a) == Magnitude(b)
  {
    Parts(a);
    Parts(b);
    hide Val, Exponent, Fraction, Magnitude;
    var s, q := Spelled(Exponent(a), Fraction(a));
    var s', q' := Spelled(Exponent(b), Fraction(b));
    Sized(a, s, q);
    Sized(b, s', q');
    FieldOrder(Exponent(a), Fraction(a), Exponent(b), Fraction(b));
    if q < q' {
      LargerExponent(s, q, s', q');
    } else if q == q' {
      ValOrder(s, s', q);
    }
  }

  lemma FieldOrder(e: nat, m: nat, e': nat, m': nat)
    requires m < HIDDEN && m' < HIDDEN
    ensures e * HIDDEN + m < e' * HIDDEN + m' <==> e < e' || (e == e' && m < m')
    ensures e * HIDDEN + m == e' * HIDDEN + m' <==> e == e' && m == m'
  {
  }

  lemma ZeroMagnitude(f: U64)
    requires IsFinite(f)
    ensures f % SIGN == 0 ==> Magnitude(f) == 0.0
    ensures f % SIGN != 0 ==> Magnitude(f) > 0.0
  {
    hide Val, Exponent, Fraction, Magnitude;
    ZeroIs();
    MagnitudeOrder(0, f);
  }

  lemma ZeroIs()
    ensures Exponent(0) == 0 && Fraction(0) == 0 && IsFinite(0) && Magnitude(0) == 0.0
  {
    hide Val;
    ValAdd(0, 0, -1074);
  }

  /** For finite operands fcmp answers by the order of the values, minus zero
      equal to plus zero. */
  lemma FcmpOrders(a: U64, b: U64)
    requires IsFinite(a) && IsFinite(b)
    ensures Fcmp(a, b) == if Signed(a) < Signed(b) then Less else if Signed(a) > Signed(b) then Greater else Equal
  {
    hide Magnitude, Exponent, Fraction, Negative;
    MagnitudeOrder(a, b);
    MagnitudeOrder(b, a);
    ZeroMagnitude(a);
    ZeroMagnitude(b);
  }

  /** And it answers Unordered exactly when an operand is a NaN. */
  lemma FcmpUnordered(a: U64, b: U64)
    ensures Fcmp(a, b) == Unordered <==> IsNaN(Unpack(a)) || IsNaN(Unpack(b))
  {
    hide Exponent, Fraction, Negative, Pow2, TopBit;
  }

  // ---- FPRF -----------------------------------------------------------------

  /** The least magnitude that is not denormal: 2^-1022, or 2^-126 for a single. */
  ghost function Least(sgl: bool): real {
    Val(1, if sgl then -126 else -1022)
  }

  /** Its pattern. */
  lemma LeastIs(e: nat, sgl: bool)
    requires e == if sgl then 897 else 1
    ensures e * HIDDEN < SIGN && IsFinite(e * HIDDEN) && (e * HIDDEN) % SIGN == e * HIDDEN && Magnitude(e * HIDDEN) == Least(sgl)
  {
    hide Val, Two;
    var f: U64 := e * HIDDEN;
    assert Exponent(f) == e && Fraction(f) == 0;
    assert HIDDEN == Pow2(52) by {
      Pow2Words();
    }
    Rescale(1, e - 1075, 52);
    hide Pow2;
  }

  /** What the five FPRF bits say of a result: C, then less, greater, equal to zero,
      and unordered or infinite. */
  lemma ClassifyMeans(v: U64, sgl: bool)
    ensures var r := Classify(v, sgl);
      && (r[4] <==> !IsFinite(v))
      && (IsFinite(v) ==>
            && (r[1] <==> Signed(v) < 0.0) && (r[2] <==> Signed(v) > 0.0) && (r[3] <==> Signed(v) == 0.0)
            && (r[0] <==> 0.0 < Magnitude(v) < Least(sgl) || (Signed(v) == 0.0 && Negative(v))))
      && (IsNaN(Unpack(v)) ==> r[..4] == [true, false, false, false])
      && (!IsFinite(v) && !IsNaN(Unpack(v)) ==> r[..4] == [false, Negative(v), !Negative(v), false])
  {
    var lo := if sgl then 897 else 1;
    Parts(v);
    assert IsNaN(Unpack(v)) <==> Exponent(v) == 0x7FF && Fraction(v) != 0 by {
      hide Exponent, Fraction, Negative, Pow2, TopBit;
    }
    hide Magnitude, Exponent, Fraction, Negative, Unpack, Least;
    if IsFinite(v) {
      LeastIs(lo, sgl);
      MagnitudeOrder(v, lo * HIDDEN);
      MagnitudeOrder(lo * HIDDEN, v);
      ZeroMagnitude(v);
      FieldOrder(Exponent(v), Fraction(v), lo, 0);
    }
  }
}
