/** The two digit recurrences of the softfloat: shift-subtract division and the
    two-bits-per-step square root, both carried to correct rounding. */
module SoftDivide {
  import opened Dyadic
  import opened Words
  import opened Rounding
  import opened SoftFloat

  // ---- division -------------------------------------------------------------

  /** 56 quotient bits on 64-bit words. The doubled remainder wraps; its lost top
      bit is what `top` recovers. */
  method DivideLoop(am: U64, bm: U64) returns (q: U64, rem: U64)
    requires am >= SIGN && bm >= SIGN
    ensures am * Pow2(55) == q * bm + rem && rem < bm
    ensures Pow2(54) <= q < Pow2(56)
  {
    hide Pow2;
    Pow2Words();
    q, rem := 0, am;
    if rem >= bm {
      rem := rem - bm;
      q := 1;
    }
    for i := 0 to 55
      invariant am * Pow2(i) == q * bm + rem && rem < bm && q < 2 * Pow2(i)
    {
      Double(am, Pow2(i), q, bm, rem);
      Pow2Add(i, 1);
      SmallPower(i);
      q, rem := DivideStep(q, rem, bm);
    }
    QuotientBits(am, bm, q, rem);
  }

  /** One quotient bit. */
  method DivideStep(q0: U64, rem0: U64, bm: U64) returns (q: U64, rem: U64)
    requires rem0 < bm && bm >= SIGN && 2 * q0 + 1 < W64
    ensures 2 * q0 * bm + 2 * rem0 == q * bm + rem && rem < bm && q <= 2 * q0 + 1
  {
    var top := rem0 >= SIGN;
    ghost var wrapped := if top then 1 else 0;
    DivUnique(rem0 * 2, W64, wrapped, rem0 * 2 - wrapped * W64);
    SmallMod(q0 * 2, W64);
    rem := rem0 * 2 % W64;
    q := q0 * 2 % W64;
    if top || rem >= bm {
      rem := Sub64(rem, bm);
      q := q + 1;
      assert rem == 2 * rem0 - bm;
      Successor(2 * q0, bm);
    } else {
      assert rem == 2 * rem0;
    }
  }

  lemma Double(am: nat, p: nat, q: nat, bm: nat, rem: nat)
    requires am * p == q * bm + rem
    ensures am * (p * 2) == (2 * q) * bm + 2 * rem
  {
  }

  lemma SmallPower(i: nat)
    requires i < 55
    ensures 4 * Pow2(i) < W64
  {
    hide Pow2;
    Pow2Words();
    Pow2Mono(i, 55);
  }

  /** The quotient of two normalised significands has 55 or 56 bits. */
  lemma QuotientBits(am: nat, bm: nat, q: nat, rem: nat)
    requires SIGN <= am < W64 && SIGN <= bm < W64 && am * Pow2(55) == q * bm + rem && rem < bm
    ensures Pow2(54) <= q < Pow2(56)
  {
    hide Pow2;
    Pow2Words();
    Pow2Add(54, 1);
    Pow2Add(55, 1);
    var h := Pow2(54);
    MulLe(bm, W64, h);
    MulLe(SIGN, am, Pow2(55));
    MulLe(SIGN, bm, Pow2(56));
    MulLe(am + 1, W64, Pow2(55));
    Successor(am, Pow2(55));
    if q < h {
      MulLe(q + 1, h, bm);
    } else if q >= Pow2(56) {
      MulLe(Pow2(56), q, bm);
    }
  }

  /** The exact quotient, as its digits and remainder describe it. */
  lemma QuotientStands(am: U64, ae: int, bm: U64, be: int, q: nat, rem: nat, x: real, lz: nat)
    requires am >= SIGN && bm >= SIGN && am * Pow2(55) == q * bm + rem && rem < bm
    requires lz == 8 || lz == 9
    requires SIGN <= q * Pow2(lz) < W64
    requires x * Val(bm, be - 63) == Val(am, ae - 63)
    ensures Stands(x, q * Pow2(lz), ae - be + 8 - lz, rem != 0, lz)
  {
    hide Val, Pow2;
    var e, u := ae - be - 55, ae - 118;
    var d := Val(bm, be - 63);
    Rescale(am, u, 55);
    ValMul(q, e, bm, be - 63);
    ValMul(q + 1, e, bm, be - 63);
    Successor(q, bm);
    ValOrder(q * bm, am * Pow2(55), u);
    ValOrder(am * Pow2(55), (q + 1) * bm, u);
    PositiveVal(bm, be - 63);
    RealMulStrict(d, Val(q, e), x);
    RealMulStrict(d, x, Val(q + 1, e));
    Rescale(q, e - lz, lz);
    Rescale(q + 1, e - lz, lz);
    Successor(q, Pow2(lz));
    LowOfShifted(q, lz, lz);
  }

  lemma PositiveVal(m: nat, q: int)
    requires m > 0
    ensures Val(m, q) > 0.0
  {
    hide Val;
    ValAdd(0, 0, q);
    ValOrder(0, m, q);
  }

  /** Everything but two finite nonzero operands: NaNs first, then infinities,
      zero divisors and zero dividends. */
  function DivSpecial(fa: U64, fb: U64): (r: R)
    requires Unpack(fa).c != Finite || Unpack(fb).c != Finite
  {
    var a, b := Unpack(fa), Unpack(fb);
    var fl := if a.c == SignallingNaN || b.c == SignallingNaN then {Vxsnan} else {};
    var s := a.s != b.s;
    if IsNaN(a) then R(Quiet(fa), fl)
    else if IsNaN(b) then R(Quiet(fb), fl)
    else if a.c == Infinite then
      if b.c == Infinite then R(QNAN, {Vxidi}) else R(PackInf(s), {})
    else if b.c == Infinite then R(PackZero(s), {})
    else if b.c == Zero then
      if a.c == Zero then R(QNAN, {Vxzdz}) else R(PackInf(s), {Zx})
    else R(PackZero(s), {})
  }

  /** div: for finite nonzero operands the exact quotient, rounded once. */
  method Div(fa: U64, fb: U64, env: Env, t: Tgt) returns (r: R, ghost y: real)
    ensures Unpack(fa).c != Finite || Unpack(fb).c != Finite ==> r == DivSpecial(fa, fb)
    ensures Unpack(fa).c == Finite && Unpack(fb).c == Finite ==>
      Magnitude(fb) > 0.0 &&
      Outcome(t, env, Negative(fa) != Negative(fb), Magnitude(fa) / Magnitude(fb), y, r, {})
  {
    hide Val, Pow2, Magnitude, Negative, Outcome, TopBit, RoundPack, Unpack, Quiet;
    var a, b := Unpack(fa), Unpack(fb);
    y := 0.0;
    if a.c != Finite || b.c != Finite {
      r := DivSpecial(fa, fb);
      return;
    }
    UnpackValue(fa);
    UnpackValue(fb);
    PositiveVal(b.m, b.e - 63);
    var q, rem := DivideLoop(a.m, b.m);
    var lz := 63 - TopBit(q);
    LeadingZeros(q);
    var nsig := Shl64(q, lz);
    var exp := a.e - b.e + (8 - lz);
    r := RoundPack(a.s != b.s, exp, nsig, rem != 0, env, t, {});
    ghost var x := Magnitude(fa) / Magnitude(fb);
    QuotientStands(a.m, a.e, b.m, b.e, q, rem, x, lz);
    y := RoundPackCorrect(x, a.s != b.s, exp, nsig, rem != 0, lz, env, t, {});
  }

  lemma LeadingZeros(q: nat)
    requires Pow2(54) <= q < Pow2(56)
    ensures TopBit(q) == 54 || TopBit(q) == 55
    ensures SIGN <= q * Pow2(63 - TopBit(q)) < W64
    ensures Shl64(q, 63 - TopBit(q)) == q * Pow2(63 - TopBit(q))
  {
    hide Pow2;
    var m := TopBit(q);
    if m < 54 {
      Pow2Mono(m + 1, 54);
    } else if m > 55 {
      Pow2Mono(56, m);
    }
    hide TopBit;
    NormaliseTop(q, m);
    Shl64Exact(q, 63 - m);
  }

  // ---- square root ----------------------------------------------------------

  /** sqrtSig: the integer square root of m * 2^(47 + odd), two radicand bits a step. */
  method SqrtSig(m: U64, odd: bool) returns (q: U64, sticky: bool)
    requires m >= SIGN
    ensures var rad := m * Pow2(if odd then 48 else 47);
      q * q <= rad < (q + 1) * (q + 1) && (sticky <==> q * q != rad)
    ensures Pow2(55) <= q < Pow2(56)
  {
    hide Pow2, Shl128;
    Pow2Words();
    var sh := if odd then 64 else 63;
    var rad := Shl128(U128(0, m), sh);
    ghost var r0 := m * Pow2(sh);
    RadicandFits(m, sh);
    var rem := U128(0, 0);
    q := 0;
    ghost var a := 0;
    for i := 0 to 56
      invariant rad.Ok() && r0 * Pow2(2 * i) == a * W128 + rad.Value()
      invariant rem.hi == 0 && a == q * q + rem.lo && rem.lo <= 2 * q && q < Pow2(i)
    {
      var top2 := rad.hi / 0x4000_0000_0000_0000;
      assert top2 < 4;
      DropTwo(rad);
      FourTimes(r0, i, a, rad.Value());
      Pow2Add(i, 1);
      SmallRoot(i);
      rad := Shl128(rad, 2);
      q, rem := RootStep(q, rem, top2);
      a := 4 * a + top2;
    }
    Squares(q);
    sticky := rem.hi != 0 || rem.lo != 0;
    ValueBound(rad);
    RadicandConsumed(m, sh, r0, a, rad.Value());
    RootBits(q, a, m, odd);
  }

  lemma Squares(q: nat)
    ensures (2 * q + 1) * (2 * q + 1) == 4 * (q * q) + 4 * q + 1 && (2 * q) * (2 * q) == 4 * (q * q)
    ensures (q + 1) * (q + 1) == q * q + 2 * q + 1
  {
  }

  lemma SquareMono(a: nat, b: nat)
    requires a <= b
    ensures a * a <= b * b
  {
    MulLe(a, b, a);
    MulLe(a, b, b);
  }

  /** One digit: append a 1 if 4q + 1 fits the remainder. */
  method RootStep(q: U64, rem: U128, top2: nat) returns (q': U64, rem': U128)
    requires rem.hi == 0 && rem.lo <= 2 * q && top2 < 4 && q < 0x80_0000_0000_0000
    ensures rem'.hi == 0 && rem'.lo <= 2 * q' && (q' == 2 * q || q' == 2 * q + 1)
    ensures 4 * (q * q + rem.lo) + top2 == q' * q' + rem'.lo
  {
    hide Pow2, Shl128, Shl64, Or;
    Squares(q);
    rem' := Shl128Small(rem, 2);
    Pow2Small();
    OrIsSum(rem'.lo, top2, 2);
    OrIsSum(Shl64Small(q, 2), 1, 2);
    rem' := U128(rem'.hi, Or(rem'.lo, top2));
    var trial := Or(Shl64Small(q, 2), 1);
    if Ge128(rem', U128(0, trial)) {
      rem' := Sub128(rem', U128(0, trial));
      q' := 2 * q + 1;
    } else {
      q' := 2 * q;
    }
  }

  /** The top two bits leave, the rest moves up. */
  lemma DropTwo(rad: U128)
    requires rad.Ok()
    ensures var r := Shl128(rad, 2);
      r.Ok() && 4 * rad.Value() == rad.hi / 0x4000_0000_0000_0000 * W128 + r.Value()
  {
    hide Pow2, Shl128;
    Shl128Is(rad, 2);
    Pow2Small();
    var t := rad.hi / 0x4000_0000_0000_0000;
    var low := 4 * (rad.hi % 0x4000_0000_0000_0000) * W64 + 4 * rad.lo;
    assert 4 * rad.Value() == t * W128 + low;
    assert low < W128;
    DivUnique(4 * rad.Value(), W128, t, low);
  }

  lemma FourTimes(r0: nat, i: nat, a: nat, rad: nat)
    requires r0 * Pow2(2 * i) == a * W128 + rad
    ensures r0 * Pow2(2 * (i + 1)) == 4 * a * W128 + 4 * rad
  {
    hide Pow2;
    Pow2Add(2 * i, 2);
    Pow2Small();
    assert 2 * (i + 1) == 2 * i + 2;
    MulAssoc(r0, Pow2(2 * i), 4);
  }

  lemma SmallRoot(i: nat)
    requires i < 56
    ensures Pow2(i) <= 0x80_0000_0000_0000
  {
    hide Pow2;
    Pow2Words();
    Pow2Mono(i, 55);
  }

  /** The shifts of the remainder and the root lose nothing. */
  function Shl128Small(v: U128, n: nat): (r: U128)
    requires n == 2 && v.hi == 0 && v.lo < 0x4000_0000_0000_0000
    ensures r == U128(0, 4 * v.lo) && r == Shl128(v, n)
  {
    ShiftTwo(v.lo);
    Shl128(v, n)
  }

  function Shl64Small(v: nat, n: nat): (r: nat)
    requires n == 2 && v < 0x4000_0000_0000_0000
    ensures r == 4 * v && r == Shl64(v, n)
  {
    ShiftTwo(v);
    Shl64(v, n)
  }

  lemma ShiftTwo(v: nat)
    requires v < 0x4000_0000_0000_0000
    ensures Shl64(v, 2) == 4 * v && Shr(v, 62) == 0 && Shl64(0, 2) == 0
  {
    hide Pow2;
    Pow2Small();
    Pow2Words();
    Pow2Add(62, 2);
    ShrSmall(v, 62);
  }

  lemma RadicandFits(m: U64, sh: nat)
    requires sh == 63 || sh == 64
    ensures Shl128(U128(0, m), sh).Ok() && Shl128(U128(0, m), sh).Value() == m * Pow2(sh)
  {
    hide Pow2, Shl128;
    Shl128Is(U128(0, m), sh);
    Pow2Words();
    MulLe(m + 1, W64, Pow2(sh));
    Successor(m, Pow2(sh));
    SmallMod(m * Pow2(sh), W128);
  }

  lemma ValueBound(v: U128)
    requires v.Ok()
    ensures v.Value() < W128
  {
  }

  /** After 56 steps the whole radicand has moved over. */
  lemma RadicandConsumed(m: U64, sh: nat, r0: nat, a: nat, rad: nat)
    requires sh == 63 || sh == 64
    requires r0 == m * Pow2(sh) && r0 * Pow2(2 * 56) == a * W128 + rad && rad < W128
    ensures a == m * Pow2(sh - 16)
  {
    hide Pow2;
    Pow2Words();
    Pow2Add(64, 64);
    Pow2Add(sh - 16, 16);
    Pow2Add(16, 112);
    var p := Pow2(sh - 16);
    assert m * Pow2(sh) * Pow2(112) == m * p * W128 by {
      MulAssoc(m, p, Pow2(16));
      MulAssoc(m * p, Pow2(16), Pow2(112));
    }
    DivUnique(m * p * W128, W128, m * p, 0);
    DivUnique(m * p * W128, W128, a, rad);
  }

  lemma RootBits(q: nat, a: nat, m: U64, odd: bool)
    requires m >= SIGN && a == m * Pow2(if odd then 48 else 47) && a < (q + 1) * (q + 1)
    ensures q >= Pow2(55)
  {
    hide Pow2;
    Pow2Words();
    var h, n := Pow2(55), if odd then 48 else 47;
    Pow2Add(63, 47);
    Pow2Add(55, 55);
    Pow2Mono(47, n);
    MulLe(Pow2(47), Pow2(n), m);
    MulLe(SIGN, m, Pow2(47));
    if q < h {
      SquareMono(q + 1, h);
    }
  }

  lemma SquareOrder(a: real, b: real)
    requires a >= 0.0 && b >= 0.0
    ensures a < b <==> a * a < b * b
    ensures a == b <==> a * a == b * b
  {
    if a < b {
      SquareStrict(a, b);
    } else if b < a {
      SquareStrict(b, a);
    }
  }

  lemma SquareStrict(a: real, b: real)
    requires 0.0 <= a < b
    ensures a * a < b * b
  {
    var d := b - a;
    assert b * b == a * a + 2.0 * (a * d) + d * d;
    assert a * d >= 0.0;
    assert d * d > 0.0;
  }

  /** The exact root lies between its digits and the next. */
  lemma RootBracket(m: U64, e: int, odd: bool, half: int, q: nat, sticky: bool, s: real)
    requires m >= SIGN && e == 2 * half + (if odd then 1 else 0)
    requires s >= 0.0 && s * s == Val(m, e - 63)
    requires var rad := m * Pow2(if odd then 48 else 47);
      q * q <= rad < (q + 1) * (q + 1) && (sticky <==> q * q != rad)
    ensures Val(q, half - 55) <= s < Val(q + 1, half - 55) && (sticky <==> s != Val(q, half - 55))
  {
    hide Val, Pow2;
    var n, d := if odd then 48 else 47, half - 55;
    var rad := m * Pow2(n);
    Rescale(m, 2 * d, n);
    ValMul(q, d, q, d);
    ValMul(q + 1, d, q + 1, d);
    ValOrder(q * q, rad, 2 * d);
    ValOrder(rad, (q + 1) * (q + 1), 2 * d);
    NonNegative(q, d);
    NonNegative(q + 1, d);
    SquareOrder(Val(q, d), s);
    SquareOrder(s, Val(q + 1, d));
  }

  lemma RootStands(m: U64, e: int, odd: bool, half: int, q: nat, sticky: bool, s: real)
    requires m >= SIGN && e == 2 * half + (if odd then 1 else 0)
    requires s >= 0.0 && s * s == Val(m, e - 63)
    requires var rad := m * Pow2(if odd then 48 else 47);
      q * q <= rad < (q + 1) * (q + 1) && (sticky <==> q * q != rad)
    requires Pow2(55) <= q < Pow2(56)
    ensures Stands(s, q * Pow2(8), half, sticky, 8)
  {
    hide Val, Pow2;
    RootBracket(m, e, odd, half, q, sticky, s);
    var d := half - 55;
    Rescale(q, d - 8, 8);
    Rescale(q + 1, d - 8, 8);
    Successor(q, Pow2(8));
    LowOfShifted(q, 8, 8);
    Pow2Words();
    Pow2Add(55, 8);
    Pow2Add(56, 8);
    MulLe(Pow2(55), q, Pow2(8));
    MulLe(q + 1, Pow2(56), Pow2(8));
  }

  lemma NonNegative(m: nat, q: int)
    ensures Val(m, q) >= 0.0
  {
    hide Val;
    ValAdd(0, 0, q);
    ValOrder(0, m, q);
  }

  /** The square root inside frsqrte, for a positive finite operand: the double
      nearest the exact root s. */
  method SqrtRound(fb: U64, env: Env, ghost s: real) returns (r: R, ghost y: real)
    requires Unpack(fb).c == Finite
    requires s >= 0.0 && s * s == Magnitude(fb)
    ensures Outcome(Dbl, env.(rn := NearestEven), false, s, y, r, {})
  {
    hide Val, Pow2, Magnitude, Negative, Outcome, TopBit, RoundPack, Unpack;
    var b := Unpack(fb);
    UnpackValue(fb);
    var odd := b.e % 2 != 0;
    var half := (b.e - if odd then 1 else 0) / 2;
    var q, sticky := SqrtSig(b.m, odd);
    RootStands(b.m, b.e, odd, half, q, sticky, s);
    Pow2Add(54, 1);
    Pow2Mono(54, 55);
    LeadingZeros(q);
    LeadingEight(q);
    var lz := 63 - TopBit(q);
    r := RoundPack(false, half + (8 - lz), Shl64(q, lz), sticky, env.(rn := NearestEven), Dbl, {});
    y := RoundPackCorrect(s, false, half, Shl64(q, lz), sticky, 8, env.(rn := NearestEven), Dbl, {});
  }

  lemma LeadingEight(q: nat)
    requires Pow2(55) <= q < Pow2(56)
    ensures TopBit(q) == 55
  {
    hide Pow2;
    var m := TopBit(q);
    if m < 55 {
      Pow2Mono(m + 1, 55);
    } else if m > 55 {
      Pow2Mono(56, m);
    }
  }
}
