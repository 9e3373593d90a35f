/** fnmadd and fnmsub. The comment over fmaCore promises the rounded sum, negated;
    the code negates first and rounds then. The two orders give the same word and
    flags except where this module says. */
module SoftNegate {
  import opened Dyadic
  import opened Words
  import opened Rounding
  import opened SoftFloat
  import opened SoftFma

  /** x has no more digits than the target's precision. */
  ghost predicate Short(t: Tgt, x: real) {
    exists m: nat, q: int :: Spelled(t, m, q, x)
  }

  ghost predicate Spelled(t: Tgt, m: nat, q: int, x: real) {
    m < Pow2(FormatOf(t).p) && x == Val(m, q)
  }

  /** The magnitude v comes out the same under either sign of a directed mode: it
      is exact, and no overflow makes the mode choose between infinity and the
      largest number. */
  ghost predicate Signless(t: Tgt, env: Env, v: real) {
    if env.ue && v < Two(FormatOf(t).emin) then Short(t, v)
    else Representable(FormatOf(t), v) && (env.oe || v <= MaxFinite(FormatOf(t)))
  }

  /** The exponent of w carries out of its field, onto the sign. */
  ghost predicate Carried(w: real) {
    exists e: int :: CarriedAt(w, e)
  }

  ghost predicate CarriedAt(w: real, e: int) {
    e >= 1024 && Two(e) <= w < Two(e + 1) && (e + 1023) / 2048 % 2 == 1
  }

  /** An adjusted overflow whose exponent overwrites the sign. */
  ghost predicate SignLost(t: Tgt, env: Env, v: real, y: real) {
    && env.oe && !(env.ue && v < Two(FormatOf(t).emin)) && y > MaxFinite(FormatOf(t))
    && Scaled(y, -Scale(t)) >= Two(1024) && Carried(Scaled(y, -Scale(t)))
  }

  predicate Negation(r: R, n: R) {
    n == R(FlipSign(r.bits), r.fl)
  }

  // ---- words ----------------------------------------------------------------

  lemma ValueFlips(r: R, n: R, sign: bool, v: real)
    requires HasValue(r, sign, v) && HasValue(n, !sign, v)
    ensures n.bits == FlipSign(r.bits)
  {
    hide Magnitude, Negative, Exponent, Fraction, FlipSign;
    FlipFields(r.bits);
    FlipSignIs(r.bits);
    DoubleUnique(n.bits, FlipSign(r.bits));
  }

  lemma InfinityFlips(sign: bool)
    ensures PackInf(!sign) == FlipSign(PackInf(sign))
  {
  }

  lemma OverrunFlips(f: U64, g: U64, sign: bool, w: real)
    requires Overrun(f, sign, w) && Overrun(g, !sign, w)
    ensures g == FlipSign(f) <==> !Carried(w)
  {
    hide Val, Two, Pow2, Negative, Exponent, Fraction, FlipSign;
    var e: int :| OverrunAt(f, sign, w, e);
    var e': int :| OverrunAt(g, !sign, w, e');
    OneBinade(w, e, e');
    ValOrder(HIDDEN + Fraction(f), HIDDEN + Fraction(g), e - 52);
    FlipFields(f);
    if (e + 1023) / 2048 % 2 == 1 {
      assert CarriedAt(w, e);
    } else {
      FieldsUnique(g, FlipSign(f));
      if Carried(w) {
        var c: int :| CarriedAt(w, c);
        OneBinade(w, e, c);
      }
    }
  }

  lemma OneBinade(w: real, a: int, b: int)
    requires Two(a) <= w < Two(a + 1) && Two(b) <= w < Two(b + 1)
    ensures a == b
  {
    hide Two;
    if a < b {
      TwoMono(a + 1, b);
    } else if b < a {
      TwoMono(b + 1, a);
    }
  }

  // ---- roundings ------------------------------------------------------------

  /** Below any positive number lies a power of two. */
  lemma LowEnough(z: real) returns (e: int)
    requires z > 0.0
    ensures Two(e) <= z
  {
    hide Two, Pow2;
    var i := 1.0 / z;
    assert i * z == 1.0;
    var n: nat := i.Floor + 1;
    PowAbove(n);
    TwoCases(0 - n);
    e := 0 - n;
    RealMulStrict(z, i, Pow2(n) as real);
    RealMulStrict(Pow2(n) as real, Two(e), z);
  }

  lemma {:induction false} PowAbove(n: nat)
    ensures Pow2(n) > n
    decreases n
  {
    if n > 0 {
      PowAbove(n - 1);
    }
  }

  /** With the exponent unbounded, representable means short. */
  lemma ShortFreely(t: Tgt, x: real, s: int, e: int)
    requires Two(e) <= Scaled(x, s)
    ensures Representable(Free(t, e), Scaled(x, s)) <==> Short(t, x)
  {
    hide Val, Two, Pow2, Scaled;
    var f, z := Free(t, e), Scaled(x, s);
    if Representable(f, z) {
      var m: nat, q: int :| Spells(f, m, q, z);
      ValScaled(m, q - s, s);
      ScaledOrder(x, Val(m, q - s), s);
      assert Spelled(t, m, q - s, x);
    }
    if Short(t, x) {
      var m: nat, q: int :| Spelled(t, m, q, x);
      ValScaled(m, q, s);
      HighEnough(f.p, m, q + s, e);
      assert Spells(f, m, q + s, z);
    }
  }

  lemma HighEnough(p: nat, m: nat, q: int, e: int)
    requires m < Pow2(p) && Two(e) <= Val(m, q)
    ensures q >= e - p + 1
  {
    hide Val, Two, Pow2;
    if q < e - p + 1 {
      Rescale(1, q, p);
      ValAdd(0, 1, q + p);
      ValOrder(m, Pow2(p), q);
      TwoMono(q + p, e);
    }
  }

  lemma AgreeOn(f: Format, rn: Mode, sign: bool, z: real, y: real, y': real)
    requires Sized(f) && Correct(f, rn, sign, z, y) && Correct(f, rn, !sign, z, y')
    ensures (y == y' <==> !Directed(rn) || Representable(f, z)) && (Representable(f, z) ==> y == z)
    ensures y != y' ==> y < z < y' || y' < z < y
  {
    hide Representable;
    ExactStays(f, rn, sign, z, y);
    if Directed(rn) {
      SignsAgree(f, rn, sign, z, y, y');
      ExactStays(f, rn, !sign, z, y');
    } else {
      RoundingUnique(f, rn, sign, !sign, z, y, y');
    }
  }

  /** The two orders round to one number exactly when the mode has no direction or
      the magnitude is exact. */
  lemma RoundingsAgree(t: Tgt, env: Env, sign: bool, v: real, y: real, r: R, y': real, n: R)
    requires v > 0.0 && Outcome(t, env, sign, v, y, r, {}) && Outcome(t, env, !sign, v, y', n, {})
    ensures var exact := if env.ue && v < Two(FormatOf(t).emin) then Short(t, v) else Representable(FormatOf(t), v);
      && (y == y' <==> !Directed(env.rn) || exact)
      && (exact ==> y == ToRound(t, env, v))
      && (y != y' ==> y < ToRound(t, env, v) < y' || y' < ToRound(t, env, v) < y)
  {
    hide Short, Representable, Correct, Two, Scaled, InRange, Overflowed, HasValue;
    if env.ue && v < Two(FormatOf(t).emin) {
      ScaledOrder(0.0, v, Scale(t));
      ScaledMinus(0.0, 0.0, Scale(t));
      var e := LowEnough(Scaled(v, Scale(t)));
      AgreeOn(Free(t, e), env.rn, sign, Scaled(v, Scale(t)), y, y');
      ShortFreely(t, v, Scale(t), e);
    } else {
      AgreeOn(FormatOf(t), env.rn, sign, v, y, y');
    }
  }

  /** A different rounding shows in the flags. */
  lemma FlagsDiffer(t: Tgt, env: Env, sign: bool, v: real, y: real, r: R, y': real, n: R)
    requires Directed(env.rn) && Outcome(t, env, sign, v, y, r, {}) && Outcome(t, env, !sign, v, y', n, {})
    requires y < ToRound(t, env, v) < y' || y' < ToRound(t, env, v) < y
    ensures r.fl != n.fl
  {
    hide Freely, HasValue, Overrun, Flushed, Chopped, Scaled, Two, MaxFinite, Representable, NeverUp;
    InfinityMeans(FormatOf(t), env.rn, sign);
    InfinityMeans(FormatOf(t), env.rn, !sign);
  }

  /** With one rounding, the words are negations unless the mode chose between
      infinity and the largest number or a carry overwrote the sign. */
  lemma WordsFlip(t: Tgt, env: Env, sign: bool, v: real, y: real, r: R, n: R)
    requires Outcome(t, env, sign, v, y, r, {}) && Outcome(t, env, !sign, v, y, n, {})
    ensures var tiny, over := env.ue && v < Two(FormatOf(t).emin), y > MaxFinite(FormatOf(t));
      Negation(r, n) <==> !SignLost(t, env, v, y) && (tiny || !over || env.oe || !Directed(env.rn))
  {
    hide Freely, Correct, HasValue, Overrun, Flushed, Chopped, Scaled, Two, MaxFinite, Carried, FlipSign, PackInf, NeverUp;
    InfinityMeans(FormatOf(t), env.rn, sign);
    InfinityMeans(FormatOf(t), env.rn, !sign);
    var w := Scaled(y, -Scale(t));
    if env.ue && v < Two(FormatOf(t).emin) {
      ValueFlips(r, n, sign, Flushed(t, env, Chopped(y)));
    } else if y <= MaxFinite(FormatOf(t)) {
      ValueFlips(r, n, sign, Flushed(t, env, y));
    } else if env.oe {
      if w < Two(1024) {
        ValueFlips(r, n, sign, w);
      } else {
        OverrunFlips(r.bits, n.bits, sign, w);
      }
    } else if !Directed(env.rn) {
      InfinityFlips(sign);
      if env.rn == TowardZero {
        ValueFlips(r, n, sign, MaxFinite(FormatOf(t)));
      }
    }
  }

  /** Negating first is negating last, word and flags, exactly when ... */
  lemma NegationIff(t: Tgt, env: Env, sign: bool, v: real, y: real, r: R, y': real, n: R)
    requires v > 0.0 && Outcome(t, env, sign, v, y, r, {}) && Outcome(t, env, !sign, v, y', n, {})
    ensures Negation(r, n) <==> (Directed(env.rn) ==> Signless(t, env, v)) && !SignLost(t, env, v, y)
  {
    hide Outcome, Short, Representable, SignLost, MaxFinite, Two, Scaled, FlipSign;
    RoundingsAgree(t, env, sign, v, y, r, y', n);
    if y == y' {
      WordsFlip(t, env, sign, v, y, r, n);
    } else {
      FlagsDiffer(t, env, sign, v, y, r, y', n);
    }
  }

  /** NI can hide the difference in the word, though not in the flags: both
      roundings flush to zero. */
  lemma FlushedAlike(t: Tgt, env: Env, sign: bool, v: real, y: real, r: R, y': real, n: R)
    requires Outcome(t, env, sign, v, y, r, {}) && Outcome(t, env, !sign, v, y', n, {})
    requires env.ni && !(env.ue && v < Two(FormatOf(t).emin)) && y < Two(FormatOf(t).emin) && y' < Two(FormatOf(t).emin)
    ensures n.bits == FlipSign(r.bits)
  {
    hide Correct, HasValue, Two, MaxFinite, FlipSign, Overflowed;
    FiniteRange(t);
    ValueFlips(r, n, sign, 0.0);
  }

  lemma FiniteRange(t: Tgt)
    ensures Two(FormatOf(t).emin) <= MaxFinite(FormatOf(t))
  {
    OneInside(FormatOf(t));
  }

  // ---- fmaCore with and without negResult ------------------------------------

  lemma QuietNaN(f: U64)
    requires IsNaN(Unpack(f))
    ensures IsNaN(Unpack(Quiet(f)))
  {
    hide Pow2, TopBit, Exponent, Fraction;
    NaNFields(f);
    QuietFields(f);
    NaNFields(Quiet(f));
  }

  lemma NaNFields(f: U64)
    ensures IsNaN(Unpack(f)) <==> Nan(f)
  {
    hide Pow2, TopBit, Exponent, Fraction;
  }

  lemma QuietFields(f: U64)
    ensures Exponent(Quiet(f)) == Exponent(f) && (Fraction(f) != 0 ==> Fraction(Quiet(f)) != 0)
  {
    var h, q, fr := 0x8_0000_0000_0000, f / HIDDEN, f % HIDDEN;
    var b, l := fr / h, fr % h;
    DivMod(f, HIDDEN);
    DivMod(fr, h);
    DivUnique(f, h, 2 * q + b, l);
    if b == 0 {
      DivUnique(f + h, HIDDEN, q, fr + h);
    }
  }

  /** NaN results are left alone, infinities negated. */
  lemma SpecialNegation(fa: U64, fc: U64, fb: U64, hasAddend: bool, negAdd: bool)
    ensures var r, n := FmaSpecial(fa, fc, fb, hasAddend, negAdd, false), FmaSpecial(fa, fc, fb, hasAddend, negAdd, true);
      if IsNaN(Unpack(r.bits)) then n == r else Negation(r, n)
  {
    hide Pow2, TopBit, Quiet, FlipSign, PackInf, Unpack;
    var fb0 := if hasAddend && negAdd then FlipSign(fb) else fb;
    SpecialWords();
    if IsNaN(Unpack(fa)) {
      QuietNaN(fa);
    } else if hasAddend && IsNaN(Unpack(fb0)) {
      FlippedNaN(fb);
      QuietNaN(fb);
    } else if IsNaN(Unpack(fc)) {
      QuietNaN(fc);
    }
    InfinityFlips(true);
    InfinityFlips(false);
  }

  lemma FlippedNaN(f: U64)
    ensures IsNaN(Unpack(FlipSign(f))) <==> IsNaN(Unpack(f))
  {
    hide Exponent, Fraction, FlipSign, Unpack;
    FlipFields(f);
    NaNFields(f);
    NaNFields(FlipSign(f));
  }

  lemma SpecialWords()
    ensures IsNaN(Unpack(QNAN)) && !IsNaN(Unpack(PackInf(false))) && !IsNaN(Unpack(PackInf(true)))
  {
    hide Unpack, Exponent, Fraction, Negative;
    NaNFields(QNAN);
    NaNFields(PackInf(false));
    NaNFields(PackInf(true));
    Fields(false, 0x7FF, 0x8_0000_0000_0000);
    Fields(false, 0x7FF, 0);
    Fields(true, 0x7FF, 0);
  }

  /** The same operands with and without negResult. Exact zeros and infinities are
      always negated and NaNs never; any other result is negated, word and flags,
      exactly when the mode has no direction or the exact magnitude needs no
      rounding at all, and no carry overwrote the sign. */
  method NegatedFma(fa: U64, fc: U64, fb: U64, hasAddend: bool, negAdd: bool, env: Env, t: Tgt)
    returns (r: R, n: R, ghost y: real)
    ensures !(Ordinary(fa) && Ordinary(fc) && (hasAddend ==> Ordinary(fb))) ==>
      if IsNaN(Unpack(r.bits)) then n == r else Negation(r, n)
    ensures Ordinary(fa) && Ordinary(fc) && (hasAddend ==> Ordinary(fb)) ==>
      var x, v := Exact(fa, fc, fb, hasAddend, negAdd), Seen(fa, fc, fb, hasAddend, negAdd);
      if x == 0.0 then Negation(r, n)
      else
        && Outcome(t, env, x < 0.0, v, y, r, {})
        && (Negation(r, n) <==>
              && (Directed(env.rn) ==> !(hasAddend && DropsBits(fa, fc, fb, true, negAdd)) && Signless(t, env, Abs(x)))
              && !SignLost(t, env, v, y))
    ensures hasAddend && DropsBits(fa, fc, fb, true, negAdd) ==>
      var (d, e) := CoarseOf(fa, fc, fb, negAdd);
      Dropped(Exact(fa, fc, fb, true, negAdd), d, e, false, env, t, y, r)
  {
    hide *;
    y := 0.0;
    if !(Ordinary(fa) && Ordinary(fc) && (hasAddend ==> Ordinary(fb))) {
      ghost var y';
      r, y := FmaCore(fa, fc, fb, hasAddend, negAdd, false, env, t);
      n, y' := FmaCore(fa, fc, fb, hasAddend, negAdd, true, env, t);
      SpecialNegation(fa, fc, fb, hasAddend, negAdd);
      return;
    }
    ghost var y';
    r, y := FmaRounded(fa, fc, fb, hasAddend, negAdd, false, env, t);
    n, y' := FmaRounded(fa, fc, fb, hasAddend, negAdd, true, env, t);
    ghost var x, v := Exact(fa, fc, fb, hasAddend, negAdd), Seen(fa, fc, fb, hasAddend, negAdd);
    RoundedNegation(x, v, ZeroSign(fa, fc, fb, hasAddend, negAdd, env.rn), env, t, y, r, y', n);
  }

  lemma RoundedNegation(x: real, v: real, zeroSign: bool, env: Env, t: Tgt, y: real, r: R, y': real, n: R)
    requires Rounded(x, v, zeroSign, false, env, t, y, r) && Rounded(x, v, zeroSign, true, env, t, y', n)
    requires x != 0.0 ==> v > 0.0
    ensures x == 0.0 ==> Negation(r, n)
    ensures x != 0.0 ==> Outcome(t, env, x < 0.0, v, y, r, {})
    ensures x != 0.0 ==> (Negation(r, n) <==> (Directed(env.rn) ==> Signless(t, env, v)) && !SignLost(t, env, v, y))
    ensures x != 0.0 && y != ToRound(t, env, v) ==> !Signless(t, env, v)
  {
    hide Outcome, Signless, SignLost, FlipSign, ToRound;
    if x != 0.0 {
      NegationIff(t, env, x < 0.0, v, y, r, y', n);
      InexactNotSignless(t, env, x < 0.0, v, y, r, y', n);
    } else {
      ZeroFlips(zeroSign);
    }
  }

  lemma ZeroFlips(sign: bool)
    ensures PackZero(!sign) == FlipSign(PackZero(sign))
  {
  }

  lemma InexactNotSignless(t: Tgt, env: Env, sign: bool, v: real, y: real, r: R, y': real, n: R)
    requires v > 0.0 && Outcome(t, env, sign, v, y, r, {}) && Outcome(t, env, !sign, v, y', n, {})
    ensures y != ToRound(t, env, v) ==> !Signless(t, env, v)
  {
    hide Outcome, Short, Representable, MaxFinite, Two, Scaled;
    RoundingsAgree(t, env, sign, v, y, r, y', n);
  }

  // ---- a witness ------------------------------------------------------------

  /** 2^-60. */
  const SMALL: U64 := 0x3C30_0000_0000_0000

  /** -(1.0 * 1.0 + 2^-60) toward plus infinity. The sum alone rounds up, so its
      negation is -(1.0 + 2^-52); the code returns -1.0. */
  method FnmaddTowardPlus() returns (r: R, n: R)
    ensures r == R(ONE + 1, {Xx, Fr}) && n == R(ONE + SIGN, {Xx})
  {
    hide Exact, ZeroSign, Rounded, Ordinary, DropsBits, CoarseOf, Seen, Dropped, Two, Val, Outcome;
    var env := Env(TowardPlus, false, false, false);
    ghost var y, y';
    SmallSum();
    r, y := FmaRounded(ONE, ONE, SMALL, true, false, false, env, Dbl);
    n, y' := FmaRounded(ONE, ONE, SMALL, true, false, true, env, Dbl);
    ghost var x := Exact(ONE, ONE, SMALL, true, false);
    RoundedUp(x, ZeroSign(ONE, ONE, SMALL, true, false, TowardPlus), env, y, r);
    RoundedDown(x, ZeroSign(ONE, ONE, SMALL, true, false, TowardPlus), env, y', n);
  }

  lemma SmallFields()
    ensures Exponent(SMALL) == 963 && Fraction(SMALL) == 0 && !Negative(SMALL)
    ensures Exponent(ONE + 1) == 1023 && Fraction(ONE + 1) == 1 && !Negative(ONE + 1)
  {
  }

  lemma SmallSum()
    ensures 1.0 < Exact(ONE, ONE, SMALL, true, false) < Val(HIDDEN + 1, -52)
    ensures Ordinary(ONE) && Ordinary(SMALL) && !DropsBits(ONE, ONE, SMALL, true, false)
  {
    hide Val, Pow2, Two, Exponent, Fraction, Negative, Magnitude, IsFinite, TopBit;
    WitnessFields();
    SmallFields();
    OneIs();
    PowerIs(SMALL, -60);
    TwoStep(-61);
    TwoMono(-60, -53);
    TwoStep(-53);
    JustOverOne();
    hide Lost, FlipSign;
  }

  lemma JustOverOne()
    ensures Val(HIDDEN, -52) == 1.0 && Val(HIDDEN + 1, -52) == 1.0 + Two(-52)
  {
    hide Val, Pow2, Two;
    Pow2Words();
    Rescale(1, -52, 52);
    ValUnit(1);
    ValAdd(HIDDEN, 1, -52);
  }

  /** The doubles next to a number just over one. */
  lemma NextToOne(x: real, y: real)
    requires 1.0 < x < Val(HIDDEN + 1, -52)
    ensures RoundsDown(DOUBLE, x, y) ==> y == 1.0
    ensures RoundsUp(DOUBLE, x, y) ==> y == Val(HIDDEN + 1, -52)
    ensures 1.0 <= MaxFinite(DOUBLE) && Val(HIDDEN + 1, -52) <= MaxFinite(DOUBLE) && Two(-1022) <= 1.0
  {
    hide Val, Pow2, Two, MaxFinite, EvenIn;
    Pow2Words();
    JustOverOne();
    OneInside(DOUBLE);
    OverflowTest(DOUBLE, HIDDEN + 1, 0);
    assert OnGrid(DOUBLE, HIDDEN, -52);
    GridPoint(DOUBLE, HIDDEN, -52);
    NextPoint(DOUBLE, HIDDEN, -52);
    hide Representable;
    if Representable(DOUBLE, y) {
      NothingBetween(DOUBLE, HIDDEN, -52, y);
    }
  }

  lemma RoundedUp(x: real, zeroSign: bool, env: Env, y: real, r: R)
    requires 1.0 < x < Val(HIDDEN + 1, -52) && env == Env(TowardPlus, false, false, false)
    requires Rounded(x, Abs(x), zeroSign, false, env, Dbl, y, r)
    ensures r == R(ONE + 1, {Xx, Fr})
  {
    hide Val, Two, MaxFinite, RoundsUp, RoundsDown, Magnitude, Negative, Exponent, Fraction, Overflowed;
    NextToOne(x, y);
    SmallFields();
    assert Magnitude(ONE + 1) == Val(HIDDEN + 1, -52) by {
      DoubleOnGrid(ONE + 1);
    }
    DoubleUnique(r.bits, ONE + 1);
  }

  lemma RoundedDown(x: real, zeroSign: bool, env: Env, y: real, r: R)
    requires 1.0 < x < Val(HIDDEN + 1, -52) && env == Env(TowardPlus, false, false, false)
    requires Rounded(x, Abs(x), zeroSign, true, env, Dbl, y, r)
    ensures r == R(ONE + SIGN, {Xx})
  {
    hide Val, Two, MaxFinite, RoundsUp, RoundsDown, Magnitude, Negative, Exponent, Fraction, Overflowed;
    NextToOne(x, y);
    OneIs();
    FlipFields(ONE);
    FlipSignIs(ONE);
    DoubleUnique(r.bits, FlipSign(ONE));
  }
}
