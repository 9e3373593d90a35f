/** Results no rounding is involved in: NaN operands, invalid operations, infinities
    and zero divisors, as sections 6 and 7 of IEEE 754-2008 give them. */
module SoftSpecial {
  import opened Dyadic
  import opened Words
  import opened SoftFloat
  import opened SoftFma
  import opened SoftDivide

  // ---- classes, by their fields ---------------------------------------------

  predicate Inf(f: U64) {
    Exponent(f) == 2047 && Fraction(f) == 0
  }

  predicate Nought(f: U64) {
    Exponent(f) == 0 && Fraction(f) == 0
  }

  lemma ClassOf(f: U64)
    ensures Unpack(f).s == Negative(f) && (IsNaN(Unpack(f)) <==> Nan(f)) && (Unpack(f).c == SignallingNaN <==> Snan(f))
    ensures (Unpack(f).c == Infinite <==> Inf(f)) && (Unpack(f).c == Zero <==> Nought(f))
    ensures !(Nan(f) && Inf(f)) && !(Nan(f) && Nought(f)) && !(Inf(f) && Nought(f)) && (Snan(f) ==> Nan(f))
  {
    FractionSmall(f);
    assert Pow2(51) == 0x8_0000_0000_0000 by {
      Pow2Words();
      assert Pow2(52) == 2 * Pow2(51);
    }
    var h, fr := 0x8_0000_0000_0000, Fraction(f);
    DivUnique(fr, h, if fr < h then 0 else 1, if fr < h then fr else fr - h);
    hide Pow2, TopBit, Exponent, Fraction, Negative;
  }

  /** g is the NaN f made quiet: its payload and sign are kept. */
  predicate QuietedIs(f: U64, g: U64) {
    && Exponent(g) == Exponent(f) && Negative(g) == Negative(f)
    && Fraction(g) == Fraction(f) + if Snan(f) then 0x8_0000_0000_0000 else 0
  }

  lemma Quieted(f: U64)
    requires Nan(f)
    ensures QuietedIs(f, Quiet(f)) && Nan(Quiet(f)) && !Snan(Quiet(f))
  {
    var h, q, fr := 0x8_0000_0000_0000, f / HIDDEN, f % HIDDEN;
    var b, l := fr / h, fr % h;
    DivMod(f, HIDDEN);
    DivMod(fr, h);
    DivUnique(f, h, 2 * q + b, l);
    if b == 0 {
      DivUnique(f + h, HIDDEN, q, fr + h);
      SameSign(f, f + h, q);
    }
  }

  lemma SameSign(f: U64, g: nat, q: nat)
    requires f / HIDDEN == q == g / HIDDEN
    ensures g < W64 && Negative(g) == Negative(f)
  {
    DivMod(f, HIDDEN);
    DivMod(g, HIDDEN);
    assert SIGN == 2048 * HIDDEN && W64 == 4096 * HIDDEN;
    assert q < 4096;
  }

  /** The words a special result is made of. */
  lemma Packed(s: bool)
    ensures Inf(PackInf(s)) && Negative(PackInf(s)) == s && Nought(PackZero(s)) && Negative(PackZero(s)) == s
    ensures Nan(QNAN) && !Snan(QNAN)
    ensures Unpack(PackInf(s)) == Un(Infinite, s, 0, 0) && Unpack(PackZero(s)) == Un(Zero, s, 0, 0)
  {
    Fields(s, 2047, 0);
    Fields(s, 0, 0);
    Fields(false, 2047, 0x8_0000_0000_0000);
    hide Pow2, Exponent, Fraction, Negative;
  }

  // ---- division -------------------------------------------------------------

  /** 0 / 0 and infinity / infinity. */
  predicate DivInvalid(fa: U64, fb: U64) {
    (Nought(fa) && Nought(fb)) || (Inf(fa) && Inf(fb))
  }

  /** Division without two finite nonzero operands. */
  lemma DivSpecialMeans(fa: U64, fb: U64)
    requires Unpack(fa).c != Finite || Unpack(fb).c != Finite
    ensures var r := DivSpecial(fa, fb);
      && (Vxsnan in r.fl <==> Snan(fa) || Snan(fb))
      && (Vxidi in r.fl <==> Inf(fa) && Inf(fb)) && (Vxzdz in r.fl <==> Nought(fa) && Nought(fb))
      && (Zx in r.fl <==> Nought(fb) && !Nought(fa) && !Inf(fa) && !Nan(fa)) && r.fl <= {Vxsnan, Vxidi, Vxzdz, Zx}
    ensures var r := DivSpecial(fa, fb);
      && (Nan(r.bits) <==> Nan(fa) || Nan(fb) || DivInvalid(fa, fb)) && !Snan(r.bits)
      && (Nan(fa) ==> QuietedIs(fa, r.bits)) && (!Nan(fa) && Nan(fb) ==> QuietedIs(fb, r.bits))
      && (DivInvalid(fa, fb) ==> r.bits == 0x7FF8_0000_0000_0000)
    ensures var r := DivSpecial(fa, fb);
      !Nan(r.bits) ==>
        && Negative(r.bits) == (Negative(fa) != Negative(fb))
        && (Inf(r.bits) <==> Inf(fa) || Nought(fb)) && (Nought(r.bits) <==> Nought(fa) || Inf(fb))
  {
    ClassOf(fa);
    ClassOf(fb);
    Packed(Negative(fa) != Negative(fb));
    if Nan(fa) {
      Quieted(fa);
    } else if Nan(fb) {
      Quieted(fb);
    }
    ClassOf(DivSpecial(fa, fb).bits);
    hide Unpack, Quiet, PackInf, PackZero, Nan, Snan, Inf, Nought, Negative, QuietedIs;
  }

  // ---- fused multiply-add ---------------------------------------------------

  /** Infinity times zero. */
  predicate MulInvalid(fa: U64, fc: U64) {
    (Inf(fa) && Nought(fc)) || (Nought(fa) && Inf(fc))
  }

  /** An infinite product against an infinite addend of the other sign. */
  predicate SumInvalid(fa: U64, fc: U64, fb: U64, hasAddend: bool, negAdd: bool) {
    && !Nan(fa) && !Nan(fc) && (Inf(fa) || Inf(fc)) && !MulInvalid(fa, fc) && hasAddend && Inf(fb)
    && (Negative(fa) != Negative(fc)) != (Negative(fb) != negAdd)
  }

  predicate SomeNan(fa: U64, fc: U64, fb: U64, hasAddend: bool) {
    Nan(fa) || Nan(fc) || (hasAddend && Nan(fb))
  }

  /** negAdd turns an addend's sign over and leaves its class. */
  lemma AddendClass(fb: U64)
    ensures Nan(FlipSign(fb)) == Nan(fb) && Snan(FlipSign(fb)) == Snan(fb) && Inf(FlipSign(fb)) == Inf(fb)
    ensures Nought(FlipSign(fb)) == Nought(fb) && Negative(FlipSign(fb)) == !Negative(fb)
  {
    FlipFields(fb);
    hide Exponent, Fraction, Negative, FlipSign;
  }

  /** a * c + b with an infinity or a NaN: which exceptions are raised. */
  lemma FmaSpecialFlags(fa: U64, fc: U64, fb: U64, hasAddend: bool, negAdd: bool, negResult: bool)
    requires !(Ordinary(fa) && Ordinary(fc) && (hasAddend ==> Ordinary(fb)))
    ensures var r := FmaSpecial(fa, fc, fb, hasAddend, negAdd, negResult);
      && (Vxsnan in r.fl <==> Snan(fa) || Snan(fc) || (hasAddend && Snan(fb))) && (Vximz in r.fl <==> MulInvalid(fa, fc))
      && (Vxisi in r.fl <==> SumInvalid(fa, fc, fb, hasAddend, negAdd)) && r.fl <= {Vxsnan, Vximz, Vxisi}
  {
    ClassOf(fa);
    ClassOf(fc);
    ClassOf(fb);
    ClassOf(FlipSign(fb));
    AddendClass(fb);
    hide Unpack, Quiet, PackInf, PackZero, Nan, Snan, Inf, Nought, Negative, FlipSign;
  }

  /** And what is delivered: the first NaN of a, b and c made quiet; the default NaN
      for an invalid operation; otherwise an infinity with the sum's sign. */
  lemma FmaSpecialMeans(fa: U64, fc: U64, fb: U64, hasAddend: bool, negAdd: bool, negResult: bool)
    requires !(Ordinary(fa) && Ordinary(fc) && (hasAddend ==> Ordinary(fb)))
    ensures var r := FmaSpecial(fa, fc, fb, hasAddend, negAdd, negResult);
      && (Nan(fa) ==> QuietedIs(fa, r.bits)) && (!Nan(fa) && hasAddend && Nan(fb) ==> QuietedIs(fb, r.bits))
      && (!Nan(fa) && !(hasAddend && Nan(fb)) && Nan(fc) ==> QuietedIs(fc, r.bits)) && !Snan(r.bits)
      && (!SomeNan(fa, fc, fb, hasAddend) && (MulInvalid(fa, fc) || SumInvalid(fa, fc, fb, hasAddend, negAdd)) ==>
            r.bits == 0x7FF8_0000_0000_0000)
    ensures var r := FmaSpecial(fa, fc, fb, hasAddend, negAdd, negResult);
      !SomeNan(fa, fc, fb, hasAddend) && !MulInvalid(fa, fc) && !SumInvalid(fa, fc, fb, hasAddend, negAdd) ==>
        var sign := if Inf(fa) || Inf(fc) then Negative(fa) != Negative(fc) else Negative(fb) != negAdd;
        Inf(r.bits) && Negative(r.bits) == (sign != negResult)
  {
    ClassOf(fa);
    ClassOf(fc);
    ClassOf(fb);
    ClassOf(FlipSign(fb));
    AddendClass(fb);
    Packed(true);
    Packed(false);
    if Nan(fa) {
      Quieted(fa);
    } else if hasAddend && Nan(fb) {
      Quieted(fb);
    } else if Nan(fc) {
      Quieted(fc);
    }
    ClassOf(FmaSpecial(fa, fc, fb, hasAddend, negAdd, negResult).bits);
    hide Unpack, Quiet, PackInf, PackZero, Nan, Snan, Inf, Nought, Negative, FlipSign, QuietedIs;
  }
}
