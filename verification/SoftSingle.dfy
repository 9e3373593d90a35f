/** Single-precision loads and stores (PEM D.6 and D.7): the load is exact, and a
    store takes every loaded single back to its own bits. */
module SoftSingle {
  import opened Units
  import opened Dyadic
  import opened Words
  import opened SoftFloat

  const SGL_SIGN: nat := 0x8000_0000
  const SGL_HIDDEN: nat := 0x80_0000

  function Exponent8(w: Word): (e: nat)
    ensures e < 256
  {
    w / SGL_HIDDEN % 256
  }

  function Fraction23(w: Word): (f: nat)
    ensures f < SGL_HIDDEN
  {
    w % SGL_HIDDEN
  }

  function Negative32(w: Word): bool {
    w >= SGL_SIGN
  }

  /** The magnitude a finite single denotes. */
  ghost function Magnitude32(w: Word): real {
    if Exponent8(w) == 0 then Val(Fraction23(w), -149) else Val(SGL_HIDDEN + Fraction23(w), Exponent8(w) - 150)
  }

  /** The 52-bit fraction of a denormal single once it is normalised. */
  function Widened(frac: nat): (r: nat)
    requires 0 < frac < SGL_HIDDEN
    ensures TopBit(frac) <= 22 && r < HIDDEN && HIDDEN + r == frac * Pow2(52 - TopBit(frac))
  {
    TopOfFraction(frac);
    frac * Pow2(52 - TopBit(frac)) - HIDDEN
  }

  lemma TopOfFraction(frac: nat)
    requires 0 < frac < SGL_HIDDEN
    ensures var m := TopBit(frac); m <= 22 && HIDDEN <= frac * Pow2(52 - m) < 2 * HIDDEN
  {
    var m := TopBit(frac);
    hide TopBit, Pow2;
    Pow2Words();
    if m > 22 {
      Pow2Mono(23, m);
    } else {
      Pow2Add(m, 52 - m);
      Pow2Add(m + 1, 52 - m);
      MulLe(Pow2(m), frac, Pow2(52 - m));
      MulLe(frac + 1, Pow2(m + 1), Pow2(52 - m));
      Successor(frac, Pow2(52 - m));
    }
  }

  function LoadSingle(w: Word): (f: U64) {
    var s, e, frac := Negative32(w), Exponent8(w), Fraction23(w);
    if e == 255 then PackZero(s) + 0x7FF * HIDDEN + frac * 0x2000_0000
    else if e == 0 then
      if frac == 0 then PackZero(s)
      else PackZero(s) + (TopBit(frac) + 874) * HIDDEN + Widened(frac)
    else PackZero(s) + (e + 896) * HIDDEN + frac * 0x2000_0000
  }

  function StoreSingle(f: U64): nat {
    var e := Exponent(f);
    var sign := if Negative(f) then SGL_SIGN else 0;
    if e > 896 || f % SIGN == 0 then f / 0x4000_0000_0000_0000 * 0x4000_0000 + f / 0x2000_0000 % 0x4000_0000
    else if e >= 874 then sign + Shr(HIDDEN + Fraction(f), 897 - e + 29) % SGL_HIDDEN
    else sign
  }

  lemma SingleFields(w: Word)
    ensures w == (if Negative32(w) then SGL_SIGN else 0) + Exponent8(w) * SGL_HIDDEN + Fraction23(w)
  {
  }

  /** The bit-copying arm of the store, on the fields of the double. */
  lemma CopyArm(s: bool, e: nat, frac: nat)
    requires e < 2048 && frac < SGL_HIDDEN
    ensures var f := PackZero(s) + e * HIDDEN + frac * 0x2000_0000;
      f / 0x4000_0000_0000_0000 * 0x4000_0000 + f / 0x2000_0000 % 0x4000_0000 ==
        (if s then SGL_SIGN else 0) + e / 1024 * 0x4000_0000 + e % 128 * SGL_HIDDEN + frac
  {
    var f := PackZero(s) + e * HIDDEN + frac * 0x2000_0000;
    var q := (if s then 0x4_0000_0000 else 0) + e * SGL_HIDDEN + frac;
    TopBits(s, e / 1024, e % 1024, frac, f);
    DivUnique(f, 0x2000_0000, q, 0);
    LowBits(s, e / 128, e % 128, frac, q);
  }

  /** Sign and leading exponent bit: the two bits the store copies first. */
  lemma TopBits(s: bool, e1: nat, e0: nat, frac: nat, f: nat)
    requires e0 < 1024 && frac < SGL_HIDDEN && f == PackZero(s) + (1024 * e1 + e0) * HIDDEN + frac * 0x2000_0000
    ensures f / 0x4000_0000_0000_0000 == (if s then 2 else 0) + e1
  {
    DivUnique(f, 0x4000_0000_0000_0000, (if s then 2 else 0) + e1, e0 * HIDDEN + frac * 0x2000_0000);
  }

  /** Then the low thirty of the rest. */
  lemma LowBits(s: bool, e1: nat, e0: nat, frac: nat, q: nat)
    requires e0 < 128 && frac < SGL_HIDDEN && q == (if s then 0x4_0000_0000 else 0) + (128 * e1 + e0) * SGL_HIDDEN + frac
    ensures q % 0x4000_0000 == e0 * SGL_HIDDEN + frac
  {
    DivUnique(q, 0x4000_0000, (if s then 16 else 0) + e1, e0 * SGL_HIDDEN + frac);
  }

  lemma StoreCopies(s: bool, e: nat, frac: nat)
    requires 896 < e < 2048 && frac < SGL_HIDDEN
    ensures var f := PackZero(s) + e * HIDDEN + frac * 0x2000_0000;
      f < W64 && StoreSingle(f) == (if s then SGL_SIGN else 0) + e / 1024 * 0x4000_0000 + e % 128 * SGL_HIDDEN + frac
  {
    hide Exponent, Negative, Fraction;
    Fields(s, e, frac * 0x2000_0000);
    CopyArm(s, e, frac);
  }

  /** The eight exponent bits survive the rebias. */
  lemma Rebias(e: nat)
    requires 0 < e < 256
    ensures var wide := if e == 255 then 0x7FF else e + 896;
      896 < wide < 2048 && wide / 1024 * 0x4000_0000 + wide % 128 * SGL_HIDDEN == e * SGL_HIDDEN
  {
  }

  /** Storing what was loaded gives the word back: every single, NaNs, infinities,
      zeros and denormals included. */
  lemma StoreAfterLoad(w: Word)
    ensures StoreSingle(LoadSingle(w)) == w
  {
    hide TopBit, Pow2, Widened, StoreSingle, Exponent8, Fraction23, Negative32, PackZero;
    var s, e, frac := Negative32(w), Exponent8(w), Fraction23(w);
    SingleFields(w);
    if e == 0 && frac == 0 {
      ZeroBack(s);
    } else if e == 0 {
      DenormalBack(s, frac);
    } else {
      Rebias(e);
      StoreCopies(s, if e == 255 then 0x7FF else e + 896, frac);
    }
  }

  lemma ZeroBack(s: bool)
    ensures StoreSingle(PackZero(s)) == if s then SGL_SIGN else 0
  {
  }

  lemma DenormalBack(s: bool, frac: nat)
    requires 0 < frac < SGL_HIDDEN
    ensures var f := PackZero(s) + (TopBit(frac) + 874) * HIDDEN + Widened(frac);
      f < W64 && StoreSingle(f) == (if s then SGL_SIGN else 0) + frac
  {
    var m, r := TopBit(frac), Widened(frac);
    TopOfFraction(frac);
    hide TopBit, Pow2, Widened, Exponent, Fraction, Negative, PackZero, Shr, StoreSingle;
    var f := PackZero(s) + (m + 874) * HIDDEN + r;
    Fields(s, m + 874, r);
    NotZero(f, m + 874, s, r);
    ShiftBack(frac, r, m);
    StoreShifts(f, s, m + 874, frac);
  }

  lemma StoreShifts(f: U64, s: bool, e: nat, frac: nat)
    requires Exponent(f) == e && 874 <= e <= 896 && Negative(f) == s && f % SIGN != 0
    requires Shr(HIDDEN + Fraction(f), 897 - e + 29) == frac < SGL_HIDDEN
    ensures StoreSingle(f) == (if s then SGL_SIGN else 0) + frac
  {
    hide Exponent, Fraction, Negative, Shr;
  }

  lemma ShiftBack(frac: nat, r: nat, m: nat)
    requires m <= 22 && HIDDEN + r == frac * Pow2(52 - m)
    ensures Shr(HIDDEN + r, 897 - (m + 874) + 29) == frac
  {
    hide Pow2;
    DivUnique(HIDDEN + r, Pow2(52 - m), frac, 0);
  }

  lemma NotZero(f: nat, e: nat, s: bool, r: nat)
    requires 0 < e < 2048 && r < HIDDEN && f == PackZero(s) + e * HIDDEN + r
    ensures f % SIGN != 0
  {
  }

  /** A load changes no finite value. */
  lemma LoadExact(w: Word)
    requires Exponent8(w) != 255
    ensures var f := LoadSingle(w);
      IsFinite(f) && Negative(f) == Negative32(w) && Magnitude(f) == Magnitude32(w)
  {
    hide TopBit, Pow2, Widened, Val, Exponent, Fraction, Negative;
    var s, e, frac := Negative32(w), Exponent8(w), Fraction23(w);
    Pow2Words();
    if e == 0 && frac == 0 {
      Fields(s, 0, 0);
      ValAdd(0, 0, -1074);
      ValAdd(0, 0, -149);
    } else if e == 0 {
      var m, r := TopBit(frac), Widened(frac);
      Fields(s, m + 874, r);
      Rescale(frac, m as int - 201, 52 - m);
    } else {
      Fields(s, e + 896, frac * 0x2000_0000);
      Rescale(SGL_HIDDEN + frac, e as int - 179, 29);
      assert Pow2(29) == 0x2000_0000 by {
        Pow2Add(9, 20);
        Pow2Add(8, 12);
      }
    }
  }

  /** Two words that load alike are one word. */
  lemma LoadInjective(v: Word, w: Word)
    requires LoadSingle(v) == LoadSingle(w)
    ensures v == w
  {
    StoreAfterLoad(v);
    StoreAfterLoad(w);
  }
}
