/** The two formats of the rounding theory are the numbers doubles and singles hold. */
module SoftFormats {
  import opened Units
  import opened Dyadic
  import opened Words
  import opened Rounding
  import opened SoftFloat
  import opened SoftSingle

  /** Every representable number has a place on the grid. */
  lemma {:induction false} Place(f: Format, m: nat, q: int) returns (k: nat, e: int)
    requires 2 <= f.p && m < Pow2(f.p) && q >= f.emin - f.p + 1
    ensures OnGrid(f, k, e) && Val(k, e) == Val(m, q)
    decreases q - f.emin + f.p
  {
    hide Val;
    if m >= Pow2(f.p - 1) || q == f.emin - f.p + 1 {
      k, e := m, q;
    } else {
      assert Pow2(f.p) == 2 * Pow2(f.p - 1) && Pow2(1) == 2;
      Rescale(m, q - 1, 1);
      k, e := Place(f, 2 * m, q - 1);
    }
  }

  /** On the grid, the largest number bounds the exponent and nothing else. */
  lemma Bounded(f: Format, k: nat, q: int)
    requires OnGrid(f, k, q) && Wf(f)
    ensures Val(k, q) <= MaxFinite(f) <==> q <= f.emax - f.p + 1
  {
    hide Val;
    var top, h := f.emax - f.p + 1, Pow2(f.p - 1);
    assert Pow2(f.p) == 2 * h;
    hide Pow2;
    if q <= top {
      Rescale(Pow2(f.p) - 1, q, top - q);
      Pow2Mono(0, top - q);
      MulLe(1, Pow2(top - q), Pow2(f.p) - 1);
      ValOrder(Pow2(f.p) - 1, (Pow2(f.p) - 1) * Pow2(top - q), q);
      ValOrder(k, Pow2(f.p) - 1, q);
      ValOrder(Pow2(f.p) - 1, k, q);
    } else {
      Rescale(k, top, q - top);
      Pow2Mono(1, q - top);
      MulLe(2, Pow2(q - top), k);
      ValOrder(Pow2(f.p) - 1, k * Pow2(q - top), top);
    }
  }

  /** The numbers of the double format up to its largest are the finite doubles. */
  lemma DoublesAre(y: real)
    ensures Representable(DOUBLE, y) && y <= MaxFinite(DOUBLE) <==> exists f: U64 :: IsFinite(f) && Magnitude(f) == y
  {
    hide Val, Pow2, OnGrid, MaxFinite, Exponent, Fraction;
    if f: U64 :| IsFinite(f) && Magnitude(f) == y {
      DoubleOnGrid(f);
      var (k, q) := if Exponent(f) == 0 then (Fraction(f), -1074) else (HIDDEN + Fraction(f), Exponent(f) - 1075);
      GridPoint(DOUBLE, k, q);
      Bounded(DOUBLE, k, q);
    }
    if Representable(DOUBLE, y) && y <= MaxFinite(DOUBLE) {
      var m: nat, r: int :| Spells(DOUBLE, m, r, y);
      var k, q := Place(DOUBLE, m, r);
      Bounded(DOUBLE, k, q);
      DoubleAt(k, q);
    }
  }

  lemma DoubleAt(k: nat, q: int)
    requires OnGrid(DOUBLE, k, q) && q <= 971
    ensures exists f: U64 :: IsFinite(f) && Magnitude(f) == Val(k, q)
  {
    Pow2Words();
    hide Val, Pow2, Exponent, Fraction, Negative;
    var e, fr := if k < HIDDEN then 0 else q + 1075, if k < HIDDEN then k else k - HIDDEN;
    Fields(false, e, fr);
    var f: U64 := e * HIDDEN + fr;
    assert IsFinite(f) && Magnitude(f) == Val(k, q);
  }

  /** And those of the single format are the finite singles. */
  lemma SinglesAre(y: real)
    ensures Representable(SINGLE, y) && y <= MaxFinite(SINGLE) <==> exists w: Word :: Exponent8(w) != 255 && Magnitude32(w) == y
  {
    hide Val, Pow2, MaxFinite, Exponent8, Fraction23;
    Pow2Words();
    if w: Word :| Exponent8(w) != 255 && Magnitude32(w) == y {
      var (k, q) := if Exponent8(w) == 0 then (Fraction23(w), -149) else (SGL_HIDDEN + Fraction23(w), Exponent8(w) - 150);
      GridPoint(SINGLE, k, q);
      Bounded(SINGLE, k, q);
    }
    if Representable(SINGLE, y) && y <= MaxFinite(SINGLE) {
      var m: nat, r: int :| Spells(SINGLE, m, r, y);
      var k, q := Place(SINGLE, m, r);
      Bounded(SINGLE, k, q);
      SingleAt(k, q);
    }
  }

  lemma SingleAt(k: nat, q: int)
    requires OnGrid(SINGLE, k, q) && q <= 104
    ensures exists w: Word :: Exponent8(w) != 255 && Magnitude32(w) == Val(k, q)
  {
    Pow2Words();
    hide Val, Pow2;
    var e, fr := if k < SGL_HIDDEN then 0 else q + 150, if k < SGL_HIDDEN then k else k - SGL_HIDDEN;
    var w: Word := e * SGL_HIDDEN + fr;
    assert Exponent8(w) == e && Fraction23(w) == fr;
    assert Magnitude32(w) == Val(k, q);
  }

  /** The exponent adjustment is three quarters of the format's exponent range. */
  lemma ScaleIs(t: Tgt)
    ensures 2 * Scale(t) == 3 * (FormatOf(t).emax + 1) && FormatOf(t).emin == 1 - FormatOf(t).emax
  {
  }
}
