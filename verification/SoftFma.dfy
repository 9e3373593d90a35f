/** The one generic path of the softfloat: a * c, optionally plus or minus b,
    optionally negated, rounded once from a 128-bit accumulator. */
module SoftFma {
  import opened Dyadic
  import opened Words
  import opened Rounding
  import opened SoftFloat
  import opened SoftDivide
  import opened SoftDropped

  // ---- the accumulator window -----------------------------------------------

  /** x seen through an integer window s * 2^e: s is its floor, and jam says
      whether anything lies below. */
  ghost predicate InWindow(x: real, s: nat, e: int, jam: bool) {
    Val(s, e) <= x < Val(s + 1, e) && (jam <==> x != Val(s, e))
  }

  lemma WindowExact(s: nat, e: int)
    ensures InWindow(Val(s, e), s, e, false)
  {
    hide Val;
    ValOrder(s, s + 1, e);
  }

  /** A jamming right shift keeps the window truthful. */
  lemma WindowShift(x: real, s: nat, e: int, jam: bool, n: nat)
    requires InWindow(x, s, e, jam)
    ensures InWindow(x, s / Pow2(n), e + n, jam || s % Pow2(n) != 0)
  {
    hide Val, Pow2;
    var p := Pow2(n);
    var q, r := s / p, s % p;
    DivMod(s, p);
    Rescale(q, e, n);
    Rescale(q + 1, e, n);
    Successor(q, p);
    ValOrder(q * p, s, e);
    ValOrder(s + 1, (q + 1) * p, e);
  }

  lemma WindowAdd(x: real, s: nat, e: int, jam: bool, t: nat)
    requires InWindow(x, s, e, jam)
    ensures InWindow(x + Val(t, e), s + t, e, jam)
  {
    hide Val;
    ValAdd(s, t, e);
    ValAdd(s + 1, t, e);
  }

  /** A normalised accumulator and jam stand for x in roundPack's sense. */
  lemma WindowStands(x: real, acc: U128, exp: int, jam: bool)
    requires acc.Ok() && acc.hi >= SIGN && InWindow(x, acc.Value(), exp - 127, jam)
    ensures Stands(x, acc.hi, exp, jam || acc.lo != 0, 0)
  {
    hide Val, Pow2;
    Pow2Words();
    WindowShift(x, acc.Value(), exp - 127, jam, 64);
    DivUnique(acc.Value(), W64, acc.hi, acc.lo);
    DivUnique(acc.hi, 1, acc.hi, 0);
  }

  // ---- alignment and addition -----------------------------------------------

  datatype Sum = ExactZero | Sum(sign: bool, exp: int, acc: U128, jam: bool)

  /** Would the alignment shift drop a set bit of the smaller operand? */
  predicate Lost(p: U128, pexp: int, bm: U64, be: int) {
    if pexp > be then Jam128(U128(bm, 0), pexp - be)
    else if pexp < be then Jam128(p, be - pexp)
    else false
  }

  /** Both operands at the larger exponent. */
  method Align(p: U128, pexp: int, bm: U64, be: int) returns (acc: U128, bacc: U128, exp: int, jam: bool)
    requires p.Ok() && p.hi >= SIGN && bm >= SIGN
    ensures acc.Ok() && bacc.Ok() && jam == Lost(p, pexp, bm, be) && (acc.hi >= SIGN || bacc.hi >= SIGN)
    ensures bacc.lo == 0 || bacc.hi < SIGN
    ensures exp == (if pexp >= be then pexp else be)
    ensures acc == (if pexp < be then Shr128(p, be - pexp) else p)
    ensures bacc == (if pexp > be then Shr128(U128(bm, 0), pexp - be) else U128(bm, 0))
    ensures InWindow(Val(p.Value(), pexp - 127), acc.Value(), exp - 127, jam && pexp < be)
    ensures InWindow(Val(bm, be - 63), bacc.Value(), exp - 127, jam && pexp > be)
  {
    hide Val, Pow2, Shr128, Jam128;
    acc, bacc, exp, jam := p, U128(bm, 0), pexp, false;
    var d := pexp - be;
    Pow2Words();
    Rescale(bm, be - 127, 64);
    assert bacc.Value() == bm * Pow2(64);
    WindowExact(p.Value(), pexp - 127);
    WindowExact(bacc.Value(), be - 127);
    if d > 0 {
      WindowShift(Val(bm, be - 63), bacc.Value(), be - 127, false, d);
      Shr128Is(bacc, d);
      HalfOrLess(bacc, d);
      jam := Jam128(bacc, d);
      bacc := Shr128(bacc, d);
    } else if d < 0 {
      WindowShift(Val(p.Value(), pexp - 127), p.Value(), pexp - 127, false, -d);
      Shr128Is(p, -d);
      jam := Jam128(p, -d);
      acc := Shr128(p, -d);
      exp := be;
    }
  }

  lemma HalfOrLess(v: U128, d: nat)
    requires v.Ok() && d > 0
    ensures Shr128(v, d).hi < SIGN
  {
    Pow2Mono(1, d);
    Pow2Small();
    hide Pow2;
    if d < 64 {
      DivMod(v.hi, Pow2(d));
      MulLe(2, Pow2(d), v.hi / Pow2(d));
    }
  }

  /** Like signs: the sum, with a carry out shifted back in. */
  method AddAligned(x: U128, y: U128, e0: int, jam0: bool, ghost v: real) returns (acc: U128, exp: int, jam: bool)
    requires x.Ok() && y.Ok() && (x.hi >= SIGN || y.hi >= SIGN) && (y.lo == 0 || y.hi < SIGN)
    requires InWindow(v, x.Value() + y.Value(), e0 - 127, jam0)
    ensures acc.Ok() && acc.hi >= SIGN && InWindow(v, acc.Value(), exp - 127, jam)
  {
    hide Val, Pow2, Shr128, Jam128, InWindow, Or;
    ghost var total := x.Value() + y.Value();
    var (r, carry) := Add128(x, y);
    Add128Is(x, y);
    acc, exp, jam := r, e0, jam0;
    if carry {
      Shr128Is(r, 1);
      Pow2Small();
      WindowShift(v, total, e0 - 127, jam0, 1);
      jam := jam0 || Jam128(r, 1);
      acc := Shr128(r, 1);
      Pow2Words();
      OrIsSum(SIGN, acc.hi, 63);
      acc := U128(Or(acc.hi, SIGN), acc.lo);
      exp := e0 + 1;
      assert acc.Value() == total / 2;
    }
  }

  function Clz64(v: nat): (n: nat)
    requires v < W64
    ensures n <= 64
  {
    if v == 0 then 64
    else
      TopBitOfWord(v);
      63 - TopBit(v)
  }

  lemma TopBitOfWord(v: nat)
    requires 0 < v < W64
    ensures TopBit(v) <= 63
  {
    hide Pow2;
    Pow2Words();
    if TopBit(v) >= 64 {
      Pow2Mono(64, TopBit(v));
    }
  }

  function Clz128(v: U128): (n: nat)
    requires v.hi < W64 && v.lo < W64
    ensures n <= 128
  {
    if v.hi != 0 then Clz64(v.hi) else 64 + Clz64(v.lo)
  }

  /** Left normalisation brings the leading one to bit 127 and loses nothing. */
  lemma Normalise128(v: U128)
    requires v.Ok() && v.Value() > 0
    ensures var n := Clz128(v);
      n < 128 && Shl128(v, n).Ok() && Shl128(v, n).hi >= SIGN && Shl128(v, n).Value() == v.Value() * Pow2(n)
  {
    hide Pow2, Shl128, TopBit;
    Pow2Words();
    var n := Clz128(v);
    if v.hi != 0 {
      TopBitOfWord(v.hi);
      NormaliseTop(v.hi, TopBit(v.hi));
      Pow2Mono(n, 63);
      SpreadHigh(v.hi, v.lo, Pow2(n), n);
    } else {
      TopBitOfWord(v.lo);
      NormaliseTop(v.lo, TopBit(v.lo));
      Pow2Add(64, n - 64);
      MulAssoc(v.lo, Pow2(n - 64), W64);
      assert v.lo * Pow2(n) == v.lo * Pow2(n - 64) * W64;
    }
    Shl128Is(v, n);
    SmallMod(v.Value() * Pow2(n), W128);
    HighPart(Shl128(v, n));
  }

  lemma HighPart(v: U128)
    requires v.Ok() && v.Value() >= SIGN * W64
    ensures v.hi >= SIGN
  {
  }

  lemma SpreadHigh(hi: nat, lo: nat, p: nat, n: nat)
    requires hi < W64 && lo < W64 && n <= 63 && p == Pow2(n) && SIGN <= hi * p < W64
    ensures SIGN * W64 <= (hi * W64 + lo) * p < W128
  {
    hide Pow2;
    LowWord(lo, p);
    HighWord(hi, n);
    MulSum(hi, W64, lo, p);
    InTwoWords(hi * p, lo * p, p);
  }

  lemma LowWord(lo: nat, p: nat)
    requires lo < W64
    ensures lo * p + p <= W64 * p
  {
    MulLe(lo + 1, W64, p);
    MulSum(lo, 1, 1, p);
  }

  /** A multiple of 2^n below 2^64 leaves room for one more. */
  lemma HighWord(hi: nat, n: nat)
    requires n <= 63 && hi * Pow2(n) < W64
    ensures hi * Pow2(n) + Pow2(n) <= W64
  {
    hide Pow2;
    Pow2Words();
    Pow2Add(n, 64 - n);
    BelowMultiple(hi, Pow2(n), Pow2(64 - n));
  }

  lemma InTwoWords(a: nat, b: nat, p: nat)
    requires SIGN <= a && a + p <= W64 && b + p <= W64 * p
    ensures SIGN * W64 <= a * W64 + b && (p > 0 ==> a * W64 + b < W128)
  {
  }

  /** A multiple of p below q * p is at most q * p - p. */
  lemma BelowMultiple(hi: nat, p: nat, q: nat)
    requires hi * p < p * q
    ensures hi * p + p <= p * q
  {
    if hi >= q {
      MulLe(q, hi, p);
    } else {
      MulLe(hi + 1, q, p);
      MulSum(hi, 1, 1, p);
    }
  }

  lemma ShlOk(v: U128, n: nat)
    requires v.Ok()
    ensures Shl128(v, n).Ok()
  {
    if n < 128 {
      Shl128Is(v, n);
    }
  }

  /** Unlike signs: the difference takes the larger operand's sign. */
  method SubAligned(x: U128, y: U128, e0: int, jam: bool, xs: bool, ys: bool) returns (r: Sum)
    requires x.Ok() && y.Ok()
    ensures r.ExactZero? <==> x.Value() == y.Value() && !jam
    ensures r.Sum? ==> r.acc.Ok()
    ensures x.Value() != y.Value() ==>
      && r.Sum? && r.acc.Ok() && r.acc.hi >= SIGN && r.jam == jam
      && r.sign == (if y.Value() > x.Value() then ys else xs)
      && Val(r.acc.Value(), r.exp - 127) ==
         Val(if y.Value() > x.Value() then y.Value() - x.Value() else x.Value() - y.Value(), e0 - 127)
  {
    hide Val, Pow2, Shl128, Clz128;
    Ge128Is(y, x);
    var acc, sign := U128(0, 0), xs;
    if Ge128(y, x) {
      Sub128Is(y, x);
      acc, sign := Sub128(y, x), ys;
    } else {
      Sub128Is(x, y);
      acc := Sub128(x, y);
    }
    if acc.hi == 0 && acc.lo == 0 && !jam {
      return ExactZero;
    }
    var lz := Clz128(acc);
    ShlOk(acc, lz);
    if x.Value() != y.Value() {
      Normalise128(acc);
      Rescale(acc.Value(), e0 - lz - 127, lz);
    }
    r := Sum(sign, e0 - lz, Shl128(acc, lz), jam);
  }

  // ---- operands -------------------------------------------------------------

  function FlipSign(f: U64): U64 {
    if f >= SIGN then f - SIGN else f + SIGN
  }

  predicate Ordinary(f: U64) {
    Unpack(f).c == Zero || Unpack(f).c == Finite
  }

  lemma FlipSignIs(f: U64)
    ensures Negative(FlipSign(f)) == !Negative(f) && Magnitude(FlipSign(f)) == Magnitude(f)
    ensures Unpack(FlipSign(f)) == Unpack(f).(s := !Unpack(f).s)
  {
    FlipFields(f);
    hide Val, Pow2, TopBit, Exponent, Fraction, Negative, FlipSign;
  }

  lemma FlipFields(f: U64)
    ensures Exponent(FlipSign(f)) == Exponent(f) && Fraction(FlipSign(f)) == Fraction(f)
    ensures Negative(FlipSign(f)) == !Negative(f)
  {
    hide Exponent, Fraction, Negative;
    var g := if f >= SIGN then f - SIGN else f;
    FieldsOf(g, g);
    FieldsOf(g + SIGN, g);
  }

  lemma FieldsOf(f: U64, g: nat)
    requires g < SIGN && (f == g || f == g + SIGN)
    ensures Exponent(f) == g / HIDDEN && Fraction(f) == g % HIDDEN && (Negative(f) <==> f != g)
  {
    var q, r, s := g / HIDDEN, g % HIDDEN, if f == g then 0 else 1;
    DivMod(g, HIDDEN);
    DivUnique(f, HIDDEN, 2048 * s + q, r);
    DivUnique(2048 * s + q, 2048, s, q);
    DivUnique(f, SIGN, s, g);
  }

  lemma ZeroOrPositive(f: U64)
    requires Ordinary(f)
    ensures Unpack(f).c == Zero ==> Magnitude(f) == 0.0
    ensures Unpack(f).c == Finite ==> Magnitude(f) > 0.0
    ensures Unpack(f).s == Negative(f)
  {
    hide Val, Pow2, TopBit;
    if Unpack(f).c == Finite {
      UnpackValue(f);
      PositiveVal(Unpack(f).m, Unpack(f).e - 63);
    } else {
      ValAdd(0, 0, -1074);
    }
  }

  /** The exact value to be delivered, before any negation of the result. */
  ghost function Exact(fa: U64, fc: U64, fb: U64, hasAddend: bool, negAdd: bool): real {
    Signed(fa) * Signed(fc) + if !hasAddend then 0.0 else if negAdd then -Signed(fb) else Signed(fb)
  }

  /** The 106-bit product with its leading one at bit 127, and its exponent. */
  function Product(a: Un, c: Un): (U128, int)
    requires a.m < W64 && c.m < W64
  {
    var p := Mul64(a.m, c.m);
    if p.hi >= SIGN then (p, a.e + c.e + 1) else (Shl128(p, 1), a.e + c.e)
  }

  lemma ProductIs(a: Un, c: Un)
    requires SIGN <= a.m < W64 && SIGN <= c.m < W64
    ensures var (p, e) := Product(a, c);
      p.Ok() && p.hi >= SIGN && Val(p.Value(), e - 127) == Val(a.m, a.e - 63) * Val(c.m, c.e - 63)
  {
    hide Val, Pow2, Mul64, Shl128;
    var p := Mul64(a.m, c.m);
    Mul64Is(a.m, c.m);
    ValMul(a.m, a.e - 63, c.m, c.e - 63);
    MulLe(SIGN, a.m, c.m);
    MulLe(SIGN, c.m, SIGN);
    assert p.Value() >= SIGN * SIGN;
    if p.hi < SIGN {
      Shl128Is(p, 1);
      Pow2Small();
      DoubleFits(p);
      Rescale(p.Value(), a.e + c.e - 127, 1);
    }
  }

  lemma DoubleFits(p: U128)
    requires p.Ok() && p.hi < SIGN && p.Value() >= SIGN * SIGN
    ensures p.Value() * 2 % W128 == p.Value() * 2
    ensures forall q: U128 :: q.Ok() && q.Value() == p.Value() * 2 ==> q.hi >= SIGN
  {
  }

  /** Does the fused add lose information: unlike effective signs, and an
      alignment shift that drops a set bit? */
  predicate Drops(a: Un, c: Un, b: Un)
    requires a.m < W64 && c.m < W64 && b.m < W64
  {
    (a.s != c.s) != b.s && Lost(Product(a, c).0, Product(a, c).1, b.m, b.e)
  }

  predicate DropsBits(fa: U64, fc: U64, fb0: U64, hasAddend: bool, negAdd: bool) {
    var a, c, b := Unpack(fa), Unpack(fc), Unpack(if hasAddend && negAdd then FlipSign(fb0) else fb0);
    && hasAddend && a.c == Finite && c.c == Finite && b.c == Finite
    && a.m < W64 && c.m < W64 && b.m < W64 && Drops(a, c, b)
  }

  /** The larger operand minus the smaller one cut at the window, in units of the window. */
  ghost function CoarseUnits(a: Un, c: Un, b: Un): nat
    requires a.m < W64 && c.m < W64
  {
    var (p, e) := Product(a, c);
    if e > b.e then Monus(p.Value(), Shr128(U128(b.m, 0), e - b.e).Value())
    else Monus(b.m * W64, Shr128(p, b.e - e).Value())
  }

  function Monus(x: nat, y: nat): nat {
    if x >= y then x - y else 0
  }

  function CoarseExp(a: Un, c: Un, b: Un): int
    requires a.m < W64 && c.m < W64
  {
    (if Product(a, c).1 >= b.e then Product(a, c).1 else b.e) - 127
  }

  ghost function Coarse(a: Un, c: Un, b: Un): real
    requires a.m < W64 && c.m < W64
  {
    Val(CoarseUnits(a, c, b), CoarseExp(a, c, b))
  }

  /** The magnitude the code rounds: the exact one, unless bits were dropped from
      an operand of the other sign; then one that lies as far on the other side
      of the coarse difference, halved. */
  ghost function AsSeen(a: Un, c: Un, b: Un, prodZero: bool, addend: bool): real
    requires a.m < W64 && c.m < W64 && b.m < W64
  {
    var x := Abs(Total(a, c, b, prodZero, addend));
    if !prodZero && addend && Drops(a, c, b) then Coarse(a, c, b) + (Coarse(a, c, b) - x) / 2.0 else x
  }

  lemma SeenDropped(a: Un, c: Un, b: Un, prodZero: bool, addend: bool)
    requires a.m < W64 && c.m < W64 && b.m < W64 && !prodZero && addend && Drops(a, c, b)
    ensures var d := Coarse(a, c, b);
      AsSeen(a, c, b, prodZero, addend) == d + (d - Abs(Total(a, c, b, prodZero, addend))) / 2.0
    ensures var x := Abs(Total(a, c, b, prodZero, addend));
      JustBelow(x, Coarse(a, c, b), CoarseExp(a, c, b)) ==> AsSeen(a, c, b, prodZero, addend) > x
  {
    hide Total, Coarse, Drops, Two, Val, CoarseExp;
  }

  ghost function Abs(x: real): real {
    if x < 0.0 then -x else x
  }

  /** Infinities and NaNs: NaN precedence is frA, frB, frC. */
  function FmaSpecial(fa: U64, fc: U64, fb0: U64, hasAddend: bool, negAdd: bool, negResult: bool): R {
    var fb := if hasAddend && negAdd then FlipSign(fb0) else fb0;
    var a, c, b := Unpack(fa), Unpack(fc), Unpack(fb);
    var imz := (a.c == Infinite && c.c == Zero) || (a.c == Zero && c.c == Infinite);
    var fl := (if imz then {Vximz} else {}) +
      if a.c == SignallingNaN || (hasAddend && b.c == SignallingNaN) || c.c == SignallingNaN then {Vxsnan} else {};
    var ps := a.s != c.s;
    if IsNaN(a) then R(Quiet(fa), fl)
    else if hasAddend && IsNaN(b) then R(Quiet(fb0), fl)
    else if IsNaN(c) then R(Quiet(fc), fl)
    else if imz then R(QNAN, fl)
    else if a.c == Infinite || c.c == Infinite then
      if hasAddend && b.c == Infinite && b.s != ps then R(QNAN, fl + {Vxisi})
      else R(PackInf(ps != negResult), fl)
    else R(PackInf(b.s != negResult), fl)
  }

  /** Operands as unpack leaves them: normalised, the low eleven bits zero. */
  predicate Normal(u: Un) {
    SIGN <= u.m < W64 && u.m % 2048 == 0
  }

  /** The finite, nonzero part: the sum in its accumulator. */
  method Accumulate(a: Un, c: Un, b: Un, prodZero: bool, addend: bool) returns (r: Sum)
    requires a.m < W64 && c.m < W64 && b.m < W64 && (prodZero || (Normal(a) && Normal(c)))
    requires (addend ==> Normal(b)) && (!prodZero || addend)
    ensures var total := Total(a, c, b, prodZero, addend);
      && (r.ExactZero? <==> total == 0.0)
      && (r.Sum? ==> r.acc.Ok() && r.acc.hi >= SIGN && r.sign == (total < 0.0)
                     && InWindow(AsSeen(a, c, b, prodZero, addend), r.acc.Value(), r.exp - 127, r.jam))
    ensures !prodZero && addend && Drops(a, c, b) ==>
      && r.Sum? && r.jam && CoarseIn(a, c, b, r)
      && JustBelow(Abs(Total(a, c, b, prodZero, addend)), Coarse(a, c, b), CoarseExp(a, c, b))
  {
    hide Val, Pow2, InWindow, Product, Lost, Shr128, Jam128, Shl128, CoarseIn, Coarse, CoarseUnits, Drops, JustBelow;
    if prodZero {
      PositiveVal(b.m, b.e - 63);
      AddendWindow(b.m, b.e);
      return Sum(b.s, b.e, U128(b.m, 0), false);
    }
    var (p, pexp) := Product(a, c);
    var ps := a.s != c.s;
    ProductIs(a, c);
    ghost var pv, bv := Val(p.Value(), pexp - 127), Val(b.m, b.e - 63);
    PositiveVal(p.Value(), pexp - 127);
    WindowExact(p.Value(), pexp - 127);
    if !addend {
      assert Total(a, c, b, prodZero, addend) == if ps then -pv else pv;
      return Sum(ps, pexp, p, false);
    }
    PositiveVal(b.m, b.e - 63);
    DropsIs(a, c, b);
    var acc, bacc, exp, jam := Align(p, pexp, b.m, b.e);
    ghost var total := Total(a, c, b, prodZero, addend);
    assert total == (if ps then -pv else pv) + if b.s then -bv else bv;
    if ps == b.s {
      assert Abs(total) == pv + bv;
      WindowSum(pv, acc.Value(), jam && pexp < b.e, bv, bacc.Value(), jam && pexp > b.e, exp - 127);
      AlignNoJam(p, pexp, b.m, b.e);
      acc, exp, jam := AddAligned(acc, bacc, exp, jam, pv + bv);
      r := Sum(ps, exp, acc, jam);
    } else if jam {
      DropApart(a, c, b, acc, bacc);
      r := SubAligned(acc, bacc, exp, jam, ps, b.s);
      DropSeen(a, c, b, acc, bacc, r, total, pv, bv);
    } else {
      r := SubAligned(acc, bacc, exp, jam, ps, b.s);
      WindowDiff(pv, acc.Value(), bv, bacc.Value(), exp - 127);
      assert Abs(total) == if bv > pv then bv - pv else pv - bv;
      if r.Sum? {
        WindowExact(r.acc.Value(), r.exp - 127);
      }
    }
  }

  lemma DropsIs(a: Un, c: Un, b: Un)
    requires a.m < W64 && c.m < W64 && b.m < W64
    ensures Drops(a, c, b) <==> (a.s != c.s) != b.s && Lost(Product(a, c).0, Product(a, c).1, b.m, b.e)
  {
    hide Product, Lost;
  }

  /** 2^127 and 2^126. */
  ghost const HALF128: nat := 0x8000_0000_0000_0000_0000_0000_0000_0000
  ghost const QUARTER128: nat := 0x4000_0000_0000_0000_0000_0000_0000_0000

  // ---- dropped bits ---------------------------------------------------------

  /** The accumulator holds the coarse difference, to within one more bit. */
  ghost predicate CoarseIn(a: Un, c: Un, b: Un, r: Sum)
    requires a.m < W64 && c.m < W64
  {
    && r.Sum? && r.acc.Ok() && r.acc.hi >= SIGN && Val(r.acc.Value(), r.exp - 127) == Coarse(a, c, b)
    && CoarseExp(a, c, b) - 1 <= r.exp - 127 <= CoarseExp(a, c, b)
  }

  /** The coarse difference brackets the exact one from above. */
  ghost predicate JustBelow(x: real, d: real, e: int) {
    d - Two(e) < x < d && x > Val(W64, e)
  }

  /** Twenty-two low bits of the product are zero, sixty-four of the addend. */
  lemma ProductEven(a: Un, c: Un)
    requires Normal(a) && Normal(c)
    ensures Product(a, c).0.Ok() && Product(a, c).0.Value() % 2 == 0
  {
    ProductIs(a, c);
    Mul64Is(a.m, c.m);
    hide Mul64, Shl128, Pow2;
    EvenProduct(a.m, c.m);
    var p := Mul64(a.m, c.m);
    if p.hi < SIGN {
      Shl128Is(p, 1);
      Pow2Small();
      EvenWrap(p.Value());
    }
  }

  lemma EvenProduct(a: nat, c: nat)
    requires a % 2048 == 0
    ensures a * c % 2 == 0
  {
    var q := a / 2048;
    assert a == 2 * (1024 * q);
    MulAssoc(2, 1024 * q, c);
    TwiceEven(1024 * q * c);
  }

  lemma TwiceEven(h: nat)
    ensures 2 * h % 2 == 0
  {
  }

  lemma EvenWrap(v: nat)
    requires v < W128
    ensures v * 2 % W128 % 2 == 0
  {
  }

  /** So dropping a set bit takes a shift of at least two, and what is left of the
      smaller operand is less than half the larger. */
  lemma DropApart(a: Un, c: Un, b: Un, acc: U128, bacc: U128)
    requires Normal(a) && Normal(c) && Normal(b) && Drops(a, c, b)
    requires var (p, e) := Product(a, c);
      && acc == (if e < b.e then Shr128(p, b.e - e) else p)
      && bacc == (if e > b.e then Shr128(U128(b.m, 0), e - b.e) else U128(b.m, 0))
    ensures var e := Product(a, c).1;
      && e != b.e && acc.Ok() && bacc.Ok()
      && (if e > b.e then acc.Value() >= HALF128 && bacc.Value() < QUARTER128
          else bacc.Value() >= HALF128 && acc.Value() < QUARTER128)
      && CoarseUnits(a, c, b) == (if e > b.e then acc.Value() - bacc.Value() else bacc.Value() - acc.Value())
      && CoarseUnits(a, c, b) > QUARTER128
  {
    var (p, e) := Product(a, c);
    hide Product, Shr128, Jam128, Val, Mul64;
    ProductIs(a, c);
    ProductEven(a, c);
    ShiftedApart(p, e, b.m, b.e, acc, bacc);
  }

  lemma ShiftedApart(p: U128, e: int, bm: U64, be: int, acc: U128, bacc: U128)
    requires p.Ok() && p.hi >= SIGN && bm >= SIGN && p.Value() % 2 == 0 && Lost(p, e, bm, be)
    requires acc == (if e < be then Shr128(p, be - e) else p)
    requires bacc == (if e > be then Shr128(U128(bm, 0), e - be) else U128(bm, 0))
    ensures e != be && acc.Ok() && bacc.Ok()
    ensures e > be ==> acc.Value() >= HALF128 && bacc.Value() < QUARTER128
    ensures e < be ==> bacc.Value() >= HALF128 && acc.Value() < QUARTER128
  {
    hide Shr128, Jam128;
    AddendParity(bm);
    if e > be {
      ShiftApart(U128(bm, 0), e - be);
    } else if e < be {
      ShiftApart(p, be - e);
    }
  }

  lemma AddendParity(bm: U64)
    ensures U128(bm, 0).Value() % 2 == 0
  {
    EvenProduct(W64, bm);
  }

  lemma ShiftApart(v: U128, n: nat)
    requires v.Ok() && v.Value() % 2 == 0 && n > 0 && Jam128(v, n)
    ensures Shr128(v, n).Ok() && Shr128(v, n).Value() < QUARTER128
  {
    hide Pow2, Shr128, Jam128;
    Shr128Is(v, n);
    Pow2Small();
    if n >= 2 {
      Pow2Mono(2, n);
      QuarterBound(v.Value(), Pow2(n));
    }
  }

  lemma QuarterBound(v: nat, p: nat)
    requires v < W128 && p >= 4
    ensures v / p < QUARTER128
  {
    DivMod(v, p);
    MulLe(4, p, v / p);
  }

  /** An exact operand minus one seen through a jammed window. */
  lemma WindowGap(x: real, l: nat, y: real, s: nat, e: int)
    requires x == Val(l, e) && InWindow(y, s, e, true) && l > s + W64 + 1
    ensures JustBelow(x - y, Val(l - s, e), e)
  {
    hide Val, Two;
    ValAdd(l - s, s, e);
    ValAdd(s, 1, e);
    ValAdd(l - s - 1, 1, e);
    ValAdd(0, 1, e);
    ValOrder(W64, l - s - 1, e);
  }

  /** Normalising a difference this large moves it by at most one bit. */
  lemma UnitKept(v: nat, e: int, d: nat, w: int)
    requires HALF128 <= v < W128 && QUARTER128 < d < W128 && Val(v, e) == Val(d, w)
    ensures w - 1 <= e <= w
  {
    hide Val, Pow2;
    Pow2Small();
    if e > w {
      Rescale(v, w, e - w);
      ValOrder(d, v * Pow2(e - w), w);
      Pow2Mono(1, e - w);
      MulLe(2, Pow2(e - w), v);
    } else if e < w - 1 {
      Rescale(d, e, w - e);
      ValOrder(v, d * Pow2(w - e), e);
      Pow2Mono(2, w - e);
      MulLe(4, Pow2(w - e), d);
    }
  }

  /** A value mirrored to just above d is inside the window that starts at d. */
  lemma MirrorIn(x: real, d: real, w: int, v: nat, e: int)
    requires JustBelow(x, d, w) && d == Val(v, e) && w - 1 <= e
    ensures InWindow(d + (d - x) / 2.0, v, e, true)
  {
    hide Val, Two;
    TwoStep(w - 1);
    TwoMono(w - 1, e);
    ValAdd(v, 1, e);
  }

  /** The exact difference, its sign, and where the accumulator then stands. */
  lemma DropSeen(a: Un, c: Un, b: Un, acc: U128, bacc: U128, r: Sum, total: real, pv: real, bv: real)
    requires Normal(a) && Normal(c) && Normal(b) && Drops(a, c, b) && total == Total(a, c, b, false, true)
    requires (a.s != c.s) != b.s && total == (if b.s then pv - bv else bv - pv)
    requires var (e, w) := (Product(a, c).1, CoarseExp(a, c, b));
      && acc.Ok() && bacc.Ok() && e != b.e
      && InWindow(pv, acc.Value(), w, e < b.e) && InWindow(bv, bacc.Value(), w, e > b.e)
      && (if e > b.e then acc.Value() > bacc.Value() else bacc.Value() > acc.Value())
      && CoarseUnits(a, c, b) == (if e > b.e then acc.Value() - bacc.Value() else bacc.Value() - acc.Value())
      && CoarseUnits(a, c, b) > QUARTER128
      && r.Sum? && r.acc.Ok() && r.acc.hi >= SIGN && r.jam && r.sign == (if e > b.e then a.s != c.s else b.s)
      && Val(r.acc.Value(), r.exp - 127) == Val(CoarseUnits(a, c, b), w)
    ensures total != 0.0 && r.sign == (total < 0.0) && CoarseIn(a, c, b, r)
    ensures JustBelow(Abs(total), Coarse(a, c, b), CoarseExp(a, c, b))
    ensures InWindow(AsSeen(a, c, b, false, true), r.acc.Value(), r.exp - 127, true)
  {
    var e, w, d := Product(a, c).1, CoarseExp(a, c, b), CoarseUnits(a, c, b);
    hide Val, Product, Drops, CoarseUnits, CoarseExp, Total, Lost;
    if e > b.e {
      assert pv == Val(acc.Value(), w);
      WindowGap(pv, acc.Value(), bv, bacc.Value(), w);
    } else {
      assert bv == Val(bacc.Value(), w);
      WindowGap(bv, bacc.Value(), pv, acc.Value(), w);
    }
    UnitKept(r.acc.Value(), r.exp - 127, d, w);
    MirrorIn(Abs(total), Val(d, w), w, r.acc.Value(), r.exp - 127);
  }

  lemma AlignNoJam(p: U128, pexp: int, bm: U64, be: int)
    ensures pexp == be ==> !Lost(p, pexp, bm, be)
  {
  }

  lemma AddendWindow(m: U64, e: int)
    requires m >= SIGN
    ensures U128(m, 0).Ok() && InWindow(Val(m, e - 63), U128(m, 0).Value(), e - 127, false)
  {
    hide Val, Pow2;
    Pow2Words();
    Rescale(m, e - 127, 64);
    WindowExact(m * W64, e - 127);
  }

  /** At most one operand was shifted, so at most one window is jammed. */
  lemma WindowSum(x: real, s: nat, jx: bool, y: real, t: nat, jy: bool, e: int)
    requires InWindow(x, s, e, jx) && InWindow(y, t, e, jy) && !(jx && jy)
    ensures InWindow(x + y, s + t, e, jx || jy)
  {
    hide Val;
    if jx {
      WindowAdd(x, s, e, jx, t);
    } else {
      WindowAdd(y, t, e, jy, s);
    }
  }

  lemma WindowDiff(x: real, s: nat, y: real, t: nat, e: int)
    requires InWindow(x, s, e, false) && InWindow(y, t, e, false)
    ensures s > t ==> x - y == Val(s - t, e) && x > y
    ensures t > s ==> y - x == Val(t - s, e) && y > x
    ensures s == t ==> x == y
  {
    hide Val;
    ValOrder(s, t, e);
    ValOrder(t, s, e);
    if s > t {
      ValAdd(s - t, t, e);
    } else {
      ValAdd(t - s, s, e);
    }
  }

  /** The sign of an exact zero, section 6.3 of IEEE 754-2008. */
  predicate ZeroSign(fa: U64, fc: U64, fb: U64, hasAddend: bool, negAdd: bool, rn: Mode) {
    var ps, bs := Negative(fa) != Negative(fc), Negative(fb) != negAdd;
    if !hasAddend || ps == bs then ps else rn == TowardMinus
  }

  /** What a sum of ordinary operands delivers: a signed zero, or the rounding of
      the magnitude v with the sign of x. */
  ghost predicate Rounded(x: real, v: real, zeroSign: bool, negResult: bool, env: Env, t: Tgt, y: real, r: R) {
    if x == 0.0 then r == R(PackZero(zeroSign != negResult), {})
    else Outcome(t, env, (x < 0.0) != negResult, v, y, r, {})
  }

  /** The rounding of the value seen is that of the exact value exactly when the
      coarse difference is no boundary of the rounding mode; under an enabled
      underflow trap, of the mode at the adjusted exponent. */
  ghost predicate RightIffSteady(x: real, v: real, d: real, negResult: bool, env: Env, t: Tgt, y: real) {
    var sign := (x < 0.0) != negResult;
    if env.ue && v < Two(FormatOf(t).emin) then
      FreelyIffSteady(t, env.rn, sign, Scaled(Abs(x), Scale(t)), Scaled(d, Scale(t)), y)
    else Correct(FormatOf(t), env.rn, sign, Abs(x), y) <==> Steady(FormatOf(t), env.rn, d)
  }

  ghost predicate FreelyIffSteady(t: Tgt, rn: Mode, sign: bool, z: real, d: real, y: real) {
    forall e: int :: Two(e) <= z ==> (Correct(Free(t, e), rn, sign, z, y) <==> Steady(Free(t, e), rn, d))
  }

  /** The smaller operand lost bits: the exact magnitude is less than a unit of the
      window below the coarse difference d, and a value just above d is rounded,
      never exactly. */
  ghost predicate Dropped(x: real, d: real, e: int, negResult: bool, env: Env, t: Tgt, y: real, r: R) {
    var v := d + (d - Abs(x)) / 2.0;
    && JustBelow(Abs(x), d, e) && Outcome(t, env, (x < 0.0) != negResult, v, y, r, {})
    && y != ToRound(t, env, v) && RightIffSteady(x, v, d, negResult, env, t, y)
  }

  ghost function ProductOf(a: Un, c: Un, prodZero: bool): real {
    if prodZero then 0.0 else Val(a.m, a.e - 63) * Val(c.m, c.e - 63)
  }

  /** The exact sum of the unpacked operands. */
  ghost function Total(a: Un, c: Un, b: Un, prodZero: bool, addend: bool): real {
    var p := ProductOf(a, c, prodZero);
    var q := if addend then Val(b.m, b.e - 63) else 0.0;
    (if a.s != c.s then -p else p) + if b.s then -q else q
  }

  /** The arithmetic part, on unpacked operands that are not both zero. */
  method FmaFinite(a: Un, c: Un, b: Un, prodZero: bool, addend: bool, negResult: bool, env: Env, t: Tgt)
    returns (r: R, ghost y: real)
    requires a.m < W64 && c.m < W64 && b.m < W64 && (prodZero || (Normal(a) && Normal(c)))
    requires (addend ==> Normal(b)) && (!prodZero || addend)
    ensures Rounded(Total(a, c, b, prodZero, addend), AsSeen(a, c, b, prodZero, addend), env.rn == TowardMinus, negResult, env, t, y, r)
    ensures !prodZero && addend && Drops(a, c, b) ==>
      Dropped(Total(a, c, b, prodZero, addend), Coarse(a, c, b), CoarseExp(a, c, b), negResult, env, t, y, r)
  {
    hide Val, Pow2, Outcome, RoundPack, InWindow, Product, Lost, Drops, AsSeen, CoarseIn, Coarse, Total, RightIffSteady, JustBelow, Decided;
    y := 0.0;
    ghost var x, v := Total(a, c, b, prodZero, addend), AsSeen(a, c, b, prodZero, addend);
    var sum := Accumulate(a, c, b, prodZero, addend);
    if sum.ExactZero? {
      r := R(PackZero((env.rn == TowardMinus) != negResult), {});
      return;
    }
    var sign, sticky := sum.sign != negResult, sum.jam || sum.acc.lo != 0;
    r := RoundPack(sign, sum.exp, sum.acc.hi, sticky, env, t, {});
    WindowStands(v, sum.acc, sum.exp, sum.jam);
    y := RoundPackCorrect(v, sign, sum.exp, sum.acc.hi, sticky, 0, env, t, {});
    if !prodZero && addend && Drops(a, c, b) {
      SeenDropped(a, c, b, prodZero, addend);
      DropSteady(a, c, b, sum, x, v, sign, negResult, env, t, y);
    }
  }

  /** With bits dropped: when the rounding is still that of the exact value. */
  lemma DropSteady(a: Un, c: Un, b: Un, sum: Sum, x: real, v: real, sign: bool, negResult: bool, env: Env, t: Tgt, y: real)
    requires a.m < W64 && c.m < W64 && CoarseIn(a, c, b, sum) && JustBelow(Abs(x), Coarse(a, c, b), CoarseExp(a, c, b))
    requires sign == ((x < 0.0) != negResult) && v > Abs(x)
    requires if env.ue && v < Two(FormatOf(t).emin) then
        DecidedFreely(t, env.rn, sign, Scaled(v, Scale(t)), Work(sum.exp + Scale(t), sum.acc.hi, true), y)
      else y == Decided(Work(sum.exp, sum.acc.hi, true), env.rn, sign, FormatOf(t))
    ensures RightIffSteady(x, v, Coarse(a, c, b), negResult, env, t, y)
  {
    hide Val, Pow2, Two, Correct, Steady, Decided, CoarseUnits, CoarseExp, Product, Scaled;
    var d, w, s := CoarseUnits(a, c, b), CoarseExp(a, c, b), Scale(t);
    var k := Work(sum.exp, sum.acc.hi, sum.acc.lo != 0);
    WindowExact(sum.acc.Value(), sum.exp - 127);
    WindowStands(Val(d, w), sum.acc, sum.exp, false);
    ValAdd(0, 0, w);
    ValOrder(0, W64, w);
    if env.ue && v < Two(FormatOf(t).emin) {
      ScaledOrder(Abs(x), v, s);
      forall e: int | Two(e) <= Scaled(Abs(x), s)
        ensures Correct(Free(t, e), env.rn, sign, Scaled(Abs(x), s), y) <==> Steady(Free(t, e), env.rn, Scaled(Val(d, w), s))
      {
        assert y == Decided(Work(sum.exp + s, sum.acc.hi, true), env.rn, sign, Free(t, e));
        ScaledSteady(Abs(x), d, w, k, env.rn, sign, Free(t, e), s);
      }
    } else {
      SteadyIff(Abs(x), d, w, k, env.rn, sign, FormatOf(t));
    }
  }

  lemma ScaledSteady(x: real, d: nat, e: int, k: Work, rn: Mode, sign: bool, f: Format, s: int)
    requires Sized(f) && SIGN <= k.sig < W64 && Val(d, e) - Two(e) < x < Val(d, e) && x > 0.0
    requires Stands(Val(d, e), k.sig, k.exp, k.sticky, 0) && e + 3 <= k.exp - 63 + Cut(f, k.exp + s)
    ensures Correct(f, rn, sign, Scaled(x, s), Decided(Work(k.exp + s, k.sig, true), rn, sign, f)) <==> Steady(f, rn, Scaled(Val(d, e), s))
  {
    hide Val, Pow2, Two, Correct, Steady, Decided, Stands, Scaled;
    StandsScaled(Val(d, e), k.sig, k.exp, k.sticky, 0, s);
    ValScaled(d, e, s);
    ScaledGap(x, d, e, s);
    SteadyIff(Scaled(x, s), d, e + s, Work(k.exp + s, k.sig, k.sticky), rn, sign, f);
  }

  lemma ScaledGap(x: real, d: nat, e: int, s: int)
    requires Val(d, e) - Two(e) < x < Val(d, e) && x > 0.0
    ensures Val(d, e + s) - Two(e + s) < Scaled(x, s) < Val(d, e + s) && Scaled(x, s) > 0.0
  {
    hide Val, Two, Scaled;
    ValScaled(d, e, s);
    ValScaled(1, e, s);
    ValAdd(0, 0, e);
    ValAdd(0, 0, e + s);
    ScaledOrder(x, Val(d, e), s);
    ScaledOrder(Val(d, e) - Two(e), x, s);
    ScaledMinus(Val(d, e), Two(e), s);
    ScaledOrder(0.0, x, s);
    ScaledMinus(0.0, 0.0, s);
  }

  lemma ScaledMinus(a: real, b: real, s: int)
    ensures Scaled(a - b, s) == Scaled(a, s) - Scaled(b, s)
    ensures Scaled(0.0, s) == 0.0
  {
    hide Two;
  }

  /** The exact value, in terms of the unpacked operands. */
  lemma ExactIsTotal(fa: U64, fc: U64, fb0: U64, hasAddend: bool, negAdd: bool)
    requires Ordinary(fa) && Ordinary(fc) && (hasAddend ==> Ordinary(fb0))
    ensures var fb := if hasAddend && negAdd then FlipSign(fb0) else fb0;
      var a, c, b := Unpack(fa), Unpack(fc), Unpack(fb);
      var prodZero, addend := a.c == Zero || c.c == Zero, hasAddend && b.c != Zero;
      && Exact(fa, fc, fb0, hasAddend, negAdd) == Total(a, c, b, prodZero, addend)
      && (prodZero && !addend ==> Total(a, c, b, prodZero, addend) == 0.0)
      && a.s == Negative(fa) && c.s == Negative(fc) && (hasAddend ==> b.s == (Negative(fb0) != negAdd))
      && a.m < W64 && c.m < W64 && b.m < W64
  {
    hide Val, Pow2, Magnitude, Negative, Unpack, FlipSign, ProductOf;
    OperandParts(fa);
    OperandParts(fc);
    OperandParts(fb0);
    OperandParts(FlipSign(fb0));
    ProductParts(fa, fc);
    FlipSignIs(fb0);
    if hasAddend {
      AddendParts(fb0, negAdd);
    }
  }

  lemma ProductParts(fa: U64, fc: U64)
    requires Ordinary(fa) && Ordinary(fc)
    ensures var a, c := Unpack(fa), Unpack(fc);
      var p := ProductOf(a, c, a.c == Zero || c.c == Zero);
      && Signed(fa) * Signed(fc) == (if a.s != c.s then -p else p)
      && (a.c == Zero || c.c == Zero ==> p == 0.0)
      && a.s == Negative(fa) && c.s == Negative(fc)
  {
    hide Val, Pow2, Magnitude, Negative, Unpack;
    ZeroOrPositive(fa);
    ZeroOrPositive(fc);
    OperandParts(fa);
    OperandParts(fc);
    SignedProduct(fa, fc);
    ProductZero(Magnitude(fa), Magnitude(fc));
  }

  lemma AddendParts(fb0: U64, negAdd: bool)
    requires Ordinary(fb0)
    ensures var b := Unpack(if negAdd then FlipSign(fb0) else fb0);
      var q := if b.c != Zero then Val(b.m, b.e - 63) else 0.0;
      && (if negAdd then -Signed(fb0) else Signed(fb0)) == (if b.s then -q else q)
      && b.s == (Negative(fb0) != negAdd)
  {
    hide Val, Pow2, Magnitude, Negative, Unpack, FlipSign;
    FlipSignIs(fb0);
    ZeroOrPositive(fb0);
    OperandParts(fb0);
  }

  /** The coarse difference of the operands, and the exponent of its unit. */
  ghost function CoarseOf(fa: U64, fc: U64, fb0: U64, negAdd: bool): (real, int)
    requires DropsBits(fa, fc, fb0, true, negAdd)
  {
    hide Drops, Product;
    var a, c, b := Unpack(fa), Unpack(fc), Unpack(if negAdd then FlipSign(fb0) else fb0);
    (Coarse(a, c, b), CoarseExp(a, c, b))
  }

  /** fmaCore with the host fast path off: for finite operands, the exact
      a * c + b (negated on request) rounded once. Where unlike signs meet an
      alignment that drops bits, the exact magnitude lies less than a unit of the
      window below the coarse difference, a value just above is rounded instead,
      and the result is still right exactly when the coarse difference is no
      boundary of the rounding mode. */
  method FmaCore(fa: U64, fc: U64, fb0: U64, hasAddend: bool, negAdd: bool, negResult: bool, env: Env, t: Tgt)
    returns (r: R, ghost y: real)
    ensures !(Ordinary(fa) && Ordinary(fc) && (hasAddend ==> Ordinary(fb0))) ==>
      r == FmaSpecial(fa, fc, fb0, hasAddend, negAdd, negResult)
    ensures Ordinary(fa) && Ordinary(fc) && (hasAddend ==> Ordinary(fb0)) && !DropsBits(fa, fc, fb0, hasAddend, negAdd) ==>
      var x := Exact(fa, fc, fb0, hasAddend, negAdd);
      Rounded(x, Abs(x), ZeroSign(fa, fc, fb0, hasAddend, negAdd, env.rn), negResult, env, t, y, r)
    ensures hasAddend && DropsBits(fa, fc, fb0, true, negAdd) ==>
      var (d, e) := CoarseOf(fa, fc, fb0, negAdd);
      Dropped(Exact(fa, fc, fb0, true, negAdd), d, e, negResult, env, t, y, r)
  {
    hide Exact, Total, Outcome, Unpack, FmaSpecial, Product, Lost, FlipSign, Negative, Drops, Coarse, CoarseExp, Dropped;
    y := 0.0;
    var fb := if hasAddend && negAdd then FlipSign(fb0) else fb0;
    FlipSignIs(fb0);
    var a, c, b := Unpack(fa), Unpack(fc), Unpack(fb);
    if !(Ordinary(fa) && Ordinary(fc) && (hasAddend ==> Ordinary(fb))) {
      r := FmaSpecial(fa, fc, fb0, hasAddend, negAdd, negResult);
      return;
    }
    ExactIsTotal(fa, fc, fb0, hasAddend, negAdd);
    OperandParts(fa);
    OperandParts(fc);
    OperandParts(fb);
    var prodZero, addend := a.c == Zero || c.c == Zero, hasAddend && b.c != Zero;
    if prodZero && !addend {
      var ps := a.s != c.s;
      var sign := if !hasAddend || ps == b.s then ps else env.rn == TowardMinus;
      r := R(PackZero(sign != negResult), {});
      return;
    }
    r, y := FmaFinite(a, c, b, prodZero, addend, negResult, env, t);
    if Exact(fa, fc, fb0, hasAddend, negAdd) == 0.0 {
      CancellationSigns(a, c, b, prodZero, addend);
    }
  }

  /** The magnitude fmaCore rounds. */
  ghost function Seen(fa: U64, fc: U64, fb: U64, hasAddend: bool, negAdd: bool): real {
    var x := Abs(Exact(fa, fc, fb, hasAddend, negAdd));
    if hasAddend && DropsBits(fa, fc, fb, true, negAdd) then
      var d := CoarseOf(fa, fc, fb, negAdd).0;
      d + (d - x) / 2.0
    else x
  }

  /** In one statement for finite operands: that magnitude rounded once, with the
      exact sign, and never exactly where bits were dropped. */
  method FmaRounded(fa: U64, fc: U64, fb: U64, hasAddend: bool, negAdd: bool, negResult: bool, env: Env, t: Tgt)
    returns (r: R, ghost y: real)
    requires Ordinary(fa) && Ordinary(fc) && (hasAddend ==> Ordinary(fb))
    ensures var x, v := Exact(fa, fc, fb, hasAddend, negAdd), Seen(fa, fc, fb, hasAddend, negAdd);
      && Rounded(x, v, ZeroSign(fa, fc, fb, hasAddend, negAdd, env.rn), negResult, env, t, y, r)
      && (x != 0.0 ==> v > 0.0)
      && (if hasAddend && DropsBits(fa, fc, fb, true, negAdd) then x != 0.0 && y != ToRound(t, env, v) else v == Abs(x))
    ensures hasAddend && DropsBits(fa, fc, fb, true, negAdd) ==>
      var (d, e) := CoarseOf(fa, fc, fb, negAdd);
      Dropped(Exact(fa, fc, fb, true, negAdd), d, e, negResult, env, t, y, r)
  {
    hide *;
    r, y := FmaCore(fa, fc, fb, hasAddend, negAdd, negResult, env, t);
    if hasAddend && DropsBits(fa, fc, fb, true, negAdd) {
      var (d, e) := CoarseOf(fa, fc, fb, negAdd);
      DroppedRounded(Exact(fa, fc, fb, true, negAdd), d, e, ZeroSign(fa, fc, fb, true, negAdd, env.rn), negResult, env, t, y, r);
      assert Seen(fa, fc, fb, true, negAdd) == d + (d - Abs(Exact(fa, fc, fb, true, negAdd))) / 2.0 by {
        SeenIs(fa, fc, fb, negAdd);
      }
    } else {
      PlainSeen(fa, fc, fb, hasAddend, negAdd);
    }
  }

  lemma SeenIs(fa: U64, fc: U64, fb: U64, negAdd: bool)
    requires DropsBits(fa, fc, fb, true, negAdd)
    ensures var d := CoarseOf(fa, fc, fb, negAdd).0;
      Seen(fa, fc, fb, true, negAdd) == d + (d - Abs(Exact(fa, fc, fb, true, negAdd))) / 2.0
  {
    hide DropsBits, CoarseOf, Exact, Abs;
  }

  lemma PlainSeen(fa: U64, fc: U64, fb: U64, hasAddend: bool, negAdd: bool)
    requires !(hasAddend && DropsBits(fa, fc, fb, hasAddend, negAdd))
    ensures Seen(fa, fc, fb, hasAddend, negAdd) == Abs(Exact(fa, fc, fb, hasAddend, negAdd))
    ensures !DropsBits(fa, fc, fb, hasAddend, negAdd)
    ensures Exact(fa, fc, fb, hasAddend, negAdd) != 0.0 ==> Seen(fa, fc, fb, hasAddend, negAdd) > 0.0
  {
    hide CoarseOf, Exact, Unpack, Drops, FlipSign;
  }

  lemma DroppedRounded(x: real, d: real, e: int, zeroSign: bool, negResult: bool, env: Env, t: Tgt, y: real, r: R)
    requires Dropped(x, d, e, negResult, env, t, y, r)
    ensures var v := d + (d - Abs(x)) / 2.0;
      x != 0.0 && v > 0.0 && Rounded(x, v, zeroSign, negResult, env, t, y, r) && y != ToRound(t, env, v)
  {
    hide Outcome, Val, RightIffSteady, ToRound;
    ValAdd(0, 0, e);
    ValOrder(0, W64, e);
  }

  /** A nonzero product or addend cancels only against an unlike sign. */
  lemma CancellationSigns(a: Un, c: Un, b: Un, prodZero: bool, addend: bool)
    requires prodZero || (SIGN <= a.m < W64 && SIGN <= c.m < W64)
    requires addend ==> SIGN <= b.m < W64
    requires (!prodZero || addend) && Total(a, c, b, prodZero, addend) == 0.0
    ensures addend && (a.s != c.s) != b.s
  {
    hide Val;
    if addend {
      PositiveVal(b.m, b.e - 63);
    }
    if !prodZero {
      PositiveVal(a.m, a.e - 63);
      PositiveVal(c.m, c.e - 63);
      ProductZero(Val(a.m, a.e - 63), Val(c.m, c.e - 63));
    }
  }

  lemma OperandParts(f: U64)
    ensures Unpack(f).m < W64
    ensures Unpack(f).c == Finite ==> Normal(Unpack(f)) && Val(Unpack(f).m, Unpack(f).e - 63) == Magnitude(f)
  {
    hide Val, Pow2, Magnitude, TopBit;
    if Unpack(f).c == Finite {
      UnpackValue(f);
    }
  }

  lemma SignedProduct(fa: U64, fc: U64)
    ensures var p := Magnitude(fa) * Magnitude(fc);
      Signed(fa) * Signed(fc) == if Negative(fa) != Negative(fc) then -p else p
  {
    hide Magnitude, Negative;
  }

  lemma ProductZero(u: real, v: real)
    ensures u > 0.0 && v > 0.0 ==> u * v > 0.0
    ensures u == 0.0 || v == 0.0 ==> u * v == 0.0
  {
  }

  // ---- a witness ------------------------------------------------------------

  /** -2^-200. */
  const TINY: U64 := 0xB370_0000_0000_0000

  lemma WitnessFields()
    ensures Exponent(ONE) == 1023 && Fraction(ONE) == 0 && !Negative(ONE)
    ensures Exponent(TINY) == 823 && Fraction(TINY) == 0 && Negative(TINY)
  {
  }

  lemma WitnessOperands()
    ensures Unpack(ONE) == Un(Finite, false, 0, SIGN) && Unpack(TINY) == Un(Finite, true, -200, SIGN)
  {
    hide Pow2, TopBit, Exponent, Fraction, Negative;
    WitnessFields();
    Pow2Words();
  }

  lemma SameWords(p: U128, q: U128)
    requires p.Ok() && q.Ok() && p.Value() == q.Value()
    ensures p == q
  {
  }

  lemma WitnessProduct()
    ensures Product(Un(Finite, false, 0, SIGN), Un(Finite, false, 0, SIGN)) == (U128(SIGN, 0), 0)
  {
    hide Mul64, Shl128, Pow2;
    Mul64Is(SIGN, SIGN);
    SameWords(Mul64(SIGN, SIGN), U128(SIGN / 2, 0));
    Shl128Is(U128(SIGN / 2, 0), 1);
    Pow2Small();
    SameWords(Shl128(U128(SIGN / 2, 0), 1), U128(SIGN, 0));
  }

  lemma WitnessDrops()
    ensures DropsBits(ONE, ONE, TINY, true, false) && CoarseOf(ONE, ONE, TINY, false) == (Val(HALF128, -127), -127)
  {
    WitnessOperands();
    WitnessProduct();
    hide Unpack, Product, Val;
  }

  /** Toward zero, a dropped operand under a representable coarse difference is
      always rounded the wrong way: that difference is delivered, or the largest
      number when it is past it, where the exact magnitude lies below. */
  method DroppedTowardZero(fa: U64, fc: U64, fb: U64, t: Tgt) returns (r: R)
    requires DropsBits(fa, fc, fb, true, false) && Representable(FormatOf(t), CoarseOf(fa, fc, fb, false).0)
    ensures var x, d, f := Exact(fa, fc, fb, true, false), CoarseOf(fa, fc, fb, false).0, FormatOf(t);
      && Abs(x) < d && !Correct(f, TowardZero, x < 0.0, Abs(x), d)
      && (d <= MaxFinite(f) ==> HasValue(r, x < 0.0, d) && (d >= Two(f.emin) ==> r.fl == {Xx}))
      && (d > MaxFinite(f) ==> HasValue(r, x < 0.0, MaxFinite(f)) && r.fl == {Ox, Xx})
  {
    hide *;
    var env := Env(TowardZero, false, false, false);
    ghost var y;
    r, y := FmaCore(fa, fc, fb, true, false, false, env, t);
    NotSteady(Exact(fa, fc, fb, true, false), CoarseOf(fa, fc, fb, false).0, CoarseOf(fa, fc, fb, false).1, env, t, y, r);
  }

  /** So 1.0 - 2^-200 toward zero comes out as 1.0. */
  method OneMinusTiny(t: Tgt) returns (r: R)
    ensures r == R(ONE, {Xx})
    ensures var x := Exact(ONE, ONE, TINY, true, false);
      0.0 < x < 1.0 && !Correct(FormatOf(t), TowardZero, false, x, 1.0)
  {
    hide Correct, DropsBits, CoarseOf, Representable, Val, Magnitude, Exact, Two, HasValue, MaxFinite;
    WitnessDrops();
    OneIs();
    OneRepresentable(FormatOf(t));
    OneInside(FormatOf(t));
    r := DroppedTowardZero(ONE, ONE, TINY, t);
    TinyBelowOne();
    OnlyOne(r);
  }

  lemma OneIs()
    ensures Val(HALF128, -127) == 1.0 && IsFinite(ONE) && !Negative(ONE) && Magnitude(ONE) == 1.0
  {
    hide Val, Pow2, Two, Exponent, Fraction, Negative, Magnitude, IsFinite;
    WitnessFields();
    PowerIs(ONE, 0);
    Pow2Words();
    Pow2Add(64, 63);
    Rescale(1, -127, 127);
    ValAdd(0, 1, 0);
    ValUnit(1);
  }

  /** A power of two as a double. */
  lemma PowerIs(f: U64, e: int)
    requires -1022 <= e <= 1023 && Exponent(f) == e + 1023 && Fraction(f) == 0
    ensures IsFinite(f) && Magnitude(f) == Two(e)
  {
    hide Val, Pow2, Two, Exponent, Fraction;
    Pow2Words();
    Rescale(1, e - 52, 52);
    ValAdd(0, 1, e);
  }

  lemma OnlyOne(r: R)
    requires HasValue(r, false, 1.0)
    ensures r.bits == ONE
  {
    hide Magnitude, Negative, IsFinite, Val;
    OneIs();
    DoubleUnique(r.bits, ONE);
  }

  /** 1.0 is a normalised number of either format. */
  lemma OneInside(f: Format)
    requires Wf(f) && f.emin <= 0 && f.emax >= 0
    ensures Two(f.emin) <= 1.0 <= MaxFinite(f)
  {
    assert Pow2(f.p) == 2 * Pow2(f.p - 1);
    hide Two, Val, Pow2;
    TwoMono(f.emin, 0);
    ValAdd(0, 1, 0);
    ValUnit(1);
    TwoMono(0, f.emax);
    Rescale(1, f.emax - f.p + 1, f.p - 1);
    ValAdd(0, 1, f.emax);
    ValOrder(Pow2(f.p - 1), Pow2(f.p) - 1, f.emax - f.p + 1);
  }

  lemma TinyBelowOne()
    ensures 0.0 < Exact(ONE, ONE, TINY, true, false) < 1.0
  {
    hide Val, Pow2, Two, Exponent, Fraction, Negative, Magnitude, IsFinite;
    WitnessFields();
    OneIs();
    PowerIs(TINY, -200);
    BelowOne(-200);
  }

  lemma BelowOne(e: int)
    requires e < 0
    ensures 0.0 < Two(e) < 1.0
  {
    hide Two, Val;
    TwoStep(e);
    TwoMono(e + 1, 0);
    ValAdd(0, 1, 0);
    ValUnit(1);
  }

  lemma NotSteady(x: real, d: real, e: int, env: Env, t: Tgt, y: real, r: R)
    requires Dropped(x, d, e, false, env, t, y, r) && env == Env(TowardZero, false, false, false) && Representable(FormatOf(t), d)
    ensures y == d && Abs(x) < d && !Correct(FormatOf(t), TowardZero, x < 0.0, Abs(x), d)
    ensures d <= MaxFinite(FormatOf(t)) ==> HasValue(r, x < 0.0, d) && (d >= Two(FormatOf(t).emin) ==> r.fl == {Xx})
    ensures d > MaxFinite(FormatOf(t)) ==> HasValue(r, x < 0.0, MaxFinite(FormatOf(t))) && r.fl == {Ox, Xx}
  {
    hide Representable, Midpoint, Two, Val, HasValue, MaxFinite;
    var v := d + (d - Abs(x)) / 2.0;
    JustAboveStays(FormatOf(t), d, e, v, y);
  }

  /** To nearest, a representable coarse difference is the right result, but FR,
      which should say that the magnitude was rounded up, stays clear. */
  lemma NearestMissesFr(x: real, d: real, e: int, negResult: bool, env: Env, t: Tgt, y: real, r: R)
    requires Dropped(x, d, e, negResult, env, t, y, r) && env.rn == NearestEven
    requires Two(FormatOf(t).emin) <= d <= MaxFinite(FormatOf(t)) && Representable(FormatOf(t), d)
    ensures Correct(FormatOf(t), NearestEven, (x < 0.0) != negResult, Abs(x), d) && d > Abs(x)
    ensures HasValue(r, (x < 0.0) != negResult, d) && r.fl == {Xx}
  {
    hide Representable, Midpoint, Two, Val, HasValue, MaxFinite, Overflowed, EvenIn;
    var v := d + (d - Abs(x)) / 2.0;
    NearestStays(FormatOf(t), d, e, v, y);
    MidpointNot(FormatOf(t), d);
  }

  lemma MidpointNot(f: Format, d: real)
    requires Representable(f, d)
    ensures !Midpoint(f, d)
  {
    hide Representable, Midpoint;
    if Midpoint(f, d) {
      MidpointNotRepresentable(f, d);
    }
  }

  lemma NearestStays(f: Format, d: real, e: int, v: real, y: real)
    requires Sized(f) && Representable(f, d) && d > Val(W64, e) && d < v < d + Two(e) / 2.0 && RoundsNearest(f, v, y)
    ensures y == d
  {
    hide Val, Pow2, Two, EvenIn, Representable;
    ValAdd(W64 - 1, 1, e);
    ValAdd(0, 1, e);
    var a := InUnitsOf(f, d, e);
    var b := InUnitsOf(f, y, e);
    ValOrder(b, a, e);
    ValOrder(a + 1, b, e);
    ValAdd(a, 1, e);
  }

  /** Nothing representable lies within a unit above a representable number that
      spans more than a word of units. */
  lemma JustAboveStays(f: Format, d: real, e: int, v: real, y: real)
    requires Sized(f) && Representable(f, d) && d > Val(W64, e) && d < v < d + Two(e) && RoundsDown(f, v, y)
    ensures y == d
  {
    hide Val, Pow2, Two;
    ValAdd(W64 - 1, 1, e);
    ValAdd(0, 1, e);
    var a := InUnitsOf(f, d, e);
    var b := InUnitsOf(f, y, e);
    ValOrder(b, a, e);
    ValOrder(a + 1, b, e);
    ValAdd(a, 1, e);
  }

  /** A representable number that large is a whole number of units. */
  lemma InUnitsOf(f: Format, d: real, e: int) returns (n: nat)
    requires Sized(f) && Representable(f, d) && d > Val(W64 - 1, e)
    ensures d == Val(n, e)
  {
    hide Val, Pow2;
    var m: nat, q: int :| Spells(f, m, q, d);
    Pow2Words();
    Pow2Mono(f.p, 53);
    if q <= e {
      Rescale(W64 - 1, q, e - q);
      MulLe(1, Pow2(e - q), W64 - 1);
      ValOrder(m, (W64 - 1) * Pow2(e - q), q);
    }
    n := m * Pow2(q - e);
    Rescale(m, e, q - e);
  }

  lemma OneRepresentable(f: Format)
    requires Wf(f) && f.emin < -60
    ensures Representable(f, Val(HALF128, -127))
  {
    Pow2Words();
    Pow2Mono(1, f.p);
    hide Val, Pow2;
    Pow2Add(64, 63);
    Rescale(1, -127, 127);
    assert Spells(f, 1, 0, Val(HALF128, -127));
  }
}
