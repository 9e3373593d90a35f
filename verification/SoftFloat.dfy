/** The integer softfloat's common ground: unpacking a double, packing an exact
    value, and roundPack, which every arithmetic operation ends in. */
module SoftFloat {
  import opened Dyadic
  import opened Words
  import opened Rounding

  type U64 = x: nat | x < W64

  const SIGN: nat := 0x8000_0000_0000_0000
  const HIDDEN: nat := 0x10_0000_0000_0000 // 1 << 52
  const INF: nat := 0x7FF0_0000_0000_0000
  const QNAN: nat := 0x7FF8_0000_0000_0000
  const ONE: nat := 0x3FF0_0000_0000_0000
  const MAX_DBL: nat := 0x7FEF_FFFF_FFFF_FFFF
  const MAX_SGL: nat := 0x47EF_FFFF_E000_0000

  datatype Flag = Ox | Ux | Zx | Xx | Fr | Vxsnan | Vxisi | Vxidi | Vxzdz | Vximz | Vxcvi | Vxsqrt
  datatype Env = Env(rn: Mode, oe: bool, ue: bool, ni: bool)
  datatype Tgt = Dbl | Sgl
  datatype R = R(bits: U64, fl: set<Flag>)

  function FormatOf(t: Tgt): (f: Format)
    ensures Wf(f)
  {
    if t.Sgl? then SINGLE else DOUBLE
  }

  // ---- the double format ----------------------------------------------------

  datatype Class = Zero | Finite | Infinite | QuietNaN | SignallingNaN
  datatype Un = Un(c: Class, s: bool, e: int, m: nat)

  function Exponent(f: U64): (e: nat)
    ensures e < 2048
  {
    f / HIDDEN % 2048
  }

  function Fraction(f: U64): nat {
    f % HIDDEN
  }

  function Negative(f: U64): bool {
    f / SIGN == 1
  }

  function Unpack(f: U64): Un {
    var s, e, frac := Negative(f), Exponent(f), Fraction(f);
    if e == 0x7FF then
      Un(if frac == 0 then Infinite else if frac / Pow2(51) == 1 then QuietNaN else SignallingNaN, s, 0, 0)
    else if e == 0 then
      if frac == 0 then Un(Zero, s, 0, 0)
      else
        var top := TopBit(frac);
        Un(Finite, s, top as int - 1074, frac * Pow2(63 - Min(top, 63)))
    else Un(Finite, s, e - 1023, (frac + HIDDEN) * Pow2(11))
  }

  function Min(a: nat, b: nat): nat {
    if a < b then a else b
  }

  /** The magnitude a finite double denotes. */
  ghost function Magnitude(f: U64): real {
    if Exponent(f) == 0 then Val(Fraction(f), -1074) else Val(HIDDEN + Fraction(f), Exponent(f) - 1075)
  }

  /** A finite double as a signed real. */
  ghost function Signed(f: U64): real {
    if Negative(f) then -Magnitude(f) else Magnitude(f)
  }

  /** A finite double's position on its format's grid. */
  lemma DoubleOnGrid(f: U64)
    requires IsFinite(f)
    ensures var (k, q) := if Exponent(f) == 0 then (Fraction(f), -1074) else (HIDDEN + Fraction(f), Exponent(f) - 1075);
      OnGrid(DOUBLE, k, q) && Magnitude(f) == Val(k, q)
  {
    hide Val, Pow2;
    Pow2Words();
  }

  /** Fields and sign make the word. */
  lemma FieldsUnique(f: U64, g: U64)
    requires Exponent(f) == Exponent(g) && Fraction(f) == Fraction(g) && Negative(f) == Negative(g)
    ensures f == g
  {
    DivMod(f, HIDDEN);
    DivMod(g, HIDDEN);
    SignAbove(f);
    SignAbove(g);
  }

  lemma SignAbove(f: U64)
    ensures f / HIDDEN == Exponent(f) + if Negative(f) then 2048 else 0
  {
    var q := f / HIDDEN;
    DivMod(f, HIDDEN);
    DivUnique(f, SIGN, q / 2048, q % 2048 * HIDDEN + f % HIDDEN);
  }

  /** A finite double is determined by its sign and magnitude. */
  lemma DoubleUnique(f: U64, g: U64)
    requires IsFinite(f) && IsFinite(g) && Magnitude(f) == Magnitude(g) && Negative(f) == Negative(g)
    ensures f == g
  {
    hide Magnitude, Negative, Exponent, Fraction, OnGrid, Val;
    DoubleOnGrid(f);
    DoubleOnGrid(g);
    var (k, q) := if Exponent(f) == 0 then (Fraction(f), -1074) else (HIDDEN + Fraction(f), Exponent(f) - 1075);
    var (k', q') := if Exponent(g) == 0 then (Fraction(g), -1074) else (HIDDEN + Fraction(g), Exponent(g) - 1075);
    GridUnique(DOUBLE, k, q, k', q');
    FractionSmall(f);
    FractionSmall(g);
    FieldsUnique(f, g);
  }

  lemma FractionSmall(f: U64)
    ensures Fraction(f) < HIDDEN
  {
  }

  predicate IsFinite(f: U64) {
    Exponent(f) != 0x7FF
  }

  predicate Nan(v: U64) {
    Exponent(v) == 0x7FF && Fraction(v) != 0
  }

  /** A NaN whose first fraction bit is clear. */
  predicate Snan(v: U64) {
    Nan(v) && Fraction(v) < 0x8_0000_0000_0000
  }

  predicate IsNaN(u: Un) {
    u.c == QuietNaN || u.c == SignallingNaN
  }

  /** Sets the quiet bit, fraction bit 51. */
  function Quiet(nan: U64): (r: U64) {
    if nan / 0x8_0000_0000_0000 % 2 == 1 then nan else nan + 0x8_0000_0000_0000
  }

  function PackZero(s: bool): U64 {
    if s then SIGN else 0
  }

  function PackInf(s: bool): U64 {
    if s then INF + SIGN else INF
  }

  /** packExact: an exact normalised value as a double, denormals included. The
      fields do not overlap, so the source's ORs are sums; an exponent too large
      for its field (only a trap-scaled single reaches that) runs into the sign. */
  function PackExact(sign: bool, vexp: int, nsig: U64): (r: nat)
    ensures r < W64
  {
    hide Pow2;
    if vexp < -1022 then
      var sh := -1011 - vexp;
      PackZero(sign) + if sh >= 64 then 0 else DenormalFraction(nsig, sh)
    else
      var e := vexp + 1023;
      PackZero(sign || e / 2048 % 2 == 1) + e % 2048 * HIDDEN + nsig * 2 % W64 / 4096
  }

  function DenormalFraction(nsig: U64, sh: nat): (r: nat)
    requires 12 <= sh
    ensures r < HIDDEN
  {
    Pow2Words();
    Pow2Mono(12, sh);
    hide Pow2;
    ShrBound(nsig, Pow2(sh));
    Shr(nsig, sh)
  }

  lemma ShrBound(a: nat, p: nat)
    requires a < W64 && p >= 4096
    ensures a / p < HIDDEN
  {
    DivMod(a, p);
    if a / p >= HIDDEN {
      MulLe(HIDDEN, a / p, p);
    }
  }

  lemma Fields(sign: bool, e: nat, fr: nat)
    requires e < 2048 && fr < HIDDEN
    ensures var r := PackZero(sign) + e * HIDDEN + fr;
      r < W64 && Negative(r) == sign && Exponent(r) == e && Fraction(r) == fr
  {
  }

  lemma FractionBits(nsig: U64)
    requires nsig >= SIGN && nsig % 2048 == 0
    ensures var fr := nsig * 2 % W64 / 4096;
      fr < HIDDEN && nsig == (HIDDEN + fr) * 2048
  {
    DivUnique(nsig * 2, W64, 1, nsig * 2 - W64);
  }

  /** Packing loses nothing when no set bit falls below the format. */
  lemma PackExactValue(sign: bool, vexp: int, nsig: U64)
    requires nsig >= SIGN && vexp <= 1023
    requires vexp >= -1022 ==> nsig % 2048 == 0
    requires vexp < -1022 ==> -1011 - vexp < 64 && Low(nsig, -1011 - vexp) == 0
    ensures var r := PackExact(sign, vexp, nsig);
      IsFinite(r) && Negative(r) == sign && Magnitude(r) == Val(nsig, vexp - 63)
  {
    hide Val, Pow2, Exponent, Fraction, Negative;
    if vexp < -1022 {
      var sh := -1011 - vexp;
      var fr := DenormalFraction(nsig, sh);
      Fields(sign, 0, fr);
      DivMod(nsig, Pow2(sh));
      Rescale(fr, vexp - 63, sh);
    } else {
      var fr := nsig * 2 % W64 / 4096;
      FractionBits(nsig);
      Fields(sign, vexp + 1023, fr);
      Pow2Words();
      Rescale(HIDDEN + fr, vexp - 63, 11);
    }
  }

  /** Shifting the leading one up to bit 63. */
  lemma NormaliseTop(v: nat, top: nat)
    requires Pow2(top) <= v < Pow2(top + 1) && top <= 63
    ensures SIGN <= v * Pow2(63 - top) < W64
    ensures top <= 52 ==> v * Pow2(63 - top) % 2048 == 0
  {
    hide Pow2;
    var p := Pow2(63 - top);
    Pow2Words();
    Pow2Add(top, 63 - top);
    Pow2Add(top + 1, 63 - top);
    MulLe(Pow2(top), v, p);
    MulLe(v + 1, Pow2(top + 1), p);
    Successor(v, p);
    if top <= 52 {
      LowOfShifted(v, 63 - top, 11);
    }
  }

  lemma Successor(v: nat, p: nat)
    ensures (v + 1) * p == v * p + p
  {
  }

  /** Unpacking a finite nonzero double gives its value, normalised to bit 63. */
  lemma UnpackValue(f: U64)
    requires Unpack(f).c == Finite
    ensures var u := Unpack(f);
      && u.s == Negative(f) && SIGN <= u.m < W64 && u.m % 2048 == 0
      && Val(u.m, u.e - 63) == Magnitude(f) && -1074 <= u.e <= 1023
  {
    hide Val, Pow2, TopBit;
    Pow2Words();
    var frac := Fraction(f);
    if Exponent(f) == 0 {
      var top := TopBit(frac);
      if top >= 52 {
        Pow2Mono(52, top);
      }
      NormaliseTop(frac, top);
      Rescale(frac, top as int - 1137, 63 - top);
    } else {
      Rescale(frac + HIDDEN, Exponent(f) - 1086, 11);
    }
  }

  // ---- roundPack ------------------------------------------------------------

  /** A normalised value on its way through rounding: sig * 2^(exp - 63), and
      whether anything lies below. */
  datatype Work = Work(exp: int, sig: nat, sticky: bool)

  /** The underflow arm with UE clear: shift right to the least exponent, jamming
      what falls out into sticky. */
  function Denormalize(w: Work, emin: int): Work {
    if w.exp >= emin then w
    else
      var sh := emin - w.exp;
      if sh >= 64 then Work(emin, 0, w.sticky || w.sig != 0)
      else Work(emin, Shr(w.sig, sh), w.sticky || Shl64(w.sig, 64 - sh) != 0)
  }

  /** Guard, round and sticky below the p kept bits, and the increment of PEM D.1. */
  datatype Kept = Kept(exp: int, kept: nat, inx: bool, inc: bool)

  function RoundKept(w: Work, p: nat, rn: Mode, sign: bool): Kept
    requires 2 <= p <= 53
  {
    var lsb := Shr(w.sig, 64 - p) % 2;
    var g := Shr(w.sig, 63 - p) % 2 == 1;
    var r := Shr(w.sig, 62 - p) % 2 == 1;
    var x := w.sticky || Low(w.sig, 62 - p) != 0;
    var inx := g || r || x;
    var inc := match rn
      case NearestEven => g && (r || x || lsb == 1)
      case TowardZero => false
      case TowardPlus => !sign && inx
      case TowardMinus => sign && inx;
    var kept := Shr(w.sig, 64 - p) + if inc then 1 else 0;
    if Shr(kept, p) != 0 then Kept(w.exp + 1, kept / 2, inx, inc) else Kept(w.exp, kept, inx, inc)
  }

  function Scale(t: Tgt): int {
    if t.Sgl? then 192 else 1536
  }

  function ToInfinity(rn: Mode, sign: bool): bool {
    rn == NearestEven || (rn == TowardPlus && !sign) || (rn == TowardMinus && sign)
  }

  /** The last step: a rounded significand as a double. */
  function Deliver(sign: bool, exp: int, kept: nat, p: nat, emin: int, ni: bool): (r: U64) {
    if kept == 0 then PackZero(sign)
    else
      var m := TopBit(kept);
      var vexp := exp - p + 1 + m;
      if ni && vexp < emin then PackZero(sign)
      else PackExact(sign, vexp, Shl64(kept, 63 - Min(m, 63)))
  }

  /** roundPack: PEM D.1 rounding and the overflow and underflow flow of PEM 3.3.6.2. */
  function RoundPack(sign: bool, exp: int, sig: U64, sticky: bool, env: Env, t: Tgt, fl: set<Flag>): R {
    var f := FormatOf(t);
    var tiny := exp < f.emin;
    var w := if tiny && env.ue then Work(exp + Scale(t), sig, sticky) else Denormalize(Work(exp, sig, sticky), f.emin);
    var k := RoundKept(w, f.p, env.rn, sign);
    var fl1 := fl
      + (if tiny && (env.ue || k.inx) then {Ux} else {})
      + (if k.inx then {Xx} else {}) + (if k.inc then {Fr} else {});
    if !tiny && k.exp > f.emax then
      if env.oe then R(Deliver(sign, k.exp - Scale(t), k.kept, f.p, f.emin, env.ni), fl1 + {Ox})
      else if ToInfinity(env.rn, sign) then R(PackInf(sign), fl1 + {Ox, Xx, Fr})
      else R(PackZero(sign) + (if t.Sgl? then MAX_SGL else MAX_DBL), fl1 + {Ox, Xx} - {Fr})
    else R(Deliver(sign, k.exp, k.kept, f.p, f.emin, env.ni), fl1)
  }

  /** The exact magnitude x that (sig, exp, sticky) stands for: sig * 2^(exp - 63)
      and, if sticky, something less than one unit of its j-th bit above it. */
  ghost predicate Stands(x: real, sig: nat, exp: int, sticky: bool, j: nat) {
    && SIGN <= sig < W64 && Low(sig, j) == 0
    && Val(sig, exp - 63) <= x < Val(sig + Pow2(j), exp - 63)
    && (sticky <==> x != Val(sig, exp - 63))
  }

  /** How far the rounding point lies above bit 0 of the significand. */
  function Cut(f: Format, exp: int): (n: nat)
    requires Sized(f)
    ensures n >= 64 - f.p
  {
    64 - f.p + if exp < f.emin then f.emin - exp else 0
  }

  /** Denormalising first and reading guard, round and sticky afterwards is
      reading the original significand at the cut. */
  lemma KeptAtCut(f: Format, w: Work, rn: Mode, sign: bool)
    requires Sized(f) && w.sig < W64
    ensures var d := Denormalize(w, f.emin);
      var c := Cut(f, w.exp);
      && Shr(d.sig, 64 - f.p) == Shr(w.sig, c)
      && Shr(d.sig, 63 - f.p) == Shr(w.sig, c - 1)
      && (d.sticky || Low(d.sig, 63 - f.p) != 0 <==> w.sticky || Low(w.sig, c - 1) != 0)
  {
    hide Pow2, Shr, Low;
    var sh := f.emin - w.exp;
    Pow2Words();
    if sh >= 64 {
      Pow2Mono(64, sh);
      Pow2Mono(64, Cut(f, w.exp) - 1);
      Pow2Mono(64, Cut(f, w.exp));
      ShrSmall(w.sig, Cut(f, w.exp));
      ShrSmall(w.sig, Cut(f, w.exp) - 1);
      ZeroBits(64 - f.p);
      ZeroBits(63 - f.p);
    } else if sh > 0 {
      ShlLowZero(w.sig, sh);
      ShrShr(w.sig, sh, 64 - f.p);
      ShrShr(w.sig, sh, 63 - f.p);
      var a, b := Low(Shr(w.sig, sh), 63 - f.p), Low(w.sig, sh);
      if a > 0 {
        MulLe(1, a, Pow2(sh));
      }
    }
  }

  lemma ZeroBits(n: nat)
    ensures Shr(0, n) == 0 && Low(0, n) == 0
  {
    ShrSmall(0, n);
  }

  /** The code's increment is the reference decision at the cut. */
  lemma RoundKeptDecides(w: Work, p: nat, rn: Mode, sign: bool)
    requires 2 <= p <= 53 && w.sig < W64
    ensures var n, rest := Shr(w.sig, 63 - p), w.sticky || Low(w.sig, 63 - p) != 0;
      var k := RoundKept(w, p, rn, sign);
      && k.inc == Increment(rn, sign, n / 2, n % 2 == 1, rest) && k.inx == (n % 2 == 1 || rest)
      && Val(k.kept, k.exp - p + 1) == Val(n / 2 + (if k.inc then 1 else 0), w.exp - p + 1)
      && n / 2 < Pow2(p) && k.kept < Pow2(p) && k.exp >= w.exp
      && (n / 2 >= Pow2(p - 1) ==> k.kept >= Pow2(p - 1))
      && (k.exp == w.exp || (k.exp == w.exp + 1 && k.kept == Pow2(p - 1)))
  {
    hide Val, Pow2, Low;
    Pow2Words();
    var n := Shr(w.sig, 63 - p);
    ShrShr(w.sig, 62 - p, 1);
    ShrShr(w.sig, 63 - p, 1);
    LowBit(w.sig, 62 - p);
    KeptBound(w.sig, p);
    var k0 := n / 2 + if RoundKept(w, p, rn, sign).inc then 1 else 0;
    CarryOut(k0, p, w.exp - p + 1);
  }

  /** The low n + 1 bits are all zero exactly when bit n and the low n bits are. */
  lemma LowBit(a: nat, n: nat)
    ensures Low(a, n + 1) != 0 <==> Shr(a, n) % 2 == 1 || Low(a, n) != 0
  {
    ShrShr(a, n, 1);
    Pow2Small();
    hide Pow2, Shr;
    assert Low(Shr(a, n), 1) == Shr(a, n) % 2;
  }

  lemma KeptBound(a: nat, p: nat)
    requires a < W64 && p <= 64
    ensures Shr(a, 64 - p) < Pow2(p)
    ensures a >= SIGN && p > 0 ==> Shr(a, 64 - p) >= Pow2(p - 1)
  {
    hide Pow2;
    Pow2Words();
    var b, q := Pow2(64 - p), Shr(a, 64 - p);
    Pow2Add(p, 64 - p);
    DivMod(a, b);
    if q >= Pow2(p) {
      MulLe(Pow2(p), q, b);
    }
    if a >= SIGN && p > 0 && q < Pow2(p - 1) {
      Pow2Add(p - 1, 64 - p);
      MulLe(q + 1, Pow2(p - 1), b);
    }
  }

  /** A carry out of the kept bits moves the binade point. */
  lemma CarryOut(k0: nat, p: nat, q: int)
    requires p > 0 && k0 <= Pow2(p)
    ensures Shr(k0, p) != 0 <==> k0 == Pow2(p)
    ensures k0 == Pow2(p) ==> k0 / 2 == Pow2(p - 1) && Val(k0 / 2, q + 1) == Val(k0, q)
    ensures Pow2(p - 1) <= Pow2(p) - 1
  {
    assert Pow2(p) == 2 * Pow2(p - 1);
    hide Val, Pow2;
    Pow2Small();
    if k0 < Pow2(p) {
      ShrSmall(k0, p);
    } else {
      DivUnique(k0, Pow2(p), 1, 0);
      Rescale(Pow2(p - 1), q, 1);
    }
  }

  /** The exact value, located on the half-grid of the rounding position. */
  lemma LocateAtCut(x: real, sig: nat, exp: int, sticky: bool, j: nat, c: nat)
    requires Stands(x, sig, exp, sticky, j) && j < c
    ensures Located(x, Shr(sig, c - 1), exp - 63 + c, sticky || Low(sig, c - 1) != 0)
  {
    hide Val, Pow2;
    var h, u := Pow2(c - 1), exp - 63;
    var n, r := Shr(sig, c - 1), Low(sig, c - 1);
    DivMod(sig, h);
    Pow2Add(j, c - 1 - j);
    GrainFits(sig, h, Pow2(j), Pow2(c - 1 - j));
    Rescale(n, u, c - 1);
    Rescale(n + 1, u, c - 1);
    assert (n + 1) * h == n * h + h;
    ValOrder(n * h, sig, u);
    ValOrder(sig + Pow2(j), (n + 1) * h, u);
  }

  /** Multiples of a grain leave room for the grain below a multiple of it. */
  lemma GrainFits(a: nat, h: nat, w: nat, v: nat)
    requires w > 0 && v > 0 && h == w * v && a % w == 0
    ensures a % h + w <= h
  {
    var q := a / h;
    DivMod(a, h);
    DivMod(a, w);
    var b := a / w;
    assert a % h == (b - q * v) * w by {
      assert q * h == q * v * w;
      assert (b - q * v) * w == b * w - q * v * w;
    }
    if b - q * v >= v {
      MulLe(v, b - q * v, w);
    } else {
      MulLe(b - q * v + 1, v, w);
      assert (b - q * v + 1) * w == (b - q * v) * w + w;
    }
  }

  /** A rounded significand in range is delivered as exactly its value. */
  lemma DeliverValue(sign: bool, exp: int, kept: nat, f: Format)
    requires Wf(f) && kept < Pow2(f.p) && f.emin <= exp <= f.emax
    ensures var r := Deliver(sign, exp, kept, f.p, f.emin, false);
      IsFinite(r) && Negative(r) == sign && Magnitude(r) == Val(kept, exp - f.p + 1)
  {
    hide Val, Pow2, Low, TopBit;
    if kept == 0 {
      Fields(sign, 0, 0);
      ValAdd(0, 0, -1074);
      ValAdd(0, 0, exp - f.p + 1);
    } else {
      var m: int := TopBit(kept);
      if m >= f.p {
        Pow2Mono(f.p, m);
      }
      var vexp := exp - f.p + 1 + m;
      NormaliseTop(kept, m);
      Pow2Words();
      var nsig := kept * Pow2(63 - m);
      assert Shl64(kept, 63 - m) == nsig;
      if vexp < -1022 {
        var sh := -1011 - vexp;
        LowOfShifted(kept, 63 - m, sh);
      }
      PackExactValue(sign, vexp, nsig);
      Rescale(kept, vexp - 63, 63 - m);
    }
  }

  lemma LowOfShifted(v: nat, n: nat, sh: nat)
    requires sh <= n
    ensures Low(v * Pow2(n), sh) == 0
  {
    hide Pow2;
    Pow2Add(n - sh, sh);
    MulAssoc(v, Pow2(n - sh), Pow2(sh));
    DivUnique(v * Pow2(n), Pow2(sh), v * Pow2(n - sh), 0);
  }

  /** The largest finite number of a format. */
  ghost function MaxFinite(f: Format): real
    requires Wf(f)
  {
    Val(Pow2(f.p) - 1, f.emax - f.p + 1)
  }

  /** x * 2^s. */
  ghost function Scaled(x: real, s: int): real {
    x * Two(s)
  }

  /** The target's precision with the least normal exponent e. */
  function Free(t: Tgt, e: int): (f: Format)
    ensures Sized(f) && f == Format(FormatOf(t).p, e, 1023)
  {
    Format(FormatOf(t).p, e, 1023)
  }

  /** y is z rounded to the target's precision, the exponent unbounded below too. */
  ghost predicate Freely(t: Tgt, rn: Mode, sign: bool, z: real, y: real) {
    forall e: int :: Two(e) <= z ==> Correct(Free(t, e), rn, sign, z, y)
  }

  ghost predicate HasValue(r: R, sign: bool, v: real) {
    IsFinite(r.bits) && Negative(r.bits) == sign && Magnitude(r.bits) == v
  }

  /** Rounding was inexact; it increased the magnitude. */
  ghost function InexactFlags(x: real, y: real): set<Flag> {
    (if y != x then {Xx} else {}) + if y > x then {Fr} else {}
  }

  /** NI delivers zero for a denormalised result. */
  ghost function Flushed(t: Tgt, env: Env, y: real): real {
    if env.ni && y < Two(FormatOf(t).emin) then 0.0 else y
  }

  /** Below the normalised doubles an adjusted result loses the bits under 2^-1074,
      unrounded. */
  ghost function Chopped(y: real): real {
    if y < Two(-1022) then
      var n := Scaled(y, 1074).Floor;
      if n > 0 then Val(n, -1074) else 0.0
    else y
  }

  /** An underflow with its trap enabled: x * 2^Scale rounded to the target's
      precision. */
  ghost predicate TrappedTiny(t: Tgt, env: Env, sign: bool, x: real, y: real, r: R, fl: set<Flag>) {
    var z := Scaled(x, Scale(t));
    && Freely(t, env.rn, sign, z, y)
    && HasValue(r, sign, Flushed(t, env, Chopped(y))) && r.fl == fl + {Ux} + InexactFlags(z, y)
  }

  ghost predicate InRange(t: Tgt, env: Env, sign: bool, x: real, y: real, r: R, fl: set<Flag>) {
    && HasValue(r, sign, Flushed(t, env, y))
    && r.fl == fl + InexactFlags(x, y) + if x < Two(FormatOf(t).emin) && y != x then {Ux} else {}
  }

  /** What becomes of w >= 2^1024: the significand is right, the exponent wraps in
      its field, and the carry out of the field lands on the sign. */
  ghost predicate Overrun(bits: U64, sign: bool, w: real) {
    exists e: int :: OverrunAt(bits, sign, w, e)
  }

  ghost predicate OverrunAt(bits: U64, sign: bool, w: real, e: int) {
    && e >= 1024 && Two(e) <= w < Two(e + 1) && w == Val(HIDDEN + Fraction(bits), e - 52)
    && Exponent(bits) == (e + 1023) % 2048 && Negative(bits) == (sign || (e + 1023) / 2048 % 2 == 1)
  }

  /** With its trap enabled an overflow delivers y / 2^Scale; without it, the largest
      number if the mode never raises a magnitude of this sign, and otherwise infinity. */
  ghost predicate Overflowed(t: Tgt, env: Env, sign: bool, x: real, y: real, r: R, fl: set<Flag>) {
    if env.oe then
      var w := Scaled(y, -Scale(t));
      && r.fl == fl + {Ox} + InexactFlags(x, y)
      && if w < Two(1024) then HasValue(r, sign, w) else Overrun(r.bits, sign, w)
    else if NeverUp(FormatOf(t), env.rn, sign) then r.fl == fl + {Ox, Xx} && HasValue(r, sign, MaxFinite(FormatOf(t)))
    else r == R(PackInf(sign), fl + {Ox, Xx, Fr})
  }

  /** The code's own test. */
  lemma InfinityMeans(f: Format, rn: Mode, sign: bool)
    requires f.p >= 2
    ensures ToInfinity(rn, sign) <==> !NeverUp(f, rn, sign)
  {
    hide NeverUp;
    if ToInfinity(rn, sign) {
      SomeUp(f, rn, sign);
    } else {
      OnlyDown(f, rn, sign);
    }
  }

  /** What is rounded for the exact magnitude x: x itself, or x * 2^Scale under an
      enabled underflow trap. */
  ghost function ToRound(t: Tgt, env: Env, x: real): real {
    if env.ue && x < Two(FormatOf(t).emin) then Scaled(x, Scale(t)) else x
  }

  /** What must be delivered for the exact magnitude x whose rounding, exponent
      unbounded, is y: sections 4.3 and 7.4 to 7.6 of IEEE 754-2008, with tininess
      detected before rounding, and the trap adjustments and NI of the PEM. */
  ghost predicate Outcome(t: Tgt, env: Env, sign: bool, x: real, y: real, r: R, fl: set<Flag>) {
    var f := FormatOf(t);
    if env.ue && x < Two(f.emin) then TrappedTiny(t, env, sign, x, y, r, fl)
    else
      && Correct(f, env.rn, sign, x, y)
      && (y <= MaxFinite(f) ==> InRange(t, env, sign, x, y, r, fl))
      && (y > MaxFinite(f) ==> Overflowed(t, env, sign, x, y, r, fl))
  }

  /** The half-steps of the rounding position, and whether anything lies below. */
  function CutSteps(w: Work, f: Format): nat
    requires Sized(f)
  {
    Shr(w.sig, Cut(f, w.exp) - 1)
  }

  predicate Below(w: Work, f: Format)
    requires Sized(f)
  {
    w.sticky || Low(w.sig, Cut(f, w.exp) - 1) != 0
  }

  /** The rounding, as the bits at the cut decide it. */
  ghost function Decided(w: Work, rn: Mode, sign: bool, f: Format): real
    requires Sized(f)
  {
    var n := CutSteps(w, f);
    Val(if Increment(rn, sign, n / 2, n % 2 == 1, Below(w, f)) then n / 2 + 1 else n / 2, w.exp - 63 + Cut(f, w.exp))
  }

  /** roundPack's shifting and masking comes to that decision. */
  lemma DecidedIs(w: Work, rn: Mode, sign: bool, f: Format)
    requires Sized(f) && SIGN <= w.sig < W64
    ensures var d := Denormalize(w, f.emin);
      var k, n := RoundKept(d, f.p, rn, sign), CutSteps(w, f);
      && Val(k.kept, k.exp - f.p + 1) == Decided(w, rn, sign, f)
      && k.inc == Increment(rn, sign, n / 2, n % 2 == 1, Below(w, f)) && k.inx == (n % 2 == 1 || Below(w, f))
      && k.kept < Pow2(f.p) && d.exp <= k.exp <= d.exp + 1 && (w.exp >= f.emin ==> k.kept >= Pow2(f.p - 1))
  {
    hide Val, Pow2, Low, Shr, Increment, RoundKept, Denormalize;
    KeptAtCut(f, w, rn, sign);
    DenormalizeBound(w, f.emin);
    RoundKeptDecides(Denormalize(w, f.emin), f.p, rn, sign);
    CutOnGrid(f, w);
  }

  /** The work up to the overflow test. */
  lemma RoundedAtCut(x: real, sign: bool, w: Work, j: nat, rn: Mode, f: Format)
    requires Sized(f) && Stands(x, w.sig, w.exp, w.sticky, j) && j <= 63 - f.p
    ensures var d := Denormalize(w, f.emin);
      var k := RoundKept(d, f.p, rn, sign);
      var y := Val(k.kept, k.exp - f.p + 1);
      && Correct(f, rn, sign, x, y) && (k.inx <==> y != x) && (k.inc <==> y > x)
      && k.kept < Pow2(f.p) && d.exp <= k.exp <= d.exp + 1
      && (w.exp >= f.emin ==> k.kept >= Pow2(f.p - 1)) && y == Decided(w, rn, sign, f) && (w.sticky ==> y != x)
  {
    var c := Cut(f, w.exp);
    hide Val, Pow2, Low, Shr, Two, Correct, Increment, RoundKept, Located, Denormalize, OnGrid;
    DecidedIs(w, rn, sign, f);
    LocateAtCut(x, w.sig, w.exp, w.sticky, j, c);
    CutOnGrid(f, w);
    GridRounds(f, rn, sign, x, CutSteps(w, f), w.exp - 63 + c, Below(w, f));
  }

  lemma CutOnGrid(f: Format, w: Work)
    requires Sized(f) && SIGN <= w.sig < W64
    ensures var c := Cut(f, w.exp);
      var n, q := Shr(w.sig, c - 1), w.exp - 63 + c;
      && OnGrid(f, n / 2, q) && Denormalize(w, f.emin).exp - f.p + 1 == q
      && (w.exp >= f.emin ==> n / 2 >= Pow2(f.p - 1))
  {
    var c := Cut(f, w.exp);
    hide Pow2, Shr;
    KeptBound(w.sig, f.p);
    HalfShr(w.sig, c - 1);
    if w.exp < f.emin {
      ShrShr(w.sig, 64 - f.p, f.emin - w.exp);
    }
  }

  lemma HalfShr(a: nat, n: nat)
    ensures Shr(a, n + 1) == Shr(a, n) / 2
  {
    ShrShr(a, n, 1);
    Pow2Small();
  }

  lemma DenormalizeBound(w: Work, emin: int)
    requires w.sig < W64
    ensures Denormalize(w, emin).sig < W64
    ensures Denormalize(w, emin).exp == if w.exp < emin then emin else w.exp
  {
    hide Pow2;
    if w.exp < emin && emin - w.exp < 64 {
      DivMod(w.sig, Pow2(emin - w.exp));
    }
  }

  /** Overflow is detected after rounding, exactly when the rounding is out of range. */
  lemma OverflowTest(f: Format, kept: nat, exp: int)
    requires Wf(f) && kept < Pow2(f.p) && (exp > f.emax ==> kept >= Pow2(f.p - 1))
    ensures Val(kept, exp - f.p + 1) > MaxFinite(f) <==> exp > f.emax
  {
    var top := Pow2(f.p) - 1;
    assert Pow2(f.p) == 2 * Pow2(f.p - 1);
    hide Val, Pow2;
    var q := f.emax - f.p + 1;
    if exp > f.emax {
      var n := exp - f.emax;
      Rescale(kept, q, n);
      Pow2Mono(1, n);
      Pow2Small();
      MulLe(2, Pow2(n), kept);
      ValOrder(top, kept * Pow2(n), q);
    } else {
      var n := f.emax - exp;
      Rescale(top, exp - f.p + 1, n);
      MulLe(1, Pow2(n), top);
      ValOrder(kept, top * Pow2(n), exp - f.p + 1);
    }
  }

  /** Tininess before rounding is the test on the exponent. */
  lemma TinyTest(x: real, sig: nat, exp: int, sticky: bool, j: nat, emin: int)
    requires Stands(x, sig, exp, sticky, j) && j <= 63
    ensures x < Two(emin) <==> exp < emin
  {
    hide Val, Pow2, Two;
    Pow2Words();
    ValAdd(1, 0, exp + 1);
    ValAdd(1, 0, exp);
    Rescale(1, exp - 63, 63);
    Rescale(1, exp - 63, 64);
    if exp < emin {
      Pow2Add(j, 64 - j);
      GrainFits(sig, W64, Pow2(j), Pow2(64 - j));
      ValOrder(sig + Pow2(j), W64, exp - 63);
      TwoMono(exp + 1, emin);
    } else {
      ValOrder(SIGN, sig, exp - 63);
      TwoMono(emin, exp);
    }
  }

  lemma MaxPatterns(t: Tgt, sign: bool)
    ensures var r := PackZero(sign) + (if t.Sgl? then MAX_SGL else MAX_DBL);
      IsFinite(r) && Negative(r) == sign && Magnitude(r) == MaxFinite(FormatOf(t))
  {
    hide Val, Pow2;
    Pow2Words();
    if t.Dbl? {
      Fields(sign, 2046, HIDDEN - 1);
    } else {
      Fields(sign, 1150, 0xF_FFFF_E000_0000);
      Pow2Add(24, 8);
      Pow2Add(11, 12);
      Pow2Add(1, 8);
      Pow2Add(8, 12);
      Pow2Add(9, 20);
      Rescale(0xFF_FFFF, 75, 29);
    }
  }

  // ---- scaling and flushing -------------------------------------------------

  lemma ValScaled(m: nat, q: int, s: int)
    ensures Scaled(Val(m, q), s) == Val(m, q + s)
  {
    hide Val, Two;
    ValMul(m, q, 1, s);
    ValAdd(0, 1, s);
  }

  lemma ScaledOrder(x: real, y: real, s: int)
    ensures x < y <==> Scaled(x, s) < Scaled(y, s)
    ensures x == y <==> Scaled(x, s) == Scaled(y, s)
  {
    hide Two;
    RealMulStrict(Two(s), x, y);
  }

  lemma StandsScaled(x: real, sig: nat, exp: int, sticky: bool, j: nat, s: int)
    requires Stands(x, sig, exp, sticky, j)
    ensures Stands(Scaled(x, s), sig, exp + s, sticky, j)
  {
    hide Val, Scaled, Pow2, Low;
    ValScaled(sig, exp - 63, s);
    ValScaled(sig + Pow2(j), exp - 63, s);
    ScaledOrder(Val(sig, exp - 63), x, s);
    ScaledOrder(x, Val(sig + Pow2(j), exp - 63), s);
  }

  /** The exponent of a value is that of its leading one. */
  lemma LeadingExponent(kept: nat, q: int, e: int)
    requires kept > 0
    ensures Val(kept, q) < Two(e) <==> q + TopBit(kept) < e
  {
    hide Val, Pow2, Two, TopBit;
    var m := TopBit(kept);
    ValAdd(1, 0, q + m);
    ValAdd(1, 0, q + m + 1);
    Rescale(1, q, m);
    Rescale(1, q, m + 1);
    ValOrder(Pow2(m), kept, q);
    ValOrder(kept, Pow2(m + 1), q);
    if q + m < e {
      TwoMono(q + m + 1, e);
    } else {
      TwoMono(e, q + m);
    }
  }

  /** Delivery with NI: exactly the denormalised values become zero. */
  lemma DeliverFlushed(sign: bool, exp: int, kept: nat, f: Format, t: Tgt, env: Env, fl: set<Flag>)
    requires Wf(f) && f.p == FormatOf(t).p && kept < Pow2(f.p) && f.emin <= exp <= f.emax
    ensures var r := Deliver(sign, exp, kept, f.p, FormatOf(t).emin, env.ni);
      HasValue(R(r, fl), sign, Flushed(t, env, Val(kept, exp - f.p + 1)))
  {
    hide Val, Pow2, Two, Magnitude, Negative, IsFinite, PackExact, PackZero, TopBit;
    DeliverValue(sign, exp, kept, f);
    ZeroPattern(sign);
    if kept > 0 {
      LeadingExponent(kept, exp - f.p + 1, FormatOf(t).emin);
    } else {
      ValAdd(0, 0, exp - f.p + 1);
    }
  }

  lemma ZeroPattern(sign: bool)
    ensures IsFinite(PackZero(sign)) && Negative(PackZero(sign)) == sign && Magnitude(PackZero(sign)) == 0.0
  {
    hide Val;
    Fields(sign, 0, 0);
    ValAdd(0, 0, -1074);
  }

  // ---- roundPack, arm by arm ------------------------------------------------

  /** The bits below the cut of an adjusted result are cut off, not rounded. */
  lemma FloorOfShift(n: nat, sh: nat)
    ensures Val(n, 0 - sh).Floor == Shr(n, sh)
  {
    hide Val, Two, Pow2;
    var p := Pow2(sh);
    var q, m := n / p, n % p;
    DivMod(n, p);
    ValAdd(q * p, m, 0 - sh);
    Rescale(q, 0 - sh, sh);
    Rescale(1, 0 - sh, sh);
    ValOrder(m, p, 0 - sh);
    ValOrder(0, m, 0 - sh);
    ValAdd(0, 0, 0 - sh);
    ValUnit(q);
    ValUnit(1);
  }

  lemma ValUnit(n: nat)
    ensures Val(n, 0) == n as real
  {
  }

  lemma ChoppedIs(n: nat, sh: nat)
    requires 0 < n < W64 && sh >= 12
    ensures Chopped(Val(n, 0 - sh - 1074)) == Val(Shr(n, sh), -1074)
  {
    hide Val, Two, Pow2, Scaled, Shr, TopBit;
    Pow2Words();
    ValScaled(n, 0 - sh - 1074, 1074);
    FloorOfShift(n, sh);
    ValAdd(0, 0, -1074);
    TopBelow(n, 64);
    LeadingExponent(n, 0 - sh - 1074, -1022);
  }

  lemma TopBelow(n: nat, p: nat)
    requires 0 < n < Pow2(p)
    ensures TopBit(n) < p
  {
    hide Pow2;
    if TopBit(n) >= p {
      Pow2Mono(p, TopBit(n));
    }
  }

  /** An adjusted result below the normalised doubles: packExact cuts it off. */
  lemma DeliverChopped(sign: bool, exp: int, kept: nat, t: Tgt, env: Env, fl: set<Flag>)
    requires exp < -1022 && Pow2(FormatOf(t).p - 1) <= kept < Pow2(FormatOf(t).p)
    ensures var r := Deliver(sign, exp, kept, FormatOf(t).p, FormatOf(t).emin, env.ni);
      HasValue(R(r, fl), sign, Flushed(t, env, Chopped(Val(kept, exp - FormatOf(t).p + 1))))
  {
    hide Val, Pow2, Two, Chopped, PackExact, PackZero, TopBit, Magnitude, Negative, IsFinite;
    var p := FormatOf(t).p;
    FullTop(kept, p);
    NormaliseTop(kept, p - 1);
    Rescale(kept, exp - 63, 64 - p);
    PackChopped(sign, exp, kept * Pow2(64 - p));
    TwoMono(-1022, FormatOf(t).emin);
    ZeroPattern(sign);
  }

  lemma PackChopped(sign: bool, exp: int, nsig: U64)
    requires exp < -1022 && nsig >= SIGN
    ensures var r := PackExact(sign, exp, nsig);
      && IsFinite(r) && Negative(r) == sign && Magnitude(r) == Chopped(Val(nsig, exp - 63)) && Magnitude(r) < Two(-1022)
  {
    hide Val, Pow2, Two, Chopped, Shr, Exponent, Fraction, Negative;
    var sh := -1011 - exp;
    var fr := if sh >= 64 then 0 else DenormalFraction(nsig, sh);
    if sh >= 64 {
      Pow2Words();
      Pow2Mono(64, sh);
      ShrSmall(nsig, sh);
    }
    ChoppedIs(nsig, sh);
    Fields(sign, 0, fr);
    DenormalSmall(fr);
  }

  lemma DenormalSmall(fr: nat)
    requires fr < HIDDEN
    ensures Val(fr, -1074) < Two(-1022)
  {
    hide Val, Pow2, Two;
    Pow2Words();
    ValOrder(fr, Pow2(52), -1074);
    Rescale(1, -1074, 52);
    ValAdd(0, 1, -1022);
  }

  /** UE set, and the value tiny: rounded at the scaled exponent, not denormalised. */
  lemma RoundTrappedTiny(x: real, sign: bool, exp: int, sig: U64, sticky: bool, j: nat, env: Env, t: Tgt, fl: set<Flag>)
    returns (y: real)
    requires Stands(x, sig, exp, sticky, j) && j <= 63 - FormatOf(t).p && fl !! {Ox, Ux, Xx, Fr}
    requires env.ue && exp < FormatOf(t).emin
    ensures TrappedTiny(t, env, sign, x, y, RoundPack(sign, exp, sig, sticky, env, t, fl), fl)
    ensures DecidedFreely(t, env.rn, sign, Scaled(x, Scale(t)), Work(exp + Scale(t), sig, sticky), y)
    ensures sticky ==> y != Scaled(x, Scale(t))
  {
    hide Val, Pow2, Two, Scaled, Correct, RoundKept, Stands, Deliver, HasValue, Flushed, Decided, Chopped;
    var w := Work(exp + Scale(t), sig, sticky);
    var z, k := Scaled(x, Scale(t)), RoundKept(w, FormatOf(t).p, env.rn, sign);
    y := Val(k.kept, k.exp - FormatOf(t).p + 1);
    StandsScaled(x, sig, exp, sticky, j, Scale(t));
    StandsRange(z, sig, exp + Scale(t), sticky, j);
    RoundedAtCut(z, sign, w, j, env.rn, Free(t, w.exp));
    forall e: int | Two(e) <= z
      ensures Correct(Free(t, e), env.rn, sign, z, y) && y == Decided(w, env.rn, sign, Free(t, e))
    {
      TinyTest(z, sig, w.exp, sticky, j, e);
      RoundedAtCut(z, sign, w, j, env.rn, Free(t, e));
    }
    var fl' := RoundPack(sign, exp, sig, sticky, env, t, fl).fl;
    if k.exp < -1022 {
      DeliverChopped(sign, k.exp, k.kept, t, env, fl');
    } else {
      DeliverFlushed(sign, k.exp, k.kept, Free(t, -1022), t, env, fl');
      NotChopped(k.kept, k.exp, FormatOf(t).p);
    }
  }

  ghost predicate DecidedFreely(t: Tgt, rn: Mode, sign: bool, z: real, w: Work, y: real) {
    forall e: int :: Two(e) <= z ==> y == Decided(w, rn, sign, Free(t, e))
  }

  lemma NotChopped(kept: nat, exp: int, p: nat)
    requires p > 0 && Pow2(p - 1) <= kept < Pow2(p) && exp >= -1022
    ensures Chopped(Val(kept, exp - p + 1)) == Val(kept, exp - p + 1)
  {
    hide Val, Pow2, Two, TopBit;
    FullTop(kept, p);
    LeadingExponent(kept, exp - p + 1, -1022);
  }

  /** What roundPack rounds when it does not trap a tiny value. */
  lemma RoundOrdinary(x: real, sign: bool, exp: int, sig: U64, sticky: bool, j: nat, env: Env, t: Tgt)
    returns (y: real, k: Kept)
    requires Stands(x, sig, exp, sticky, j) && j <= 63 - FormatOf(t).p
    ensures var f := FormatOf(t);
      && k == RoundKept(Denormalize(Work(exp, sig, sticky), f.emin), f.p, env.rn, sign)
      && y == Val(k.kept, k.exp - f.p + 1) && k.kept < Pow2(f.p)
      && Correct(f, env.rn, sign, x, y) && (k.inx <==> y != x) && (k.inc <==> y > x)
      && y == Decided(Work(exp, sig, sticky), env.rn, sign, f) && (sticky ==> y != x)
      && (x < Two(f.emin) <==> exp < f.emin) && (y > MaxFinite(f) <==> k.exp > f.emax)
      && f.emin <= k.exp && (k.exp > f.emax ==> exp >= f.emax && k.kept >= Pow2(f.p - 1))
  {
    hide Val, Pow2, Low, Shr, Two, Correct, RoundKept, Denormalize, Stands, MaxFinite, Decided;
    var f, w := FormatOf(t), Work(exp, sig, sticky);
    k := RoundKept(Denormalize(w, f.emin), f.p, env.rn, sign);
    y := Val(k.kept, k.exp - f.p + 1);
    StandsRange(x, sig, exp, sticky, j);
    RoundedAtCut(x, sign, w, j, env.rn, f);
    DenormalizeBound(w, f.emin);
    OverflowTest(f, k.kept, k.exp);
    TinyTest(x, sig, exp, sticky, j, f.emin);
  }

  lemma RoundInRange(x: real, y: real, sign: bool, exp: int, sig: U64, sticky: bool, env: Env, t: Tgt, fl: set<Flag>, k: Kept)
    requires fl !! {Ox, Ux, Xx, Fr} && (env.ue ==> exp >= FormatOf(t).emin)
    requires k == RoundKept(Denormalize(Work(exp, sig, sticky), FormatOf(t).emin), FormatOf(t).p, env.rn, sign)
    requires y == Val(k.kept, k.exp - FormatOf(t).p + 1) && k.kept < Pow2(FormatOf(t).p)
    requires (k.inx <==> y != x) && (k.inc <==> y > x) && (x < Two(FormatOf(t).emin) <==> exp < FormatOf(t).emin)
    requires FormatOf(t).emin <= k.exp <= FormatOf(t).emax
    ensures InRange(t, env, sign, x, y, RoundPack(sign, exp, sig, sticky, env, t, fl), fl)
  {
    hide Val, Pow2, Two, RoundKept, Denormalize, Deliver, HasValue, Flushed;
    DeliverFlushed(sign, k.exp, k.kept, FormatOf(t), t, env, RoundPack(sign, exp, sig, sticky, env, t, fl).fl);
  }

  lemma RoundOverflowed(x: real, y: real, sign: bool, exp: int, sig: U64, sticky: bool, env: Env, t: Tgt, fl: set<Flag>, k: Kept)
    requires fl !! {Ox, Ux, Xx, Fr}
    requires k == RoundKept(Denormalize(Work(exp, sig, sticky), FormatOf(t).emin), FormatOf(t).p, env.rn, sign)
    requires y == Val(k.kept, k.exp - FormatOf(t).p + 1) && k.kept < Pow2(FormatOf(t).p)
    requires (k.inx <==> y != x) && (k.inc <==> y > x) && k.exp > FormatOf(t).emax && exp >= FormatOf(t).emax
    requires k.kept >= Pow2(FormatOf(t).p - 1)
    ensures Overflowed(t, env, sign, x, y, RoundPack(sign, exp, sig, sticky, env, t, fl), fl)
  {
    hide Val, Pow2, Two, RoundKept, Denormalize, Deliver, MaxFinite, PackInf, Magnitude, Negative, IsFinite, Scaled;
    InfinityMeans(FormatOf(t), env.rn, sign);
    hide NeverUp;
    if env.oe {
      AdjustedOverflow(y, sign, env, t, k, RoundPack(sign, exp, sig, sticky, env, t, fl).fl);
    } else {
      MaxPatterns(t, sign);
    }
  }

  /** The adjusted overflow is delivered exactly, far from the denormals. */
  lemma AdjustedOverflow(y: real, sign: bool, env: Env, t: Tgt, k: Kept, fl: set<Flag>)
    requires y == Val(k.kept, k.exp - FormatOf(t).p + 1) && k.kept < Pow2(FormatOf(t).p) && k.exp > FormatOf(t).emax
    requires k.kept >= Pow2(FormatOf(t).p - 1)
    ensures var r, w := Deliver(sign, k.exp - Scale(t), k.kept, FormatOf(t).p, FormatOf(t).emin, env.ni), Scaled(y, -Scale(t));
      if w < Two(1024) then HasValue(R(r, fl), sign, w) else Overrun(r, sign, w)
  {
    hide Val, Pow2, Two, Scaled, Deliver, HasValue, TopBit, Overrun;
    var p, e := FormatOf(t).p, k.exp - Scale(t);
    ValScaled(k.kept, k.exp - p + 1, -Scale(t));
    FullTop(k.kept, p);
    LeadingExponent(k.kept, e - p + 1, 1024);
    LeadingExponent(k.kept, e - p + 1, FormatOf(t).emin);
    if e <= 1023 {
      DeliverFlushed(sign, e, k.kept, Free(t, -1022), t, env, fl);
    } else {
      DeliverOverrun(sign, e, k.kept, t, env.ni);
    }
  }

  lemma DeliverOverrun(sign: bool, exp: int, kept: nat, t: Tgt, ni: bool)
    requires exp >= 1024 && Pow2(FormatOf(t).p - 1) <= kept < Pow2(FormatOf(t).p)
    ensures Overrun(Deliver(sign, exp, kept, FormatOf(t).p, FormatOf(t).emin, ni), sign, Val(kept, exp - FormatOf(t).p + 1))
  {
    hide Val, Pow2, Two, PackExact, PackZero, TopBit, Overrun;
    var p := FormatOf(t).p;
    FullTop(kept, p);
    NormaliseTop(kept, p - 1);
    Rescale(kept, exp - 63, 64 - p);
    LeadingExponent(kept, exp - p + 1, exp);
    LeadingExponent(kept, exp - p + 1, exp + 1);
    PackOverrun(sign, exp, kept * Pow2(64 - p), Val(kept, exp - p + 1));
  }

  lemma PackOverrun(sign: bool, exp: int, nsig: U64, w: real)
    requires exp >= 1024 && nsig >= SIGN && nsig % 2048 == 0 && w == Val(nsig, exp - 63) && Two(exp) <= w < Two(exp + 1)
    ensures Overrun(PackExact(sign, exp, nsig), sign, w)
  {
    hide Val, Pow2, Two, Exponent, Fraction, Negative;
    var e, fr := exp + 1023, nsig * 2 % W64 / 4096;
    FractionBits(nsig);
    Fields(sign || e / 2048 % 2 == 1, e % 2048, fr);
    Pow2Words();
    Rescale(HIDDEN + fr, exp - 63, 11);
    assert OverrunAt(PackExact(sign, exp, nsig), sign, w, exp);
  }

  lemma FullTop(kept: nat, p: nat)
    requires p > 0 && Pow2(p - 1) <= kept < Pow2(p)
    ensures kept > 0 && TopBit(kept) == p - 1
  {
    hide Pow2;
    var m := TopBit(kept);
    if m > p - 1 {
      Pow2Mono(p, m);
    } else if m < p - 1 {
      Pow2Mono(m + 1, p - 1);
    }
  }

  /** roundPack returns the correctly rounded value of whatever exact magnitude its
      normalised significand and sticky stand for, and says truthfully whether it
      is inexact, rounded up, tiny or overflowed; with every setting of the trap
      enables and of NI. */
  lemma RoundPackCorrect(x: real, sign: bool, exp: int, sig: U64, sticky: bool, j: nat, env: Env, t: Tgt, fl: set<Flag>)
    returns (y: real)
    requires Stands(x, sig, exp, sticky, j) && j <= 63 - FormatOf(t).p && fl !! {Ox, Ux, Xx, Fr}
    ensures Outcome(t, env, sign, x, y, RoundPack(sign, exp, sig, sticky, env, t, fl), fl)
    ensures if env.ue && x < Two(FormatOf(t).emin) then
        DecidedFreely(t, env.rn, sign, Scaled(x, Scale(t)), Work(exp + Scale(t), sig, sticky), y)
      else y == Decided(Work(exp, sig, sticky), env.rn, sign, FormatOf(t))
    ensures sticky ==> y != ToRound(t, env, x)
  {
    hide Val, Pow2, Two, Correct, RoundKept, Denormalize, Stands, MaxFinite, RoundPack, TrappedTiny, InRange, Overflowed, Decided;
    var k;
    y, k := RoundOrdinary(x, sign, exp, sig, sticky, j, env, t);
    if env.ue && exp < FormatOf(t).emin {
      y := RoundTrappedTiny(x, sign, exp, sig, sticky, j, env, t, fl);
    } else if k.exp <= FormatOf(t).emax {
      RoundInRange(x, y, sign, exp, sig, sticky, env, t, fl, k);
    } else {
      RoundOverflowed(x, y, sign, exp, sig, sticky, env, t, fl, k);
    }
  }

  lemma StandsRange(x: real, sig: nat, exp: int, sticky: bool, j: nat)
    requires Stands(x, sig, exp, sticky, j)
    ensures SIGN <= sig < W64
  {
  }
}
