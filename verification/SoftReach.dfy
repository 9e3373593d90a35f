/** How far one arithmetic operation can leave the range of its operands' format,
    and that the trap handler's exponent adjustment always brings it back. */
module SoftReach {
  import opened Units
  import opened Dyadic
  import opened Words
  import opened Rounding
  import opened SoftFloat
  import opened SoftSingle
  import opened SoftFma
  import opened SoftDivide
  import opened SoftNegate

  /** The least positive number of the format is 2^-Least, all are below 2^Most. */
  function Least(t: Tgt): int {
    if t.Sgl? then 149 else 1074
  }

  function Most(t: Tgt): int {
    if t.Sgl? then 128 else 1024
  }

  ghost predicate UnitsAre(f: U64, k: nat, q: nat, n: nat) {
    k < Pow2(n) && Magnitude(f) == Val(k, 0 - q)
  }

  ghost predicate UnitsIn(f: U64, k: nat, t: Tgt) {
    UnitsAre(f, k, Least(t), Least(t) + Most(t))
  }

  /** A double holding a finite number of the target format. */
  ghost predicate Holds(f: U64, t: Tgt) {
    IsFinite(f) && exists k: nat :: UnitsIn(f, k, t)
  }

  /** What an operation on such operands can come to. */
  ghost predicate InReach(t: Tgt, x: real) {
    Two(-2 * Least(t)) <= x < Two(Least(t) + Most(t))
  }

  // ---- operands -------------------------------------------------------------

  lemma DoubleHolds(f: U64)
    requires IsFinite(f)
    ensures Holds(f, Dbl)
  {
    hide Pow2, Val;
    var e, fr := Exponent(f), Fraction(f);
    Pow2Words();
    assert fr < HIDDEN && Pow2(53) == 2 * HIDDEN;
    hide Exponent, Fraction, UnitsAre;
    var m, n := if e == 0 then fr else HIDDEN + fr, if e == 0 then 0 else e - 1;
    InUnits(f, m, n, 53, 1074, 2098);
    assert UnitsIn(f, m * Pow2(n), Dbl);
  }

  lemma SingleHolds(w: Word)
    requires Exponent8(w) != 255
    ensures Holds(LoadSingle(w), Sgl)
  {
    hide Pow2, Val, Exponent8, Fraction23, LoadSingle, Magnitude, IsFinite, Negative, Negative32, UnitsAre;
    LoadExact(w);
    var e, fr := Exponent8(w), Fraction23(w);
    Pow2Words();
    assert Pow2(24) == 2 * SGL_HIDDEN;
    var m, n := if e == 0 then fr else SGL_HIDDEN + fr, if e == 0 then 0 else e - 1;
    InUnits(LoadSingle(w), m, n, 24, 149, 277);
    assert UnitsIn(LoadSingle(w), m * Pow2(n), Sgl);
  }

  lemma InUnits(f: U64, m: nat, n: nat, p: nat, q: nat, top: nat)
    requires m < Pow2(p) && n + p <= top && Magnitude(f) == Val(m, n - q)
    ensures UnitsAre(f, m * Pow2(n), q, top)
  {
    hide Pow2, Val, Magnitude;
    Rescale(m, 0 - q, n);
    assert 0 - q + n == n - q;
    UnitsBound(m, n, p, top);
  }

  lemma UnitsBound(m: nat, n: nat, p: nat, top: nat)
    requires m < Pow2(p) && n + p <= top
    ensures m * Pow2(n) < Pow2(top)
  {
    hide Pow2;
    Pow2Add(p, n);
    Pow2Mono(p + n, top);
    MulLe(m + 1, Pow2(p), Pow2(n));
    assert (m + 1) * Pow2(n) == m * Pow2(n) + Pow2(n);
  }

  // ---- results --------------------------------------------------------------

  /** a * c + b over numbers of one format is zero or within reach. */
  lemma FmaReach(fa: U64, fc: U64, fb: U64, hasAddend: bool, negAdd: bool, t: Tgt)
    requires Holds(fa, t) && Holds(fc, t) && (hasAddend ==> Holds(fb, t))
    ensures var x := Exact(fa, fc, fb, hasAddend, negAdd); x != 0.0 ==> InReach(t, Abs(x)) && InReach(t, 2.0 * Abs(x))
  {
    var q, n: nat := Least(t), Least(t) + Most(t);
    hide UnitsAre, Exact, Abs, Two, IsFinite, Pow2, Val;
    var a: nat :| UnitsIn(fa, a, t);
    var c: nat :| UnitsIn(fc, c, t);
    var b: nat := 0;
    if hasAddend {
      b :| UnitsIn(fb, b, t);
    }
    var k := ExactUnits(fa, fc, fb, hasAddend, negAdd, q, n, a, c, b);
    if Exact(fa, fc, fb, hasAddend, negAdd) != 0.0 {
      MultipleReach(k, 0 - 2 * q, 2 * n + 1);
      TwoStep(0 - 2 * q + (2 * n + 1));
      TwoMono(0 - 2 * q + (2 * n + 1) + 1, n);
    }
  }

  lemma ExactUnits(fa: U64, fc: U64, fb: U64, hasAddend: bool, negAdd: bool, q: nat, n: nat, a: nat, c: nat, b: nat) returns (k: nat)
    requires UnitsAre(fa, a, q, n) && UnitsAre(fc, c, q, n) && if hasAddend then UnitsAre(fb, b, q, n) else b == 0
    requires q <= n
    ensures var x := Exact(fa, fc, fb, hasAddend, negAdd);
      Abs(x) == Val(k, 0 - 2 * q) && k < Pow2(2 * n + 1) && (x != 0.0 ==> k > 0)
  {
    hide Pow2, Val, Magnitude, Negative, Exact, Two;
    var u := 0 - 2 * q;
    ValMul(a, 0 - q, c, 0 - q);
    Rescale(b, u, q);
    ValAdd(0, 0, u);
    ValAdd(0, 0, 0 - q);
    SignedParts(fa, fc, fb, hasAddend, negAdd, Val(a * c, u), Val(b * Pow2(q), u));
    k := SignedSum(Negative(fa) != Negative(fc), a * c, Negative(fb) != negAdd, b * Pow2(q), u);
    SumBound(a, c, b, q, n);
  }

  lemma SumBound(a: nat, c: nat, b: nat, q: nat, n: nat)
    requires a < Pow2(n) && c < Pow2(n) && b < Pow2(n) && q <= n
    ensures a * c + b * Pow2(q) < Pow2(2 * n + 1)
  {
    Pow2Mono(2 * n, 2 * n + 1);
    hide Pow2;
    Pow2Add(n, n);
    Pow2Mono(n + q, 2 * n);
    UnitsBound(b, q, n, 2 * n);
    MulLe(a, Pow2(n), c);
    MulLess(c, Pow2(n), Pow2(n));
  }

  lemma MulLess(c: nat, d: nat, p: nat)
    requires c < d && p > 0
    ensures p * c < p * d
  {
    MulLe(c + 1, d, p);
    assert (c + 1) * p == c * p + p;
  }

  lemma MultipleReach(k: nat, u: int, top: nat)
    requires 0 < k < Pow2(top)
    ensures Two(u) <= Val(k, u) < Two(u + top)
  {
    hide Pow2, Two;
    ValOrder(1, k, u);
    ValOrder(k, Pow2(top), u);
    ValAdd(0, 0, u);
    Rescale(1, u, top);
    ValAdd(0, 0, u + top);
  }

  /** So is the value rounded in its place where bits were dropped. */
  lemma DroppedReach(x: real, d: real, e: int, t: Tgt)
    requires JustBelow(x, d, e) && InReach(t, x) && InReach(t, 2.0 * x)
    ensures InReach(t, d + (d - x) / 2.0)
  {
    hide Two, Val;
    ValOrder(2, W64, e);
    ValAdd(1, 1, e);
    ValAdd(0, 1, e);
  }

  /** So is a quotient. */
  lemma QuotientReach(fa: U64, fb: U64, t: Tgt)
    requires Holds(fa, t) && Holds(fb, t) && Magnitude(fa) > 0.0 && Magnitude(fb) > 0.0
    ensures InReach(t, Magnitude(fa) / Magnitude(fb))
  {
    var q, n: nat := Least(t), Least(t) + Most(t);
    hide UnitsAre, Two, IsFinite, Magnitude, Pow2, Val;
    var a: nat :| UnitsIn(fa, a, t);
    var b: nat :| UnitsIn(fb, b, t);
    UnitsPositive(fa, a, q, n);
    UnitsPositive(fb, b, q, n);
    MultipleReach(a, 0 - q, n);
    MultipleReach(b, 0 - q, n);
    QuotientBetween(Magnitude(fa), Magnitude(fb), 0 - q, n);
    TwoMono(0 - 2 * q, 0 - n);
  }

  lemma QuotientBetween(a: real, b: real, u: int, n: nat)
    requires Two(u) <= a < Two(u + n) && Two(u) <= b < Two(u + n)
    ensures Two(0 - n) < a / b < Two(n)
  {
    hide Two, Pow2;
    TwoSum(0 - n, u + n);
    TwoSum(n, u);
    assert 0 - n + (u + n) == u && n + u == u + n;
    DivisionBetween(a, b, a / b, Two(0 - n), Two(n), Two(u), Two(u + n));
  }

  lemma DivisionBetween(a: real, b: real, x: real, l: real, h: real, lo: real, hi: real)
    requires l > 0.0 && h > 0.0 && 0.0 < lo <= b < hi && lo <= a < hi && x * b == a && l * hi == lo && h * lo == hi
    ensures l < x < h
  {
    RealMulStrict(l, b, hi);
    Above(x, b, a, l, b * l);
    RealMulMono(h, lo, b);
    Above(h, b, h * b, x, a);
  }

  lemma Above(x: real, b: real, a: real, l: real, c: real)
    requires b > 0.0 && x * b == a && l * b == c && c < a
    ensures l < x
  {
    RealMulStrict(b, l, x);
  }

  lemma UnitsPositive(f: U64, k: nat, q: nat, n: nat)
    requires UnitsAre(f, k, q, n) && Magnitude(f) > 0.0
    ensures 0 < k < Pow2(n) && Magnitude(f) == Val(k, 0 - q)
  {
    hide Two, Pow2, Magnitude;
    ValAdd(0, 0, 0 - q);
  }

  lemma SignedParts(fa: U64, fc: U64, fb: U64, hasAddend: bool, negAdd: bool, p: real, v: real)
    requires Magnitude(fa) * Magnitude(fc) == p && v == if hasAddend then Magnitude(fb) else 0.0
    ensures Exact(fa, fc, fb, hasAddend, negAdd) ==
      (if Negative(fa) != Negative(fc) then -p else p) + if Negative(fb) != negAdd then -v else v
  {
    hide Magnitude, Negative;
    SignsMultiply(Magnitude(fa), Magnitude(fc));
  }

  lemma SignsMultiply(u: real, v: real)
    ensures -u * v == -(u * v) && u * -v == -(u * v) && -u * -v == u * v
  {
  }

  /** The magnitude of a sum of two signed multiples of one unit is one too. */
  lemma SignedSum(s: bool, m: nat, t: bool, n: nat, q: int) returns (k: nat)
    ensures k <= m + n
    ensures Abs((if s then -Val(m, q) else Val(m, q)) + if t then -Val(n, q) else Val(n, q)) == Val(k, q)
  {
    hide Two, Val;
    ValAdd(0, 0, q);
    if s == t {
      k := m + n;
      ValAdd(m, n, q);
      ValOrder(0, m + n, q);
    } else if m >= n {
      k := m - n;
      ValAdd(k, n, q);
      ValOrder(0, k, q);
    } else {
      k := n - m;
      ValAdd(k, m, q);
      ValOrder(0, k, q);
    }
  }

  // ---- the adjustment -------------------------------------------------------

  /** Within reach, a tiny value times 2^Scale is a normalised double, and a
      rounded one divided by 2^Scale is finite: one adjustment always suffices. */
  lemma AdjustmentSuffices(t: Tgt, rn: Mode, sign: bool, x: real, y: real)
    requires InReach(t, x)
    ensures Scaled(x, Scale(t)) >= Two(-1022)
    ensures Correct(FormatOf(t), rn, sign, x, y) ==> Scaled(y, -Scale(t)) < Two(1024)
  {
    hide Two, Pow2, Correct;
    var q, n, s := Least(t), Least(t) + Most(t), Scale(t);
    TwoSum(-2 * q, s);
    TwoMono(-1022, -2 * q + s);
    RealMulMono(Two(s), Two(-2 * q), x);
    if Correct(FormatOf(t), rn, sign, x, y) {
      BelowPower(FormatOf(t), rn, sign, x, y, n);
      TwoSum(n, -s);
      RealMulMono(Two(-s), y, Two(n));
      TwoStep(n - s);
      TwoMono(n - s + 1, 1024);
    }
  }

  /** An enabled trap finds the adjusted result, rounded once and whole. */
  ghost predicate TrapDelivered(t: Tgt, env: Env, sign: bool, x: real, y: real, r: R, fl: set<Flag>) {
    var f, z := FormatOf(t), Scaled(x, Scale(t));
    && (env.ue && x < Two(f.emin) ==>
          && Correct(Free(t, -1022), env.rn, sign, z, y)
          && HasValue(r, sign, Flushed(t, env, y)) && r.fl == fl + {Ux} + InexactFlags(z, y))
    && (env.oe && !(env.ue && x < Two(f.emin)) && y > MaxFinite(f) ==>
          && Correct(f, env.rn, sign, x, y)
          && HasValue(r, sign, Scaled(y, -Scale(t))) && r.fl == fl + {Ox} + InexactFlags(x, y))
  }

  lemma TrapsDeliver(t: Tgt, env: Env, sign: bool, x: real, y: real, r: R, fl: set<Flag>)
    requires InReach(t, x) && Outcome(t, env, sign, x, y, r, fl)
    ensures TrapDelivered(t, env, sign, x, y, r, fl) && !SignLost(t, env, x, y)
  {
    hide Two, Correct, InReach, HasValue, Scaled, Flushed, MaxFinite, InexactFlags, Carried, Overrun;
    AdjustmentSuffices(t, env.rn, sign, x, y);
    if env.ue && x < Two(FormatOf(t).emin) {
      AbovePower(Free(t, -1022), env.rn, sign, Scaled(x, Scale(t)), y, -1022);
    }
  }

  /** The fused multiply-add on operands of the target format: every enabled trap
      gets its adjusted result. */
  method FmaInFormat(fa: U64, fc: U64, fb: U64, hasAddend: bool, negAdd: bool, negResult: bool, env: Env, t: Tgt)
    returns (r: R, ghost y: real)
    requires Holds(fa, t) && Holds(fc, t) && (hasAddend ==> Holds(fb, t))
    ensures var x, v := Exact(fa, fc, fb, hasAddend, negAdd), Seen(fa, fc, fb, hasAddend, negAdd);
      x != 0.0 ==>
        && Outcome(t, env, (x < 0.0) != negResult, v, y, r, {})
        && TrapDelivered(t, env, (x < 0.0) != negResult, v, y, r, {})
  {
    hide Outcome, TrapDelivered, Exact, Seen, DropsBits, CoarseOf, ZeroSign, InReach, Abs, Dropped, ToRound, Unpack, UnitsIn, SignLost;
    FiniteOrdinary(fa);
    FiniteOrdinary(fc);
    FiniteOrdinary(fb);
    r, y := FmaRounded(fa, fc, fb, hasAddend, negAdd, negResult, env, t);
    ghost var x, v := Exact(fa, fc, fb, hasAddend, negAdd), Seen(fa, fc, fb, hasAddend, negAdd);
    if x != 0.0 {
      SeenReach(fa, fc, fb, hasAddend, negAdd, negResult, env, t, y, r);
      TrapsDeliver(t, env, (x < 0.0) != negResult, v, y, r, {});
    }
  }

  /** The magnitude rounded, in either case. */
  lemma SeenReach(fa: U64, fc: U64, fb: U64, hasAddend: bool, negAdd: bool, negResult: bool, env: Env, t: Tgt, y: real, r: R)
    requires Holds(fa, t) && Holds(fc, t) && (hasAddend ==> Holds(fb, t)) && Exact(fa, fc, fb, hasAddend, negAdd) != 0.0
    requires hasAddend && DropsBits(fa, fc, fb, true, negAdd) ==>
      var (d, e) := CoarseOf(fa, fc, fb, negAdd);
      Dropped(Exact(fa, fc, fb, true, negAdd), d, e, negResult, env, t, y, r)
    ensures InReach(t, Seen(fa, fc, fb, hasAddend, negAdd))
  {
    hide Exact, DropsBits, CoarseOf, InReach, Abs, Dropped, Holds, Seen;
    FmaReach(fa, fc, fb, hasAddend, negAdd, t);
    if hasAddend && DropsBits(fa, fc, fb, true, negAdd) {
      var (d, e) := CoarseOf(fa, fc, fb, negAdd);
      SeenIs(fa, fc, fb, negAdd);
      DroppedWithin(Exact(fa, fc, fb, true, negAdd), d, e, negResult, env, t, y, r);
    } else {
      PlainSeen(fa, fc, fb, hasAddend, negAdd);
    }
  }

  /** The order of rounding and negating, on operands of the target format: a
      condition on the operands and the mode alone. */
  method NegatedInFormat(fa: U64, fc: U64, fb: U64, hasAddend: bool, negAdd: bool, env: Env, t: Tgt) returns (r: R, n: R)
    requires Holds(fa, t) && Holds(fc, t) && (hasAddend ==> Holds(fb, t))
    ensures var x := Exact(fa, fc, fb, hasAddend, negAdd);
      Negation(r, n) <==>
        (x == 0.0 || (Directed(env.rn) ==> !(hasAddend && DropsBits(fa, fc, fb, true, negAdd)) && Signless(t, env, Abs(x))))
  {
    hide Outcome, TrapDelivered, Exact, Seen, DropsBits, CoarseOf, InReach, Abs, Dropped, Unpack, UnitsIn, SignLost, Signless, Negation;
    FiniteOrdinary(fa);
    FiniteOrdinary(fc);
    FiniteOrdinary(fb);
    ghost var y;
    r, n, y := NegatedFma(fa, fc, fb, hasAddend, negAdd, env, t);
    ghost var x, v := Exact(fa, fc, fb, hasAddend, negAdd), Seen(fa, fc, fb, hasAddend, negAdd);
    if x != 0.0 {
      SeenReach(fa, fc, fb, hasAddend, negAdd, false, env, t, y, r);
      TrapsDeliver(t, env, x < 0.0, v, y, r, {});
    }
  }

  lemma DroppedWithin(x: real, d: real, e: int, negResult: bool, env: Env, t: Tgt, y: real, r: R)
    requires Dropped(x, d, e, negResult, env, t, y, r) && InReach(t, Abs(x)) && InReach(t, 2.0 * Abs(x))
    ensures InReach(t, d + (d - Abs(x)) / 2.0)
  {
    hide Outcome, JustBelow, InReach, RightIffSteady, ToRound;
    DroppedReach(Abs(x), d, e, t);
  }

  lemma FiniteOrdinary(f: U64)
    ensures IsFinite(f) <==> Ordinary(f)
    ensures Unpack(f).c == Finite <==> IsFinite(f) && Magnitude(f) > 0.0
  {
    hide Val, Pow2, TopBit, Magnitude;
    if IsFinite(f) {
      ZeroOrPositive(f);
    }
  }

  /** So does division. */
  method DivInFormat(fa: U64, fb: U64, env: Env, t: Tgt) returns (r: R, ghost y: real)
    requires Holds(fa, t) && Holds(fb, t)
    ensures Magnitude(fa) > 0.0 && Magnitude(fb) > 0.0 ==>
      TrapDelivered(t, env, Negative(fa) != Negative(fb), Magnitude(fa) / Magnitude(fb), y, r, {})
  {
    hide Outcome, TrapDelivered, InReach, Unpack, UnitsIn, Magnitude, Negative, SignLost;
    FiniteOrdinary(fa);
    FiniteOrdinary(fb);
    r, y := Div(fa, fb, env, t);
    if Magnitude(fa) > 0.0 && Magnitude(fb) > 0.0 {
      QuotientReach(fa, fb, t);
      TrapsDeliver(t, env, Negative(fa) != Negative(fb), Magnitude(fa) / Magnitude(fb), y, r, {});
    }
  }

  /** Nor, in those formats, down past one. */
  lemma AbovePower(f: Format, rn: Mode, sign: bool, x: real, y: real, n: int)
    requires Sized(f) && Correct(f, rn, sign, x, y) && x >= Two(n) && n >= f.emin
    ensures y >= Two(n)
  {
    Pow2Mono(1, f.p);
    hide Two, Pow2, EvenIn;
    ValAdd(0, 0, n);
    assert Pow2(1) == 2;
    assert Spells(f, 1, n, Two(n));
    assert Representable(f, Two(n));
  }

  /** Rounding does not pass a power of two. */
  lemma BelowPower(f: Format, rn: Mode, sign: bool, x: real, y: real, n: int)
    requires Wf(f) && Correct(f, rn, sign, x, y) && x < Two(n) && n >= f.emin
    ensures y <= Two(n)
  {
    Pow2Mono(1, f.p);
    hide Two, Pow2, EvenIn;
    ValAdd(0, 0, n);
    assert Pow2(1) == 2;
    assert Spells(f, 1, n, Two(n));
    assert Representable(f, Two(n));
  }
}
