/** Correct rounding as section 4.3 of IEEE 754-2008 defines it: on exact real
    magnitudes, with no reference to guard, round or sticky bits. */
module Rounding {
  import opened Dyadic

  datatype Format = Format(p: nat, emin: int, emax: int)

  const DOUBLE := Format(53, -1022, 1023)
  const SINGLE := Format(24, -126, 127)

  datatype Mode = NearestEven | TowardZero | TowardPlus | TowardMinus

  /** A precision the 64-bit words can round to, with any exponents. */
  ghost predicate Sized(f: Format) {
    2 <= f.p <= 53
  }

  ghost predicate Wf(f: Format) {
    Sized(f) && -1022 <= f.emin && f.emin + 2 <= f.emax <= 1023 && f.emin - f.p >= -1075
  }

  /** y == m * 2^q in the format, its exponent unbounded above. */
  ghost predicate Spells(f: Format, m: nat, q: int, y: real) {
    m < Pow2(f.p) && q >= f.emin - f.p + 1 && y == Val(m, q)
  }

  ghost predicate Representable(f: Format, y: real) {
    exists m: nat, q: int :: Spells(f, m, q, y)
  }

  /** The one spelling with a full significand, or the least exponent. */
  ghost predicate Canonical(f: Format, m: nat, q: int, y: real)
    requires f.p > 0
  {
    Spells(f, m, q, y) && (m >= Pow2(f.p - 1) || q == f.emin - f.p + 1)
  }

  ghost predicate EvenIn(f: Format, y: real)
    requires f.p > 0
  {
    exists m: nat, q: int :: Canonical(f, m, q, y) && m % 2 == 0
  }

  ghost function Gap(x: real, y: real): real {
    if x < y then y - x else x - y
  }

  ghost predicate RoundsDown(f: Format, x: real, y: real) {
    Representable(f, y) && y <= x && forall z :: Representable(f, z) && z <= x ==> z <= y
  }

  ghost predicate RoundsUp(f: Format, x: real, y: real) {
    Representable(f, y) && x <= y && forall z :: Representable(f, z) && x <= z ==> y <= z
  }

  ghost predicate RoundsNearest(f: Format, x: real, y: real)
    requires f.p > 0
  {
    && Representable(f, y)
    && (forall z :: Representable(f, z) ==> Gap(x, y) <= Gap(x, z))
    && (forall z :: Representable(f, z) && z != y && Gap(x, z) == Gap(x, y) ==> EvenIn(f, y))
  }

  /** y is the rounding of the magnitude x of a number with the given sign, to
      the format's precision and with no upper exponent limit. */
  ghost predicate Correct(f: Format, rn: Mode, sign: bool, x: real, y: real)
    requires f.p > 0
  {
    match rn
    case NearestEven => RoundsNearest(f, x, y)
    case TowardZero => RoundsDown(f, x, y)
    case TowardPlus => if sign then RoundsDown(f, x, y) else RoundsUp(f, x, y)
    case TowardMinus => if sign then RoundsUp(f, x, y) else RoundsDown(f, x, y)
  }

  // ---- the representable numbers near x -------------------------------------

  /** A grid point k * 2^q in canonical position for the format. */
  ghost predicate OnGrid(f: Format, k: nat, q: int) {
    f.p > 0 && k < Pow2(f.p) && q >= f.emin - f.p + 1 && (k >= Pow2(f.p - 1) || q == f.emin - f.p + 1)
  }

  lemma GridPoint(f: Format, k: nat, q: int)
    requires OnGrid(f, k, q)
    ensures Representable(f, Val(k, q))
    ensures k % 2 == 0 ==> EvenIn(f, Val(k, q))
  {
    hide Val, Pow2;
    assert Canonical(f, k, q, Val(k, q));
  }

  /** The next grid point up, which may open the next binade. */
  lemma NextPoint(f: Format, k: nat, q: int)
    requires OnGrid(f, k, q) && f.p >= 2
    ensures Representable(f, Val(k + 1, q))
    ensures (k + 1) % 2 == 0 ==> EvenIn(f, Val(k + 1, q))
  {
    hide Val, Representable, EvenIn;
    if k + 1 < Pow2(f.p) {
      GridPoint(f, k + 1, q);
    } else {
      var h := Pow2(f.p - 1);
      assert k + 1 == h * Pow2(1) && h == 2 * Pow2(f.p - 2);
      Rescale(h, q, 1);
      GridPoint(f, h, q + 1);
    }
  }

  /** Nothing representable lies strictly between two neighbours. */
  lemma NothingBetween(f: Format, k: nat, q: int, z: real)
    requires OnGrid(f, k, q) && Representable(f, z)
    ensures z <= Val(k, q) || z >= Val(k + 1, q)
  {
    hide Val, Pow2;
    var m: nat, q': int :| Spells(f, m, q', z);
    if q' >= q {
      var s := m * Pow2(q' - q);
      Rescale(m, q, q' - q);
      ValOrder(s, k, q);
      ValOrder(k + 1, s, q);
    } else {
      BelowBinade(f, m, q', q);
      ValOrder(Pow2(f.p - 1), k, q);
    }
  }

  lemma MulGrows(h: nat, a: nat, b: nat)
    requires a <= b
    ensures h * a <= h * b
  {
  }

  /** A finer spelling stays below the binade. */
  lemma BelowBinade(f: Format, m: nat, q': int, q: int)
    requires f.p > 0 && m < Pow2(f.p) && q' < q
    ensures Val(m, q') <= Val(Pow2(f.p - 1), q)
  {
    var h, n := Pow2(f.p - 1), q - q';
    Rescale(h, q', n);
    Pow2Mono(1, n);
    assert Pow2(f.p) == 2 * h && Pow2(1) == 2;
    hide Val, Pow2;
    MulGrows(h, 2, Pow2(n));
    ValOrder(m, h * Pow2(n), q');
  }

  // ---- rounding on the grid -------------------------------------------------

  /** What the kept bits k, the guard bit g and "anything below" decide. */
  function Increment(rn: Mode, sign: bool, k: nat, g: bool, rest: bool): bool {
    match rn
    case NearestEven => g && (rest || k % 2 == 1)
    case TowardZero => false
    case TowardPlus => !sign && (g || rest)
    case TowardMinus => sign && (g || rest)
  }

  /** x as the half-grid sees it: n half-steps, exactly iff nothing is left. */
  ghost predicate Located(x: real, n: nat, q: int, rest: bool) {
    Val(n, q - 1) <= x < Val(n + 1, q - 1) && (rest <==> x != Val(n, q - 1))
  }

  /** The choice between two neighbours lo and hi that lie 2 * t apart. */
  lemma Choose(f: Format, rn: Mode, sign: bool, x: real, lo: real, hi: real, t: real, k: nat, g: bool, rest: bool)
    requires f.p > 0 && t > 0.0 && hi == lo + 2.0 * t && lo <= x < hi
    requires Representable(f, lo) && Representable(f, hi)
    requires forall z :: Representable(f, z) ==> z <= lo || z >= hi
    requires if k % 2 == 0 then EvenIn(f, lo) else EvenIn(f, hi)
    requires g <==> x >= lo + t
    requires rest <==> x != (if g then lo + t else lo)
    ensures Correct(f, rn, sign, x, if Increment(rn, sign, k, g, rest) then hi else lo)
  {
    hide Representable, EvenIn;
  }

  /** The rounding decision of PEM D.1 is correct rounding. */
  lemma GridRounds(f: Format, rn: Mode, sign: bool, x: real, n: nat, q: int, rest: bool)
    requires f.p >= 2 && OnGrid(f, n / 2, q) && Located(x, n, q, rest)
    ensures var k := n / 2;
      var kept := if Increment(rn, sign, k, n % 2 == 1, rest) then k + 1 else k;
      && Correct(f, rn, sign, x, Val(kept, q))
      && (Val(kept, q) == x <==> n % 2 == 0 && !rest)
      && (kept == k + 1 <==> Val(kept, q) > x)
  {
    var k, g, t := n / 2, n % 2 == 1, Two(q - 1);
    var lo, hi := Val(k, q), Val(k + 1, q);
    hide Two, Pow2, Val, Representable, EvenIn, OnGrid, Correct;
    HalfSteps(n, q);
    GridPoint(f, k, q);
    NextPoint(f, k, q);
    forall z | Representable(f, z)
      ensures z <= lo || z >= hi
    {
      NothingBetween(f, k, q, z);
    }
    Choose(f, rn, sign, x, lo, hi, t, k, g, rest);
  }

  lemma HalfSteps(n: nat, q: int)
    ensures var lo, t := Val(n / 2, q), Two(q - 1);
      && Val(n / 2 + 1, q) == lo + 2.0 * t
      && Val(n, q - 1) == (if n % 2 == 1 then lo + t else lo)
      && Val(n + 1, q - 1) == (if n % 2 == 1 then lo + 2.0 * t else lo + t)
  {
    var k := n / 2;
    assert Pow2(1) == 2;
    hide Two, Val;
    Rescale(k, q - 1, 1);
    Rescale(k + 1, q - 1, 1);
    ValAdd(1, 1, q - 1);
    ValAdd(2 * k, 1, q - 1);
    ValAdd(2 * k, 2, q - 1);
    assert n == 2 * k + n % 2;
  }

  // ---- uniqueness -----------------------------------------------------------

  /** A number has one position on the grid. */
  lemma GridUnique(f: Format, k: nat, q: int, k': nat, q': int)
    requires OnGrid(f, k, q) && OnGrid(f, k', q') && Val(k, q) == Val(k', q')
    ensures k == k' && q == q'
  {
    if q < q' {
      NotFiner(f, k, q, k', q');
    } else if q' < q {
      NotFiner(f, k', q', k, q);
    } else {
      ValOrder(k, k', q);
    }
  }

  lemma NotFiner(f: Format, k: nat, q: int, k': nat, q': int)
    requires OnGrid(f, k, q) && OnGrid(f, k', q') && q < q'
    ensures Val(k, q) != Val(k', q')
  {
    var h, n := Pow2(f.p - 1), q' - q;
    assert Pow2(f.p) == 2 * h && Pow2(1) == 2;
    Pow2Mono(1, n);
    hide Val, Pow2;
    Rescale(k', q, n);
    MulGrows(h, 2, Pow2(n));
    MulGrows(Pow2(n), h, k');
    ValOrder(k, k' * Pow2(n), q);
  }

  /** Of two neighbours only one is even. */
  lemma EvenAlternates(f: Format, lo: real, hi: real)
    requires f.p >= 2 && lo < hi && EvenIn(f, lo) && EvenIn(f, hi)
    ensures exists z :: Representable(f, z) && lo < z < hi
  {
    hide Val, Pow2;
    var k: nat, q: int :| Canonical(f, k, q, lo) && k % 2 == 0;
    var k': nat, q': int :| Canonical(f, k', q', hi) && k' % 2 == 0;
    var z := Val(k + 1, q);
    assert OnGrid(f, k, q) && OnGrid(f, k', q');
    NextPoint(f, k, q);
    ValOrder(k, k + 1, q);
    GridPoint(f, k', q');
    NothingBetween(f, k, q, hi);
    OddNext(f, k, q);
    if z == hi {
      GridUnique(f, k + 1, q, k', q');
    }
  }

  lemma OddNext(f: Format, k: nat, q: int)
    requires OnGrid(f, k, q) && k % 2 == 0
    requires f.p >= 2
    ensures OnGrid(f, k + 1, q)
  {
    assert Pow2(f.p) == 2 * Pow2(f.p - 1);
  }

  /** An exact value is its own rounding. */
  lemma ExactStays(f: Format, rn: Mode, sign: bool, x: real, y: real)
    requires f.p > 0 && Correct(f, rn, sign, x, y)
    ensures Representable(f, x) <==> y == x
  {
    hide Representable, EvenIn;
    assert Representable(f, x) ==> Gap(x, x) == 0.0;
  }

  /** A value has one rounding, and outside the directed modes it is the same for
      either sign. */
  lemma RoundingUnique(f: Format, rn: Mode, sign: bool, sign': bool, x: real, y: real, y': real)
    requires f.p >= 2 && Correct(f, rn, sign, x, y) && Correct(f, rn, sign', x, y')
    requires sign == sign' || !Directed(rn)
    ensures y == y'
  {
    hide Representable, EvenIn;
    if rn == NearestEven && y != y' {
      EvenAlternates(f, if y < y' then y else y', if y < y' then y' else y);
    }
  }

  /** The mode never raises a magnitude of this sign. */
  ghost predicate NeverUp(f: Format, rn: Mode, sign: bool)
    requires f.p > 0
  {
    forall x, y :: Correct(f, rn, sign, x, y) ==> y <= x
  }

  /** To nearest, and in the mode that points away from zero, some magnitude is. */
  lemma SomeUp(f: Format, rn: Mode, sign: bool)
    requires f.p >= 2 && (rn == NearestEven || rn == if sign then TowardMinus else TowardPlus)
    ensures !NeverUp(f, rn, sign)
  {
    var k, q := Pow2(f.p - 1), f.emin;
    assert Pow2(f.p) == 2 * k && Pow2(1) == 2;
    assert OnGrid(f, k, q);
    hide Val, Two, Pow2, Representable, EvenIn;
    var n := 2 * k + 1;
    var x := Val(2 * n + 1, q - 2);
    assert n / 2 == k && n % 2 == 1;
    Rescale(n, q - 2, 1);
    Rescale(n + 1, q - 2, 1);
    ValOrder(2 * n, 2 * n + 1, q - 2);
    ValOrder(2 * n + 1, 2 * n + 2, q - 2);
    hide OnGrid;
    GridRounds(f, rn, sign, x, n, q, true);
    hide Correct;
    assert Correct(f, rn, sign, x, Val(k + 1, q)) && Val(k + 1, q) > x;
  }

  lemma OnlyDown(f: Format, rn: Mode, sign: bool)
    requires f.p > 0 && rn != NearestEven && rn != if sign then TowardMinus else TowardPlus
    ensures NeverUp(f, rn, sign)
  {
    hide Representable;
  }

  predicate Directed(rn: Mode) {
    rn == TowardPlus || rn == TowardMinus
  }

  /** In a directed mode the two signs agree only on exact values. */
  lemma SignsAgree(f: Format, rn: Mode, sign: bool, x: real, y: real, y': real)
    requires f.p >= 2 && Directed(rn) && Correct(f, rn, sign, x, y) && Correct(f, rn, !sign, x, y')
    ensures y == y' <==> Representable(f, x)
  {
    hide Representable;
    ExactStays(f, rn, sign, x, y);
    ExactStays(f, rn, !sign, x, y');
  }
}
