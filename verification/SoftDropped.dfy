/** What a truncated operand does to a rounding. The fused add drops the low bits
    of the smaller operand and keeps only that something was dropped; when the
    signs are unlike, the exact value lies just below the number it then rounds,
    where the code takes it to lie just above. */
module SoftDropped {
  import opened Dyadic
  import opened Words
  import opened Rounding
  import opened SoftFloat

  /** Halfway between two neighbouring representable numbers. */
  ghost predicate Midpoint(f: Format, v: real) {
    exists k: nat, q: int :: HalfwayAt(f, k, q, v)
  }

  ghost predicate HalfwayAt(f: Format, k: nat, q: int, v: real) {
    OnGrid(f, k, q) && v == Val(2 * k + 1, q - 1)
  }

  /** Moving from just above d to just below it does not change the rounding:
      d is no boundary of this mode. */
  ghost predicate Steady(f: Format, rn: Mode, d: real) {
    (Representable(f, d) ==> rn == NearestEven) && (Midpoint(f, d) ==> rn != NearestEven)
  }

  lemma MidpointBetween(f: Format, k: nat, q: int, v: real)
    requires HalfwayAt(f, k, q, v)
    ensures Val(k, q) < v < Val(k + 1, q) && v - Val(k, q) == Val(k + 1, q) - v
  {
    hide Val, Two, OnGrid;
    HalfSteps(2 * k + 1, q);
  }

  lemma MidpointNotRepresentable(f: Format, v: real)
    requires Midpoint(f, v)
    ensures !Representable(f, v)
  {
    hide Val, OnGrid, Representable;
    var k: nat, q: int :| HalfwayAt(f, k, q, v);
    MidpointBetween(f, k, q, v);
    if Representable(f, v) {
      NothingBetween(f, k, q, v);
    }
  }

  /** A number strictly between two half-steps is neither. */
  lemma BetweenHalfSteps(f: Format, n: nat, q: int, v: real)
    requires f.p >= 2 && OnGrid(f, n / 2, q) && Val(n, q - 1) < v < Val(n + 1, q - 1)
    ensures !Representable(f, v) && !Midpoint(f, v)
  {
    hide Val, Two, OnGrid, Representable;
    HalfSteps(n, q);
    var k := n / 2;
    if Representable(f, v) {
      NothingBetween(f, k, q, v);
    }
    if Midpoint(f, v) {
      var k': nat, q': int :| HalfwayAt(f, k', q', v);
      MidpointBetween(f, k', q', v);
      SameCell(f, k, q, k', q', v);
    }
  }

  /** Two cells of the grid that share an inner point are one cell. */
  lemma SameCell(f: Format, k: nat, q: int, k': nat, q': int, v: real)
    requires f.p >= 2 && OnGrid(f, k, q) && OnGrid(f, k', q')
    requires Val(k, q) < v < Val(k + 1, q) && Val(k', q') < v < Val(k' + 1, q')
    ensures Val(k, q) == Val(k', q') && Val(k + 1, q) == Val(k' + 1, q')
  {
    hide Val, Representable, EvenIn;
    GridPoint(f, k, q);
    GridPoint(f, k', q');
    NextPoint(f, k, q);
    NextPoint(f, k', q');
    NothingBetween(f, k, q, Val(k', q'));
    NothingBetween(f, k, q, Val(k' + 1, q'));
    NothingBetween(f, k', q', Val(k, q));
    NothingBetween(f, k', q', Val(k + 1, q));
  }

  /** On the half-grid: even points are representable, odd ones midpoints. */
  lemma OnHalfStep(f: Format, n: nat, q: int)
    requires f.p >= 2 && OnGrid(f, n / 2, q)
    ensures Representable(f, Val(n, q - 1)) <==> n % 2 == 0
    ensures Midpoint(f, Val(n, q - 1)) <==> n % 2 == 1
  {
    hide Val, Two, OnGrid, Representable, EvenIn;
    HalfSteps(n, q);
    GridPoint(f, n / 2, q);
    var v := Val(n, q - 1);
    if n % 2 == 1 {
      assert HalfwayAt(f, n / 2, q, v);
      MidpointNotRepresentable(f, v);
    } else if Midpoint(f, v) {
      MidpointNotRepresentable(f, v);
    }
  }

  /** Below an even half-step, the next representable number is at least a half-step away. */
  lemma HalfStepBelow(f: Format, n: nat, q: int, v: real)
    requires f.p >= 2 && n >= 2 && n % 2 == 0 && OnGrid(f, n / 2, q) && Representable(f, v) && v < Val(n, q - 1)
    ensures v <= Val(n - 1, q - 1)
  {
    hide Val, Pow2;
    var m: nat, q': int :| Spells(f, m, q', v);
    if q' >= q - 1 {
      var s := m * Pow2(q' - q + 1);
      Rescale(m, q - 1, q' - q + 1);
      ValOrder(s, n, q - 1);
      ValOrder(s, n - 1, q - 1);
    } else {
      BelowBinade(f, m, q', q - 1);
      HalfCount(f.p, n);
      ValOrder(Pow2(f.p - 1), n - 1, q - 1);
    }
  }

  lemma HalfCount(p: nat, n: nat)
    requires p >= 2 && n / 2 >= Pow2(p - 1)
    ensures n - 1 >= Pow2(p - 1)
  {
  }

  /** What the code keeps for a value just above half-step n. */
  ghost function JustAbove(rn: Mode, sign: bool, n: nat, q: int): real {
    Val(if Increment(rn, sign, n / 2, n % 2 == 1, true) then n / 2 + 1 else n / 2, q)
  }

  /** An exact value just below a midpoint: right unless the mode is to nearest. */
  lemma BelowMidpoint(f: Format, rn: Mode, sign: bool, x: real, n: nat, q: int)
    requires f.p >= 2 && n % 2 == 1 && OnGrid(f, n / 2, q) && Val(n, q - 1) - Two(q - 2) < x < Val(n, q - 1)
    ensures Correct(f, rn, sign, x, JustAbove(rn, sign, n, q)) <==> rn != NearestEven
  {
    hide Val, Two, OnGrid, Representable, EvenIn;
    var k := n / 2;
    TwoStep(q - 2);
    HalfSteps(n, q);
    HalfSteps(n - 1, q);
    GridPoint(f, k, q);
    GridRounds(f, rn, sign, x, n - 1, q, true);
  }

  /** An exact value just below a representable number: right only to nearest. */
  lemma BelowRepresentable(f: Format, rn: Mode, sign: bool, x: real, n: nat, q: int)
    requires f.p >= 2 && n >= 2 && n % 2 == 0 && OnGrid(f, n / 2, q) && Val(n, q - 1) - Two(q - 2) < x < Val(n, q - 1)
    ensures Correct(f, rn, sign, x, JustAbove(rn, sign, n, q)) <==> rn == NearestEven
  {
    hide Val, Two, OnGrid, Representable, EvenIn;
    var d := Val(n, q - 1);
    TwoStep(q - 2);
    HalfSteps(n, q);
    GridPoint(f, n / 2, q);
    if rn == NearestEven {
      forall v | Representable(f, v)
        ensures Gap(x, d) <= Gap(x, v) && (v != d ==> Gap(x, d) < Gap(x, v))
      {
        if v < d {
          HalfStepBelow(f, n, q, v);
          ValAdd(n - 1, 1, q - 1);
        }
      }
    }
  }

  /** For an exact value x less than one unit of the window below d, the rounding
      decided for a value just above d is right exactly when d is steady. */
  lemma SteadyIff(x: real, d: nat, e: int, w: Work, rn: Mode, sign: bool, f: Format)
    requires Sized(f) && SIGN <= w.sig < W64 && Val(d, e) - Two(e) < x < Val(d, e) && x > 0.0
    requires Stands(Val(d, e), w.sig, w.exp, w.sticky, 0) && e + 3 <= w.exp - 63 + Cut(f, w.exp)
    ensures Correct(f, rn, sign, x, Decided(w.(sticky := true), rn, sign, f)) <==> Steady(f, rn, Val(d, e))
  {
    var c := Cut(f, w.exp);
    var n, q, v := CutSteps(w, f), w.exp - 63 + c, Val(d, e);
    hide Val, Two, Pow2, Low, Shr, OnGrid, Representable, EvenIn, Correct, Midpoint, Increment, Denormalize;
    CutOnGrid(f, w);
    LocateAtCut(v, w.sig, w.exp, w.sticky, 0, c);
    if Below(w, f) {
      BetweenHalfSteps(f, n, q, v);
      OneUnitUp(n, q, d, e);
      GridRounds(f, rn, sign, x, n, q, true);
    } else {
      OnHalfStep(f, n, q);
      TwoMono(e, q - 2);
      if n % 2 == 1 {
        BelowMidpoint(f, rn, sign, x, n, q);
      } else {
        PositiveSteps(n, q, x);
        BelowRepresentable(f, rn, sign, x, n, q);
      }
    }
  }

  /** A window integer above a half-step is a whole unit above it. */
  lemma OneUnitUp(n: nat, q: int, d: nat, e: int)
    requires e <= q - 1 && Val(n, q - 1) < Val(d, e)
    ensures Val(n, q - 1) <= Val(d, e) - Two(e)
  {
    hide Val, Two, Pow2;
    var s := n * Pow2(q - 1 - e);
    Rescale(n, e, q - 1 - e);
    ValOrder(s, d, e);
    ValOrder(s + 1, d, e);
    ValAdd(s, 1, e);
  }

  lemma PositiveSteps(n: nat, q: int, x: real)
    requires 0.0 < x < Val(n, q - 1) && n % 2 == 0
    ensures n >= 2
  {
    hide Val;
    ValAdd(0, 0, q - 1);
  }
}
