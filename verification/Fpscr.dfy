/** The FPSCR state machine: sticky exception bits, the derived VX and FEX, the
    common tail of every arithmetic instruction, compares and the move-to-FPSCR
    forms. The register is its 32 bits in PowerPC order, bit 0 most significant. */
module Fpscr {
  import opened Dyadic
  import opened Words
  import opened SoftFloat

  type Bits = s: seq<bool> | |s| == 32 witness seq(32, _ => false)

  const FX := 0
  const FEX := 1
  const VX := 2
  const OX := 3
  const UX := 4
  const ZX := 5
  const XX := 6
  const VXSNAN := 7
  const VXISI := 8
  const VXIDI := 9
  const VXZDZ := 10
  const VXIMZ := 11
  const VXVC := 12
  const FR := 13
  const FI := 14
  const FPRF := 15 // five bits, the last four of them FPCC
  const VXSOFT := 21
  const VXSQRT := 22
  const VXCVI := 23
  const VE := 24
  const OE := 25
  const UE := 26
  const ZE := 27
  const XE := 28

  /** The nine invalid-operation bits. */
  predicate IsVx(i: int) {
    VXSNAN <= i <= VXVC || VXSOFT <= i <= VXCVI
  }

  /** The bits that stay set until software clears them. */
  predicate IsSticky(i: int) {
    i == FX || OX <= i <= XX || IsVx(i)
  }

  predicate AnyVx(f: Bits) {
    exists i :: 0 <= i < 32 && IsVx(i) && f[i]
  }

  /** FEX, exception by exception. */
  predicate AnyEnabled(f: Bits) {
    (f[VX] && f[VE]) || (f[OX] && f[OE]) || (f[UX] && f[UE]) || (f[ZX] && f[ZE]) || (f[XX] && f[XE])
  }

  predicate Derived(f: Bits) {
    f[VX] == AnyVx(f) && f[FEX] == AnyEnabled(f)
  }

  /** refresh: each enable sits 22 places below its exception, so one shifted AND
      finds an enabled exception. */
  function Refresh(f: Bits): (v: Bits)
    ensures Derived(v)
    ensures forall i :: 0 <= i < 32 && i != VX && i != FEX ==> v[i] == f[i]
  {
    var v := f[VX := AnyVx(f)][FEX := false];
    assert forall i :: 0 <= i < 32 && IsVx(i) ==> v[i] == f[i];
    if exists e :: VE <= e <= XE && v[e] && v[e - 22] then v[FEX := true] else v
  }

  /** mapFlags: the FPSCR bit each softfloat flag raises. */
  predicate Raises(fl: set<Flag>, i: int) {
    || (i == OX && Ox in fl) || (i == UX && Ux in fl) || (i == ZX && Zx in fl) || (i == XX && Xx in fl)
    || (i == VXSNAN && Vxsnan in fl) || (i == VXISI && Vxisi in fl) || (i == VXIDI && Vxidi in fl)
    || (i == VXZDZ && Vxzdz in fl) || (i == VXIMZ && Vximz in fl) || (i == VXCVI && Vxcvi in fl)
    || (i == VXSQRT && Vxsqrt in fl)
  }

  datatype Kind = NoFprf | DblFprf | SglFprf

  /** FPRF code of a delivered result, C then FPCC. */
  function Classify(v: U64, sgl: bool): (c: seq<bool>)
    ensures |c| == 5
  {
    var s, e, m := Negative(v), Exponent(v), Fraction(v);
    var lo := if sgl then 897 else 1;
    if lo <= e < 0x7FF then [false, s, !s, false, false]
    else if e == 0x7FF then
      if m != 0 then [true, false, false, false, true]
      else [false, s, !s, false, true]
    else if e == 0 && m == 0 then [s, false, false, true, false]
    else [true, s, !s, false, false]
  }

  function WithFprf(f: Bits, v: U64, k: Kind): (r: Bits)
    ensures forall i :: 0 <= i < 32 && !(FPRF <= i < FPRF + 5) ==> r[i] == f[i]
    ensures forall i :: FPRF <= i < FPRF + 5 ==> r[i] == if k.NoFprf? then f[i] else Classify(v, k.SglFprf?)[i - FPRF]
  {
    hide Classify;
    if k.NoFprf? then f else f[..FPRF] + Classify(v, k.SglFprf?) + f[FPRF + 5..]
  }

  predicate Suppressed(f: Bits, fl: set<Flag>) {
    ((exists i :: 0 <= i < 32 && IsVx(i) && Raises(fl, i)) && f[VE]) || (Zx in fl && f[ZE])
  }

  predicate SomethingNew(f: Bits, fl: set<Flag>) {
    exists i :: 0 <= i < 32 && Raises(fl, i) && !f[i]
  }

  /** Before VX and FEX are recomputed. */
  function Raised(f: Bits, fl: set<Flag>): (r: Bits) {
    var fx := SomethingNew(f, fl);
    var f1: Bits := seq(32, i requires 0 <= i < 32 => f[i] || Raises(fl, i) || (i == FX && fx));
    f1[FR := Fr in fl][FI := Xx in fl]
  }

  /** The general path of commit, for any flags: the new FPSCR. */
  function Committed(f: Bits, bits: U64, fl: set<Flag>, k: Kind): (r: Bits) {
    Refresh(if Suppressed(f, fl) then Raised(f, fl) else WithFprf(Raised(f, fl), bits, k))
  }

  /** No arithmetic instruction clears a sticky bit, and each raised one is set. */
  lemma CommittedKeeps(f: Bits, bits: U64, fl: set<Flag>, k: Kind)
    ensures Derived(Committed(f, bits, fl, k))
    ensures forall i :: 0 <= i < 32 && IsSticky(i) ==>
      Committed(f, bits, fl, k)[i] == (f[i] || Raises(fl, i) || (i == FX && SomethingNew(f, fl)))
  {
    hide WithFprf, Refresh, Suppressed, SomethingNew, Derived;
  }

  /** The summary bits, by register position: the invalid-operation bits are 7 to 12
      and 21 to 23, and each enable of 24 to 28 stands 22 places after its exception. */
  lemma SummaryBits(f: Bits)
    ensures AnyVx(f) <==> f[7] || f[8] || f[9] || f[10] || f[11] || f[12] || f[21] || f[22] || f[23]
    ensures AnyEnabled(f) <==> exists e :: 24 <= e < 29 && f[e] && f[e - 22]
  {
    assert AnyEnabled(f) ==> exists e :: 24 <= e < 29 && f[e] && f[e - 22] by {
      assert (f[24] && f[24 - 22]) || (f[25] && f[25 - 22]) || (f[26] && f[26 - 22]) || (f[27] && f[27 - 22])
        || (f[28] && f[28 - 22]) || !AnyEnabled(f);
    }
  }

  /** The flags that are invalid operations. */
  const INVALID: set<Flag> := {Vxsnan, Vxisi, Vxidi, Vxzdz, Vximz, Vxcvi, Vxsqrt}

  /** Which bit each flag sets, and which flags hold the result back. */
  lemma RaisedBits(f: Bits, fl: set<Flag>, i: nat)
    ensures Raises(fl, i) <==>
      exists x :: x in fl && i == (match x
        case Ox => 3 case Ux => 4 case Zx => 5 case Xx => 6 case Vxsnan => 7 case Vxisi => 8 case Vxidi => 9
        case Vxzdz => 10 case Vximz => 11 case Vxsqrt => 22 case Vxcvi => 23 case Fr => -1)
    ensures Suppressed(f, fl) <==> (!(fl !! INVALID) && f[24]) || (Zx in fl && f[27])
  {
    assert fl !! INVALID <==> !(exists j :: 0 <= j < 32 && IsVx(j) && Raises(fl, j)) by {
      InvalidBits(fl);
    }
  }

  lemma InvalidBits(fl: set<Flag>)
    ensures fl !! INVALID <==> !(exists j :: 0 <= j < 32 && IsVx(j) && Raises(fl, j))
  {
    if !(fl !! INVALID) {
      var x :| x in fl && x in INVALID;
      var j := match x case Vxsnan => 7 case Vxisi => 8 case Vxidi => 9 case Vxzdz => 10 case Vximz => 11 case Vxsqrt => 22 case _ => 23;
      assert IsVx(j) && Raises(fl, j);
    }
  }

  /** The rest of the register after an arithmetic instruction: FR, FI and the result
      class, which a suppressed result leaves alone. */
  lemma CommittedRest(f: Bits, bits: U64, fl: set<Flag>, k: Kind)
    ensures var g := Committed(f, bits, fl, k);
      && g[13] == (Fr in fl) && g[14] == (Xx in fl) && g[20] == f[20] && g[24..] == f[24..]
      && g[15..20] == if Suppressed(f, fl) || k.NoFprf? then f[15..20] else Classify(bits, k.SglFprf?)
  {
    hide Refresh, Suppressed, SomethingNew, Derived, Classify;
  }

  /** A compare: which bits it sets, and that it touches no others. */
  lemma ComparedBits(f: Bits, a: U64, b: U64, ordered: bool)
    ensures var g, snan := Refresh(Compared(f, a, b, ordered)), Snan(a) || Snan(b);
      && g[7] == (f[7] || snan) && g[12] == (f[12] || (ordered && (Nan(a) || Nan(b)) && !(snan && f[24])))
      && g[0] == (f[0] || (g[7] && !f[7]) || (g[12] && !f[12])) && g[16..20] == OneHot(Fcmp(a, b))
      && forall i :: 3 <= i < 32 && i != 7 && i != 12 && !(16 <= i < 20) ==> g[i] == f[i]
  {
    hide Refresh, Derived, Fcmp, Exponent, Fraction;
  }

  class Fpu {
    var fpscr: Bits
    var fpr: seq<U64>
    var cr: seq<bool>
    var fe: bool // MSR[FE0] or MSR[FE1]
    var trapped: bool

    ghost predicate Valid()
      reads this
    {
      |fpr| == 32 && |cr| == 32 && Derived(fpscr)
    }

    constructor ()
      ensures Valid() && fpscr == seq(32, _ => false)
    {
      fpscr := seq(32, _ => false);
      fpr, cr, fe, trapped := seq(32, _ => 0), seq(32, _ => false), false, false;
    }

    /** fpRc and trapIfEnabled, the end of every instruction that may trap. */
    method Finish(rc: bool)
      requires |cr| == 32
      modifies `cr, `trapped
      ensures cr == if rc then old(cr)[..4] + fpscr[..4] + old(cr)[8..] else old(cr)
      ensures trapped == (fpscr[FEX] && fe)
    {
      if rc {
        cr := cr[..4] + fpscr[..4] + cr[8..];
      }
      trapped := fpscr[FEX] && fe;
    }

    /** commit: the one-branch path for results that raised nothing but inexact,
        and the general path, with the same effect. */
    method Commit(rt: nat, rc: bool, bits: U64, fl: set<Flag>, k: Kind)
      requires Valid() && rt < 32
      modifies this
      ensures Valid() && fe == old(fe)
      ensures fpscr == Committed(old(fpscr), bits, fl, k)
      ensures fpr == if Suppressed(old(fpscr), fl) then old(fpr) else old(fpr)[rt := bits]
      ensures cr == if rc then old(cr)[..4] + fpscr[..4] + old(cr)[8..] else old(cr)
      ensures trapped == (fpscr[FEX] && fe)
    {
      CommittedKeeps(fpscr, bits, fl, k);
      hide Quick, Committed, Suppressed, Derived;
      if fl <= {Xx, Fr} {
        QuickIsCommitted(fpscr, bits, fl, k);
        fpscr := Quick(fpscr, bits, fl, k);
        fpr := fpr[rt := bits];
        Finish(rc);
        return;
      }
      if !Suppressed(fpscr, fl) {
        fpr := fpr[rt := bits];
      }
      fpscr := Committed(fpscr, bits, fl, k);
      Finish(rc);
    }

    /** fcmpu and fcmpo: cc is one-hot LT, GT, EQ, unordered. */
    method Compare(crfD: nat, a: U64, b: U64, ordered: bool)
      requires Valid() && crfD < 8
      modifies this
      ensures Valid() && fe == old(fe) && fpr == old(fpr) && trapped == (fpscr[FEX] && fe)
      ensures forall i :: 0 <= i < 32 && IsSticky(i) && old(fpscr)[i] ==> fpscr[i]
      ensures fpscr == Refresh(Compared(old(fpscr), a, b, ordered))
      ensures cr == old(cr)[..4 * crfD] + OneHot(Fcmp(a, b)) + old(cr)[4 * crfD + 4..]
    {
      hide Derived, Fcmp;
      CompareKeeps(fpscr, a, b, ordered);
      cr := cr[..4 * crfD] + OneHot(Fcmp(a, b)) + cr[4 * crfD + 4..];
      fpscr := Refresh(Compared(fpscr, a, b, ordered));
      trapped := fpscr[FEX] && fe;
    }

    /** mcrfs: the copied exception bits, except FEX and VX, are cleared; no trap. */
    method Mcrfs(crfD: nat, crfS: nat)
      requires Valid() && crfD < 8 && crfS < 8
      modifies this
      ensures Valid() && fe == old(fe) && fpr == old(fpr) && trapped == old(trapped)
      ensures cr == old(cr)[..4 * crfD] + old(fpscr)[4 * crfS..4 * crfS + 4] + old(cr)[4 * crfD + 4..]
      ensures forall i :: 0 <= i < 32 && i != FEX && i != VX ==>
        fpscr[i] == (old(fpscr)[i] && !(4 * crfS <= i < 4 * crfS + 4 && IsSticky(i)))
    {
      hide Derived;
      cr := cr[..4 * crfD] + fpscr[4 * crfS..4 * crfS + 4] + cr[4 * crfD + 4..];
      var f := fpscr;
      fpscr := Refresh(seq(32, i requires 0 <= i < 32 => f[i] && !(4 * crfS <= i < 4 * crfS + 4 && IsSticky(i))));
    }

    /** mtfsf and mtfsfi: the selected four-bit fields take the new bits, VX and FEX
        excepted. */
    method MoveFields(mask: seq<bool>, v: Bits, rc: bool)
      requires Valid() && |mask| == 8
      modifies this
      ensures Valid() && fe == old(fe) && fpr == old(fpr) && trapped == (fpscr[FEX] && fe)
      ensures forall i :: 0 <= i < 32 && i != FEX && i != VX ==>
        fpscr[i] == if mask[i / 4] then v[i] else old(fpscr)[i]
      ensures cr == if rc then old(cr)[..4] + fpscr[..4] + old(cr)[8..] else old(cr)
    {
      hide Derived;
      var f := fpscr;
      fpscr := Refresh(seq(32, i requires 0 <= i < 32 => if mask[i / 4] && i != FEX && i != VX then v[i] else f[i]));
      Finish(rc);
    }

    /** mtfsb0 and mtfsb1. */
    method MoveBit(crbD: nat, set1: bool, rc: bool)
      requires Valid() && crbD < 32
      modifies this
      ensures Valid() && fe == old(fe) && fpr == old(fpr)
      ensures cr == if rc then old(cr)[..4] + fpscr[..4] + old(cr)[8..] else old(cr)
      ensures crbD == FEX || crbD == VX ==> fpscr == old(fpscr) && trapped == old(trapped)
      ensures crbD != FEX && crbD != VX ==>
        fpscr[crbD] == set1 && trapped == (fpscr[FEX] && fe) &&
        forall i :: 0 <= i < 32 && i != FEX && i != VX && i != crbD ==>
          fpscr[i] == (old(fpscr)[i] || (i == FX && set1 && IsSticky(crbD) && !old(fpscr)[crbD]))
    {
      hide Derived;
      if crbD == FEX || crbD == VX {
        if rc {
          cr := cr[..4] + fpscr[..4] + cr[8..];
        }
        return;
      }
      var f := fpscr;
      if set1 && IsSticky(crbD) && crbD != FX && !f[crbD] {
        f := f[FX := true]; // an exception bit's 0 -> 1 transition sets FX too
      }
      fpscr := Refresh(f[crbD := set1]);
      Finish(rc);
    }

    method Mffs(rt: nat, rc: bool)
      requires Valid() && rt < 32
      modifies `fpr, `cr
      ensures Valid() && fpr == old(fpr)[rt := Image(fpscr)]
      ensures cr == if rc then old(cr)[..4] + fpscr[..4] + old(cr)[8..] else old(cr)
    {
      fpr := fpr[rt := Image(fpscr)];
      if rc {
        cr := cr[..4] + fpscr[..4] + cr[8..];
      }
    }

    /** One floating-point instruction. */
    method Step(op: Op)
      requires Valid() && op.Legal()
      modifies this
      ensures Valid()
      ensures op.Arithmetic? || op.Compares? ==> forall i :: 0 <= i < 32 && IsSticky(i) && old(fpscr)[i] ==> fpscr[i]
    {
      hide Derived, Committed, Refresh, Compared;
      match op {
        case Arithmetic(rt, rc, bits, fl, k) =>
          CommittedKeeps(fpscr, bits, fl, k);
          Commit(rt, rc, bits, fl, k);
        case Compares(crfD, a, b, ordered) => Compare(crfD, a, b, ordered);
        case Mcr(crfD, crfS) => Mcrfs(crfD, crfS);
        case Fields(mask, v, rc) => MoveFields(mask, v, rc);
        case Bit(crbD, set1, rc) => MoveBit(crbD, set1, rc);
        case ReadFpscr(rt, rc) => Mffs(rt, rc);
        case SetMsr(on) => fe := on;
      }
    }

    /** Over every run, VX and FEX are what they are defined to be, so every commit
        took its fast path exactly when that was right. */
    method Run(ops: seq<Op>)
      requires Valid() && forall op :: op in ops ==> op.Legal()
      modifies this
      ensures Valid()
    {
      for i := 0 to |ops|
        invariant Valid()
      {
        Step(ops[i]);
      }
    }
  }

  datatype Op =
    | Arithmetic(rt: nat, rc: bool, bits: U64, fl: set<Flag>, k: Kind)
    | Compares(crfD: nat, a: U64, b: U64, ordered: bool)
    | Mcr(crfD: nat, crfS: nat)
    | Fields(mask: seq<bool>, v: Bits, rc: bool)
    | Bit(crbD: nat, set1: bool, rc: bool)
    | ReadFpscr(rt: nat, rc: bool)
    | SetMsr(on: bool)
  {
    predicate Legal() {
      match this
      case Arithmetic(rt, _, _, _, _) => rt < 32
      case Compares(crfD, _, _, _) => crfD < 8
      case Mcr(crfD, crfS) => crfD < 8 && crfS < 8
      case Fields(mask, _, _) => |mask| == 8
      case Bit(crbD, _, _) => crbD < 32
      case ReadFpscr(rt, _) => rt < 32
      case SetMsr(_) => true
    }
  }

  /** The register as a 32-bit number. */
  function Number(f: seq<bool>): (n: nat)
    requires |f| <= 32
    ensures n < Pow2(|f|)
  {
    if f == [] then 0 else 2 * Number(f[..|f| - 1]) + if f[|f| - 1] then 1 else 0
  }

  /** mffs: the register in the low word of a quiet NaN. */
  function Image(f: Bits): U64 {
    Pow2Words();
    hide Pow2;
    0xFFF8_0000_0000_0000 + Number(f)
  }

  datatype Order = Less | Greater | Equal | Unordered

  function OneHot(o: Order): (r: seq<bool>)
    ensures |r| == 4
  {
    [o.Less?, o.Greater?, o.Equal?, o.Unordered?]
  }

  /** fcmp on the bit patterns. */
  function Fcmp(a: U64, b: U64): Order {
    var ma, mb, sa, sb := a % SIGN, b % SIGN, Negative(a), Negative(b);
    if Nan(a) || Nan(b) then Unordered
    else if ma == 0 && mb == 0 then Equal
    else if ma == 0 then (if sb then Greater else Less)
    else if mb == 0 then (if sa then Less else Greater)
    else if sa != sb then (if sa then Less else Greater)
    else if ma == mb then Equal
    else if (ma < mb) != sa then Less else Greater
  }

  /** compare's update before the derived bits are recomputed. */
  function Compared(f: Bits, a: U64, b: U64, ordered: bool): (r: Bits) {
    var snan := Snan(a) || Snan(b);
    var vc := ordered && (if snan then !f[VE] else Nan(a) || Nan(b));
    var fx := (snan && !f[VXSNAN]) || (vc && !f[VXVC]);
    var g := f[..16] + OneHot(Fcmp(a, b)) + f[20..];
    g[FX := g[FX] || fx][VXSNAN := g[VXSNAN] || snan][VXVC := g[VXVC] || vc]
  }

  lemma CompareKeeps(f: Bits, a: U64, b: U64, ordered: bool)
    ensures forall i :: 0 <= i < 32 && IsSticky(i) && f[i] ==> Refresh(Compared(f, a, b, ordered))[i]
  {
    hide Refresh, Fcmp, Derived;
  }

  /** The fast path's update: nothing but XX can have transitioned, so XX && XE is
      the whole of the recomputation. */
  function Quick(f: Bits, bits: U64, fl: set<Flag>, k: Kind): (r: Bits) {
    var nf := f[FR := false][FI := false];
    var f2 := if Xx !in fl then nf
      else
        var g := (if !f[XX] then nf[FX := true] else nf)[XX := true][FI := true];
        if g[XE] then g[FEX := true] else g;
    var f3 := if Fr in fl then f2[FR := true] else f2;
    WithFprf(f3, bits, k)
  }

  /** On a consistent FPSCR the fast path is the general path. */
  lemma QuickIsCommitted(f: Bits, bits: U64, fl: set<Flag>, k: Kind)
    requires Derived(f) && fl <= {Xx, Fr}
    ensures Quick(f, bits, fl, k) == Committed(f, bits, fl, k) && !Suppressed(f, fl)
  {
    QuickBits(f, bits, fl, k);
    hide Quick, WithFprf, Raised;
    RefreshAgain(WithFprf(Raised(f, fl), bits, k), Quick(f, bits, fl, k));
  }

  lemma QuickBits(f: Bits, bits: U64, fl: set<Flag>, k: Kind)
    requires Derived(f) && fl <= {Xx, Fr}
    ensures !Suppressed(f, fl) && Derived(Quick(f, bits, fl, k))
    ensures forall i :: 0 <= i < 32 && i != FEX ==>
      Quick(f, bits, fl, k)[i] == WithFprf(Raised(f, fl), bits, k)[i]
  {
    assert forall i :: Raises(fl, i) <==> i == XX && Xx in fl;
    hide WithFprf, Classify, Raises;
    QuickEach(f, bits, fl, k);
    RaisedEach(f, fl);
    hide Quick, Raised;
    var quick := Quick(f, bits, fl, k);
    assert forall i :: 0 <= i < 32 && IsVx(i) ==> quick[i] == f[i];
    assert AnyVx(quick) == AnyVx(f);
  }

  /** The fast path, bit by bit. */
  lemma QuickEach(f: Bits, bits: U64, fl: set<Flag>, k: Kind)
    ensures var q := Quick(f, bits, fl, k);
      && q[FX] == (f[FX] || (Xx in fl && !f[XX])) && q[XX] == (f[XX] || Xx in fl)
      && q[FEX] == (f[FEX] || (Xx in fl && f[XE])) && q[FI] == (Xx in fl) && q[FR] == (Fr in fl)
      && (forall i :: FPRF <= i < FPRF + 5 ==> q[i] == if k.NoFprf? then f[i] else Classify(bits, k.SglFprf?)[i - FPRF])
      && (forall i :: 0 <= i < 32 && i !in {FX, XX, FEX, FI, FR} && !(FPRF <= i < FPRF + 5) ==> q[i] == f[i])
  {
    hide WithFprf, Classify;
  }

  lemma RaisedEach(f: Bits, fl: set<Flag>)
    requires forall i :: Raises(fl, i) <==> i == XX && Xx in fl
    ensures var r := Raised(f, fl);
      && r[FX] == (f[FX] || (Xx in fl && !f[XX])) && r[XX] == (f[XX] || Xx in fl)
      && r[FI] == (Xx in fl) && r[FR] == (Fr in fl)
      && (forall i :: 0 <= i < 32 && i !in {FX, XX, FI, FR} ==> r[i] == f[i])
  {
    hide Raises;
    assert SomethingNew(f, fl) <==> Xx in fl && !f[XX];
    hide SomethingNew;
  }

  /** A consistent register that differs at most in FEX is the refreshed one. */
  lemma RefreshAgain(f: Bits, g: Bits)
    requires Derived(g) && forall i :: 0 <= i < 32 && i != FEX ==> f[i] == g[i]
    ensures Refresh(f) == g
  {
    var v := Refresh(f);
    hide Refresh;
    assert forall i :: 0 <= i < 32 && IsVx(i) ==> v[i] == g[i];
    assert AnyVx(v) == AnyVx(g);
    assert forall i :: 0 <= i < 32 && i != FEX ==> v[i] == g[i];
  }
}
