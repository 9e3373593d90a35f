/** Where the inflater is more lenient than RFC 1951: dynamic headers whose last
    run announces too many lengths, and codes that leave code space unused; with a
    stream for each. */
module InflateStrict {
  import opened Units
  import opened Dyadic
  import opened Huffman
  import opened Inflate
  import opened DeflateWriter

  /** How many lengths the runs announce. */
  function Announced(rs: seq<Run>): nat {
    if rs == [] then 0 else rs[0].Size() + Announced(rs[1..])
  }

  predicate CanRunPlain(acc: seq<nat>, rs: seq<Run>)
    decreases |rs|
  {
    rs == [] || (rs[0].Ok() && CanRun(acc, rs[0]) && CanRunPlain(Unrolled(acc, rs[0]), rs[1..]))
  }

  /** The runs as section 3.2.7 reads them: nothing is ever dropped. */
  function Plain(acc: seq<nat>, rs: seq<Run>): seq<nat>
    requires CanRunPlain(acc, rs)
    decreases |rs|
  {
    if rs == [] then acc else Plain(Unrolled(acc, rs[0]), rs[1..])
  }

  /** The runs announce exactly the lengths the header asked for. */
  predicate Strict(h: Header) {
    Announced(h.rs) == h.hlit + h.hdist
  }

  /** Every codeword of 15 bits is taken. */
  predicate Complete(lens: Lengths) {
    First(lens, MAX_BITS) + Count(lens, MAX_BITS) == Pow2(MAX_BITS)
  }

  lemma UnrolledSize(acc: seq<nat>, r: Run)
    requires CanRun(acc, r)
    ensures |Unrolled(acc, r)| == |acc| + r.Size()
  {
  }

  /** Only the last run can be cut short, and cutting it is all that happens. */
  lemma {:induction false} OnlyLastClips(acc: seq<nat>, rs: seq<Run>, total: nat)
    requires CanRunAll(acc, rs, total) && |acc| <= total
    ensures CanRunPlain(acc, rs) && |Plain(acc, rs)| == |acc| + Announced(rs)
    ensures UnrollAll(acc, rs, total) == Clip(Plain(acc, rs), total)
    ensures rs != [] ==> |acc| + Announced(rs[..|rs| - 1]) < total
    decreases |rs|
  {
    hide Unrolled;
    if rs != [] {
      var next, rest := Unrolled(acc, rs[0]), rs[1..];
      UnrolledSize(acc, rs[0]);
      if |next| <= total {
        OnlyLastClips(next, rest, total);
        if rest != [] {
          assert rs[..|rs| - 1][1..] == rest[..|rest| - 1];
        }
      } else {
        assert rest == [] by {
          FullStops(Clip(next, total), rest, total);
        }
        assert rs == [rs[0]];
      }
    }
  }

  lemma FullStops(acc: seq<nat>, rs: seq<Run>, total: nat)
    requires CanRunAll(acc, rs, total) && |acc| == total
    ensures rs == []
  {
  }

  /** An accepted header is strict exactly when its last run does not overshoot;
      then its lengths are what section 3.2.7 says, and otherwise the beginning of
      that. No earlier run ever overshoots. */
  lemma AcceptedHeader(h: Header)
    requires HeaderOk(h)
    ensures h.rs != [] && Announced(h.rs[..|h.rs| - 1]) < h.hlit + h.hdist <= Announced(h.rs)
    ensures Strict(h) <==> Announced(h.rs[..|h.rs| - 1]) + h.rs[|h.rs| - 1].Size() == h.hlit + h.hdist
    ensures CanRunPlain([], h.rs) && h.lens <= Plain([], h.rs)
    ensures Strict(h) <==> h.lens == Plain([], h.rs)
  {
    hide Fits, ClOk, IsLengths, Unrolled, UnrollAll, CanRunAll, CanRunPlain, Plain;
    OnlyLastClips([], h.rs, |h.lens|);
    AnnouncedSnoc(h.rs);
  }

  /** So a dynamic block of an accepted stream is read as RFC 1951 reads it exactly
      when its header is strict. */
  lemma AcceptedStream(src: seq<Byte>, bs: seq<Block>, cap: nat, i: nat)
    requires Compressed(src, bs, cap) && i < |bs| && bs[i].Dynamic?
    ensures var h := bs[i].h;
      && HeaderOk(h) && CanRunPlain([], h.rs) && h.lens <= Plain([], h.rs)
      && (Strict(h) <==> h.lens == Plain([], h.rs))
  {
    hide HeaderOk, HeaderAt, TokensAt, Carries, Strict, CanRunPlain, Plain, BlocksPossible, Inflated;
    var marks :| Marked(src, 0, bs, marks);
    assert BlockAt(src, marks[i], i == |bs| - 1, bs[i], marks[i + 1]);
    var mid: nat :| DynamicAt(src, marks[i], bs[i].h, bs[i].ts, mid, marks[i + 1]);
    AcceptedHeader(bs[i].h);
  }

  lemma {:induction false} AnnouncedSnoc(rs: seq<Run>)
    ensures rs != [] ==> Announced(rs) == Announced(rs[..|rs| - 1]) + rs[|rs| - 1].Size()
    ensures rs == [] ==> Announced(rs) == 0
    decreases |rs|
  {
    if |rs| > 1 {
      AnnouncedSnoc(rs[1..]);
      assert rs[..|rs| - 1][1..] == rs[1..][..|rs| - 2];
    }
  }

  // ---- counting codes -------------------------------------------------------

  /** The code lengths above l0 are unused, so nothing more can go wrong. */
  lemma {:induction false} TailFits(lens: Lengths, l0: nat, l: nat)
    requires 1 <= l0 <= l && forall k :: l0 < k <= l ==> Count(lens, k) == 0
    ensures First(lens, l) + Count(lens, l) == (First(lens, l0) + Count(lens, l0)) * Pow2(l - l0)
    decreases l
  {
    hide Count, First, Pow2;
    var v := First(lens, l0) + Count(lens, l0);
    if l > l0 {
      TailFits(lens, l0, l - 1);
      FirstStep(lens, l);
      FirstStep(lens, l - l0);
      Doubled(v, Pow2(l - 1 - l0));
    } else {
      assert Pow2(0) == 1 by {
        PowSmall();
      }
    }
  }

  lemma Doubled(v: nat, p: nat)
    ensures 2 * (v * p) == v * (2 * p)
  {
  }

  /** A short prefix of the lengths decides the rest. */
  lemma FitsWhen(lens: Lengths, v: nat)
    requires Count(lens, 1) <= 2 && 2 * Count(lens, 1) + Count(lens, 2) == v <= 4
    requires forall l :: 3 <= l <= MAX_BITS ==> Count(lens, l) == 0
    ensures Fits(lens) && (Complete(lens) <==> v == 4)
  {
    hide Count, First;
    FirstStep(lens, 1);
    FirstStep(lens, 2);
    PowSmall();
    assert Pow2(1) == 2;
    hide Pow2;
    forall l | 2 <= l <= MAX_BITS
      ensures First(lens, l) + Count(lens, l) == v * Pow2(l - 2) && Pow2(l) == 4 * Pow2(l - 2)
    {
      TailFits(lens, 2, l);
      Pow2Add(2, l - 2);
    }
    forall l | 1 <= l <= MAX_BITS
      ensures First(lens, l) + Count(lens, l) <= Pow2(l)
    {
      if l >= 2 {
        AtMostFour(v, Pow2(l - 2));
      }
    }
    AtMostFour(v, Pow2(MAX_BITS - 2));
  }

  lemma AtMostFour(v: nat, p: nat)
    requires v <= 4 && p > 0
    ensures v * p <= 4 * p && (v * p == 4 * p <==> v == 4)
  {
  }

  lemma {:induction false} StillCounts(lens: Lengths, l: nat, a: nat, b: nat)
    requires a <= b <= |lens| && forall k :: a <= k < b ==> lens[k] != l
    ensures CountTo(lens, l, b) == CountTo(lens, l, a)
    decreases b
  {
    if a < b {
      StillCounts(lens, l, a, b - 1);
    }
  }

  /** Used code lengths at i and j only. */
  lemma TwoCounts(lens: Lengths, i: nat, j: nat, l: nat)
    requires i < j < |lens| && l > 0 && forall k :: 0 <= k < |lens| && k != i && k != j ==> lens[k] == 0
    ensures Count(lens, l) == (if lens[i] == l then 1 else 0) + if lens[j] == l then 1 else 0
  {
    StillCounts(lens, l, 0, i);
    StillCounts(lens, l, i + 1, j);
    StillCounts(lens, l, j + 1, |lens|);
  }

  lemma TwoCodes(lens: Lengths, i: nat, j: nat)
    requires i < j < |lens| && forall k :: 0 <= k < |lens| && k != i && k != j ==> lens[k] == 0
    requires lens[i] <= 2 && lens[j] <= 2
    ensures Fits(lens) && (Complete(lens) <==> lens[i] == 1 && lens[j] == 1)
  {
    forall l | 1 <= l <= MAX_BITS
      ensures Count(lens, l) == (if lens[i] == l then 1 else 0) + if lens[j] == l then 1 else 0
    {
      TwoCounts(lens, i, j, l);
    }
    hide Count, Complete, Fits;
    FitsWhen(lens, 2 * Count(lens, 1) + Count(lens, 2));
  }

  lemma NoCodeFits(lens: Lengths)
    requires forall k :: 0 <= k < |lens| ==> lens[k] == 0
    ensures Fits(lens)
  {
    forall l | 1 <= l <= MAX_BITS
      ensures Count(lens, l) == 0
    {
      StillCounts(lens, l, 0, |lens|);
    }
    hide Count;
    FitsWhen(lens, 0);
  }

  // ---- two streams ----------------------------------------------------------

  /** A code-length code with a one-bit codeword for long runs of zeros and two
      two-bit codewords. */
  function ThreeCl(i: nat, j: nat): (cl: Lengths)
    requires i < j < 18
    ensures |cl| == 19 && cl[i] == cl[j] == 2 && cl[18] == 1
    ensures forall k :: 0 <= k < 18 && k != i && k != j ==> cl[k] == 0
  {
    seq(19, k => if k == 18 then 1 else if k == i || k == j then 2 else 0)
  }

  lemma ThreeClFits(i: nat, j: nat)
    requires i < j < 18
    ensures Fits(ThreeCl(i, j))
  {
    var cl := ThreeCl(i, j);
    forall l | 1 <= l <= MAX_BITS
      ensures Count(cl, l) == if l == 1 then 1 else if l == 2 then 2 else 0
    {
      StillCounts(cl, l, 0, i);
      StillCounts(cl, l, i + 1, j);
      StillCounts(cl, l, j + 1, 18);
    }
    hide Count;
    FitsWhen(cl, 4);
  }

  /** One more run onto those already read. */
  lemma OneMoreRun(rs: seq<Run>, r: Run, lens: seq<nat>, total: nat)
    requires CanRunAll([], rs, total) && UnrollAll([], rs, total) == lens && |lens| < total && r.Ok() && !r.Previous?
    ensures CanRunAll([], rs + [r], total) && UnrollAll([], rs + [r], total) == Clip(Unrolled(lens, r), total)
    ensures Announced(rs + [r]) == Announced(rs) + r.Size()
  {
    hide Unrolled, Clip, CanRunAll, UnrollAll;
    UnrollSnoc([], rs, total, r);
    AnnouncedSnoc(rs + [r]);
    assert (rs + [r])[..|rs|] == rs;
  }

  /** 258 lengths, 254 zeros and then four of choice. */
  function Tailed(a: nat, b: nat): (lens: seq<nat>)
    ensures |lens| == 258 && lens[255] == a && lens[256] == b
    ensures forall k :: 0 <= k < 258 && k != 255 && k != 256 ==> lens[k] == 0
  {
    seq(258, k => if k == 255 then a else if k == 256 then b else 0)
  }

  /** A complete code of two one-bit codewords, announced with two lengths too many:
      255 zeros, two ones, and three zeros where one is wanted. */
  function Overshooting(): Header {
    Header(257, 1, 18, ThreeCl(1, 17), [LongZeros(127), LongZeros(106), Single(1), Single(1), ShortZeros(0)], Tailed(1, 1))
  }

  /** Announced exactly, but the only codeword, of two bits, leaves three quarters
      of the code space unused. */
  function Gapped(): Header {
    Header(257, 1, 16, ThreeCl(0, 2), [LongZeros(127), LongZeros(107), Single(2), Single(0)], Tailed(0, 2))
  }

  lemma ZerosUnroll(n: nat, x: nat)
    ensures Unrolled(Repeat(0, n), LongZeros(x)) == Repeat(0, n + 11 + x)
  {
  }

  /** Two long runs of zeros and a single length. */
  lemma ZerosThen(x: nat, y: nat, v: nat, total: nat)
    requires x < 128 && y < 128 && v < 16 && x + y + 22 < total
    ensures var rs, lens := [LongZeros(x), LongZeros(y), Single(v)], Repeat(0, x + y + 22) + [v];
      CanRunAll([], rs, total) && UnrollAll([], rs, total) == lens && Announced(rs) == x + y + 23
  {
    var r0, r1, r2 := LongZeros(x), LongZeros(y), Single(v);
    RunsSmall();
    ZerosUnroll(0, x);
    ZerosUnroll(11 + x, y);
    assert Repeat(0, 0) == [];
    hide CanRunAll, UnrollAll, Announced, Pow2;
    EmptyRuns(total);
    OneMoreRun([], r0, [], total);
    assert [] + [r0] == [r0] && [r0] + [r1] == [r0, r1] && [r0, r1] + [r2] == [r0, r1, r2];
    OneMoreRun([r0], r1, Repeat(0, 11 + x), total);
    OneMoreRun([r0, r1], r2, Repeat(0, x + y + 22), total);
  }

  lemma LastLengths()
    ensures Clip(Unrolled(Repeat(0, 255) + [1] + [1], ShortZeros(0)), 258) == Tailed(1, 1)
    ensures Clip(Unrolled(Repeat(0, 255) + [1], Single(1)), 258) == Repeat(0, 255) + [1] + [1]
    ensures Clip(Unrolled(Repeat(0, 256) + [2], Single(0)), 258) == Tailed(0, 2)
  {
  }

  lemma OvershootingRuns()
    ensures var h := Overshooting();
      CanRunAll([], h.rs, 258) && UnrollAll([], h.rs, 258) == h.lens && Announced(h.rs) == 260
  {
    hide CanRunAll, UnrollAll, Announced, Pow2, Tailed, Unrolled, Clip, ThreeCl, Run.Ok;
    var rs, r3, r4, lens := [LongZeros(127), LongZeros(106), Single(1)], Single(1), ShortZeros(0), Repeat(0, 255) + [1];
    ZerosThen(127, 106, 1, 258);
    RunsFine();
    LastLengths();
    OneMoreRun(rs, r3, lens, 258);
    OneMoreRun(rs + [r3], r4, lens + [1], 258);
    assert rs + [r3] + [r4] == Overshooting().rs;
  }

  lemma GappedRuns()
    ensures var h := Gapped();
      CanRunAll([], h.rs, 258) && UnrollAll([], h.rs, 258) == h.lens && Announced(h.rs) == 258
  {
    hide CanRunAll, UnrollAll, Announced, Pow2, Tailed, Unrolled, Clip, ThreeCl, Run.Ok;
    var rs, r3 := [LongZeros(127), LongZeros(107), Single(2)], Single(0);
    ZerosThen(127, 107, 2, 258);
    RunsFine();
    LastLengths();
    OneMoreRun(rs, r3, Repeat(0, 256) + [2], 258);
    assert rs + [r3] == Gapped().rs;
  }

  lemma RunsFine()
    ensures Single(0).Ok() && Single(1).Ok() && ShortZeros(0).Ok()
  {
    RunsSmall();
  }

  lemma EmptyRuns(total: nat)
    ensures CanRunAll([], [], total) && UnrollAll([], [], total) == [] && Announced([]) == 0
  {
  }

  lemma RunsSmall()
    ensures Pow2(0) == 1 && Pow2(3) == 8 && Pow2(7) == 128
  {
    assert Pow2(4) == 16;
  }

  lemma OvershootingOk()
    ensures HeaderOk(Overshooting()) && !Strict(Overshooting()) && Complete(LitLens(Overshooting()))
    ensures Writable(Dynamic(Overshooting(), []))
  {
    var h := Overshooting();
    hide Fits, Complete, CanRunAll, UnrollAll;
    OvershootingRuns();
    ThreeClFits(1, 17);
    OrderEnds();
    TwoCodes(h.lens[..257], 255, 256);
    NoCodeFits(h.lens[257..]);
    RunsSmall();
  }

  lemma GappedOk()
    ensures HeaderOk(Gapped()) && Strict(Gapped()) && !Complete(LitLens(Gapped()))
    ensures Writable(Dynamic(Gapped(), []))
  {
    var h := Gapped();
    hide Fits, Complete, CanRunAll, UnrollAll;
    GappedRuns();
    ThreeClFits(0, 2);
    OrderEnds();
    TwoCodes(h.lens[..257], 255, 256);
    NoCodeFits(h.lens[257..]);
    RunsSmall();
  }

  lemma OrderEnds()
    ensures Order(16) == 14 && Order(17) == 1 && Order(18) == 15
  {
  }

  /** A stream whose last run overshoots is inflated. */
  method OvershootAccepted() returns (src: seq<Byte>, ok: bool, out: seq<Byte>)
    ensures Carried(src, Overshooting()) && Compressed(src, [Dynamic(Overshooting(), [])], 0)
    ensures ok && out == [] && HeaderOk(Overshooting()) && !Strict(Overshooting()) && Complete(LitLens(Overshooting()))
  {
    hide *;
    OvershootingOk();
    src, ok, out := Taken(Overshooting());
  }

  /** So is a stream whose header is exact but whose literal code is incomplete. */
  method IncompleteAccepted() returns (src: seq<Byte>, ok: bool, out: seq<Byte>)
    ensures Carried(src, Gapped()) && Compressed(src, [Dynamic(Gapped(), [])], 0)
    ensures ok && out == [] && HeaderOk(Gapped()) && Strict(Gapped()) && !Complete(LitLens(Gapped()))
  {
    hide *;
    GappedOk();
    src, ok, out := Taken(Gapped());
  }

  /** src is the writer's bytes for an empty last block under this header. */
  ghost predicate Carried(src: seq<Byte>, h: Header) {
    Writable(Dynamic(h, [])) && src == Pack(StreamBits(0, [Dynamic(h, [])]))
  }

  /** The writer's bytes go through inflateRaw. */
  method Taken(h: Header) returns (src: seq<Byte>, ok: bool, out: seq<Byte>)
    requires Writable(Dynamic(h, []))
    ensures Carried(src, h) && Compressed(src, [Dynamic(h, [])], 0) && ok && out == []
  {
    hide *;
    src := Pack(StreamBits(0, [Dynamic(h, [])]));
    EmptyBlock(h);
    IsCarried(src, h);
    Written([Dynamic(h, [])], 0);
    ghost var got;
    ok, out, got := InflateRaw(src, 0, [Dynamic(h, [])]);
  }

  lemma IsCarried(src: seq<Byte>, h: Header)
    requires Writable(Dynamic(h, [])) && src == Pack(StreamBits(0, [Dynamic(h, [])]))
    ensures Carried(src, h)
  {
  }

  lemma EmptyBlock(h: Header)
    ensures BlocksPossible([], [Dynamic(h, [])]) && Inflated([], [Dynamic(h, [])]) == []
  {
    assert [Dynamic(h, [])][1..] == [];
    assert BlockPossible([], Dynamic(h, [])) && BlockOut([], Dynamic(h, [])) == [];
  }
}
