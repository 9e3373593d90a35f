/** The other direction: a writer for any list of blocks the format can spell, and
    the round trip through inflateRaw. */
module DeflateWriter {
  import opened Units
  import opened Dyadic
  import opened Huffman
  import opened Inflate

  // ---- bits into bytes ------------------------------------------------------

  /** Bits as a number, the first one lowest. */
  function ByteOf(w: seq<bool>): (b: nat)
    ensures b < Pow2(|w|)
  {
    if w == [] then 0 else (if w[0] then 1 else 0) + 2 * ByteOf(w[1..])
  }

  lemma {:induction false} ByteOfAt(w: seq<bool>, k: nat)
    requires k < |w|
    ensures BitAt(ByteOf(w), k) == w[k]
    decreases |w|
  {
    if k > 0 {
      ByteOfAt(w[1..], k - 1);
      DivTwo(ByteOf(w), Pow2(k - 1));
      assert ByteOf(w) / 2 == ByteOf(w[1..]);
    }
  }

  predicate BitAt(b: nat, k: nat) {
    b / Pow2(k) % 2 == 1
  }

  /** Eight bits to a byte, the last one filled up with zeros. */
  function Pack(w: seq<bool>): (p: seq<Byte>)
    ensures |p| == (|w| + 7) / 8
    decreases |w|
  {
    if w == [] then []
    else if |w| < 8 then
      Small(|w|);
      [ByteOf(w)]
    else
      Small(8);
      [ByteOf(w[..8])] + Pack(w[8..])
  }

  lemma Small(n: nat)
    requires n <= 8
    ensures Pow2(n) <= 256
  {
    Pow2Mono(n, 8);
    assert Pow2(4) == 16 && Pow2(8) == 256;
  }

  lemma {:induction false} PackAt(w: seq<bool>)
    ensures At(Pack(w), 0, w)
    decreases |w|
  {
    hide ByteOf;
    var p := Pack(w);
    if |w| >= 8 {
      PackAt(w[8..]);
    }
    forall k | 0 <= k < |w|
      ensures StreamBit(p, k) == w[k]
    {
      if k >= 8 {
        assert StreamBit(Pack(w[8..]), 0 + (k - 8)) == w[8..][k - 8];
      } else {
        ByteOfAt(if |w| < 8 then w else w[..8], k);
      }
    }
  }

  // ---- blocks into bits -----------------------------------------------------

  predicate TokensCoded(lit: Lengths, dist: Lengths, ts: seq<Token>) {
    Used(lit, END_OF_BLOCK) && forall i :: 0 <= i < |ts| ==> TokenCoded(lit, dist, ts[i])
  }

  function TokensBits(lit: Lengths, dist: Lengths, ts: seq<Token>): seq<bool>
    requires TokensCoded(lit, dist, ts)
  {
    if ts == [] then Codeword(lit, END_OF_BLOCK) else TokenBits(lit, dist, ts[0]) + TokensBits(lit, dist, ts[1..])
  }

  predicate RunsCoded(cl: Lengths, rs: seq<Run>) {
    forall i :: 0 <= i < |rs| ==> rs[i].Ok() && Used(cl, rs[i].Symbol())
  }

  function RunsBits(cl: Lengths, rs: seq<Run>): seq<bool>
    requires RunsCoded(cl, rs)
  {
    if rs == [] then [] else RunBits(cl, rs[0]) + RunsBits(cl, rs[1..])
  }

  /** The first n code lengths of the code-length alphabet, in its own order. */
  function ClBits(cl: seq<nat>, n: nat): (w: seq<bool>)
    requires |cl| == 19 && n <= 19
    ensures |w| == 3 * n
  {
    if n == 0 then [] else ClBits(cl, n - 1) + LowFirst(cl[Order(n - 1)], 3)
  }

  function HeaderBits(h: Header): seq<bool>
    requires HeaderOk(h) && RunsCoded(h.cl, h.rs)
  {
    LowFirst(h.hlit - 257, 5) + LowFirst(h.hdist - 1, 5) + LowFirst(h.hclen - 4, 4) + ClBits(h.cl, h.hclen) + RunsBits(h.cl, h.rs)
  }

  function DataBits(data: seq<Byte>): (w: seq<bool>)
    ensures |w| == 8 * |data|
  {
    if data == [] then [] else LowFirst(data[0], 8) + DataBits(data[1..])
  }

  /** A stored block's length fits its field; a coded one uses only symbols its
      codes have. */
  ghost predicate Writable(b: Block) {
    match b
    case Stored(data) => |data| <= 65535
    case FixedBlock(ts) => TokensCoded(FixedLit(), FixedDist(), ts)
    case Dynamic(h, ts) => HeaderOk(h) && RunsCoded(h.cl, h.rs) && TokensCoded(LitLens(h), DistLens(h), ts)
  }

  /** The zeros up to the next byte boundary. */
  function Padding(pos: nat): (w: seq<bool>)
    ensures (pos + |w|) % 8 == 0 && |w| < 8 && pos + |w| == (pos + 7) / 8 * 8
  {
    seq((pos + 7) / 8 * 8 - pos, _ => false)
  }

  /** A block's bits after its own three, which start at pos. */
  function BodyBits(pos: nat, b: Block): seq<bool>
    requires Writable(b)
  {
    match b
    case Stored(data) =>
      Padding(pos + 3) + LowFirst(|data| % 256, 8) + LowFirst(|data| / 256, 8)
        + LowFirst((65535 - |data|) % 256, 8) + LowFirst((65535 - |data|) / 256, 8) + DataBits(data)
    case FixedBlock(ts) => TokensBits(FixedLit(), FixedDist(), ts)
    case Dynamic(h, ts) => HeaderBits(h) + TokensBits(h.lens[..h.hlit], h.lens[h.hlit..], ts)
  }

  function BlockBits(pos: nat, fin: bool, b: Block): seq<bool>
    requires Writable(b)
  {
    LowFirst(if fin then 1 else 0, 1) + LowFirst(b.Type(), 2) + BodyBits(pos, b)
  }

  function StreamBits(pos: nat, bs: seq<Block>): seq<bool>
    requires forall i :: 0 <= i < |bs| ==> Writable(bs[i])
    decreases |bs|
  {
    if bs == [] then []
    else
      var w := BlockBits(pos, |bs| == 1, bs[0]);
      w + StreamBits(pos + |w|, bs[1..])
  }

  // ---- what was written is there --------------------------------------------

  lemma {:induction false} TokensWritten(p: seq<Byte>, pos: nat, lit: Lengths, dist: Lengths, ts: seq<Token>)
    requires TokensCoded(lit, dist, ts) && At(p, pos, TokensBits(lit, dist, ts))
    ensures TokensAt(p, pos, lit, dist, ts, pos + |TokensBits(lit, dist, ts)|)
    decreases |ts|
  {
    hide At, TokenBits, Codeword, TokenCoded;
    if ts != [] {
      var w, rest := TokenBits(lit, dist, ts[0]), TokensBits(lit, dist, ts[1..]);
      AtSplit(p, pos, w, rest);
      TokensWritten(p, pos + |w|, lit, dist, ts[1..]);
    }
  }

  lemma {:induction false} RunsWritten(p: seq<Byte>, pos: nat, cl: Lengths, rs: seq<Run>)
    requires RunsCoded(cl, rs) && At(p, pos, RunsBits(cl, rs))
    ensures RunsAt(p, pos, cl, rs, pos + |RunsBits(cl, rs)|)
    decreases |rs|
  {
    hide At, RunBits;
    if rs != [] {
      var w, rest := RunBits(cl, rs[0]), RunsBits(cl, rs[1..]);
      AtSplit(p, pos, w, rest);
      RunsWritten(p, pos + |w|, cl, rs[1..]);
    }
  }

  lemma {:induction false} ClWritten(p: seq<Byte>, pos: nat, cl: seq<nat>, n: nat)
    requires |cl| == 19 && n <= 19 && (forall k :: 0 <= k < 19 ==> cl[k] < 8) && At(p, pos, ClBits(cl, n))
    ensures forall k :: 0 <= k < n ==> Carries(p, pos + 3 * k, cl[Order(k)], 3)
    decreases n
  {
    hide At, LowFirst, Order, Pow2;
    PowSmall();
    if n > 0 {
      AtSplit(p, pos, ClBits(cl, n - 1), LowFirst(cl[Order(n - 1)], 3));
      ClWritten(p, pos, cl, n - 1);
    }
  }

  lemma HeaderWritten(p: seq<Byte>, pos: nat, h: Header)
    requires HeaderOk(h) && RunsCoded(h.cl, h.rs) && At(p, pos, HeaderBits(h))
    ensures HeaderAt(p, pos, h, pos + |HeaderBits(h)|)
  {
    hide At, LowFirst, Pow2, RunsCoded, RunsBits, Fits, CanRunAll, UnrollAll, ClBits, RunsAt;
    var a, b, c := LowFirst(h.hlit - 257, 5), LowFirst(h.hdist - 1, 5), LowFirst(h.hclen - 4, 4);
    var d, e := ClBits(h.cl, h.hclen), RunsBits(h.cl, h.rs);
    AtSplit(p, pos, a + b + c + d, e);
    AtSplit(p, pos, a + b + c, d);
    AtSplit(p, pos, a + b, c);
    AtSplit(p, pos, a, b);
    ClWritten(p, pos + 14, h.cl, h.hclen);
    RunsWritten(p, pos + 14 + 3 * h.hclen, h.cl, h.rs);
    FieldsFit();
  }

  lemma FieldsFit()
    ensures Pow2(1) == 2 && Pow2(2) == 4 && Pow2(4) == 16 && Pow2(5) == 32 && Pow2(8) == 256
  {
    assert Pow2(4) == 16 && Pow2(8) == 256;
  }

  /** Eight bits determine a byte. */
  lemma {:induction false} SameBits(a: nat, b: nat, n: nat)
    requires a < Pow2(n) && b < Pow2(n) && forall k :: 0 <= k < n ==> BitAt(a, k) == BitAt(b, k)
    ensures a == b
    decreases n
  {
    if n > 0 {
      forall k | 0 <= k < n - 1
        ensures BitAt(a / 2, k) == BitAt(b / 2, k)
      {
        DivTwo(a, Pow2(k));
        DivTwo(b, Pow2(k));
        assert BitAt(a, k + 1) == BitAt(b, k + 1);
      }
      SameBits(a / 2, b / 2, n - 1);
      assert BitAt(a, 0) == BitAt(b, 0);
    }
  }

  lemma ByteThere(p: seq<Byte>, i: nat, v: nat)
    requires At(p, 8 * i, LowFirst(v, 8)) && v < 256
    ensures i < |p| && p[i] == v
  {
    hide LowFirst, Pow2;
    FieldsFit();
    forall k | 0 <= k < 8
      ensures BitAt(p[i], k) == BitAt(v, k)
    {
      LowFirstAt(v, 8, k);
      assert StreamBit(p, 8 * i + k) == BitOf(p[i], k);
    }
    SameBits(p[i], v, 8);
  }

  lemma {:induction false} DataWritten(p: seq<Byte>, i: nat, data: seq<Byte>)
    requires At(p, 8 * i, DataBits(data))
    ensures i + |data| <= |p| && p[i..i + |data|] == data
    decreases |data|
  {
    if data != [] {
      hide StreamBit, LowFirst, At;
      AtSplit(p, 8 * i, LowFirst(data[0], 8), DataBits(data[1..]));
      ByteThere(p, i, data[0]);
      DataWritten(p, i + 1, data[1..]);
    }
  }

  lemma StoredWritten(p: seq<Byte>, pos: nat, data: seq<Byte>)
    requires |data| <= 65535 && At(p, pos + 3, BodyBits(pos, Stored(data)))
    ensures BodyAt(p, pos, Stored(data), pos + 3 + |BodyBits(pos, Stored(data))|)
  {
    hide At, LowFirst, DataBits, Padding;
    var n, m := |data|, 65535 - |data|;
    var z, a, b := Padding(pos + 3), LowFirst(n % 256, 8), LowFirst(n / 256, 8);
    var c, d, e := LowFirst(m % 256, 8), LowFirst(m / 256, 8), DataBits(data);
    var i := (pos + 10) / 8;
    AtSplit(p, pos + 3, z + a + b + c + d, e);
    AtSplit(p, pos + 3, z + a + b + c, d);
    AtSplit(p, pos + 3, z + a + b, c);
    AtSplit(p, pos + 3, z + a, b);
    AtSplit(p, pos + 3, z, a);
    assert pos + 3 + |z| == 8 * i;
    ByteThere(p, i, n % 256);
    ByteThere(p, i + 1, n / 256);
    ByteThere(p, i + 2, m % 256);
    ByteThere(p, i + 3, m / 256);
    DataWritten(p, i + 4, data);
  }

  lemma BodyWritten(p: seq<Byte>, pos: nat, b: Block)
    requires Writable(b) && At(p, pos + 3, BodyBits(pos, b))
    ensures BodyAt(p, pos, b, pos + 3 + |BodyBits(pos, b)|)
  {
    hide At, TokensCoded, TokensBits, HeaderOk, HeaderAt, HeaderBits, RunsCoded, TokensAt, FixedLit, FixedDist;
    match b
    case Stored(data) =>
      StoredWritten(p, pos, data);
    case FixedBlock(ts) =>
      TokensWritten(p, pos + 3, FixedLit(), FixedDist(), ts);
    case Dynamic(h, ts) =>
      DynamicWritten(p, pos, h, ts);
  }

  lemma DynamicWritten(p: seq<Byte>, pos: nat, h: Header, ts: seq<Token>)
    requires Writable(Dynamic(h, ts)) && At(p, pos + 3, BodyBits(pos, Dynamic(h, ts)))
    ensures BodyAt(p, pos, Dynamic(h, ts), pos + 3 + |BodyBits(pos, Dynamic(h, ts))|)
  {
    hide At, TokensCoded, TokensBits, HeaderAt, HeaderBits, RunsCoded, TokensAt, CanRunAll, UnrollAll, Fits, ClOk;
    var mid := pos + 3 + |HeaderBits(h)|;
    AtSplit(p, pos + 3, HeaderBits(h), TokensBits(LitLens(h), DistLens(h), ts));
    HeaderWritten(p, pos + 3, h);
    TokensWritten(p, mid, LitLens(h), DistLens(h), ts);
    assert DynamicAt(p, pos, h, ts, mid, pos + 3 + |BodyBits(pos, Dynamic(h, ts))|);
  }

  lemma BlockWritten(p: seq<Byte>, pos: nat, fin: bool, b: Block)
    requires Writable(b) && At(p, pos, BlockBits(pos, fin, b))
    ensures BlockAt(p, pos, fin, b, pos + |BlockBits(pos, fin, b)|)
  {
    hide At, Writable, BodyBits, LowFirst, Pow2, BodyAt;
    var f, k := LowFirst(if fin then 1 else 0, 1), LowFirst(b.Type(), 2);
    AtSplit(p, pos, f + k, BodyBits(pos, b));
    AtSplit(p, pos, f, k);
    BodyWritten(p, pos, b);
    FieldsFit();
  }

  lemma {:induction false} BlocksWritten(p: seq<Byte>, pos: nat, bs: seq<Block>) returns (marks: seq<nat>)
    requires (forall i :: 0 <= i < |bs| ==> Writable(bs[i])) && At(p, pos, StreamBits(pos, bs))
    ensures Marked(p, pos, bs, marks)
    decreases |bs|
  {
    hide At, Writable, BlockBits, BlockAt;
    marks := [pos];
    if bs != [] {
      var w, rest := BlockBits(pos, |bs| == 1, bs[0]), bs[1..];
      AtSplit(p, pos, w, StreamBits(pos + |w|, rest));
      BlockWritten(p, pos, |bs| == 1, bs[0]);
      var later := BlocksWritten(p, pos + |w|, rest);
      marks := [pos] + later;
      forall i | 0 <= i < |bs|
        ensures BlockAt(p, marks[i], i == |bs| - 1, bs[i], marks[i + 1])
      {
        if i > 0 {
          assert BlockAt(p, later[i - 1], i - 1 == |rest| - 1, rest[i - 1], later[i]);
        }
      }
    }
  }

  // ---- the round trip -------------------------------------------------------

  /** Blocks written and then inflated give their expansion. */
  method RoundTrip(bs: seq<Block>, cap: nat) returns (ok: bool, out: seq<Byte>, ghost got: seq<Block>)
    requires bs != [] && (forall i :: 0 <= i < |bs| ==> Writable(bs[i]))
    requires BlocksPossible([], bs) && |Inflated([], bs)| <= cap
    ensures ok && out == Inflated([], bs)
  {
    hide *;
    Written(bs, cap);
    ok, out, got := InflateRaw(Pack(StreamBits(0, bs)), cap, bs);
  }

  /** Nothing is left out: the blocks of any stream inflateRaw accepts can be written. */
  lemma AcceptedWritable(src: seq<Byte>, bs: seq<Block>, cap: nat, i: nat)
    requires Compressed(src, bs, cap) && i < |bs|
    ensures Writable(bs[i])
  {
    hide Carries, HeaderOk, HeaderAt, TokensAt, FixedLit, FixedDist, BlocksPossible, Inflated, TokensCoded, StoredAt;
    var marks :| Marked(src, 0, bs, marks);
    assert BlockAt(src, marks[i], i == |bs| - 1, bs[i], marks[i + 1]);
    match bs[i]
    case Stored(data) =>
      StoredFits(src, (marks[i] + 10) / 8, data);
    case FixedBlock(ts) =>
      TokensAreCoded(src, marks[i] + 3, FixedLit(), FixedDist(), ts, marks[i + 1]);
    case Dynamic(h, ts) =>
      var mid: nat :| DynamicAt(src, marks[i], h, ts, mid, marks[i + 1]);
      HeaderIsCoded(src, marks[i] + 3, h, mid);
      TokensAreCoded(src, mid, LitLens(h), DistLens(h), ts, marks[i + 1]);
  }

  lemma StoredFits(p: seq<Byte>, at: nat, data: seq<Byte>)
    requires StoredAt(p, at, data)
    ensures |data| <= 65535
  {
  }

  lemma {:induction false} TokensAreCoded(p: seq<Byte>, pos: nat, lit: Lengths, dist: Lengths, ts: seq<Token>, end: nat)
    requires TokensAt(p, pos, lit, dist, ts, end)
    ensures TokensCoded(lit, dist, ts)
    decreases |ts|
  {
    hide At, TokenBits, TokenCoded;
    if ts != [] {
      TokensAreCoded(p, pos + |TokenBits(lit, dist, ts[0])|, lit, dist, ts[1..], end);
      assert forall i :: 0 < i < |ts| ==> ts[i] == ts[1..][i - 1];
    }
  }

  lemma {:induction false} RunsAreCoded(p: seq<Byte>, pos: nat, cl: Lengths, rs: seq<Run>, end: nat)
    requires RunsAt(p, pos, cl, rs, end)
    ensures RunsCoded(cl, rs)
    decreases |rs|
  {
    hide At, RunBits;
    if rs != [] {
      RunsAreCoded(p, pos + |RunBits(cl, rs[0])|, cl, rs[1..], end);
      assert forall i :: 0 < i < |rs| ==> rs[i] == rs[1..][i - 1];
    }
  }

  lemma HeaderIsCoded(p: seq<Byte>, pos: nat, h: Header, end: nat)
    requires HeaderOk(h) && HeaderAt(p, pos, h, end)
    ensures RunsCoded(h.cl, h.rs) && LensOk(h.lens, h.hlit, h.hdist)
  {
    hide RunsCoded, RunsAt, Carries, CanRunAll, UnrollAll, Fits;
    RunsAreCoded(p, pos + 14 + 3 * h.hclen, h.cl, h.rs, end);
  }

  lemma Written(bs: seq<Block>, cap: nat)
    requires bs != [] && (forall i :: 0 <= i < |bs| ==> Writable(bs[i]))
    requires BlocksPossible([], bs) && |Inflated([], bs)| <= cap
    ensures Compressed(Pack(StreamBits(0, bs)), bs, cap)
  {
    hide Writable, BlocksPossible, Inflated, StreamBits, Pack, Marked;
    PackAt(StreamBits(0, bs));
    var marks := BlocksWritten(Pack(StreamBits(0, bs)), 0, bs);
  }
}
