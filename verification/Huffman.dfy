/** Canonical Huffman codes: section 3.2.2 of RFC 1951 on one side, the count and
    symbol tables and the bit-at-a-time walk of the decoder on the other. */
module Huffman {
  import opened Units
  import opened Dyadic
  import opened Words

  // ---- the bit source -------------------------------------------------------

  /** Bit k of a byte, least significant first. */
  function BitOf(b: Byte, k: nat): bool {
    b / Pow2(k) % 2 == 1
  }

  /** The stream as the decoder sees it: each byte's bits from the bottom up. */
  function StreamBit(p: seq<Byte>, pos: nat): bool
    requires pos < 8 * |p|
  {
    BitOf(p[pos / 8], pos % 8)
  }

  /** The stream carries the bits w at position pos. */
  ghost predicate At(p: seq<Byte>, pos: nat, w: seq<bool>) {
    pos + |w| <= 8 * |p| && forall k :: 0 <= k < |w| ==> StreamBit(p, pos + k) == w[k]
  }

  /** A number in n bits, least significant bit first. */
  function LowFirst(v: nat, n: nat): (w: seq<bool>)
    ensures |w| == n
  {
    if n == 0 then [] else [v % 2 == 1] + LowFirst(v / 2, n - 1)
  }

  /** A number in n bits, most significant bit first. */
  function HighFirst(v: nat, n: nat): (w: seq<bool>)
    ensures |w| == n
  {
    if n == 0 then [] else HighFirst(v / 2, n - 1) + [v % 2 == 1]
  }

  /** The stream carries the number x in count bits at pos. */
  ghost predicate Carries(p: seq<Byte>, pos: nat, x: nat, count: nat) {
    x < Pow2(count) && At(p, pos, LowFirst(x, count))
  }

  class BitIn {
    const p: seq<Byte>
    var at: nat
    var bit: nat
    var bad: bool

    ghost predicate Valid()
      reads this
    {
      at <= |p| && bit < 8 && (at == |p| ==> bit == 0)
    }

    ghost function Pos(): nat
      reads this
    {
      8 * at + bit
    }

    constructor (src: seq<Byte>)
      ensures Valid() && p == src && Pos() == 0 && !bad
    {
      p, at, bit, bad := src, 0, 0, false;
    }

    /** take(1). */
    method TakeBit() returns (v: bool)
      requires Valid()
      modifies this
      ensures Valid()
      ensures if old(Pos()) < 8 * |p| then Pos() == old(Pos()) + 1 && v == StreamBit(p, old(Pos())) && bad == old(bad)
              else Pos() == old(Pos()) && !v && bad
    {
      if at >= |p| {
        bad := true;
        return false;
      }
      v := BitOf(p[at], bit);
      bit := bit + 1;
      if bit == 8 {
        bit := 0;
        at := at + 1;
      }
    }

    /** take(count): the next bits as a number, first bit lowest. */
    method Take(count: nat) returns (v: nat)
      requires Valid()
      modifies this
      ensures Valid() && Pos() >= old(Pos())
      ensures old(Pos()) + count <= 8 * |p| ==> Pos() == old(Pos()) + count && bad == old(bad) && v < Pow2(count)
      ensures old(Pos()) + count > 8 * |p| ==> bad && v == 0
      ensures forall x: nat :: Carries(p, old(Pos()), x, count) ==> v == x
      ensures old(bad) ==> bad
      ensures !bad ==> Carries(p, old(Pos()), v, count) && Pos() == old(Pos()) + count
    {
      hide StreamBit, At, LowFirst, Carries;
      v := 0;
      ghost var start := Pos();
      WholeNumber(p, start, count);
      for k := 0 to count
        invariant Valid() && Pos() == start + k && start + k <= 8 * |p| && bad == old(bad) && v < Pow2(k)
        invariant forall x: nat :: Carries(p, start, x, count) ==> v == x % Pow2(k)
      {
        if at >= |p| {
          bad := true;
          return 0;
        }
        var b := TakeBit();
        TakeStep(p, start, count, k, v, b);
        v := if b then v + Pow2(k) else v;
      }
      ghost var x := SomeNumber(p, start, count);
    }

    method Align()
      requires Valid()
      modifies this
      ensures Valid() && Pos() == (old(Pos()) + 7) / 8 * 8 && bad == old(bad)
    {
      if bit != 0 {
        bit := 0;
        at := at + 1;
      }
    }
  }

  /** Any bits in range spell some number. */
  lemma {:induction false} SomeNumber(p: seq<Byte>, start: nat, count: nat) returns (x: nat)
    requires start + count <= 8 * |p|
    ensures Carries(p, start, x, count)
    decreases count
  {
    hide StreamBit;
    if count == 0 {
      x := 0;
    } else {
      var r := SomeNumber(p, start + 1, count - 1);
      x := 2 * r + if StreamBit(p, start) then 1 else 0;
      assert x / 2 == r && (x % 2 == 1) == StreamBit(p, start);
      BitAhead(p, start, LowFirst(r, count - 1), StreamBit(p, start));
    }
  }

  lemma BitAhead(p: seq<Byte>, start: nat, w: seq<bool>, b: bool)
    requires At(p, start + 1, w) && start < 8 * |p| && b == StreamBit(p, start)
    ensures At(p, start, [b] + w)
  {
    hide StreamBit;
    forall k | 0 <= k < |w| + 1
      ensures StreamBit(p, start + k) == ([b] + w)[k]
    {
      assert k > 0 ==> StreamBit(p, start + 1 + (k - 1)) == w[k - 1];
    }
  }

  lemma WholeNumber(p: seq<Byte>, start: nat, count: nat)
    ensures forall x: nat :: Carries(p, start, x, count) ==> x % Pow2(count) == x
    ensures forall x: nat :: Carries(p, start, x, count) ==> start + count <= 8 * |p|
  {
    hide StreamBit;
    forall x: nat | Carries(p, start, x, count)
      ensures x % Pow2(count) == x
    {
      SmallMod(x, Pow2(count));
    }
  }

  /** Bit k of x is the k-th bit of its spelling. */
  lemma {:induction false} LowFirstAt(x: nat, n: nat, k: nat)
    requires k < n
    ensures LowFirst(x, n)[k] == (x / Pow2(k) % 2 == 1)
    decreases n
  {
    if k > 0 {
      LowFirstAt(x / 2, n - 1, k - 1);
      DivTwo(x, Pow2(k - 1));
    }
  }

  lemma DivTwo(x: nat, p: nat)
    requires p > 0
    ensures x / 2 / p == x / (2 * p)
  {
    var q, r := x / 2 / p, x / 2 % p;
    assert x / 2 == p * q + r;
    assert x == (2 * p) * q + (2 * r + x % 2);
    DivUnique(x, 2 * p, q, 2 * r + x % 2);
  }

  /** One more bit of every number that the stream could be spelling. */
  lemma TakeStep(p: seq<Byte>, start: nat, count: nat, k: nat, v: nat, b: bool)
    requires k < count && start + k < 8 * |p| && b == StreamBit(p, start + k) && v < Pow2(k)
    requires forall x: nat :: Carries(p, start, x, count) ==> v == x % Pow2(k)
    ensures (if b then v + Pow2(k) else v) < Pow2(k + 1)
    ensures forall x: nat :: Carries(p, start, x, count) ==>
      (if b then v + Pow2(k) else v) == x % Pow2(k + 1)
  {
    forall x: nat | Carries(p, start, x, count)
      ensures (if b then v + Pow2(k) else v) == x % Pow2(k + 1)
    {
      LowFirstAt(x, count, k);
      ModDouble(x, Pow2(k));
    }
  }

  lemma ModDouble(x: nat, p: nat)
    requires p > 0
    ensures x % (2 * p) == x % p + if x / p % 2 == 1 then p else 0
  {
    var q, r := x / p, x % p;
    var h, t := q / 2, q % 2;
    assert x == p * q + r && q == 2 * h + t;
    assert x == (2 * p) * h + (t * p + r);
    DivUnique(x, 2 * p, h, t * p + r);
  }

  // ---- the code of RFC 1951 -------------------------------------------------

  const MAX_BITS: nat := 15
  const MAX_SYMBOLS: nat := 288

  /** A code-length vector: entry s is the length of symbol s's codeword, 0 if unused. */
  type Lengths = s: seq<nat> | |s| <= 288 && forall k :: 0 <= k < |s| ==> s[k] <= 15 witness []

  /** bl_count: how many of the first n symbols have length l. */
  function CountTo(lens: Lengths, l: nat, n: nat): (c: nat)
    requires n <= |lens|
    ensures c <= n
  {
    if n == 0 then 0 else CountTo(lens, l, n - 1) + if lens[n - 1] == l then 1 else 0
  }

  function Count(lens: Lengths, l: nat): nat {
    if l == 0 then 0 else CountTo(lens, l, |lens|)
  }

  /** next_code as first computed: the smallest codeword of each length. */
  function First(lens: Lengths, l: nat): nat {
    if l <= 1 then 0 else 2 * (First(lens, l - 1) + Count(lens, l - 1))
  }

  /** Codewords of one length are handed out in symbol order. */
  function CodeValue(lens: Lengths, s: nat): nat
    requires s < |lens|
  {
    First(lens, lens[s]) + CountTo(lens, lens[s], s)
  }

  /** Codewords are packed most significant bit first. */
  function Codeword(lens: Lengths, s: nat): (w: seq<bool>)
    requires s < |lens|
    ensures |w| == lens[s]
  {
    HighFirst(CodeValue(lens, s), lens[s])
  }

  predicate Used(lens: Lengths, s: nat) {
    s < |lens| && lens[s] > 0
  }

  /** The Kraft condition, length by length: the code is not over-subscribed. */
  predicate Fits(lens: Lengths) {
    forall l :: 1 <= l <= MAX_BITS ==> First(lens, l) + Count(lens, l) <= Pow2(l)
  }

  /** Symbols sorted by length, then by number: where length l starts. */
  function Offset(lens: Lengths, l: nat): nat {
    if l <= 1 then 0 else Offset(lens, l - 1) + Count(lens, l - 1)
  }

  function Place(lens: Lengths, s: nat): nat
    requires s < |lens|
  {
    Offset(lens, lens[s]) + CountTo(lens, lens[s], s)
  }

  // ---- the decoder's tables -------------------------------------------------

  datatype Huff = Huff(count: seq<nat>, sym: seq<nat>)

  /** What build leaves in the tables. */
  ghost predicate Built(h: Huff, lens: Lengths) {
    && |h.count| == 16 && |h.sym| == MAX_SYMBOLS && Fits(lens)
    && (forall l :: 0 <= l < 16 ==> h.count[l] == Count(lens, l))
    && (forall k :: 0 <= k < MAX_SYMBOLS ==> h.sym[k] < MAX_SYMBOLS)
    && (forall s: nat :: Used(lens, s) ==> Place(lens, s) < MAX_SYMBOLS && h.sym[Place(lens, s)] == s)
  }

  lemma {:induction false} CountToMono(lens: Lengths, l: nat, a: nat, b: nat)
    requires a <= b <= |lens|
    ensures CountTo(lens, l, a) <= CountTo(lens, l, b)
    ensures a < b && lens[a] == l ==> CountTo(lens, l, a) < CountTo(lens, l, b)
    decreases b - a
  {
    if a < b {
      CountToMono(lens, l, a, b - 1);
    }
  }

  /** All lengths together count no more than the symbols. */
  lemma {:induction false} OffsetBound(lens: Lengths, l: nat)
    ensures Offset(lens, l) <= |lens|
    ensures l >= 1 ==> Offset(lens, l) + Count(lens, l) <= |lens|
  {
    OffsetIsBelow(lens, l, |lens|);
    OffsetIsBelow(lens, l + 1, |lens|);
    BelowBound(lens, l, |lens|);
    BelowBound(lens, l + 1, |lens|);
  }

  /** How many of the first n symbols have a length in [1, l). */
  function Below(lens: Lengths, l: nat, n: nat): nat
    requires n <= |lens|
  {
    if n == 0 then 0 else Below(lens, l, n - 1) + if 1 <= lens[n - 1] < l then 1 else 0
  }

  lemma {:induction false} BelowBound(lens: Lengths, l: nat, n: nat)
    requires n <= |lens|
    ensures Below(lens, l, n) <= n
  {
    if n > 0 {
      BelowBound(lens, l, n - 1);
    }
  }

  lemma {:induction false} BelowStep(lens: Lengths, l: nat, n: nat)
    requires n <= |lens| && l >= 1
    ensures Below(lens, l + 1, n) == Below(lens, l, n) + CountTo(lens, l, n)
  {
    if n > 0 {
      BelowStep(lens, l, n - 1);
    }
  }

  lemma {:induction false} OffsetIsBelow(lens: Lengths, l: nat, n: nat)
    requires n == |lens|
    ensures Offset(lens, l) == Below(lens, l, n)
    decreases l
  {
    if l <= 1 {
      NoneBelow(lens, l, n);
    } else {
      OffsetIsBelow(lens, l - 1, n);
      BelowStep(lens, l - 1, n);
    }
  }

  lemma {:induction false} NoneBelow(lens: Lengths, l: nat, n: nat)
    requires n <= |lens| && l <= 1
    ensures Below(lens, l, n) == 0
  {
    if n > 0 {
      NoneBelow(lens, l, n - 1);
    }
  }

  lemma {:induction false} OffsetMono(lens: Lengths, a: nat, b: nat)
    requires 1 <= a < b
    ensures Offset(lens, a) + Count(lens, a) <= Offset(lens, b)
    decreases b
  {
    if a < b - 1 {
      OffsetMono(lens, a, b - 1);
    }
  }

  /** Two used symbols have different places in the sorted order. */
  lemma PlacesDiffer(lens: Lengths, s: nat, t: nat)
    requires Used(lens, s) && Used(lens, t) && s != t
    ensures Place(lens, s) != Place(lens, t)
  {
    CountToMono(lens, lens[s], s, |lens|);
    CountToMono(lens, lens[t], t, |lens|);
    if lens[s] == lens[t] {
      if s < t {
        CountToMono(lens, lens[s], s, t);
      } else {
        CountToMono(lens, lens[s], t, s);
      }
    } else if lens[s] < lens[t] {
      OffsetMono(lens, lens[s], lens[t]);
    } else {
      OffsetMono(lens, lens[t], lens[s]);
    }
  }

  lemma PlaceBound(lens: Lengths, s: nat)
    requires Used(lens, s)
    ensures Place(lens, s) < |lens|
  {
    CountToMono(lens, lens[s], s, |lens|);
    OffsetBound(lens, lens[s]);
  }

  /** The first pass of build: how many codewords of each length. */
  method CountLengths(lens: Lengths) returns (count: seq<nat>)
    ensures |count| == 16 && forall l :: 0 <= l < 16 ==> count[l] == Count(lens, l)
  {
    count := seq(16, _ => 0);
    for k := 0 to |lens|
      invariant |count| == 16 && forall l :: 0 <= l < 16 ==> count[l] == CountTo(lens, l, k)
    {
      count := count[lens[k] := count[lens[k]] + 1];
    }
    count := count[0 := 0];
  }

  /** Build: reject an over-subscribed code, else sort the symbols by codeword. */
  method Build(lens: Lengths) returns (ok: bool, h: Huff)
    ensures ok <==> Fits(lens)
    ensures ok ==> Built(h, lens)
  {
    hide Pow2, CountTo, First, Offset, Count, Place;
    var count := CountLengths(lens);
    h := Huff(count, seq(MAX_SYMBOLS, _ => 0));
    var left := 1;
    FirstStep(lens, 1);
    for l := 1 to 16
      invariant left + (if l == 1 then 0 else First(lens, l - 1) + Count(lens, l - 1)) == Pow2(l - 1)
      invariant forall j :: 1 <= j < l ==> First(lens, j) + Count(lens, j) <= Pow2(j)
    {
      FirstStep(lens, l);
      left := left * 2;
      left := left - count[l];
      if left < 0 {
        return false, h;
      }
    }
    var offs := seq(16, _ => 0);
    OffsetStep(lens, 1);
    for l := 1 to 15
      invariant |offs| == 16 && forall j :: 1 <= j <= l ==> offs[j] == Offset(lens, j)
    {
      OffsetStep(lens, l + 1);
      offs := offs[l + 1 := offs[l] + count[l]];
    }
    var sym := SortSymbols(lens, offs);
    h := Huff(count, sym);
    ok := true;
  }

  lemma FirstStep(lens: Lengths, l: nat)
    requires l >= 1
    ensures First(lens, l) == if l == 1 then 0 else 2 * (First(lens, l - 1) + Count(lens, l - 1))
    ensures Pow2(l) == 2 * Pow2(l - 1) && Pow2(0) == 1
  {
  }

  lemma OffsetStep(lens: Lengths, l: nat)
    requires l >= 1
    ensures Offset(lens, l) == if l == 1 then 0 else Offset(lens, l - 1) + Count(lens, l - 1)
  {
  }

  /** The last pass of build. */
  method SortSymbols(lens: Lengths, offs0: seq<nat>) returns (sym: seq<nat>)
    requires |offs0| == 16 && forall l :: 1 <= l < 16 ==> offs0[l] == Offset(lens, l)
    ensures |sym| == MAX_SYMBOLS && forall k :: 0 <= k < MAX_SYMBOLS ==> sym[k] < MAX_SYMBOLS
    ensures forall s: nat :: Used(lens, s) ==> Place(lens, s) < MAX_SYMBOLS && sym[Place(lens, s)] == s
  {
    hide Offset;
    var offs := offs0;
    sym := seq(MAX_SYMBOLS, _ => 0);
    for k := 0 to |lens|
      invariant |offs| == 16 && forall l :: 1 <= l < 16 ==> offs[l] == Offset(lens, l) + CountTo(lens, l, k)
      invariant |sym| == MAX_SYMBOLS && forall j :: 0 <= j < MAX_SYMBOLS ==> sym[j] < MAX_SYMBOLS
      invariant forall s: nat :: s < k && Used(lens, s) ==> Place(lens, s) < MAX_SYMBOLS && sym[Place(lens, s)] == s
    {
      var l := lens[k];
      if l != 0 {
        PlaceBound(lens, k);
        forall s: nat | s < k && Used(lens, s)
          ensures Place(lens, s) != Place(lens, k)
        {
          PlacesDiffer(lens, s, k);
        }
        sym := sym[offs[l] := k];
        offs := offs[l := offs[l] + 1];
      }
    }
  }

  // ---- decoding -------------------------------------------------------------

  /** The first l bits of a codeword, as a number. */
  function Prefix(lens: Lengths, s: nat, l: nat): nat
    requires s < |lens| && l <= lens[s]
  {
    Shr(CodeValue(lens, s), lens[s] - l)
  }

  /** Before its own length, a codeword lies past every shorter codeword. */
  lemma {:induction false} PrefixPast(lens: Lengths, l: nat, n: nat)
    requires l >= 1 && n >= 1
    ensures First(lens, l + n) >= (First(lens, l) + Count(lens, l)) * Pow2(n)
    decreases n
  {
    hide First, Count, Pow2;
    FirstStep(lens, l + n);
    FirstStep(lens, n);
    var g, p := First(lens, l) + Count(lens, l), Pow2(n - 1);
    if n > 1 {
      PrefixPast(lens, l, n - 1);
    }
    assert g * (2 * p) == 2 * (g * p);
  }

  lemma {:induction false} DecodeContinues(lens: Lengths, s: nat, l: nat)
    requires Used(lens, s) && 1 <= l < lens[s]
    ensures Prefix(lens, s, l) >= First(lens, l) + Count(lens, l)
  {
    var n := lens[s] - l;
    hide First, Count, CountTo, Pow2;
    PrefixPast(lens, l, n);
    QuotientAtLeast(CodeValue(lens, s), Pow2(n), First(lens, l) + Count(lens, l));
  }

  lemma QuotientAtLeast(a: nat, p: nat, q: nat)
    requires p > 0 && a >= q * p
    ensures a / p >= q
  {
    DivMod(a, p);
    if a / p < q {
      MulLe(a / p + 1, q, p);
    }
  }

  lemma PrefixStep(lens: Lengths, s: nat, l: nat)
    requires s < |lens| && l < lens[s] && CodeValue(lens, s) < Pow2(lens[s])
    ensures Prefix(lens, s, l + 1) == 2 * Prefix(lens, s, l) + if Codeword(lens, s)[l] then 1 else 0
    ensures Prefix(lens, s, 0) == 0 && Prefix(lens, s, lens[s]) == CodeValue(lens, s)
  {
    var n := lens[s] - l - 1;
    hide CodeValue;
    HighFirstAt(CodeValue(lens, s), lens[s], l);
    var v, p := CodeValue(lens, s), Pow2(n);
    assert Pow2(n + 1) == 2 * p && Pow2(0) == 1;
    hide Pow2;
    SmallQuotient(v, Pow2(lens[s]));
    HalvesOf(v, p);
  }

  lemma SmallQuotient(a: nat, p: nat)
    requires a < p
    ensures a / p == 0
  {
  }

  lemma HalvesOf(v: nat, p: nat)
    requires p > 0
    ensures v / p == 2 * (v / (2 * p)) + v / p % 2
  {
    var q := v / p;
    DivMod(v, p);
    DivUnique(v, 2 * p, q / 2, q % 2 * p + v % p);
  }

  lemma {:induction false} HighFirstAt(v: nat, n: nat, k: nat)
    requires k < n
    ensures HighFirst(v, n)[k] == (v / Pow2(n - 1 - k) % 2 == 1)
    decreases n
  {
    if k < n - 1 {
      HighFirstAt(v / 2, n - 1, k);
      DivTwo(v, Pow2(n - 2 - k));
    }
  }

  /** A codeword of an accepted code fits its length. */
  lemma CodeFits(lens: Lengths, s: nat)
    requires Used(lens, s) && Fits(lens)
    ensures CodeValue(lens, s) < Pow2(lens[s])
    ensures CountTo(lens, lens[s], s) < Count(lens, lens[s])
  {
    hide Pow2, First;
    CountToMono(lens, lens[s], s, |lens|);
  }

  /** The stream has a codeword of this code at pos. */
  ghost predicate HasCode(p: seq<Byte>, pos: nat, lens: Lengths, s: nat) {
    Used(lens, s) && At(p, pos, Codeword(lens, s))
  }

  lemma HasCodeRange(p: seq<Byte>, pos: nat, lens: Lengths, s: nat)
    requires HasCode(p, pos, lens, s)
    ensures Used(lens, s) && pos + lens[s] <= 8 * |p|
    ensures forall k :: 0 <= k < lens[s] ==> StreamBit(p, pos + k) == Codeword(lens, s)[k]
  {
    hide StreamBit, Codeword;
  }

  /** Where the code read so far is that of t: a longer codeword lies past the
      codes of this length, and t's own is found in the table. */
  lemma DecodeAt(lens: Lengths, t: nat, len: nat, code: nat, h: Huff)
    requires Built(h, lens) && Used(lens, t) && 1 <= len <= lens[t] && code == Prefix(lens, t, len)
    ensures |h.count| == 16 && |h.sym| == MAX_SYMBOLS
    ensures len < lens[t] ==> code >= First(lens, len) + h.count[len]
    ensures len == lens[t] ==>
      && 0 <= code - First(lens, len) < h.count[len]
      && Offset(lens, len) + (code - First(lens, len)) < MAX_SYMBOLS
      && h.sym[Offset(lens, len) + (code - First(lens, len))] == t
  {
    hide First, Count, Offset, Fits, CountTo, Pow2, Built;
    BuiltAt(h, lens, t, len);
    PrefixStep(lens, t, len - 1);
    if len < lens[t] {
      hide Prefix;
      DecodeContinues(lens, t, len);
    }
  }

  /** Any codeword that starts here is at least `len` bits long, and the bits
      before bit `len` are the code read so far. */
  ghost predicate Tracked(p: seq<Byte>, start: nat, lens: Lengths, len: nat, code: nat, pos: nat, same: bool)
    requires len > 0
  {
    forall t: nat :: HasCode(p, start, lens, t) ==>
      len <= lens[t] && code == 2 * Prefix(lens, t, len - 1) && pos == start + (len - 1) && same
  }

  /** The same after bit `len`. */
  ghost predicate Matched(p: seq<Byte>, start: nat, lens: Lengths, len: nat, code: nat, pos: nat, same: bool) {
    forall t: nat :: HasCode(p, start, lens, t) ==>
      len <= lens[t] && code == Prefix(lens, t, len) && pos == start + len && same
  }

  lemma TrackStart(p: seq<Byte>, start: nat, lens: Lengths, h: Huff)
    requires Built(h, lens)
    ensures Tracked(p, start, lens, 1, 0, start, true)
  {
    hide First, Count, Offset, Fits, StreamBit, CountTo, At, Codeword, Built;
    forall t: nat | HasCode(p, start, lens, t)
      ensures Prefix(lens, t, 0) == 0 && 1 <= lens[t]
    {
      BuiltAt(h, lens, t, 1);
      PrefixStep(lens, t, 0);
    }
  }

  lemma Track(p: seq<Byte>, start: nat, lens: Lengths, h: Huff, len: nat, code: nat, b: bool, pos: nat, same: bool, pos': nat, same': bool)
    requires 0 < len < 16 && Built(h, lens) && Tracked(p, start, lens, len, code, pos, same)
    requires pos < 8 * |p| ==> pos' == pos + 1 && b == StreamBit(p, pos) && (same ==> same')
    ensures Matched(p, start, lens, len, if b then code + 1 else code, pos', same')
  {
    hide First, Count, Offset, Fits, StreamBit, CountTo, At, Codeword, Prefix, Pow2, Built;
    forall t: nat | HasCode(p, start, lens, t)
      ensures len <= lens[t] && (if b then code + 1 else code) == Prefix(lens, t, len) && pos' == start + len && same'
    {
      HasCodeRange(p, start, lens, t);
      BuiltAt(h, lens, t, len);
      PrefixStep(lens, t, len - 1);
    }
  }

  lemma Settles(p: seq<Byte>, start: nat, lens: Lengths, h: Huff, len: nat, code: nat, pos: nat, same: bool)
    requires Built(h, lens) && 1 <= len < 16 && Matched(p, start, lens, len, code, pos, same) && |h.count| == 16
    requires First(lens, len) <= code < First(lens, len) + h.count[len]
    requires |h.sym| == MAX_SYMBOLS && Offset(lens, len) + (code - First(lens, len)) < MAX_SYMBOLS
    ensures forall t: nat :: HasCode(p, start, lens, t) ==>
      h.sym[Offset(lens, len) + (code - First(lens, len))] == t && pos == start + lens[t] && same
  {
    hide First, Count, Offset, Fits, StreamBit, CountTo, At, Codeword, Prefix, Pow2, Built;
    forall t: nat | HasCode(p, start, lens, t)
      ensures h.sym[Offset(lens, len) + (code - First(lens, len))] == t && pos == start + lens[t] && same
    {
      DecodeAt(lens, t, len, code, h);
    }
  }

  lemma Goes(p: seq<Byte>, start: nat, lens: Lengths, h: Huff, len: nat, code: nat, pos: nat, same: bool)
    requires Built(h, lens) && 1 <= len < 16 && Matched(p, start, lens, len, code, pos, same) && |h.count| == 16
    requires code >= First(lens, len) + h.count[len]
    ensures Tracked(p, start, lens, len + 1, 2 * code, pos, same)
  {
    hide First, Count, Offset, Fits, StreamBit, CountTo, At, Codeword, Prefix, Pow2, Built;
    forall t: nat | HasCode(p, start, lens, t)
      ensures len + 1 <= lens[t] && 2 * code == 2 * Prefix(lens, t, len) && pos == start + len && same
    {
      DecodeAt(lens, t, len, code, h);
    }
  }

  lemma NoneLeft(p: seq<Byte>, start: nat, lens: Lengths, code: nat, pos: nat, same: bool)
    requires Tracked(p, start, lens, 16, code, pos, same)
    ensures forall t: nat :: !HasCode(p, start, lens, t)
  {
    hide At, Codeword, Prefix;
  }

  lemma BuiltShape(h: Huff, lens: Lengths, len: nat)
    requires Built(h, lens) && len < 16
    ensures |h.count| == 16 && |h.sym| == MAX_SYMBOLS && h.count[len] == Count(lens, len)
    ensures forall k :: 0 <= k < MAX_SYMBOLS ==> h.sym[k] < MAX_SYMBOLS
  {
    hide Count, Fits, Place;
  }

  lemma BuiltAt(h: Huff, lens: Lengths, t: nat, len: nat)
    requires Built(h, lens) && Used(lens, t) && 1 <= len < 16
    ensures |h.count| == 16 && |h.sym| == MAX_SYMBOLS && h.count[len] == Count(lens, len)
    ensures CodeValue(lens, t) < Pow2(lens[t]) && CountTo(lens, lens[t], t) < Count(lens, lens[t])
    ensures Offset(lens, lens[t]) + CountTo(lens, lens[t], t) < MAX_SYMBOLS
    ensures h.sym[Offset(lens, lens[t]) + CountTo(lens, lens[t], t)] == t
  {
    CodeFits(lens, t);
    hide First, Count, Offset, Fits, CountTo, Pow2;
    assert Place(lens, t) < MAX_SYMBOLS && h.sym[Place(lens, t)] == t;
  }

  lemma AtEmpty(p: seq<Byte>, start: nat)
    requires start <= 8 * |p|
    ensures At(p, start, HighFirst(0, 0))
  {
  }

  lemma {:induction false} AtAppend(p: seq<Byte>, start: nat, v: nat, n: nat, b: bool, code: nat)
    requires At(p, start, HighFirst(v, n)) && start + n < 8 * |p| && b == StreamBit(p, start + n)
    requires code == 2 * v + if b then 1 else 0
    ensures At(p, start, HighFirst(code, n + 1))
  {
    hide At, StreamBit;
    assert code / 2 == v && (code % 2 == 1) == b;
    assert HighFirst(code, n + 1) == HighFirst(v, n) + [b];
    AtSnoc(p, start, HighFirst(v, n), b);
  }

  lemma AtSnoc(p: seq<Byte>, start: nat, w: seq<bool>, b: bool)
    requires At(p, start, w) && start + |w| < 8 * |p| && b == StreamBit(p, start + |w|)
    ensures At(p, start, w + [b])
  {
    hide StreamBit;
  }

  /** Every rank of a length belongs to a symbol. */
  lemma {:induction false} SymbolOfRank(lens: Lengths, l: nat, r: nat, n: nat) returns (s: nat)
    requires n <= |lens| && r < CountTo(lens, l, n)
    ensures s < n && lens[s] == l && CountTo(lens, l, s) == r
  {
    if lens[n - 1] == l && r == CountTo(lens, l, n - 1) {
      s := n - 1;
    } else {
      s := SymbolOfRank(lens, l, r, n - 1);
    }
  }

  /** A match in the count table is a codeword of the symbol found. */
  lemma DecodeSound(p: seq<Byte>, start: nat, lens: Lengths, len: nat, code: nat, h: Huff)
    requires Built(h, lens) && 1 <= len < 16 && At(p, start, HighFirst(code, len))
    requires First(lens, len) <= code < First(lens, len) + h.count[len]
    ensures Offset(lens, len) + (code - First(lens, len)) < MAX_SYMBOLS
    ensures var s := h.sym[Offset(lens, len) + (code - First(lens, len))];
      HasCode(p, start, lens, s) && lens[s] == len
  {
    hide First, Offset, At, CountTo, HighFirst, Built, StreamBit;
    CountsOf(h, lens, len);
    var s := SymbolOfRank(lens, len, code - First(lens, len), |lens|);
    BuiltAt(h, lens, s, len);
  }

  lemma CountsOf(h: Huff, lens: Lengths, len: nat)
    requires Built(h, lens) && 1 <= len < 16
    ensures |h.count| == 16 && |h.sym| == MAX_SYMBOLS && h.count[len] == CountTo(lens, len, |lens|)
  {
  }

  /** Huff::decode: one bit at a time against the count table. A codeword in the
      stream decodes to its own symbol, whatever bits follow. */
  method Decode(h: Huff, ghost lens: Lengths, input: BitIn) returns (s: int)
    requires Built(h, lens) && input.Valid()
    modifies input
    ensures input.Valid() && input.Pos() >= old(input.Pos()) && -1 <= s < MAX_SYMBOLS
    ensures old(input.bad) ==> input.bad
    ensures !input.bad ==> input.Pos() > old(input.Pos())
    ensures forall t: nat :: HasCode(input.p, old(input.Pos()), lens, t) ==>
      s == t && input.Pos() == old(input.Pos()) + lens[t] && input.bad == old(input.bad)
    ensures s >= 0 && !input.bad ==> HasCode(input.p, old(input.Pos()), lens, s) && input.Pos() == old(input.Pos()) + lens[s]
  {
    hide First, Count, Offset, Fits, Place, StreamBit, CountTo, At, Codeword, Prefix, Built, HasCode, HighFirst, Tracked, Matched;
    ghost var start := input.Pos();
    var code, first, index := 0, 0, 0;
    AtEmpty(input.p, start);
    FirstStep(lens, 1);
    OffsetStep(lens, 1);
    TrackStart(input.p, start, lens, h);
    for len := 1 to 16
      invariant input.Valid() && start <= input.Pos() && (old(input.bad) ==> input.bad)
      invariant !input.bad ==> input.Pos() == start + (len - 1) && At(input.p, start, HighFirst(code / 2, len - 1))
      invariant first == First(lens, len) && index == Offset(lens, len) && code >= first && code % 2 == 0
      invariant Tracked(input.p, start, lens, len, code, input.Pos(), input.bad == old(input.bad))
    {
      ghost var pos, same := input.Pos(), input.bad == old(input.bad);
      BuiltShape(h, lens, len);
      var b := input.TakeBit();
      ghost var prior := code / 2;
      code := if b then code + 1 else code;
      if !input.bad {
        AtAppend(input.p, start, prior, len - 1, b, code);
      }
      var c := h.count[len];
      OffsetBound(lens, len);
      Track(input.p, start, lens, h, len, 2 * prior, b, pos, same, input.Pos(), input.bad == old(input.bad));
      if code < first + c {
        s := h.sym[index + (code - first)];
        Settles(input.p, start, lens, h, len, code, input.Pos(), input.bad == old(input.bad));
        if !input.bad {
          DecodeSound(input.p, start, lens, len, code, h);
        }
        return;
      }
      Goes(input.p, start, lens, h, len, code, input.Pos(), input.bad == old(input.bad));
      FirstStep(lens, len + 1);
      OffsetStep(lens, len + 1);
      index := index + c;
      first := (first + c) * 2;
      code := code * 2;
    }
    NoneLeft(input.p, start, lens, code, input.Pos(), input.bad == old(input.bad));
    s := -1;
  }
}
