/** Integer facts about shifts and masks, for machine words modelled as naturals:
    v >> n is v / 2^n, the bits shifted out are v % 2^n. */
module Words {
  import opened Dyadic

  const W64: nat := 0x1_0000_0000_0000_0000

  /** u64 left shift, bits above 63 lost. */
  function Shl64(v: nat, n: nat): (r: nat)
    ensures r < W64
  {
    v * Pow2(n) % W64
  }

  function Shr(v: nat, n: nat): (r: nat)
    ensures r <= v
  {
    DivMod(v, Pow2(n));
    hide Pow2;
    v / Pow2(n)
  }

  /** The low n bits. */
  function Low(v: nat, n: nat): (r: nat)
    ensures r < Pow2(n)
  {
    v % Pow2(n)
  }

  /** The position of the leading one: 63 - countl_zero for a u64. */
  function TopBit(v: nat): (r: nat)
    requires v > 0
    ensures Pow2(r) <= v < Pow2(r + 1)
  {
    if v == 1 then 0 else 1 + TopBit(v / 2)
  }

  lemma Pow2Small()
    ensures Pow2(0) == 1 && Pow2(1) == 2 && Pow2(2) == 4 && Pow2(3) == 8 && Pow2(4) == 16
  {
    assert Pow2(2) == 4;
  }

  lemma Pow2Words()
    ensures Pow2(0) == 1 && Pow2(1) == 2 && Pow2(8) == 256 && Pow2(9) == 512 && Pow2(10) == 1024 && Pow2(11) == 2048
    ensures Pow2(12) == 4096 && Pow2(23) == 0x80_0000 && Pow2(24) == 0x100_0000 && Pow2(32) == 0x1_0000_0000
    ensures Pow2(52) == 0x10_0000_0000_0000 && Pow2(53) == 0x20_0000_0000_0000 && Pow2(55) == 0x80_0000_0000_0000
    ensures Pow2(63) == 0x8000_0000_0000_0000 && Pow2(64) == W64
  {
    hide Pow2;
    Pow2Small();
    Pow2Add(4, 4);
    Pow2Add(8, 1);
    Pow2Add(8, 2);
    Pow2Add(8, 3);
    Pow2Add(8, 4);
    Pow2Add(11, 12);
    Pow2Add(12, 12);
    Pow2Add(8, 24);
    Pow2Add(32, 11);
    Pow2Add(43, 9);
    Pow2Add(52, 1);
    Pow2Add(52, 3);
    Pow2Add(52, 11);
    Pow2Add(52, 12);
  }

  lemma DivMod(a: nat, b: nat)
    requires b > 0
    ensures a == a / b * b + a % b && 0 <= a % b < b && 0 <= a / b <= a
  {
    var q, r := a / b, a % b;
    assert a == q * b + r && 0 <= r < b;
    QuotientRange(a, b, q, r);
  }

  lemma QuotientRange(a: nat, b: nat, q: int, r: nat)
    requires b > 0 && a == q * b + r && r < b
    ensures 0 <= q <= a
  {
    if q >= 0 {
      assert q * b >= q;
    }
  }

  lemma MulLe(a: nat, b: nat, c: nat)
    requires a <= b
    ensures a * c <= b * c && c * a <= c * b
  {
  }

  /** Quotient and remainder are determined by their equation. */
  lemma DivUnique(a: nat, b: nat, q: nat, r: nat)
    requires b > 0 && a == q * b + r && r < b
    ensures a / b == q && a % b == r
  {
    var q' := a / b;
    DivMod(a, b);
    if q < q' {
      MulLe(q + 1, q', b);
    } else if q > q' {
      MulLe(q' + 1, q, b);
    }
  }

  /** A shift by i + j is a shift by i, then by j, and so are the bits lost. */
  lemma ShrShr(a: nat, i: nat, j: nat)
    ensures Shr(Shr(a, i), j) == Shr(a, i + j)
    ensures Low(a, i + j) == Low(Shr(a, i), j) * Pow2(i) + Low(a, i)
  {
    var p, q := Pow2(i), Pow2(j);
    Pow2Add(i, j);
    hide Pow2;
    var b, r := a / p, a % p;
    var c, s := b / q, b % q;
    DivMod(a, p);
    DivMod(b, q);
    assert a == c * (p * q) + (s * p + r) by {
      assert b * p == (c * q + s) * p;
      Spread(c, q, s, p);
    }
    assert s * p + r < p * q by {
      MulLe(s + 1, q, p);
      assert (s + 1) * p == s * p + p;
    }
    DivUnique(a, p * q, c, s * p + r);
  }

  lemma Spread(c: nat, q: nat, s: nat, p: nat)
    ensures (c * q + s) * p == c * (p * q) + s * p
  {
    assert (c * q + s) * p == c * q * p + s * p;
    assert c * q * p == c * (p * q);
  }

  /** What a left shift by 64 - n leaves is exactly the low n bits, moved up. */
  lemma ShlLow(a: nat, n: nat)
    requires n <= 64
    ensures Shl64(a, 64 - n) == Low(a, n) * Pow2(64 - n)
  {
    hide Pow2;
    Pow2Words();
    var p, q := Pow2(n), Pow2(64 - n);
    Pow2Add(n, 64 - n);
    var b, r := a / p, a % p;
    DivMod(a, p);
    assert a * q == b * (p * q) + r * q by {
      Spread(b, p, r, q);
      assert q * p == p * q;
    }
    assert r * q < p * q by {
      MulLe(r + 1, p, q);
      assert (r + 1) * q == r * q + q;
    }
    DivUnique(a * q, p * q, b, r * q);
  }

  lemma SmallMod(a: nat, m: nat)
    requires a < m
    ensures a % m == a
  {
  }

  /** A left shift that overflows nothing multiplies. */
  lemma Shl64Exact(v: nat, n: nat)
    requires v * Pow2(n) < W64
    ensures Shl64(v, n) == v * Pow2(n)
  {
    hide Pow2;
    SmallMod(v * Pow2(n), W64);
  }

  lemma ShlLowZero(a: nat, n: nat)
    requires n <= 64
    ensures Shl64(a, 64 - n) != 0 <==> Low(a, n) != 0
  {
    ShlLow(a, n);
    hide Pow2;
    var r, q := Low(a, n), Pow2(64 - n);
    if r > 0 {
      MulLe(1, r, q);
    }
  }

  lemma ShrSmall(a: nat, n: nat)
    requires a < Pow2(n)
    ensures Shr(a, n) == 0 && Low(a, n) == a
  {
    hide Pow2;
    DivUnique(a, Pow2(n), 0, a);
  }

  // ---- 128-bit words as a pair ----------------------------------------------

  datatype U128 = U128(hi: nat, lo: nat) {
    ghost predicate Ok() {
      hi < W64 && lo < W64
    }

    ghost function Value(): nat {
      hi * W64 + lo
    }
  }

  ghost const W128: nat := 0x1_0000_0000_0000_0000_0000_0000_0000_0000

  function Shl128(v: U128, n: nat): U128 {
    if n == 0 then v
    else if n >= 64 then U128(if n >= 128 then 0 else Shl64(v.lo, n - 64), 0)
    else U128(Or(Shl64(v.hi, n), Shr(v.lo, 64 - n)), Shl64(v.lo, n))
  }

  /** Bitwise OR. */
  function Or(a: nat, b: nat): nat {
    if a == 0 then b
    else if b == 0 then a
    else (if a % 2 == 1 || b % 2 == 1 then 1 else 0) + 2 * Or(a / 2, b / 2)
  }

  /** An OR of words with no bit in common is their sum. */
  lemma {:induction false} OrIsSum(a: nat, b: nat, k: nat)
    requires a % Pow2(k) == 0 && b < Pow2(k)
    ensures Or(a, b) == a + b && Or(b, a) == a + b
    decreases k
  {
    if k > 0 {
      HalfMultiple(a, Pow2(k - 1));
      OrIsSum(a / 2, b / 2, k - 1);
    }
  }

  lemma HalfMultiple(a: nat, p: nat)
    requires p > 0 && a % (2 * p) == 0
    ensures a % 2 == 0 && a / 2 % p == 0
  {
    var q := a / (2 * p);
    DivMod(a, 2 * p);
    assert q * (2 * p) == 2 * (q * p);
    DivUnique(a / 2, p, q, 0);
  }

  /** The two halves of a shifted pair have no bit in common. */
  lemma ShiftedApart64(hi: nat, lo: nat, n: nat)
    requires lo < W64 && 0 < n < 64
    ensures Or(Shl64(hi, n), Shr(lo, 64 - n)) == Shl64(hi, n) + Shr(lo, 64 - n)
    ensures Or(Shr(lo, 64 - n), Shl64(hi, n)) == Shl64(hi, n) + Shr(lo, 64 - n)
  {
    hide Pow2, Or;
    Pow2Words();
    Pow2Add(n, 64 - n);
    MultipleStays(hi, Pow2(n), Pow2(64 - n));
    DivMod(lo, Pow2(64 - n));
    if Shr(lo, 64 - n) >= Pow2(n) {
      MulLe(Pow2(n), Shr(lo, 64 - n), Pow2(64 - n));
    }
    OrIsSum(Shl64(hi, n), Shr(lo, 64 - n), n);
  }

  /** A multiple of p, cut to a multiple of it, is one still. */
  lemma MultipleStays(v: nat, p: nat, q: nat)
    requires p > 0 && q > 0
    ensures v * p % (p * q) % p == 0
  {
    var h, r := v / q, v % q;
    DivMod(v, q);
    assert v * p == h * (p * q) + r * p;
    MulLe(r + 1, q, p);
    assert (r + 1) * p == r * p + p;
    DivUnique(v * p, p * q, h, r * p);
    DivUnique(r * p, p, r, 0);
  }

  function Ge128(a: U128, b: U128): bool {
    if a.hi != b.hi then a.hi > b.hi else a.lo >= b.lo
  }

  /** u64 subtraction, wrapping. */
  function Sub64(a: nat, b: nat): (r: nat)
    requires a < W64 && b < W64
    ensures r < W64
  {
    if a >= b then a - b else a + W64 - b
  }

  function Sub128(a: U128, b: U128): U128
    requires a.hi < W64 && a.lo < W64 && b.hi < W64 && b.lo < W64
  {
    U128(Sub64(Sub64(a.hi, b.hi), if a.lo < b.lo then 1 else 0), Sub64(a.lo, b.lo))
  }

  lemma Ge128Is(a: U128, b: U128)
    requires a.Ok() && b.Ok()
    ensures Ge128(a, b) <==> a.Value() >= b.Value()
  {
  }

  lemma Sub128Is(a: U128, b: U128)
    requires a.Ok() && b.Ok() && a.Value() >= b.Value()
    ensures Sub128(a, b).Ok() && Sub128(a, b).Value() == a.Value() - b.Value()
  {
  }

  /** A left shift multiplies, bits above 127 lost. */
  lemma Shl128Is(v: U128, n: nat)
    requires v.Ok() && n < 128
    ensures Shl128(v, n).Ok() && Shl128(v, n).Value() == v.Value() * Pow2(n) % W128
  {
    hide Pow2, Shl64, Shr;
    Pow2Words();
    if n == 0 {
      SmallMod(v.Value(), W128);
    } else if n < 64 {
      Shl128Low(v, n);
    } else {
      Shl128High(v, n);
    }
  }

  lemma Shl128Low(v: U128, n: nat)
    requires v.Ok() && 0 < n < 64
    ensures Shl128(v, n).Ok() && Shl128(v, n).Value() == v.Value() * Pow2(n) % W128
  {
    hide Pow2, Shl64, Low, Shr, Or;
    Pow2Words();
    Pow2Add(n, 64 - n);
    ShiftedApart64(v.hi, v.lo, n);
    ShlLow(v.hi, 64 - n);
    ShlLow(v.lo, 64 - n);
    ShrLowSplit(v.hi, 64 - n);
    ShrLowSplit(v.lo, 64 - n);
    PairTimes(v.hi, v.lo, Shr(v.hi, 64 - n), Low(v.hi, 64 - n), Shr(v.lo, 64 - n), Low(v.lo, 64 - n), Pow2(n), Pow2(64 - n));
  }

  lemma Shl128High(v: U128, n: nat)
    requires v.Ok() && 64 <= n < 128
    ensures Shl128(v, n).Ok() && Shl128(v, n).Value() == v.Value() * Pow2(n) % W128
  {
    hide Pow2, Shl64, Low, Shr;
    Pow2Words();
    Pow2Add(64, n - 64);
    Pow2Add(n - 64, 128 - n);
    ShlLow(v.lo, 128 - n);
    ShrLowSplit(v.lo, 128 - n);
    HighTimes(v.hi, v.lo, Shr(v.lo, 128 - n), Low(v.lo, 128 - n), Pow2(n - 64), Pow2(128 - n));
  }

  /** One word a * q + b times p, p * q == 2^64: what leaves it and what stays. */
  lemma WordTimes(v: nat, a: nat, b: nat, p: nat, q: nat)
    requires v < W64 && p * q == W64 && p > 0 && v == a * q + b && b < q
    ensures v * p == a * W64 + b * p && a < p && b * p + p <= W64
  {
    Spread(a, q, b, p);
    MulLe(b + 1, q, p);
    MulSum(b, 1, 1, p);
    if a >= p {
      MulLe(p, a, q);
    }
  }

  /** (hi, lo) times p, put together from its four pieces. */
  lemma PairTimes(hi: nat, lo: nat, a: nat, b: nat, c: nat, d: nat, p: nat, q: nat)
    requires hi < W64 && lo < W64 && p * q == W64 && p > 0
    requires hi == a * q + b && b < q && lo == c * q + d && d < q
    ensures b * p + c < W64 && d * p < W64
    ensures (hi * W64 + lo) * p % W128 == (b * p + c) * W64 + d * p
  {
    WordTimes(hi, a, b, p, q);
    WordTimes(lo, c, d, p, q);
    MulSum(hi, W64, lo, p);
    TopOut(hi * p, lo * p, a, b * p, c, d * p, (hi * W64 + lo) * p);
  }

  /** The part above 2^128 falls out. */
  lemma TopOut(x: nat, y: nat, a: nat, b: nat, c: nat, d: nat, v: nat)
    requires x == a * W64 + b && y == c * W64 + d && v == x * W64 + y && b + c < W64 && d < W64
    ensures v % W128 == (b + c) * W64 + d
  {
    DivUnique(v, W128, a, (b + c) * W64 + d);
  }

  /** The same when the shift passes a whole word. */
  lemma HighTimes(hi: nat, lo: nat, c: nat, d: nat, p: nat, q: nat)
    requires hi < W64 && lo < W64 && p * q == W64 && p > 0 && lo == c * q + d && d < q
    ensures d * p < W64 && (hi * W64 + lo) * (W64 * p) % W128 == d * p * W64
  {
    WordTimes(lo, c, d, p, q);
    MulSum(hi, W64, lo, p);
    var v := hi * W64 + lo;
    MulAssoc(v, p, W64);
    WordOut(v * p, hi * p + c, d * p);
  }

  lemma WordOut(v: nat, top: nat, r: nat)
    requires v == top * W64 + r && r < W64
    ensures v * W64 % W128 == r * W64
  {
    DivUnique(v * W64, W128, top, r * W64);
  }

  lemma MulSum(a: nat, w: nat, b: nat, p: nat)
    ensures (a * w + b) * p == a * p * w + b * p
  {
    assert (a * w + b) * p == a * w * p + b * p;
    assert a * w * p == a * p * w;
  }

  /** mul64to128: four 32-bit partial products. */
  function Mul64(a: nat, b: nat): U128
    requires a < W64 && b < W64
  {
    var a0, a1, b0, b1 := a % 0x1_0000_0000, a / 0x1_0000_0000, b % 0x1_0000_0000, b / 0x1_0000_0000;
    Join(a0 * b0, a0 * b1, a1 * b0, a1 * b1)
  }

  function Join(p00: nat, p01: nat, p10: nat, p11: nat): U128 {
    var mid := (p01 + p10) % W64;
    var midCarry := if mid < p01 then 0x1_0000_0000 else 0;
    var lo := (p00 + mid * 0x1_0000_0000 % W64) % W64;
    var hi := (p11 + mid / 0x1_0000_0000 + midCarry + if lo < p00 then 1 else 0) % W64;
    U128(hi, lo)
  }

  lemma Mul64Is(a: nat, b: nat)
    requires a < W64 && b < W64
    ensures Mul64(a, b).Ok() && Mul64(a, b).Value() == a * b
  {
    var k := 0x1_0000_0000;
    var a0, a1, b0, b1 := a % k, a / k, b % k, b / k;
    assert a == a1 * k + a0 && b == b1 * k + b0;
    hide Join;
    FourProducts(a1, a0, b1, b0, a, b);
    JoinIs(a0 * b0, a0 * b1, a1 * b0, a1 * b1, a * b);
  }

  lemma FourProducts(a1: nat, a0: nat, b1: nat, b0: nat, a: nat, b: nat)
    requires a1 < 0x1_0000_0000 && a0 < 0x1_0000_0000 && b1 < 0x1_0000_0000 && b0 < 0x1_0000_0000
    requires a == a1 * 0x1_0000_0000 + a0 && b == b1 * 0x1_0000_0000 + b0
    ensures a0 * b0 <= 0xFFFF_FFFE_0000_0001 && a0 * b1 <= 0xFFFF_FFFE_0000_0001
    ensures a1 * b0 <= 0xFFFF_FFFE_0000_0001 && a1 * b1 <= 0xFFFF_FFFE_0000_0001
    ensures a * b == a1 * b1 * W64 + (a0 * b1 + a1 * b0) * 0x1_0000_0000 + a0 * b0 && a * b < W128
  {
    Halves(a1, a0, b1, b0, 0x1_0000_0000);
    PartialBound(a0, b0);
    PartialBound(a0, b1);
    PartialBound(a1, b0);
    PartialBound(a1, b1);
    ProductBound(a, b);
  }

  lemma ProductBound(a: nat, b: nat)
    requires a < W64 && b < W64
    ensures a * b < W128
  {
    MulLe(a, W64 - 1, b);
    MulLe(b, W64 - 1, W64 - 1);
  }

  lemma Halves(a1: nat, a0: nat, b1: nat, b0: nat, k: nat)
    ensures (a1 * k + a0) * (b1 * k + b0) == a1 * b1 * (k * k) + (a0 * b1 + a1 * b0) * k + a0 * b0
  {
    var b := b1 * k + b0;
    MulSum(a1, k, a0, b);
    MulSum(b1, k, b0, a0);
    MulSum(b1, k, b0, a1);
    assert a0 * b == a0 * b1 * k + a0 * b0;
    assert a1 * b == a1 * b1 * k + a1 * b0;
    MulSum(a1 * b1, k, a1 * b0, k);
    MulSum(a0 * b1, 1, a1 * b0, k);
  }

  lemma PartialBound(x: nat, y: nat)
    requires x < 0x1_0000_0000 && y < 0x1_0000_0000
    ensures x * y <= 0xFFFF_FFFE_0000_0001
  {
    MulLe(x, 0xFFFF_FFFF, y);
    MulLe(y, 0xFFFF_FFFF, 0xFFFF_FFFF);
  }

  lemma JoinIs(p00: nat, p01: nat, p10: nat, p11: nat, product: nat)
    requires p00 <= 0xFFFF_FFFE_0000_0001 && p01 <= 0xFFFF_FFFE_0000_0001
    requires p10 <= 0xFFFF_FFFE_0000_0001 && p11 <= 0xFFFF_FFFE_0000_0001
    requires product == p11 * W64 + (p01 + p10) * 0x1_0000_0000 + p00 && product < W128
    ensures Join(p00, p01, p10, p11).Ok() && Join(p00, p01, p10, p11).Value() == product
  {
    var k := 0x1_0000_0000;
    var carry := if p01 + p10 >= W64 then 1 else 0;
    var mid := p01 + p10 - carry * W64;
    DivUnique(p01 + p10, W64, carry, mid);
    var mh, ml := mid / k, mid % k;
    DivUnique(mid * k, W64, mh, ml * k);
    var over := if p00 + ml * k >= W64 then 1 else 0;
    var lo := p00 + ml * k - over * W64;
    DivUnique(p00 + ml * k, W64, over, lo);
    var hi := p11 + mh + carry * k + over;
    assert product == hi * W64 + lo;
    SmallMod(hi, W64);
  }

  /** The bits a right shift of the pair keeps; what falls out is reported apart. */
  function Shr128(v: U128, n: nat): U128 {
    if n == 0 then v
    else if n >= 128 then U128(0, 0)
    else if n >= 64 then U128(0, Shr(v.hi, n - 64))
    else U128(Shr(v.hi, n), Or(Shr(v.lo, n), Shl64(v.hi, 64 - n)))
  }

  /** shr128jam's jam: did a set bit fall out? */
  function Jam128(v: U128, n: nat): bool {
    if n == 0 then false
    else if n >= 128 then v.hi != 0 || v.lo != 0
    else if n >= 64 then v.lo != 0 || (n > 64 && Shl64(v.hi, 128 - n) != 0)
    else Shl64(v.lo, 64 - n) != 0
  }

  lemma Shr128Is(v: U128, n: nat)
    requires v.Ok()
    ensures Shr128(v, n).Ok() && Shr128(v, n).Value() == v.Value() / Pow2(n)
    ensures Jam128(v, n) <==> v.Value() % Pow2(n) != 0
  {
    hide Pow2, Shr, Low, Or;
    Pow2Words();
    Pow2Add(64, 64);
    if n >= 128 {
      Pow2Mono(128, n);
      DivUnique(v.Value(), Pow2(n), 0, v.Value());
    } else if n >= 64 {
      Pow2Add(64, n - 64);
      ShlLowZero(v.hi, n - 64);
      ShrHigh(v, Pow2(n - 64), n - 64);
    } else if n > 0 {
      ShlLowZero(v.lo, n);
      ShlLow(v.hi, n);
      Pow2Add(n, 64 - n);
      ShiftedApart64(v.hi, v.lo, 64 - n);
      ShrPair(v, n);
    }
  }

  lemma ShrHigh(v: U128, p: nat, n: nat)
    requires v.Ok() && p == Pow2(n) && n < 64
    ensures v.Value() / (W64 * p) == Shr(v.hi, n)
    ensures v.Value() % (W64 * p) != 0 <==> v.lo != 0 || Low(v.hi, n) != 0
  {
    hide Pow2;
    var q, r := v.hi / p, v.hi % p;
    DivMod(v.hi, p);
    assert v.Value() == q * (W64 * p) + (r * W64 + v.lo) by {
      MulSum(q, p, r, W64);
      assert q * W64 * p == q * (W64 * p);
    }
    assert r * W64 + v.lo < W64 * p by {
      MulLe(r + 1, p, W64);
    }
    DivUnique(v.Value(), W64 * p, q, r * W64 + v.lo);
  }

  lemma ShrPair(v: U128, n: nat)
    requires v.Ok() && 0 < n < 64 && Pow2(n) * Pow2(64 - n) == W64
    ensures var r := U128(Shr(v.hi, n), Shr(v.lo, n) + Low(v.hi, n) * Pow2(64 - n));
      r.Ok() && r.Value() == v.Value() / Pow2(n)
    ensures v.Value() % Pow2(n) == Low(v.lo, n)
  {
    hide Pow2, Shr, Low;
    var p, q := Pow2(n), Pow2(64 - n);
    var a, b, c, d := Shr(v.hi, n), Low(v.hi, n), Shr(v.lo, n), Low(v.lo, n);
    ShrLowSplit(v.hi, n);
    ShrLowSplit(v.lo, n);
    PairFits(b, c, d, p, q);
    PairShift(a, b, c, d, p, q);
    DivUnique(v.Value(), p, a * W64 + (c + b * q), d);
  }

  lemma ShrLowSplit(x: nat, n: nat)
    ensures x == Shr(x, n) * Pow2(n) + Low(x, n) && Low(x, n) < Pow2(n)
  {
    hide Pow2;
    DivMod(x, Pow2(n));
  }

  /** The low word of the shifted pair: what came down, and what moved over. */
  lemma PairFits(b: nat, c: nat, d: nat, p: nat, q: nat)
    requires p * q == W64 && b < p && c * p + d < W64
    ensures c + b * q < W64
  {
    MulLe(b + 1, p, q);
    MulSum(b, 1, 1, q);
    if c >= q {
      MulLe(q, c, p);
    }
  }

  /** A two-word number whose words are a * p + b and c * p + d, divided by p. */
  lemma PairShift(a: nat, b: nat, c: nat, d: nat, p: nat, q: nat)
    requires p * q == W64
    ensures (a * p + b) * W64 + (c * p + d) == (a * W64 + (c + b * q)) * p + d
  {
    MulSum(a, W64, c + b * q, p);
    MulSum(b, q, c, p);
    MulSum(a, p, b, W64);
    assert b * p * q == b * W64;
  }

  /** A u64 sum: at most one 2^64 is lost. */
  function Wrap64(x: nat): nat {
    x % W64
  }

  lemma Wrap64Is(x: nat)
    requires x < 2 * W64
    ensures Wrap64(x) == if x < W64 then x else x - W64
  {
  }

  /** add128 with its carry test. */
  function Add128(a: U128, b: U128): (U128, bool) {
    var hi, lo := Wrap64(a.hi + b.hi), Wrap64(a.lo + b.lo);
    if lo < a.lo then
      var hi' := Wrap64(hi + 1);
      (U128(hi', lo), hi' == 0 || hi' < a.hi)
    else (U128(hi, lo), hi < a.hi)
  }

  /** The sum and its carry are right exactly when the addend's high word is not
      all ones under a carry from the low words into a nonzero high word. */
  lemma Add128Is(a: U128, b: U128)
    requires a.Ok() && b.Ok()
    ensures Add128(a, b).0.Ok()
    ensures Add128(a, b).0.Value() + (if Add128(a, b).1 then W128 else 0) == a.Value() + b.Value()
            <==> !(b.hi == W64 - 1 && a.lo + b.lo >= W64 && a.hi != 0)
  {
    if a.lo + b.lo >= W64 {
      AddCarrying(a, b);
    } else {
      AddPlain(a, b);
    }
  }

  lemma AddPlain(a: U128, b: U128)
    requires a.Ok() && b.Ok() && a.lo + b.lo < W64
    ensures Add128(a, b).0.Ok()
    ensures Add128(a, b).0.Value() + (if Add128(a, b).1 then W128 else 0) == a.Value() + b.Value()
  {
    Wrap64Is(a.lo + b.lo);
    Wrap64Is(a.hi + b.hi);
    hide Wrap64;
  }

  lemma AddCarrying(a: U128, b: U128)
    requires a.Ok() && b.Ok() && a.lo + b.lo >= W64
    ensures Add128(a, b).0.Ok()
    ensures Add128(a, b).0.Value() + (if Add128(a, b).1 then W128 else 0) == a.Value() + b.Value()
            <==> !(b.hi == W64 - 1 && a.hi != 0)
  {
    Wrap64Is(a.lo + b.lo);
    Wrap64Is(a.hi + b.hi);
    Wrap64Is(Wrap64(a.hi + b.hi) + 1);
    hide Wrap64;
  }
}
