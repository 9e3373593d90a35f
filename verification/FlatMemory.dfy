/** The reference the cache hierarchy is measured against: physical memory as
    one flat array of bytes, kept in 32-byte blocks because that is the unit
    every cache, bus burst and fetch line of the machine moves. */
module FlatMemory {
  import opened Units
  import opened Words

  const BLOCKS: nat := 0x800_0000 // 2^32 bytes of physical address, 32 to a block
  const ADDRESSES: nat := 0x1_0000_0000

  type Addr = x: nat | x < ADDRESSES
  type Block = x: nat | x < BLOCKS
  type Line = s: seq<Byte> | |s| == 32 witness seq(32, _ => 0)
  type Memory = m: map<Block, Line> | forall b: Block :: b in m
    ghost witness map b: Block | 0 <= b < BLOCKS :: ZeroLine()

  function ZeroLine(): Line {
    seq(32, _ => 0)
  }

  function BlockOf(pa: Addr): Block {
    pa / 32
  }

  /** Blocks lie one after another: byte pa is byte pa % 32 of its block. */
  lemma BlockPlace(pa: Addr)
    ensures 32 * BlockOf(pa) + pa % 32 == pa
  {
  }

  /** u32 address arithmetic: the next byte, wrapping at the top. */
  function Next(pa: Addr): Addr {
    if pa + 1 == ADDRESSES then 0 else pa + 1
  }

  /** u32 address arithmetic: n bytes further, wrapping at the top. */
  function Plus(pa: Addr, n: nat): Addr {
    (pa + n) % ADDRESSES
  }

  lemma PlusNext(pa: Addr, n: nat)
    requires n > 0
    ensures Plus(Next(pa), n - 1) == Plus(pa, n)
    ensures Plus(pa, 0) == pa
  {
  }

  function GetByte(m: Memory, pa: Addr): Byte {
    m[BlockOf(pa)][pa % 32]
  }

  function PutByte(m: Memory, pa: Addr, v: Byte): Memory {
    m[BlockOf(pa) := m[BlockOf(pa)][pa % 32 := v]]
  }

  function GetBytes(m: Memory, pa: Addr, n: nat): (r: seq<Byte>)
    ensures |r| == n
    decreases n
  {
    if n == 0 then [] else [GetByte(m, pa)] + GetBytes(m, Next(pa), n - 1)
  }

  function PutBytes(m: Memory, pa: Addr, bytes: seq<Byte>): Memory
    decreases |bytes|
  {
    if bytes == [] then m else PutBytes(PutByte(m, pa, bytes[0]), Next(pa), bytes[1..])
  }

  /** A write changes no block but those its bytes fall in. */
  lemma {:induction false} PutBytesElsewhere(m: Memory, pa: Addr, bytes: seq<Byte>, b: Block)
    requires forall i :: 0 <= i < |bytes| ==> b != BlockOf(Plus(pa, i))
    ensures PutBytes(m, pa, bytes)[b] == m[b]
    decreases |bytes|
  {
    hide BlockOf;
    if bytes != [] {
      PlusNext(pa, 1);
      forall i | 0 <= i < |bytes| - 1
        ensures b != BlockOf(Plus(Next(pa), i))
      {
        PlusNext(pa, i + 1);
      }
      hide Plus, Next;
      PutBytesElsewhere(PutByte(m, pa, bytes[0]), Next(pa), bytes[1..], b);
    }
  }

  /** Up to eight bytes fall in the blocks of the first and the last. */
  lemma FirstOrLast(pa: Addr, len: nat, i: nat)
    requires i < len <= 8
    ensures BlockOf(Plus(pa, i)) == BlockOf(pa) || BlockOf(Plus(pa, i)) == BlockOf(Plus(pa, len - 1))
  {
  }

  /** Big-endian value of a byte string, most significant byte first. */
  function BigEndian(bytes: seq<Byte>): nat {
    if bytes == [] then 0 else BigEndian(bytes[..|bytes| - 1]) * 256 + bytes[|bytes| - 1]
  }

  /** The low n bytes of v, most significant first. */
  function ToBytes(v: nat, n: nat): (r: seq<Byte>)
    ensures |r| == n
    decreases n
  {
    if n == 0 then [] else ToBytes(v / 256, n - 1) + [v % 256]
  }

  function Pow256(n: nat): (r: nat)
    ensures r > 0
  {
    if n == 0 then 1 else 256 * Pow256(n - 1)
  }

  /** Byte i of n is v >> 8 * (n - 1 - i), truncated to a byte. */
  lemma {:induction false} ToBytesAt(v: nat, n: nat, i: nat)
    requires i < n
    ensures ToBytes(v, n)[i] == v / Pow256(n - 1 - i) % 256
    decreases n
  {
    if i < n - 1 {
      ToBytesAt(v / 256, n - 1, i);
      DivDiv(v, Pow256(n - 2 - i));
    }
  }

  lemma DivDiv(v: nat, p: nat)
    requires p > 0
    ensures v / 256 / p == v / (256 * p)
  {
    ModStep(v, p);
    var q, r := v / 256 / p, v / 256 % p;
    assert v / 256 == p * q + r;
    assert v == (256 * p) * q + (r * 256 + v % 256);
    DivUnique(v, 256 * p, q, r * 256 + v % 256);
  }

  /** Splitting a value into bytes and assembling it again keeps its low bytes. */
  lemma {:induction false} ToBytesRoundTrip(v: nat, n: nat)
    ensures BigEndian(ToBytes(v, n)) == v % Pow256(n)
    decreases n
  {
    if n > 0 {
      var t := ToBytes(v, n);
      assert t[..n - 1] == ToBytes(v / 256, n - 1);
      ToBytesRoundTrip(v / 256, n - 1);
      ModStep(v, Pow256(n - 1));
    }
  }

  lemma ModStep(v: nat, p: nat)
    requires p > 0
    ensures (v / 256 % p) * 256 + v % 256 == v % (256 * p)
  {
    var q, r, k := v / 256 / p, v / 256 % p, v % 256;
    assert v / 256 == q * p + r;
    assert v == (256 * p) * q + (r * 256 + k) by {
      assert 256 * (q * p) == (256 * p) * q;
    }
    DivUnique(v, 256 * p, q, r * 256 + k);
  }

  lemma {:induction false} BigEndianAppend(s: seq<Byte>, b: Byte)
    ensures BigEndian(s + [b]) == BigEndian(s) * 256 + b
  {
    assert (s + [b])[..|s|] == s;
  }

  lemma {:induction false} GetBytesAppend(m: Memory, pa: Addr, n: nat)
    ensures GetBytes(m, pa, n + 1) == GetBytes(m, pa, n) + [GetByte(m, Plus(pa, n))]
    decreases n
  {
    hide GetByte, BlockOf;
    if n == 0 {
      assert GetBytes(m, pa, 1) == [GetByte(m, pa)] + GetBytes(m, Next(pa), 0);
    } else {
      GetBytesAppend(m, Next(pa), n - 1);
      PlusNext(pa, n);
    }
  }

  /** Inside one block a read is a slice of the block. */
  lemma {:induction false} GetBytesInBlock(m: Memory, pa: Addr, n: nat)
    requires pa % 32 + n <= 32
    ensures GetBytes(m, pa, n) == m[BlockOf(pa)][pa % 32..pa % 32 + n]
    decreases n
  {
    var l := m[BlockOf(pa)];
    if n > 1 {
      NextInBlock(pa);
      GetBytesInBlock(m, Next(pa), n - 1);
    } else if n == 1 {
      assert GetBytes(m, Next(pa), 0) == [];
    }
  }

  /** Inside one block a write is a splice of the block. */
  lemma {:induction false} PutBytesInBlock(m: Memory, pa: Addr, bytes: seq<Byte>)
    requires pa % 32 + |bytes| <= 32
    ensures PutBytes(m, pa, bytes) == m[BlockOf(pa) := Splice(m[BlockOf(pa)], pa % 32, bytes)]
    decreases |bytes|
  {
    var b, o := BlockOf(pa), pa % 32;
    if bytes == [] {
      assert Splice(m[b], o, bytes) == m[b];
    } else {
      var m1, rest := PutByte(m, pa, bytes[0]), bytes[1..];
      SpliceStep(m[b], o, bytes);
      if |bytes| == 1 {
        assert Splice(m1[b], o + 1, rest) == m1[b];
        assert PutBytes(m1, Next(pa), rest) == m1;
      } else {
        NextInBlock(pa);
        hide Splice, BlockOf, Next;
        PutBytesInBlock(m1, Next(pa), rest);
      }
    }
  }

  lemma NextInBlock(pa: Addr)
    requires pa % 32 + 1 < 32
    ensures Next(pa) == pa + 1 && BlockOf(Next(pa)) == BlockOf(pa) && Next(pa) % 32 == pa % 32 + 1
  {
  }

  lemma SpliceStep(l: Line, o: nat, bytes: seq<Byte>)
    requires bytes != [] && o + |bytes| <= 32
    ensures Splice(l[o := bytes[0]], o + 1, bytes[1..]) == Splice(l, o, bytes)
  {
    var x, y := Splice(l[o := bytes[0]], o + 1, bytes[1..]), Splice(l, o, bytes);
    forall i | 0 <= i < 32
      ensures x[i] == y[i]
    {
    }
  }

  function Splice(l: Line, o: nat, bytes: seq<Byte>): (r: Line)
    requires o + |bytes| <= 32
  {
    l[..o] + bytes + l[o + |bytes|..]
  }

  /** Writes at disjoint steps compose: the last byte can be split off. */
  lemma {:induction false} PutBytesAppend(m: Memory, pa: Addr, s: seq<Byte>, v: Byte)
    ensures PutBytes(m, pa, s + [v]) == PutByte(PutBytes(m, pa, s), Plus(pa, |s|), v)
    decreases |s|
  {
    if s == [] {
      PlusNext(pa, 1);
      assert s + [v] == [v] && [v][1..] == [];
      assert PutBytes(m, pa, [v]) == PutBytes(PutByte(m, pa, v), Next(pa), []);
    } else {
      var m1 := PutByte(m, pa, s[0]);
      assert (s + [v])[1..] == s[1..] + [v];
      assert PutBytes(m, pa, s + [v]) == PutBytes(m1, Next(pa), s[1..] + [v]);
      PutBytesAppend(m1, Next(pa), s[1..], v);
      PlusNext(pa, |s|);
    }
  }
}
