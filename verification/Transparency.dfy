/** Whole runs of the cache hierarchy against a machine that has no caches:
    whatever mix of loads, stores, cache instructions, fetches, flushes and DMA
    the guest and the devices issue, everybody sees the same bytes. */
module Transparency {
  import opened Units
  import opened FlatMemory
  import opened CacheHierarchy

  datatype Op =
    | Read(pa: Addr, len: nat)
    | Write(pa: Addr, len: nat, v: nat)
    | Dcbz(pa: Addr)
    | Dcbst(pa: Addr)
    | Dcbf(pa: Addr)
    | Icbi
    | Fetch(pa: Addr)
    | DmaRead(pa: Addr, len: nat)
    | DmaWrite(pa: Addr, bytes: seq<Byte>)
    | FlushAll
    | L2TestMode(on: bool)

  datatype Seen = Nothing | Value(v: nat) | Instruction(word: nat, row: nat) | Bytes(bytes: seq<Byte>)

  ghost predicate Legal(op: Op) {
    match op
    case Read(_, len) => 1 <= len <= 8
    case Write(_, len, _) => 1 <= len <= 8
    case DmaRead(pa, len) => pa + len <= ADDRESSES && len < ADDRESSES
    case DmaWrite(pa, bytes) => pa + |bytes| <= ADDRESSES && |bytes| < ADDRESSES
    case _ => true
  }

  /** One operation on the machine without caches. */
  ghost function FlatStep(m: Memory, decode: nat -> nat, op: Op): (Memory, Seen) {
    match op
    case Read(pa, len) => (m, Value(BigEndian(GetBytes(m, pa, len))))
    case Write(pa, len, v) => (PutBytes(m, pa, ToBytes(v, len)), Nothing)
    case Dcbz(pa) => (PutBytes(m, pa - pa % 32, seq(32, _ => 0)), Nothing)
    case Fetch(pa) =>
      var word := BigEndian(GetBytes(m, pa - pa % 4, 4));
      (m, Instruction(word, decode(word)))
    case DmaRead(pa, len) => (m, Bytes(GetBytes(m, pa, len)))
    case DmaWrite(pa, bytes) => (PutBytes(m, pa, bytes), Nothing)
    case _ => (m, Nothing)
  }

  /** A fetch sees what a load of the same word sees, whatever its low address bits. */
  lemma FetchIsLoad(m: Memory, decode: nat -> nat, pa: Addr)
    ensures FlatStep(m, decode, Fetch(pa)).1.word == FlatStep(m, decode, Read(pa - pa % 4, 4)).1.v
  {
    hide GetBytes, BigEndian;
  }

  ghost function FlatRun(m: Memory, decode: nat -> nat, ops: seq<Op>): (Memory, seq<Seen>) {
    if ops == [] then (m, [])
    else
      var (m1, seen) := FlatRun(m, decode, ops[..|ops| - 1]);
      var (m2, s) := FlatStep(m1, decode, ops[|ops| - 1]);
      (m2, seen + [s])
  }

  /** What a bus master reads from memory over a snooped range. */
  lemma {:induction false} SameBytes(m: Memory, f: Memory, pa: Addr, n: nat)
    requires pa + n <= ADDRESSES
    requires forall b: Block :: pa / 32 <= b < (pa + n + 31) / 32 && n > 0 ==> m[b] == f[b]
    ensures GetBytes(m, pa, n) == GetBytes(f, pa, n)
    decreases n
  {
    if n == 1 {
      assert GetBytes(m, Next(pa), 0) == GetBytes(f, Next(pa), 0);
    } else if n > 1 {
      assert Next(pa) == pa + 1;
      SameBytes(m, f, pa + 1, n - 1);
    }
  }

  /** dcbz is a store of 32 zero bytes at the start of the line. */
  lemma ZerosAreBytes(m: Memory, pa: Addr)
    ensures PutBytes(m, pa - pa % 32, seq(32, _ => 0)) == m[BlockOf(pa) := ZeroLine()]
  {
    var zeros := seq(32, _ => 0);
    var a: Addr := pa - pa % 32;
    assert a % 32 == 0 && BlockOf(a) == BlockOf(pa);
    PutBytesInBlock(m, a, zeros);
    assert Splice(m[BlockOf(a)], 0, zeros) == zeros;
  }

  lemma ShapeOf(c: Hierarchy)
    requires c.Valid()
    ensures c.Shape()
  {
    hide Coherent, Hierarchy.Rep1, Hierarchy.Rep2, Hierarchy.Fetched, Hierarchy.Shape;
  }

  lemma WriteWithin(m: Memory, pa: Addr, len: nat, v: nat)
    requires 1 <= len <= 8
    ensures forall b: Block :: PutBytes(m, pa, ToBytes(v, len))[b] != m[b] ==> b == BlockOf(pa) || b == BlockOf(Plus(pa, len - 1))
  {
    hide PutBytes, ToBytes, BlockOf, Plus;
    forall b: Block | b != BlockOf(pa) && b != BlockOf(Plus(pa, len - 1))
      ensures PutBytes(m, pa, ToBytes(v, len))[b] == m[b]
    {
      forall i | 0 <= i < len
        ensures b != BlockOf(Plus(pa, i))
      {
        FirstOrLast(pa, len, i);
      }
      PutBytesElsewhere(m, pa, ToBytes(v, len), b);
    }
  }

  lemma DmaWithin(m: Memory, pa: Addr, bytes: seq<Byte>)
    requires pa + |bytes| <= ADDRESSES
    ensures forall b: Block :: PutBytes(m, pa, bytes)[b] != m[b] ==>
      |bytes| > 0 && pa / 32 <= b < (pa + |bytes| + 31) / 32
  {
    hide PutBytes;
    forall b: Block | !(|bytes| > 0 && pa / 32 <= b < (pa + |bytes| + 31) / 32)
      ensures PutBytes(m, pa, bytes)[b] == m[b]
    {
      forall i | 0 <= i < |bytes|
        ensures b != BlockOf(Plus(pa, i))
      {
        InRange(pa, i, |bytes|);
      }
      PutBytesElsewhere(m, pa, bytes, b);
    }
  }

  method Step(c: Hierarchy, op: Op) returns (seen: Seen)
    requires c.Valid() && Legal(op)
    modifies c, c.tv, c.age, c.l1d, c.l2, c.fetch
    ensures c.Valid()
    ensures (c.flat, seen) == FlatStep(old(c.flat), c.decode, op)
    ensures forall b: Block :: c.flat[b] != old(c.flat)[b] ==> c.NoFetch(b)
    ensures !op.Fetch? ==> forall b: Block :: old(c.NoFetch(b)) ==> c.NoFetch(b)
  {
    hide Hierarchy.Valid, Hierarchy.Shape, Hierarchy.NoFetch, PutBytes, GetBytes, ToBytes, BigEndian, ZeroLine;
    seen := Nothing;
    ShapeOf(c);
    match op {
      case Read(pa, len) =>
        var v := c.MemRead(pa, len);
        seen := Value(v);
      case Write(pa, len, v) =>
        WriteWithin(c.flat, pa, len, v);
        c.MemWrite(pa, len, v);
      case Dcbz(pa) =>
        ZerosAreBytes(c.flat, pa);
        c.DcbzLine(BlockOf(pa));
      case Dcbst(pa) => c.DcbClean(BlockOf(pa), false);
      case Dcbf(pa) => c.DcbClean(BlockOf(pa), true);
      case Icbi => c.Icbi();
      case Fetch(pa) =>
        var word, row := c.FetchDecoded(pa);
        seen := Instruction(word, row);
      case DmaRead(pa, len) =>
        c.SnoopPush(pa, len, false);
        SameBytes(c.mem, c.flat, pa, len);
        seen := Bytes(GetBytes(c.mem, pa, len));
      case DmaWrite(pa, bytes) =>
        c.SnoopPush(pa, |bytes|, true);
        DmaWithin(c.flat, pa, bytes);
        c.DmaStore(pa, bytes);
      case FlushAll => c.L1FlushAll();
      case L2TestMode(on) => c.SetTestMode(on);
    }
  }

  /** The main result: over every run, every observation is the flat machine's. */
  method Execute(c: Hierarchy, ops: seq<Op>) returns (seen: seq<Seen>)
    requires c.Valid() && forall op :: op in ops ==> Legal(op)
    modifies c, c.tv, c.age, c.l1d, c.l2, c.fetch
    ensures c.Valid()
    ensures (c.flat, seen) == FlatRun(old(c.flat), c.decode, ops)
  {
    seen := [];
    for i := 0 to |ops|
      invariant c.Valid()
      invariant (c.flat, seen) == FlatRun(old(c.flat), c.decode, ops[..i])
    {
      assert ops[..i + 1][..i] == ops[..i];
      var s := Step(c, ops[i]);
      seen := seen + [s];
    }
    assert ops[..|ops|] == ops;
  }

  /** From power-on, where memory is all there is. */
  method PowerOn(m: Memory, sets: nat, on: bool, decode: nat -> nat, ram: Block -> bool, ops: seq<Op>)
    returns (seen: seq<Seen>)
    requires sets > 0 && forall op :: op in ops ==> Legal(op)
    ensures seen == FlatRun(m, decode, ops).1
  {
    var c := new Hierarchy(m, sets, on, decode, ram);
    seen := Execute(c, ops);
  }
}
