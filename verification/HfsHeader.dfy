/** The header node of the catalog: tree record and node-use map. */
module HfsHeader {
  import opened Units
  import opened HfsRecord
  import opened HfsNode
  import opened Words

  datatype Tree = Tree(depth: nat, root: Word, leafRecs: Word, firstLeaf: Word, lastLeaf: Word)

  /** 0x80 >> k. */
  function Mask(k: nat): (m: nat)
    requires k < 8
    ensures m > 0
  {
    if k == 0 then 128 else if k == 1 then 64 else if k == 2 then 32 else if k == 3 then 16
    else if k == 4 then 8 else if k == 5 then 4 else if k == 6 then 2 else 1
  }

  predicate BitSet(b: Byte, k: nat)
    requires k < 8
  {
    b / Mask(k) % 2 == 1
  }

  /** b | (0x80 >> k). */
  function OrBit(b: Byte, k: nat): Byte
    requires k < 8
  {
    if BitSet(b, k) then b else b + Mask(k)
  }

  /** A mask is an even multiple of every mask to its right. */
  lemma {:induction false} MaskRatio(j: nat, k: nat) returns (f: nat)
    requires j < k < 8
    ensures f > 0 && Mask(j) == 2 * Mask(k) * f
    decreases k - j
  {
    assert Mask(k - 1) == 2 * Mask(k);
    if j == k - 1 {
      f := 1;
    } else {
      f := MaskRatio(j, k - 1);
      f := 2 * f;
    }
  }

  /** Dividing by n * f is dividing by n and then by f. */
  lemma DivBy(b: nat, n: nat, f: nat, h: nat, s: nat)
    requires n > 0 && f > 0 && s < n && b == n * h + s
    ensures b / (n * f) == h / f
  {
    var q, r := h / f, h % f;
    assert n * h == n * f * q + n * r by {
      assert h == f * q + r;
      assert n * (f * q + r) == n * f * q + n * r;
    }
    assert n * r + n <= n * f by {
      MulLe(r + 1, f, n);
    }
    DivUnique(b, n * f, q, n * r + s);
  }

  /** Setting a clear bit does not carry into the bits above. */
  lemma NoCarry(b: nat, m: nat, f: nat)
    requires m > 0 && f > 0 && b / m % 2 == 0
    ensures (b + m) / (2 * m * f) == b / (2 * m * f)
  {
    var h, s := b / m / 2, b % m;
    assert b == 2 * m * h + s by {
      assert b == m * (2 * h) + s;
    }
    DivBy(b, 2 * m, f, h, s);
    DivBy(b + m, 2 * m, f, h, s + m);
  }

  /** Adding an even multiple leaves the parity of the quotient alone. */
  lemma SameParity(b: nat, d: nat, f: nat)
    requires d > 0
    ensures (b + 2 * d * f) / d % 2 == b / d % 2
  {
    DivMod(b, d);
    MulSum(f, 2, b / d, d);
    EvenShift(b, d, f, b / d, b % d);
  }

  lemma EvenShift(b: nat, d: nat, f: nat, q: nat, r: nat)
    requires b == q * d + r && r < d && (f * 2 + q) * d == f * d * 2 + q * d
    ensures (b + 2 * d * f) / d == q + 2 * f
  {
    assert b + 2 * d * f == (q + 2 * f) * d + r;
    DivUnique(b + 2 * d * f, d, q + 2 * f, r);
  }

  lemma {:induction false} OrBitSets(b: Byte, k: nat, j: nat)
    requires k < 8 && j < 8
    ensures BitSet(OrBit(b, k), j) <==> j == k || BitSet(b, j)
  {
    hide Mask;
    if !BitSet(b, k) {
      if j < k {
        var f := MaskRatio(j, k);
        NoCarry(b, Mask(k), f);
      } else if k < j {
        var f := MaskRatio(k, j);
        SameParity(b, Mask(j), f);
      } else {
        DivUnique(b + Mask(k), Mask(k), b / Mask(k) + 1, b % Mask(k));
      }
    }
  }

  /** Node i is marked in use. */
  predicate InUse(hdr: Bytes, i: nat)
    requires |hdr| == NODE_SIZE && i < 2048
  {
    BitSet(hdr[248 + i / 8], i % 8)
  }

  predicate MapIs(hdr: Bytes, count: nat) {
    |hdr| == NODE_SIZE && forall i :: 0 <= i < 2048 ==> (InUse(hdr, i) <==> i < count)
  }

  predicate TreeRecord(hdr: Bytes, t: Tree, fileNodes: nat, count: nat) {
    && |hdr| == NODE_SIZE && Get16(hdr, 14) == t.depth && Get32(hdr, 16) == t.root && Get32(hdr, 20) == t.leafRecs
    && Get32(hdr, 24) == t.firstLeaf && Get32(hdr, 28) == t.lastLeaf && Get16(hdr, 32) == NODE_SIZE && Get16(hdr, 34) == 37
    && Get32(hdr, 36) == fileNodes && Get32(hdr, 40) == fileNodes - count
  }

  predicate HeaderOffsets(hdr: Bytes) {
    && |hdr| == NODE_SIZE && hdr[8] == 1 && Get16(hdr, 10) == 3
    && Get16(hdr, 510) == 14 && Get16(hdr, 508) == 120 && Get16(hdr, 506) == 248 && Get16(hdr, 504) == 504
  }

  /** The whole header: three records, the tree's own record, the free count and
      one map bit per node. */
  predicate HeaderLaid(hdr: Bytes, t: Tree, fileNodes: nat, count: nat) {
    HeaderOffsets(hdr) && TreeRecord(hdr, t, fileNodes, count) && MapIs(hdr, count)
  }

  method WriteOffsets(b: array<Byte>)
    requires b.Length == NODE_SIZE
    modifies b
    ensures HeaderOffsets(b[..])
    ensures forall j :: 14 <= j < 504 ==> b[j] == old(b[j])
  {
    hide Get16;
    b[8] := 1;
    Put16(b, 10, 3);
    ghost var s0 := b[..];
    Put16(b, 510, 14);
    ghost var s1 := b[..];
    Put16(b, 508, 120);
    ghost var s2 := b[..];
    Put16(b, 506, 248);
    ghost var s3 := b[..];
    Put16(b, 504, 504);
    Get16Kept(s0, b[..], 10);
    Get16Kept(s1, b[..], 510);
    Get16Kept(s2, b[..], 508);
    Get16Kept(s3, b[..], 506);
  }

  lemma Get16Kept(b: Bytes, c: Bytes, at: nat)
    requires |b| == |c| && at + 2 <= |b| && b[at] == c[at] && b[at + 1] == c[at + 1]
    ensures Get16(b, at) == Get16(c, at)
  {
  }

  lemma Get32Kept(b: Bytes, c: Bytes, at: nat)
    requires |b| == |c| && at + 4 <= |b|
    requires b[at] == c[at] && b[at + 1] == c[at + 1] && b[at + 2] == c[at + 2] && b[at + 3] == c[at + 3]
    ensures Get32(b, at) == Get32(c, at)
  {
  }

  method WriteTree(b: array<Byte>, t: Tree, fileNodes: Word, count: nat)
    requires b.Length == NODE_SIZE && t.depth < 0x1_0000 && count <= fileNodes
    modifies b
    ensures TreeRecord(b[..], t, fileNodes, count)
    ensures forall j :: 0 <= j < NODE_SIZE && (j < 14 || 44 <= j) ==> b[j] == old(b[j])
  {
    hide Get16, Get32;
    WriteRoots(b, t);
    ghost var s0 := b[..];
    WriteSizes(b, fileNodes, count);
    RootsKept(s0, b[..], t);
  }

  predicate RootsRecord(hdr: Bytes, t: Tree) {
    && |hdr| == NODE_SIZE && Get16(hdr, 14) == t.depth && Get32(hdr, 16) == t.root && Get32(hdr, 20) == t.leafRecs
    && Get32(hdr, 24) == t.firstLeaf && Get32(hdr, 28) == t.lastLeaf
  }

  lemma RootsKept(b: Bytes, c: Bytes, t: Tree)
    requires RootsRecord(b, t) && |c| == NODE_SIZE && forall j :: 14 <= j < 32 ==> b[j] == c[j]
    ensures RootsRecord(c, t)
  {
    hide Get16, Get32;
    Get16Kept(b, c, 14);
    Get32Kept(b, c, 16);
    Get32Kept(b, c, 20);
    Get32Kept(b, c, 24);
    Get32Kept(b, c, 28);
  }

  method WriteRoots(b: array<Byte>, t: Tree)
    requires b.Length == NODE_SIZE && t.depth < 0x1_0000
    modifies b
    ensures RootsRecord(b[..], t)
    ensures forall j :: 0 <= j < NODE_SIZE && (j < 14 || 32 <= j) ==> b[j] == old(b[j])
  {
    hide Get16, Get32;
    Put16(b, 14, t.depth);
    ghost var s0 := b[..];
    Put32(b, 16, t.root);
    ghost var s1 := b[..];
    Put32(b, 20, t.leafRecs);
    ghost var s2 := b[..];
    Put32(b, 24, t.firstLeaf);
    ghost var s3 := b[..];
    Put32(b, 28, t.lastLeaf);
    Get16Kept(s0, b[..], 14);
    Get32Kept(s1, b[..], 16);
    Get32Kept(s2, b[..], 20);
    Get32Kept(s3, b[..], 24);
  }

  method WriteSizes(b: array<Byte>, fileNodes: Word, count: nat)
    requires b.Length == NODE_SIZE && count <= fileNodes
    modifies b
    ensures Get16(b[..], 32) == NODE_SIZE && Get16(b[..], 34) == 37
    ensures Get32(b[..], 36) == fileNodes && Get32(b[..], 40) == fileNodes - count
    ensures forall j :: 0 <= j < NODE_SIZE && (j < 32 || 44 <= j) ==> b[j] == old(b[j])
  {
    hide Get16, Get32;
    Put16(b, 32, NODE_SIZE);
    ghost var s0 := b[..];
    Put16(b, 34, 37);
    ghost var s1 := b[..];
    Put32(b, 36, fileNodes);
    ghost var s2 := b[..];
    Put32(b, 40, fileNodes - count);
    Get16Kept(s0, b[..], 32);
    Get16Kept(s1, b[..], 34);
    Get32Kept(s2, b[..], 36);
  }

  /** One map bit per node in the tree. */
  method MarkNodes(b: array<Byte>, count: nat)
    requires b.Length == NODE_SIZE && count <= 2048 && forall j :: 248 <= j < 504 ==> b[j] == 0
    modifies b
    ensures MapIs(b[..], count)
    ensures forall j :: 0 <= j < NODE_SIZE && (j < 248 || 504 <= j) ==> b[j] == old(b[j])
  {
    for i := 0 to count
      invariant forall k :: 0 <= k < 2048 ==> (InUse(b[..], k) <==> k < i)
      invariant forall j :: 0 <= j < NODE_SIZE && (j < 248 || 504 <= j) ==> b[j] == old(b[j])
    {
      hide BitSet, OrBit;
      ghost var was := b[..];
      b[248 + i / 8] := OrBit(b[248 + i / 8], i % 8);
      MarkStep(was, b[..], i);
    }
  }

  lemma MarkStep(b: Bytes, c: Bytes, i: nat)
    requires |b| == |c| == NODE_SIZE && i < 2048
    requires forall k :: 0 <= k < 2048 ==> (InUse(b, k) <==> k < i)
    requires c == b[248 + i / 8 := OrBit(b[248 + i / 8], i % 8)]
    ensures forall k :: 0 <= k < 2048 ==> (InUse(c, k) <==> k < i + 1)
  {
    hide BitSet, OrBit;
    forall k | 0 <= k < 2048
      ensures InUse(c, k) <==> k < i + 1
    {
      assert InUse(b, k) <==> k < i;
      OrBitSets(b[248 + i / 8], i % 8, k % 8);
    }
  }

  method HeaderNode(t: Tree, fileNodes: Word, count: nat) returns (hdr: Bytes)
    requires t.depth < 0x1_0000 && count <= fileNodes && count <= 2048
    ensures HeaderLaid(hdr, t, fileNodes, count)
  {
    hide Get16, Get32, BitSet;
    var b := new Byte[NODE_SIZE](_ => 0);
    WriteOffsets(b);
    ghost var s0 := b[..];
    WriteTree(b, t, fileNodes, count);
    ghost var s1 := b[..];
    MarkNodes(b, count);
    hdr := b[..];
    OffsetsKept(s0, hdr);
    TreeKept(s1, hdr, t, fileNodes, count);
  }

  lemma OffsetsKept(b: Bytes, c: Bytes)
    requires HeaderOffsets(b) && |c| == NODE_SIZE
    requires forall j :: 0 <= j < NODE_SIZE && (j < 14 || 504 <= j) ==> b[j] == c[j]
    ensures HeaderOffsets(c)
  {
    hide Get16;
    Get16Kept(b, c, 10);
    Get16Kept(b, c, 510);
    Get16Kept(b, c, 508);
    Get16Kept(b, c, 506);
    Get16Kept(b, c, 504);
  }

  lemma TreeKept(b: Bytes, c: Bytes, t: Tree, fileNodes: nat, count: nat)
    requires TreeRecord(b, t, fileNodes, count) && |c| == NODE_SIZE
    requires forall j :: 14 <= j < 44 ==> b[j] == c[j]
    ensures TreeRecord(c, t, fileNodes, count)
  {
    hide Get16, Get32;
    Get16Kept(b, c, 14);
    Get32Kept(b, c, 16);
    Get32Kept(b, c, 20);
    Get32Kept(b, c, 24);
    Get32Kept(b, c, 28);
    Get16Kept(b, c, 32);
    Get16Kept(b, c, 34);
    Get32Kept(b, c, 36);
    Get32Kept(b, c, 40);
  }
}
