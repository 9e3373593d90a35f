/** B*-tree nodes: packing records greedily into nodes, and the 512 bytes of one. */
module HfsNode {
  import opened Units
  import opened HfsRecord

  type Bytes = seq<Byte>

  const NODE_SIZE: nat := 512
  const FIRST_RECORD: nat := 14

  function Size(recs: seq<Bytes>): nat {
    if recs == [] then 0 else Size(recs[..|recs| - 1]) + |recs[|recs| - 1]|
  }

  function Flat<T>(gs: seq<seq<T>>): seq<T> {
    if gs == [] then [] else Flat(gs[..|gs| - 1]) + gs[|gs| - 1]
  }

  // ---- packing --------------------------------------------------------------

  /** The records, the offset of each and the free-space offset fit one node. */
  predicate Fits(g: seq<Bytes>) {
    FIRST_RECORD + Size(g) + 2 * (|g| + 1) <= NODE_SIZE
  }

  /** No room for r after g. */
  predicate Full(g: seq<Bytes>, r: Bytes) {
    FIRST_RECORD + Size(g) + |r| + 2 * (|g| + 2) > NODE_SIZE
  }

  predicate Groups(gs: seq<seq<Bytes>>) {
    && (forall i :: 0 <= i < |gs| ==> gs[i] != [] && (Fits(gs[i]) || |gs[i]| == 1))
    && (forall i :: 0 < i < |gs| ==> Full(gs[i - 1], gs[i][0]))
  }

  /** gs is recs cut into nodes, each filled until the next record would not fit;
      a record too large for any node is left alone in its own. */
  predicate Packed(recs: seq<Bytes>, gs: seq<seq<Bytes>>) {
    Flat(gs) == recs && Groups(gs)
  }

  lemma Nothing()
    ensures Size([]) == 0 && Flat<Bytes>([]) == [] && Groups([])
  {
  }

  lemma SizeSnoc(g: seq<Bytes>, r: Bytes)
    ensures Size(g + [r]) == Size(g) + |r|
  {
    assert (g + [r])[..|g|] == g;
  }

  lemma FlatSnoc<T>(gs: seq<seq<T>>, g: seq<T>)
    ensures Flat(gs + [g]) == Flat(gs) + g
  {
    assert (gs + [g])[..|gs|] == gs;
  }

  /** Packing under way: closed nodes, then the one being filled. */
  predicate Filling(nodes: seq<seq<Bytes>>, cur: seq<Bytes>) {
    && Groups(nodes) && (Fits(cur) || |cur| == 1)
    && (nodes != [] ==> cur != [] && Full(nodes[|nodes| - 1], cur[0]))
  }

  lemma Unstarted()
    ensures Filling([], [])
  {
  }

  lemma Close(nodes: seq<seq<Bytes>>, cur: seq<Bytes>)
    requires Filling(nodes, cur) && cur != []
    ensures Groups(nodes + [cur])
  {
    hide Fits, Full;
  }

  lemma Closed(nodes: seq<seq<Bytes>>, cur: seq<Bytes>)
    requires Filling(nodes, cur) && cur == []
    ensures nodes == []
  {
  }

  lemma Opened(nodes: seq<seq<Bytes>>, cur: seq<Bytes>, r: Bytes)
    requires Filling(nodes, cur) && cur != [] && Full(cur, r)
    ensures Filling(nodes + [cur], [r])
  {
    Close(nodes, cur);
    hide Groups, Fits, Full;
  }

  lemma Appended(nodes: seq<seq<Bytes>>, cur: seq<Bytes>, r: Bytes)
    requires Filling(nodes, cur) && (cur == [] || !Full(cur, r))
    ensures Filling(nodes, cur + [r])
  {
    SizeSnoc(cur, r);
    hide Groups, Size;
  }

  method PackLevel(recs: seq<Bytes>) returns (nodes: seq<seq<Bytes>>)
    ensures Packed(recs, nodes)
  {
    hide Size, Flat, Groups, Filling;
    nodes := [];
    var cur: seq<Bytes>, used := [], 0;
    Nothing();
    Unstarted();
    for i := 0 to |recs|
      invariant Flat(nodes) + cur == recs[..i]
      invariant used == Size(cur) && Filling(nodes, cur)
      invariant cur == [] <==> i == 0
    {
      var r := recs[i];
      var withThis := FIRST_RECORD + used + |r| + 2 * (|cur| + 2);
      if cur != [] && withThis > NODE_SIZE {
        FlatSnoc(nodes, cur);
        Opened(nodes, cur, r);
        nodes := nodes + [cur];
        cur, used := [], 0;
        Nothing();
        assert cur + [r] == [r];
      } else {
        Appended(nodes, cur, r);
      }
      SizeSnoc(cur, r);
      cur := cur + [r];
      used := used + |r|;
    }
    if cur != [] {
      FlatSnoc(nodes, cur);
      Close(nodes, cur);
      nodes := nodes + [cur];
    } else {
      Closed(nodes, cur);
    }
  }

  /** Records of at most 494 bytes fit a node alone, so packed nodes always fit. */
  lemma AloneFits(g: seq<Bytes>)
    requires |g| == 1 && |g[0]| <= 494
    ensures Fits(g)
  {
    Nothing();
    assert g[..0] == [];
  }

  lemma {:induction false} SizeSplit(a: seq<Bytes>, b: seq<Bytes>)
    ensures Size(a + b) == Size(a) + Size(b)
    decreases |b|
  {
    if b == [] {
      assert a + b == a;
    } else {
      SizeSplit(a, b[..|b| - 1]);
      assert a + b == a + b[..|b| - 1] + [b[|b| - 1]];
      SizeSnoc(a + b[..|b| - 1], b[|b| - 1]);
    }
  }

  /** Every leaf but the last holds at least 355 bytes of records and offsets. */
  lemma {:induction false} LeafWeight(gs: seq<seq<Bytes>>, m: nat)
    requires m < |gs| && Groups(gs) && forall i :: 0 <= i < |gs| ==> gs[i] != [] && |gs[i][0]| <= 140
    ensures Size(Flat(gs[..m])) + 2 * |Flat(gs[..m])| >= 355 * m
  {
    if m > 0 {
      LeafWeight(gs, m - 1);
      assert gs[..m] == gs[..m - 1] + [gs[m - 1]];
      FlatSnoc(gs[..m - 1], gs[m - 1]);
      SizeSplit(Flat(gs[..m - 1]), gs[m - 1]);
      assert Full(gs[m - 1], gs[m][0]);
    }
  }

  lemma {:induction false} SizeUniform(g: seq<Bytes>)
    requires forall i :: 0 <= i < |g| ==> |g[i]| == 42
    ensures Size(g) == 42 * |g|
  {
    if g != [] {
      SizeUniform(g[..|g| - 1]);
    }
  }

  /** Index nodes hold eleven 42-byte records each, the last one the remainder. */
  lemma {:induction false} IndexGroups(gs: seq<seq<Bytes>>, m: nat)
    requires m <= |gs| && Groups(gs) && forall i, j :: 0 <= i < |gs| && 0 <= j < |gs[i]| ==> |gs[i][j]| == 42
    ensures m < |gs| ==> |Flat(gs[..m])| == 11 * m
    ensures m == |gs| ==> m == (|Flat(gs)| + 10) / 11
  {
    if m > 0 {
      IndexGroups(gs, m - 1);
      assert gs[..m] == gs[..m - 1] + [gs[m - 1]];
      FlatSnoc(gs[..m - 1], gs[m - 1]);
      SizeUniform(gs[m - 1]);
      assert |gs[m - 1]| > 1 ==> Fits(gs[m - 1]);
      if m < |gs| {
        assert Full(gs[m - 1], gs[m][0]);
      } else {
        assert gs[..m] == gs;
      }
    }
  }

  // ---- one node -------------------------------------------------------------

  function Start(recs: seq<Bytes>, k: nat): nat
    requires k <= |recs|
  {
    FIRST_RECORD + Size(recs[..k])
  }

  predicate Offset(n: Bytes, recs: seq<Bytes>, k: nat) {
    |n| == NODE_SIZE && k <= |recs| && k < 250 && Get16(n, 510 - 2 * k) == Start(recs, k)
  }

  predicate Piece(n: Bytes, recs: seq<Bytes>, k: nat) {
    k < |recs| && Start(recs, k) + |recs[k]| <= |n| && n[Start(recs, k)..Start(recs, k) + |recs[k]|] == recs[k]
  }

  /** The node's header: links, kind, height and record count. */
  predicate Described(n: Bytes, kind: Byte, height: Byte, count: nat, fLink: Word, bLink: Word) {
    && |n| == NODE_SIZE && Get32(n, 0) == fLink && Get32(n, 4) == bLink
    && n[8] == kind && n[9] == height && Get16(n, 10) == count
  }

  /** The whole node: records from byte 14 up, their offsets from the end down. */
  predicate Laid(n: Bytes, kind: Byte, height: Byte, recs: seq<Bytes>, fLink: Word, bLink: Word) {
    && Described(n, kind, height, |recs|, fLink, bLink)
    && (forall k :: 0 <= k < |recs| ==> Offset(n, recs, k) && Piece(n, recs, k))
    && Offset(n, recs, |recs|)
  }

  method Put16(b: array<Byte>, at: nat, v: nat)
    requires at + 2 <= b.Length && v < 0x1_0000
    modifies b
    ensures Get16(b[..], at) == v
    ensures forall j :: 0 <= j < b.Length && (j < at || at + 2 <= j) ==> b[j] == old(b[j])
  {
    b[at], b[at + 1] := v / 256, v % 256;
  }

  method Put32(b: array<Byte>, at: nat, v: Word)
    requires at + 4 <= b.Length
    modifies b
    ensures Get32(b[..], at) == v
    ensures forall j :: 0 <= j < b.Length && (j < at || at + 4 <= j) ==> b[j] == old(b[j])
  {
    b[at], b[at + 1], b[at + 2], b[at + 3] := v / 256 / 256 / 256, v / 256 / 256 % 256, v / 256 % 256, v % 256;
  }

  /** The memcpy of one record. */
  method CopyIn(b: array<Byte>, at: nat, r: Bytes)
    requires at + |r| <= b.Length
    modifies b
    ensures b[at..at + |r|] == r
    ensures forall j :: 0 <= j < b.Length && (j < at || at + |r| <= j) ==> b[j] == old(b[j])
  {
    for i := 0 to |r|
      invariant b[at..at + i] == r[..i]
      invariant forall j :: 0 <= j < b.Length && (j < at || at + i <= j) ==> b[j] == old(b[j])
    {
      b[at + i] := r[i];
    }
  }

  /** The first i records are in place. */
  predicate Begun(n: Bytes, recs: seq<Bytes>, i: nat) {
    |n| == NODE_SIZE && i <= |recs| && forall k :: 0 <= k < i ==> Offset(n, recs, k) && Piece(n, recs, k)
  }

  lemma StartStep(recs: seq<Bytes>, k: nat)
    requires k < |recs|
    ensures Start(recs, k + 1) == Start(recs, k) + |recs[k]|
  {
    assert recs[..k + 1] == recs[..k] + [recs[k]];
    SizeSnoc(recs[..k], recs[k]);
  }

  lemma {:induction false} StartGrows(recs: seq<Bytes>, k: nat, i: nat)
    requires k <= i <= |recs|
    ensures Start(recs, k) <= Start(recs, i)
    decreases i - k
  {
    if k < i {
      StartStep(recs, k);
      StartGrows(recs, k + 1, i);
    }
  }

  lemma StartFits(recs: seq<Bytes>, k: nat)
    requires Fits(recs) && k <= |recs|
    ensures FIRST_RECORD <= Start(recs, k) && Start(recs, k) + 2 * (|recs| + 1) <= NODE_SIZE
  {
    hide Size;
    StartGrows(recs, k, |recs|);
    assert recs[..|recs|] == recs;
  }

  /** Bytes between the two growing ends do not disturb what is in place. */
  lemma BegunKept(n: Bytes, m: Bytes, recs: seq<Bytes>, i: nat)
    requires Begun(n, recs, i) && |m| == NODE_SIZE && Fits(recs)
    requires forall j :: 0 <= j < NODE_SIZE && (j < Start(recs, i) || 512 - 2 * i <= j) ==> m[j] == n[j]
    ensures Begun(m, recs, i)
  {
    hide Start, Fits;
    forall k | 0 <= k < i
      ensures Offset(m, recs, k) && Piece(m, recs, k)
    {
      assert Offset(n, recs, k) && Piece(n, recs, k);
      StartStep(recs, k);
      StartGrows(recs, k + 1, i);
      StartFits(recs, i);
      var a, b := Start(recs, k), Start(recs, k) + |recs[k]|;
      assert m[a..b] == n[a..b];
    }
  }

  /** A write that touches neither the header nor what is in place. */
  predicate Beyond(n: Bytes, m: Bytes, recs: seq<Bytes>, i: nat)
    requires i <= |recs|
  {
    |n| == |m| == NODE_SIZE && forall j :: 0 <= j < NODE_SIZE && (j < Start(recs, i) || 512 - 2 * i <= j) ==> m[j] == n[j]
  }

  lemma DescribedKept(n: Bytes, m: Bytes, recs: seq<Bytes>, i: nat, kind: Byte, height: Byte, fLink: Word, bLink: Word)
    requires Fits(recs) && i <= |recs| && Beyond(n, m, recs, i) && Described(n, kind, height, |recs|, fLink, bLink)
    ensures Described(m, kind, height, |recs|, fLink, bLink)
  {
    StartFits(recs, i);
    hide Start, Fits;
    assert forall j :: 0 <= j < FIRST_RECORD ==> m[j] == n[j];
  }

  method MakeNode(kind: Byte, height: Byte, recs: seq<Bytes>, fLink: Word, bLink: Word) returns (r: Bytes)
    requires Fits(recs)
    ensures Laid(r, kind, height, recs, fLink, bLink)
  {
    hide Size, Start, Fits, Begun, Get16, Get32, Described;
    var n := new Byte[NODE_SIZE](_ => 0);
    WriteHead(n, kind, height, recs, fLink, bLink);
    var at, offSlot := FIRST_RECORD, NODE_SIZE - 2;
    Starting(n[..], recs);
    for i := 0 to |recs|
      invariant offSlot == 510 - 2 * i && at == Start(recs, i)
      invariant Described(n[..], kind, height, |recs|, fLink, bLink) && Begun(n[..], recs, i)
    {
      StartFits(recs, i);
      StartFits(recs, i + 1);
      StartStep(recs, i);
      SlotRoom(recs);
      ghost var before := n[..];
      Put16(n, offSlot, at);
      ghost var middle := n[..];
      CopyIn(n, at, recs[i]);
      OffsetKept(middle, n[..], recs, i);
      Placed(before, n[..], recs, i, kind, height, fLink, bLink);
      at := at + |recs[i]|;
      offSlot := offSlot - 2;
    }
    StartFits(recs, |recs|);
    SlotRoom(recs);
    ghost var before := n[..];
    Put16(n, offSlot, at);
    r := n[..];
    BegunKept(before, r, recs, |recs|);
    DescribedKept(before, r, recs, |recs|, kind, height, fLink, bLink);
    Finished(r, kind, height, recs, fLink, bLink);
  }

  method WriteHead(n: array<Byte>, kind: Byte, height: Byte, recs: seq<Bytes>, fLink: Word, bLink: Word)
    requires n.Length == NODE_SIZE && Fits(recs)
    modifies n
    ensures Described(n[..], kind, height, |recs|, fLink, bLink)
  {
    hide Fits;
    SlotRoom(recs);
    Put32(n, 0, fLink);
    Put32(n, 4, bLink);
    n[8] := kind;
    n[9] := height;
    Put16(n, 10, |recs|);
  }

  lemma Starting(n: Bytes, recs: seq<Bytes>)
    requires |n| == NODE_SIZE
    ensures Begun(n, recs, 0) && Start(recs, 0) == FIRST_RECORD
  {
  }

  lemma SlotRoom(recs: seq<Bytes>)
    requires Fits(recs)
    ensures |recs| < 250
  {
  }

  lemma OffsetKept(n: Bytes, m: Bytes, recs: seq<Bytes>, i: nat)
    requires |n| == |m| == NODE_SIZE && i < |recs| < 250 && Get16(n, 510 - 2 * i) == Start(recs, i)
    requires forall j :: 512 - 2 * |recs| <= j < NODE_SIZE ==> m[j] == n[j]
    ensures Offset(m, recs, i)
  {
  }

  lemma Placed(n: Bytes, m: Bytes, recs: seq<Bytes>, i: nat, kind: Byte, height: Byte, fLink: Word, bLink: Word)
    requires Fits(recs) && i < |recs| && Begun(n, recs, i) && Described(n, kind, height, |recs|, fLink, bLink)
    requires Beyond(n, m, recs, i) && Offset(m, recs, i) && Piece(m, recs, i)
    ensures Begun(m, recs, i + 1) && Described(m, kind, height, |recs|, fLink, bLink)
  {
    hide Offset, Piece, Described, Fits, Start;
    BegunKept(n, m, recs, i);
    DescribedKept(n, m, recs, i, kind, height, fLink, bLink);
  }

  lemma Finished(n: Bytes, kind: Byte, height: Byte, recs: seq<Bytes>, fLink: Word, bLink: Word)
    requires Fits(recs) && Described(n, kind, height, |recs|, fLink, bLink)
    requires Begun(n, recs, |recs|) && Offset(n, recs, |recs|)
    ensures Laid(n, kind, height, recs, fLink, bLink)
  {
    hide Offset, Piece, Described;
  }

  // ---- what a reader sees ---------------------------------------------------

  /** Record k of a node, by the node's own offset table. */
  function RecordAt(n: Bytes, k: nat): Bytes {
    if |n| == NODE_SIZE && k < 250 && Get16(n, 510 - 2 * k) <= Get16(n, 508 - 2 * k) <= NODE_SIZE then
      n[Get16(n, 510 - 2 * k)..Get16(n, 508 - 2 * k)]
    else []
  }

  function CountOf(n: Bytes): nat {
    if |n| == NODE_SIZE then Get16(n, 10) else 0
  }

  function Records(n: Bytes): seq<Bytes> {
    seq(CountOf(n), k requires k >= 0 => RecordAt(n, k))
  }

  lemma RecordBack(n: Bytes, recs: seq<Bytes>, k: nat)
    requires Offset(n, recs, k) && Piece(n, recs, k) && Offset(n, recs, k + 1)
    ensures RecordAt(n, k) == recs[k]
  {
    hide Start, Get16;
    StartStep(recs, k);
  }

  /** A node laid out by MakeNode reads back as the records it was made from. */
  lemma RecordsBack(n: Bytes, kind: Byte, height: Byte, recs: seq<Bytes>, fLink: Word, bLink: Word)
    requires Laid(n, kind, height, recs, fLink, bLink)
    ensures Records(n) == recs
  {
    assert CountOf(n) == |recs|;
    hide Offset, Piece, Described, RecordAt, CountOf;
    forall k | 0 <= k < |recs|
      ensures RecordAt(n, k) == recs[k]
    {
      RecordBack(n, recs, k);
    }
  }
}
