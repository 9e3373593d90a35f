/** The OHCI controller's view of RAM: words, the cells descriptors and the HCCA lie
    in, and what carrying out a transfer descriptor does to RAM. */
module OhciRam {
  import opened Units

  type Ram = seq<Byte>

  const DONE_HEAD: nat := 0x84
  const FRAME_NUMBER: nat := 0x80

  // ---- words in RAM ---------------------------------------------------------

  function Ld(m: Ram, pa: nat): Word {
    if pa + 4 > |m| then 0
    else (m[pa] as nat) + 256 * ((m[pa + 1] as nat) + 256 * ((m[pa + 2] as nat) + 256 * (m[pa + 3] as nat)))
  }

  function St(m: Ram, pa: nat, v: Word): (r: Ram)
    ensures |r| == |m|
  {
    if pa + 4 > |m| then m
    else m[pa := v % 256][pa + 1 := v / 256 % 256][pa + 2 := v / 256 / 256 % 256][pa + 3 := v / 256 / 256 / 256]
  }

  /** The bytes that fall inside RAM. */
  function Blit(m: Ram, pa: nat, bytes: seq<Byte>): (r: Ram)
    ensures |r| == |m|
    ensures forall j :: 0 <= j < |m| && (j < pa || pa + |bytes| <= j) ==> r[j] == m[j]
  {
    seq(|m|, j requires 0 <= j < |m| => if pa <= j < pa + |bytes| then bytes[j - pa] else m[j])
  }

  lemma LdSt(m: Ram, pa: nat, v: Word)
    requires pa + 4 <= |m|
    ensures Ld(St(m, pa, v), pa) == v
  {
  }

  lemma LdOther(m: Ram, pa: nat, v: Word, at: nat)
    requires at + 4 <= pa || pa + 4 <= at
    ensures Ld(St(m, pa, v), at) == Ld(m, at)
  {
  }

  lemma LdBlit(m: Ram, pa: nat, bytes: seq<Byte>, at: nat)
    requires at + 4 <= pa || pa + |bytes| <= at
    ensures Ld(Blit(m, pa, bytes), at) == Ld(m, at)
  {
  }

  /** Descriptors are 16-byte aligned; the low bits carry flags. */
  function Pointer(w: Word): (p: Word)
    ensures p % 16 == 0 && p <= w < p + 16
  {
    w - w % 16
  }

  /** A pointer with the flag bits of another word. */
  function Flagged(w: Word, p: Word): (r: Word)
    requires p % 16 == 0
    ensures Pointer(r) == p && r % 2 == w % 2 && (p == Pointer(w) ==> r == w)
  {
    FlagBits(w, p);
    hide Pointer;
    w % 16 + p
  }

  lemma FlagBits(w: Word, p: Word)
    requires p % 16 == 0
    ensures w % 16 + p < 0x1_0000_0000 && Pointer(w % 16 + p) == p
    ensures (w % 16 + p) % 2 == w % 2 && (p == Pointer(w) ==> w % 16 + p == w)
  {
    var i, k := w % 16, p / 16;
    Sixteens(k, i);
    LastBit(k, i);
    LastBit(w / 16, i);
  }

  lemma Sixteens(k: nat, i: nat)
    requires i < 16
    ensures (16 * k + i) % 16 == i
  {
  }

  lemma LastBit(k: nat, i: nat)
    ensures (16 * k + i) % 2 == i % 2
  {
    assert 16 * k + i == 2 * (8 * k) + i;
  }

  function Next(m: Ram, td: nat): Word {
    Pointer(Ld(m, td + 8))
  }

  function Tail(m: Ram, ed: nat): Word {
    Pointer(Ld(m, ed + 4))
  }

  // ---- cells ----------------------------------------------------------------

  /** Where the descriptors and the HCCA lie: 16-byte cells, none overlapping. */
  datatype Layout = Layout(cells: set<nat>, hcca: nat) {
    ghost predicate Ok(size: nat) {
      && hcca > 0 && (forall k :: 0 <= k < 16 ==> hcca + 16 * k in cells)
      && forall c :: c in cells ==> c % 16 == 0 && 0 < c && c + 16 <= size <= 0x1_0000_0000
    }

    predicate Descriptor(c: nat) {
      c in cells && !(hcca <= c < hcca + 256)
    }
  }

  /** Bytes a transfer descriptor still offers. */
  function Avail(m: Ram, td: nat): nat {
    var cbp, be := Ld(m, td + 4), Ld(m, td + 12);
    if cbp != 0 && be >= cbp then be - cbp + 1 else 0
  }

  /** A transfer's buffer overlaps no descriptor and not the HCCA. */
  ghost predicate BufferClear(sh: Layout, m: Ram, td: nat) {
    forall c :: c in sh.cells ==> Ld(m, td + 4) + Avail(m, td) <= c || c + 16 <= Ld(m, td + 4)
  }

  // ---- one transfer descriptor ----------------------------------------------

  /** RAM after a descriptor is carried out and retired with code 0: its data,
      its buffer pointer, its completion code, and its link to the done list. */
  function Carried(m: Ram, td: nat, bytes: seq<Byte>, moved: nat, doneHead: Word): (r: Ram)
    ensures |r| == |m|
  {
    var cbp, be := Ld(m, td + 4), Ld(m, td + 12);
    var m1 := Blit(m, cbp, bytes);
    var m2 := St(m1, td + 4, if moved != 0 && cbp + moved <= be then cbp + moved else 0);
    var m3 := St(m2, td, Ld(m2, td) % 0x1000_0000);
    St(m3, td + 8, doneHead)
  }

  /** Nothing changes in any cell but three words of the descriptor itself. */
  lemma CarriedFrame(sh: Layout, m: Ram, td: nat, bytes: seq<Byte>, moved: nat, doneHead: Word, c: nat, k: nat)
    requires sh.Ok(|m|) && td in sh.cells && c in sh.cells && k in {0, 4, 8, 12}
    requires BufferClear(sh, m, td) && |bytes| <= Avail(m, td)
    ensures c != td || k == 12 ==> Ld(Carried(m, td, bytes, moved, doneHead), c + k) == Ld(m, c + k)
    ensures c == td && k == 8 ==> Ld(Carried(m, td, bytes, moved, doneHead), c + k) == doneHead
  {
    hide Ld, St, Avail;
    var cbp, be := Ld(m, td + 4), Ld(m, td + 12);
    var m1 := Blit(m, cbp, bytes);
    var w := if moved != 0 && cbp + moved <= be then cbp + moved else 0;
    var m2 := St(m1, td + 4, w);
    var m3 := St(m2, td, Ld(m2, td) % 0x1000_0000);
    LdBlit(m, cbp, bytes, c + k);
    if c != td || k == 12 {
      assert c + k + 4 <= td || td + 12 <= c + k;
      LdOther(m1, td + 4, w, c + k);
      LdOther(m2, td, Ld(m2, td) % 0x1000_0000, c + k);
      LdOther(m3, td + 8, doneHead, c + k);
    }
    LdSt(m3, td + 8, doneHead);
  }

  predicate SameCell(m: Ram, n: Ram, c: nat) {
    Ld(n, c) == Ld(m, c) && Ld(n, c + 4) == Ld(m, c + 4) && Ld(n, c + 8) == Ld(m, c + 8) && Ld(n, c + 12) == Ld(m, c + 12)
  }

  /** Every cell but one reads as before. */
  ghost predicate OnlyCell(sh: Layout, m: Ram, n: Ram, td: nat) {
    |n| == |m| && forall c :: c in sh.cells && c != td ==> SameCell(m, n, c)
  }

  lemma CarriedCells(sh: Layout, m: Ram, td: nat, bytes: seq<Byte>, moved: nat, doneHead: Word)
    requires sh.Ok(|m|) && td in sh.cells && BufferClear(sh, m, td) && |bytes| <= Avail(m, td)
    ensures OnlyCell(sh, m, Carried(m, td, bytes, moved, doneHead), td)
    ensures Ld(Carried(m, td, bytes, moved, doneHead), td + 8) == doneHead
  {
    hide Ld, Carried, BufferClear;
    forall c | c in sh.cells && c != td
      ensures SameCell(m, Carried(m, td, bytes, moved, doneHead), c)
    {
      CarriedFrame(sh, m, td, bytes, moved, doneHead, c, 0);
      CarriedFrame(sh, m, td, bytes, moved, doneHead, c, 4);
      CarriedFrame(sh, m, td, bytes, moved, doneHead, c, 8);
      CarriedFrame(sh, m, td, bytes, moved, doneHead, c, 12);
    }
    CarriedFrame(sh, m, td, bytes, moved, doneHead, td, 8);
  }

  lemma StElsewhere(m: Ram, pa: nat, v: Word, d: nat)
    requires d + 16 <= pa || pa + 4 <= d
    ensures SameCell(m, St(m, pa, v), d)
  {
    hide Ld, St;
    LdOther(m, pa, v, d);
    LdOther(m, pa, v, d + 4);
    LdOther(m, pa, v, d + 8);
    LdOther(m, pa, v, d + 12);
  }

  /** What the device answers to one descriptor: nothing yet, or some bytes. */
  datatype Answer = Nak | Data(bytes: seq<Byte>)

  // ---- what lands where -----------------------------------------------------

  /** The bytes between a buffer's two ends, both included; none without a buffer. */
  function Room(cbp: nat, be: nat): nat {
    if cbp == 0 || be < cbp then 0 else be + 1 - cbp
  }

  /** What an IN stores: the beginning of the answer, as far as there is room. */
  function Stored(m: Ram, td: nat, a: Answer): (bytes: seq<Byte>) {
    var room := Room(Ld(m, td + 4), Ld(m, td + 12));
    if Ld(m, td) / 0x8_0000 % 4 != 2 || a.Nak? then []
    else if |a.bytes| <= room then a.bytes
    else a.bytes[..room]
  }

  /** How far the buffer is used: all of it by an OUT, eight bytes by a SETUP. */
  function Moved(m: Ram, td: nat, a: Answer): nat {
    var dp := Ld(m, td) / 0x8_0000 % 4;
    if dp == 0 then 8 else if dp == 2 then |Stored(m, td, a)| else Room(Ld(m, td + 4), Ld(m, td + 12))
  }

  /** n shows descriptor td of m carried out: the data is in its buffer, the buffer
      pointer past it, or 0 at the end, and the completion code 0. */
  ghost predicate Landed(m: Ram, n: Ram, td: nat, a: Answer) {
    var cbp, be, got, moved := Ld(m, td + 4), Ld(m, td + 12), Stored(m, td, a), Moved(m, td, a);
    && InPlace(n, cbp, got) && Ld(n, td + 4) == (if moved > 0 && cbp + moved <= be then cbp + moved else 0)
    && Ld(n, td) == Ld(m, td) % 0x1000_0000 && Ld(n, td + 12) == be
  }

  /** The bytes lie at pa, as far as RAM goes. */
  ghost predicate InPlace(n: Ram, pa: nat, bytes: seq<Byte>) {
    forall j :: 0 <= j < |bytes| && pa + j < |n| ==> n[pa + j] == bytes[j]
  }

  ghost predicate InStored(m: Ram, td: nat, a: Answer, j: nat) {
    Ld(m, td + 4) <= j < Ld(m, td + 4) + |Stored(m, td, a)|
  }

  /** Byte j belongs to none of these cells and no data was stored there. */
  ghost predicate Outside(m: Ram, j: nat, cells: set<nat>, ans: map<nat, Answer>) {
    (forall c :: c in cells ==> !(c <= j < c + 16)) && forall t :: t in ans ==> !InStored(m, t, ans[t], j)
  }

  /** No two of these descriptors store in the same byte. */
  ghost predicate Separate(m: Ram, ans: map<nat, Answer>) {
    forall s, t, j: nat :: s in ans && t in ans && s != t && InStored(m, s, ans[s], j) ==> !InStored(m, t, ans[t], j)
  }

  /** Between m and n the descriptors of ans were carried out with those answers, and
      nothing was written but that data and the given cells. */
  ghost predicate Ledger(sh: Layout, m: Ram, n: Ram, cells: set<nat>, ans: map<nat, Answer>) {
    && |n| == |m| && cells <= sh.cells && ans.Keys <= cells
    && (forall t :: t in ans ==> BufferClear(sh, m, t))
    && (forall j: nat :: j < |m| && Outside(m, j, cells, ans) ==> n[j] == m[j])
    && (Separate(m, ans) ==> forall t :: t in ans ==> Landed(m, n, t, ans[t]))
  }

  lemma StoredFits(m: Ram, td: nat, a: Answer)
    ensures |Stored(m, td, a)| <= Avail(m, td)
  {
    hide Ld;
  }

  lemma CellsApart(sh: Layout, size: nat, c: nat, d: nat, j: nat)
    requires sh.Ok(size) && c in sh.cells && d in sh.cells && c != d && c <= j < c + 16
    ensures !(d <= j < d + 16)
  {
  }

  /** Bytes of a cell lie outside all other cells and outside cleared buffers. */
  lemma CellOutside(sh: Layout, m: Ram, cells: set<nat>, ans: map<nat, Answer>, c: nat, j: nat)
    requires sh.Ok(|m|) && cells <= sh.cells && c in sh.cells && c !in cells && c <= j < c + 16
    requires forall t :: t in ans ==> BufferClear(sh, m, t)
    ensures Outside(m, j, cells, ans)
  {
    hide Ld, Stored;
    forall d | d in cells
      ensures !(d <= j < d + 16)
    {
      CellsApart(sh, |m|, c, d, j);
    }
    forall t | t in ans
      ensures !InStored(m, t, ans[t], j)
    {
      StoredFits(m, t, ans[t]);
      assert BufferClear(sh, m, t);
    }
  }

  /** Cells not written read as they did. */
  lemma CellKept(sh: Layout, m: Ram, n: Ram, cells: set<nat>, ans: map<nat, Answer>, c: nat)
    requires sh.Ok(|m|) && Ledger(sh, m, n, cells, ans) && c in sh.cells && c !in cells
    ensures SameCell(m, n, c)
  {
    hide BufferClear, Outside, Landed, Separate, Layout.Ok;
    assert c + 16 <= |m| by {
      CellInside(sh, |m|, c);
    }
    forall j | c <= j < c + 16
      ensures n[j] == m[j]
    {
      CellOutside(sh, m, cells, ans, c, j);
    }
    SameBytes(m, n, c);
  }

  lemma CellInside(sh: Layout, size: nat, c: nat)
    requires sh.Ok(size) && c in sh.cells
    ensures c + 16 <= size
  {
  }

  lemma SameBytes(m: Ram, n: Ram, c: nat)
    requires c + 16 <= |m| == |n| && forall j :: c <= j < c + 16 ==> n[j] == m[j]
    ensures SameCell(m, n, c)
  {
  }

  lemma LedgerNone(sh: Layout, m: Ram, cells: set<nat>)
    requires cells <= sh.cells
    ensures Ledger(sh, m, m, cells, map[])
  {
  }

  /** What a descriptor says does not change while its cell does not. */
  lemma SameOrders(m: Ram, n: Ram, td: nat, a: Answer)
    requires SameCell(m, n, td)
    ensures Stored(n, td, a) == Stored(m, td, a) && Moved(n, td, a) == Moved(m, td, a)
    ensures forall j: nat :: InStored(n, td, a, j) <==> InStored(m, td, a, j)
    ensures forall r :: Landed(n, r, td, a) <==> Landed(m, r, td, a)
  {
    hide Ld;
  }

  /** The later descriptors' cells are as they were at the start. */
  lemma LaterCell(sh: Layout, m0: Ram, m1: Ram, c1: set<nat>, a1: map<nat, Answer>, t: nat, a: Answer)
    requires sh.Ok(|m0|) && Ledger(sh, m0, m1, c1, a1) && t in sh.cells && t !in c1
    ensures Stored(m1, t, a) == Stored(m0, t, a) && (forall j: nat :: InStored(m1, t, a, j) <==> InStored(m0, t, a, j))
    ensures forall r :: Landed(m1, r, t, a) <==> Landed(m0, r, t, a)
    ensures BufferClear(sh, m1, t) <==> BufferClear(sh, m0, t)
  {
    CellKept(sh, m0, m1, c1, a1, t);
    SameOrders(m0, m1, t, a);
    hide Ld, Ledger, Landed, InStored, Stored;
  }

  lemma DataStays(sh: Layout, m0: Ram, m1: Ram, m2: Ram, c2: set<nat>, a2: map<nat, Answer>, t: nat, a: Answer)
    requires Ledger(sh, m1, m2, c2, a2) && BufferClear(sh, m0, t) && InPlace(m1, Ld(m0, t + 4), Stored(m0, t, a))
    requires forall j: nat, s :: s in a2 && InStored(m0, t, a, j) ==> !InStored(m1, s, a2[s], j)
    ensures InPlace(m2, Ld(m0, t + 4), Stored(m0, t, a))
  {
    StoredFits(m0, t, a);
    hide Ld, Stored, Landed, Separate, Avail, BufferClear, Outside;
    var cbp, got := Ld(m0, t + 4), Stored(m0, t, a);
    forall j | 0 <= j < |got| && cbp + j < |m2|
      ensures m2[cbp + j] == got[j]
    {
      assert InStored(m0, t, a, cbp + j);
      BufferOutside(sh, m0, m1, c2, a2, t, a, cbp + j);
    }
  }

  /** What landed stays, if nobody else writes its cell or stores in its buffer. */
  lemma LandedStays(sh: Layout, m0: Ram, m1: Ram, m2: Ram, c2: set<nat>, a2: map<nat, Answer>, t: nat, a: Answer)
    requires sh.Ok(|m1|) && Ledger(sh, m1, m2, c2, a2) && t in sh.cells && t !in c2
    requires BufferClear(sh, m0, t) && Landed(m0, m1, t, a)
    requires forall j: nat, s :: s in a2 && InStored(m0, t, a, j) ==> !InStored(m1, s, a2[s], j)
    ensures Landed(m0, m2, t, a)
  {
    hide Ld, Stored, Moved, Layout.Ok, Ledger, InPlace, InStored, BufferClear;
    CellKept(sh, m1, m2, c2, a2, t);
    DataStays(sh, m0, m1, m2, c2, a2, t, a);
  }

  lemma BufferOutside(sh: Layout, m0: Ram, m1: Ram, c2: set<nat>, a2: map<nat, Answer>, t: nat, a: Answer, j: nat)
    requires c2 <= sh.cells && BufferClear(sh, m0, t) && InStored(m0, t, a, j) && |Stored(m0, t, a)| <= Avail(m0, t)
    requires forall s :: s in a2 ==> !InStored(m1, s, a2[s], j)
    ensures Outside(m1, j, c2, a2)
  {
    hide Ld, Stored, Avail;
  }

  lemma ChainFrame(sh: Layout, m0: Ram, m1: Ram, m2: Ram, c1: set<nat>, a1: map<nat, Answer>, c2: set<nat>, a2: map<nat, Answer>, j: nat)
    requires sh.Ok(|m0|) && Ledger(sh, m0, m1, c1, a1) && Ledger(sh, m1, m2, c2, a2) && a2.Keys !! c1 && a1.Keys !! c2
    requires j < |m0| && Outside(m0, j, c1 + c2, a1 + a2)
    ensures m2[j] == m0[j]
  {
    hide BufferClear, Landed, InStored, Separate, Layout.Ok;
    forall t | t in a1
      ensures !InStored(m0, t, a1[t], j)
    {
      assert (a1 + a2)[t] == a1[t];
    }
    assert Outside(m0, j, c1, a1);
    forall t | t in a2
      ensures !InStored(m1, t, a2[t], j)
    {
      assert (a1 + a2)[t] == a2[t];
      LaterCell(sh, m0, m1, c1, a1, t, a2[t]);
    }
    assert Outside(m1, j, c2, a2);
  }

  /** Separate descriptors are separate in each stretch, and across the two. */
  lemma ChainSeparate(sh: Layout, m0: Ram, m1: Ram, c1: set<nat>, a1: map<nat, Answer>, c2: set<nat>, a2: map<nat, Answer>)
    requires sh.Ok(|m0|) && Ledger(sh, m0, m1, c1, a1) && c2 <= sh.cells && a2.Keys <= c2 && a2.Keys !! c1 && a1.Keys !! c2
    requires Separate(m0, a1 + a2)
    ensures Separate(m0, a1) && Separate(m1, a2)
    ensures forall s, t, j: nat :: s in a1 && t in a2 && InStored(m0, s, a1[s], j) ==> !InStored(m1, t, a2[t], j)
  {
    hide BufferClear, Landed, InStored, Layout.Ok, Ledger;
    forall t | t in a2
      ensures (a1 + a2)[t] == a2[t] && t !in a1 && forall j: nat :: InStored(m1, t, a2[t], j) <==> InStored(m0, t, a2[t], j)
    {
      KeysIn(sh, m0, m1, c1, a1);
      LaterCell(sh, m0, m1, c1, a1, t, a2[t]);
    }
    assert forall t :: t in a1 ==> (a1 + a2)[t] == a1[t];
  }

  lemma KeysIn(sh: Layout, m: Ram, n: Ram, cells: set<nat>, ans: map<nat, Answer>)
    requires Ledger(sh, m, n, cells, ans)
    ensures ans.Keys <= cells <= sh.cells && |n| == |m| && forall t :: t in ans ==> BufferClear(sh, m, t)
    ensures Separate(m, ans) ==> forall t :: t in ans ==> Landed(m, n, t, ans[t])
  {
    hide BufferClear, Landed, Outside, Separate;
  }

  lemma ChainLanded(sh: Layout, m0: Ram, m1: Ram, m2: Ram, c1: set<nat>, a1: map<nat, Answer>, c2: set<nat>, a2: map<nat, Answer>, t: nat)
    requires sh.Ok(|m0|) && Ledger(sh, m0, m1, c1, a1) && Ledger(sh, m1, m2, c2, a2)
    requires a1.Keys !! c2 && a2.Keys !! c1 && Separate(m0, a1 + a2) && t in a1 + a2
    ensures Landed(m0, m2, t, (a1 + a2)[t])
  {
    hide BufferClear, Landed, InStored, Layout.Ok, Ledger, Separate;
    KeysIn(sh, m0, m1, c1, a1);
    KeysIn(sh, m1, m2, c2, a2);
    ChainSeparate(sh, m0, m1, c1, a1, c2, a2);
    if t in a2 {
      LaterCell(sh, m0, m1, c1, a1, t, a2[t]);
    } else {
      LandedStays(sh, m0, m1, m2, c2, a2, t, a1[t]);
    }
  }

  /** Two stretches of work on different descriptors make one. */
  lemma LedgerChain(sh: Layout, m0: Ram, m1: Ram, m2: Ram, c1: set<nat>, a1: map<nat, Answer>, c2: set<nat>, a2: map<nat, Answer>)
    requires sh.Ok(|m0|) && Ledger(sh, m0, m1, c1, a1) && Ledger(sh, m1, m2, c2, a2)
    requires a1.Keys !! c2 && a2.Keys !! c1
    ensures Ledger(sh, m0, m2, c1 + c2, a1 + a2)
  {
    hide BufferClear, Landed, Outside, Layout.Ok, Separate, Ledger, InStored, Stored;
    KeysIn(sh, m0, m1, c1, a1);
    KeysIn(sh, m1, m2, c2, a2);
    forall j: nat | j < |m0| && Outside(m0, j, c1 + c2, a1 + a2)
      ensures m2[j] == m0[j]
    {
      ChainFrame(sh, m0, m1, m2, c1, a1, c2, a2, j);
    }
    forall t | t in a2
      ensures BufferClear(sh, m0, t)
    {
      LaterCell(sh, m0, m1, c1, a1, t, a2[t]);
    }
    if Separate(m0, a1 + a2) {
      forall t | t in a1 + a2
        ensures Landed(m0, m2, t, (a1 + a2)[t])
      {
        ChainLanded(sh, m0, m1, m2, c1, a1, c2, a2, t);
      }
    }
    LedgerIs(sh, m0, m2, c1 + c2, a1 + a2);
  }

  lemma LedgerIs(sh: Layout, m: Ram, n: Ram, cells: set<nat>, ans: map<nat, Answer>)
    requires |n| == |m| && cells <= sh.cells && ans.Keys <= cells && forall t :: t in ans ==> BufferClear(sh, m, t)
    requires forall j: nat :: j < |m| && Outside(m, j, cells, ans) ==> n[j] == m[j]
    requires Separate(m, ans) ==> forall t :: t in ans ==> Landed(m, n, t, ans[t])
    ensures Ledger(sh, m, n, cells, ans)
  {
    hide BufferClear, Landed, Outside, Separate;
  }

  lemma StBytes(m: Ram, pa: nat, v: Word, j: nat)
    requires j < |m| && !(pa <= j < pa + 4)
    ensures St(m, pa, v)[j] == m[j]
  {
  }

  lemma LedgerSt(sh: Layout, m: Ram, c: nat, k: nat, v: Word)
    requires sh.Ok(|m|) && c in sh.cells && k in {0, 4, 8, 12}
    ensures Ledger(sh, m, St(m, c + k, v), {c}, map[])
  {
    hide Layout.Ok, St, Landed;
    forall j: nat | j < |m| && Outside(m, j, {c}, map[])
      ensures St(m, c + k, v)[j] == m[j]
    {
      assert c in {c};
      StBytes(m, c + k, v, j);
    }
  }

  /** The bytes of RAM after a descriptor is carried out. */
  lemma CarriedBytes(m: Ram, td: nat, bytes: seq<Byte>, moved: nat, doneHead: Word, j: nat)
    requires j < |m| && !(td <= j < td + 16)
    ensures var cbp := Ld(m, td + 4);
      Carried(m, td, bytes, moved, doneHead)[j] == if cbp <= j < cbp + |bytes| then bytes[j - cbp] else m[j]
  {
    hide Ld, St;
    var cbp, be := Ld(m, td + 4), Ld(m, td + 12);
    var m1 := Blit(m, cbp, bytes);
    var w := if moved != 0 && cbp + moved <= be then cbp + moved else 0;
    var m2 := St(m1, td + 4, w);
    var m3 := St(m2, td, Ld(m2, td) % 0x1000_0000);
    StBytes(m1, td + 4, w, j);
    StBytes(m2, td, Ld(m2, td) % 0x1000_0000, j);
    StBytes(m3, td + 8, doneHead, j);
  }

  /** The three words written, in the source's order. */
  lemma ThreeWords(m: Ram, td: nat, w: Word, doneHead: Word)
    requires td + 16 <= |m|
    ensures var m2 := St(m, td + 4, w);
      var n := St(St(m2, td, Ld(m2, td) % 0x1000_0000), td + 8, doneHead);
      Ld(n, td) == Ld(m, td) % 0x1000_0000 && Ld(n, td + 4) == w
  {
    hide Ld, St;
    var m2 := St(m, td + 4, w);
    var code := Ld(m2, td) % 0x1000_0000;
    var m3 := St(m2, td, code);
    LdOther(m, td + 4, w, td);
    LdSt(m, td + 4, w);
    LdOther(m2, td, code, td + 4);
    LdSt(m2, td, code);
    LdOther(m3, td + 8, doneHead, td);
    LdOther(m3, td + 8, doneHead, td + 4);
  }

  lemma ClearOfItself(sh: Layout, m: Ram, td: nat, bytes: seq<Byte>)
    requires td in sh.cells && BufferClear(sh, m, td) && |bytes| <= Avail(m, td)
    ensures td + 4 <= Ld(m, td + 4) || Ld(m, td + 4) + |bytes| <= td
  {
    hide Ld;
  }

  /** The descriptor's own words afterwards. */
  lemma CarriedWords(sh: Layout, m: Ram, td: nat, bytes: seq<Byte>, moved: nat, doneHead: Word)
    requires sh.Ok(|m|) && td in sh.cells && BufferClear(sh, m, td) && |bytes| <= Avail(m, td)
    ensures var n, cbp, be := Carried(m, td, bytes, moved, doneHead), Ld(m, td + 4), Ld(m, td + 12);
      && Ld(n, td + 4) == (if moved > 0 && cbp + moved <= be then cbp + moved else 0)
      && Ld(n, td) == Ld(m, td) % 0x1000_0000 && Ld(n, td + 12) == be
  {
    hide Ld, St, Avail, Layout.Ok, Blit, BufferClear;
    CellInside(sh, |m|, td);
    ClearOfItself(sh, m, td, bytes);
    assert Ld(Carried(m, td, bytes, moved, doneHead), td + 12) == Ld(m, td + 12) by {
      hide Carried;
      CarriedFrame(sh, m, td, bytes, moved, doneHead, td, 12);
    }
    var cbp, be := Ld(m, td + 4), Ld(m, td + 12);
    LdBlit(m, cbp, bytes, td);
    ThreeWords(Blit(m, cbp, bytes), td, if moved != 0 && cbp + moved <= be then cbp + moved else 0, doneHead);
  }

  /** Carrying out one descriptor. */
  lemma LedgerOne(sh: Layout, m: Ram, td: nat, a: Answer, doneHead: Word)
    requires sh.Ok(|m|) && td in sh.cells && BufferClear(sh, m, td)
    ensures Ledger(sh, m, Carried(m, td, Stored(m, td, a), Moved(m, td, a), doneHead), {td}, map[td := a])
  {
    hide Layout.Ok, Ld, Carried, Stored, Moved, Landed, Outside, BufferClear, Separate;
    var n := Carried(m, td, Stored(m, td, a), Moved(m, td, a), doneHead);
    forall j: nat | j < |m| && Outside(m, j, {td}, map[td := a])
      ensures n[j] == m[j]
    {
      OutsideOne(m, j, td, a);
      CarriedBytes(m, td, Stored(m, td, a), Moved(m, td, a), doneHead, j);
    }
    LandedOne(sh, m, td, a, doneHead);
  }

  lemma LandedOne(sh: Layout, m: Ram, td: nat, a: Answer, doneHead: Word)
    requires sh.Ok(|m|) && td in sh.cells && BufferClear(sh, m, td)
    ensures Landed(m, Carried(m, td, Stored(m, td, a), Moved(m, td, a), doneHead), td, a)
  {
    hide Ld, Carried, Stored, Moved, Avail;
    var got, moved, cbp := Stored(m, td, a), Moved(m, td, a), Ld(m, td + 4);
    var n := Carried(m, td, got, moved, doneHead);
    StoredFits(m, td, a);
    CarriedWords(sh, m, td, got, moved, doneHead);
    forall j | 0 <= j < |got| && cbp + j < |n|
      ensures n[cbp + j] == got[j]
    {
      CarriedBytes(m, td, got, moved, doneHead, cbp + j);
    }
  }

  lemma OutsideOne(m: Ram, j: nat, td: nat, a: Answer)
    requires Outside(m, j, {td}, map[td := a])
    ensures !(td <= j < td + 16) && !InStored(m, td, a, j)
  {
    hide Ld, Stored, InStored;
    assert td in {td} && td in map[td := a];
  }
}
