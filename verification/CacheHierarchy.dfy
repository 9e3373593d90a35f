/** The write-back L1 over the backside L2 over the bus, with the decoded
    instruction-block buffer on top. Every operation is proved against the ghost
    field `flat`, the memory a machine without caches would have. */
module CacheHierarchy {
  import opened Units
  import opened Words
  import opened FlatMemory
  import opened FetchGeometry

  const L1_SETS: nat := 128
  const L1_WAYS: nat := 8
  const TAGS: nat := 0x10_0000 // BLOCKS / L1_SETS

  datatype DLine = DLine(b: Line, d: bool)
  datatype L2Line = L2Line(v: bool, d: bool, tag: Block, age: nat, b: Line)
  datatype FetchLine = FetchLine(base: nat, w: seq<nat>, row: seq<nat>)

  /** Abstract content of a cache: which way holds a block, its bytes, modified or not. */
  datatype Held = Held(way: nat, b: Line, d: bool)
  type Holding = map<Block, Held>

  function SetOf(b: Block): (s: nat)
    ensures s < L1_SETS
  {
    b % L1_SETS
  }

  /** (tag << 1) | valid */
  function TvOf(b: Block): (t: nat)
    ensures t < 2 * TAGS && t % 2 == 1
  {
    b / L1_SETS * 2 + 1
  }

  /** The block a valid way describes: the castout address. */
  function BlockAt(s: nat, tv: nat): (b: Block)
    requires s < L1_SETS && tv < 2 * TAGS
    ensures SetOf(b) == s
    ensures tv % 2 == 1 ==> TvOf(b) == tv
  {
    tv / 2 * L1_SETS + s
  }

  lemma BlockAtSetTv()
    ensures forall b: Block {:trigger SetOf(b)} :: BlockAt(SetOf(b), TvOf(b)) == b
  {
  }

  function FetchSlot(b: Block): (s: nat)
    ensures s < FETCH_LINES
  {
    SlotOfBlock(b)
  }

  /** The k-th instruction word of a block. */
  function WordOf(l: Line, k: nat): nat
    requires k < 8
  {
    BigEndian(l[4 * k..4 * k + 4])
  }

  /** It is what a four-byte read at the word's own address gives. */
  lemma WordIsRead(m: Memory, pa: Addr)
    ensures WordOf(m[BlockOf(pa)], pa / 4 % 8) == BigEndian(GetBytes(m, pa - pa % 4, 4))
  {
    hide BigEndian, GetBytes;
    var a: Addr := pa - pa % 4;
    WordPlace(pa);
    GetBytesInBlock(m, a, 4);
  }

  lemma WordPlace(pa: Addr)
    ensures BlockOf(pa - pa % 4) == BlockOf(pa) && (pa - pa % 4) % 32 == 4 * (pa / 4 % 8) && pa / 4 % 8 == pa % 32 / 4
  {
    var b, k, i := pa / 32, pa % 32 / 4, pa % 32 % 4;
    assert pa == 32 * b + 4 * k + i;
    DivUnique(pa, 4, 8 * b + k, i);
    DivUnique(8 * b + k, 8, b, k);
    DivUnique(32 * b + 4 * k, 32, b, 4 * k);
  }

  ghost predicate Dirty(h: Holding, b: Block) {
    b in h && h[b].d
  }

  /** What each level may hold of block b: the L1 is always current, an L2 line
      lags only behind a modified L1 line, a clean L2 line is what memory says,
      and memory lags only behind a modified line. */
  ghost predicate CoherentAt(h1: Holding, h2: Holding, mem: Memory, flat: Memory, b: Block) {
    && (b in h1 ==> h1[b].b == flat[b])
    && (b in h2 ==> h2[b].b == flat[b] || Dirty(h1, b))
    && (b in h2 && !h2[b].d ==> h2[b].b == mem[b])
    && (mem[b] == flat[b] || Dirty(h1, b) || Dirty(h2, b))
  }

  ghost predicate Coherent(h1: Holding, h2: Holding, mem: Memory, flat: Memory) {
    forall b: Block :: CoherentAt(h1, h2, mem, flat, b)
  }

  /** The machine's own precedence: L1 if it hits, else L2 if it hits, else memory. */
  ghost function Lookup(h1: Holding, h2: Holding, mem: Memory, b: Block): Line {
    if b in h1 then h1[b].b else if b in h2 then h2[b].b else mem[b]
  }

  /** In a coherent hierarchy that precedence yields the flat memory, and a line
      that is not modified equals the level below it. */
  lemma LookupIsFlat(h1: Holding, h2: Holding, mem: Memory, flat: Memory, b: Block)
    requires Coherent(h1, h2, mem, flat)
    ensures Lookup(h1, h2, mem, b) == flat[b]
    ensures b in h1 && !h1[b].d ==> h1[b].b == Lookup(map[], h2, mem, b)
    ensures b in h2 && !h2[b].d ==> h2[b].b == mem[b]
  {
    assert CoherentAt(h1, h2, mem, flat, b);
  }

  /** Dropping an L2 line is safe once memory has it. */
  lemma EvictKeepsCoherent(h1: Holding, h2: Holding, mem: Memory, flat: Memory, c: Block)
    requires Coherent(h1, h2, mem, flat) && c in h2
    ensures Coherent(h1, h2 - {c}, if h2[c].d then mem[c := h2[c].b] else mem, flat)
  {
    var mem', h2' := if h2[c].d then mem[c := h2[c].b] else mem, h2 - {c};
    forall b: Block
      ensures CoherentAt(h1, h2', mem', flat, b)
    {
      assert CoherentAt(h1, h2, mem, flat, b);
    }
  }

  /** Giving the L2 the current bytes is safe if it keeps them modified or memory has them. */
  lemma InstallKeepsCoherent(h1: Holding, h2: Holding, mem: Memory, flat: Memory, c: Block, e: Held)
    requires Coherent(h1, h2, mem, flat) && e.b == flat[c] && (e.d || mem[c] == flat[c])
    ensures Coherent(h1, h2[c := e], mem, flat)
  {
    var h2' := h2[c := e];
    forall b: Block
      ensures CoherentAt(h1, h2', mem, flat, b)
    {
      assert CoherentAt(h1, h2, mem, flat, b);
    }
  }

  /** An L1 line may be dropped or become clean once the level below is current. */
  lemma CleanKeepsCoherent(h1: Holding, h2: Holding, mem: Memory, flat: Memory, c: Block)
    requires Coherent(h1, h2, mem, flat) && c in h1
    requires h1[c].d ==> Lookup(map[], h2, mem, c) == flat[c]
    requires h1[c].d && c in h2 && !h2[c].d ==> mem[c] == flat[c]
    ensures Coherent(h1[c := h1[c].(d := false)], h2, mem, flat)
    ensures Coherent(h1 - {c}, h2, mem, flat)
  {
    var clean, gone := h1[c := h1[c].(d := false)], h1 - {c};
    forall b: Block
      ensures CoherentAt(clean, h2, mem, flat, b)
    {
      assert CoherentAt(h1, h2, mem, flat, b);
    }
    forall b: Block
      ensures CoherentAt(gone, h2, mem, flat, b)
    {
      assert CoherentAt(h1, h2, mem, flat, b);
    }
  }

  /** Writing the current bytes to memory is safe when any L2 copy dies with it. */
  lemma PushKeepsCoherent(h1: Holding, h2: Holding, mem: Memory, flat: Memory, c: Block)
    requires Coherent(h1, h2, mem, flat)
    ensures Coherent(h1, h2 - {c}, mem[c := flat[c]], flat)
  {
    var h2', mem' := h2 - {c}, mem[c := flat[c]];
    forall b: Block
      ensures CoherentAt(h1, h2', mem', flat, b)
    {
      assert CoherentAt(h1, h2, mem, flat, b);
    }
  }

  /** A fill copies the current bytes up. */
  lemma FillKeepsCoherent(h1: Holding, h2: Holding, mem: Memory, flat: Memory, c: Block, e: Held)
    requires Coherent(h1, h2, mem, flat) && c !in h1 && e.b == flat[c] && !e.d
    ensures Coherent(h1[c := e], h2, mem, flat)
  {
    var h1' := h1[c := e];
    forall b: Block
      ensures CoherentAt(h1', h2, mem, flat, b)
    {
      assert CoherentAt(h1, h2, mem, flat, b);
    }
  }

  /** A store makes the L1 line the one modified, current copy. */
  lemma StoreKeepsCoherent(h1: Holding, h2: Holding, mem: Memory, flat: Memory, c: Block, e: Held)
    requires Coherent(h1, h2, mem, flat) && e.d
    ensures Coherent(h1[c := e], h2, mem, flat[c := e.b])
  {
    var h1', flat' := h1[c := e], flat[c := e.b];
    forall b: Block
      ensures CoherentAt(h1', h2, mem, flat', b)
    {
      assert CoherentAt(h1, h2, mem, flat, b);
    }
  }

  /** A modified L2 line that is pushed stays, clean, once memory has its bytes. */
  lemma L2PushKeepsCoherent(h1: Holding, h2: Holding, mem: Memory, flat: Memory, c: Block)
    requires Coherent(h1, h2, mem, flat) && c in h2 && !Dirty(h1, c)
    ensures Coherent(h1, h2[c := h2[c].(d := false)], mem[c := h2[c].b], flat)
    ensures h2[c].b == flat[c]
  {
    var h2', mem' := h2[c := h2[c].(d := false)], mem[c := h2[c].b];
    assert CoherentAt(h1, h2, mem, flat, c);
    forall b: Block
      ensures CoherentAt(h1, h2', mem', flat, b)
    {
      assert CoherentAt(h1, h2, mem, flat, b);
    }
  }

  /** A bus master may write a block no cache holds. */
  lemma DmaKeepsCoherent(h1: Holding, h2: Holding, mem: Memory, flat: Memory, c: Block, bytes: Line)
    requires Coherent(h1, h2, mem, flat) && c !in h1 && c !in h2
    ensures Coherent(h1, h2, mem[c := bytes], flat[c := bytes])
  {
    var mem', flat' := mem[c := bytes], flat[c := bytes];
    forall b: Block
      ensures CoherentAt(h1, h2, mem', flat', b)
    {
      assert CoherentAt(h1, h2, mem, flat, b);
    }
  }

  class Hierarchy {
    const l2Sets: nat
    const l2On: bool
    const decode: nat -> nat
    const isMemory: Block -> bool
    const tv: array2<nat>
    const age: array2<nat>
    const l1d: array2<DLine>
    const l2: array2<L2Line>
    const fetch: array<FetchLine>
    var l1Clock: nat
    var l2Clock: nat
    var l2ts: bool
    var mem: Memory
    ghost var h1: Holding
    ghost var h2: Holding
    ghost var flat: Memory

    ghost predicate Shape() {
      && tv != age
      && tv.Length0 == age.Length0 == l1d.Length0 == L1_SETS
      && tv.Length1 == age.Length1 == l1d.Length1 == L1_WAYS
      && l2Sets > 0 && l2.Length0 == l2Sets && l2.Length1 == 2
      && fetch.Length == FETCH_LINES
    }

    function L2Set(b: Block): (s: nat)
      requires l2Sets > 0
      ensures s < l2Sets
    {
      b % l2Sets
    }

    /** The L1 arrays hold exactly h1; in particular a block sits in one way. */
    ghost predicate Rep1()
      reads `h1, tv, l1d
    {
      && Shape()
      && (forall b: Block :: b in h1 ==>
            && h1[b].way < L1_WAYS
            && tv[SetOf(b), h1[b].way] == TvOf(b)
            && l1d[SetOf(b), h1[b].way] == DLine(h1[b].b, h1[b].d))
      && (forall s, w :: 0 <= s < L1_SETS && 0 <= w < L1_WAYS ==>
            && tv[s, w] < 2 * TAGS
            && (tv[s, w] % 2 == 1 ==> BlockAt(s, tv[s, w]) in h1 && h1[BlockAt(s, tv[s, w])].way == w))
    }

    /** The L2 array holds exactly h2. */
    ghost predicate Rep2()
      reads `h2, l2
    {
      && Shape()
      && (forall b: Block :: b in h2 ==>
            && h2[b].way < 2
            && var e := l2[L2Set(b), h2[b].way];
               e.v && e.tag == b && e.b == h2[b].b && e.d == h2[b].d)
      && (forall s, w :: 0 <= s < l2Sets && 0 <= w < 2 && l2[s, w].v ==>
            && l2On && L2Set(l2[s, w].tag) == s
            && l2[s, w].tag in h2 && h2[l2[s, w].tag].way == w)
    }

    ghost predicate FetchHolds(i: nat, b: Block)
      requires Shape() && i < FETCH_LINES
      reads `flat, fetch
    {
      && FetchSlot(b) == i
      && |fetch[i].w| == 8 && |fetch[i].row| == 8
      && forall k :: 0 <= k < 8 ==> fetch[i].w[k] == WordOf(flat[b], k) && fetch[i].row[k] == decode(fetch[i].w[k])
    }

    /** Every live fetch line is the current contents of its block, decoded. */
    ghost predicate Fetched()
      reads `flat, fetch
    {
      && Shape()
      && forall i :: 0 <= i < FETCH_LINES && fetch[i].base != NO_BASE ==>
           fetch[i].base < ADDRESSES && fetch[i].base % 32 == 0 && FetchHolds(i, BlockOf(fetch[i].base))
    }

    ghost predicate Valid()
      reads this, tv, l1d, l2, fetch
    {
      Shape() && Rep1() && Rep2() && Fetched() && Coherent(h1, h2, mem, flat)
    }

    ghost predicate NoFetch(b: Block)
      requires Shape()
      reads fetch
    {
      fetch[FetchSlot(b)].base != 32 * b
    }

    /** Fetch lines are only ever dropped, never conjured, by a data operation. */
    twostate predicate FetchShrinks()
      requires Shape()
      reads fetch
    {
      forall c: Block :: old(NoFetch(c)) ==> NoFetch(c)
    }

    constructor (m: Memory, sets: nat, on: bool, dec: nat -> nat, ram: Block -> bool)
      requires sets > 0
      ensures Valid() && flat == m && mem == m && l2On == on && decode == dec
      ensures fresh(tv) && fresh(age) && fresh(l1d) && fresh(l2) && fresh(fetch)
    {
      l2Sets, l2On, decode, isMemory := sets, on, dec, ram;
      mem, flat, h1, h2 := m, m, map[], map[];
      l1Clock, l2Clock, l2ts := 0, 0, false;
      tv := new nat[L1_SETS, L1_WAYS]((_, _) => 0);
      age := new nat[L1_SETS, L1_WAYS]((_, _) => 0);
      l1d := new DLine[L1_SETS, L1_WAYS]((_, _) => DLine(ZeroLine(), false));
      l2 := new L2Line[sets, 2]((_, _) => L2Line(false, false, 0, 0, ZeroLine()));
      fetch := new FetchLine[FETCH_LINES](_ => FetchLine(NO_BASE, [], []));
      new;
      assert Shape();
    }

    // ---- the fetch buffer's invalidation quantum ---------------------------

    method FetchDropAt(b: Block)
      requires Fetched()
      modifies fetch
      ensures Fetched() && NoFetch(b) && FetchShrinks()
    {
      var s := FetchSlot(b);
      if fetch[s].base == 32 * b {
        fetch[s] := fetch[s].(base := NO_BASE);
      }
    }

    method FetchDrop()
      requires Fetched()
      modifies fetch
      ensures Fetched()
      ensures forall c: Block :: NoFetch(c)
    {
      for i := 0 to FETCH_LINES
        invariant forall k :: 0 <= k < i ==> fetch[k].base == NO_BASE
        invariant Fetched()
      {
        fetch[i] := fetch[i].(base := NO_BASE);
      }
    }

    // ---- the bus and the L2 ------------------------------------------------

    method BusWriteLine(b: Block, bytes: Line)
      requires Fetched()
      modifies fetch, `mem
      ensures Fetched() && FetchShrinks()
      ensures mem == old(mem)[b := bytes]
    {
      FetchDropAt(b);
      mem := mem[b := bytes];
    }

    /** The L2 way holding the block, or 2. */
    method L2Way(b: Block) returns (w: nat)
      requires Rep2()
      ensures if b in h2 then w == h2[b].way && w < 2 else w == 2
    {
      var s := L2Set(b);
      w := 0;
      while w < 2
        invariant w <= 2 && forall k :: 0 <= k < w ==> !(l2[s, k].v && l2[s, k].tag == b)
      {
        if l2[s, w].v && l2[s, w].tag == b {
          return;
        }
        w := w + 1;
      }
    }

    /** l2Find: as L2Way, and a hit is stamped most recently used. */
    method L2Find(b: Block) returns (w: nat)
      requires Rep2()
      modifies l2, `l2Clock
      ensures Rep2()
      ensures if b in h2 then w == h2[b].way && w < 2 else w == 2
    {
      if !l2On {
        w := 2;
        return;
      }
      w := L2Way(b);
      if w < 2 {
        l2Clock := (l2Clock + 1) % 0x1_0000_0000;
        l2[L2Set(b), w] := l2[L2Set(b), w].(age := l2Clock);
      }
    }

    /** Marks one held line invalid or clean in place. */
    method L2Mark(b: Block, w: nat, v: bool, d: bool)
      requires Rep2() && b in h2 && h2[b].way == w
      modifies l2, `h2
      ensures Rep2() && l2[L2Set(b), w].v == v
      ensures h2 == if v then old(h2)[b := old(h2)[b].(d := d)] else old(h2) - {b}
    {
      var s := L2Set(b);
      l2[s, w] := l2[s, w].(v := v, d := d);
      h2 := if v then h2[b := h2[b].(d := d)] else h2 - {b};
    }

    /** Puts a block into an empty way, or refreshes the way that holds it. */
    method L2Place(b: Block, w: nat, bytes: Line, dirty: bool)
      requires Rep2() && l2On && w < 2
      requires if b in h2 then h2[b].way == w else !l2[L2Set(b), w].v
      modifies l2, `h2, `l2Clock
      ensures Rep2()
      ensures h2 == old(h2)[b := Held(w, bytes, dirty)]
    {
      l2Clock := (l2Clock + 1) % 0x1_0000_0000;
      l2[L2Set(b), w] := L2Line(true, dirty, b, l2Clock, bytes);
      h2 := h2[b := Held(w, bytes, dirty)];
    }

    /** What Rep2 says of one valid way. */
    lemma L2Entry(s: nat, w: nat)
      requires Rep2() && s < l2Sets && w < 2 && l2[s, w].v
      ensures L2Set(l2[s, w].tag) == s
      ensures l2[s, w].tag in h2 && h2[l2[s, w].tag] == Held(w, l2[s, w].b, l2[s, w].d)
    {
    }

    lemma L2Off()
      requires Rep2() && !l2On
      ensures h2 == map[]
    {
      assert forall b: Block :: b !in h2;
    }

    lemma L2Held(b: Block)
      requires Rep2() && b in h2
      ensures h2[b].way < 2 && l2[L2Set(b), h2[b].way].b == h2[b].b && l2[L2Set(b), h2[b].way].d == h2[b].d
    {
    }

    /** Casts out one valid way. */
    method L2Castout(s: nat, w: nat)
      requires Valid() && s < l2Sets && w < 2 && l2[s, w].v
      modifies l2, fetch, `mem, `h2
      ensures Valid() && FetchShrinks() && !l2[s, w].v
      ensures h2 == old(h2) - {old(l2[s, w].tag)}
      ensures forall c: Block :: c != old(l2[s, w].tag) ==> mem[c] == old(mem[c])
    {
      hide Rep1, Rep2, Fetched, Coherent, L2Set, NoFetch;
      L2Entry(s, w);
      var e := l2[s, w];
      EvictKeepsCoherent(h1, h2, mem, flat, e.tag);
      if e.d {
        BusWriteLine(e.tag, e.b);
      }
      L2Mark(e.tag, w, false, false);
    }

    /** The way an allocation takes: an invalid one, else the older, cast out. */
    method L2Victim(b: Block) returns (w: nat)
      requires Valid() && l2On && b !in h2
      modifies l2, fetch, `mem, `h2
      ensures Valid() && FetchShrinks() && mem[b] == old(mem[b])
      ensures b !in h2 && w < 2 && !l2[L2Set(b), w].v
      ensures old(l2[L2Set(b), w].v) ==>
        old(l2[L2Set(b), 1 - w].v) && old(l2[L2Set(b), w].age) <= old(l2[L2Set(b), 1 - w].age)
    {
      hide Rep1, Rep2, Fetched, Coherent, L2Set, NoFetch;
      var s := L2Set(b);
      w := if !l2[s, 0].v then 0 else if !l2[s, 1].v then 1 else if l2[s, 0].age <= l2[s, 1].age then 0 else 1;
      if l2[s, w].v {
        L2Entry(s, w);
        L2Castout(s, w);
      }
    }

    /** The way an install goes to, and whether the line ends up dirty. */
    method L2Slot(b: Block, dirty: bool) returns (w: nat, d: bool)
      requires Valid() && l2On
      modifies l2, fetch, `mem, `h2
      ensures Valid() && FetchShrinks() && mem[b] == old(mem[b])
      ensures w < 2 && (d <==> dirty || Dirty(old(h2), b))
      ensures if b in h2 then h2[b].way == w else !l2[L2Set(b), w].v
      ensures b in h2 <==> b in old(h2)
    {
      hide Rep1, Rep2, Fetched, Coherent, L2Set, NoFetch;
      w := L2Way(b);
      d := dirty;
      if w < 2 {
        L2Held(b);
        d := dirty || l2[L2Set(b), w].d;
      } else {
        w := L2Victim(b);
      }
    }

    /** l2Install: allocate or refresh the block. */
    method L2Install(b: Block, bytes: Line, dirty: bool)
      requires Valid() && bytes == flat[b] && (dirty || bytes == mem[b])
      modifies l2, fetch, `mem, `h2, `l2Clock
      ensures Valid() && FetchShrinks() && mem[b] == old(mem[b])
      ensures l2On ==> b in h2 && h2[b].b == bytes && (h2[b].d <==> dirty || Dirty(old(h2), b))
      ensures !l2On ==> mem == old(mem)
    {
      hide Rep1, Rep2, Fetched, Coherent, L2Set, NoFetch;
      if !l2On {
        return;
      }
      if dirty {
        FetchDropAt(b);
      }
      var w, d := L2Slot(b, dirty);
      InstallKeepsCoherent(h1, h2, mem, flat, b, Held(w, bytes, d));
      L2Place(b, w, bytes, d);
    }

    method L2Invalidate(b: Block)
      requires Rep2() && Fetched()
      modifies l2, fetch, `h2
      ensures Rep2() && Fetched() && FetchShrinks()
      ensures h2 == old(h2) - {b}
    {
      FetchDropAt(b);
      var w := L2Way(b);
      if w < 2 {
        L2Mark(b, w, false, l2[L2Set(b), w].d);
      }
    }

    // ---- the L1 ------------------------------------------------------------

    /** The L1 way holding the block, or -1; leaves the ages alone. */
    method LineWayQuiet(b: Block) returns (w: int)
      requires Rep1()
      ensures if b in h1 then w == h1[b].way && 0 <= w < L1_WAYS else w == -1
    {
      var s := SetOf(b);
      BlockAtSetTv();
      w := 0;
      while w < L1_WAYS
        invariant 0 <= w <= L1_WAYS && forall k :: 0 <= k < w ==> tv[s, k] != TvOf(b)
      {
        if tv[s, w] == TvOf(b) {
          return;
        }
        w := w + 1;
      }
      w := -1;
    }

    method Stamp(s: nat, w: nat)
      requires Rep1() && s < L1_SETS && w < L1_WAYS
      modifies age, `l1Clock
      ensures Rep1()
    {
      l1Clock := (l1Clock + 1) % 0x1_0000_0000;
      age[s, w] := l1Clock;
    }

    method LineWay(b: Block) returns (w: int)
      requires Rep1()
      modifies age, `l1Clock
      ensures Rep1()
      ensures if b in h1 then w == h1[b].way && 0 <= w < L1_WAYS else w == -1
    {
      hide Rep1, SetOf;
      w := LineWayQuiet(b);
      if w >= 0 {
        Stamp(SetOf(b), w);
      }
    }

    method LineAt(b: Block, w: nat) returns (e: DLine)
      requires Rep1() && b in h1 && h1[b].way == w
      ensures e == DLine(h1[b].b, h1[b].d)
    {
      e := l1d[SetOf(b), w];
    }

    /** Rewrites the bytes and dirty bit of a held line. */
    method L1Update(b: Block, w: nat, bytes: Line, d: bool)
      requires Rep1() && b in h1 && h1[b].way == w
      modifies l1d, `h1
      ensures Rep1()
      ensures h1 == old(h1)[b := Held(w, bytes, d)]
    {
      BlockAtSetTv();
      hide SetOf, TvOf, BlockAt;
      l1d[SetOf(b), w] := DLine(bytes, d);
      h1 := h1[b := Held(w, bytes, d)];
    }

    method L1Drop(b: Block, w: nat)
      requires Rep1() && b in h1 && h1[b].way == w
      modifies tv, `h1
      ensures Rep1() && w < L1_WAYS && tv[SetOf(b), w] == 0
      ensures h1 == old(h1) - {b}
    {
      BlockAtSetTv();
      hide SetOf, TvOf, BlockAt;
      tv[SetOf(b), w] := 0;
      h1 := h1 - {b};
    }

    method L1Place(b: Block, w: nat, bytes: Line, d: bool)
      requires Rep1() && b !in h1 && w < L1_WAYS && tv[SetOf(b), w] % 2 == 0
      modifies tv, l1d, `h1
      ensures Rep1()
      ensures h1 == old(h1)[b := Held(w, bytes, d)]
    {
      BlockAtSetTv();
      hide SetOf, TvOf, BlockAt;
      l1d[SetOf(b), w] := DLine(bytes, d);
      tv[SetOf(b), w] := TvOf(b);
      h1 := h1[b := Held(w, bytes, d)];
    }

    /** Replacement castout: into an enabled L2, else memory. */
    method LineCastout(b: Block, w: nat)
      requires Valid() && b in h1 && h1[b].way == w && h1[b].d
      modifies l1d, l2, fetch, `mem, `h1, `h2, `l2Clock
      ensures Valid() && FetchShrinks()
      ensures h1 == old(h1)[b := old(h1)[b].(d := false)]
      ensures l2On ==> Dirty(h2, b) && h2[b].b == flat[b]
    {
      hide Rep1, Rep2, Fetched, Coherent, L2Set, NoFetch, SetOf;
      var e := LineAt(b, w);
      LookupIsFlat(h1, h2, mem, flat, b);
      if l2On {
        L2Install(b, e.b, true);
      } else {
        PushKeepsCoherent(h1, h2, mem, flat, b);
        L2Off();
        assert h2 - {b} == h2;
        BusWriteLine(b, e.b);
      }
      CleanKeepsCoherent(h1, h2, mem, flat, b);
      L1Update(b, w, e.b, false);
    }

    /** A modified line is written to memory, and any L2 copy dies. */
    method PushToMemory(b: Block, w: nat)
      requires Valid() && b in h1 && h1[b].way == w && h1[b].d
      modifies l1d, l2, fetch, `mem, `h1, `h2
      ensures Valid() && FetchShrinks()
      ensures h1 == old(h1)[b := old(h1)[b].(d := false)]
      ensures mem == old(mem)[b := flat[b]] && h2 == old(h2) - {b}
    {
      hide Rep1, Rep2, Fetched, Coherent, L2Set, NoFetch, SetOf;
      var e := LineAt(b, w);
      LookupIsFlat(h1, h2, mem, flat, b);
      PushKeepsCoherent(h1, h2, mem, flat, b);
      BusWriteLine(b, e.b);
      L2Invalidate(b);
      CleanKeepsCoherent(h1, h2, mem, flat, b);
      L1Update(b, w, e.b, false);
    }

    /** dcbf/dcbst push: into the L2 alone under L2CR[L2TS], else to memory,
        killing any L2 copy. */
    method LinePush(b: Block, w: nat)
      requires Valid() && b in h1 && h1[b].way == w && h1[b].d
      modifies l1d, l2, fetch, `mem, `h1, `h2, `l2Clock
      ensures Valid() && FetchShrinks()
      ensures h1 == old(h1)[b := old(h1)[b].(d := false)]
      ensures if l2On && l2ts then Dirty(h2, b) && h2[b].b == flat[b] else mem[b] == flat[b] && b !in h2
    {
      hide Rep1, Rep2, Fetched, Coherent, L2Set, NoFetch, SetOf;
      if l2On && l2ts {
        LineCastout(b, w);
      } else {
        PushToMemory(b, w);
      }
    }

    /** The way a fill lands in: the first invalid one, else the least recently
        used, cast out if it is dirty. */
    method LineVictim(b: Block) returns (w: nat)
      requires Valid() && b !in h1
      modifies tv, l1d, l2, fetch, `mem, `h1, `h2, `l2Clock
      ensures Valid() && FetchShrinks() && b !in h1
      ensures w < L1_WAYS && tv[SetOf(b), w] % 2 == 0
      ensures old(tv[SetOf(b), w]) % 2 == 0 ==> forall j :: 0 <= j < w ==> old(tv[SetOf(b), j]) % 2 == 1
      ensures old(tv[SetOf(b), w]) % 2 == 1 ==>
        forall j :: 0 <= j < L1_WAYS ==> old(tv[SetOf(b), j]) % 2 == 1 && age[SetOf(b), w] <= age[SetOf(b), j]
    {
      hide Rep1, Rep2, Fetched, Coherent, L2Set, NoFetch, SetOf, BlockAt;
      var s := SetOf(b);
      w := 0;
      for k := 0 to L1_WAYS
        invariant w < L1_WAYS
        invariant forall j :: 0 <= j < k ==> tv[s, j] % 2 == 1 && age[s, w] <= age[s, j]
      {
        if tv[s, k] % 2 == 0 {
          return k;
        }
        if age[s, k] < age[s, w] {
          w := k;
        }
      }
      L1Entry(s, w);
      EvictLine(BlockAt(s, tv[s, w]), w);
    }

    /** Empties a way, casting its line out first if it is dirty. */
    method EvictLine(c: Block, w: nat)
      requires Valid() && c in h1 && h1[c].way == w
      modifies tv, l1d, l2, fetch, `mem, `h1, `h2, `l2Clock
      ensures Valid() && FetchShrinks()
      ensures h1 == old(h1) - {c} && w < L1_WAYS && tv[SetOf(c), w] == 0
    {
      hide Rep1, Rep2, Fetched, Coherent, L2Set, NoFetch, SetOf;
      var e := LineAt(c, w);
      if e.d {
        LineCastout(c, w);
      }
      DropClean(c, w);
    }

    /** A line that is not modified can simply be forgotten. */
    method DropClean(b: Block, w: nat)
      requires Valid() && b in h1 && h1[b].way == w && !h1[b].d
      modifies tv, `h1
      ensures Valid() && h1 == old(h1) - {b} && w < L1_WAYS && tv[SetOf(b), w] == 0
    {
      hide Rep1, Rep2, Fetched, Coherent, L2Set, NoFetch, SetOf;
      CleanKeepsCoherent(h1, h2, mem, flat, b);
      L1Drop(b, w);
    }

    /** Reads the block up from the L2, else the bus; a bus reload also
        allocates clean in the L2. */
    method LineFill(b: Block, w: nat)
      requires Valid() && b !in h1 && w < L1_WAYS && tv[SetOf(b), w] % 2 == 0
      modifies tv, l1d, l2, fetch, `mem, `h1, `h2, `l2Clock
      ensures Valid() && FetchShrinks()
      ensures h1 == old(h1)[b := Held(w, flat[b], false)]
    {
      hide Rep1, Rep2, Fetched, Coherent, NoFetch, SetOf;
      LookupIsFlat(h1, h2, mem, flat, b);
      var bytes: Line;
      var k := L2Find(b);
      if k < 2 {
        L2Held(b);
        bytes := l2[L2Set(b), k].b;
      } else {
        bytes := mem[b];
        L2Install(b, bytes, false);
      }
      FillKeepsCoherent(h1, h2, mem, flat, b, Held(w, bytes, false));
      L1Place(b, w, bytes, false);
    }

    /** The line for an access: a hit, or a victim refilled. */
    method Acquire(b: Block) returns (w: nat)
      requires Valid()
      modifies tv, age, l1d, l2, fetch, `mem, `h1, `h2, `l1Clock, `l2Clock
      ensures Valid() && FetchShrinks()
      ensures b in h1 && h1[b].way == w && h1[b].b == flat[b]
    {
      hide Rep1, Rep2, Fetched, Coherent, L2Set, NoFetch, SetOf;
      LookupIsFlat(h1, h2, mem, flat, b);
      var k := LineWay(b);
      if k < 0 {
        w := LineVictim(b);
        LineFill(b, w);
        Stamp(SetOf(b), w);
      } else {
        w := k;
      }
    }

    // ---- the processor's accesses ------------------------------------------

    /** An access inside one block. */
    method ReadInBlock(pa: Addr, len: nat) returns (v: nat)
      requires Valid() && 1 <= len && pa % 32 + len <= 32
      modifies tv, age, l1d, l2, fetch, `mem, `h1, `h2, `l1Clock, `l2Clock
      ensures Valid() && FetchShrinks()
      ensures v == BigEndian(GetBytes(flat, pa, len))
    {
      hide Rep1, Rep2, Fetched, Coherent, L2Set, NoFetch, SetOf;
      var b, o := BlockOf(pa), pa % 32;
      var w := Acquire(b);
      var e := LineAt(b, w);
      v := LineLoadBE(e.b, o, len);
      GetBytesInBlock(flat, pa, len);
    }

    /** memRead on a cacheable, write-back address. */
    method MemRead(pa: Addr, len: nat) returns (v: nat)
      requires Valid() && 1 <= len <= 8
      modifies tv, age, l1d, l2, fetch, `mem, `h1, `h2, `l1Clock, `l2Clock
      ensures Valid() && FetchShrinks()
      ensures v == BigEndian(GetBytes(flat, pa, len))
    {
      hide Rep1, Rep2, Fetched, Coherent, L2Set, NoFetch, SetOf, GetBytes, BigEndian;
      if pa % 32 + len <= 32 {
        v := ReadInBlock(pa, len);
        return;
      }
      v := 0; // crosses a block boundary: split
      EmptyRead(flat, pa);
      for i := 0 to len
        invariant Valid() && FetchShrinks()
        invariant v == BigEndian(GetBytes(flat, pa, i))
      {
        var x := ReadInBlock(Plus(pa, i), 1);
        OneByte(flat, Plus(pa, i));
        GetBytesAppend(flat, pa, i);
        BigEndianAppend(GetBytes(flat, pa, i), x);
        v := v * 256 + x;
      }
    }

    /** Merges a store into a held line, which becomes the one current copy. */
    method StoreHeld(b: Block, w: nat, bytes: Line)
      requires Valid() && b in h1 && h1[b].way == w && NoFetch(b)
      modifies l1d, `h1, `flat
      ensures Valid() && flat == old(flat)[b := bytes]
    {
      hide Rep1, Rep2, Fetched, Coherent, L2Set, NoFetch, SetOf;
      StoreKeepsCoherent(h1, h2, mem, flat, b, Held(w, bytes, true));
      L1Update(b, w, bytes, true);
      SetFlat(b, bytes);
    }

    method WriteInBlock(pa: Addr, len: nat, v: nat)
      requires Valid() && 1 <= len && pa % 32 + len <= 32 && NoFetch(BlockOf(pa))
      modifies tv, age, l1d, l2, fetch, `mem, `h1, `h2, `flat, `l1Clock, `l2Clock
      ensures Valid() && FetchShrinks()
      ensures flat == PutBytes(old(flat), pa, ToBytes(v, len))
    {
      hide Rep1, Rep2, Fetched, Coherent, L2Set, NoFetch, SetOf, ToBytes;
      var b, o := BlockOf(pa), pa % 32;
      var w := Acquire(b);
      var e := LineAt(b, w);
      var bytes := LineStoreBE(e.b, o, len, v);
      PutBytesInBlock(flat, pa, ToBytes(v, len));
      StoreHeld(b, w, bytes);
    }

    /** The ghost memory moves; a block no fetch line holds may change freely. */
    ghost method SetFlat(b: Block, bytes: Line)
      requires Fetched() && NoFetch(b)
      modifies `flat
      ensures Fetched() && flat == old(flat)[b := bytes]
    {
      flat := flat[b := bytes];
      forall i | 0 <= i < FETCH_LINES && fetch[i].base != NO_BASE
        ensures BlockOf(fetch[i].base) != b
      {
        assert old(FetchHolds(i, BlockOf(fetch[i].base)));
      }
    }

    /** memWrite on a cacheable, write-back address. */
    method MemWrite(pa: Addr, len: nat, v: nat)
      requires Valid() && 1 <= len <= 8
      modifies tv, age, l1d, l2, fetch, `mem, `h1, `h2, `flat, `l1Clock, `l2Clock
      ensures Valid() && FetchShrinks()
      ensures flat == PutBytes(old(flat), pa, ToBytes(v, len))
      ensures NoFetch(BlockOf(pa)) && NoFetch(BlockOf(Plus(pa, len - 1)))
    {
      hide Rep1, Rep2, Fetched, Coherent, L2Set, NoFetch, SetOf, ToBytes, Pow256, PutBytes;
      FetchDropAt(BlockOf(pa));
      if BlockOf(pa) != BlockOf(Plus(pa, len - 1)) {
        FetchDropAt(BlockOf(Plus(pa, len - 1)));
      }
      if pa % 32 + len <= 32 {
        WriteInBlock(pa, len, v);
      } else {
        WriteSplit(pa, len, v);
      }
    }

    /** A store that crosses a block boundary goes byte by byte. */
    method WriteSplit(pa: Addr, len: nat, v: nat)
      requires Valid() && 1 <= len <= 8
      modifies tv, age, l1d, l2, fetch, `mem, `h1, `h2, `flat, `l1Clock, `l2Clock
      ensures Valid() && FetchShrinks()
      ensures flat == PutBytes(old(flat), pa, ToBytes(v, len))
    {
      hide Rep1, Rep2, Fetched, Coherent, L2Set, NoFetch, SetOf, ToBytes, Pow256, PutBytes, PutByte, BlockOf;
      ghost var bytes := ToBytes(v, len);
      EmptyWrite(flat, pa, bytes[..0]);
      for i := 0 to len
        invariant Valid() && FetchShrinks()
        invariant flat == PutBytes(old(flat), pa, bytes[..i])
      {
        var at, x := Plus(pa, i), v / Pow256(len - 1 - i) % 256;
        ToBytesAt(v, len, i);
        OneByteWritten(flat, at, x);
        PutBytesAppend(old(flat), pa, bytes[..i], x);
        assert bytes[..i + 1] == bytes[..i] + [x];
        FetchDropAt(BlockOf(at));
        WriteInBlock(at, 1, x);
      }
      assert bytes[..len] == bytes;
    }

    /** dcbz: the zeros are conjured in the L1, never read from below. */
    method DcbzLine(b: Block)
      requires Valid()
      modifies tv, age, l1d, l2, fetch, `mem, `h1, `h2, `flat, `l1Clock, `l2Clock
      ensures Valid() && FetchShrinks()
      ensures flat == old(flat)[b := ZeroLine()] && NoFetch(b)
    {
      hide Rep1, Rep2, Fetched, Coherent, L2Set, NoFetch, SetOf;
      FetchDropAt(b);
      var k := LineWay(b);
      if k < 0 {
        ConjureZeros(b);
      } else {
        StoreHeld(b, k, ZeroLine());
      }
    }

    method ConjureZeros(b: Block)
      requires Valid() && b !in h1 && NoFetch(b)
      modifies tv, age, l1d, l2, fetch, `mem, `h1, `h2, `flat, `l1Clock, `l2Clock
      ensures Valid() && FetchShrinks()
      ensures flat == old(flat)[b := ZeroLine()]
    {
      hide Rep1, Rep2, Fetched, Coherent, L2Set, NoFetch, SetOf, ZeroLine;
      var w := LineVictim(b);
      StoreFresh(b, w, ZeroLine());
      Stamp(SetOf(b), w);
    }

    /** Puts a whole new block into an empty way, with no read from below. */
    method StoreFresh(b: Block, w: nat, bytes: Line)
      requires Valid() && b !in h1 && w < L1_WAYS && tv[SetOf(b), w] % 2 == 0 && NoFetch(b)
      modifies tv, l1d, `h1, `flat
      ensures Valid() && flat == old(flat)[b := bytes]
    {
      hide Rep1, Rep2, Fetched, Coherent, L2Set, NoFetch, SetOf;
      StoreKeepsCoherent(h1, h2, mem, flat, b, Held(w, bytes, true));
      L1Place(b, w, bytes, true);
      SetFlat(b, bytes);
    }

    method PushDirty(b: Block, k: nat)
      requires Valid() && b in h1 && h1[b].way == k
      modifies l1d, l2, fetch, `mem, `h1, `h2, `l2Clock
      ensures Valid() && FetchShrinks() && b in h1 && h1[b].way == k && !h1[b].d
      ensures old(h1[b].d) && !(l2On && l2ts) ==> mem[b] == flat[b]
    {
      hide Rep1, Rep2, Fetched, Coherent, L2Set, NoFetch, SetOf;
      var e := LineAt(b, k);
      if e.d {
        LinePush(b, k);
      }
    }

    /** dcbst, or dcbf when the line is also to be invalidated. */
    method DcbClean(b: Block, invalidate: bool)
      requires Valid()
      modifies tv, age, l1d, l2, fetch, `mem, `h1, `h2, `l1Clock, `l2Clock
      ensures Valid() && FetchShrinks()
      ensures !Dirty(h1, b) && (invalidate ==> b !in h1)
      ensures old(Dirty(h1, b)) && !(l2On && l2ts) ==> mem[b] == flat[b]
    {
      hide Rep1, Rep2, Fetched, Coherent, L2Set, NoFetch, SetOf;
      FetchDropAt(b);
      var k := LineWay(b);
      if k < 0 {
        return;
      }
      PushDirty(b, k);
      if invalidate {
        DropClean(b, k);
      }
    }

    // ---- bus masters -------------------------------------------------------
    /** The L1's part of a snoop: a modified line goes to memory and takes its
        older L2 copy with it. */
    method SnoopL1(b: Block, w: nat, invalidate: bool)
      requires Valid() && b in h1 && h1[b].way == w
      modifies tv, l1d, l2, fetch, `mem, `h1, `h2
      ensures Valid() && FetchShrinks()
      ensures forall c: Block :: c != b ==> mem[c] == old(mem[c])
      ensures !Dirty(h1, b) && (invalidate ==> b !in h1)
      ensures forall c: Block :: c in h1 ==> c in old(h1) && h1[c].way == old(h1)[c].way
      ensures h2.Keys <= old(h2.Keys)
    {
      hide Rep1, Rep2, Fetched, Coherent, L2Set, NoFetch, SetOf;
      LookupIsFlat(h1, h2, mem, flat, b);
      var e := LineAt(b, w);
      if e.d {
        PushToMemory(b, w);
      }
      if invalidate {
        DropClean(b, w);
      }
    }

    /** A modified L2 line goes to memory and stays, clean. */
    method L2Push(b: Block, k: nat)
      requires Valid() && !Dirty(h1, b) && b in h2 && h2[b].way == k
      modifies l2, fetch, `mem, `h2
      ensures Valid() && FetchShrinks()
      ensures forall c: Block :: c != b ==> mem[c] == old(mem[c])
      ensures !Dirty(h2, b) && b in h2 && h2[b].way == k && h2.Keys == old(h2.Keys)
    {
      hide Rep1, Rep2, Fetched, Coherent, NoFetch, SetOf;
      L2Held(b);
      var q := l2[L2Set(b), k];
      if q.d {
        L2PushKeepsCoherent(h1, h2, mem, flat, b);
        BusWriteLine(b, q.b);
        L2Mark(b, k, true, false);
      }
    }

    /** The L2's part, after the L1 has been pushed. */
    method SnoopL2(b: Block, invalidate: bool)
      requires Valid() && !Dirty(h1, b)
      modifies l2, fetch, `mem, `h2, `l2Clock
      ensures Valid() && FetchShrinks()
      ensures forall c: Block :: c != b ==> mem[c] == old(mem[c])
      ensures !Dirty(h2, b) && (invalidate ==> b !in h2)
      ensures h2.Keys <= old(h2.Keys)
    {
      hide Rep1, Rep2, Fetched, Coherent, NoFetch, SetOf, L2Set;
      var k := L2Find(b);
      if k < 2 {
        L2Push(b, k);
        if invalidate {
          EvictKeepsCoherent(h1, h2, mem, flat, b);
          L2Mark(b, k, false, false);
        }
      }
    }

    /** snoopPush for one block: its bytes reach memory, past the L2. */
    method SnoopBlock(b: Block, invalidate: bool)
      requires Valid()
      modifies tv, l1d, l2, fetch, `mem, `h1, `h2, `l2Clock
      ensures Valid() && FetchShrinks()
      ensures forall c: Block :: c != b ==> mem[c] == old(mem[c])
      ensures mem[b] == flat[b] && (invalidate ==> b !in h1 && b !in h2 && NoFetch(b))
      ensures h1.Keys <= old(h1.Keys) && h2.Keys <= old(h2.Keys)
    {
      hide Rep1, Rep2, Fetched, Coherent, L2Set, NoFetch, SetOf;
      if invalidate {
        FetchDropAt(b);
      }
      var w := LineWayQuiet(b);
      if w >= 0 {
        SnoopL1(b, w, invalidate);
      }
      SnoopL2(b, invalidate);
      CleanMeansCurrent(h1, h2, mem, flat, b);
    }

    ghost predicate Released(b: Block)
      requires Shape()
      reads `h1, `h2, fetch
    {
      b !in h1 && b !in h2 && NoFetch(b)
    }

    /** The loop of snoopPush, block by block up to the last or to the end of memory. */
    method SnoopRange(first: nat, last: nat, ghost top: nat, invalidate: bool)
      requires Valid() && first <= top < BLOCKS && (last == top || (last < first && top + 1 == BLOCKS))
      modifies tv, l1d, l2, fetch, `mem, `h1, `h2, `l2Clock
      ensures Valid() && FetchShrinks()
      ensures forall b: Block :: first <= b <= top ==> mem[b] == flat[b] && (invalidate ==> Released(b))
      ensures forall b: Block :: !(first <= b <= top) ==> mem[b] == old(mem[b])
    {
      hide Rep1, Rep2, Fetched, Coherent, L2Set, NoFetch, SetOf;
      var a := first;
      while true
        invariant first <= a <= top
        invariant Valid() && FetchShrinks()
        invariant forall b: Block :: first <= b < a ==> mem[b] == flat[b] && (invalidate ==> Released(b))
        invariant forall b: Block :: !(first <= b < a) ==> mem[b] == old(mem[b])
        decreases top - a
      {
        SnoopBlock(a, invalidate);
        if a == last || a + 1 == BLOCKS {
          break;
        }
        a := a + 1;
      }
    }

    /** snoopPush over [pa, pa + len): memory is current there and unchanged
        elsewhere; when the master will write, nothing holds the range. A range
        that wraps is cut at the top of the address space, unless it comes all the
        way round to the block it started in or beyond. */
    method SnoopPush(pa: Addr, len: nat, invalidate: bool)
      requires Valid() && len < ADDRESSES
      modifies tv, l1d, l2, fetch, `mem, `h1, `h2, `l2Clock
      ensures Valid() && FetchShrinks()
      ensures forall b: Block :: len > 0 && pa / 32 <= b <= SnoopTop(pa, len) ==>
                mem[b] == flat[b] && (invalidate ==> Released(b))
      ensures forall b: Block :: len == 0 || !(pa / 32 <= b <= SnoopTop(pa, len)) ==> mem[b] == old(mem[b])
    {
      if len == 0 {
        return;
      }
      var first, last := pa / 32, Plus(pa, len - 1) / 32;
      ghost var top := SnoopTop(pa, len);
      assert first <= top < BLOCKS && (last == top || (last < first && top + 1 == BLOCKS));
      hide Valid, Released;
      SnoopRange(first, last, top, invalidate);
    }

    // ---- whole-cache flushes (write-back) ----------------------------------

    /** One way of l1dFlushAll: the newer L1 bytes reach memory and the older L2
        copy dies with the line. */
    method FlushWay(s: nat, w: nat)
      requires Valid() && s < L1_SETS && w < L1_WAYS
      modifies tv, l1d, l2, fetch, `mem, `h1, `h2
      ensures Valid() && FetchShrinks()
      ensures forall c: Block :: c in h1 ==> c in old(h1) && h1[c].way == old(h1)[c].way
      ensures forall c: Block :: c in h1 ==> SetOf(c) != s || h1[c].way != w
    {
      hide Rep1, Rep2, Fetched, Coherent, NoFetch, SetOf, L2Set, BlockAt;
      L1Entry(s, w);
      if tv[s, w] % 2 == 1 {
        SnoopL1(BlockAt(s, tv[s, w]), w, true);
      }
    }

    /** What Rep1 says of one way. */
    lemma L1Entry(s: nat, w: nat)
      requires Rep1() && s < L1_SETS && w < L1_WAYS
      ensures tv[s, w] < 2 * TAGS
      ensures tv[s, w] % 2 == 1 ==> BlockAt(s, tv[s, w]) in h1 && h1[BlockAt(s, tv[s, w])].way == w
      ensures forall b: Block :: b in h1 && SetOf(b) == s && h1[b].way == w ==>
                tv[s, w] % 2 == 1 && b == BlockAt(s, tv[s, w])
    {
      BlockAtSetTv();
      hide BlockAt, SetOf, TvOf;
    }

    method L2FlushAll()
      requires Valid()
      modifies l2, fetch, `mem, `h2
      ensures Valid() && h2 == map[] && forall c: Block :: NoFetch(c)
    {
      hide Rep1, Rep2, Fetched, Coherent, NoFetch, SetOf, L2Set;
      FetchDrop();
      label dropped:
      for s := 0 to l2Sets
        invariant Valid() && FetchShrinks@dropped()
        invariant forall c: Block :: c in h2 ==> L2Set(c) >= s
      {
        for w := 0 to 2
          invariant Valid() && FetchShrinks@dropped()
          invariant forall c: Block :: c in h2 ==> L2Set(c) > s || (L2Set(c) == s && h2[c].way >= w)
        {
          FlushL2Way(s, w);
        }
        forall c: Block | c in h2
          ensures L2Set(c) >= s + 1
        {
          L2Held(c);
        }
      }
      assert forall c: Block :: c !in h2;
    }

    method FlushL2Way(s: nat, w: nat)
      requires Valid() && s < l2Sets && w < 2
      modifies l2, fetch, `mem, `h2
      ensures Valid() && FetchShrinks()
      ensures forall c: Block :: c in h2 ==> c in old(h2) && h2[c] == old(h2)[c]
      ensures forall c: Block :: c in h2 ==> L2Set(c) != s || h2[c].way != w
    {
      if l2[s, w].v {
        var t := l2[s, w].tag;
        assert forall b: Block :: b in h2 && L2Set(b) == s && h2[b].way == w ==> b == t;
        hide Rep1, Rep2, Fetched, Coherent, NoFetch, SetOf, L2Set;
        L2Castout(s, w);
      }
    }

    /** l1dFlushAll(true): memory is the processor's view, everywhere. */
    method L1FlushAll()
      requires Valid()
      modifies tv, l1d, l2, fetch, `mem, `h1, `h2
      ensures Valid() && h1 == map[] && h2 == map[] && mem == flat
      ensures forall c: Block :: NoFetch(c)
    {
      hide Rep1, Rep2, Fetched, Coherent, NoFetch, SetOf, L2Set;
      FetchDrop();
      for s := 0 to L1_SETS
        invariant Valid()
        invariant forall c: Block :: c in h1 ==> SetOf(c) >= s
      {
        for w := 0 to L1_WAYS
          invariant Valid()
          invariant forall c: Block :: c in h1 ==> SetOf(c) > s || (SetOf(c) == s && h1[c].way >= w)
        {
          FlushWay(s, w);
        }
        forall c: Block | c in h1
          ensures SetOf(c) >= s + 1
        {
          L1WayBound(c);
        }
      }
      assert forall c: Block :: c !in h1;
      L2FlushAll();
      forall b: Block
        ensures mem[b] == flat[b]
      {
        CleanMeansCurrent(h1, h2, mem, flat, b);
      }
      assert mem == flat;
    }

    lemma L1WayBound(c: Block)
      requires Rep1() && c in h1
      ensures h1[c].way < L1_WAYS
    {
    }

    // ---- instruction fetch -------------------------------------------------

    /** The fetch path without the block buffer: one word at L1, L2, then bus. */
    method FetchUncached(pa: Addr) returns (insn: nat, row: nat)
      requires Valid()
      modifies l2, `l2Clock
      ensures Valid()
      ensures insn == BigEndian(GetBytes(flat, pa - pa % 4, 4)) && row == decode(insn)
    {
      WordIsRead(flat, pa);
      hide Rep1, Rep2, Fetched, Coherent, NoFetch, SetOf, WordOf, BigEndian, GetBytes;
      var b := BlockOf(pa);
      LookupIsFlat(h1, h2, mem, flat, b);
      var raw := mem[b];
      var w := LineWayQuiet(b);
      if w >= 0 {
        var e := LineAt(b, w);
        raw := e.b;
      } else {
        var k := L2Find(b);
        if k < 2 {
          L2Held(b);
          raw := l2[L2Set(b), k].b;
        }
      }
      insn := WordOf(raw, pa / 4 % 8);
      row := decode(insn);
    }

    /** The block as the fetch path sees it, or nothing for a device window. */
    method FetchRaw(b: Block) returns (filled: bool, raw: Line)
      requires Valid()
      modifies l2, `l2Clock
      ensures Valid() && raw == flat[b]
    {
      hide Rep1, Rep2, Fetched, Coherent, NoFetch, SetOf;
      LookupIsFlat(h1, h2, mem, flat, b);
      filled, raw := isMemory(b), mem[b];
      var w := LineWayQuiet(b);
      if w >= 0 {
        var e := LineAt(b, w);
        filled, raw := true, e.b;
      } else {
        var k := L2Find(b);
        if k < 2 {
          L2Held(b);
          filled, raw := true, l2[L2Set(b), k].b;
        }
      }
    }

    /** Assembles and decodes the eight words of a block. */
    method DecodeLine(raw: Line) returns (w: seq<nat>, row: seq<nat>)
      ensures |w| == |row| == 8
      ensures forall k :: 0 <= k < 8 ==> w[k] == WordOf(raw, k) && row[k] == decode(w[k])
    {
      hide WordOf;
      w, row := [], [];
      for k := 0 to 8
        invariant |w| == |row| == k
        invariant forall j :: 0 <= j < k ==> w[j] == WordOf(raw, j) && row[j] == decode(w[j])
      {
        var v := WordOf(raw, k);
        w, row := w + [v], row + [decode(v)];
      }
    }

    method FetchFill(b: Block, raw: Line)
      requires Fetched() && raw == flat[b]
      modifies fetch
      ensures Fetched() && fetch[FetchSlot(b)].base == 32 * b
    {
      hide WordOf;
      var s := FetchSlot(b);
      var w, row := DecodeLine(raw);
      assert BlockOf(32 * b) == b;
      fetch[s] := FetchLine(32 * b, w, row);
    }

    /** icbi: the whole fetch buffer goes; nothing else changes. */
    method Icbi()
      requires Valid()
      modifies fetch
      ensures Valid() && forall c: Block :: NoFetch(c)
    {
      hide Rep1, Rep2, Coherent;
      FetchDrop();
    }

    /** L2CR's test-support bit: evictions from the L1 then stay in the L2. */
    method SetTestMode(on: bool)
      requires Valid()
      modifies `l2ts
      ensures Valid() && l2ts == on
    {
      hide Rep1, Rep2, Fetched, Coherent;
      l2ts := on;
    }

    /** fetchDecoded after translation: the buffered word and its decoded row. */
    method FetchDecoded(pa: Addr) returns (insn: nat, row: nat)
      requires Valid()
      modifies l2, fetch, `l2Clock
      ensures Valid()
      ensures insn == BigEndian(GetBytes(flat, pa - pa % 4, 4)) && row == decode(insn)
    {
      WordIsRead(flat, pa);
      hide BigEndian, GetBytes;
      var b: Block := BlockOf(pa);
      var k: nat, base: nat := pa / 4 % 8, 32 * (pa / 32);
      var s := FetchSlot(b);
      hide Hierarchy.Valid, Fetched, WordOf;
      FetchIsLive();
      if fetch[s].base != base {
        var filled, raw := Refill(b);
        if !filled {
          insn := WordOf(raw, k);
          row := decode(insn);
          return;
        }
        FetchIsLive();
      }
      FetchHit(b, k);
      insn, row := fetch[s].w[k], fetch[s].row[k];
    }

    lemma FetchIsLive()
      requires Valid()
      ensures Shape() && Fetched()
    {
      hide Rep1, Rep2, Coherent, Fetched;
    }

    /** The block's fetch line is refilled from wherever the block is memory, and
        left empty where it is not. */
    method Refill(b: Block) returns (filled: bool, raw: Line)
      requires Valid()
      modifies l2, fetch, `l2Clock
      ensures Valid() && raw == flat[b] && fetch[FetchSlot(b)].base == if filled then 32 * b else NO_BASE
    {
      hide Rep1, Rep2, Fetched, Coherent, WordOf;
      filled, raw := FetchRaw(b);
      if filled {
        FetchFill(b, raw);
      } else {
        FetchDropSlot(FetchSlot(b));
      }
    }

    lemma FetchHit(b: Block, k: nat)
      requires Fetched() && fetch[FetchSlot(b)].base == 32 * (b as int) && k < 8
      ensures var fl := fetch[FetchSlot(b)];
              |fl.w| == |fl.row| == 8 && fl.w[k] == WordOf(flat[b], k) && fl.row[k] == decode(fl.w[k])
    {
      hide WordOf;
      assert FetchHolds(FetchSlot(b), BlockOf(fetch[FetchSlot(b)].base));
    }

    method FetchDropSlot(s: nat)
      requires Fetched() && s < FETCH_LINES
      modifies fetch
      ensures Fetched() && fetch[s].base == NO_BASE
    {
      hide WordOf;
      fetch[s] := fetch[s].(base := NO_BASE);
    }

    /** A bus master's store, after its snoop: the bytes land in memory. */
    method DmaStore(pa: Addr, bytes: seq<Byte>)
      requires Valid() && pa + |bytes| <= ADDRESSES
      requires forall b: Block :: pa / 32 <= b < (pa + |bytes| + 31) / 32 && |bytes| > 0 ==> Released(b)
      modifies `mem, `flat
      ensures Valid() && flat == PutBytes(old(flat), pa, bytes)
    {
      hide Rep1, Rep2, Fetched, Coherent, NoFetch, SetOf, L2Set, PutBytes, PutByte, BlockOf, Plus, Released;
      EmptyWrite(flat, pa, bytes[..0]);
      for i := 0 to |bytes|
        invariant Valid() && flat == PutBytes(old(flat), pa, bytes[..i])
      {
        InRange(pa, i, |bytes|);
        DmaByte(pa + i, bytes[i]);
        PutBytesAppend(old(flat), pa, bytes[..i], bytes[i]);
        assert bytes[..i + 1] == bytes[..i] + [bytes[i]];
      }
      assert bytes[..|bytes|] == bytes;
    }

    method DmaByte(pa: Addr, v: Byte)
      requires Valid() && Released(BlockOf(pa))
      modifies `mem, `flat
      ensures Valid() && flat == PutByte(old(flat), pa, v)
    {
      hide Rep1, Rep2, Fetched, Coherent, NoFetch, SetOf, L2Set;
      var b, bytes := BlockOf(pa), mem[BlockOf(pa)][pa % 32 := v];
      CleanMeansCurrent(h1, h2, mem, flat, b);
      DmaKeepsCoherent(h1, h2, mem, flat, b, bytes);
      mem := mem[b := bytes];
      SetFlat(b, bytes);
    }
  }

  /** The last block a snoop of this range reaches. */
  function SnoopTop(pa: Addr, len: nat): (b: Block)
    requires len > 0
    ensures b >= pa / 32
    ensures pa + len <= ADDRESSES ==> b == (pa + len - 1) / 32
    ensures (pa + len - 1) % ADDRESSES / 32 < pa / 32 ==> b == BLOCKS - 1
  {
    var end := Plus(pa, len - 1) / 32;
    if end >= pa / 32 then end else BLOCKS - 1
  }

  lemma InRange(pa: Addr, i: nat, n: nat)
    requires i < n && pa + n <= ADDRESSES
    ensures pa / 32 <= BlockOf(pa + i) < (pa + n + 31) / 32 && Plus(pa, i) == pa + i
  {
  }

  lemma CleanMeansCurrent(h1: Holding, h2: Holding, mem: Memory, flat: Memory, b: Block)
    requires Coherent(h1, h2, mem, flat) && !Dirty(h1, b) && !Dirty(h2, b)
    ensures mem[b] == flat[b]
  {
    assert CoherentAt(h1, h2, mem, flat, b);
  }

  lemma EmptyRead(m: Memory, pa: Addr)
    ensures BigEndian(GetBytes(m, pa, 0)) == 0
  {
  }

  lemma {:induction false} EmptyWrite(m: Memory, pa: Addr, none: seq<Byte>)
    requires |none| == 0
    ensures PutBytes(m, pa, none) == m
  {
  }

  lemma {:induction false} OneByte(m: Memory, pa: Addr)
    ensures BigEndian(GetBytes(m, pa, 1)) == GetByte(m, pa)
  {
    assert GetBytes(m, pa, 1) == [GetByte(m, pa)] + GetBytes(m, Next(pa), 0);
    BigEndianAppend([], GetByte(m, pa));
  }

  lemma {:induction false} OneByteWritten(m: Memory, pa: Addr, v: Byte)
    ensures PutBytes(m, pa, ToBytes(v, 1)) == PutByte(m, pa, v)
  {
    hide PutByte, BlockOf;
    PutBytesAppend(m, pa, [], v);
    assert ToBytes(v, 1) == [] + [v];
    PlusNext(pa, 1);
  }

  /** lineLoadBE: the bytes of a line, assembled in guest order. */
  method LineLoadBE(l: Line, o: nat, len: nat) returns (v: nat)
    requires o + len <= 32
    ensures v == BigEndian(l[o..o + len])
  {
    var bytes := l[o..o + len];
    assert BigEndian(bytes[..0]) == 0;
    hide BigEndian;
    v := 0;
    for i := 0 to len
      invariant v == BigEndian(bytes[..i])
    {
      BigEndianAppend(bytes[..i], bytes[i]);
      assert bytes[..i + 1] == bytes[..i] + [bytes[i]];
      v := v * 256 + bytes[i];
    }
    assert bytes[..len] == bytes;
  }

  /** lineStoreBE: byte i of the store is v >> 8 * (len - 1 - i). */
  method LineStoreBE(l: Line, o: nat, len: nat, v: nat) returns (r: Line)
    requires o + len <= 32
    ensures r == Splice(l, o, ToBytes(v, len))
  {
    hide ToBytes, Pow256;
    ghost var bytes := ToBytes(v, len);
    r := l;
    for i := 0 to len
      invariant r == Splice(l, o, bytes[..i])
    {
      ToBytesAt(v, len, i);
      r := r[o + i := v / Pow256(len - 1 - i) % 256];
    }
    assert bytes[..len] == bytes;
  }
}
