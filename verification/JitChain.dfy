/** The JIT's block cache and its chain-patching protocol. Machine code is
    abstracted to where the emitter put things: the eight entry offsets of a
    block and the offsets of its patchable chain sites. The rel32 words of those
    sites, the line table with its back-references, the arena cursor and the
    resident fetch lines are all as in the source. */
module JitChain {
  import opened FetchGeometry
  import opened Words

  const WAYS: nat := 4
  const ENTRIES: nat := 16384 // FETCH_LINES * WAYS
  const BREFS: nat := 8
  const REL_PARK: int := 0
  const REL_THUNK: int := 12
  const ARENA_MARGIN: nat := 8192

  datatype JitLine = JitLine(base: nat, va: nat, srcW: seq<nat>, off: seq<nat>, bref: seq<nat>)
  /** What the JIT reads of a fetch line: its base and its eight words. */
  datatype Resident = Resident(base: nat, w: seq<nat>)

  /** What the emitter put at an entry: word k of the block compiled from srcW at va. */
  datatype Segment = Segment(srcW: seq<nat>, va: nat, k: nat)

  /** A chain site's baked target. */
  datatype Target = Target(paLine: nat, va: nat)

  /** Where the emitter placed one block, or that it ran out of arena. */
  datatype Emission = OutOfArena | Emitted(size: nat, off: seq<nat>, sites: map<nat, nat>)

  /** What a site's rel32 word means to the instruction that executes it. */
  datatype Link = Parked | Unresolved | Jump(to: int)

  function Meaning(site: nat, rel: int): Link {
    if rel == REL_PARK then Parked
    else if rel == REL_THUNK then Unresolved
    else Jump(site + 4 + rel)
  }

  function Slot(pa: nat): (s: nat)
    ensures s < FETCH_LINES
  {
    SlotOfBlock(pa / 32)
  }

  function LineOf(a: nat): (r: nat)
    ensures r % 32 == 0 && r <= a < r + 32
  {
    a - a % 32
  }

  function WordIndex(a: nat): (k: nat)
    ensures k < 8 && 4 * k == a % 32 - a % 4
  {
    WordPlace(a);
    a / 4 % 8
  }

  lemma WordPlace(a: nat)
    ensures 4 * (a / 4 % 8) == a % 32 - a % 4
  {
    var b, k, i := a / 32, a % 32 / 4, a % 32 % 4;
    assert a == 32 * b + 4 * k + i;
    DivUnique(a, 4, 8 * b + k, i);
    DivUnique(8 * b + k, 8, b, k);
  }

  lemma TargetPlace(paBase: nat, tgtVa: nat)
    ensures var l := paBase / 4096 * 4096 + tgtVa % 4096 / 32 * 32;
      l % 32 == 0 && l / 4096 == paBase / 4096 && l % 4096 <= tgtVa % 4096 < l % 4096 + 32
  {
    var q, o := paBase / 4096, tgtVa % 4096 / 32;
    DivUnique(q * 4096 + o * 32, 4096, q, o * 32);
    DivUnique(q * 4096 + o * 32, 32, q * 128 + o, 0);
  }

  /** The physical line of a same-page target: page of the block, line of the target. */
  function TargetOf(paBase: nat, tgtVa: nat): (t: Target)
    ensures t.paLine % 32 == 0 && t.va == tgtVa && t.paLine / 4096 == paBase / 4096
    ensures t.paLine % 4096 <= tgtVa % 4096 < t.paLine % 4096 + 32
  {
    TargetPlace(paBase, tgtVa);
    Target(paBase / 4096 * 4096 + tgtVa % 4096 / 32 * 32, tgtVa)
  }

  /** The layout the emitter keeps: entries and sites lie inside the block, and
      no entry falls among a site's rel32 word, its 12-byte parking block and the
      first byte of its resolver thunk. */
  predicate WellPlaced(e: Emission, at: nat, cap: nat) {
    e.Emitted? ==>
      && at + e.size <= cap && |e.off| == 8
      && (forall k :: 0 <= k < 8 ==> at <= e.off[k] < at + e.size)
      && (forall s :: s in e.sites ==> at <= s && s + 16 < at + e.size)
      && (forall s, k :: s in e.sites && 0 <= k < 8 ==> e.off[k] <= s || e.off[k] > s + 16)
      && (forall j, k :: 0 <= j < k < 8 ==> e.off[j] != e.off[k])
  }

  /** What a fresh block's entry offsets run. */
  function EntryCode(off: seq<nat>, w: seq<nat>, va: nat, n: nat): (c: map<nat, Segment>)
    requires n <= |off|
    requires forall j, k :: 0 <= j < k < |off| ==> off[j] != off[k]
    ensures forall e :: e in c <==> e in off[..n]
    ensures forall k :: 0 <= k < n ==> off[k] in c && c[off[k]] == Segment(w, va, k)
  {
    if n == 0 then map[]
    else
      assert off[..n] == off[..n - 1] + [off[n - 1]];
      EntryCode(off, w, va, n - 1)[off[n - 1] := Segment(w, va, n - 1)]
  }

  /** Table entry i: the block it describes is where it says and was compiled from
      what it says; back-references name real sites. */
  ghost predicate LineOk(l: JitLine, i: nat, siteAt: set<nat>, code: map<nat, Segment>) {
    && |l.bref| <= BREFS
    && (forall s :: s in l.bref ==> s in siteAt)
    && (l.base == NO_BASE ==> l.bref == [])
    && (l.base != NO_BASE ==>
          && Slot(l.base) == i / WAYS && |l.srcW| == 8 && |l.off| == 8
          && forall k :: 0 <= k < 8 ==> l.off[k] in code && code[l.off[k]] == Segment(l.srcW, l.va, k))
  }

  /** The site's rel32 word jumps to the right entry of a live block for the site's
      own target, and the block knows of the site. */
  ghost predicate LinksTo(s: nat, rel: int, t: Target, l: JitLine) {
    && l.base != NO_BASE && l.base == t.paLine && l.va == LineOf(t.va)
    && |l.off| == 8 && rel == l.off[WordIndex(t.va)] - (s + 4)
    && s in l.bref
  }

  /** The arena is laid out so that the three rel32 states cannot be confused. */
  ghost predicate Layout(siteAt: set<nat>, entryAt: set<nat>, first: nat, at: nat, cap: nat) {
    && first <= at <= cap
    && (forall s :: s in siteAt ==> first <= s && s + 16 < at)
    && (forall e :: e in entryAt ==> first <= e < at)
    && (forall s, e :: s in siteAt && e in entryAt ==> e <= s || e > s + 16)
  }

  /** A well-placed block above the cursor keeps the layout. */
  lemma LayoutGrows(siteAt: set<nat>, entryAt: set<nat>, first: nat, at: nat, cap: nat, e: Emission)
    requires Layout(siteAt, entryAt, first, at, cap) && e.Emitted? && WellPlaced(e, at, cap)
    ensures Layout(siteAt + e.sites.Keys, entryAt + (set x | x in e.off), first, at + e.size, cap)
  {
  }

  /** Code already emitted is not disturbed by a block above it. */
  lemma LineOkGrows(l: JitLine, i: nat, siteAt: set<nat>, code: map<nat, Segment>, siteAt': set<nat>, code': map<nat, Segment>)
    requires LineOk(l, i, siteAt, code) && siteAt <= siteAt'
    requires forall x :: x in code ==> x in code' && code'[x] == code[x]
    ensures LineOk(l, i, siteAt', code')
  {
  }

  datatype Event =
    | Enter(slot: nat, pc: nat, e: Emission) // the dispatcher, on a resident line
    | Traverse(site: nat)                    // emitted code reaches a chain site
    | Filled(base: nat, w: seq<nat>)         // fetchDecoded refills a fetch line
    | Dropped(slot: nat)                     // a store or snoop drops one
    | WholesaleDrop                          // reset

  /** Native code that ran, the fetch line that was resident for it at that moment,
      and the pc. */
  datatype Executed = Executed(ran: Segment, base: nat, resident: seq<nat>, pc: nat) {
    /** It is the code of the resident words, for the line and the word of the pc. */
    predicate Faithful() {
      ran.srcW == resident && ran.va == pc - pc % 32 && 4 * ran.k == pc % 32 - pc % 4
    }
  }

  class Machine {
    const cap: nat
    const firstCode: nat
    const line: array<JitLine>
    const rr: array<nat>
    const fl: array<Resident>
    var at: nat
    var arena: map<nat, int>      // rel32 words of the sites emitted since the last rewind
    var code: map<nat, Segment>   // what each entry offset runs
    var sites: map<nat, Target>   // baked targets of the sites emitted since the last wholesale drop
    ghost var dest: map<nat, nat> // for a live site, the table entry it jumps into

    ghost predicate Shape() {
      line.Length == ENTRIES && rr.Length == FETCH_LINES && fl.Length == FETCH_LINES && firstCode + ARENA_MARGIN <= cap
    }

    ghost predicate Table()
      reads `arena, `code, line
    {
      Shape() && forall i :: 0 <= i < ENTRIES ==> LineOk(line[i], i, arena.Keys, code)
    }

    /** A block compiled from a line that is now resident was compiled from its words. */
    ghost predicate Fresh()
      reads line, fl
    {
      && Shape()
      && (forall s :: 0 <= s < FETCH_LINES ==> |fl[s].w| == 8)
      && (forall i :: 0 <= i < ENTRIES && line[i].base != NO_BASE && fl[i / WAYS].base == line[i].base ==>
            fl[i / WAYS].w == line[i].srcW)
    }

    /** Every site is parked, unresolved, or linked. */
    ghost predicate Linked()
      reads `arena, `sites, `dest, line
    {
      Shape() && LinkedIn(arena, sites, dest)
    }

    ghost predicate LinkedIn(arena: map<nat, int>, sites: map<nat, Target>, dest: map<nat, nat>)
      requires Shape()
      reads line
    {
      forall s :: s in sites ==>
        && s in arena && sites[s].paLine % 32 == 0
        && (arena[s] == REL_PARK || arena[s] == REL_THUNK ||
            (s in dest && dest[s] < ENTRIES && LinksTo(s, arena[s], sites[s], line[dest[s]])))
    }

    ghost predicate Valid()
      reads this, line, fl, rr
    {
      && Shape() && Table() && Fresh() && Linked()
      && Layout(arena.Keys, code.Keys, firstCode, at, cap)
      && forall s :: 0 <= s < FETCH_LINES ==> rr[s] < WAYS
    }

    constructor (capacity: nat, first: nat)
      requires first + ARENA_MARGIN <= capacity
      ensures Valid() && fresh(line) && fresh(rr) && fresh(fl)
    {
      cap, firstCode, at := capacity, first, first;
      arena, code, sites, dest := map[], map[], map[], map[];
      line := new JitLine[ENTRIES](_ => JitLine(NO_BASE, 0, [], [], []));
      rr := new nat[FETCH_LINES](_ => 0);
      fl := new Resident[FETCH_LINES](_ => Resident(NO_BASE, seq(8, _ => 0)));
    }

    /** sever: every site that jumps into this block goes back to its thunk.
        Runs before the entry stops describing its line. */
    method Sever(i: nat)
      requires Valid() && i < ENTRIES
      modifies line, `arena, `dest
      ensures Valid()
      ensures line[i] == old(line[i]).(bref := [])
      ensures forall j :: 0 <= j < ENTRIES && j != i ==> line[j] == old(line[j])
      ensures arena.Keys == old(arena.Keys)
      ensures forall s :: s in dest ==> dest[s] != i
    {
      hide Machine.Valid, Machine.Shape;
      Unlink(i);
      ClearBrefs(i);
    }

    /** Patches the listed sites back to their thunks: no live link enters block i. */
    method Unlink(i: nat)
      requires Valid() && i < ENTRIES
      modifies `arena
      ensures Valid() && arena.Keys == old(arena.Keys) && forall s :: s in line[i].bref ==> s in arena
      ensures forall s :: s in arena ==> arena[s] == if s in line[i].bref then REL_THUNK else old(arena)[s]
    {
      hide Slot, LineOk, LinksTo, Layout, LinkedIn;
      var bref := line[i].bref;
      BrefSites(i);
      ghost var was := arena;
      for k := 0 to |bref|
        modifies `arena
        invariant arena.Keys == was.Keys
        invariant forall s :: s in arena ==> arena[s] == if s in bref[..k] then REL_THUNK else was[s]
      {
        var s := bref[k];
        assert bref[..k + 1] == bref[..k] + [s];
        if s + 4 <= cap {
          arena := arena[s := REL_THUNK];
        }
      }
      assert bref[..|bref|] == bref;
      ThunkedLinks(was, arena);
    }

    /** Back-references name sites of the arena, wholly inside it. */
    lemma BrefSites(i: nat)
      requires Table() && i < ENTRIES && Layout(arena.Keys, code.Keys, firstCode, at, cap)
      ensures forall s :: s in line[i].bref ==> s in arena && s + 4 <= cap
    {
      hide Slot;
      assert LineOk(line[i], i, arena.Keys, code);
      assert forall s :: s in arena ==> s in arena.Keys;
    }

    /** Sending sites back to their thunks breaks no link. */
    lemma ThunkedLinks(was: map<nat, int>, now: map<nat, int>)
      requires Shape() && LinkedIn(was, sites, dest) && now.Keys == was.Keys
      requires forall s :: s in now ==> now[s] == REL_THUNK || now[s] == was[s]
      ensures LinkedIn(now, sites, dest)
    {
      hide LinksTo;
    }

    /** Nothing links into block i any more, so its list may go. */
    method ClearBrefs(i: nat)
      requires Valid() && i < ENTRIES && forall s :: s in line[i].bref ==> s in arena && arena[s] == REL_THUNK
      modifies line, `dest
      ensures Valid() && line[i] == old(line[i]).(bref := [])
      ensures forall j :: 0 <= j < ENTRIES && j != i ==> line[j] == old(line[j])
      ensures forall s :: s in dest ==> dest[s] != i
    {
      hide Slot, Layout, EntryCode;
      line[i] := line[i].(bref := []);
      dest := map s | s in dest && dest[s] != i :: dest[s];
    }

    /** Unlink, then stop describing the line. */
    method Kill(i: nat)
      requires Valid() && i < ENTRIES
      modifies line, `arena, `dest
      ensures Valid() && line[i].base == NO_BASE
      ensures forall j :: 0 <= j < ENTRIES && j != i ==> line[j] == old(line[j])
      ensures arena.Keys == old(arena.Keys)
    {
      Sever(i);
      line[i] := line[i].(base := NO_BASE);
    }

    /** dropAll: no block can be entered any more, so no site can be traversed. */
    method DropAll()
      requires Valid()
      modifies line, rr, `sites, `dest
      ensures Valid() && sites == map[]
      ensures forall i :: 0 <= i < ENTRIES ==> line[i].base == NO_BASE
    {
      sites, dest := map[], map[];
      for i := 0 to ENTRIES
        modifies line
        invariant Table() && Fresh()
        invariant forall j :: 0 <= j < i ==> line[j].base == NO_BASE
      {
        line[i] := line[i].(base := NO_BASE, bref := []);
      }
      for i := 0 to FETCH_LINES
        modifies rr
        invariant forall s :: 0 <= s < FETCH_LINES ==> rr[s] < WAYS
      {
        rr[i] := 0;
      }
    }

    /** The victim way of a slot: an invalid one if there is one, else round-robin. */
    method Victim(slot: nat) returns (i: nat)
      requires Valid() && slot < FETCH_LINES
      modifies rr
      ensures Valid()
      ensures slot * WAYS <= i < slot * WAYS + WAYS
      ensures line[i].base == NO_BASE || forall j :: slot * WAYS <= j < slot * WAYS + WAYS ==> line[j].base != NO_BASE
      ensures line[i].base == NO_BASE ==> forall s :: 0 <= s < FETCH_LINES ==> rr[s] == old(rr[s])
      ensures line[i].base != NO_BASE ==>
        && i == slot * WAYS + old(rr[slot]) && rr[slot] == (old(rr[slot]) + 1) % WAYS
        && forall s :: 0 <= s < FETCH_LINES && s != slot ==> rr[s] == old(rr[s])
    {
      hide Slot, LineOk, LinksTo, Layout;
      for k := 0 to WAYS
        invariant forall j :: slot * WAYS <= j < slot * WAYS + k ==> line[j].base != NO_BASE
      {
        if line[slot * WAYS + k].base == NO_BASE {
          return slot * WAYS + k;
        }
      }
      i := slot * WAYS + rr[slot];
      rr[slot] := (rr[slot] + 1) % WAYS;
    }

    /** The emitter writes a block at the cursor; its sites start on their thunks. */
    method Emit(paBase: nat, va: nat, w: seq<nat>, e: Emission)
      requires Valid() && e.Emitted? && WellPlaced(e, at, cap)
      modifies `at, `arena, `code, `sites
      ensures Valid()
      ensures forall k :: 0 <= k < 8 ==> e.off[k] in code && code[e.off[k]] == Segment(w, va, k)
    {
      hide Machine.Valid, Machine.Shape, Layout, EntryCode;
      EmitPlaces(e);
      EmitCode(va, w, e);
      EmitSites(paBase, e.sites);
    }

    /** The entries, above everything emitted before. */
    method EmitCode(va: nat, w: seq<nat>, e: Emission)
      requires Valid() && e.Emitted? && WellPlaced(e, at, cap)
      modifies `at, `code
      ensures Valid() && at == old(at) + e.size && code.Keys == old(code).Keys + set x | x in e.off
      ensures forall k :: 0 <= k < 8 ==> e.off[k] in code && code[e.off[k]] == Segment(w, va, k)
    {
      hide Slot, LinksTo, Layout, LineOk, EntryCode, LinkedIn;
      var born := EntryCode(e.off, w, va, 8);
      hide WellPlaced;
      EmitKeepsTable(born, e);
      BornRuns(code, born, e.off, w, va);
      code, at := code + born, at + e.size;
    }

    /** The sites, each on its thunk with its target baked in. */
    method EmitSites(paBase: nat, sites': map<nat, nat>)
      requires Valid() && Layout(arena.Keys + sites'.Keys, code.Keys, firstCode, at, cap)
      modifies `arena, `sites
      ensures Valid()
    {
      hide Slot, LinksTo, Layout, LineOk, TargetOf, LinkedIn;
      var thunks, targets := Thunks(sites'), Targets(paBase, sites');
      assert (arena + thunks).Keys == arena.Keys + sites'.Keys;
      MoreSites(thunks);
      EmitKeepsLinks(thunks, targets);
      arena, sites := arena + thunks, sites + targets;
    }

    lemma MoreSites(thunks: map<nat, int>)
      requires Table()
      ensures forall i :: 0 <= i < ENTRIES ==> LineOk(line[i], i, (arena + thunks).Keys, code)
    {
      hide Slot;
      forall i | 0 <= i < ENTRIES
        ensures LineOk(line[i], i, (arena + thunks).Keys, code)
      {
        LineOkGrows(line[i], i, arena.Keys, code, (arena + thunks).Keys, code);
      }
    }

    /** A well-placed block leaves the layout right for its entries and its sites. */
    lemma EmitPlaces(e: Emission)
      requires Valid() && e.Emitted? && WellPlaced(e, at, cap)
      ensures Layout(arena.Keys + e.sites.Keys, code.Keys + (set x | x in e.off), firstCode, at + e.size, cap)
    {
      hide Layout, WellPlaced, LineOk, LinksTo;
      LayoutGrows(arena.Keys, code.Keys, firstCode, at, cap, e);
    }

    /** Every site starts on its thunk, with its target baked in. */
    function Thunks(sites: map<nat, nat>): (r: map<nat, int>)
      ensures r.Keys == sites.Keys && forall s :: s in r ==> r[s] == REL_THUNK
    {
      map s | s in sites :: REL_THUNK
    }

    function Targets(paBase: nat, sites: map<nat, nat>): (r: map<nat, Target>)
      ensures r.Keys == sites.Keys && forall s :: s in r ==> r[s] == TargetOf(paBase, sites[s]) && r[s].paLine % 32 == 0
    {
      map s | s in sites :: TargetOf(paBase, sites[s])
    }

    lemma BornRuns(code: map<nat, Segment>, born: map<nat, Segment>, off: seq<nat>, w: seq<nat>, va: nat)
      requires |off| == 8 && forall k :: 0 <= k < 8 ==> off[k] in born && born[off[k]] == Segment(w, va, k)
      ensures forall k :: 0 <= k < 8 ==> off[k] in code + born && (code + born)[off[k]] == Segment(w, va, k)
    {
    }

    lemma EmitKeepsLinks(thunks: map<nat, int>, targets: map<nat, Target>)
      requires Linked() && thunks.Keys == targets.Keys
      requires forall s :: s in thunks ==> thunks[s] == REL_THUNK && targets[s].paLine % 32 == 0
      ensures LinkedIn(arena + thunks, sites + targets, dest)
    {
      hide LinksTo;
    }

    lemma EmitKeepsTable(born: map<nat, Segment>, e: Emission)
      requires Valid() && e.Emitted? && WellPlaced(e, at, cap) && forall x :: x in born <==> x in e.off[..8]
      ensures (code + born).Keys == code.Keys + set x | x in e.off
      ensures Layout(arena.Keys, (code + born).Keys, firstCode, at + e.size, cap)
      ensures forall i :: 0 <= i < ENTRIES ==> LineOk(line[i], i, arena.Keys, code + born)
    {
      hide Slot;
      assert (code + born).Keys == code.Keys + (set x | x in e.off) by {
        assert e.off[..8] == e.off;
      }
      LayoutGrows(arena.Keys, code.Keys, firstCode, at, cap, e);
      assert forall x :: x in code ==> x < at;
      forall j | 0 <= j < ENTRIES
        ensures LineOk(line[j], j, arena.Keys, code + born)
      {
        LineOkGrows(line[j], j, arena.Keys, code, arena.Keys, code + born);
      }
    }

    /** Commits an emitted block to a free table entry. */
    method Register(i: nat, paBase: nat, va: nat, w: seq<nat>, e: Emission)
      requires Valid() && i < ENTRIES && line[i].base == NO_BASE
      requires e.Emitted? && WellPlaced(e, at, cap)
      requires Slot(paBase) == i / WAYS && paBase != NO_BASE && fl[i / WAYS] == Resident(paBase, w)
      modifies line, `at, `arena, `code, `sites
      ensures Valid()
      ensures line[i] == JitLine(paBase, va, w, e.off, [])
      ensures forall j :: 0 <= j < ENTRIES && j != i ==> line[j] == old(line[j])
    {
      hide Slot, Layout;
      Emit(paBase, va, w, e);
      line[i] := JitLine(paBase, va, w, e.off, []);
    }

    /** compileLine for the line resident in `slot`. The victim is unlinked before
        its entry is reused; a full arena drops everything and starts over. */
    method CompileLine(slot: nat, va: nat, e: Emission) returns (ok: bool, i: nat)
      requires Valid() && slot < FETCH_LINES && fl[slot].base != NO_BASE && Slot(fl[slot].base) == slot
      requires WellPlaced(e, if cap - at < ARENA_MARGIN then firstCode else at, cap)
      modifies line, rr, `at, `arena, `code, `sites, `dest
      ensures Valid() && ok == e.Emitted?
      ensures slot * WAYS <= i < slot * WAYS + WAYS
      ensures ok ==> line[i] == JitLine(fl[slot].base, va, fl[slot].w, e.off, [])
    {
      hide Slot, Layout, LineOk, LinksTo, WellPlaced;
      if cap - at < ARENA_MARGIN {
        DropAll();
        Rewind();
      }
      i := Victim(slot);
      Kill(i);
      ok := e.Emitted?;
      if ok {
        Register(i, fl[slot].base, va, fl[slot].w, e);
      }
    }

    method Rewind()
      requires Valid() && sites == map[] && forall i :: 0 <= i < ENTRIES ==> line[i].base == NO_BASE
      modifies `at, `arena, `code
      ensures Valid() && at == firstCode
    {
      at, arena, code := firstCode, map[], map[];
    }

    /** The first way of the slot describing this (base, va), or ENTRIES. */
    method FindWay(slot: nat, base: nat, va: nat) returns (i: nat)
      requires Shape() && slot < FETCH_LINES
      ensures i == ENTRIES || (slot * WAYS <= i < slot * WAYS + WAYS && line[i].base == base && line[i].va == va)
      ensures i == ENTRIES ==>
        forall j :: slot * WAYS <= j < slot * WAYS + WAYS ==> line[j].base != base || line[j].va != va
    {
      for k := 0 to WAYS
        invariant forall j :: slot * WAYS <= j < slot * WAYS + k ==> line[j].base != base || line[j].va != va
      {
        i := slot * WAYS + k;
        if line[i].base == base && line[i].va == va {
          return;
        }
      }
      i := ENTRIES;
    }

    /** Some way holds the block of this target. */
    ghost predicate Compiled(t: Target)
      requires Shape()
      reads line
    {
      exists i :: Slot(t.paLine) * WAYS <= i < Slot(t.paLine) * WAYS + WAYS && line[i].base == t.paLine && line[i].va == LineOf(t.va)
    }

    /** The site jumps into a block of its target; or such a block has no room
        for another back-reference and the site is parked. */
    ghost predicate LinkedOrFull(s: nat, t: Target)
      requires Shape() && s in arena
      reads `arena, line
    {
      exists i :: 0 <= i < ENTRIES && (LinksTo(s, arena[s], t, line[i]) || (arena[s] == REL_PARK && |line[i].bref| >= BREFS
        && line[i].base == t.paLine && line[i].va == LineOf(t.va)))
    }

    /** opmJitChainResolve: link the site to its compiled successor, park it if the
        successor has no room to remember it, or leave it to try again. */
    method Resolve(s: nat, t: Target)
      requires Valid() && s in sites && sites[s] == t
      modifies line, `arena, `dest
      ensures Valid()
      ensures arena == old(arena) || (s in arena && arena == old(arena)[s := arena[s]])
      ensures forall i :: 0 <= i < ENTRIES ==> line[i] == old(line[i]).(bref := line[i].bref)
      ensures s in arena && (if old(Compiled(t)) then LinkedOrFull(s, t) else arena == old(arena))
    {
      hide Machine.Valid, LinksTo, Slot, LineOf;
      ShapeHolds();
      var i := FindWay(Slot(t.paLine), t.paLine, LineOf(t.va));
      if i == ENTRIES {
        return; // not compiled yet: retried at the next traversal
      }
      if |line[i].bref| >= BREFS {
        Park(s); // a link that cannot be severed must not exist
      } else {
        Link(s, t, i);
      }
    }

    lemma ShapeHolds()
      requires Valid()
      ensures Shape() && forall s :: s in sites ==> s in arena
    {
      hide LineOk, LinksTo, Layout, Slot;
    }

    method Park(s: nat)
      requires Valid() && s in sites
      modifies `arena
      ensures Valid() && arena == old(arena)[s := REL_PARK] && s in old(arena)
    {
      hide LineOk, LinksTo, Layout, Slot;
      assert (arena[s := REL_PARK]).Keys == arena.Keys;
      arena := arena[s := REL_PARK];
    }

    /** Records the site with the block, then patches it. */
    method Link(s: nat, t: Target, i: nat)
      requires Valid() && s in sites && sites[s] == t && i < ENTRIES
      requires line[i].base == t.paLine && line[i].va == LineOf(t.va) && |line[i].bref| < BREFS
      modifies line, `arena, `dest
      ensures Valid() && s in arena && LinksTo(s, arena[s], t, line[i]) && arena == old(arena)[s := arena[s]]
      ensures line[i] == old(line[i]).(bref := old(line[i]).bref + [s])
      ensures forall j :: 0 <= j < ENTRIES && j != i ==> line[j] == old(line[j])
    {
      hide Slot, Layout, LineOf, WordIndex;
      var l := line[i];
      LiveLine(i, t);
      Remember(s, i);
      ghost var keys := arena.Keys;
      arena := arena[s := l.off[WordIndex(t.va)] - (s + 4)];
      assert arena.Keys == keys;
      dest := dest[s := i];
    }

    /** A line of a site's base is live: site targets are line addresses. */
    lemma LiveLine(i: nat, t: Target)
      requires Valid() && i < ENTRIES && line[i].base == t.paLine && t.paLine % 32 == 0
      ensures line[i].base != NO_BASE && |line[i].off| == 8
    {
      hide Slot, LinksTo, Layout;
      assert LineOk(line[i], i, arena.Keys, code);
    }

    method Remember(s: nat, i: nat)
      requires Valid() && s in arena && i < ENTRIES && line[i].base != NO_BASE && |line[i].bref| < BREFS
      modifies line
      ensures Valid() && line[i] == old(line[i]).(bref := old(line[i]).bref + [s])
      ensures forall j :: 0 <= j < ENTRIES && j != i ==> line[j] == old(line[j])
    {
      hide Slot, Layout;
      assert LineOk(line[i], i, arena.Keys, code);
      line[i] := line[i].(bref := line[i].bref + [s]);
    }

    // ---- the two doors and the emitted hop ---------------------------------

    /** The segment at an entry is the resident line's own code for word k at va. */
    ghost predicate Runs(entry: int, slot: nat, va: nat, k: nat)
      requires Shape() && slot < FETCH_LINES
      reads `code, fl
    {
      entry in code && code[entry] == Segment(fl[slot].w, va, k)
    }

    /** A live entry whose line is resident runs the resident words. */
    lemma EntryRuns(i: nat, k: nat)
      requires Valid() && i < ENTRIES && k < 8
      requires line[i].base != NO_BASE && fl[i / WAYS].base == line[i].base
      ensures |line[i].off| == 8 && Runs(line[i].off[k], i / WAYS, line[i].va, k)
    {
      assert LineOk(line[i], i, arena.Keys, code);
    }

    /** jitRunLine: find or compile the block of the resident line, and enter it. */
    method RunLine(slot: nat, pc: nat, e: Emission) returns (ok: bool, entry: nat)
      requires Valid() && slot < FETCH_LINES && fl[slot].base != NO_BASE && Slot(fl[slot].base) == slot
      requires WellPlaced(e, if cap - at < ARENA_MARGIN then firstCode else at, cap)
      modifies line, rr, `at, `arena, `code, `sites, `dest
      ensures Valid() && (e.Emitted? ==> ok)
      ensures ok ==> Runs(entry, slot, LineOf(pc), WordIndex(pc))
    {
      hide Slot, Layout, LineOk, LinksTo, WellPlaced, LineOf;
      var va := LineOf(pc);
      var i := FindWay(slot, fl[slot].base, va);
      if i == ENTRIES {
        ok, i := CompileLine(slot, va, e);
        if !ok {
          return false, 0;
        }
        i := FindWay(slot, fl[slot].base, va);
        assert i != ENTRIES; // the source's fail-safe return is never taken
      }
      EntryRuns(i, WordIndex(pc));
      ok, entry := true, line[i].off[WordIndex(pc)];
    }

    /** The successor residency check and the site behind it, as emitted. A taken
        jump lands on code of the words the fetch buffer holds for the target. */
    method Hop(s: nat, t: Target) returns (link: Link)
      requires Valid() && s in sites && sites[s] == t
      requires fl[Slot(t.paLine)].base == t.paLine
      modifies line, `arena, `dest
      ensures Valid() && link == Meaning(s, old(arena)[s])
      ensures link.Jump? ==> Runs(link.to, Slot(t.paLine), LineOf(t.va), WordIndex(t.va))
      ensures s in arena && (if link.Unresolved? && old(Compiled(t)) then LinkedOrFull(s, t) else arena == old(arena))
    {
      link := Meaning(s, arena[s]);
      match link {
        case Parked =>
        case Unresolved => Resolve(s, t);
        case Jump(to) =>
          LinkRuns(s);
      }
    }

    /** The safety of a live link, in any reachable state. */
    lemma LinkRuns(s: nat)
      requires Valid() && s in sites && Meaning(s, arena[s]).Jump?
      ensures fl[Slot(sites[s].paLine)].base == sites[s].paLine ==>
                Runs(Meaning(s, arena[s]).to, Slot(sites[s].paLine), LineOf(sites[s].va), WordIndex(sites[s].va))
    {
      hide Layout, LineOf, WordIndex;
      var i := dest[s];
      assert LineOk(line[i], i, arena.Keys, code);
      if fl[Slot(sites[s].paLine)].base == sites[s].paLine {
        EntryRuns(i, WordIndex(sites[s].va));
      }
    }

    /** The converse of the encoding: a linked site is read as a jump to the entry
        it was patched with, never as parked or unresolved. */
    lemma LinkReadsAsJump(s: nat, i: nat)
      requires Valid() && s in sites && s in arena && i < ENTRIES && LinksTo(s, arena[s], sites[s], line[i])
      ensures Meaning(s, arena[s]) == Jump(line[i].off[WordIndex(sites[s].va)])
    {
      hide Slot;
      assert LineOk(line[i], i, arena.Keys, code);
      var x := line[i].off[WordIndex(sites[s].va)];
      assert x in code.Keys && s in arena.Keys;
    }

    /** fetchDecoded's refill of a slot, with its hook jitNoteRefill: blocks of this
        base keep their links only if the words are the same. */
    method Refill(base: nat, w: seq<nat>)
      requires Valid() && |w| == 8 && base != NO_BASE
      modifies line, fl, `arena, `dest
      ensures Valid() && fl[Slot(base)] == Resident(base, w)
      ensures forall s :: 0 <= s < FETCH_LINES && s != Slot(base) ==> fl[s] == old(fl[s])
      ensures forall i :: 0 <= i < ENTRIES && (old(line[i]).base != base || old(line[i]).srcW == w) ==> line[i] == old(line[i])
    {
      hide Slot, Layout, LineOk, LinksTo;
      var slot := Slot(base);
      for k := 0 to WAYS
        invariant Valid()
        invariant fl[slot] == old(fl[slot])
        invariant forall s :: 0 <= s < FETCH_LINES ==> fl[s] == old(fl[s])
        invariant forall j :: slot * WAYS <= j < slot * WAYS + k && line[j].base == base ==> line[j].srcW == w
        invariant forall j :: 0 <= j < ENTRIES && (old(line[j]).base != base || old(line[j]).srcW == w || j >= slot * WAYS + k) ==>
          line[j] == old(line[j])
      {
        var i := slot * WAYS + k;
        if line[i].base == base && line[i].srcW != w {
          Kill(i);
        }
      }
      fl[slot] := Resident(base, w);
    }

    /** A store, snoop or cache instruction drops a fetch line; blocks stay. */
    method Drop(slot: nat)
      requires Valid() && slot < FETCH_LINES
      modifies fl
      ensures Valid() && fl[slot].base == NO_BASE
      ensures forall s :: 0 <= s < FETCH_LINES && s != slot ==> fl[s] == old(fl[s])
    {
      hide Layout, LineOk, LinksTo;
      fl[slot] := fl[slot].(base := NO_BASE);
    }

    // ---- whole runs --------------------------------------------------------

    method Step(ev: Event) returns (log: seq<Executed>)
      requires Valid()
      modifies this, line, rr, fl
      ensures Valid()
      ensures |log| <= 1
      ensures forall x :: x in log ==> x.Faithful() && x.base != NO_BASE && fl[Slot(x.base)] == Resident(x.base, x.resident)
      ensures ev.Enter? || ev.Traverse? ==> forall s :: 0 <= s < FETCH_LINES ==> fl[s] == old(fl[s])
    {
      hide Slot, Layout, LineOk, LinksTo, WellPlaced, LineOf, WordIndex, TargetOf;
      log := [];
      match ev {
        case Enter(slot, pc, e) =>
          if slot < FETCH_LINES && fl[slot].base != NO_BASE && Slot(fl[slot].base) == slot &&
             WellPlaced(e, if cap - at < ARENA_MARGIN then firstCode else at, cap) {
            var ok, entry := RunLine(slot, pc, e);
            if ok {
              log := [Executed(code[entry], fl[slot].base, fl[slot].w, pc)];
            }
          }
        case Traverse(s) =>
          if s in sites && fl[Slot(sites[s].paLine)].base == sites[s].paLine {
            var t, slot := sites[s], Slot(sites[s].paLine);
            var link := Hop(s, t);
            if link.Jump? {
              log := [Executed(code[link.to], t.paLine, fl[slot].w, t.va)];
            }
          }
        case Filled(base, w) =>
          if |w| == 8 && base != NO_BASE {
            Refill(base, w);
          }
        case Dropped(slot) =>
          if slot < FETCH_LINES {
            Drop(slot);
          }
        case WholesaleDrop => DropAll();
      }
    }

    /** The main result: over every run of compiles, entries, hops, resolves,
        refills, drops and arena resets, whatever native code runs was compiled
        from the words the fetch buffer holds for its address. */
    method Run(events: seq<Event>) returns (log: seq<Executed>)
      requires Valid()
      modifies this, line, rr, fl
      ensures Valid()
      ensures forall x :: x in log ==> x.Faithful()
    {
      log := [];
      for i := 0 to |events|
        invariant Valid()
        invariant forall x :: x in log ==> x.Faithful()
      {
        var more := Step(events[i]);
        log := log + more;
      }
    }
  }

  /** From an empty cache. */
  method ColdRun(capacity: nat, first: nat, events: seq<Event>) returns (log: seq<Executed>)
    requires first + ARENA_MARGIN <= capacity
    ensures forall x :: x in log ==> x.Faithful()
  {
    var m := new Machine(capacity, first);
    log := m.Run(events);
  }
}
