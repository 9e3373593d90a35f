/** The cache hierarchy and the JIT together. Both look at one set of fetch lines:
    the hierarchy fills and drops them, and every refill tells the JIT. So every
    instruction executed in native code, entered, hopped to or fallen through to after
    the block's own stores, was compiled from what the flat memory holds at its address
    at that moment, whatever stores, evictions, cache instructions and DMA came before. */
module NativeRun {
  import opened FlatMemory
  import opened FetchGeometry
  import C = CacheHierarchy
  import T = Transparency
  import Words
  import J = JitChain

  /** The JIT's fetch lines are the hierarchy's: same bases, same words. */
  ghost predicate SameLine(c: C.Hierarchy, m: J.Machine, s: nat)
    requires c.Shape() && m.Shape() && s < FETCH_LINES
    reads c.fetch, m.fl
  {
    m.fl[s].base == c.fetch[s].base && (c.fetch[s].base != NO_BASE ==> m.fl[s].w == c.fetch[s].w)
  }

  ghost predicate Coupled(c: C.Hierarchy, m: J.Machine)
    reads c, c.tv, c.l1d, c.l2, c.fetch, m, m.line, m.fl, m.rr
  {
    c.Valid() && m.Valid() && forall s :: 0 <= s < FETCH_LINES ==> SameLine(c, m, s)
  }

  /** A live fetch line sits in its own slot and holds the flat words of its block. */
  lemma LineIs(c: C.Hierarchy, s: nat)
    requires c.Valid() && s < FETCH_LINES && c.fetch[s].base != NO_BASE
    ensures var f := c.fetch[s];
      && f.base % 32 == 0 && f.base < ADDRESSES && J.Slot(f.base) == s && |f.w| == 8
      && forall k :: 0 <= k < 8 ==> f.w[k] == C.WordOf(c.flat[BlockOf(f.base)], k)
  {
    hide C.WordOf, C.Coherent, C.Hierarchy.Rep1, C.Hierarchy.Rep2;
    assert c.FetchHolds(s, BlockOf(c.fetch[s].base));
  }

  /** What the shared array means for the JIT after the hierarchy has worked on it:
      emptied lines are dropped, refilled ones reported. */
  method Sync(c: C.Hierarchy, m: J.Machine)
    requires c.Valid() && m.Valid()
    modifies m`arena, m`dest, m.line, m.fl
    ensures Coupled(c, m)
  {
    hide C.Hierarchy.Valid, J.Machine.Valid, C.Hierarchy.Shape, J.Machine.Shape, J.Slot, C.WordOf;
    Shapes(c, m);
    for s := 0 to FETCH_LINES
      invariant m.Valid() && c.Valid()
      invariant forall j :: 0 <= j < s ==> m.fl[j].base == c.fetch[j].base && (m.fl[j].base != NO_BASE ==> m.fl[j].w == c.fetch[j].w)
    {
      Shapes(c, m);
      var f := c.fetch[s];
      if f.base == NO_BASE {
        m.Drop(s);
      } else if m.fl[s] != J.Resident(f.base, f.w) {
        LineIs(c, s);
        m.Refill(f.base, f.w);
      }
    }
  }

  lemma Shapes(c: C.Hierarchy, m: J.Machine)
    requires c.Valid() && m.Valid()
    ensures c.Shape() && m.Shape() && c.fetch.Length == FETCH_LINES && m.fl.Length == FETCH_LINES
  {
    hide C.Coherent, C.Hierarchy.Rep1, C.Hierarchy.Rep2, C.Hierarchy.Fetched, J.LineOk, J.LinksTo, J.Layout;
  }

  /** Where an instruction of a block goes on: to the next word, or by a branch to
      another of the same line. */
  datatype After = Falls | Goes(word: nat)

  /** One instruction at work: the memory operations that happen before its own check
      of the fetch line, and where it goes on. It fetches nothing itself. */
  datatype Piece = Piece(ops: seq<T.Op>, after: After) {
    ghost predicate Legal() {
      (after.Goes? ==> after.word < 8) && forall i :: 0 <= i < |ops| ==> T.Legal(ops[i]) && !ops[i].Fetch?
    }
  }

  /** The word of the line that the i-th instruction is, the first being k. */
  function WordAt(k: nat, body: seq<Piece>, i: nat): nat
    requires i <= |body|
  {
    if i == 0 then k
    else if body[i - 1].after.Falls? then WordAt(k, body, i - 1) + 1
    else body[i - 1].after.word
  }

  /** A memory operation of anybody's; or one of the JIT's two doors, and what the
      block behind it then does, in whatever order its own branches take. */
  datatype Act = Memory(op: T.Op) | Native(ev: J.Event, body: seq<Piece>) {
    ghost predicate Legal() {
      if Memory? then T.Legal(op)
      else (ev.Enter? || ev.Traverse?) && forall i :: 0 <= i < |body| ==> body[i].Legal()
    }
  }

  /** Native code that was entered is the code for its pc, compiled from the words this
      memory holds in its line. */
  ghost predicate Genuine(x: J.Executed, flat: FlatMemory.Memory) {
    && x.Faithful() && x.base % 32 == 0 && x.base < ADDRESSES && |x.ran.srcW| == 8
    && (forall k :: 0 <= k < 8 ==> WordIs(x.ran.srcW[k], x.base, k, flat))
    && x.ran.k < 8 && x.ran.srcW[x.ran.k] == BigEndian(GetBytes(flat, x.base + (x.pc % 32 - x.pc % 4), 4))
  }

  /** insn is what this memory holds at word k of the line. */
  ghost predicate WordIs(insn: nat, base: nat, k: nat, flat: FlatMemory.Memory) {
    k < 8 && base + 4 * k < ADDRESSES && insn == BigEndian(GetBytes(flat, base + 4 * k, 4))
  }

  lemma LineWord(flat: FlatMemory.Memory, base: Addr, k: nat, insn: nat)
    requires base % 32 == 0 && k < 8
    ensures base + 4 * k < ADDRESSES
    ensures insn == C.WordOf(flat[BlockOf(base)], k) <==> WordIs(insn, base, k, flat)
  {
    hide C.WordOf, BigEndian, GetBytes;
    C.WordIsRead(flat, base + 4 * k);
    LinePlace(base, k);
  }

  lemma LinePlace(base: Addr, k: nat)
    requires base % 32 == 0 && k < 8
    ensures var a := base + 4 * k;
      a < ADDRESSES && BlockOf(a) == BlockOf(base) && a % 4 == 0 && a / 4 % 8 == k
  {
    var b := base / 32;
    assert base + 4 * k == 32 * b + 4 * k;
    Words.DivUnique(base + 4 * k, 4, 8 * b + k, 0);
    Words.DivUnique(8 * b + k, 8, b, k);
    Words.DivUnique(base + 4 * k, 32, b, 4 * k);
  }

  /** The block's fetch line is there. */
  predicate Live(c: C.Hierarchy, x: J.Executed)
    requires c.fetch.Length == FETCH_LINES
    reads c, c.fetch
  {
    c.fetch[J.Slot(x.base)].base == x.base
  }

  // ---- the flat memory meanwhile --------------------------------------------

  /** The operations of the first n pieces. */
  ghost function Ops(body: seq<Piece>, n: nat): seq<T.Op> {
    if n == 0 || n > |body| then [] else Ops(body, n - 1) + body[n - 1].ops
  }

  /** The flat memory after the first n pieces. */
  ghost function Meanwhile(flat: FlatMemory.Memory, decode: nat -> nat, body: seq<Piece>, n: nat): FlatMemory.Memory {
    T.FlatRun(flat, decode, Ops(body, n)).0
  }

  ghost function ActFlat(flat: FlatMemory.Memory, decode: nat -> nat, act: Act, n: nat): FlatMemory.Memory {
    if act.Memory? then T.FlatStep(flat, decode, act.op).0 else Meanwhile(flat, decode, act.body, n)
  }

  /** The flat memory after the first k acts, ran being what each executed. */
  ghost function FlatAt(flat: FlatMemory.Memory, decode: nat -> nat, acts: seq<Act>, ran: seq<seq<nat>>, k: nat): FlatMemory.Memory
    requires k <= |acts| && k <= |ran|
  {
    if k == 0 then flat else ActFlat(FlatAt(flat, decode, acts, ran, k - 1), decode, acts[k - 1], |ran[k - 1]|)
  }

  lemma {:induction false} FlatOfPrefix(flat: FlatMemory.Memory, decode: nat -> nat, acts: seq<Act>, ran: seq<seq<nat>>, r: seq<nat>, k: nat)
    requires k <= |acts| && k <= |ran|
    ensures FlatAt(flat, decode, acts, ran + [r], k) == FlatAt(flat, decode, acts, ran, k)
    decreases k
  {
    hide ActFlat;
    if k > 0 {
      FlatOfPrefix(flat, decode, acts, ran, r, k - 1);
    }
  }

  lemma AtStart(flat: FlatMemory.Memory, decode: nat -> nat, acts: seq<Act>)
    ensures FlatAt(flat, decode, acts, [], 0) == flat
  {
  }

  lemma NextAct(flat: FlatMemory.Memory, decode: nat -> nat, acts: seq<Act>, ran: seq<seq<nat>>, r: seq<nat>)
    requires |ran| < |acts|
    ensures forall k :: 0 <= k <= |ran| ==> FlatAt(flat, decode, acts, ran + [r], k) == FlatAt(flat, decode, acts, ran, k)
    ensures FlatAt(flat, decode, acts, ran + [r], |ran| + 1) == ActFlat(FlatAt(flat, decode, acts, ran, |ran|), decode, acts[|ran|], |r|)
  {
    hide ActFlat;
    FlatOfPrefix(flat, decode, acts, ran, r, |ran|);
    hide FlatAt;
    forall k | 0 <= k <= |ran|
      ensures FlatAt(flat, decode, acts, ran + [r], k) == FlatAt(flat, decode, acts, ran, k)
    {
      FlatOfPrefix(flat, decode, acts, ran, r, k);
    }
  }

  lemma {:induction false} FlatRunSplit(flat: FlatMemory.Memory, decode: nat -> nat, a: seq<T.Op>, b: seq<T.Op>)
    ensures T.FlatRun(flat, decode, a + b).0 == T.FlatRun(T.FlatRun(flat, decode, a).0, decode, b).0
    decreases |b|
  {
    hide T.FlatStep;
    if b == [] {
      assert a + b == a;
    } else {
      FlatRunSplit(flat, decode, a, b[..|b| - 1]);
      assert (a + b)[..|a + b| - 1] == a + b[..|b| - 1];
    }
  }

  lemma MeanwhileNext(flat: FlatMemory.Memory, decode: nat -> nat, body: seq<Piece>, n: nat)
    requires n < |body|
    ensures Meanwhile(flat, decode, body, 0) == flat
    ensures Meanwhile(flat, decode, body, n + 1) == T.FlatRun(Meanwhile(flat, decode, body, n), decode, body[n].ops).0
  {
    FlatRunSplit(flat, decode, Ops(body, n), body[n].ops);
  }

  lemma MeanwhileNone(flat: FlatMemory.Memory, decode: nat -> nat, body: seq<Piece>)
    ensures Meanwhile(flat, decode, body, 0) == flat
  {
  }

  // ---- one act --------------------------------------------------------------

  /** One memory operation, and the JIT told about it. */
  method Touch(c: C.Hierarchy, m: J.Machine, op: T.Op)
    requires Coupled(c, m) && T.Legal(op)
    modifies c, c.tv, c.age, c.l1d, c.l2, c.fetch, m`arena, m`dest, m.line, m.fl
    ensures Coupled(c, m) && c.flat == T.FlatStep(old(c.flat), c.decode, op).0
    ensures forall b: Block :: c.flat[b] != old(c.flat)[b] ==> c.NoFetch(b)
    ensures !op.Fetch? ==> forall b: Block :: old(c.NoFetch(b)) ==> c.NoFetch(b)
  {
    hide C.Hierarchy.Valid, J.Machine.Valid, C.Hierarchy.Shape, C.Hierarchy.NoFetch, J.Machine.Shape, J.Slot, T.FlatStep;
    Shapes(c, m);
    var _ := T.Step(c, op);
    Sync(c, m);
    Shapes(c, m);
  }

  /** The operations of one instruction: what they change loses its fetch line. */
  method TouchAll(c: C.Hierarchy, m: J.Machine, ops: seq<T.Op>)
    requires Coupled(c, m) && forall i :: 0 <= i < |ops| ==> T.Legal(ops[i]) && !ops[i].Fetch?
    modifies c, c.tv, c.age, c.l1d, c.l2, c.fetch, m`arena, m`dest, m.line, m.fl
    ensures Coupled(c, m) && c.flat == T.FlatRun(old(c.flat), c.decode, ops).0
    ensures c.Shape() && forall b: Block :: c.flat[b] != old(c.flat)[b] ==> c.NoFetch(b)
  {
    hide Coupled, T.FlatStep, C.Hierarchy.Shape, C.Hierarchy.NoFetch;
    ShapeIn(c, m);
    for i := 0 to |ops|
      invariant Coupled(c, m) && c.Shape() && c.flat == T.FlatRun(old(c.flat), c.decode, ops[..i]).0
      invariant forall b: Block :: c.flat[b] != old(c.flat)[b] ==> c.NoFetch(b)
    {
      assert ops[..i + 1][..i] == ops[..i];
      Touch(c, m, ops[i]);
      ShapeIn(c, m);
    }
    assert ops[..|ops|] == ops;
  }

  lemma ShapeIn(c: C.Hierarchy, m: J.Machine)
    requires Coupled(c, m)
    ensures c.Shape() && c.fetch.Length == FETCH_LINES
  {
    hide C.Hierarchy.Valid, J.Machine.Valid, C.Hierarchy.Shape;
    Shapes(c, m);
  }

  /** One instruction: afterwards the block is left unless its fetch line is still
      there, and then its words are still what memory holds. */
  method OnePiece(c: C.Hierarchy, m: J.Machine, x: J.Executed, piece: Piece) returns (live: bool)
    requires Coupled(c, m) && c.fetch.Length == FETCH_LINES && x.base % 32 == 0 && x.base < ADDRESSES && piece.Legal()
    modifies c, c.tv, c.age, c.l1d, c.l2, c.fetch, m`arena, m`dest, m.line, m.fl
    ensures Coupled(c, m) && c.fetch.Length == FETCH_LINES && c.flat == T.FlatRun(old(c.flat), c.decode, piece.ops).0
    ensures live <==> Live(c, x)
    ensures live ==> c.flat[BlockOf(x.base)] == old(c.flat)[BlockOf(x.base)]
  {
    hide Coupled, Live, C.Hierarchy.Shape, C.Hierarchy.NoFetch, T.FlatRun;
    TouchAll(c, m, piece.ops);
    LiveOrNot(c, x);
    LiveIs(c, x);
    live := c.fetch[J.Slot(x.base)].base == x.base;
  }

  /** A block at work from its entry: after every instruction it leaves unless its
      fetch line is still there, or past its last word, so each instruction it goes
      on to is the one memory holds. insns are the words executed. */
  method Within(c: C.Hierarchy, m: J.Machine, x: J.Executed, body: seq<Piece>) returns (insns: seq<nat>)
    requires Coupled(c, m) && Genuine(x, c.flat) && c.fetch.Length == FETCH_LINES && Live(c, x)
    requires forall i :: 0 <= i < |body| ==> body[i].Legal()
    modifies c, c.tv, c.age, c.l1d, c.l2, c.fetch, m`arena, m`dest, m.line, m.fl
    ensures Coupled(c, m) && c.fetch.Length == FETCH_LINES && |insns| <= |body| && (body != [] ==> insns != [])
    ensures c.flat == Meanwhile(old(c.flat), c.decode, body, |insns|)
    ensures |insns| < |body| ==> !Live(c, x) || WordAt(x.ran.k, body, |insns|) == 8
    ensures forall i :: 0 <= i < |insns| ==>
      WordIs(insns[i], x.base, WordAt(x.ran.k, body, i), Meanwhile(old(c.flat), c.decode, body, i))
  {
    hide Coupled, Meanwhile, Live, Genuine, WordIs, T.FlatRun, Piece.Legal;
    LineOfBlock(x, c.flat);
    insns := [];
    var n, k := 0, x.ran.k;
    MeanwhileNone(c.flat, c.decode, body);
    var live := true;
    while live && n < |body| && k < 8
      invariant Coupled(c, m) && c.fetch.Length == FETCH_LINES && n == |insns| <= |body| && (body != [] && !live ==> n > 0)
      invariant c.flat == Meanwhile(old(c.flat), c.decode, body, n)
      invariant k == WordAt(x.ran.k, body, n) && k <= 8 && (n == 0 ==> k < 8)
      invariant live <==> Live(c, x)
      invariant live ==> c.flat[BlockOf(x.base)] == old(c.flat)[BlockOf(x.base)]
      invariant forall i :: 0 <= i < n ==>
        WordIs(insns[i], x.base, WordAt(x.ran.k, body, i), Meanwhile(old(c.flat), c.decode, body, i))
      decreases |body| - n
    {
      MeanwhileNext(old(c.flat), c.decode, body, n);
      StillThere(x, k, old(c.flat), c.flat);
      insns := insns + [x.ran.srcW[k]];
      live := OnePiece(c, m, x, body[n]);
      GoesOn(body[n]);
      k := if body[n].after.Falls? then k + 1 else body[n].after.word;
      n := n + 1;
    }
  }

  lemma GoesOn(piece: Piece)
    requires piece.Legal()
    ensures piece.after.Goes? ==> piece.after.word < 8
  {
  }

  lemma LineOfBlock(x: J.Executed, flat: FlatMemory.Memory)
    requires Genuine(x, flat)
    ensures x.base % 32 == 0 && x.base < ADDRESSES && |x.ran.srcW| == 8 && x.ran.k < 8
  {
    hide WordIs, J.Executed.Faithful, BigEndian, GetBytes;
  }

  lemma StillThere(x: J.Executed, k: nat, flat: FlatMemory.Memory, now: FlatMemory.Memory)
    requires Genuine(x, flat) && k < 8 && now[BlockOf(x.base)] == flat[BlockOf(x.base)]
    ensures WordIs(x.ran.srcW[k], x.base, k, now)
  {
    hide C.WordOf, WordIs, BigEndian, GetBytes, J.Executed.Faithful;
    LineWord(flat, x.base, k, x.ran.srcW[k]);
    LineWord(now, x.base, k, x.ran.srcW[k]);
  }

  lemma LiveIs(c: C.Hierarchy, x: J.Executed)
    requires c.fetch.Length == FETCH_LINES
    ensures Live(c, x) <==> c.fetch[J.Slot(x.base)].base == x.base
  {
  }

  lemma LiveOrNot(c: C.Hierarchy, x: J.Executed)
    requires c.Shape() && x.base % 32 == 0 && x.base < ADDRESSES
    ensures c.fetch.Length == FETCH_LINES && (c.NoFetch(BlockOf(x.base)) <==> !Live(c, x))
  {
    hide J.Executed.Faithful;
  }

  /** What one act entered and executed, against the flat memory at its start: the
      block entered is genuine, and from its entry on so is each instruction. */
  ghost predicate ActOk(act: Act, log: seq<J.Executed>, insns: seq<nat>, flat: FlatMemory.Memory, decode: nat -> nat) {
    && |log| <= 1 && (act.Memory? ==> log == []) && (log == [] ==> insns == [])
    && (log != [] ==> Executes(log[0], act.body, insns, flat, decode))
  }

  ghost predicate Executes(x: J.Executed, body: seq<Piece>, insns: seq<nat>, flat: FlatMemory.Memory, decode: nat -> nat) {
    && Genuine(x, flat) && |insns| <= |body| && (body != [] ==> insns != [])
    && forall i :: 0 <= i < |insns| ==> WordIs(insns[i], x.base, WordAt(x.ran.k, body, i), Meanwhile(flat, decode, body, i))
  }

  method Step(c: C.Hierarchy, m: J.Machine, act: Act) returns (log: seq<J.Executed>, insns: seq<nat>)
    requires Coupled(c, m) && act.Legal()
    modifies c, c.tv, c.age, c.l1d, c.l2, c.fetch, m, m.line, m.fl, m.rr
    ensures Coupled(c, m) && ActOk(act, log, insns, old(c.flat), c.decode)
    ensures c.flat == ActFlat(old(c.flat), c.decode, act, |insns|)
  {
    hide T.FlatStep, Meanwhile, Genuine, WordIs, C.Hierarchy.NoFetch, C.Hierarchy.Shape, Coupled, Live;
    log, insns := [], [];
    match act {
      case Memory(op) => Touch(c, m, op);
      case Native(ev, body) =>
        log := Door(c, m, ev);
        MeanwhileNone(c.flat, c.decode, body);
        if log != [] {
          insns := Within(c, m, log[0], body);
        }
    }
  }

  /** An entry or a hop. */
  method Door(c: C.Hierarchy, m: J.Machine, ev: J.Event) returns (log: seq<J.Executed>)
    requires Coupled(c, m) && (ev.Enter? || ev.Traverse?)
    modifies m, m.line, m.fl, m.rr
    ensures Coupled(c, m) && c.fetch.Length == FETCH_LINES && |log| <= 1
    ensures log != [] ==> Genuine(log[0], c.flat) && Live(c, log[0])
  {
    hide C.Hierarchy.Valid, J.Machine.Valid, C.Hierarchy.Shape, J.Machine.Shape, J.Slot, C.WordOf;
    Shapes(c, m);
    log := m.Step(ev);
    Shapes(c, m);
    forall s | 0 <= s < FETCH_LINES
      ensures SameLine(c, m, s)
    {
      assert old(SameLine(c, m, s)) && m.fl[s] == old(m.fl[s]);
    }
    assert c.Valid();
    if log != [] {
      Genuinely(c, m, log[0]);
    }
  }

  /** What the JIT enters from a coupled line is what memory holds. */
  lemma Genuinely(c: C.Hierarchy, m: J.Machine, x: J.Executed)
    requires Coupled(c, m) && x.Faithful() && x.base != NO_BASE && m.Shape() && c.fetch.Length == FETCH_LINES
    requires m.fl[J.Slot(x.base)] == J.Resident(x.base, x.resident)
    ensures Genuine(x, c.flat) && Live(c, x)
  {
    hide C.Hierarchy.Valid, J.Machine.Valid, C.WordOf, J.Slot, WordIs, BigEndian, GetBytes;
    Shapes(c, m);
    var s := J.Slot(x.base);
    assert SameLine(c, m, s);
    LineIs(c, s);
    forall k | 0 <= k < 8
      ensures WordIs(x.ran.srcW[k], x.base, k, c.flat)
    {
      LineWord(c.flat, x.base, k, x.ran.srcW[k]);
    }
    EntryWord(x, c.flat);
  }

  lemma EntryWord(x: J.Executed, flat: FlatMemory.Memory)
    requires x.Faithful() && |x.ran.srcW| == 8 && forall k :: 0 <= k < 8 ==> WordIs(x.ran.srcW[k], x.base, k, flat)
    ensures x.ran.k < 8 && x.base + (x.pc % 32 - x.pc % 4) < ADDRESSES
    ensures x.ran.srcW[x.ran.k] == BigEndian(GetBytes(flat, x.base + (x.pc % 32 - x.pc % 4), 4))
  {
    hide BigEndian, GetBytes;
    assert WordIs(x.ran.srcW[x.ran.k], x.base, x.ran.k, flat);
  }

  // ---- whole runs -----------------------------------------------------------

  /** Over every run: every instruction executed in native code, whether entered,
      hopped to or fallen through to, is the one memory holds at that moment. logs[k]
      is what act k entered and ran[k] the instructions it executed there. */
  method Run(c: C.Hierarchy, m: J.Machine, acts: seq<Act>) returns (logs: seq<seq<J.Executed>>, ran: seq<seq<nat>>)
    requires Coupled(c, m) && forall i :: 0 <= i < |acts| ==> acts[i].Legal()
    modifies c, c.tv, c.age, c.l1d, c.l2, c.fetch, m, m.line, m.fl, m.rr
    ensures Coupled(c, m) && |logs| == |ran| == |acts| && c.flat == FlatAt(old(c.flat), c.decode, acts, ran, |acts|)
    ensures forall k :: 0 <= k < |acts| ==>
      ActOk(acts[k], logs[k], ran[k], FlatAt(old(c.flat), c.decode, acts, ran, k), c.decode)
  {
    hide Coupled, ActOk, ActFlat, FlatAt;
    logs, ran := [], [];
    AtStart(c.flat, c.decode, acts);
    for i := 0 to |acts|
      invariant Coupled(c, m) && |logs| == |ran| == i && c.flat == FlatAt(old(c.flat), c.decode, acts, ran, i)
      invariant forall k :: 0 <= k < i ==>
        ActOk(acts[k], logs[k], ran[k], FlatAt(old(c.flat), c.decode, acts, ran, k), c.decode)
    {
      var log, insns := Step(c, m, acts[i]);
      NextAct(old(c.flat), c.decode, acts, ran, insns);
      logs, ran := logs + [log], ran + [insns];
    }
  }

  /** From power-on. */
  method ColdStart(mem: FlatMemory.Memory, sets: nat, on: bool, decode: nat -> nat, ram: Block -> bool,
                   capacity: nat, first: nat, acts: seq<Act>) returns (logs: seq<seq<J.Executed>>, ran: seq<seq<nat>>)
    requires sets > 0 && first + J.ARENA_MARGIN <= capacity && forall i :: 0 <= i < |acts| ==> acts[i].Legal()
    ensures |logs| == |ran| == |acts|
    ensures forall k :: 0 <= k < |acts| ==> ActOk(acts[k], logs[k], ran[k], FlatAt(mem, decode, acts, ran, k), decode)
  {
    hide C.Hierarchy.Valid, J.Machine.Valid, ActOk, FlatAt;
    var c := new C.Hierarchy(mem, sets, on, decode, ram);
    var m := new J.Machine(capacity, first);
    Sync(c, m);
    logs, ran := Run(c, m, acts);
  }
}
