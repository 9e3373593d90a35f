/** The removable medium of the packet drive: host ejects, inserts, swaps and
    staged discs against the guest's packet commands, over whole runs. */
module AtapiMedium {
  type Path = string

  const SWAP_DWELL: nat := 25_000_000
  const SWAP_FALLBACK: nat := 125_000_000

  const REQUEST_SENSE: nat := 0x03
  const INQUIRY: nat := 0x12
  const START_STOP: nat := 0x1B
  const PREVENT: nat := 0x1E
  const READ_10: nat := 0x28
  const READ_12: nat := 0xA8

  /** What host and guest can tell happened. */
  datatype Event =
    | Inserted(disc: Path)
    | Removed(byGuest: bool)
    | Attention
    | Absent
    | Succeeded(op: nat)
    | Asked(lba: nat, count: nat)
    | Served(disc: Path, asked: Path, first: nat, count: nat)

  /** One packet command: the bits of its CDB that matter to the medium. */
  datatype Packet = Packet(op: nat, load: bool, start: bool, lba: nat, count: nat)

  predicate NeedsMedium(op: nat) {
    op in {0x00, 0x25, 0x28, 0x2B, 0x42, 0x43, 0x44, 0x4B, 0x51, 0x52, 0xA4, 0xA8, 0xAD, 0xB9, 0xBE}
  }

  /** Medium commands the drive carries out; the others are illegal requests. */
  predicate Supported(op: nat) {
    op in {0x00, 0x25, 0x28, 0x2B, 0x43, 0xA8}
  }

  predicate Reads(op: nat) {
    op == READ_10 || op == READ_12
  }

  predicate KnownOther(op: nat) {
    op in {0x03, 0x12, 0x1B, 0x35, 0x5A, 0xBB}
  }

  /** Everything carried out on the medium needs it, reads included; what needs none
      is carried out without asking for one. */
  lemma OpsApart(op: nat)
    ensures (Reads(op) ==> Supported(op)) && (Supported(op) ==> NeedsMedium(op)) && !(KnownOther(op) && NeedsMedium(op))
    ensures op in {START_STOP, INQUIRY, REQUEST_SENSE} ==> KnownOther(op)
    ensures op == PREVENT ==> !NeedsMedium(op)
  {
  }

  // ---- what a run promises --------------------------------------------------

  /** Between an insertion and the next medium command that succeeds, the guest
      was told by a unit attention. */
  ghost predicate Announced(log: seq<Event>) {
    forall i, j :: 0 <= i < j < |log| && log[i].Inserted? && log[j].Succeeded? && NeedsMedium(log[j].op) ==>
      exists k :: i < k < j && log[k].Attention?
  }

  /** Once the guest has read a disc, no host removal and no insertion comes
      before the guest's own eject. */
  ghost predicate Kept(log: seq<Event>) {
    forall i, j :: 0 <= i < j < |log| && log[i].Served? && Displaces(log[j]) ==>
      exists k :: i < k < j && log[k] == Removed(true)
  }

  predicate Displaces(e: Event) {
    e == Removed(false) || e.Inserted?
  }

  /** Every block served came from the disc its READ was issued against. */
  ghost predicate FromOneDisc(log: seq<Event>) {
    forall i :: 0 <= i < |log| && log[i].Served? ==> log[i].disc == log[i].asked
  }

  /** Blocks a READ still owes: from lba on, left of them. */
  datatype Span = Span(lba: nat, left: nat)

  /** What the latest READ still owes. */
  function Owing(log: seq<Event>): Span {
    if log == [] then Span(0, 0)
    else
      var e, was := log[|log| - 1], Owing(log[..|log| - 1]);
      match e
      case Asked(lba, count) => Span(lba, count)
      case Served(_, _, _, count) => Span(was.lba + count, if count <= was.left then was.left - count else 0)
      case _ => was
  }

  /** Every chunk begins at the next block its READ owes, and is no more than that. */
  ghost predicate InOrder(log: seq<Event>) {
    forall i :: 0 <= i < |log| && log[i].Served? ==> Fits(log[i], Owing(log[..i]))
  }

  predicate Fits(e: Event, owing: Span)
    requires e.Served?
  {
    e.first == owing.lba && 1 <= e.count <= owing.left
  }

  function Range(lba: nat, n: nat): seq<nat> {
    seq(n, i requires i >= 0 => lba + i)
  }

  /** The block numbers served, one after another. */
  function Blocks(log: seq<Event>): seq<nat> {
    if log == [] then []
    else
      var e := log[|log| - 1];
      Blocks(log[..|log| - 1]) + if e.Served? then Range(e.first, e.count) else []
  }

  lemma BlocksSnoc(log: seq<Event>, e: Event)
    ensures Blocks(log + [e]) == Blocks(log) + if e.Served? then Range(e.first, e.count) else []
    ensures Owing(log + [e]) == match e
      case Asked(lba, count) => Span(lba, count)
      case Served(_, _, _, count) => Span(Owing(log).lba + count, if count <= Owing(log).left then Owing(log).left - count else 0)
      case _ => Owing(log)
  {
    assert (log + [e])[..|log|] == log;
  }

  /** Between one READ and the next, the blocks asked for are served from the first
      on, each once and in order, and never one more than asked. */
  lemma {:induction false} OnceInOrder(log: seq<Event>, r: nat, n: nat)
    requires InOrder(log) && r < n <= |log| && log[r].Asked? && forall i :: r < i < n ==> !log[i].Asked?
    ensures var b := Blocks(log[r..n]);
      && b == Range(log[r].lba, |b|) && |b| <= log[r].count
      && Owing(log[..n]) == Span(log[r].lba + |b|, log[r].count - |b|)
    decreases n
  {
    hide Blocks, Owing, Range, InOrder, Fits;
    var e := log[n - 1];
    assert log[..n] == log[..n - 1] + [e];
    BlocksSnoc(log[..n - 1], e);
    if r == n - 1 {
      assert log[r..n] == [] + [e];
      BlocksSnoc([], e);
      RangeOf(e.lba, []);
    } else {
      OnceInOrder(log, r, n - 1);
      assert log[r..n] == log[r..n - 1] + [e];
      BlocksSnoc(log[r..n - 1], e);
      if e.Served? {
        NextFits(log, n - 1);
        RangeOn(log[r].lba, |Blocks(log[r..n - 1])|, e.count);
      }
    }
  }

  lemma NextFits(log: seq<Event>, i: nat)
    requires InOrder(log) && i < |log| && log[i].Served?
    ensures log[i].first == Owing(log[..i]).lba && 1 <= log[i].count <= Owing(log[..i]).left
  {
    hide Owing;
    assert Fits(log[i], Owing(log[..i]));
  }

  lemma RangeOf(lba: nat, log: seq<Event>)
    requires log == []
    ensures Blocks(log) == [] == Range(lba, 0)
  {
  }

  lemma RangeOn(lba: nat, a: nat, b: nat)
    ensures Range(lba, a) + Range(lba + a, b) == Range(lba, a + b)
    ensures |Range(lba, a)| == a && |Range(lba + a, b)| == b
  {
  }

  lemma InOrderSnoc(log: seq<Event>, e: Event)
    requires InOrder(log) && (e.Served? ==> Fits(e, Owing(log)))
    ensures InOrder(log + [e])
  {
    hide Owing;
    assert (log + [e])[..|log|] == log;
    forall i | 0 <= i < |log|
      ensures (log + [e])[..i] == log[..i]
    {
    }
  }

  /** A chunk may hold k blocks: one in any case, more within the byte-count limit,
      of which 0 and 0xFFFF mean 0xFE00; no more than are owed, and no audio. */
  ghost predicate MayServe(lba: nat, left: nat, limit: nat, audio: set<nat>, k: nat) {
    && 1 <= k <= left && (k == 1 || 2048 * k <= if limit in {0, 0xFFFF} then 0xFE00 else limit)
    && forall b: nat :: lba <= b < lba + k ==> b !in audio
  }

  /** The longest such chunk. */
  ghost predicate Chunk(lba: nat, left: nat, limit: nat, audio: set<nat>, k: nat) {
    MayServe(lba, left, limit, audio, k) && forall j: nat :: MayServe(lba, left, limit, audio, j) ==> j <= k
  }

  lemma ChunkIs(lba: nat, left: nat, limit: nat, audio: set<nat>, k: nat)
    requires MayServe(lba, left, limit, audio, k) && !MayServe(lba, left, limit, audio, k + 1)
    ensures Chunk(lba, left, limit, audio, k)
  {
  }

  /** What the divisions and the scan arrive at. */
  lemma LongestIs(lba: nat, left: nat, limit: nat, audio: set<nat>, sectors: nat, k: nat)
    requires var l := if limit == 0 || limit == 0xFFFF then 0xFE00 else limit;
      var most := if l / 2048 == 0 then 1 else l / 2048;
      left > 0 && sectors == if most > left then left else most
    requires 1 <= k <= sectors && lba !in audio && forall b: nat :: lba + 1 <= b < lba + k ==> b !in audio
    requires k == sectors || lba + k in audio
    ensures Chunk(lba, left, limit, audio, k)
  {
    ChunkIs(lba, left, limit, audio, k);
  }

  /** An insertion the guest has not heard about. */
  function Owed(log: seq<Event>): bool {
    if log == [] then false
    else
      var e := log[|log| - 1];
      e.Inserted? || (!e.Attention? && Owed(log[..|log| - 1]))
  }

  /** A disc the guest has read and not put away. */
  function Held(log: seq<Event>): bool {
    if log == [] then false
    else
      var e := log[|log| - 1];
      e.Served? || (e != Removed(true) && Held(log[..|log| - 1]))
  }

  lemma OwedSnoc(log: seq<Event>, e: Event)
    ensures Owed(log + [e]) == (e.Inserted? || (!e.Attention? && Owed(log)))
    ensures Held(log + [e]) == (e.Served? || (e != Removed(true) && Held(log)))
  {
    assert (log + [e])[..|log|] == log;
  }

  lemma {:induction false} NotOwed(log: seq<Event>, i: nat)
    requires i < |log| && log[i].Inserted? && !Owed(log)
    ensures exists k :: i < k < |log| && log[k].Attention?
    decreases |log|
  {
    var n := |log| - 1;
    if !log[n].Attention? {
      NotOwed(log[..n], i);
      var k :| i < k < n && log[..n][k].Attention?;
      assert log[k].Attention?;
    }
  }

  lemma {:induction false} NotHeld(log: seq<Event>, i: nat)
    requires i < |log| && log[i].Served? && !Held(log)
    ensures exists k :: i < k < |log| && log[k] == Removed(true)
    decreases |log|
  {
    var n := |log| - 1;
    if log[n] != Removed(true) {
      NotHeld(log[..n], i);
      var k :| i < k < n && log[..n][k] == Removed(true);
      assert log[k] == Removed(true);
    }
  }

  lemma OneDiscSnoc(log: seq<Event>, e: Event)
    ensures FromOneDisc(log) && (e.Served? ==> e.disc == e.asked) ==> FromOneDisc(log + [e])
  {
  }

  lemma AnnouncedSnoc(log: seq<Event>, e: Event)
    requires Announced(log) && (e.Succeeded? && NeedsMedium(e.op) ==> !Owed(log))
    ensures Announced(log + [e])
  {
    var l := log + [e];
    forall i, j | 0 <= i < j < |l| && l[i].Inserted? && l[j].Succeeded? && NeedsMedium(l[j].op)
      ensures exists k :: i < k < j && l[k].Attention?
    {
      if j == |log| {
        NotOwed(log, i);
        var k :| i < k < |log| && log[k].Attention?;
        assert l[k].Attention?;
      } else {
        assert log[i].Inserted? && log[j].Succeeded?;
        var k :| i < k < j && log[k].Attention?;
        assert l[k].Attention?;
      }
    }
  }

  /** A held disc was served from, and the guest has not ejected since. */
  lemma {:induction false} HeldWitness(log: seq<Event>) returns (i: nat)
    requires Held(log)
    ensures i < |log| && log[i].Served? && forall k :: i < k < |log| ==> log[k] != Removed(true)
    decreases |log|
  {
    var n := |log| - 1;
    if log[n].Served? {
      i := n;
    } else {
      i := HeldWitness(log[..n]);
      forall k | i < k < |log|
        ensures log[k] != Removed(true)
      {
        assert k < n ==> log[..n][k] == log[k];
      }
    }
  }

  /** One more event keeps the promise exactly when it displaces no held disc. */
  lemma KeptSnoc(log: seq<Event>, e: Event)
    requires Kept(log)
    ensures Kept(log + [e]) <==> !(Displaces(e) && Held(log))
  {
    var l := log + [e];
    if Displaces(e) && Held(log) {
      var i := HeldWitness(log);
      assert l[i].Served? && Displaces(l[|log|]);
      assert forall k :: i < k < |log| ==> l[k] == log[k];
    } else {
      forall i, j | 0 <= i < j < |l| && l[i].Served? && Displaces(l[j])
        ensures exists k :: i < k < j && l[k] == Removed(true)
      {
        var k := EjectBetween(log, e, i, j);
        assert l[k] == Removed(true);
      }
    }
  }

  lemma EjectBetween(log: seq<Event>, e: Event, i: nat, j: nat) returns (k: nat)
    requires Kept(log) && !(Displaces(e) && Held(log)) && i < j <= |log|
    requires (log + [e])[i].Served? && Displaces((log + [e])[j])
    ensures i < k < j && log[k] == Removed(true)
  {
    if j == |log| {
      NotHeld(log, i);
      k :| i < k < |log| && log[k] == Removed(true);
    } else {
      assert log[i].Served? && Displaces(log[j]);
      k :| i < k < j && log[k] == Removed(true);
    }
  }

  // ---- the drive ------------------------------------------------------------

  datatype Op =
    | HostEject
    | HostInsert(path: Path, opens: bool)
    | HostSwap(path: Path, opens: bool)
    | HostStage(path: Path, opens: bool)
    | Tick(tb: nat, opens: bool)
    | Command(p: Packet, limit: nat, audio: set<nat>)
    | Drained(limit: nat, audio: set<nat>)
  {
    /** The host changes the disc without asking whether the guest has read it. */
    predicate Direct() {
      HostEject? || HostInsert? || HostSwap?
    }

    /** The events this operation may leave in the log: only the host's own
        operations remove a disc for the host. */
    predicate Did(es: seq<Event>) {
      match this
      case HostEject => es == [] || es == [Removed(false)]
      case HostInsert(path, opens) => if opens then es == [Inserted(path)] else es == [] || es == [Removed(false)]
      case HostSwap(path, opens) => es == [Removed(false)] || es == if opens then [Inserted(path)] else []
      case HostStage(path, opens) => es == [] || es == [Removed(false)] || (opens && es == [Inserted(path)])
      case Tick(_, opens) => es == [] || (opens && |es| == 1 && es[0].Inserted?)
      case Command(_, _, _) => Removed(false) !in es
      case Drained(_, _) => es == [] || (|es| == 1 && es[0].Served?)
    }
  }

  class Drive {
    var open: bool
    var mediaPath: Path
    var ejected: bool
    var unitAttention: bool
    var absentSeen: bool
    var locked: bool
    var staged: Path
    var ejectedAt: nat
    var blocksRead: nat
    var readLba: nat
    var readLeft: nat
    var now: nat
    var failed: bool
    ghost var asked: Path
    ghost var log: seq<Event>

    predicate Present()
      reads this
    {
      open && !ejected
    }

    ghost predicate Valid()
      reads this
    {
      unitAttention == Owed(log) && Announced(log) && InOrder(log) && (readLeft > 0 ==> Owing(log) == Span(readLba, readLeft))
    }

    /** hostStage's own test: the guest has read the disc now in the tray. */
    predicate Guarded()
      reads this
    {
      Present() && blocksRead > 0
    }

    /** The log keeps its promises, and a read under way is of the disc in the tray. */
    ghost predicate Seated()
      reads this
    {
      && Kept(log) && FromOneDisc(log) && (Held(log) <==> Guarded())
      && (readLeft > 0 ==> Present() && asked == mediaPath)
    }

    /** What holds as long as no guarded disc is displaced. */
    ghost predicate Staged()
      reads this
    {
      Seated() && (readLeft > 0 ==> blocksRead > 0)
    }

    /** A drive with a disc attached before the guest starts, or an empty one. */
    constructor (attached: bool, path: Path)
      ensures Valid() && Staged() && log == [] && Present() == attached && blocksRead == 0 && staged == ""
      ensures !unitAttention && mediaPath == path
    {
      open, mediaPath, ejected, unitAttention, absentSeen, locked := attached, path, false, false, false, false;
      staged, ejectedAt, blocksRead, readLba, readLeft, now, failed := "", 0, 0, 0, 0, 0, false;
      asked, log := "", [];
    }

    ghost method Note(e: Event)
      requires Announced(log) && (e.Succeeded? && NeedsMedium(e.op) ==> !Owed(log))
      requires InOrder(log) && (e.Served? ==> Fits(e, Owing(log)))
      modifies this`log
      ensures log == old(log) + [e] && Announced(log) && InOrder(log)
      ensures e.Asked? ==> Owing(log) == Span(e.lba, e.count)
      ensures e.Served? ==> Owing(log) == Span(Owing(old(log)).lba + e.count, Owing(old(log)).left - e.count)
      ensures !e.Asked? && !e.Served? ==> Owing(log) == Owing(old(log))
      ensures Owed(log) == (e.Inserted? || (!e.Attention? && Owed(old(log))))
      ensures Held(log) == (e.Served? || (e != Removed(true) && Held(old(log))))
      ensures Kept(old(log)) ==> (Kept(log) <==> !(Displaces(e) && Held(old(log))))
      ensures FromOneDisc(old(log)) && (e.Served? ==> e.disc == e.asked) ==> FromOneDisc(log)
    {
      hide Owing, Owed, Held, Announced, InOrder, FromOneDisc, Kept;
      AnnouncedSnoc(log, e);
      InOrderSnoc(log, e);
      OwedSnoc(log, e);
      BlocksSnoc(log, e);
      OneDiscSnoc(log, e);
      if Kept(log) {
        KeptSnoc(log, e);
      }
      log := log + [e];
    }

    method Eject(byGuest: bool)
      requires Valid()
      modifies this
      ensures old(log) <= log
      ensures Valid() && ejected
      ensures if old(ejected) then unchanged(this) else readLeft == 0 && !absentSeen && ejectedAt == now && log == old(log) + [Removed(byGuest)]
      ensures open == old(open) && staged == old(staged) && mediaPath == old(mediaPath) && failed == old(failed)
      ensures old(Staged()) ==> (Kept(log) <==> byGuest || !old(Guarded())) && (Kept(log) ==> Staged())
    {
      hide Owed, Owing, Held, Announced, InOrder, Kept, FromOneDisc;
      if ejected {
        return;
      }
      ejected, absentSeen, ejectedAt, readLeft := true, false, now, 0;
      Note(Removed(byGuest));
    }

    method Insert(path: Path, opens: bool) returns (ok: bool)
      requires Valid()
      modifies this
      ensures old(log) <= log
      ensures Valid() && ok == opens && (ok ==> Present() && unitAttention && blocksRead == 0 && mediaPath == path)
      ensures log == if opens then old(log) + [Inserted(path)] else if old(Present()) then old(log) + [Removed(false)] else old(log)
      ensures !ok ==> !Present() && ejected
      ensures absentSeen == (old(absentSeen) && !ok) && ejectedAt == old(ejectedAt) && readLeft == old(readLeft)
      ensures staged == old(staged)
      ensures old(Staged()) ==> (Kept(log) <==> !old(Guarded())) && (Kept(log) ==> Staged())
    {
      hide Owed, Owing, Held, Announced, InOrder, Kept, FromOneDisc;
      if !opens && Present() {
        Note(Removed(false));
      }
      open := opens;
      if !opens {
        ejected := true;
        return false;
      }
      mediaPath, ejected, unitAttention, absentSeen, blocksRead := path, false, true, false, 0;
      Note(Inserted(path));
      ok := true;
    }

    method Swap(path: Path, opens: bool) returns (ok: bool)
      requires Valid()
      modifies this
      ensures old(log) <= log
      ensures Valid()
      ensures old(Present()) ==> ok && staged == path && !Present() && log == old(log) + [Removed(false)]
      ensures !old(Present()) ==> ok == opens && Present() == opens && staged == old(staged)
      ensures !old(Present()) ==> log == if opens then old(log) + [Inserted(path)] else old(log)
      ensures old(Staged()) ==> (Kept(log) <==> !old(Guarded())) && (Kept(log) ==> Staged())
    {
      hide Owed, Owing, Held, Announced, InOrder, Kept, FromOneDisc;
      if !Present() {
        ok := Insert(path, opens);
        return;
      }
      staged := path;
      Eject(false);
      ok := true;
    }

    /** The safe way: a disc the guest has read stays in. */
    method Stage(path: Path, opens: bool) returns (ok: bool)
      requires Valid()
      modifies this
      ensures old(log) <= log
      ensures Valid() && (old(Staged()) ==> Staged())
      ensures old(Guarded()) ==> ok && Present() && mediaPath == old(mediaPath) && log == old(log) && staged == path
      ensures !old(Guarded()) ==>
        log == if old(Present()) then old(log) + [Removed(false)] else if opens then old(log) + [Inserted(path)] else old(log)
    {
      hide Owed, Owing, Held, Announced, InOrder, Kept, FromOneDisc;
      if !Present() || blocksRead == 0 {
        ok := Swap(path, opens);
        return;
      }
      staged := path;
      ok := true;
    }

    /** Time passes: a staged disc goes in once the guest has been told the tray
        is empty and the dwell is over, or after the fallback. */
    method Advance(tb: nat, opens: bool)
      requires Valid()
      modifies this
      ensures old(log) <= log
      ensures Valid() && (old(Staged()) ==> Staged())
      ensures var since := (tb - old(ejectedAt)) % 0x1_0000_0000_0000_0000;
        var due := old(staged != "" && ejected) && ((old(absentSeen) && since >= SWAP_DWELL) || since >= SWAP_FALLBACK);
        && (due ==> staged == "" && log == if opens then old(log) + [Inserted(old(staged))] else old(log))
        && (!due ==> log == old(log) && staged == old(staged) && Present() == old(Present()))
    {
      hide Owed, Owing, Held, Announced, InOrder, Kept, FromOneDisc;
      now := tb;
      if staged != "" && ejected {
        var since := (tb - ejectedAt) % 0x1_0000_0000_0000_0000;
        if (absentSeen && since >= SWAP_DWELL) || since >= SWAP_FALLBACK {
          var p := staged;
          staged := "";
          var _ := Insert(p, opens);
        }
      }
    }

    /** Serves the next chunk of a read, the longest that the byte-count limit, what
        is left and the audio allow. */
    method FinishPio(drained: bool, limit: nat, audio: set<nat>)
      requires Valid()
      modifies this`blocksRead, this`readLba, this`readLeft, this`failed, this`log
      ensures old(log) <= log
      ensures Valid() && (old(Seated()) ==> Staged())
      ensures if old(readLeft) > 0 && old(readLba) !in audio then
          var k: int := old(readLeft) - readLeft;
          && 1 <= k && Chunk(old(readLba), old(readLeft), limit, audio, k) && readLba == old(readLba) + k && !failed
          && blocksRead == old(blocksRead) + k && log == old(log) + [Served(mediaPath, asked, old(readLba), k)]
        else
          readLeft == 0 && log == old(log) && blocksRead == old(blocksRead) && failed == (old(readLeft) > 0 || (old(failed) && !drained))
    {
      hide Owed, Owing, Held, Announced, InOrder, Kept, FromOneDisc;
      if readLeft == 0 {
        if drained {
          failed := false;
        }
        return;
      }
      if readLba in audio {
        readLeft, failed := 0, true;
        return;
      }
      var l := if limit == 0 || limit == 0xFFFF then 0xFE00 else limit;
      var sectors := l / 2048;
      if sectors == 0 {
        sectors := 1;
      }
      if sectors > readLeft {
        sectors := readLeft;
      }
      var k := 1;
      while k < sectors && readLba + k !in audio
        invariant 1 <= k <= sectors && forall b: nat :: readLba + 1 <= b < readLba + k ==> b !in audio
      {
        k := k + 1;
      }
      assert Chunk(readLba, readLeft, limit, audio, k) by {
        LongestIs(readLba, readLeft, limit, audio, sectors, k);
      }
      sectors := k;
      blocksRead, readLba, readLeft, failed := blocksRead + sectors, readLba + sectors, readLeft - sectors, false;
      Note(Served(mediaPath, asked, readLba - sectors, sectors));
    }

    /** START STOP UNIT with the eject bit: close on the disc that was in the tray,
        unless another is staged; or open. */
    method Tray(start: bool)
      requires Valid()
      modifies this
      ensures old(log) <= log
      ensures Valid() && (old(Staged()) ==> Staged())
      ensures staged == old(staged) && mediaPath == old(mediaPath) && failed == old(failed)
      ensures if start && old(open && ejected && staged == "") then
          Present() && unitAttention && blocksRead == 0 && log == old(log) + [Inserted(mediaPath)]
        else if !start && !old(ejected) then !Present() && readLeft == 0 && log == old(log) + [Removed(true)]
        else log == old(log) && Present() == old(Present())
    {
      hide Owed, Owing, Held, Announced, InOrder, Kept, FromOneDisc;
      if start {
        if open && ejected && staged == "" {
          ejected, unitAttention, blocksRead := false, true, 0;
          Note(Inserted(mediaPath));
        }
      } else if !ejected {
        Eject(true);
      }
    }

    /** READ: the first chunk of count blocks from lba. */
    method StartRead(lba: nat, count: nat, limit: nat, audio: set<nat>)
      requires Valid() && Present() && readLeft == 0 && !failed
      modifies this`readLba, this`readLeft, this`asked, this`blocksRead, this`failed, this`log
      ensures Valid() && (old(Staged()) ==> Staged())
      ensures count == 0 ==> readLeft == 0 && !failed && log == old(log) + [Asked(lba, count)] && blocksRead == old(blocksRead)
      ensures count > 0 && lba in audio ==> readLeft == 0 && failed && log == old(log) + [Asked(lba, count)]
      ensures count > 0 && lba !in audio ==>
        && !failed && readLeft < count && readLba == lba + (count - readLeft) && Chunk(lba, count, limit, audio, count - readLeft)
        && log == old(log) + [Asked(lba, count), Served(mediaPath, mediaPath, lba, count - readLeft)]
      ensures Owed(log) == Owed(old(log))
    {
      hide Owed, Owing, Held, Announced, InOrder, Kept, FromOneDisc, Chunk;
      readLba, readLeft, asked := lba, count, mediaPath;
      Note(Asked(lba, count));
      FinishPio(false, limit, audio);
    }

    method Carry(p: Packet, limit: nat, audio: set<nat>)
      requires Valid() && (NeedsMedium(p.op) ==> Present() && !unitAttention) && readLeft == 0
      modifies this
      ensures old(log) <= log && Removed(false) !in log[|old(log)|..]
      ensures Valid() && (old(Staged()) ==> Staged())
      ensures Reads(p.op) && p.count > 0 ==>
        Present() && mediaPath == old(mediaPath) && failed == (p.lba in audio) && old(log) + [Asked(p.lba, p.count)] <= log
      ensures Reads(p.op) && p.count > 0 ==>
        if p.lba in audio then readLeft == 0 && log == old(log) + [Asked(p.lba, p.count)]
        else
          readLeft < p.count && readLba == p.lba + (p.count - readLeft) && Chunk(p.lba, p.count, limit, audio, p.count - readLeft)
          && log == old(log) + [Asked(p.lba, p.count), Served(mediaPath, mediaPath, p.lba, p.count - readLeft), Succeeded(p.op)]
      ensures NeedsMedium(p.op) && Supported(p.op) && !Reads(p.op) ==> !failed && log == old(log) + [Succeeded(p.op)]
      ensures NeedsMedium(p.op) && !Supported(p.op) ==> failed && log == old(log)
      ensures p.op == START_STOP && p.load && !p.start && !old(ejected) ==> log == old(log) + [Removed(true)] && !Present()
    {
      hide Owed, Owing, Held, Announced, InOrder, Kept, FromOneDisc, Chunk;
      failed := false;
      if p.op == START_STOP && p.load {
        Tray(p.start);
      } else if p.op == PREVENT {
        locked := p.start;
      } else if p.op == READ_10 || p.op == READ_12 {
        StartRead(p.lba, p.count, limit, audio);
      } else if !Supported(p.op) && !KnownOther(p.op) {
        failed := true;
      }
      if NeedsMedium(p.op) && !failed {
        Note(Succeeded(p.op));
      }
    }

    /** One packet command: the medium first, then the command itself. */
    method Issue(p: Packet, limit: nat, audio: set<nat>)
      requires Valid()
      modifies this
      ensures old(log) <= log && Removed(false) !in log[|old(log)|..]
      ensures Valid() && (old(Staged()) ==> Staged())
      ensures old(unitAttention) && p.op != INQUIRY && p.op != REQUEST_SENSE ==>
        failed && !unitAttention && log == old(log) + [Attention]
      ensures !old(unitAttention) && NeedsMedium(p.op) && !old(Present()) ==>
        failed && absentSeen && log == old(log) + [Absent]
      ensures !old(unitAttention) && old(Present()) && Reads(p.op) && p.count > 0 ==>
        Present() && mediaPath == old(mediaPath) && failed == (p.lba in audio) && old(log) + [Asked(p.lba, p.count)] <= log
      ensures !old(unitAttention) && old(Present()) && Reads(p.op) && p.count > 0 ==>
        if p.lba in audio then readLeft == 0 && log == old(log) + [Asked(p.lba, p.count)]
        else
          readLeft < p.count && readLba == p.lba + (p.count - readLeft) && Chunk(p.lba, p.count, limit, audio, p.count - readLeft)
          && log == old(log) + [Asked(p.lba, p.count), Served(mediaPath, mediaPath, p.lba, p.count - readLeft), Succeeded(p.op)]
      ensures !old(unitAttention) && old(Present()) && Supported(p.op) && !Reads(p.op) ==>
        !failed && log == old(log) + [Succeeded(p.op)]
      ensures !old(unitAttention) && !old(ejected) && p.op == START_STOP && p.load && !p.start ==>
        log == old(log) + [Removed(true)] && !Present()
    {
      hide Owed, Owing, Held, Announced, InOrder, Kept, FromOneDisc;
      readLeft := 0;
      if p.op != INQUIRY && p.op != REQUEST_SENSE {
        if unitAttention {
          unitAttention, failed := false, true;
          Note(Attention);
          return;
        }
        if NeedsMedium(p.op) && !Present() {
          absentSeen, failed := true, true;
          Note(Absent);
          return;
        }
      }
      Carry(p, limit, audio);
    }

    /** A READ and the drains after it: exactly the blocks asked for, each once and
        in order, up to the first audio block, where the command fails. */
    method ReadThrough(p: Packet, limits: seq<nat>, audio: set<nat>)
      requires Valid() && Reads(p.op) && p.count > 0 && !unitAttention && Present() && |limits| > 0
      modifies this
      ensures old(log) + [Asked(p.lba, p.count)] <= log
      ensures Valid() && (old(Staged()) ==> Staged())
      ensures var b := Blocks(log[|old(log)|..]);
        && b == Range(p.lba, |b|) && |b| <= p.count && (forall i :: 0 <= i < |b| ==> b[i] !in audio)
        && (failed <==> |b| < p.count && p.lba + |b| in audio && readLeft == 0)
        && readLeft == (if failed then 0 else p.count - |b|) && (readLeft == 0 || |b| >= |limits|)
    {
      hide Owed, Owing, Held, Announced, InOrder, Kept, FromOneDisc, Chunk, Blocks, Range;
      ghost var start := log;
      Issue(p, limits[0], audio);
      ghost var n := |start|;
      FirstChunk(start, log, mediaPath, p, limits[0], audio, readLeft);
      var i := 1;
      while i < |limits| && readLeft > 0
        invariant Valid() && 1 <= i <= |limits| && start + [Asked(p.lba, p.count)] <= log && (old(Staged()) ==> Staged())
        invariant Reading(Blocks(log[n..]), p, audio, readLba, readLeft, failed) && (readLeft == 0 || |Blocks(log[n..])| >= i)
      {
        ghost var was, lba, left := log, readLba, readLeft;
        FinishPio(true, limits[i], audio);
        NextChunk(was, log, n, p, limits[i], audio, mediaPath, asked, lba, left, readLba, readLeft, failed);
        i := i + 1;
      }
      DoneReading(Blocks(log[n..]), p, audio, readLba, readLeft, failed);
    }

    method Step(op: Op)
      requires Valid()
      modifies this
      ensures Valid() && (old(Staged()) && Kept(log) ==> Staged())
      ensures old(Staged()) ==> (Kept(log) <==> !(op.Direct() && old(Guarded())))
      ensures old(log) <= log && op.Did(log[|old(log)|..])
    {
      hide Owed, Owing, Held, Announced, InOrder, Kept, FromOneDisc;
      match op
      case HostEject => Eject(false);
      case HostInsert(path, opens) => var _ := Insert(path, opens);
      case HostSwap(path, opens) => var _ := Swap(path, opens);
      case HostStage(path, opens) => var _ := Stage(path, opens);
      case Tick(tb, opens) => Advance(tb, opens);
      case Command(p, limit, audio) => Issue(p, limit, audio);
      case Drained(limit, audio) => FinishPio(true, limit, audio);
    }

    /** Every run announces each insertion before any medium command succeeds; a
        run that changes discs only by staging keeps a read disc until the guest
        ejects it and never mixes two discs in one read. With the host's eject,
        insert and swap too, the read disc is kept exactly when none of them came
        while the guest held one, which is when hostStage would have left it in. */
    method Run(ops: seq<Op>) returns (ghost marks: seq<nat>)
      requires Valid()
      modifies this
      ensures Valid() && Announced(log) && InOrder(log) && Marked(old(log), log, ops, marks)
      ensures old(Staged()) && (forall i :: 0 <= i < |ops| ==> !ops[i].Direct()) ==> Kept(log)
      ensures old(Staged()) ==> (Kept(log) <==> Undisturbed(log, ops, marks)) && (Kept(log) ==> FromOneDisc(log))
    {
      hide Owed, Owing, Held, Announced, InOrder, Kept, FromOneDisc, Op.Did, Marked, Undisturbed;
      ghost var start, tame := log, Staged();
      marks := [|log|];
      NothingMarked(log);
      assert ops[..0] == [];
      for i := 0 to |ops|
        invariant |marks| == i + 1 && Valid() && Marked(start, log, ops[..i], marks)
        invariant tame ==> (Kept(log) <==> Undisturbed(log, ops[..i], marks))
        invariant tame && Kept(log) ==> Staged()
      {
        ghost var was := log;
        Step(ops[i]);
        KeptBefore(was, log);
        MarkedSnoc(start, was, log, ops[..i], ops[i], marks);
        assert ops[..i + 1] == ops[..i] + [ops[i]];
        marks := marks + [|log|];
      }
      assert ops[..|ops|] == ops;
      DirectOnly(log, ops, marks);
    }
  }

  /** Where a READ stands: what it served, what is left, whether it was refused. */
  ghost predicate Reading(b: seq<nat>, p: Packet, audio: set<nat>, lba: nat, left: nat, failed: bool) {
    && b == Range(p.lba, |b|) && |b| <= p.count && (forall x :: p.lba <= x < p.lba + |b| ==> x !in audio)
    && (if failed then left == 0 && |b| < p.count && p.lba + |b| in audio else left == p.count - |b| && lba == p.lba + |b|)
  }

  lemma FirstChunk(start: seq<Event>, log: seq<Event>, disc: Path, p: Packet, limit: nat, audio: set<nat>, left: nat)
    requires p.count > 0
    requires if p.lba in audio then
        left == 0 && log == start + [Asked(p.lba, p.count)]
      else
        left < p.count && Chunk(p.lba, p.count, limit, audio, p.count - left)
        && log == start + [Asked(p.lba, p.count), Served(disc, disc, p.lba, p.count - left), Succeeded(p.op)]
    ensures var b := Blocks(log[|start|..]);
      && Reading(b, p, audio, p.lba + (p.count - left), left, p.lba in audio) && (left == 0 || |b| >= 1)
  {
    hide Owing;
    var asks := [] + [Asked(p.lba, p.count)];
    BlocksSnoc([], Asked(p.lba, p.count));
    assert Range(p.lba, 0) == [];
    if p.lba in audio {
      assert log[|start|..] == asks;
    } else {
      var e := Served(disc, disc, p.lba, p.count - left);
      BlocksSnoc(asks, e);
      BlocksSnoc(asks + [e], Succeeded(p.op));
      assert log[|start|..] == asks + [e] + [Succeeded(p.op)];
    }
  }

  lemma NextChunk(was: seq<Event>, log: seq<Event>, n: nat, p: Packet, limit: nat, audio: set<nat>, disc: Path, asked: Path,
                  lba: nat, left: nat, lba': nat, left': nat, failed: bool)
    requires n <= |was| && left > 0 && Reading(Blocks(was[n..]), p, audio, lba, left, false)
    requires if lba !in audio then
        left' < left && Chunk(lba, left, limit, audio, left - left') && lba' == lba + (left - left') && !failed
        && log == was + [Served(disc, asked, lba, left - left')]
      else left' == 0 && log == was && failed
    ensures var b, c := Blocks(was[n..]), Blocks(log[n..]);
      Reading(c, p, audio, lba', left', failed) && (left' == 0 || |c| > |b|)
  {
    hide Owing, Blocks;
    if lba !in audio {
      var e, b := Served(disc, asked, lba, left - left'), Blocks(was[n..]);
      assert log[n..] == was[n..] + [e];
      BlocksSnoc(was[n..], e);
      RangeOn(p.lba, |b|, left - left');
    }
  }

  lemma DoneReading(b: seq<nat>, p: Packet, audio: set<nat>, lba: nat, left: nat, failed: bool)
    requires Reading(b, p, audio, lba, left, failed)
    ensures b == Range(p.lba, |b|) && |b| <= p.count && forall i :: 0 <= i < |b| ==> b[i] !in audio
    ensures failed <==> |b| < p.count && p.lba + |b| in audio && left == 0
    ensures left == if failed then 0 else p.count - |b|
  {
  }

  /** marks cuts the log of a run at its operations: what lies between two marks is
      what one operation did. */
  ghost predicate Marked(start: seq<Event>, log: seq<Event>, ops: seq<Op>, marks: seq<nat>) {
    && |marks| == |ops| + 1 && marks[0] == |start| && marks[|ops|] == |log| && start <= log
    && forall i :: 0 <= i < |ops| ==> Part(log, ops[i], marks, i)
  }

  ghost predicate Part(log: seq<Event>, op: Op, marks: seq<nat>, i: nat)
    requires i + 1 < |marks|
  {
    marks[i] <= marks[i + 1] <= |log| && op.Did(log[marks[i]..marks[i + 1]])
  }

  /** No direct change of disc came while the guest held one. */
  ghost predicate Undisturbed(log: seq<Event>, ops: seq<Op>, marks: seq<nat>)
    requires |marks| > |ops|
  {
    forall i :: 0 <= i < |ops| ==> !(ops[i].Direct() && HeldAt(log, marks[i]))
  }

  ghost predicate HeldAt(log: seq<Event>, n: nat) {
    n <= |log| && Held(log[..n])
  }

  lemma DirectOnly(log: seq<Event>, ops: seq<Op>, marks: seq<nat>)
    requires |marks| > |ops|
    ensures (forall i :: 0 <= i < |ops| ==> !ops[i].Direct()) ==> Undisturbed(log, ops, marks)
  {
  }

  lemma NothingMarked(log: seq<Event>)
    ensures Marked(log, log, [], [|log|]) && Undisturbed(log, [], [|log|])
  {
  }

  /** A longer log leaves the parts and the prefixes of the shorter one alone. */
  lemma PartGrows(log: seq<Event>, more: seq<Event>, op: Op, marks: seq<nat>, n: nat, i: nat)
    requires i + 1 < |marks| && log <= more && Part(log, op, marks, i)
    ensures Part(more, op, marks + [n], i) && (HeldAt(more, marks[i]) <==> HeldAt(log, marks[i]))
  {
    hide Op.Did, Held;
    assert more[marks[i]..marks[i + 1]] == log[marks[i]..marks[i + 1]];
    assert more[..marks[i]] == log[..marks[i]];
  }

  lemma LastPart(log: seq<Event>, more: seq<Event>, op: Op, marks: seq<nat>, i: nat)
    requires i + 1 == |marks| && marks[i] == |log| && log <= more && op.Did(more[|log|..])
    ensures Part(more, op, marks + [|more|], i) && (HeldAt(more, marks[i]) <==> Held(log))
  {
    hide Op.Did, Held;
    assert more[|log|..|more|] == more[|log|..];
    assert more[..|log|] == log;
  }

  lemma MarkedSnoc(start: seq<Event>, log: seq<Event>, more: seq<Event>, ops: seq<Op>, op: Op, marks: seq<nat>)
    requires Marked(start, log, ops, marks) && log <= more && op.Did(more[|log|..])
    ensures Marked(start, more, ops + [op], marks + [|more|])
    ensures Undisturbed(more, ops + [op], marks + [|more|]) <==> Undisturbed(log, ops, marks) && !(op.Direct() && Held(log))
  {
    hide Op.Did, Held, HeldAt, Part, Op.Direct;
    var n, ops', marks' := |ops|, ops + [op], marks + [|more|];
    LastPart(log, more, op, marks, n);
    forall i | 0 <= i < n
      ensures Part(more, ops[i], marks', i) && (HeldAt(more, marks[i]) <==> HeldAt(log, marks[i]))
    {
      PartGrows(log, more, ops[i], marks, |more|, i);
    }
    assert ops'[n] == op && marks'[n] == marks[n];
    assert forall i :: 0 <= i < n ==> ops'[i] == ops[i] && marks'[i] == marks[i];
  }

  /** A promise once broken stays broken. */
  lemma KeptBefore(log: seq<Event>, more: seq<Event>)
    requires log <= more
    ensures Kept(more) ==> Kept(log)
  {
    if Kept(more) {
      forall i, j | 0 <= i < j < |log| && log[i].Served? && Displaces(log[j])
        ensures exists k :: i < k < j && log[k] == Removed(true)
      {
        assert more[i].Served? && Displaces(more[j]);
        var k :| i < k < j && more[k] == Removed(true);
        assert log[k] == Removed(true);
      }
    }
  }

  /** The whole life of a drive, from power-on. */
  method Life(attached: bool, path: Path, ops: seq<Op>) returns (d: Drive, ghost marks: seq<nat>)
    ensures fresh(d) && Announced(d.log) && InOrder(d.log) && Marked([], d.log, ops, marks)
    ensures (forall i :: 0 <= i < |ops| ==> !ops[i].Direct()) ==> Kept(d.log)
    ensures (Kept(d.log) <==> Undisturbed(d.log, ops, marks)) && (Kept(d.log) ==> FromOneDisc(d.log))
  {
    hide Owed, Owing, Held, Announced, InOrder, Kept, FromOneDisc, Marked, Undisturbed;
    d := new Drive(attached, path);
    marks := d.Run(ops);
  }

  /** Swapping does not keep a read disc: the guest reads a block of "a", the host
      swaps to "b". The tray opens under the guest with "b" waiting. */
  method SwapDisplaces(limit: nat) returns (d: Drive, ghost ops: seq<Op>)
    ensures ops == [Command(Packet(READ_10, false, false, 0, 1), limit, {}), HostSwap("b", true)]
    ensures d.log == [Asked(0, 1), Served("a", "a", 0, 1), Succeeded(READ_10), Removed(false)] && Marked([], d.log, ops, [0, 3, 4])
    ensures !d.Present() && d.staged == "b" && !Kept(d.log) && !Undisturbed(d.log, ops, [0, 3, 4])
  {
    hide Owed, Owing, Held, Announced, InOrder, Kept, FromOneDisc, Marked, Undisturbed, Op.Did, Drive.Valid, Drive.Staged;
    d := new Drive(true, "a");
    var read := Packet(READ_10, false, false, 0, 1);
    d.Issue(read, limit, {});
    var _ := d.Swap("b", true);
    ops := [Command(read, limit, {}), HostSwap("b", true)];
    SwapMarks(d.log, ops);
  }

  lemma SwapMarks(log: seq<Event>, ops: seq<Op>)
    requires log == [Asked(0, 1), Served("a", "a", 0, 1), Succeeded(READ_10), Removed(false)]
    requires |ops| == 2 && ops[0].Command? && ops[1] == HostSwap("b", true)
    ensures Marked([], log, ops, [0, 3, 4]) && !Undisturbed(log, ops, [0, 3, 4]) && !Kept(log)
  {
    hide Held;
    var read := Served("a", "a", 0, 1);
    assert log[0..3] == [Asked(0, 1), read, Succeeded(READ_10)] && log[3..4] == [Removed(false)];
    OwedSnoc([Asked(0, 1)], read);
    OwedSnoc([Asked(0, 1)] + [read], Succeeded(READ_10));
    assert log[..3] == [Asked(0, 1)] + [read] + [Succeeded(READ_10)];
    assert HeldAt(log, 3) && ops[1].Direct();
    assert log[1].Served? && Displaces(log[3]);
  }
}
