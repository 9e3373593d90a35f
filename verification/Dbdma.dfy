/** The DBDMA engine with a streaming sink: descriptors that stall and resume,
    branch rings and idle parking, against the list read straight through. */
module Dbdma {
  import opened Units

  const MAX_STEPS: nat := 65536
  const MAX_IDLE: nat := 512

  function Wrap(x: nat): Word {
    x % 0x1_0000_0000
  }

  /** The first three words of a descriptor. */
  datatype Desc = Desc(w0: Word, address: Word, cmdDep: Word) {
    function Op(): nat {
      w0 / 0x1000_0000
    }

    function Req(): nat {
      w0 % 0x1_0000
    }

    function Branch(): nat {
      if Op() == 4 || Op() == 5 then 0 else w0 / 0x4_0000 % 4
    }

    predicate Output() {
      Op() == 0 || Op() == 1
    }

    predicate Input() {
      Op() == 2 || Op() == 3
    }

    /** Descriptors that complete on the spot: STORE_QUAD, LOAD_QUAD, NOP. */
    predicate Immediate() {
      4 <= Op() <= 6
    }
  }

  /** The command is the top four bits of the first word, the branch field bits 18
      and 19, the count the low half; the quad commands never branch. */
  lemma FieldsOf(d: Desc, op: nat, above: nat, branch: nat, wait: nat, count: nat)
    requires op < 16 && above < 256 && branch < 4 && wait < 4 && count < 0x1_0000
    requires d.w0 == op * 0x1000_0000 + above * 0x10_0000 + branch * 0x4_0000 + wait * 0x1_0000 + count
    ensures d.Op() == op && d.Req() == count && d.Branch() == if op in {4, 5} then 0 else branch
  {
    assert d.w0 / 0x1000_0000 == op;
    var top := (op * 256 + above) * 4;
    assert d.w0 / 0x4_0000 == top + branch;
    assert d.w0 == ((top + branch) * 4 + wait) * 0x1_0000 + count;
  }

  /** A descriptor a list can go past: no STOP and no unknown command, no empty
      OUTPUT, and no INPUT that still wants bytes. */
  predicate Passable(d: Desc) {
    && d.w0 < 0x7000_0000
    && (if d.w0 < 0x2000_0000 then d.w0 % 0x1_0000 > 0 else d.w0 < 0x4000_0000 ==> d.w0 % 0x1_0000 == 0)
  }

  lemma MovablePasses(p: Program, at: Word)
    ensures Movable(p, at) <==> Passable(p.desc(at))
  {
  }

  /** What the engine works on, unmodified while it runs: the descriptors, the
      memory they point into, and whether the branch condition holds. */
  datatype Program = Program(desc: Word -> Desc, mem: Word -> Byte, cond: bool) {
    function Bytes(at: nat, n: nat): (r: seq<Byte>)
      ensures |r| == n
    {
      seq<Byte>(n, (k: nat) => mem(Wrap(at + k)))
    }

    /** Where the list goes after the descriptor at p. */
    function Next(p: Word): Word {
      var d := desc(p);
      var take := d.Branch() == 3 || (d.Branch() == 1 && cond) || (d.Branch() == 2 && !cond);
      if take then d.cmdDep - d.cmdDep % 16 else Wrap(p + 16)
    }

    /** What the descriptor at p delivers when it is read straight through. */
    function Payload(p: Word): seq<Byte> {
      if desc(p).Output() then Bytes(desc(p).address, desc(p).Req()) else []
    }

    /** The n-th descriptor of the list. */
    function At(start: Word, n: nat): Word {
      if n == 0 then start else Next(At(start, n - 1))
    }

    /** The bytes of its first n descriptors. */
    function Stream(start: Word, n: nat): seq<Byte> {
      if n == 0 then [] else Stream(start, n - 1) + Payload(At(start, n - 1))
    }

    /** One status word each, with nothing left over. */
    function Reports(start: Word, n: nat): seq<Report> {
      if n == 0 then [] else Reports(start, n - 1) + [Report(At(start, n - 1), 0)]
    }
  }

  /** A status word written back: which descriptor, and its residual count. */
  datatype Report = Report(at: Word, residual: nat)

  /** The bytes lie one after another, round the top of memory. */
  lemma BytesAt(p: Program, at: nat, n: nat, k: nat)
    requires k < n
    ensures p.Bytes(at, n)[k] == p.mem((at + k) % 0x1_0000_0000)
  {
    var x := at + k;
    assert p.Bytes(at, n)[k] == p.mem(Wrap(x));
    assert Wrap(x) == x % 0x1_0000_0000;
  }

  lemma BytesSplit(p: Program, at: nat, a: nat, b: nat)
    ensures p.Bytes(at, a) + p.Bytes(Wrap(at + a), b) == p.Bytes(at, a + b)
  {
    var l, r := p.Bytes(at, a) + p.Bytes(Wrap(at + a), b), p.Bytes(at, a + b);
    forall k | 0 <= k < a + b
      ensures l[k] == r[k]
    {
      if k >= a {
        WrapWrap(at + a, k - a);
      }
    }
  }

  lemma BytesPrefix(p: Program, at: nat, a: nat, n: nat)
    requires a <= n
    ensures p.Bytes(at, n)[..a] == p.Bytes(at, a)
  {
  }

  lemma WrapWrap(x: nat, k: nat)
    ensures Wrap(Wrap(x) + k) == Wrap(x + k)
  {
  }

  class Channel {
    var running: bool
    var active: bool
    var dead: bool
    var cmdPtr: Word
    var xferDone: nat
    /** What the sink has been handed, and the status words written. */
    var received: seq<Byte>
    var reports: seq<Report>
    ghost var start: Word
    ghost var completed: nat

    /** The sink holds the list's own bytes up to where the channel stands, and
        only finished descriptors have been reported. */
    ghost predicate Follows(p: Program)
      reads this
    {
      var d := p.desc(cmdPtr);
      && cmdPtr == p.At(start, completed) && Past(p, start, completed)
      && (xferDone > 0 ==> d.Output() && xferDone < d.Req())
      && received == p.Stream(start, completed) + p.Bytes(d.address, xferDone)
      && reports == p.Reports(start, completed)
    }

    constructor ()
      ensures !running && !active && received == [] && reports == []
    {
      running, active, dead, cmdPtr, xferDone := false, false, false, 0, 0;
      received, reports, start, completed := [], [], 0, 0;
    }

    /** The status word is written, nothing left over: on to the next descriptor,
        by the branch or by sequence. */
    method Advance(p: Program)
      requires cmdPtr == p.At(start, completed) && reports == p.Reports(start, completed) + [Report(cmdPtr, 0)]
      requires received == p.Stream(start, completed) + p.Payload(cmdPtr) && Past(p, start, completed) && Passable(p.desc(cmdPtr))
      modifies this`cmdPtr, this`xferDone, this`completed
      ensures Follows(p) && completed == old(completed) + 1 && xferDone == 0
    {
      hide Program.Bytes, Program.Payload, Program.Stream, Program.Reports, Program.At, Wrap, Passable;
      NextStep(p, start, completed);
      xferDone := 0;
      var d := p.desc(cmdPtr);
      var br := d.Branch();
      var take := br == 3;
      if br == 1 || br == 2 {
        take := if br == 1 then p.cond else !p.cond;
      }
      if take {
        cmdPtr := d.cmdDep - d.cmdDep % 16;
      } else {
        cmdPtr := Wrap(cmdPtr + 16);
      }
      completed := completed + 1;
    }

    /** Offers the rest of an OUTPUT descriptor; the sink takes up to `accept`.
        The channel goes on only when the whole descriptor has moved. */
    method Output(p: Program, accept: nat) returns (park: bool, moved: nat)
      requires Follows(p) && p.desc(cmdPtr).Output()
      modifies this`cmdPtr, this`xferDone, this`received, this`reports, this`completed
      ensures Follows(p) && old(received) <= received && |received| == |old(received)| + moved
      ensures park ==> completed == old(completed) && cmdPtr == old(cmdPtr)
      ensures EmptyOutput(p, old(cmdPtr)) ==> received == old(received)
      ensures !park ==> completed == old(completed) + 1 && moved > 0
      ensures accept > 0 && p.desc(old(cmdPtr)).Req() > 0 ==> moved > 0
      ensures park <==> p.desc(old(cmdPtr)).Req() == 0 || accept < p.desc(old(cmdPtr)).Req() - old(xferDone)
    {
      hide Program.Stream, Program.Reports, Program.At, Program.Next, Program.Bytes, Wrap, Desc.Req, Passable;
      var d := p.desc(cmdPtr);
      var want := d.Req() - xferDone;
      var tmp := p.Bytes(Wrap(d.address + xferDone), want);
      moved := if accept < want then accept else want;
      BytesSplit(p, d.address, xferDone, moved);
      BytesPrefix(p, Wrap(d.address + xferDone), moved, want);
      received := received + tmp[..moved];
      xferDone := xferDone + moved;
      if xferDone == 0 || xferDone < d.Req() {
        return true, moved;
      }
      reports := reports + [Report(cmdPtr, d.Req() - xferDone)];
      MovablePasses(p, cmdPtr);
      Advance(p);
      park := false;
    }

    /** A descriptor that moves nothing here. */
    method Skip(p: Program)
      requires Follows(p) && Movable(p, cmdPtr) && !p.desc(cmdPtr).Output()
      modifies this`cmdPtr, this`xferDone, this`reports, this`completed
      ensures Follows(p) && completed == old(completed) + 1
    {
      hide Program.Stream, Program.Reports, Program.At, Program.Bytes, Program.Next, Program.Payload, Wrap, Desc.Req, Desc.Op, Passable;
      NoPayload(p, cmdPtr);
      MovablePasses(p, cmdPtr);
      reports := reports + [Report(cmdPtr, 0)];
      Advance(p);
    }

    /** The engine: descriptors until one parks, the list stops, or a ring goes
        round without moving a byte. It goes inactive only at a STOP, and at an
        unknown command, where it is dead. */
    method Run(p: Program, accept: nat -> nat)
      requires Follows(p)
      modifies this`active, this`dead, this`cmdPtr, this`xferDone, this`received, this`reports, this`completed
      ensures Follows(p) && completed >= old(completed) && old(received) <= received
      ensures running && p.desc(old(cmdPtr)).Output() && 0 < p.desc(old(cmdPtr)).Req() <= accept(0) ==> completed > old(completed)
      ensures running && Movable(p, old(cmdPtr)) && accept(0) > 0 ==> completed + |received| > old(completed + |received|)
      ensures Movable(p, cmdPtr) ==> active == old(active)
      ensures running && p.desc(old(cmdPtr)).w0 >= 0x7000_0000 ==>
        !active && completed == old(completed) && received == old(received) && reports == old(reports)
      ensures active != old(active) || dead != old(dead) ==> !active && p.desc(cmdPtr).w0 >= 0x7000_0000
      ensures active != old(active) ==> dead == (p.desc(cmdPtr).w0 >= 0x8000_0000 || old(dead))
      ensures EmptyOutput(p, old(cmdPtr)) ==> cmdPtr == old(cmdPtr) && completed == old(completed) && received == old(received)
    {
      hide Program.Stream, Program.Reports, Program.At, Program.Bytes, Program.Next, Program.Payload, Wrap, Desc.Req, Desc.Op, Passable;
      var idle, steps := 0, 0;
      while steps < MAX_STEPS
        invariant Follows(p) && completed >= old(completed) && old(received) <= received
        invariant steps > 0 ==> completed > old(completed)
        invariant steps == 0 ==>
          cmdPtr == old(cmdPtr) && xferDone == old(xferDone) && completed == old(completed) && received == old(received)
        invariant EmptyOutput(p, old(cmdPtr)) ==> steps == 0
        invariant active == old(active) && dead == old(dead) && (steps == 0 ==> reports == old(reports))
        invariant p.desc(old(cmdPtr)).w0 >= 0x7000_0000 ==> steps == 0
        decreases MAX_STEPS - steps
      {
        if !running {
          return;
        }
        var d := p.desc(cmdPtr);
        var moved := 0;
        OpIs(d);
        if d.Op() == 7 {
          Kinds(d);
          active, xferDone := false, 0;
          return;
        } else if d.Output() {
          var park;
          park, moved := Output(p, accept(steps));
          if park {
            return;
          }
        } else if d.Input() && d.Req() > 0 {
          return;
        } else if d.Input() || d.Immediate() {
          Kinds(d);
          Skip(p);
        } else {
          dead, active := true, false;
          return;
        }
        if moved > 0 {
          idle := 0;
        } else {
          idle := idle + 1;
          if idle > MAX_IDLE {
            return;
          }
        }
        steps := steps + 1;
      }
    }

    /** RUN goes from clear to set: a fresh list from its head. */
    method Start(p: Program, at: Word, accept: nat -> nat)
      requires !running && received == [] && reports == []
      modifies this
      ensures Follows(p) && running && start == at && (Movable(p, cmdPtr) ==> active)
    {
      cmdPtr := at;
      start, completed := at, 0;
      running, dead, active, xferDone := true, false, true, 0;
      Run(p, accept);
    }

    /** The device has room again. */
    method Wake(p: Program, accept: nat -> nat)
      requires Follows(p)
      modifies this`active, this`dead, this`cmdPtr, this`xferDone, this`received, this`reports, this`completed
      ensures Follows(p) && completed >= old(completed) && old(received) <= received
      ensures running && old(active) && Movable(p, old(cmdPtr)) && accept(0) > 0 ==> completed + |received| > old(completed + |received|)
      ensures Movable(p, cmdPtr) ==> active == old(active)
      ensures EmptyOutput(p, old(cmdPtr)) ==> cmdPtr == old(cmdPtr) && completed == old(completed) && received == old(received)
    {
      if running && active {
        Run(p, accept);
      }
    }

    /** A channelControl write with WAKE that leaves RUN as it is. */
    method Poke(p: Program, accept: nat -> nat)
      requires Follows(p)
      modifies this`active, this`dead, this`cmdPtr, this`xferDone, this`received, this`reports, this`completed
      ensures Follows(p) && completed >= old(completed) && old(received) <= received
      ensures running && Movable(p, old(cmdPtr)) && accept(0) > 0 ==> completed + |received| > old(completed + |received|)
      ensures Movable(p, cmdPtr) ==> active == old(active)
      ensures EmptyOutput(p, old(cmdPtr)) ==> cmdPtr == old(cmdPtr) && completed == old(completed) && received == old(received)
    {
      if running {
        Run(p, accept);
      }
    }

    /** A channelControl write with FLUSH: the descriptor in progress ends where
        it stands, its residual reported. */
    method Flush(p: Program)
      requires Follows(p)
      modifies this`active, this`xferDone, this`reports
      ensures if old(active) && cmdPtr != 0 then
          !active && reports == old(reports) + [Report(cmdPtr, (p.desc(cmdPtr).Req() - old(xferDone)) % 0x1_0000)]
        else active == old(active) && reports == old(reports)
      ensures old(active) && cmdPtr != 0 && old(xferDone) > 0 ==> reports[|reports| - 1].residual > 0 && !Follows(p)
    {
      if active && cmdPtr != 0 {
        ghost var m := xferDone;
        reports := reports + [Report(cmdPtr, (p.desc(cmdPtr).Req() - xferDone) % 0x1_0000)];
        xferDone := 0;
        active := false;
        ReportsCount(p, start, completed);
      }
    }
  }

  /** Nothing on the way stops the list. */
  ghost predicate Past(p: Program, start: Word, n: nat) {
    forall k: nat :: k < n ==> Passable(p.desc(p.At(start, k)))
  }

  lemma NextStep(p: Program, start: Word, n: nat)
    ensures p.At(start, n + 1) == p.Next(p.At(start, n))
    ensures p.Stream(start, n + 1) == p.Stream(start, n) + p.Payload(p.At(start, n))
    ensures p.Reports(start, n + 1) == p.Reports(start, n) + [Report(p.At(start, n), 0)]
    ensures forall at: nat :: p.Bytes(at, 0) == []
  {
  }

  lemma OpIs(d: Desc)
    ensures d.w0 >= 0x7000_0000 <==> d.Op() >= 7
    ensures d.w0 >= 0x8000_0000 <==> d.Op() > 7
    ensures d.Output() || d.Input() || d.Immediate() <==> d.Op() < 7
  {
  }

  lemma Kinds(d: Desc)
    ensures d.Op() == 7 || d.Input() || d.Immediate() ==> !d.Output()
  {
  }

  lemma NoPayload(p: Program, at: Word)
    requires !p.desc(at).Output()
    ensures p.Payload(at) == [] && p.Bytes(p.desc(at).address, 0) == p.Payload(at)
  {
  }

  lemma {:induction false} ReportsCount(p: Program, start: Word, n: nat)
    ensures |p.Reports(start, n)| == n
  {
    if n > 0 {
      ReportsCount(p, start, n - 1);
    }
  }

  datatype Op = Wake(room: nat -> nat) | Poke(room: nat -> nat)

  /** However the sink takes its bytes and whenever it is woken, it is handed the
      list's own stream once and in order, and a status word appears only for a
      descriptor that has moved all its bytes. */
  method Session(p: Program, at: Word, first: nat -> nat, ops: seq<Op>) returns (c: Channel)
    ensures fresh(c) && c.Follows(p) && c.start == at
  {
    c := new Channel();
    c.Start(p, at, first);
    for i := 0 to |ops|
      invariant fresh(c) && c.Follows(p) && c.start == at
    {
      match ops[i]
      case Wake(room) => c.Wake(p, room);
      case Poke(room) => c.Poke(p, room);
    }
  }

  /** Enough wakes and pokes whose sink takes at least a byte finish any number of
      descriptors that can move: one for each byte and one for each descriptor. */
  method Delivers(p: Program, at: Word, n: nat, first: nat -> nat, ops: seq<Op>) returns (c: Channel)
    requires forall k :: 0 <= k < n ==> Movable(p, p.At(at, k))
    requires |ops| >= n + |p.Stream(at, n)| && forall i :: 0 <= i < |ops| ==> ops[i].room(0) > 0
    ensures fresh(c) && c.Follows(p) && c.start == at && c.completed >= n
    ensures p.Stream(at, n) <= c.received && p.Reports(at, n) <= c.reports
  {
    hide Movable, Program.Stream, Program.Reports, Program.At;
    c := new Channel();
    c.Start(p, at, first);
    for i := 0 to |ops|
      invariant fresh(c) && c.Follows(p) && c.start == at && c.running
      invariant c.completed < n ==> c.active && c.completed + |c.received| >= i
    {
      Standing(c, p);
      match ops[i]
      case Wake(room) => c.Wake(p, room);
      case Poke(room) => c.Poke(p, room);
      Standing(c, p);
    }
    WorkLeft(c, p, n);
    Standing(c, p);
    StreamGrows(p, at, n, c.completed);
  }

  lemma Standing(c: Channel, p: Program)
    requires c.Follows(p)
    ensures c.cmdPtr == p.At(c.start, c.completed)
    ensures p.Stream(c.start, c.completed) <= c.received && c.reports == p.Reports(c.start, c.completed)
  {
  }

  /** A channel short of its n-th descriptor has work left. */
  lemma WorkLeft(c: Channel, p: Program, n: nat)
    requires c.Follows(p)
    ensures c.completed < n ==> c.completed + |c.received| < n + |p.Stream(c.start, n)|
  {
    hide Program.At, Program.Bytes;
    if c.completed < n {
      StreamGrows(p, c.start, c.completed + 1, n);
    }
  }

  /** Two prefixes of one list agree: the shorter is a prefix of the longer. */
  lemma {:induction false} StreamGrows(p: Program, start: Word, n: nat, m: nat)
    requires n <= m
    ensures p.Stream(start, n) <= p.Stream(start, m) && p.Reports(start, n) <= p.Reports(start, m)
    decreases m
  {
    if n < m {
      StreamGrows(p, start, n, m - 1);
    }
  }

  /** A descriptor the channel can finish without anybody else's help: an OUTPUT with
      bytes to give, an INPUT that wants none, or one done on the spot. */
  predicate Movable(p: Program, at: Word) {
    var d := p.desc(at);
    (d.Output() && d.Req() > 0) || (d.Input() && d.Req() == 0) || d.Immediate()
  }

  predicate EmptyOutput(p: Program, at: Word) {
    p.desc(at).Output() && p.desc(at).Req() == 0
  }

  /** An empty OUTPUT descriptor parks the channel for good: no wake moves it. */
  method EmptyOutputParks(c: Channel, p: Program, ops: seq<Op>)
    requires c.Follows(p) && EmptyOutput(p, c.cmdPtr)
    modifies c
    ensures c.cmdPtr == old(c.cmdPtr) && c.completed == old(c.completed) && c.received == old(c.received)
  {
    for i := 0 to |ops|
      invariant c.Follows(p) && c.cmdPtr == old(c.cmdPtr) && c.completed == old(c.completed) && c.received == old(c.received)
    {
      match ops[i]
      case Wake(room) => c.Wake(p, room);
      case Poke(room) => c.Poke(p, room);
    }
  }
}
