/** The OHCI controller's linked lists in RAM: endpoint queues drained onto the
    done list, and the done list handed over through the HCCA. */
module OhciQueues {
  import opened Units
  import opened OhciRam

  const LIST_LIMIT: nat := 64

  // ---- linked lists ---------------------------------------------------------

  /** From a, the list holds exactly tds and ends at 0 or at stop. */
  predicate List(m: Ram, a: nat, stop: nat, tds: seq<nat>)
    decreases |tds|
  {
    if tds == [] then a == 0 || a == stop
    else a == tds[0] && a != 0 && a != stop && List(m, Next(m, a), stop, tds[1..])
  }

  predicate NoDup(s: seq<nat>) {
    forall i, j :: 0 <= i < j < |s| ==> s[i] != s[j]
  }

  predicate Apart(a: seq<nat>, b: seq<nat>) {
    forall i, j :: 0 <= i < |a| && 0 <= j < |b| ==> a[i] != b[j]
  }

  lemma {:induction false} ListKept(m: Ram, n: Ram, a: nat, stop: nat, tds: seq<nat>)
    requires List(m, a, stop, tds) && forall i :: 0 <= i < |tds| ==> Ld(n, tds[i] + 8) == Ld(m, tds[i] + 8)
    ensures List(n, a, stop, tds)
    decreases |tds|
  {
    hide Ld;
    if tds != [] {
      ListKept(m, n, Next(m, a), stop, tds[1..]);
    }
  }

  // ---- who owns what --------------------------------------------------------

  /** The queues of the endpoints, with the logical head of each. */
  datatype Queues = Queues(of: map<nat, seq<nat>>, heads: map<nat, nat>)

  ghost predicate QueueOk(sh: Layout, m: Ram, qs: Queues, ed: nat)
    requires ed in qs.of && ed in qs.heads
  {
    && sh.Descriptor(ed) && NoDup(qs.of[ed]) && List(m, qs.heads[ed], Tail(m, ed), qs.of[ed])
    && forall i :: 0 <= i < |qs.of[ed]| ==>
         sh.Descriptor(qs.of[ed][i]) && qs.of[ed][i] !in qs.of && BufferClear(sh, m, qs.of[ed][i])
  }

  /** A list of finished descriptors, apart from every queue. */
  ghost predicate Finished(sh: Layout, m: Ram, qs: Queues, a: nat, tds: seq<nat>) {
    && NoDup(tds) && List(m, a, 0, tds)
    && (forall i :: 0 <= i < |tds| ==> sh.Descriptor(tds[i]) && tds[i] !in qs.of)
    && forall ed :: ed in qs.of ==> Apart(tds, qs.of[ed])
  }

  ghost predicate QueuesOk(sh: Layout, m: Ram, qs: Queues) {
    && qs.of.Keys == qs.heads.Keys
    && (forall ed :: ed in qs.of ==> QueueOk(sh, m, qs, ed))
    && AllApart(qs.of)
  }

  ghost predicate AllApart(of: map<nat, seq<nat>>) {
    forall ed, other :: ed in of && other in of && ed != other ==> Apart(of[ed], of[other])
  }

  /** HeadP in RAM agrees with the logical head. */
  predicate HeadStored(m: Ram, qs: Queues, ed: nat)
    requires ed in qs.heads
  {
    Pointer(Ld(m, ed + 8)) == qs.heads[ed]
  }

  // ---- retiring the head of a queue -----------------------------------------

  function Popped(m: Ram, qs: Queues, ed: nat): Queues
    requires ed in qs.of && qs.of[ed] != []
  {
    Queues(qs.of[ed := qs.of[ed][1..]], qs.heads[ed := Next(m, qs.of[ed][0])])
  }

  lemma QueueKept(sh: Layout, m: Ram, n: Ram, qs: Queues, qs': Queues, ed: nat)
    requires ed in qs.of && ed in qs.heads && QueueOk(sh, m, qs, ed)
    requires ed in qs'.heads && qs'.of.Keys == qs.of.Keys && qs'.of[ed] == qs.of[ed] && qs'.heads[ed] == qs.heads[ed]
    requires Tail(n, ed) == Tail(m, ed) && forall i :: 0 <= i < |qs.of[ed]| ==> SameCell(m, n, qs.of[ed][i])
    ensures QueueOk(sh, n, qs', ed)
  {
    hide Ld, List, NoDup;
    var q := qs.of[ed];
    ListKept(m, n, qs.heads[ed], Tail(m, ed), q);
    forall i | 0 <= i < |q|
      ensures BufferClear(sh, n, q[i])
    {
      assert SameCell(m, n, q[i]) && BufferClear(sh, m, q[i]);
    }
  }

  lemma QueuePopped(sh: Layout, m: Ram, n: Ram, qs: Queues, ed: nat)
    requires ed in qs.of && ed in qs.heads && QueueOk(sh, m, qs, ed) && qs.of[ed] != []
    requires SameCell(m, n, ed) && forall i :: 1 <= i < |qs.of[ed]| ==> SameCell(m, n, qs.of[ed][i])
    ensures QueueOk(sh, n, Popped(m, qs, ed), ed) && qs.heads[ed] == qs.of[ed][0]
  {
    hide Ld;
    var q := qs.of[ed];
    var rest := q[1..];
    forall i | 0 <= i < |rest|
      ensures SameCell(m, n, rest[i]) && BufferClear(sh, n, rest[i])
    {
      assert rest[i] == q[i + 1];
      assert BufferClear(sh, m, q[i + 1]);
    }
    ListKept(m, n, Next(m, q[0]), Tail(m, ed), rest);
  }

  lemma FinishedKept(sh: Layout, m: Ram, n: Ram, qs: Queues, ed: nat, a: nat, tds: seq<nat>)
    requires ed in qs.of && qs.of[ed] != [] && Finished(sh, m, qs, a, tds)
    requires OnlyCell(sh, m, n, qs.of[ed][0])
    ensures Finished(sh, n, Popped(m, qs, ed), a, tds)
  {
    hide Ld, List, NoDup;
    var q := qs.of[ed];
    assert Apart(tds, q);
    forall i | 0 <= i < |tds|
      ensures SameCell(m, n, tds[i])
    {
      assert sh.Descriptor(tds[i]) && tds[i] != q[0];
    }
    ListKept(m, n, a, 0, tds);
    forall e | e in qs.of
      ensures Apart(tds, Popped(m, qs, ed).of[e])
    {
      assert Apart(tds, qs.of[e]);
    }
  }

  /** The popped descriptor goes to the front of the finished list. */
  lemma ListPushed(sh: Layout, n: Ram, td: Word, a: Word, tds: seq<nat>)
    requires sh.Ok(|n|) && List(n, a, 0, tds) && sh.Descriptor(td) && Ld(n, td + 8) == a
    requires forall i :: 0 <= i < |tds| ==> sh.Descriptor(tds[i])
    ensures List(n, td, 0, [td] + tds)
  {
    hide Ld;
    assert a % 16 == 0 by {
      if tds != [] {
        assert sh.Descriptor(tds[0]);
      }
    }
    assert ([td] + tds)[1..] == tds && Next(n, td) == a;
  }

  lemma HeadApart(qs: Queues, ed: nat, tds: seq<nat>, e: nat)
    requires ed in qs.of && e in qs.of && qs.of[ed] != [] && NoDup(qs.of[ed]) && Apart(tds, qs.of[e])
    requires e != ed ==> Apart(qs.of[ed], qs.of[e])
    ensures Apart([qs.of[ed][0]] + tds, if e == ed then qs.of[ed][1..] else qs.of[e])
  {
  }

  lemma NoDupPushed(td: nat, tds: seq<nat>, q: seq<nat>)
    requires NoDup(tds) && Apart(tds, q) && q != [] && td == q[0]
    ensures NoDup([td] + tds)
  {
    var l := [td] + tds;
    forall i, j | 0 <= i < j < |l|
      ensures l[i] != l[j]
    {
      assert l[j] == tds[j - 1];
      if i > 0 {
        assert l[i] == tds[i - 1];
      }
    }
  }

  lemma FinishedPushed(sh: Layout, m: Ram, n: Ram, qs: Queues, ed: nat, a: Word, tds: seq<nat>)
    requires QueuesOk(sh, m, qs) && ed in qs.of && qs.of[ed] != [] && Finished(sh, m, qs, a, tds) && sh.Ok(|m|)
    requires OnlyCell(sh, m, n, qs.of[ed][0]) && Ld(n, qs.of[ed][0] + 8) == a
    ensures Finished(sh, n, Popped(m, qs, ed), qs.of[ed][0], [qs.of[ed][0]] + tds)
  {
    FinishedKept(sh, m, n, qs, ed, a, tds);
    hide Ld, List, NoDup, Apart, OnlyCell, AllApart, QueueOk, BufferClear, Next, Layout.Ok;
    var td := qs.of[ed][0];
    HeadOwned(sh, m, qs, ed);
    CellCount(sh, m, n, td);
    ListPushed(sh, n, td, a, tds);
    NoDupPushed(td, tds, qs.of[ed]);
    forall e | e in qs.of
      ensures Apart([td] + tds, Popped(m, qs, ed).of[e])
    {
      PushedApart(sh, m, qs, ed, e, a, tds);
    }
    Pushed(sh, n, Popped(m, qs, ed), td, a, tds);
  }

  lemma PushedApart(sh: Layout, m: Ram, qs: Queues, ed: nat, e: nat, a: nat, tds: seq<nat>)
    requires QueuesOk(sh, m, qs) && ed in qs.of && qs.of[ed] != [] && e in qs.of && Finished(sh, m, qs, a, tds)
    ensures Apart([qs.of[ed][0]] + tds, Popped(m, qs, ed).of[e])
  {
    hide Ld, List, NoDup, Apart, AllApart, QueueOk, Next;
    HeadOwned(sh, m, qs, ed);
    ApartOf(qs.of, ed, e);
    HeadApart(qs, ed, tds, e);
  }

  lemma Pushed(sh: Layout, n: Ram, qs: Queues, td: nat, a: nat, tds: seq<nat>)
    requires NoDup([td] + tds) && List(n, td, 0, [td] + tds) && Finished(sh, n, qs, a, tds) && sh.Descriptor(td) && td !in qs.of
    requires forall e :: e in qs.of ==> Apart([td] + tds, qs.of[e])
    ensures Finished(sh, n, qs, td, [td] + tds)
  {
    hide Ld, List, NoDup, Apart;
  }

  lemma HeadOwned(sh: Layout, m: Ram, qs: Queues, ed: nat)
    requires ed in qs.of && ed in qs.heads && QueueOk(sh, m, qs, ed) && qs.of[ed] != []
    ensures sh.Descriptor(qs.of[ed][0]) && qs.of[ed][0] !in qs.of && NoDup(qs.of[ed]) && BufferClear(sh, m, qs.of[ed][0])
  {
    hide Ld;
  }

  lemma CellCount(sh: Layout, m: Ram, n: Ram, td: nat)
    requires OnlyCell(sh, m, n, td)
    ensures |n| == |m|
  {
  }

  lemma SameTail(m: Ram, n: Ram, ed: nat)
    requires SameCell(m, n, ed)
    ensures Tail(n, ed) == Tail(m, ed)
  {
    hide Ld;
  }

  /** Each queue after the head of one is retired. */
  lemma QueueAfter(sh: Layout, m: Ram, n: Ram, qs: Queues, ed: nat, e: nat)
    requires qs.of.Keys == qs.heads.Keys && ed in qs.of && e in qs.of && qs.of[ed] != []
    requires QueueOk(sh, m, qs, ed) && QueueOk(sh, m, qs, e) && OnlyCell(sh, m, n, qs.of[ed][0])
    requires e != ed ==> Apart(qs.of[ed], qs.of[e])
    ensures QueueOk(sh, n, Popped(m, qs, ed), e)
  {
    hide Ld, List, SameCell, BufferClear, Tail;
    var td := qs.of[ed][0];
    assert sh.Descriptor(e) && sh.Descriptor(td) && td !in qs.of;
    forall i | 0 <= i < |qs.of[e]| && (e == ed ==> i > 0)
      ensures SameCell(m, n, qs.of[e][i])
    {
      assert sh.Descriptor(qs.of[e][i]);
    }
    hide QueueOk;
    assert Tail(n, e) == Tail(m, e) by {
      SameTail(m, n, e);
    }
    if e == ed {
      QueuePopped(sh, m, n, qs, ed);
    } else {
      QueueKept(sh, m, n, qs, Popped(m, qs, ed), e);
    }
  }

  lemma QueuesPopped(sh: Layout, m: Ram, n: Ram, qs: Queues, ed: nat)
    requires QueuesOk(sh, m, qs) && ed in qs.of && qs.of[ed] != [] && OnlyCell(sh, m, n, qs.of[ed][0])
    ensures QueuesOk(sh, n, Popped(m, qs, ed)) && qs.heads[ed] == qs.of[ed][0]
  {
    var qs' := Popped(m, qs, ed);
    hide QueueOk, OnlyCell, Next, AllApart;
    forall e | e in qs'.of
      ensures QueueOk(sh, n, qs', e)
    {
      ApartOf(qs.of, ed, e);
      QueueAfter(sh, m, n, qs, ed, e);
    }
    HeadIs(sh, m, qs, ed);
    ApartPopped(qs.of, ed);
  }

  lemma ApartOf(of: map<nat, seq<nat>>, ed: nat, e: nat)
    requires AllApart(of) && ed in of && e in of
    ensures e != ed ==> Apart(of[ed], of[e])
  {
  }

  lemma ApartPopped(of: map<nat, seq<nat>>, ed: nat)
    requires AllApart(of) && ed in of && of[ed] != []
    ensures AllApart(of[ed := of[ed][1..]])
  {
    var less := of[ed := of[ed][1..]];
    forall e, o | e in less && o in less && e != o
      ensures Apart(less[e], less[o])
    {
      assert Apart(of[e], of[o]);
    }
  }

  lemma HeadIs(sh: Layout, m: Ram, qs: Queues, ed: nat)
    requires ed in qs.of && ed in qs.heads && QueueOk(sh, m, qs, ed)
    ensures qs.of[ed] != [] ==> qs.heads[ed] == qs.of[ed][0] && qs.heads[ed] != 0 && qs.heads[ed] != Tail(m, ed)
    ensures qs.of[ed] == [] ==> qs.heads[ed] == 0 || qs.heads[ed] == Tail(m, ed)
  {
    hide Ld;
  }

  // ---- writes that touch no queue -------------------------------------------

  lemma StCell(sh: Layout, m: Ram, c: nat, k: nat, v: Word)
    requires sh.Ok(|m|) && c in sh.cells && k in {0, 4, 8, 12}
    ensures OnlyCell(sh, m, St(m, c + k, v), c)
    ensures Ld(St(m, c + k, v), c + k) == v
    ensures k != 4 ==> Ld(St(m, c + k, v), c + 4) == Ld(m, c + 4)
  {
    hide Ld, St, SameCell;
    forall d | d in sh.cells && d != c
      ensures SameCell(m, St(m, c + k, v), d)
    {
      StElsewhere(m, c + k, v, d);
    }
    LdSt(m, c + k, v);
    if k != 4 {
      LdOther(m, c + k, v, c + 4);
    }
  }

  /** A cell no queue or list runs through: an endpoint or part of the HCCA. */
  ghost predicate Aside(sh: Layout, qs: Queues, c: nat) {
    c in qs.of || !sh.Descriptor(c)
  }

  lemma QueuesOther(sh: Layout, m: Ram, n: Ram, qs: Queues, c: nat)
    requires QueuesOk(sh, m, qs) && OnlyCell(sh, m, n, c) && Aside(sh, qs, c) && (c in qs.of ==> Tail(n, c) == Tail(m, c))
    ensures QueuesOk(sh, n, qs)
  {
    hide QueueOk, AllApart, OnlyCell, Tail;
    forall ed | ed in qs.of
      ensures QueueOk(sh, n, qs, ed)
    {
      QueueOther(sh, m, n, qs, c, ed);
    }
  }

  lemma QueueOther(sh: Layout, m: Ram, n: Ram, qs: Queues, c: nat, ed: nat)
    requires ed in qs.of && ed in qs.heads && QueueOk(sh, m, qs, ed)
    requires OnlyCell(sh, m, n, c) && Aside(sh, qs, c) && (c in qs.of ==> Tail(n, c) == Tail(m, c))
    ensures QueueOk(sh, n, qs, ed)
  {
    hide Ld, List, NoDup, BufferClear, SameCell, Tail;
    var q := qs.of[ed];
    assert Tail(n, ed) == Tail(m, ed) by {
      if c != ed {
        assert sh.Descriptor(ed);
        SameTail(m, n, ed);
      }
    }
    forall i | 0 <= i < |q|
      ensures SameCell(m, n, q[i])
    {
      assert sh.Descriptor(q[i]) && q[i] !in qs.of;
    }
    QueueKept(sh, m, n, qs, qs, ed);
  }

  lemma FinishedOther(sh: Layout, m: Ram, n: Ram, qs: Queues, c: nat, a: nat, tds: seq<nat>)
    requires Finished(sh, m, qs, a, tds) && OnlyCell(sh, m, n, c) && Aside(sh, qs, c)
    ensures Finished(sh, n, qs, a, tds)
  {
    hide Ld, List, NoDup, Apart;
    forall i | 0 <= i < |tds|
      ensures SameCell(m, n, tds[i])
    {
      assert sh.Descriptor(tds[i]) && tds[i] !in qs.of;
    }
    ListKept(m, n, a, 0, tds);
  }

  // ---- the controller -------------------------------------------------------

  ghost function Handed(lists: seq<seq<nat>>): multiset<nat> {
    if lists == [] then multiset{} else Handed(lists[..|lists| - 1]) + multiset(lists[|lists| - 1])
  }

  function Reversed(s: seq<nat>): seq<nat> {
    if s == [] then [] else Reversed(s[1..]) + [s[0]]
  }

  lemma {:induction false} ReversedSnoc(s: seq<nat>, x: nat)
    ensures Reversed(s + [x]) == [x] + Reversed(s)
    decreases |s|
  {
    if s == [] {
      assert s + [x] == [x];
    } else {
      ReversedSnoc(s[1..], x);
      assert (s + [x])[1..] == s[1..] + [x];
    }
  }

  /** An IN the device has nothing for. */
  predicate Naks(m: Ram, td: nat, answer: Answer) {
    Ld(m, td) / 0x8_0000 % 4 == 2 && answer.Nak?
  }

  /** The list service has nothing to do here: the endpoint is skipped or halted, its
      queue is empty, or the device has nothing for its head. */
  ghost predicate Settled(m: Ram, of: map<nat, seq<nat>>, ed: nat, device: nat -> Answer) {
    ed in of && (Idle(m, ed) || of[ed] == [] || Naks(m, of[ed][0], device(of[ed][0])))
  }

  /** No cell but the endpoint and its descriptors was written. */
  ghost predicate Untouched(sh: Layout, m: Ram, n: Ram, ed: nat, q: seq<nat>) {
    |n| == |m| && forall c :: c in sh.cells && c != ed && c !in q ==> SameCell(m, n, c)
  }

  ghost predicate AllSettled(m: Ram, of: map<nat, seq<nat>>, eds: seq<nat>, device: nat -> Answer) {
    forall i :: 0 <= i < |eds| ==> Settled(m, of, eds[i], device)
  }

  lemma NoneSettled(m: Ram, qs: Queues, device: nat -> Answer)
    ensures AllSettled(m, qs.of, [], device) && Known([], qs)
  {
  }

  /** Serving one endpoint leaves the others as settled as they were. */
  lemma StaySettled(sh: Layout, m: Ram, n: Ram, was: Queues, qs: Queues, ed: nat, seen: seq<nat>, k: nat, device: nat -> Answer)
    requires QueuesOk(sh, m, was) && ed in was.of && k <= |was.of[ed]| && qs.of == was.of[ed := was.of[ed][k..]]
    requires Untouched(sh, m, n, ed, was.of[ed]) && Settled(n, qs.of, ed, device)
    requires Known(seen, was) && AllSettled(m, was.of, seen, device)
    ensures AllSettled(n, qs.of, seen + [ed], device)
  {
    hide Ld, Untouched, Settled, QueuesOk;
    forall i | 0 <= i < |seen|
      ensures Settled(n, qs.of, seen[i], device)
    {
      if seen[i] != ed {
        SettledBeside(sh, m, n, was, qs, ed, seen[i], device);
      }
    }
  }

  lemma SettledBeside(sh: Layout, m: Ram, n: Ram, was: Queues, qs: Queues, ed: nat, e: nat, device: nat -> Answer)
    requires QueuesOk(sh, m, was) && ed in was.of && e != ed && e in qs.of && e in was.of && qs.of[e] == was.of[e]
    requires Untouched(sh, m, n, ed, was.of[ed]) && Settled(m, was.of, e, device)
    ensures Settled(n, qs.of, e, device)
  {
    hide Ld, List, NoDup, BufferClear;
    assert QueueOk(sh, m, was, e) && QueueOk(sh, m, was, ed);
    assert SameCell(m, n, e);
    if was.of[e] != [] {
      assert Apart(was.of[e], was.of[ed]);
      assert was.of[e][0] !in was.of[ed] && was.of[e][0] != ed;
      assert SameCell(m, n, was.of[e][0]);
    }
  }

  lemma ServedCount(q: seq<nat>, k: nat, had: seq<nat>, done: seq<nat>)
    requires k <= |q| && done == Reversed(q[..k]) + had
    ensures |done| == |had| + k && (k == 0 ==> done == had)
  {
    InReversed(q[..k], 0);
  }

  lemma KnownMore(seen: seq<nat>, was: Queues, qs: Queues, ed: nat)
    requires Known(seen, was) && was.of.Keys == qs.of.Keys && ed in qs.of
    ensures Known(seen + [ed], qs)
  {
  }

  lemma SomeBudget()
    ensures 0 < LIST_LIMIT
  {
  }

  lemma NoMoreEds(m: Ram, rest: seq<nat>)
    requires EdList(m, 0, rest)
    ensures rest == []
  {
  }

  lemma AllSame(sh: Layout, m: Ram, ed: nat, q: seq<nat>)
    ensures Untouched(sh, m, m, ed, q)
  {
    hide Ld;
  }

  lemma TouchesOne(sh: Layout, m0: Ram, m: Ram, n: Ram, ed: nat, q: seq<nat>, c: nat)
    requires Untouched(sh, m0, m, ed, q) && OnlyCell(sh, m, n, c) && (c == ed || c in q)
    ensures Untouched(sh, m0, n, ed, q)
  {
    hide Ld;
  }

  // ---- the data of whole services -------------------------------------------

  function Items(q: seq<nat>): set<nat> {
    set x | x in q
  }

  /** What the device answers to each of these descriptors. */
  function Asks(tds: set<nat>, device: nat -> Answer): map<nat, Answer> {
    map t | t in tds :: device(t)
  }

  lemma NoAsks(sh: Layout, m: Ram, q: seq<nat>, device: nat -> Answer)
    ensures Ledger(sh, m, m, Items(q[..0]), Asks(Items(q[..0]), device))
  {
    assert Items(q[..0]) == {} && Asks({}, device) == map[];
    LedgerNone(sh, m, {});
  }

  lemma AsksJoin(a: set<nat>, b: set<nat>, device: nat -> Answer)
    ensures Asks(a, device) + Asks(b, device) == Asks(a + b, device) && Asks(a, device).Keys == a && Asks(b, device).Keys == b
  {
  }

  lemma OneMore(sh: Layout, m0: Ram, m: Ram, n: Ram, q: seq<nat>, k: nat, device: nat -> Answer)
    requires sh.Ok(|m0|) && NoDup(q) && k < |q|
    requires Ledger(sh, m0, m, Items(q[..k]), Asks(Items(q[..k]), device)) && Ledger(sh, m, n, {q[k]}, map[q[k] := device(q[k])])
    ensures Ledger(sh, m0, n, Items(q[..k + 1]), Asks(Items(q[..k + 1]), device))
  {
    hide Ledger, Layout.Ok;
    assert q[..k + 1] == q[..k] + [q[k]];
    assert Items(q[..k + 1]) == Items(q[..k]) + {q[k]};
    assert Asks({q[k]}, device) == map[q[k] := device(q[k])];
    AsksJoin(Items(q[..k]), {q[k]}, device);
    LedgerChain(sh, m0, m, n, Items(q[..k]), Asks(Items(q[..k]), device), {q[k]}, Asks({q[k]}, device));
  }

  lemma AndTheHead(sh: Layout, m0: Ram, m: Ram, n: Ram, ed: nat, q: seq<nat>, k: nat, device: nat -> Answer)
    requires sh.Ok(|m0|) && k <= |q| && ed !in q
    requires Ledger(sh, m0, m, Items(q[..k]), Asks(Items(q[..k]), device)) && Ledger(sh, m, n, {ed}, map[])
    ensures Ledger(sh, m0, n, {ed} + Items(q[..k]), Asks(Items(q[..k]), device))
  {
    hide Ledger, Layout.Ok;
    var s := Items(q[..k]);
    assert s + {ed} == {ed} + s && Asks(s, device) + map[] == Asks(s, device);
    LedgerChain(sh, m0, m, n, s, Asks(s, device), {ed}, map[]);
  }

  lemma NothingYet(c: Controller, device: nat -> Answer)
    requires c.Valid()
    ensures c.sh.Ok(|c.ram|) && QueuesOk(c.sh, c.ram, c.qs)
    ensures var g := Gone(c.qs.of, c.qs.of);
      g == {} && Ledger(c.sh, c.ram, c.ram, c.qs.of.Keys + g, Asks(g, device))
  {
    QueuesIn(c);
    forall e | e in c.qs.of
      ensures e in c.sh.cells
    {
      EdDescriptor(c.sh, c.ram, c.qs, e);
    }
    hide Ledger, QueuesOk;
    assert Gone(c.qs.of, c.qs.of) == {} && Asks({}, device) == map[];
    LedgerNone(c.sh, c.ram, c.qs.of.Keys);
    assert c.qs.of.Keys + {} == c.qs.of.Keys;
  }

  /** Serving one endpoint, after others. */
  lemma ServiceMore(sh: Layout, m0: Ram, m: Ram, n: Ram, qs0: Queues, of1: map<nat, seq<nat>>, of2: map<nat, seq<nat>>,
                    d0: seq<nat>, d1: seq<nat>, ed: nat, k: nat, device: nat -> Answer)
    requires sh.Ok(|m0|) && QueuesOk(sh, m0, qs0) && ed in of1 && k <= |of1[ed]| && of2 == of1[ed := of1[ed][k..]]
    requires Flow(qs0.of, of1, d0, d1)
    requires var g := Gone(qs0.of, of1); Ledger(sh, m0, m, qs0.of.Keys + g, Asks(g, device))
    requires var s := Items(of1[ed][..k]); Ledger(sh, m, n, {ed} + s, Asks(s, device))
    ensures var g := Gone(qs0.of, of2); Ledger(sh, m0, n, qs0.of.Keys + g, Asks(g, device))
  {
    hide Ledger, Layout.Ok, QueuesOk, Flow, Gone, Items, Asks;
    var g, s := Gone(qs0.of, of1), Items(of1[ed][..k]);
    FlowKeys(qs0.of, of1, d0, d1);
    GoneMore(sh, m0, qs0, of1, of2, ed, k);
    AsksJoin(g, s, device);
    LedgerChain(sh, m0, m, n, qs0.of.Keys + g, Asks(g, device), {ed} + s, Asks(s, device));
    assert qs0.of.Keys + g + ({ed} + s) == qs0.of.Keys + (g + s);
  }

  lemma FlowKeys(of0: map<nat, seq<nat>>, of1: map<nat, seq<nat>>, d0: seq<nat>, d1: seq<nat>)
    requires Flow(of0, of1, d0, d1)
    ensures of1.Keys == of0.Keys && forall e :: e in of1 ==> Suffix(of1[e], of0[e])
  {
    hide Suffix;
  }

  /** What leaves now was in no queue before it, and is no endpoint. */
  lemma GoneMore(sh: Layout, m: Ram, qs0: Queues, of1: map<nat, seq<nat>>, of2: map<nat, seq<nat>>, ed: nat, k: nat)
    requires QueuesOk(sh, m, qs0) && ed in of1 && k <= |of1[ed]| && of2 == of1[ed := of1[ed][k..]]
    requires of1.Keys == qs0.of.Keys && forall e :: e in of1 ==> Suffix(of1[e], qs0.of[e])
    ensures var g, s := Gone(qs0.of, of1), Items(of1[ed][..k]);
      && Gone(qs0.of, of2) == g + s && g !! {ed} + s && s !! qs0.of.Keys + g
  {
    var g, s := Gone(qs0.of, of1), Items(of1[ed][..k]);
    hide Ld, List, BufferClear, Gone, Items;
    forall x
      ensures x in g ==> (exists e :: e in qs0.of && x in qs0.of[e]) && x !in qs0.of.Keys && forall e :: e in of1 ==> x !in of1[e]
    {
      if x in g {
        GoneFrom(sh, m, qs0, of1, x);
      }
    }
    forall x
      ensures x in s ==> x in of1[ed] && x !in qs0.of.Keys
      ensures x in Gone(qs0.of, of2) <==> x in g || x in s
    {
      OneQueueMore(sh, m, qs0, of1, of2, ed, k, x);
    }
  }

  lemma GoneFrom(sh: Layout, m: Ram, qs0: Queues, of1: map<nat, seq<nat>>, x: nat)
    requires QueuesOk(sh, m, qs0) && of1.Keys == qs0.of.Keys && forall e :: e in of1 ==> Suffix(of1[e], qs0.of[e])
    requires x in Gone(qs0.of, of1)
    ensures (exists e :: e in qs0.of && x in qs0.of[e]) && x !in qs0.of.Keys && forall e :: e in of1 ==> x !in of1[e]
  {
    hide Ld, List, BufferClear, Suffix;
    var ed :| ed in qs0.of && ed in of1 && x in qs0.of[ed] && x !in of1[ed];
    assert QueueOk(sh, m, qs0, ed);
    forall e | e in of1
      ensures x !in of1[e]
    {
      SuffixIn(qs0.of[e], of1[e], x);
      if e != ed {
        assert Apart(qs0.of[ed], qs0.of[e]);
      }
    }
  }

  lemma OneQueueMore(sh: Layout, m: Ram, qs0: Queues, of1: map<nat, seq<nat>>, of2: map<nat, seq<nat>>, ed: nat, k: nat, x: nat)
    requires QueuesOk(sh, m, qs0) && ed in of1 && k <= |of1[ed]| && of2 == of1[ed := of1[ed][k..]]
    requires of1.Keys == qs0.of.Keys && forall e :: e in of1 ==> Suffix(of1[e], qs0.of[e])
    ensures x in Items(of1[ed][..k]) ==> x in of1[ed] && x !in qs0.of.Keys
    ensures x in Gone(qs0.of, of2) <==> x in Gone(qs0.of, of1) || x in Items(of1[ed][..k])
  {
    assert NoDup(qs0.of[ed]) && (x in qs0.of[ed] ==> x !in qs0.of.Keys) by {
      hide Ld, List, BufferClear;
      assert QueueOk(sh, m, qs0, ed);
    }
    hide QueuesOk, NoDup;
    SuffixIn(qs0.of[ed], of1[ed], x);
    SuffixUnique(qs0.of[ed], of1[ed]);
    hide Suffix;
    assert x in of1[ed][..k] ==> x in of1[ed];
    LeftMore(qs0.of, of1, ed, k, x);
  }

  lemma LeftMore(of0: map<nat, seq<nat>>, of1: map<nat, seq<nat>>, ed: nat, k: nat, x: nat)
    requires of1.Keys == of0.Keys && ed in of1 && k <= |of1[ed]| && NoDup(of1[ed]) && (x in of1[ed] ==> x in of0[ed])
    ensures x in Gone(of0, of1[ed := of1[ed][k..]]) <==> x in Gone(of0, of1) || x in of1[ed][..k]
  {
    var of2 := of1[ed := of1[ed][k..]];
    PrefixLeft(of1[ed], k, x);
    hide NoDup;
    assert x in Gone(of0, of2) <==> Left(of0, of2, x);
    assert x in Gone(of0, of1) <==> Left(of0, of1, x);
    hide Gone;
    if e :| e in of0 && e in of2 && x in of0[e] && x !in of2[e] && e != ed {
      assert x !in of1[e];
    }
    if e :| e in of0 && e in of1 && x in of0[e] && x !in of1[e] {
      assert x !in of2[e];
    }
  }

  /** Whole lists one after another, each with its own device. */
  lemma ListMore(sh: Layout, m0: Ram, m: Ram, n: Ram, qs0: Queues, of1: map<nat, seq<nat>>, of2: map<nat, seq<nat>>,
                 d0: seq<nat>, d1: seq<nat>, d2: seq<nat>, ans: map<nat, Answer>, device: nat -> Answer)
    requires sh.Ok(|m0|) && QueuesOk(sh, m0, qs0) && Flow(qs0.of, of1, d0, d1) && Flow(of1, of2, d1, d2)
    requires ans.Keys == Gone(qs0.of, of1) && Ledger(sh, m0, m, qs0.of.Keys + ans.Keys, ans)
    requires var g := Gone(of1, of2); Ledger(sh, m, n, of1.Keys + g, Asks(g, device))
    ensures var a := ans + Asks(Gone(of1, of2), device);
      a.Keys == Gone(qs0.of, of2) && Ledger(sh, m0, n, qs0.of.Keys + a.Keys, a)
  {
    hide Ledger, Layout.Ok, QueuesOk, Flow, Gone, Asks;
    var g := Gone(of1, of2);
    FlowKeys(qs0.of, of1, d0, d1);
    FlowKeys(of1, of2, d1, d2);
    GoneTwice(sh, m0, qs0, of1, of2);
    AsksJoin(g, g, device);
    LedgerChain(sh, m0, m, n, qs0.of.Keys + ans.Keys, ans, of1.Keys + g, Asks(g, device));
    assert qs0.of.Keys + ans.Keys + (of1.Keys + g) == qs0.of.Keys + (ans + Asks(g, device)).Keys;
  }

  lemma GoneTwice(sh: Layout, m: Ram, qs0: Queues, of1: map<nat, seq<nat>>, of2: map<nat, seq<nat>>)
    requires QueuesOk(sh, m, qs0) && of1.Keys == qs0.of.Keys == of2.Keys
    requires forall e :: e in of1 ==> Suffix(of1[e], qs0.of[e]) && Suffix(of2[e], of1[e])
    ensures var g, s := Gone(qs0.of, of1), Gone(of1, of2);
      Gone(qs0.of, of2) == g + s && g !! of1.Keys + s && s !! qs0.of.Keys + g
  {
    hide QueuesOk, Suffix;
    forall x
      ensures x in Gone(qs0.of, of1) ==> x !in qs0.of.Keys && forall e :: e in of1 ==> x !in of1[e]
      ensures x in Gone(qs0.of, of2) <==> x in Gone(qs0.of, of1) || x in Gone(of1, of2)
      ensures x in Gone(of1, of2) ==> x !in qs0.of.Keys
    {
      LeftChain(qs0.of, of1, of2, x);
      if x in Gone(qs0.of, of1) {
        GoneFrom(sh, m, qs0, of1, x);
      }
      if x in Gone(of1, of2) {
        NoEndpoint(sh, m, qs0, of1, of2, x);
      }
      assert x in Gone(qs0.of, of2) <==> Left(qs0.of, of2, x);
      assert x in Gone(qs0.of, of1) <==> Left(qs0.of, of1, x);
      assert x in Gone(of1, of2) <==> Left(of1, of2, x);
    }
  }

  lemma NoEndpoint(sh: Layout, m: Ram, qs0: Queues, of1: map<nat, seq<nat>>, of2: map<nat, seq<nat>>, x: nat)
    requires QueuesOk(sh, m, qs0) && of1.Keys == qs0.of.Keys && forall e :: e in of1 ==> Suffix(of1[e], qs0.of[e])
    requires x in Gone(of1, of2)
    ensures x !in qs0.of.Keys
  {
    hide Ld, List, BufferClear, Suffix;
    var ed :| ed in of1 && ed in of2 && x in of1[ed] && x !in of2[ed];
    assert QueueOk(sh, m, qs0, ed);
    SuffixIn(qs0.of[ed], of1[ed], x);
  }

  lemma SuffixUnique(a: seq<nat>, b: seq<nat>)
    requires Suffix(b, a) && NoDup(a)
    ensures NoDup(b)
  {
  }

  lemma Settles(m: Ram, of: map<nat, seq<nat>>, ed: nat, q: seq<nat>, k: nat, device: nat -> Answer)
    requires ed in of && k <= |q| && of[ed] == q[k..]
    requires k < |q| ==> Idle(m, ed) || Naks(m, q[k], device(q[k]))
    ensures Settled(m, of, ed, device)
  {
    hide Ld;
  }

  /** The endpoint's sKip or Halted bit is set. */
  predicate Idle(m: Ram, ed: nat) {
    Ld(m, ed) / 0x4000 % 2 == 1 || Ld(m, ed + 8) % 2 == 1
  }

  /** What one descriptor moves: a SETUP its eight bytes, an IN what the device
      has up to the room in the buffer, an OUT the whole buffer. */
  method Transfer(m: Ram, td: nat, answer: Answer) returns (ready: bool, bytes: seq<Byte>, moved: nat)
    ensures |bytes| <= Avail(m, td)
    ensures !ready <==> Naks(m, td, answer)
    ensures ready ==> bytes == Stored(m, td, answer) && moved == Moved(m, td, answer)
  {
    hide Ld;
    var dp := Ld(m, td) / 0x8_0000 % 4;
    bytes, moved, ready := [], 8, true;
    if dp == 2 {
      if answer.Nak? {
        return false, [], 0;
      }
      bytes := if |answer.bytes| <= Avail(m, td) then answer.bytes else answer.bytes[..Avail(m, td)];
      moved := |bytes|;
    } else if dp != 0 {
      moved := Avail(m, td);
    }
  }

  /** Every queue in order, and every finished descriptor on the done list or on the
      one the driver has yet to acknowledge. */
  ghost predicate Kept(sh: Layout, m: Ram, qs: Queues, doneHead: nat, done: seq<nat>, writeback: bool, given: seq<nat>) {
    && sh.Ok(|m|) && QueuesOk(sh, m, qs) && Finished(sh, m, qs, doneHead, done) && Apart(done, given)
    && (writeback ==> Finished(sh, m, qs, Ld(m, sh.hcca + DONE_HEAD), given))
    && (!writeback ==> given == [])
  }

  class Controller {
    var ram: Ram
    var hcca: nat
    var doneHead: Word
    var writeback: bool
    var fmNumber: nat
    // Who owns what, beside the registers: what the driver knows of its queues and
    // of the lists in transit, so that the host side of a run can act on it.
    var sh: Layout
    var qs: Queues
    var done: seq<nat>
    var given: seq<nat>
    ghost var handed: seq<seq<nat>>
    ghost var retired: multiset<nat>
    ghost var turns: seq<Turn>
    ghost var history: seq<Books>

    /** Queues, done list and the list in the driver's hands are all intact in
        RAM and apart, and together account for every retired descriptor. */
    ghost predicate Owned()
      reads `ram, `hcca, `doneHead, `writeback, `sh, `qs, `done, `given, `handed, `retired
    {
      && hcca == sh.hcca && Kept(sh, ram, qs, doneHead, done, writeback, given)
      && (writeback ==> handed != [] && handed[|handed| - 1] == given)
      && retired == multiset(done) + Handed(handed)
    }

    ghost predicate Valid()
      reads `ram, `hcca, `doneHead, `writeback, `sh, `qs, `done, `given, `handed, `retired
    {
      Owned() && HeadsOk(ram, qs)
    }

    /** A controller just powered up over some memory: nothing queued, nothing done. */
    constructor (memory: Ram, hcca: nat, layout: Layout)
      requires layout.Ok(|memory|) && layout.hcca == hcca
      ensures Accounted() && ram == memory && this.hcca == hcca && sh == layout && Look().Fresh() && turns == []
      ensures doneHead == 0 && !writeback && fmNumber == 0 && retired == multiset{}
    {
      ram, this.hcca, doneHead, writeback, fmNumber := memory, hcca, 0, false, 0;
      sh, qs, done, given, handed, retired := layout, Queues(map[], map[]), [], [], [], multiset{};
      turns, history := [], [Books(map[], [], [])];
    }

    /** The whole history since power-up: frames and driver turns, from fresh books
        to these, and everything that left a queue in any of them. */
    ghost predicate Accounted()
      reads this
    {
      Valid() && Trace(turns, history) && history[|turns|] == Look() && retired == Retirements(turns, history)
    }

    /** Everything the host side may act on. */
    function Now(): State
      reads this
    {
      State(View(ram, doneHead, writeback, fmNumber), hcca, sh, qs, done, given)
    }

    /** What the accounting of whole runs looks at. */
    ghost function Look(): Books
      reads `qs, `done, `handed
    {
      Books(qs.of, done, handed)
    }

    /** One transfer descriptor at the head of a queue. */
    method DoTd(ed: nat, td: Word, answer: Answer) returns (ok: bool, next: Word)
      requires Owned() && ed in qs.of && qs.of[ed] != [] && td == qs.of[ed][0]
      modifies this`ram, this`doneHead, this`qs, this`done, this`retired
      ensures Owned() && next == Next(old(ram), td) && next % 16 == 0
      ensures !ok <==> Naks(old(ram), td, answer)
      ensures !ok ==> ram == old(ram) && doneHead == old(doneHead) && qs == old(qs) && done == old(done) && retired == old(retired)
      ensures ok ==> OnlyCell(sh, old(ram), ram, td) && doneHead == td && qs == Popped(old(ram), old(qs), ed)
      ensures ok ==> done == [td] + old(done) && retired == old(retired) + multiset{td}
      ensures ok ==> Ledger(sh, old(ram), ram, {td}, map[td := answer])
    {
      hide Kept, Ld, St, Blit, QueuesOk, Finished, BufferClear, Next, Popped, Carried, OnlyCell, Avail, Apart, Handed, Layout.Ok, Pointer, Naks, QueueOk, Ledger, Stored, Moved;
      NextIs(ram, td);
      next := Pointer(Ld(ram, td + 8));
      var ready, bytes, moved := Transfer(ram, td, answer);
      if !ready {
        return false, next;
      }
      var m, was := ram, qs;
      ram := Carried(ram, td, bytes, moved, doneHead);
      Retire(sh, m, was, ed, answer, doneHead, done, writeback, given);
      doneHead := td;
      qs, done, retired := Popped(m, was, ed), [td] + done, retired + multiset{td};
      ok := true;
    }

    /** Serves one endpoint: a prefix of its queue moves to the done list. */
    method ServeEd(ed: Word, budget: nat, device: nat -> Answer) returns (served: nat)
      requires Valid() && ed in qs.of
      modifies this`ram, this`doneHead, this`qs, this`done, this`retired
      ensures Valid() && served <= budget && served <= |old(qs.of[ed])|
      ensures qs.of == old(qs.of)[ed := old(qs.of[ed])[served..]]
      ensures done == Reversed(old(qs.of[ed])[..served]) + old(done)
      ensures retired == old(retired) + multiset(old(qs.of[ed])[..served])
      ensures SameLinks(sh, old(ram), ram, qs) && Untouched(sh, old(ram), ram, ed, old(qs.of[ed]))
      ensures Idle(old(ram), ed) ==> served == 0
      ensures served < |old(qs.of[ed])| && served < budget ==>
        Idle(old(ram), ed) || Naks(ram, old(qs.of[ed])[served], device(old(qs.of[ed])[served]))
      ensures served < budget ==> Settled(ram, qs.of, ed, device)
      ensures served == 0 ==> ram == old(ram)
      ensures Ledger(sh, old(ram), ram, {ed} + Items(old(qs.of[ed])[..served]), Asks(Items(old(qs.of[ed])[..served]), device))
    {
      hide *;
      hide Controller.Owned;
      ghost var m0, qs0, q := ram, qs, qs.of[ed];
      Begins(this, ed);
      var e0, tail, hp := Ld(ram, ed), Pointer(Ld(ram, ed + 4)), Ld(ram, ed + 8);
      TailIs(ram, ed);
      var skip, halted := e0 / 0x4000 % 2 == 1, hp % 2 == 1;
      IdleIs(ram, ed);
      var h := Pointer(hp);
      served := 0;
      ghost var stopped := false;
      AllSame(sh, ram, ed, q);
      QueueUnique(this, ed);
      NoAsks(sh, ram, q, device);
      while !skip && !halted && h != 0 && h != tail && served < budget
        invariant Owned() && served <= budget && h % 16 == 0
        invariant Serving(qs0, qs, ed, served, h) && SameAround(sh, m0, ram, qs0)
        invariant Tally(q, served, old(done), done, old(retired), retired) && !stopped
        invariant Idle(m0, ed) ==> served == 0
        invariant Untouched(sh, m0, ram, ed, q) && (served == 0 ==> ram == m0 && h == Pointer(hp))
        invariant served <= |q| && Ledger(sh, m0, ram, Items(q[..served]), Asks(Items(q[..served]), device))
        decreases |q| - served
      {
        ServingHead(this, m0, qs0, ed, served, h);
        ghost var m, was := ram, qs;
        Tallied(q, served, old(done), done, old(retired), retired, h);
        var ok, next := DoTd(ed, h, device(h));
        if !ok {
          stopped := true;
          break;
        }
        ServingStep(sh, m0, m, ram, qs0, was, ed, served, h);
        TouchesOne(sh, m0, m, ram, ed, q, h);
        OneMore(sh, m0, m, ram, q, served, device);
        h := next;
        served := served + 1;
      }
      Ends(qs0, qs, ed, served, h, q, old(done), done, old(retired), retired);
      if !stopped {
        ServingOut(this, m0, qs0, ed, served, h);
      }
      ghost var m := ram;
      WriteHead(ed, hp, h, m0, qs0, served);
      if served < |q| {
        NakStill(this, m, ed, q[served], device(q[served]));
      }
      TouchesOne(sh, m0, m, ram, ed, q, ed);
      AndTheHead(sh, m0, m, ram, ed, q, served, device);
      HeadBack(sh, m0, m, ram, qs0, ed, hp, h);
      if served < budget {
        Settles(ram, qs.of, ed, q, served, device);
      }
    }

    /** HeadP goes back with its flag bits. */
    method WriteHead(ed: Word, hp: Word, h: Word, ghost m0: Ram, ghost qs0: Queues, ghost k: nat)
      requires Owned() && Serving(qs0, qs, ed, k, h) && h % 16 == 0 && SameAround(sh, m0, ram, qs0) && HeadsOk(m0, qs0)
      modifies this`ram
      ensures Valid() && SameLinks(sh, m0, ram, qs) && OnlyCell(sh, old(ram), ram, ed)
      ensures Ledger(sh, old(ram), ram, {ed}, map[])
      ensures ram == St(old(ram), ed + 8, Flagged(hp, h)) && Ld(ram, ed) == Ld(old(ram), ed) && Ld(ram, ed + 8) == Flagged(hp, h)
    {
      hide Ld, St, QueuesOk, Finished, OnlyCell, Apart, Handed, Tail, SameTable, HeadStored, SameCell, Aside, Layout.Ok;
      hide Serving, SameAround, HeadsOk, SameLinks, Ledger;
      ghost var m := ram;
      ram := St(ram, ed + 8, Flagged(hp, h));
      ServingEd(qs0, qs, ed, k, h);
      EdDescriptor(sh, m, qs, ed);
      LedgerSt(sh, m, ed, 8, Flagged(hp, h));
      HeadWritten(sh, m, qs, ed, Flagged(hp, h));
      FinishedOther(sh, m, ram, qs, ed, doneHead, done);
      if writeback {
        FinishedOther(sh, m, ram, qs, ed, Ld(m, hcca + DONE_HEAD), given);
      }
      HeadsStored(sh, m0, m, ram, qs0, qs, ed, k, hp, h);
    }

    /** Walks one endpoint list, at most 64 descriptors. */
    method RunList(head: Word, device: nat -> Answer, ghost eds: seq<nat>) returns (served: nat)
      requires Valid() && EdList(ram, head, eds) && Known(eds, qs)
      modifies this`ram, this`doneHead, this`qs, this`done, this`retired
      ensures Valid() && served <= LIST_LIMIT
      ensures SameLinks(sh, old(ram), ram, qs) && Flow(old(qs.of), qs.of, old(done), done)
      ensures qs.of.Keys == old(qs.of).Keys
      ensures |done| == |old(done)| + served && (served < LIST_LIMIT ==> AllSettled(ram, qs.of, eds, device))
      ensures served == 0 ==> done == old(done) && ram == old(ram) && qs.of == old(qs.of) && AllSettled(ram, qs.of, eds, device)
      ensures var g := Gone(old(qs.of), qs.of); Ledger(sh, old(ram), ram, old(qs.of).Keys + g, Asks(g, device))
    {
      hide *;
      served := 0;
      var ed: nat := head;
      ghost var rest, seen: seq<nat> := eds, [];
      FlowNone(this);
      NoneSettled(ram, qs, device);
      SomeBudget();
      NothingYet(this, device);
      while ed != 0 && served < LIST_LIMIT
        invariant Valid() && served <= LIST_LIMIT && EdList(ram, ed, rest) && Known(rest, qs)
        invariant SameLinks(sh, old(ram), ram, qs) && Flow(old(qs.of), qs.of, old(done), done)
        invariant qs.of.Keys == old(qs.of).Keys && eds == seen + rest && Known(seen, qs)
        invariant served < LIST_LIMIT ==> AllSettled(ram, qs.of, seen, device)
        invariant Ledger(sh, old(ram), ram, old(qs.of).Keys + Gone(old(qs.of), qs.of), Asks(Gone(old(qs.of), qs.of), device))
        invariant |done| == |old(done)| + served && (served == 0 ==> done == old(done) && ram == old(ram) && qs.of == old(qs.of))
        decreases |rest|
      {
        FirstEd(ram, ed, rest, qs);
        var nextEd := Pointer(Ld(ram, ed + 12));
        ghost var m, was, had := ram, qs, done;
        QueueUnique(this, ed);
        var n := ServeEd(ed, LIST_LIMIT - served, device);
        LinksChain(sh, old(ram), m, ram, was, qs);
        FlowOne(was.of, qs.of, had, done, ed, n);
        FlowChain(old(qs.of), was.of, qs.of, old(done), had, done);
        KnownStill(rest[1..], was, qs);
        EdListKept(sh, m, ram, nextEd, rest[1..], qs);
        ServedCount(was.of[ed], n, had, done);
        ServiceMore(sh, old(ram), m, ram, old(qs), was.of, qs.of, old(done), had, ed, n, device);
        if served + n < LIST_LIMIT {
          StaySettled(sh, m, ram, was, qs, ed, seen, n, device);
        }
        served := served + n;
        KnownMore(seen, was, qs, ed);
        assert eds == (seen + [ed]) + rest[1..];
        seen := seen + [ed];
        ed := nextEd;
        rest := rest[1..];
      }
      if ed == 0 {
        NoMoreEds(ram, rest);
        assert eds == seen;
      }
    }

    /** The next HcFmNumber, and its copy in the HCCA. */
    method WriteFrame()
      requires Valid()
      modifies this`ram, this`fmNumber
      ensures fmNumber == (old(fmNumber) + 1) % 0x1_0000
      ensures Valid() && SameLinks(sh, old(ram), ram, qs)
      ensures Ld(ram, hcca + FRAME_NUMBER) == fmNumber && Ld(ram, hcca + DONE_HEAD) == Ld(old(ram), hcca + DONE_HEAD)
      ensures OnlyCell(sh, old(ram), ram, sh.hcca + 128) && Ledger(sh, old(ram), ram, {sh.hcca + 128}, map[])
    {
      hide Ld, St, QueuesOk, Finished, OnlyCell, Apart, Handed, HeadsOk, SameLinks, Aside, Layout.Ok, Ledger;
      ghost var m := ram;
      HccaCell(sh, m);
      LedgerSt(sh, m, sh.hcca + 128, 0, (fmNumber + 1) % 0x1_0000);
      fmNumber := (fmNumber + 1) % 0x1_0000;
      ram := St(ram, hcca + FRAME_NUMBER, fmNumber);
      HccaWritten(sh, m, qs, 0, fmNumber);
      FinishedOther(sh, m, ram, qs, hcca + 128, doneHead, done);
      if writeback {
        FinishedOther(sh, m, ram, qs, hcca + 128, Ld(m, hcca + DONE_HEAD), given);
      }
    }

    /** Hands the done list over, unless the driver still holds the last one. */
    method HandOver()
      requires Valid()
      modifies this`ram, this`doneHead, this`writeback, this`done, this`given, this`handed
      ensures Valid()
      ensures if old(done) != [] && !old(writeback) then
          handed == old(handed) + [old(done)] && done == [] && writeback && given == old(done)
        else handed == old(handed) && done == old(done) && writeback == old(writeback) && ram == old(ram)
      ensures Ledger(sh, old(ram), ram, {sh.hcca + 128}, map[])
    {
      hide Ld, St, QueuesOk, Apart, Handed, HeadsOk, SameLinks, Aside, Layout.Ok, OnlyCell, Finished, Ledger;
      HccaCell(sh, ram);
      LedgerNone(sh, ram, {sh.hcca + 128});
      LedgerSt(sh, ram, sh.hcca + 128, 4, doneHead);
      EmptyIffNull(sh, ram, qs, doneHead, done);
      if doneHead != 0 && !writeback {
        ghost var m := ram;
        ram := St(ram, hcca + DONE_HEAD, doneHead);
        HccaWritten(sh, m, qs, 4, doneHead);
        FinishedOther(sh, m, ram, qs, hcca + 128, doneHead, done);
        EmptyDone(sh, ram, qs, done, handed);
        given, handed := done, handed + [done];
        doneHead, done := 0, [];
        writeback := true;
      }
    }

    /** The enabled lists, one after another. */
    method Service(cfg: Config, device: (nat, nat) -> Answer, ghost ctrl: seq<nat>, ghost bulk: seq<nat>, ghost periodic: seq<nat>)
      returns (ghost ans: map<nat, Answer>)
      requires Valid() && cfg.Walks(ram, hcca, fmNumber, qs, ctrl, bulk, periodic)
      modifies this`ram, this`doneHead, this`qs, this`done, this`retired
      ensures Valid() && Flow(old(qs.of), qs.of, old(done), done)
      ensures done == old(done) ==> ram == old(ram) && qs.of == old(qs.of) && cfg.Quiet(ram, qs.of, device, ctrl, bulk, periodic)
      ensures ans.Keys == Gone(old(qs.of), qs.of) && AnsweredBy(ans, device)
      ensures Ledger(sh, old(ram), ram, old(qs.of).Keys + ans.Keys, ans)
    {
      hide *;
      FlowNone(this);
      ghost var m0, was0 := ram, qs;
      ans := map[];
      NothingYet(this, Asked(device, 0));
      NoAnswers(device);
      WalksStill(cfg, m0, ram, sh, fmNumber, was0, qs, ctrl, bulk, periodic);
      if cfg.control {
        var _ := RunList(cfg.ctrlHead, Asked(device, 0), ctrl);
        WalksStill(cfg, m0, ram, sh, fmNumber, was0, qs, ctrl, bulk, periodic);
        ListMore(sh, m0, m0, ram, was0, was0.of, qs.of, old(done), old(done), done, ans, Asked(device, 0));
        AnswersMore(ans, Gone(was0.of, qs.of), device, 0);
        ans := ans + Asks(Gone(was0.of, qs.of), Asked(device, 0));
      }
      if cfg.bulk {
        ghost var m, was, had := ram, qs, done;
        var _ := RunList(cfg.bulkHead, Asked(device, 1), bulk);
        WalksStill(cfg, m, ram, sh, fmNumber, was, qs, ctrl, bulk, periodic);
        ListMore(sh, m0, m, ram, was0, was.of, qs.of, old(done), had, done, ans, Asked(device, 1));
        AnswersMore(ans, Gone(was.of, qs.of), device, 1);
        ans := ans + Asks(Gone(was.of, qs.of), Asked(device, 1));
        FlowChain(old(qs.of), was.of, qs.of, old(done), had, done);
      }
      if cfg.periodic {
        ghost var m, was, had := ram, qs, done;
        var _ := RunList(Pointer(Ld(ram, hcca + fmNumber % 32 * 4)), Asked(device, 2), periodic);
        ListMore(sh, m0, m, ram, was0, was.of, qs.of, old(done), had, done, ans, Asked(device, 2));
        AnswersMore(ans, Gone(was.of, qs.of), device, 2);
        ans := ans + Asks(Gone(was.of, qs.of), Asked(device, 2));
        FlowChain(old(qs.of), was.of, qs.of, old(done), had, done);
      }
      if done == old(done) {
        QuietIs(cfg, ram, qs.of, device, ctrl, bulk, periodic);
      }
    }

    /** One frame: the frame number, the enabled lists, the hand-over. Whatever left a
        queue is on the done list, or in the one list just handed over, and its data
        is in its buffer; no other byte changes but in endpoints, retired descriptors
        and the HCCA. */
    method Tick(cfg: Config, device: (nat, nat) -> Answer, ghost ctrl: seq<nat>, ghost bulk: seq<nat>, ghost periodic: seq<nat>)
      returns (ghost ans: map<nat, Answer>)
      requires Valid() && (cfg.operational ==> cfg.Walks(ram, hcca, (fmNumber + 1) % 0x1_0000, qs, ctrl, bulk, periodic))
      modifies this`ram, this`doneHead, this`writeback, this`fmNumber, this`qs, this`done, this`given, this`handed, this`retired
      ensures Valid() && hcca == old(hcca)
      ensures handed != old(handed) ==> !old(writeback)
      ensures FrameStep(old(Look()), Look())
      ensures retired == old(retired) + multiset(Gone(old(qs.of), qs.of))
      ensures cfg.operational && Gone(old(qs.of), qs.of) == {} ==> cfg.Quiet(old(ram), old(qs.of), device, ctrl, bulk, periodic)
      ensures ans.Keys == Gone(old(qs.of), qs.of) && AnsweredBy(ans, device)
      ensures FrameData(sh, old(ram), ram, old(qs.of), ans)
    {
      hide *;
      FlowNone(this);
      BooksBalance(this);
      assert sh.Ok(|ram|) && QueuesOk(sh, ram, qs) by {
        NothingYet(this, Asked(device, 0));
      }
      if !cfg.operational {
        ans := map[];
        StillFrame(this, device);
        Frames(qs.of, qs.of, done, done, done, handed, handed, retired, retired);
        return;
      }
      ghost var m0, qs0, done0, handed0 := ram, qs, done, handed;
      WriteFrame();
      WalksStill(cfg, m0, ram, sh, fmNumber, qs, qs, ctrl, bulk, periodic);
      ghost var m1 := ram;
      QueuesIn(this);
      ans := Service(cfg, device, ctrl, bulk, periodic);
      ghost var all, m2 := done, ram;
      DoneUnique(this);
      assert Gone(qs0.of, qs.of) == {} ==> cfg.Quiet(m0, qs0.of, device, ctrl, bulk, periodic) by {
        if Gone(qs0.of, qs.of) == {} {
          NothingGone(qs0.of, qs.of, done0, all);
          QuietBefore(cfg, sh, m0, m1, fmNumber, qs0, device, ctrl, bulk, periodic);
        }
      }
      HandOver();
      assert FrameData(sh, m0, ram, qs0.of, ans) by {
        FlowKeys(qs0.of, qs.of, done0, all);
        HccaToo(sh, m0, m1, m2, ram, qs0, qs.of, ans);
      }
      BooksBalance(this);
      Frames(qs0.of, qs.of, done0, all, done, handed0, handed, old(retired), retired);
    }

    /** The driver's turn: any change of RAM that leaves its queues and the lists
        it does not own as they must be; acknowledging releases the last list. */
    method DriverTurn(newRam: Ram, ack: bool, newLayout: Layout, newQueues: Queues)
      requires Valid() && newLayout.Ok(|newRam|) && newLayout.hcca == hcca
      requires QueuesOk(newLayout, newRam, newQueues) && HeadsOk(newRam, newQueues)
      requires Finished(newLayout, newRam, newQueues, doneHead, done)
      requires writeback && !ack ==> Finished(newLayout, newRam, newQueues, Ld(newRam, hcca + DONE_HEAD), given)
      modifies this`ram, this`writeback, this`sh, this`qs, this`given
      ensures Valid() && writeback == (old(writeback) && !ack) && (writeback ==> given == old(given))
      ensures DriverStep(old(Look()), Look()) && retired == old(retired) && ram == newRam && sh == newLayout && qs == newQueues
    {
      hide Ld, QueuesOk, Finished, HeadsOk, Handed, Layout.Ok;
      ram, sh, qs := newRam, newLayout, newQueues;
      if ack {
        writeback, given := false, [];
      }
    }

    /** One move of a run, on the record. */
    method Play(move: Move, ghost guide: Guide) returns (ghost ans: map<nat, Answer>)
      requires Accounted() && Legal(Now(), move, guide)
      modifies this
      ensures Accounted() && turns == old(turns) + [move.Kind()] && history == old(history) + [Look()]
      ensures move.Passes? ==> retired == old(retired) + multiset(Gone(old(qs.of), qs.of))
      ensures move.Passes? ==> ans.Keys == Gone(old(qs.of), qs.of) && AnsweredBy(ans, move.device)
      ensures move.Passes? ==> FrameData(sh, old(ram), ram, old(qs.of), ans)
      ensures move.Passes? && move.cfg.operational && retired == old(retired) ==>
        move.cfg.Quiet(old(ram), old(qs.of), move.device, guide.ctrl, guide.bulk, guide.periodic)
      ensures move.Rewrites? ==> ram == move.newRam && sh == move.layout && qs == move.queues
      ensures move.Rewrites? ==> hcca == old(hcca) && doneHead == old(doneHead) && fmNumber == old(fmNumber) && done == old(done)
      ensures move.Rewrites? ==> retired == old(retired)
    {
      hide *;
      hide Controller.Valid;
      BeforeMove(this, move, guide);
      ans := map[];
      match move {
        case Passes(cfg, device) => ans := Tick(cfg, device, guide.ctrl, guide.bulk, guide.periodic);
        case Rewrites(newRam, ack, layout, queues) => DriverTurn(newRam, ack, layout, queues);
      }
      TraceSnoc(turns, history, move.Kind(), Look());
      BooksBalance(this);
      SameCount(old(retired), multiset(Gone(old(qs.of), qs.of)), Gone(old(qs.of), qs.of));
      turns, history := turns + [move.Kind()], history + [Look()];
      OnRecord(this);
    }

    /** Whole runs: whatever legal moves driver, clock and device make, every
        descriptor that ever left a queue is on the done list or in one list handed
        over, as often as it left. */
    method Run(host: (nat, State) -> Move, ghost guide: (nat, State) -> Guide, n: nat)
      requires Accounted()
      requires forall i: nat, s: State :: s.Ok() ==> Legal(s, host(i, s), guide(i, s))
      modifies this
      ensures Accounted() && |turns| == |old(turns)| + n && old(turns) <= turns && old(history) <= history
      ensures Retirements(turns, history) == multiset(done) + Handed(handed)
    {
      hide *;
      for i := 0 to n
        invariant Accounted() && |turns| == |old(turns)| + i && old(turns) <= turns && old(history) <= history
      {
        NowOk(this);
        ghost var ans := Play(host(i, Now()), guide(i, Now()));
      }
      NowOk(this);
      NeverLostNeverDoubled(turns, history);
    }
  }

  /** The same from power-up. */
  method PowerUp(memory: Ram, hcca: nat, layout: Layout, host: (nat, State) -> Move, ghost guide: (nat, State) -> Guide, n: nat)
    returns (c: Controller)
    requires layout.Ok(|memory|) && layout.hcca == hcca
    requires forall i: nat, s: State :: s.Ok() ==> Legal(s, host(i, s), guide(i, s))
    ensures c.Accounted() && |c.turns| == n
    ensures Retirements(c.turns, c.history) == multiset(c.done) + Handed(c.handed)
  {
    hide *;
    c := new Controller(memory, hcca, layout);
    c.Run(host, guide, n);
  }

  lemma ServingEd(qs0: Queues, qs: Queues, ed: nat, k: nat, h: nat)
    requires Serving(qs0, qs, ed, k, h)
    ensures ed in qs.of && ed in qs0.of
  {
  }

  /** Endpoint ed has given up k descriptors; its logical head is h. */
  ghost predicate Serving(qs0: Queues, qs: Queues, ed: nat, k: nat, h: nat) {
    && qs.heads.Keys == qs.of.Keys == qs0.of.Keys == qs0.heads.Keys && ed in qs0.of && k <= |qs0.of[ed]|
    && qs.of == qs0.of[ed := qs0.of[ed][k..]] && qs.heads == qs0.heads[ed := h]
  }

  /** Endpoints and interrupt table read as they did. */
  ghost predicate SameAround(sh: Layout, m0: Ram, m: Ram, qs: Queues) {
    |m| == |m0| && SameTable(sh, m0, m) && forall e :: e in qs.of ==> SameCell(m0, m, e)
  }

  ghost predicate SameLinks(sh: Layout, m0: Ram, m: Ram, qs: Queues) {
    |m| == |m0| && SameTable(sh, m0, m) && forall e :: e in qs.of ==> Ld(m, e + 12) == Ld(m0, e + 12)
  }

  ghost predicate HeadsOk(m: Ram, qs: Queues) {
    forall e :: e in qs.of && e in qs.heads ==> HeadStored(m, qs, e)
  }

  ghost predicate Tally(q: seq<nat>, k: nat, done0: seq<nat>, done: seq<nat>, retired0: multiset<nat>, retired: multiset<nat>) {
    k <= |q| && done == Reversed(q[..k]) + done0 && retired == retired0 + multiset(q[..k])
  }

  lemma Begins(c: Controller, ed: nat)
    requires c.Valid() && ed in c.qs.of
    ensures c.Owned() && HeadsOk(c.ram, c.qs) && Serving(c.qs, c.qs, ed, 0, Pointer(Ld(c.ram, ed + 8)))
    ensures SameAround(c.sh, c.ram, c.ram, c.qs) && Tally(c.qs.of[ed], 0, c.done, c.done, c.retired, c.retired)
  {
    hide Ld, Finished, Apart, Handed, QueueOk;
    var q, h := c.qs.of[ed], Pointer(Ld(c.ram, ed + 8));
    assert HeadStored(c.ram, c.qs, ed);
    assert q[0..] == q && c.qs.heads == c.qs.heads[ed := h];
  }

  lemma ServingHead(c: Controller, m0: Ram, qs0: Queues, ed: nat, k: nat, h: nat)
    requires c.Owned() && Serving(qs0, c.qs, ed, k, h) && SameAround(c.sh, m0, c.ram, qs0) && h != 0 && h != Tail(m0, ed)
    ensures ed in c.qs.of && c.qs.of[ed] != [] && h == c.qs.of[ed][0] && ed in qs0.of && k < |qs0.of[ed]| && h == qs0.of[ed][k]
    ensures c.sh.Ok(|c.ram|) && QueuesOk(c.sh, c.ram, c.qs)
  {
    hide Ld, Finished, Apart, Handed, QueueOk, SameTable, Tail, Layout.Ok;
    SameTail(m0, c.ram, ed);
    HeadIs(c.sh, c.ram, c.qs, ed);
  }

  lemma IdleIs(m: Ram, ed: nat)
    ensures Idle(m, ed) <==> Ld(m, ed) / 0x4000 % 2 == 1 || Ld(m, ed + 8) % 2 == 1
  {
    hide Ld;
  }

  /** A head at the tail means the queue is empty. */
  lemma ServingOut(c: Controller, m0: Ram, qs0: Queues, ed: nat, k: nat, h: nat)
    requires c.Owned() && Serving(qs0, c.qs, ed, k, h) && SameAround(c.sh, m0, c.ram, qs0)
    ensures h == 0 || h == Tail(m0, ed) ==> k == |qs0.of[ed]|
  {
    hide Ld, Finished, Apart, Handed, QueueOk, SameTable, Tail, Layout.Ok;
    SameTail(m0, c.ram, ed);
    HeadIs(c.sh, c.ram, c.qs, ed);
  }

  /** Writing HeadP does not touch the descriptor at the head. */
  lemma NakStill(c: Controller, m: Ram, ed: nat, td: nat, answer: Answer)
    requires c.Valid() && ed in c.qs.of && c.qs.of[ed] != [] && td == c.qs.of[ed][0] && OnlyCell(c.sh, m, c.ram, ed)
    ensures Naks(c.ram, td, answer) == Naks(m, td, answer)
  {
    hide Ld, Finished, Apart, Handed, AllApart;
    assert QueueOk(c.sh, c.ram, c.qs, ed);
    HeadOwned(c.sh, c.ram, c.qs, ed);
    assert SameCell(m, c.ram, td);
  }

  lemma ServingStep(sh: Layout, m0: Ram, m: Ram, n: Ram, qs0: Queues, qs: Queues, ed: nat, k: nat, h: nat)
    requires sh.Ok(|m|) && QueuesOk(sh, m, qs) && Serving(qs0, qs, ed, k, h) && SameAround(sh, m0, m, qs0)
    requires ed in qs.of && qs.of[ed] != [] && h == qs.of[ed][0] && ed in qs0.of && k < |qs0.of[ed]| && OnlyCell(sh, m, n, h)
    ensures Serving(qs0, Popped(m, qs, ed), ed, k + 1, Next(m, h)) && SameAround(sh, m0, n, qs0)
  {
    hide Ld, QueuesOk, OnlyCell, Next, SameCell, SameTable, Layout.Ok;
    EdsKept(sh, m0, m, n, qs, ed);
    PopsOn(m, qs0, qs, ed, k, h);
  }

  /** HeadP comes back with the flags it had, and unchanged when nothing left. */
  lemma HeadBack(sh: Layout, m0: Ram, m: Ram, n: Ram, qs0: Queues, ed: nat, hp: Word, h: Word)
    requires ed in qs0.of && SameAround(sh, m0, m, qs0) && hp == Ld(m0, ed + 8) && h % 16 == 0
    requires n == St(m, ed + 8, Flagged(hp, h)) && Ld(n, ed) == Ld(m, ed) && Ld(n, ed + 8) == Flagged(hp, h)
    ensures Idle(n, ed) <==> Idle(m0, ed)
    ensures m == m0 && h == Pointer(hp) ==> n == m0
  {
    hide Ld, St, SameTable;
    assert SameCell(m0, m, ed);
    StSame(m, ed + 8);
  }

  lemma StSame(m: Ram, pa: nat)
    ensures St(m, pa, Ld(m, pa)) == m
  {
    if pa + 4 <= |m| {
      BytesBack(m[pa], m[pa + 1], m[pa + 2], m[pa + 3]);
    }
  }

  lemma BytesBack(a: Byte, b: Byte, c: Byte, d: Byte)
    ensures var v := a + 256 * (b + 256 * (c + 256 * d));
      v % 256 == a && v / 256 % 256 == b && v / 256 / 256 % 256 == c && v / 256 / 256 / 256 == d
  {
    var y := c + 256 * d;
    var x := b + 256 * y;
    assert (a + 256 * x) / 256 == x && (b + 256 * y) / 256 == y && (c + 256 * d) / 256 == d;
  }

  lemma PopsOn(m: Ram, qs0: Queues, qs: Queues, ed: nat, k: nat, h: nat)
    requires Serving(qs0, qs, ed, k, h) && ed in qs.of && qs.of[ed] != [] && h == qs.of[ed][0] && ed in qs0.of && k < |qs0.of[ed]|
    ensures Serving(qs0, Popped(m, qs, ed), ed, k + 1, Next(m, h))
  {
    hide Next;
    assert qs0.of[ed][k..][1..] == qs0.of[ed][k + 1..];
  }

  lemma Ends(qs0: Queues, qs: Queues, ed: nat, k: nat, h: nat, q: seq<nat>, done0: seq<nat>, done: seq<nat>,
             retired0: multiset<nat>, retired: multiset<nat>)
    requires Serving(qs0, qs, ed, k, h) && ed in qs0.of && q == qs0.of[ed] && Tally(q, k, done0, done, retired0, retired)
    ensures k <= |q| && qs.of == qs0.of[ed := q[k..]] && done == Reversed(q[..k]) + done0 && retired == retired0 + multiset(q[..k])
  {
  }

  lemma HeadsStored(sh: Layout, m0: Ram, m: Ram, n: Ram, qs0: Queues, qs: Queues, ed: nat, k: nat, hp: Word, h: Word)
    requires Serving(qs0, qs, ed, k, h) && h % 16 == 0 && SameAround(sh, m0, m, qs0) && HeadsOk(m0, qs0)
    requires |n| == |m| && SameTable(sh, m, n) && forall e :: e in qs.of && e != ed ==> SameCell(m, n, e)
    requires Ld(n, ed + 8) == Flagged(hp, h) && Ld(n, ed + 12) == Ld(m, ed + 12)
    ensures HeadsOk(n, qs) && SameLinks(sh, m0, n, qs)
  {
    TableChains(sh, m0, m, n);
    hide Ld, SameTable, SameCell, HeadStored, Serving, Pointer, Flagged;
    ServingKeys(qs0, qs, ed, k, h);
    forall e | e in qs.of
      ensures Ld(n, e + 12) == Ld(m0, e + 12) && HeadStored(n, qs, e)
    {
      HeadEither(m0, m, n, qs0, qs, ed, e, hp, h);
    }
  }

  lemma HeadEither(m0: Ram, m: Ram, n: Ram, qs0: Queues, qs: Queues, ed: nat, e: nat, hp: Word, h: Word)
    requires ed in qs.heads && e in qs.heads && e in qs0.heads && h % 16 == 0 && qs.heads[ed] == h
    requires e != ed ==> qs.heads[e] == qs0.heads[e] && HeadStored(m0, qs0, e) && SameCell(m, n, e)
    requires SameCell(m0, m, e) && Ld(n, ed + 8) == Flagged(hp, h) && Ld(n, ed + 12) == Ld(m, ed + 12)
    ensures Ld(n, e + 12) == Ld(m0, e + 12) && HeadStored(n, qs, e)
  {
    hide Ld, HeadStored, SameCell, Flagged;
    if e == ed {
      HeadNew(m0, m, n, qs, ed, hp, h);
    } else {
      HeadOld(m0, m, n, qs0, qs, e);
    }
  }

  lemma ServingKeys(qs0: Queues, qs: Queues, ed: nat, k: nat, h: nat)
    requires Serving(qs0, qs, ed, k, h)
    ensures qs.heads.Keys == qs.of.Keys == qs0.of.Keys == qs0.heads.Keys && ed in qs.of && qs.heads[ed] == h
    ensures forall e :: e in qs.of && e != ed ==> qs.heads[e] == qs0.heads[e]
  {
  }

  lemma HeadNew(m0: Ram, m: Ram, n: Ram, qs: Queues, ed: nat, hp: Word, h: Word)
    requires ed in qs.heads && qs.heads[ed] == h && h % 16 == 0 && SameCell(m0, m, ed)
    requires Ld(n, ed + 8) == Flagged(hp, h) && Ld(n, ed + 12) == Ld(m, ed + 12)
    ensures Ld(n, ed + 12) == Ld(m0, ed + 12) && HeadStored(n, qs, ed)
  {
    hide Ld;
  }

  lemma HeadOld(m0: Ram, m: Ram, n: Ram, qs0: Queues, qs: Queues, e: nat)
    requires e in qs0.heads && e in qs.heads && qs.heads[e] == qs0.heads[e] && HeadStored(m0, qs0, e)
    requires SameCell(m0, m, e) && SameCell(m, n, e)
    ensures Ld(n, e + 12) == Ld(m0, e + 12) && HeadStored(n, qs, e)
  {
    hide Ld;
  }

  lemma NextIs(m: Ram, td: nat)
    ensures Next(m, td) == Pointer(Ld(m, td + 8)) && Next(m, td) % 16 == 0
  {
    hide Ld;
  }

  /** Retiring the head of a queue: it leaves the queue and heads the done list. */
  lemma RetireHead(sh: Layout, m: Ram, qs: Queues, ed: nat, bytes: seq<Byte>, moved: nat, doneHead: Word, done: seq<nat>)
    requires sh.Ok(|m|) && QueuesOk(sh, m, qs) && ed in qs.of && qs.of[ed] != [] && Finished(sh, m, qs, doneHead, done)
    requires |bytes| <= Avail(m, qs.of[ed][0])
    ensures var n := Carried(m, qs.of[ed][0], bytes, moved, doneHead);
      && sh.Ok(|n|) && OnlyCell(sh, m, n, qs.of[ed][0]) && QueuesOk(sh, n, Popped(m, qs, ed))
      && Finished(sh, n, Popped(m, qs, ed), qs.of[ed][0], [qs.of[ed][0]] + done)
  {
    assert QueueOk(sh, m, qs, ed);
    HeadOwned(sh, m, qs, ed);
    CarriedCells(sh, m, qs.of[ed][0], bytes, moved, doneHead);
    hide Ld, QueueOk, Finished, BufferClear, Popped, Carried, OnlyCell, AllApart;
    var n := Carried(m, qs.of[ed][0], bytes, moved, doneHead);
    QueuesPopped(sh, m, n, qs, ed);
    FinishedPushed(sh, m, n, qs, ed, doneHead, done);
  }

  lemma ApartNone(s: seq<nat>)
    ensures Apart(s, [])
  {
  }

  /** Retiring a descriptor, with the list in the driver's hands beside it. */
  lemma Retire(sh: Layout, m: Ram, qs: Queues, ed: nat, a: Answer, doneHead: Word, done: seq<nat>,
               writeback: bool, given: seq<nat>)
    requires Kept(sh, m, qs, doneHead, done, writeback, given) && ed in qs.of && qs.of[ed] != []
    ensures var td := qs.of[ed][0];
      var n := Carried(m, td, Stored(m, td, a), Moved(m, td, a), doneHead);
      && OnlyCell(sh, m, n, td) && Kept(sh, n, Popped(m, qs, ed), td, [td] + done, writeback, given)
      && Ledger(sh, m, n, {td}, map[td := a])
  {
    hide Ld, QueuesOk, Finished, Popped, Carried, OnlyCell, Avail, Apart, Layout.Ok, Ledger, Stored, Moved, BufferClear;
    var td := qs.of[ed][0];
    HeadDescriptor(sh, m, qs, ed);
    StoredFits(m, td, a);
    LedgerOne(sh, m, td, a, doneHead);
    RetireHead(sh, m, qs, ed, Stored(m, td, a), Moved(m, td, a), doneHead, done);
    if writeback {
      GivenKept(sh, m, Carried(m, td, Stored(m, td, a), Moved(m, td, a), doneHead), qs, ed, done, given);
    } else {
      ApartNone([td] + done);
    }
  }

  lemma HeadDescriptor(sh: Layout, m: Ram, qs: Queues, ed: nat)
    requires QueuesOk(sh, m, qs) && ed in qs.of && qs.of[ed] != []
    ensures sh.Descriptor(qs.of[ed][0]) && BufferClear(sh, m, qs.of[ed][0])
  {
    assert QueueOk(sh, m, qs, ed);
    HeadOwned(sh, m, qs, ed);
  }

  lemma DoneHeadSame(sh: Layout, m: Ram, n: Ram, c: nat)
    requires sh.Ok(|m|) && OnlyCell(sh, m, n, c) && sh.Descriptor(c)
    ensures Ld(n, sh.hcca + DONE_HEAD) == Ld(m, sh.hcca + DONE_HEAD)
  {
    hide Ld;
    assert sh.hcca + 16 * 8 in sh.cells;
    assert SameCell(m, n, sh.hcca + 128);
  }

  /** The list in the driver's hands stays as it was handed over. */
  lemma GivenKept(sh: Layout, m: Ram, n: Ram, qs: Queues, ed: nat, done: seq<nat>, given: seq<nat>)
    requires sh.Ok(|m|) && QueuesOk(sh, m, qs) && ed in qs.of && qs.of[ed] != [] && OnlyCell(sh, m, n, qs.of[ed][0])
    requires Finished(sh, m, qs, Ld(m, sh.hcca + DONE_HEAD), given) && Apart(done, given)
    ensures Finished(sh, n, Popped(m, qs, ed), Ld(n, sh.hcca + DONE_HEAD), given)
    ensures Apart([qs.of[ed][0]] + done, given)
  {
    HeadDescriptor(sh, m, qs, ed);
    DoneHeadSame(sh, m, n, qs.of[ed][0]);
    FinishedKept(sh, m, n, qs, ed, Ld(m, sh.hcca + DONE_HEAD), given);
    hide *;
    HeadNotIn(sh, m, qs, ed, Ld(m, sh.hcca + DONE_HEAD), given, done);
  }

  lemma HeadNotIn(sh: Layout, m: Ram, qs: Queues, ed: nat, a: nat, given: seq<nat>, done: seq<nat>)
    requires ed in qs.of && qs.of[ed] != [] && Finished(sh, m, qs, a, given) && Apart(done, given)
    ensures Apart([qs.of[ed][0]] + done, given)
  {
    hide Ld, List, NoDup;
    assert Apart(given, qs.of[ed]);
  }

  /** The interrupt table of the HCCA reads as before. */
  predicate SameTable(sh: Layout, m: Ram, n: Ram) {
    forall k :: 0 <= k < 32 ==> Ld(n, sh.hcca + 4 * k) == Ld(m, sh.hcca + 4 * k)
  }

  lemma TailIs(m: Ram, ed: nat)
    ensures Tail(m, ed) == Pointer(Ld(m, ed + 4))
  {
    hide Ld;
  }

  lemma Tallied(q: seq<nat>, k: nat, done0: seq<nat>, done: seq<nat>, retired0: multiset<nat>, retired: multiset<nat>, h: nat)
    requires Tally(q, k, done0, done, retired0, retired) && k < |q| && h == q[k]
    ensures Tally(q, k + 1, done0, [h] + done, retired0, retired + multiset{h})
  {
    assert q[..k + 1] == q[..k] + [q[k]];
    ReversedSnoc(q[..k], q[k]);
  }

  lemma TableKept(sh: Layout, m: Ram, n: Ram, c: nat)
    requires sh.Ok(|m|) && OnlyCell(sh, m, n, c) && sh.Descriptor(c)
    ensures SameTable(sh, m, n)
  {
    hide Ld;
    forall k | 0 <= k < 32
      ensures Ld(n, sh.hcca + 4 * k) == Ld(m, sh.hcca + 4 * k)
    {
      var j := k / 4;
      assert sh.hcca + 16 * j in sh.cells;
      assert SameCell(m, n, sh.hcca + 16 * j);
    }
  }

  lemma TableChains(sh: Layout, m0: Ram, m: Ram, n: Ram)
    requires SameTable(sh, m0, m) && SameTable(sh, m, n)
    ensures SameTable(sh, m0, n)
  {
    hide Ld;
  }

  /** Retiring a descriptor leaves the endpoints and the table alone. */
  lemma EdsKept(sh: Layout, m0: Ram, m: Ram, n: Ram, qs: Queues, ed: nat)
    requires sh.Ok(|m|) && QueuesOk(sh, m, qs) && ed in qs.of && qs.of[ed] != [] && OnlyCell(sh, m, n, qs.of[ed][0])
    requires SameTable(sh, m0, m) && forall e :: e in qs.of ==> SameCell(m0, m, e)
    ensures SameTable(sh, m0, n) && |n| == |m| && forall e :: e in qs.of ==> SameCell(m0, n, e)
  {
    HeadDescriptor(sh, m, qs, ed);
    TableKept(sh, m, n, qs.of[ed][0]);
    TableChains(sh, m0, m, n);
    CellCount(sh, m, n, qs.of[ed][0]);
    hide Ld, SameTable;
    forall e | e in qs.of
      ensures SameCell(m0, n, e)
    {
      assert QueueOk(sh, m, qs, e) && sh.Descriptor(e);
      HeadOwned(sh, m, qs, ed);
      assert SameCell(m, n, e);
    }
  }

  /** Writing HeadP changes one word of one endpoint. */
  lemma HeadWritten(sh: Layout, m: Ram, qs: Queues, ed: nat, v: Word)
    requires sh.Ok(|m|) && QueuesOk(sh, m, qs) && ed in qs.of
    ensures var n := St(m, ed + 8, v);
      && sh.Ok(|n|) && OnlyCell(sh, m, n, ed) && Aside(sh, qs, ed) && QueuesOk(sh, n, qs)
      && Ld(n, sh.hcca + DONE_HEAD) == Ld(m, sh.hcca + DONE_HEAD) && SameTable(sh, m, n)
      && Ld(n, ed) == Ld(m, ed) && Ld(n, ed + 8) == v && Ld(n, ed + 12) == Ld(m, ed + 12)
      && forall e :: e in qs.of && e != ed ==> SameCell(m, n, e)
  {
    hide Ld, St, QueuesOk, OnlyCell, Aside, SameTable, SameCell;
    var n := St(m, ed + 8, v);
    EdDescriptor(sh, m, qs, ed);
    StCell(sh, m, ed, 8, v);
    LdOther(m, ed + 8, v, ed);
    LdOther(m, ed + 8, v, ed + 12);
    DoneHeadSame(sh, m, n, ed);
    TableKept(sh, m, n, ed);
    EdAside(sh, qs, ed);
    QueuesOther(sh, m, n, qs, ed);
    OtherEds(sh, m, n, qs, ed);
  }

  lemma EdDescriptor(sh: Layout, m: Ram, qs: Queues, ed: nat)
    requires QueuesOk(sh, m, qs) && ed in qs.of
    ensures sh.Descriptor(ed)
  {
    hide Ld, AllApart;
    assert QueueOk(sh, m, qs, ed);
  }

  lemma EdAside(sh: Layout, qs: Queues, ed: nat)
    requires ed in qs.of
    ensures Aside(sh, qs, ed)
  {
  }

  lemma OtherEds(sh: Layout, m: Ram, n: Ram, qs: Queues, ed: nat)
    requires QueuesOk(sh, m, qs) && OnlyCell(sh, m, n, ed)
    ensures forall e :: e in qs.of && e != ed ==> SameCell(m, n, e)
  {
    hide Ld, QueuesOk, SameCell;
    forall e | e in qs.of && e != ed
      ensures SameCell(m, n, e)
    {
      EdDescriptor(sh, m, qs, e);
    }
  }

  // ---- endpoint lists -------------------------------------------------------

  /** The acyclic list of endpoints from head. */
  predicate EdList(m: Ram, head: nat, eds: seq<nat>)
    decreases |eds|
  {
    if eds == [] then head == 0 else head == eds[0] && head != 0 && EdList(m, Pointer(Ld(m, head + 12)), eds[1..])
  }

  predicate Known(eds: seq<nat>, qs: Queues) {
    forall i :: 0 <= i < |eds| ==> eds[i] in qs.of
  }

  lemma FirstEd(m: Ram, head: nat, eds: seq<nat>, qs: Queues)
    requires EdList(m, head, eds) && head != 0 && Known(eds, qs)
    ensures eds != [] && head == eds[0] && head in qs.of && EdList(m, Pointer(Ld(m, head + 12)), eds[1..]) && Known(eds[1..], qs)
  {
    hide Ld;
  }

  lemma {:induction false} EdListSame(m: Ram, n: Ram, head: nat, eds: seq<nat>)
    requires EdList(m, head, eds) && forall i :: 0 <= i < |eds| ==> Ld(n, eds[i] + 12) == Ld(m, eds[i] + 12)
    ensures EdList(n, head, eds)
    decreases |eds|
  {
    hide Ld;
    if eds != [] {
      EdListSame(m, n, Pointer(Ld(m, head + 12)), eds[1..]);
    }
  }

  /** The controller's registers that choose which lists run. */
  datatype Config = Config(operational: bool, control: bool, bulk: bool, periodic: bool, ctrlHead: Word, bulkHead: Word) {
    /** Each enabled list is acyclic and made of known endpoints. */
    ghost predicate Walks(m: Ram, hcca: nat, frame: nat, qs: Queues, c: seq<nat>, b: seq<nat>, p: seq<nat>) {
      && (control ==> EdList(m, ctrlHead, c) && Known(c, qs)) && (bulk ==> EdList(m, bulkHead, b) && Known(b, qs))
      && (periodic ==> EdList(m, Pointer(Ld(m, hcca + frame % 32 * 4)), p) && Known(p, qs))
    }

    /** No enabled list has anything to do. */
    ghost predicate Quiet(m: Ram, of: map<nat, seq<nat>>, device: (nat, nat) -> Answer, c: seq<nat>, b: seq<nat>, p: seq<nat>) {
      && (control ==> AllSettled(m, of, c, Asked(device, 0))) && (bulk ==> AllSettled(m, of, b, Asked(device, 1)))
      && (periodic ==> AllSettled(m, of, p, Asked(device, 2)))
    }
  }

  /** Every answer is the device's own, to that descriptor, for one of the lists. */
  ghost predicate AnsweredBy(ans: map<nat, Answer>, device: (nat, nat) -> Answer) {
    forall t :: t in ans ==> ans[t] == device(0, t) || ans[t] == device(1, t) || ans[t] == device(2, t)
  }

  lemma NoAnswers(device: (nat, nat) -> Answer)
    ensures AnsweredBy(map[], device) && Asks({}, Asked(device, 0)) == map[]
  {
  }

  lemma AnswersMore(ans: map<nat, Answer>, g: set<nat>, device: (nat, nat) -> Answer, list: nat)
    requires AnsweredBy(ans, device) && list < 3
    ensures AnsweredBy(ans + Asks(g, Asked(device, list)), device)
  {
  }

  /** What the device answers to the descriptors of one list. */
  function Asked(device: (nat, nat) -> Answer, list: nat): nat -> Answer {
    (td: nat) => device(list, td)
  }

  /** Writing the frame number hides no work. */
  lemma QuietBefore(cfg: Config, sh: Layout, m: Ram, n: Ram, frame: nat, qs: Queues, device: (nat, nat) -> Answer,
                    c: seq<nat>, b: seq<nat>, p: seq<nat>)
    requires QueuesOk(sh, n, qs) && OnlyCell(sh, m, n, sh.hcca + 128) && cfg.Walks(n, sh.hcca, frame, qs, c, b, p)
    requires cfg.Quiet(n, qs.of, device, c, b, p)
    ensures cfg.Quiet(m, qs.of, device, c, b, p)
  {
    hide Ld, Settled, QueuesOk, OnlyCell, EdList, Asked;
    forall e, list | e in qs.of && Settled(n, qs.of, e, Asked(device, list))
      ensures Settled(m, qs.of, e, Asked(device, list))
    {
      SettledBefore(sh, m, n, qs, e, Asked(device, list));
    }
  }

  lemma SettledBefore(sh: Layout, m: Ram, n: Ram, qs: Queues, e: nat, device: nat -> Answer)
    requires QueuesOk(sh, n, qs) && OnlyCell(sh, m, n, sh.hcca + 128) && Settled(n, qs.of, e, device)
    ensures Settled(m, qs.of, e, device)
  {
    hide Ld, List, NoDup, BufferClear, AllApart;
    assert QueueOk(sh, n, qs, e);
    assert SameCell(m, n, e);
    if qs.of[e] != [] {
      assert sh.Descriptor(qs.of[e][0]);
      assert SameCell(m, n, qs.of[e][0]);
    }
  }

  lemma QuietIs(cfg: Config, m: Ram, of: map<nat, seq<nat>>, device: (nat, nat) -> Answer, c: seq<nat>, b: seq<nat>, p: seq<nat>)
    requires cfg.control ==> AllSettled(m, of, c, Asked(device, 0))
    requires cfg.bulk ==> AllSettled(m, of, b, Asked(device, 1))
    requires cfg.periodic ==> AllSettled(m, of, p, Asked(device, 2))
    ensures cfg.Quiet(m, of, device, c, b, p)
  {
  }

  lemma KnownStill(eds: seq<nat>, was: Queues, qs: Queues)
    requires Known(eds, was) && was.of.Keys == qs.of.Keys
    ensures Known(eds, qs)
  {
  }

  lemma EdListKept(sh: Layout, m: Ram, n: Ram, head: nat, eds: seq<nat>, qs: Queues)
    requires EdList(m, head, eds) && Known(eds, qs) && SameLinks(sh, m, n, qs)
    ensures EdList(n, head, eds)
  {
    hide Ld, EdList, SameTable;
    EdListSame(m, n, head, eds);
  }

  lemma WalksStill(cfg: Config, m: Ram, n: Ram, sh: Layout, frame: nat, was: Queues, qs: Queues,
                   c: seq<nat>, b: seq<nat>, p: seq<nat>)
    requires cfg.Walks(m, sh.hcca, frame, was, c, b, p) && SameLinks(sh, m, n, qs) && was.of.Keys == qs.of.Keys
    ensures cfg.Walks(n, sh.hcca, frame, qs, c, b, p)
    ensures cfg.control ==> EdList(n, cfg.ctrlHead, c) && Known(c, qs)
    ensures cfg.bulk ==> EdList(n, cfg.bulkHead, b) && Known(b, qs)
    ensures cfg.periodic ==> EdList(n, Pointer(Ld(n, sh.hcca + frame % 32 * 4)), p) && Known(p, qs)
  {
    hide Ld, EdList;
    var k := frame % 32;
    assert Ld(n, sh.hcca + 4 * k) == Ld(m, sh.hcca + 4 * k);
    hide SameTable;
    if cfg.control {
      EdListKept(sh, m, n, cfg.ctrlHead, c, qs);
    }
    if cfg.bulk {
      EdListKept(sh, m, n, cfg.bulkHead, b, qs);
    }
    if cfg.periodic {
      EdListKept(sh, m, n, Pointer(Ld(m, sh.hcca + frame % 32 * 4)), p, qs);
    }
  }

  lemma LinksChain(sh: Layout, m0: Ram, m: Ram, n: Ram, was: Queues, qs: Queues)
    requires SameLinks(sh, m0, m, was) && SameLinks(sh, m, n, qs) && was.of.Keys == qs.of.Keys
    ensures SameLinks(sh, m0, n, qs)
  {
    TableChains(sh, m0, m, n);
    hide Ld, SameTable;
  }

  // ---- where descriptors go -------------------------------------------------

  function Added(done0: seq<nat>, done: seq<nat>): seq<nat> {
    if |done| >= |done0| then done[..|done| - |done0|] else []
  }

  predicate Suffix(q: seq<nat>, q0: seq<nat>) {
    |q| <= |q0| && q == q0[|q0| - |q|..]
  }

  ghost predicate Left(of0: map<nat, seq<nat>>, of: map<nat, seq<nat>>, x: nat) {
    exists ed :: ed in of0 && ed in of && x in of0[ed] && x !in of[ed]
  }

  /** Each queue lost a prefix, and what was added at the front of the done list
      is exactly what left the queues. */
  ghost predicate Flow(of0: map<nat, seq<nat>>, of: map<nat, seq<nat>>, done0: seq<nat>, done: seq<nat>) {
    && of0.Keys == of.Keys && (forall ed :: ed in of0 ==> Suffix(of[ed], of0[ed]))
    && done == Added(done0, done) + done0
    && forall x :: x in Added(done0, done) <==> Left(of0, of, x)
  }

  lemma FlowNone(c: Controller)
    requires c.Valid()
    ensures Flow(c.qs.of, c.qs.of, c.done, c.done) && SameLinks(c.sh, c.ram, c.ram, c.qs) && c.hcca == c.sh.hcca
  {
  }

  lemma SuffixChain(a: seq<nat>, b: seq<nat>, c: seq<nat>)
    requires Suffix(b, a) && Suffix(c, b)
    ensures Suffix(c, a) && forall x :: x in c ==> x in b && x in a
  {
  }

  lemma FlowChain(of0: map<nat, seq<nat>>, of1: map<nat, seq<nat>>, of2: map<nat, seq<nat>>, d0: seq<nat>, d1: seq<nat>, d2: seq<nat>)
    requires Flow(of0, of1, d0, d1) && Flow(of1, of2, d1, d2)
    ensures Flow(of0, of2, d0, d2)
  {
    hide Suffix;
    assert d2 == (Added(d1, d2) + Added(d0, d1)) + d0;
    assert Added(d0, d2) == Added(d1, d2) + Added(d0, d1);
    forall ed | ed in of0
      ensures Suffix(of2[ed], of0[ed])
    {
      SuffixChain(of0[ed], of1[ed], of2[ed]);
    }
    forall x
      ensures x in Added(d0, d2) <==> Left(of0, of2, x)
    {
      LeftChain(of0, of1, of2, x);
      assert x in Added(d0, d2) <==> x in Added(d1, d2) || x in Added(d0, d1);
    }
  }

  lemma LeftChain(of0: map<nat, seq<nat>>, of1: map<nat, seq<nat>>, of2: map<nat, seq<nat>>, x: nat)
    requires of0.Keys == of1.Keys == of2.Keys
    requires forall ed :: ed in of0 ==> Suffix(of1[ed], of0[ed]) && Suffix(of2[ed], of1[ed])
    ensures Left(of0, of2, x) <==> Left(of0, of1, x) || Left(of1, of2, x)
  {
    hide Suffix;
    forall ed | ed in of0
      ensures x in of2[ed] ==> x in of1[ed]
      ensures x in of1[ed] ==> x in of0[ed]
    {
      SuffixIn(of0[ed], of1[ed], x);
      SuffixIn(of1[ed], of2[ed], x);
    }
    if ed :| ed in of0 && ed in of2 && x in of0[ed] && x !in of2[ed] {
      assert x in of1[ed] || x !in of1[ed];
    }
  }

  lemma SuffixIn(a: seq<nat>, b: seq<nat>, x: nat)
    requires Suffix(b, a)
    ensures x in b ==> x in a
  {
  }

  lemma {:induction false} InReversed(s: seq<nat>, x: nat)
    ensures x in Reversed(s) <==> x in s
    ensures |Reversed(s)| == |s|
    decreases |s|
  {
    if s != [] {
      InReversed(s[1..], x);
      assert s == [s[0]] + s[1..];
    }
  }

  /** Serving one endpoint is such a flow. */
  lemma FlowOne(of: map<nat, seq<nat>>, of': map<nat, seq<nat>>, done: seq<nat>, done': seq<nat>, ed: nat, k: nat)
    requires ed in of && k <= |of[ed]| && NoDup(of[ed]) && of' == of[ed := of[ed][k..]]
    requires done' == Reversed(of[ed][..k]) + done
    ensures Flow(of, of', done, done')
  {
    var q := of[ed];
    InReversed(q[..k], 0);
    assert Added(done, done') == Reversed(q[..k]);
    forall x
      ensures x in Reversed(q[..k]) <==> Left(of, of', x)
    {
      InReversed(q[..k], x);
      PrefixLeft(q, k, x);
      if x in q[..k] {
        assert ed in of && ed in of' && x in of[ed] && x !in of'[ed];
      }
    }
  }

  lemma PrefixLeft(q: seq<nat>, k: nat, x: nat)
    requires NoDup(q) && k <= |q|
    ensures x in q[..k] <==> x in q && x !in q[k..]
  {
    assert q == q[..k] + q[k..];
  }

  lemma QueueUnique(c: Controller, ed: nat)
    requires c.Valid() && ed in c.qs.of
    ensures NoDup(c.qs.of[ed]) && ed < 0x1_0000_0000 && QueuesOk(c.sh, c.ram, c.qs)
    ensures c.sh.Ok(|c.ram|) && ed !in c.qs.of[ed]
  {
    hide Ld, Finished, Apart, Handed, AllApart;
    assert QueueOk(c.sh, c.ram, c.qs, ed) && c.sh.Descriptor(ed);
  }

  // ---- the HCCA -------------------------------------------------------------

  lemma HccaWritten(sh: Layout, m: Ram, qs: Queues, k: nat, v: Word)
    requires sh.Ok(|m|) && QueuesOk(sh, m, qs) && HeadsOk(m, qs) && k in {0, 4}
    ensures var n := St(m, sh.hcca + 128 + k, v);
      && sh.Ok(|n|) && OnlyCell(sh, m, n, sh.hcca + 128) && Aside(sh, qs, sh.hcca + 128) && QueuesOk(sh, n, qs)
      && HeadsOk(n, qs) && SameLinks(sh, m, n, qs) && Ld(n, sh.hcca + 128 + k) == v
      && (k == 0 ==> Ld(n, sh.hcca + DONE_HEAD) == Ld(m, sh.hcca + DONE_HEAD))
  {
    hide Ld, St, QueuesOk, HeadsOk, SameLinks, OnlyCell, Aside, Tail;
    var n, c := St(m, sh.hcca + 128 + k, v), sh.hcca + 128;
    assert sh.hcca + 16 * 8 in sh.cells;
    StCell(sh, m, c, k, v);
    HccaAside(sh, m, qs, c);
    QueuesOther(sh, m, n, qs, c);
    EdsElsewhere(sh, m, n, qs, c);
  }

  lemma HccaCell(sh: Layout, m: Ram)
    requires sh.Ok(|m|)
    ensures sh.hcca + 128 in sh.cells
  {
    assert sh.hcca + 16 * 8 in sh.cells;
  }

  /** A frame writes endpoints, the descriptors it retires, their data, and the cell
      of the HCCA that holds the frame number and the done head. */
  ghost predicate FrameData(sh: Layout, m: Ram, n: Ram, of: map<nat, seq<nat>>, ans: map<nat, Answer>) {
    Ledger(sh, m, n, of.Keys + ans.Keys + {sh.hcca + 128}, ans)
  }

  /** The HCCA is written before and after the lists. */
  lemma HccaToo(sh: Layout, m0: Ram, m1: Ram, m2: Ram, m3: Ram, qs0: Queues, of: map<nat, seq<nat>>, ans: map<nat, Answer>)
    requires sh.Ok(|m0|) && QueuesOk(sh, m0, qs0) && of.Keys == qs0.of.Keys && ans.Keys == Gone(qs0.of, of)
    requires m1 == m0 || Ledger(sh, m0, m1, {sh.hcca + 128}, map[])
    requires Ledger(sh, m1, m2, qs0.of.Keys + ans.Keys, ans)
    requires m3 == m2 || Ledger(sh, m2, m3, {sh.hcca + 128}, map[])
    ensures FrameData(sh, m0, m3, qs0.of, ans)
  {
    hide Ledger, Layout.Ok, QueuesOk, Gone;
    var h := {sh.hcca + 128};
    GoneAside(sh, m0, qs0, of);
    HccaCell(sh, m0);
    LedgerNone(sh, m0, h);
    if m1 == m0 {
      LedgerNone(sh, m1, h);
    }
    assert map[] + ans == ans && ans + map[] == ans;
    LedgerChain(sh, m0, m1, m2, h, map[], qs0.of.Keys + ans.Keys, ans);
    LedgerNone(sh, m2, h);
    LedgerChain(sh, m0, m2, m3, h + (qs0.of.Keys + ans.Keys), ans, h, map[]);
    assert h + (qs0.of.Keys + ans.Keys) + h == qs0.of.Keys + ans.Keys + h;
  }

  /** A frame in which nothing happens. */
  lemma StillFrame(c: Controller, device: (nat, nat) -> Answer)
    requires c.Valid()
    ensures FrameData(c.sh, c.ram, c.ram, c.qs.of, map[]) && AnsweredBy(map[], device)
    ensures Gone(c.qs.of, c.qs.of) == {} && NoDup(c.done)
  {
    hide *;
    NothingYet(c, Asked(device, 0));
    NoAnswers(device);
    DoneUnique(c);
    HccaToo(c.sh, c.ram, c.ram, c.ram, c.ram, c.qs, c.qs.of, map[]);
  }

  /** What leaves a queue does not lie in the HCCA. */
  lemma GoneAside(sh: Layout, m: Ram, qs0: Queues, of: map<nat, seq<nat>>)
    requires QueuesOk(sh, m, qs0)
    ensures Gone(qs0.of, of) !! {sh.hcca + 128}
  {
    hide Ld, List, BufferClear;
    forall x | x in Gone(qs0.of, of)
      ensures sh.Descriptor(x)
    {
      var ed :| ed in qs0.of && ed in of && x in qs0.of[ed] && x !in of[ed];
      assert QueueOk(sh, m, qs0, ed);
    }
  }

  lemma HccaAside(sh: Layout, m: Ram, qs: Queues, c: nat)
    requires QueuesOk(sh, m, qs) && !sh.Descriptor(c)
    ensures Aside(sh, qs, c) && c !in qs.of
  {
    hide Ld, AllApart;
    forall e | e in qs.of
      ensures e != c
    {
      assert QueueOk(sh, m, qs, e);
    }
  }

  /** A write in the second half of the HCCA leaves endpoints and table alone. */
  lemma EdsElsewhere(sh: Layout, m: Ram, n: Ram, qs: Queues, c: nat)
    requires sh.Ok(|m|) && QueuesOk(sh, m, qs) && HeadsOk(m, qs) && OnlyCell(sh, m, n, c) && c == sh.hcca + 128
    ensures HeadsOk(n, qs) && SameLinks(sh, m, n, qs)
  {
    TableBefore(sh, m, n, c);
    hide Ld, AllApart, SameTable;
    forall e | e in qs.of
      ensures SameCell(m, n, e)
    {
      assert QueueOk(sh, m, qs, e) && sh.Descriptor(e);
    }
  }

  lemma TableBefore(sh: Layout, m: Ram, n: Ram, c: nat)
    requires sh.Ok(|m|) && OnlyCell(sh, m, n, c) && c == sh.hcca + 128
    ensures SameTable(sh, m, n)
  {
    hide Ld;
    forall j | 0 <= j < 32
      ensures Ld(n, sh.hcca + 4 * j) == Ld(m, sh.hcca + 4 * j)
    {
      assert sh.hcca + 16 * (j / 4) in sh.cells;
      assert SameCell(m, n, sh.hcca + 16 * (j / 4));
    }
  }

  lemma EmptyIffNull(sh: Layout, m: Ram, qs: Queues, a: nat, tds: seq<nat>)
    requires Finished(sh, m, qs, a, tds)
    ensures a == 0 <==> tds == []
  {
    hide Ld;
  }

  lemma EmptyDone(sh: Layout, m: Ram, qs: Queues, done: seq<nat>, handed: seq<seq<nat>>)
    ensures Finished(sh, m, qs, 0, []) && Apart([], done) && multiset(done) + Handed(handed) == Handed(handed + [done])
  {
    assert (handed + [done])[..|handed|] == handed;
  }

  // ---- whole runs -----------------------------------------------------------

  /** The descriptors a service took out of the queues. */
  ghost function Gone(of0: map<nat, seq<nat>>, of: map<nat, seq<nat>>): set<nat> {
    set ed, x | ed in of0 && ed in of && x in of0[ed] && x !in of[ed] :: x
  }

  /** Queues, internal done list and every list handed over so far. */
  datatype Books = Books(of: map<nat, seq<nat>>, done: seq<nat>, handed: seq<seq<nat>>) {
    predicate Fresh() {
      of == map[] && done == [] && handed == []
    }
  }

  /** One frame: what left the queues, each of them a prefix, joins the front of
      the done list; then the whole list is handed over, or stays. */
  ghost predicate FrameStep(a: Books, b: Books) {
    exists all :: Serviced(a, b, all)
  }

  ghost predicate Serviced(a: Books, b: Books, all: seq<nat>) {
    && Flow(a.of, b.of, a.done, all) && NoDup(all)
    && ((b.done == all && b.handed == a.handed) || (b.done == [] && b.handed == a.handed + [all]))
  }

  /** The driver may rearrange its queues; the controller's lists are not its own. */
  ghost predicate DriverStep(a: Books, b: Books) {
    b.done == a.done && b.handed == a.handed
  }

  datatype Turn = Frame | Driver

  /** What the host side of a run does next. */
  datatype Move =
    | Passes(cfg: Config, device: (nat, nat) -> Answer)
    | Rewrites(newRam: Ram, ack: bool, layout: Layout, queues: Queues)
  {
    function Kind(): Turn {
      if Passes? then Frame else Driver
    }
  }

  datatype View = View(ram: Ram, doneHead: Word, writeback: bool, fmNumber: nat)

  /** The endpoint lists a frame walks. */
  datatype Guide = Guide(ctrl: seq<nat>, bulk: seq<nat>, periodic: seq<nat>)

  datatype State = State(view: View, hcca: nat, sh: Layout, qs: Queues, done: seq<nat>, given: seq<nat>) {
    ghost predicate Ok() {
      hcca == sh.hcca && Kept(sh, view.ram, qs, view.doneHead, done, view.writeback, given) && HeadsOk(view.ram, qs)
    }
  }

  /** A frame over well-formed lists; or a driver that leaves the lists it does not
      own as they are. */
  ghost predicate Legal(s: State, move: Move, g: Guide) {
    match move
    case Passes(cfg, _) =>
      cfg.operational ==> cfg.Walks(s.view.ram, s.hcca, (s.view.fmNumber + 1) % 0x1_0000, s.qs, g.ctrl, g.bulk, g.periodic)
    case Rewrites(m, ack, layout, queues) =>
      && layout.Ok(|m|) && layout.hcca == s.hcca && QueuesOk(layout, m, queues) && HeadsOk(m, queues)
      && Finished(layout, m, queues, s.view.doneHead, s.done)
      && (s.view.writeback && !ack ==> Finished(layout, m, queues, Ld(m, s.hcca + DONE_HEAD), s.given))
  }

  ghost predicate Trace(turns: seq<Turn>, states: seq<Books>) {
    && |states| == |turns| + 1 && states[0].Fresh()
    && forall i :: 0 <= i < |turns| ==>
         if turns[i].Frame? then FrameStep(states[i], states[i + 1]) else DriverStep(states[i], states[i + 1])
  }

  /** Everything that left a queue in any frame of the run. */
  ghost function Retirements(turns: seq<Turn>, states: seq<Books>): multiset<nat>
    requires |states| == |turns| + 1
  {
    if turns == [] then multiset{}
    else
      var n := |turns| - 1;
      Retirements(turns[..n], states[..n + 1]) + if turns[n].Frame? then multiset(Gone(states[n].of, states[n + 1].of)) else multiset{}
  }

  /** Over every run of frames and driver turns from power-up: each descriptor that
      ever left a queue is in exactly one place, the internal done list or one of
      the lists handed over, as often as it left; none is lost or doubled. */
  lemma {:induction false} NeverLostNeverDoubled(turns: seq<Turn>, states: seq<Books>)
    requires Trace(turns, states)
    ensures var end := states[|turns|];
      Retirements(turns, states) == multiset(end.done) + Handed(end.handed)
    decreases |turns|
  {
    hide FrameStep, DriverStep, Gone;
    if turns != [] {
      var n := |turns| - 1;
      var a, b := states[n], states[n + 1];
      NeverLostNeverDoubled(turns[..n], states[..n + 1]);
      assert states[..n + 1][n] == a;
      if turns[n].Frame? {
        FrameBalances(a, b);
      } else {
        DriverBalances(a, b);
      }
    }
  }

  lemma DriverBalances(a: Books, b: Books)
    requires DriverStep(a, b)
    ensures multiset(b.done) + Handed(b.handed) == multiset(a.done) + Handed(a.handed)
  {
  }

  lemma FrameBalances(a: Books, b: Books)
    requires FrameStep(a, b)
    ensures multiset(b.done) + Handed(b.handed) == multiset(a.done) + Handed(a.handed) + multiset(Gone(a.of, b.of))
  {
    hide Gone, Flow, Handed;
    var all: seq<nat> :| Serviced(a, b, all);
    GoneIsAdded(a.of, b.of, a.done, all);
    HandedSnoc(a.handed, all);
    AllBalances(all, Added(a.done, all), a.done, multiset(Gone(a.of, b.of)));
  }

  lemma AllBalances(all: seq<nat>, more: seq<nat>, done: seq<nat>, gone: multiset<nat>)
    requires all == more + done && multiset(more) == gone
    ensures multiset(all) == multiset(done) + gone
  {
  }

  lemma HandedSnoc(handed: seq<seq<nat>>, l: seq<nat>)
    ensures Handed(handed + [l]) == Handed(handed) + multiset(l)
  {
    assert (handed + [l])[..|handed|] == handed;
  }

  lemma GoneIsAdded(of0: map<nat, seq<nat>>, of: map<nat, seq<nat>>, done0: seq<nat>, all: seq<nat>)
    requires Flow(of0, of, done0, all) && NoDup(all)
    ensures multiset(Added(done0, all)) == multiset(Gone(of0, of)) && all == Added(done0, all) + done0
  {
    var l := Added(done0, all);
    hide Suffix;
    forall x
      ensures x in l <==> x in Gone(of0, of)
    {
      assert x in l <==> Left(of0, of, x);
    }
    hide Gone, Flow, Added;
    assert NoDup(l) by {
      assert forall i :: 0 <= i < |l| ==> all[i] == l[i];
    }
    UniqueMultiset(l, Gone(of0, of));
  }

  lemma {:induction false} UniqueMultiset(l: seq<nat>, g: set<nat>)
    requires NoDup(l) && forall x :: x in l <==> x in g
    ensures multiset(l) == multiset(g)
    decreases |l|
  {
    if l == [] {
      assert g == {};
    } else {
      var front, x := l[..|l| - 1], l[|l| - 1];
      assert l == front + [x];
      forall y
        ensures y in front <==> y in g - {x}
      {
        assert y in l <==> y in front || y == x;
      }
      UniqueMultiset(front, g - {x});
      assert g == (g - {x}) + {x};
    }
  }

  lemma SameCount(a: multiset<nat>, b: multiset<nat>, g: set<nat>)
    requires b == multiset(g)
    ensures a + b == a ==> g == {}
  {
    if x :| x in g {
      assert (a + b)[x] == a[x] + b[x];
    }
  }

  lemma NothingGone(of0: map<nat, seq<nat>>, of: map<nat, seq<nat>>, done0: seq<nat>, done: seq<nat>)
    requires Flow(of0, of, done0, done) && NoDup(done) && Gone(of0, of) == {}
    ensures done == done0
  {
    hide Flow, Gone, Added;
    var l := Added(done0, done);
    GoneIsAdded(of0, of, done0, done);
    assert |multiset(l)| == |l| && multiset(l) == multiset(Gone(of0, of));
  }

  lemma QueuesIn(c: Controller)
    requires c.Valid()
    ensures QueuesOk(c.sh, c.ram, c.qs)
  {
    hide Ld, QueuesOk, Apart, Handed, HeadsOk, Layout.Ok, Finished;
  }

  lemma NowOk(c: Controller)
    requires c.Accounted()
    ensures c.Now().Ok() && c.Now().view == View(c.ram, c.doneHead, c.writeback, c.fmNumber)
    ensures Trace(c.turns, c.history) && c.history[|c.turns|] == Books(c.qs.of, c.done, c.handed)
  {
    hide Kept, HeadsOk, Trace;
  }

  lemma BeforeMove(c: Controller, move: Move, g: Guide)
    requires c.Accounted() && Legal(c.Now(), move, g)
    ensures c.Valid() && Trace(c.turns, c.history) && |c.history| == |c.turns| + 1
    ensures c.history[|c.turns|] == c.Look() && c.Look().of == c.qs.of && c.retired == Retirements(c.turns, c.history)
    ensures move.Passes? && move.cfg.operational ==>
      move.cfg.Walks(c.ram, c.hcca, (c.fmNumber + 1) % 0x1_0000, c.qs, g.ctrl, g.bulk, g.periodic)
    ensures move.Rewrites? ==>
      && move.layout.Ok(|move.newRam|) && move.layout.hcca == c.hcca && QueuesOk(move.layout, move.newRam, move.queues)
      && HeadsOk(move.newRam, move.queues) && Finished(move.layout, move.newRam, move.queues, c.doneHead, c.done)
      && (c.writeback && !move.ack ==>
            Finished(move.layout, move.newRam, move.queues, Ld(move.newRam, c.hcca + DONE_HEAD), c.given))
    ensures move.Kind() == if move.Passes? then Frame else Driver
  {
    hide Controller.Valid, Config.Walks, QueuesOk, HeadsOk, Finished, Ld, Layout.Ok, FrameStep, DriverStep, Retirements;
  }

  lemma OnRecord(c: Controller)
    requires c.Valid() && Trace(c.turns, c.history) && c.history[|c.turns|] == c.Look() && c.retired == Retirements(c.turns, c.history)
    ensures c.Accounted()
  {
  }

  lemma TraceSnoc(turns: seq<Turn>, states: seq<Books>, turn: Turn, b: Books)
    requires Trace(turns, states)
    requires var a := states[|turns|]; if turn.Frame? then FrameStep(a, b) else DriverStep(a, b)
    ensures Trace(turns + [turn], states + [b])
    ensures Retirements(turns + [turn], states + [b]) ==
      Retirements(turns, states) + if turn.Frame? then multiset(Gone(states[|turns|].of, b.of)) else multiset{}
  {
    hide FrameStep, DriverStep, Gone;
    assert (turns + [turn])[..|turns|] == turns && (states + [b])[..|turns| + 1] == states;
  }

  lemma DoneUnique(c: Controller)
    requires c.Valid()
    ensures NoDup(c.done)
  {
    hide Ld, QueuesOk, Apart, Handed, HeadsOk, Layout.Ok, List;
  }

  lemma BooksBalance(c: Controller)
    requires c.Valid()
    ensures c.retired == multiset(c.done) + Handed(c.handed) && NoDup(c.done)
    ensures c.Look() == Books(c.qs.of, c.done, c.handed)
  {
    hide Ld, QueuesOk, Apart, Handed, HeadsOk, Layout.Ok, List;
  }

  lemma Frames(of0: map<nat, seq<nat>>, of: map<nat, seq<nat>>, done0: seq<nat>, all: seq<nat>, done: seq<nat>,
               handed0: seq<seq<nat>>, handed: seq<seq<nat>>, retired0: multiset<nat>, retired: multiset<nat>)
    requires Flow(of0, of, done0, all) && NoDup(all)
    requires retired0 == multiset(done0) + Handed(handed0) && retired == multiset(done) + Handed(handed)
    requires (done == all && handed == handed0) || (done == [] && handed == handed0 + [all])
    ensures FrameStep(Books(of0, done0, handed0), Books(of, done, handed))
    ensures retired == retired0 + multiset(Gone(of0, of))
  {
    hide Flow, Handed, Gone;
    assert Serviced(Books(of0, done0, handed0), Books(of, done, handed), all);
    FrameBalances(Books(of0, done0, handed0), Books(of, done, handed));
  }
}
