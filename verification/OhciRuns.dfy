/** What the theorem about whole controller runs covers: every script of legal moves,
    and a run in which a descriptor is retired. */
module OhciRuns {
  import opened Units
  import opened OhciRam
  import opened OhciQueues

  // ---- every script is a host -----------------------------------------------

  /** A frame with the controller not operational: always legal. */
  function Wait(): Move {
    Passes(Config(false, false, false, false, 0, 0), (list: nat, td: nat) => Nak)
  }

  /** The host that makes these moves in these states, and otherwise waits. */
  function Scripted(states: seq<State>, moves: seq<Move>): (nat, State) -> Move
    requires |states| == |moves|
  {
    (i: nat, s: State) => if i < |states| && s == states[i] then moves[i] else Wait()
  }

  ghost function ScriptGuide(states: seq<State>, guides: seq<Guide>): (nat, State) -> Guide
    requires |states| == |guides|
  {
    (i: nat, s: State) => if i < |states| && s == states[i] then guides[i] else Guide([], [], [])
  }

  /** Whatever moves are legal in the states a run goes through, some host that is
      legal in every state makes them. */
  lemma EveryScript(states: seq<State>, moves: seq<Move>, guides: seq<Guide>)
    requires |states| == |moves| == |guides| && forall i :: 0 <= i < |moves| ==> Legal(states[i], moves[i], guides[i])
    ensures forall i: nat, s: State :: s.Ok() ==> Legal(s, Scripted(states, moves)(i, s), ScriptGuide(states, guides)(i, s))
    ensures forall i :: 0 <= i < |moves| ==> Scripted(states, moves)(i, states[i]) == moves[i]
  {
    hide Legal, Wait;
    forall i: nat, s: State
      ensures Legal(s, Scripted(states, moves)(i, s), ScriptGuide(states, guides)(i, s))
    {
      WaitLegal(s);
    }
  }

  lemma WaitLegal(s: State)
    ensures Legal(s, Wait(), Guide([], [], []))
  {
  }

  // ---- a descriptor that is retired -----------------------------------------

  const HCCA: nat := 256
  const ED: nat := 512
  const TD: nat := 528

  function Cells(): Layout {
    Layout(set k: nat | k < 18 :: HCCA + 16 * k, HCCA)
  }

  function Blank(): Ram {
    seq(1024, _ => 0)
  }

  /** An endpoint whose queue holds one SETUP descriptor. */
  function Queued(): Ram {
    St(Blank(), ED + 8, TD)
  }

  function OneQueue(): Queues {
    Queues(map[ED := [TD]], map[ED := TD])
  }

  lemma BlankLd(a: nat)
    ensures Ld(Blank(), a) == 0
  {
  }

  lemma QueuedLd(a: nat)
    requires a % 4 == 0
    ensures Ld(Queued(), a) == if a == ED + 8 then TD else 0
  {
    hide Ld, St, Blank;
    assert |Blank()| == 1024 by {
      BlankSize();
    }
    if a == ED + 8 {
      LdSt(Blank(), ED + 8, TD);
    } else {
      LdOther(Blank(), ED + 8, TD, a);
      BlankLd(a);
    }
  }

  lemma BlankSize()
    ensures |Blank()| == 1024
  {
  }

  lemma CellsOk()
    ensures Cells().Ok(1024) && Cells().hcca == HCCA && Cells().Descriptor(ED) && Cells().Descriptor(TD)
  {
    assert HCCA + 16 * 16 in Cells().cells && HCCA + 16 * 17 in Cells().cells;
  }

  lemma OneList(m: Ram)
    requires Next(m, TD) == 0 && Tail(m, ED) == 0 && Pointer(Ld(m, ED + 12)) == 0
    ensures List(m, TD, Tail(m, ED), [TD]) && EdList(m, ED, [ED])
  {
    hide Ld, Pointer, Tail, Next;
    assert [TD][1..] == [] && [ED][1..] == [];
  }

  lemma QueueIs()
    ensures QueuesOk(Cells(), Queued(), OneQueue()) && HeadsOk(Queued(), OneQueue())
    ensures EdList(Queued(), ED, [ED]) && Known([ED], OneQueue())
  {
    hide Ld, List, Queued, Cells, EdList;
    CellsOk();
    QueuedLd(ED + 4);
    QueuedLd(ED + 8);
    QueuedLd(ED + 12);
    QueuedLd(TD + 4);
    QueuedLd(TD + 8);
    QueuedLd(TD + 12);
    OneList(Queued());
    forall c | c in Cells().cells
      ensures c > 0
    {
      assert Cells().Ok(1024);
    }
    assert BufferClear(Cells(), Queued(), TD);
    assert QueueOk(Cells(), Queued(), OneQueue(), ED);
  }

  /** The endpoint is ready, whatever the device says: a SETUP is never refused. */
  lemma Ready(device: nat -> Answer)
    ensures !Settled(Queued(), OneQueue().of, ED, device)
  {
    hide Ld, Queued;
    QueuedLd(ED);
    QueuedLd(ED + 8);
    QueuedLd(TD);
  }

  lemma NothingDone(sh: Layout, m: Ram, qs: Queues)
    ensures Finished(sh, m, qs, 0, [])
  {
  }

  lemma FirstMove(s: State)
    requires s.hcca == HCCA && s.view.doneHead == 0 && !s.view.writeback && s.done == []
    ensures Legal(s, Rewrites(Queued(), false, Cells(), OneQueue()), Guide([], [], []))
  {
    hide QueuesOk, HeadsOk, Finished, Layout.Ok, Ld, EdList;
    QueueIs();
    CellsOk();
    QueuedSize();
    NothingDone(Cells(), Queued(), OneQueue());
    hide Cells, Queued;
  }

  lemma QueuedSize()
    ensures |Queued()| == 1024
  {
    hide St;
  }

  /** A frame over the control list alone. */
  function Control(): Config {
    Config(true, true, false, false, ED, 0)
  }

  lemma SecondMove(s: State, device: (nat, nat) -> Answer)
    requires s.view.ram == Queued() && s.qs == OneQueue()
    ensures Legal(s, Passes(Control(), device), Guide([ED], [], []))
  {
    hide QueuesOk, HeadsOk, EdList, Queued;
    QueueIs();
  }

  lemma NotQuiet(device: (nat, nat) -> Answer)
    ensures !Control().Quiet(Queued(), OneQueue().of, device, [ED], [], [])
  {
    hide Settled, Queued;
    Ready(Asked(device, 0));
    assert [ED][0] == ED;
  }

  /** All that can leave the queues is TD. */
  lemma OnlyTd(of: map<nat, seq<nat>>, r: multiset<nat>)
    requires r == multiset{} + multiset(Gone(OneQueue().of, of)) && r != multiset{}
    ensures r == multiset{TD}
  {
    var g := Gone(OneQueue().of, of);
    assert forall x :: x in g ==> x == TD;
    var y :| y in g;
    assert g == {TD};
  }

  /** The driver queues one descriptor, a frame passes, and it is retired. */
  method FirstRetirement(device: (nat, nat) -> Answer) returns (c: Controller)
    ensures fresh(c) && c.Accounted() && c.turns == [Driver, Frame]
    ensures Retirements(c.turns, c.history) == multiset{TD} == multiset(c.done) + Handed(c.handed)
  {
    hide Controller.Accounted, Legal, Cells, Queued, OneQueue, Config.Quiet, Gone, Handed, Retirements, FrameData, AnsweredBy;
    CellsOk();
    assert |Blank()| == 1024 by {
      BlankSize();
    }
    hide Blank, Layout.Ok;
    c := new Controller(Blank(), HCCA, Cells());
    FirstMove(c.Now());
    ghost var none := c.Play(Rewrites(Queued(), false, Cells(), OneQueue()), Guide([], [], []));
    SecondMove(c.Now(), device);
    NotQuiet(device);
    ghost var ans := c.Play(Passes(Control(), device), Guide([ED], [], []));
    OnlyTd(c.qs.of, c.retired);
    NowOk(c);
    NeverLostNeverDoubled(c.turns, c.history);
    RetiredIs(c);
  }

  lemma RetiredIs(c: Controller)
    requires c.Accounted()
    ensures c.retired == Retirements(c.turns, c.history)
  {
  }
}
