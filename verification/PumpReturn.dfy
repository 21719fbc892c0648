/** How the pump comes to return, and what it leaves behind. */
module PumpReturn {
  import opened Counting
  import opened Pump
  import opened PumpProofs

  /** In iteration i the thread is still running and takes `Shutdown`. */
  predicate ShutdownAt(rounds: seq<Round>, i: nat)
    requires i < |rounds|
  {
    var s := Run(INITIAL, rounds[..i]);
    var queue := s.queue + rounds[i].arrivals;
    s.running && queue != [] && queue[0] == Shutdown
  }

  /** In iteration i the thread is still running, tracks no child, and finds its channel empty
      and without a sender. */
  predicate AloneAt(rounds: seq<Round>, i: nat)
    requires i < |rounds|
  {
    var s := Run(INITIAL, rounds[..i]);
    s.running && s.children == map[] && s.queue + rounds[i].arrivals == [] && !rounds[i].connected
  }

  lemma {:induction false} IterateReturns(s: PumpState, r: Round)
    requires s.running
    ensures !Iterate(s, r).running <==>
      if s.queue == [] then s.children == map[] && !r.connected else s.queue[0] == Shutdown
    ensures !Iterate(s, r).running ==> Iterate(s, r).children == s.children
  {}

  /** In iteration i the thread takes `Shutdown` while it tracks a child. */
  predicate AbandonsAt(rounds: seq<Round>, i: nat)
    requires i < |rounds|
  {
    ShutdownAt(rounds, i) && Run(INITIAL, rounds[..i]).children != map[]
  }

  lemma {:induction false} IterationAt(rounds: seq<Round>, i: nat)
    requires i < |rounds|
    ensures
      var s, t := Run(INITIAL, rounds[..i]), Run(INITIAL, rounds[..i + 1]);
      && (!t.running <==> !s.running || ShutdownAt(rounds, i) || AloneAt(rounds, i))
      && (!t.running ==> t.children == s.children)
  {
    var s := Run(INITIAL, rounds[..i]);
    assert rounds[..i + 1][..i] == rounds[..i];
    if s.running {
      IterateReturns(s.(queue := s.queue + rounds[i].arrivals), rounds[i]);
    }
  }

  function ReturnedBy(rounds: seq<Round>): nat -> bool {
    (i: nat) => i <= |rounds| && !Run(INITIAL, rounds[..i]).running
  }

  function ReturnsAt(rounds: seq<Round>): nat -> bool {
    (i: nat) => i < |rounds| && (ShutdownAt(rounds, i) || AloneAt(rounds, i))
  }

  function Alone(rounds: seq<Round>): nat -> bool {
    (i: nat) => i < |rounds| && AloneAt(rounds, i)
  }

  function AbandonedBy(rounds: seq<Round>): nat -> bool {
    (i: nat) => i <= |rounds| && !Run(INITIAL, rounds[..i]).running && Run(INITIAL, rounds[..i]).children != map[]
  }

  function Abandons(rounds: seq<Round>): nat -> bool {
    (i: nat) => i < |rounds| && AbandonsAt(rounds, i)
  }

  /** Over every run, the thread returns by taking `Shutdown` or by finding itself alone, and in
      no other way. */
  lemma {:induction false} ReturnsExactly(rounds: seq<Round>)
    ensures !Run(INITIAL, rounds).running
       <==> exists i: nat :: i < |rounds| && ReturnsAt(rounds)(i)
  {
    forall i: nat | i < |rounds|
      ensures ReturnedBy(rounds)(i + 1) <==> ReturnedBy(rounds)(i) || ReturnsAt(rounds)(i)
    {
      IterationAt(rounds, i);
    }
    assert rounds[..0] == [] && rounds[..|rounds|] == rounds;
    BroughtAbout(ReturnedBy(rounds), ReturnsAt(rounds), |rounds|);
  }

  /** Over every run, the thread has returned and left a tracked child behind exactly if it took
      `Shutdown` while it tracked one. */
  lemma {:induction false} AbandonsExactly(rounds: seq<Round>)
    ensures (!Run(INITIAL, rounds).running && Run(INITIAL, rounds).children != map[])
       <==> exists i: nat :: i < |rounds| && Abandons(rounds)(i)
  {
    forall i: nat | i < |rounds|
      ensures AbandonedBy(rounds)(i + 1) <==> AbandonedBy(rounds)(i) || Abandons(rounds)(i)
    {
      IterationAt(rounds, i);
    }
    assert rounds[..0] == [] && rounds[..|rounds|] == rounds;
    BroughtAbout(AbandonedBy(rounds), Abandons(rounds), |rounds|);
  }

  lemma {:induction false} QueueHandedOver(rounds: seq<Round>)
    ensures forall m :: m in Run(INITIAL, rounds).queue ==> m in HandedOver(rounds)
  {
    if rounds != [] {
      var front, r := rounds[..|rounds| - 1], rounds[|rounds| - 1];
      QueueHandedOver(front);
      var s := Run(INITIAL, front);
      if s.running {
        IterateQueue(s.(queue := s.queue + r.arrivals), r);
      }
    }
  }

  lemma {:induction false} IterateQueue(s: PumpState, r: Round)
    requires s.running
    ensures forall m :: m in Iterate(s, r).queue ==> m in s.queue
  {}

  lemma {:induction false} HandedOverEarlier(rounds: seq<Round>, i: nat)
    requires i <= |rounds|
    ensures forall m :: m in HandedOver(rounds[..i]) ==> m in HandedOver(rounds)
    decreases |rounds|
  {
    if i < |rounds| {
      var front := rounds[..|rounds| - 1];
      assert front[..i] == rounds[..i];
      HandedOverEarlier(front, i);
    } else {
      assert rounds[..i] == rounds;
    }
  }

  lemma {:induction false} ShutdownWasSent(rounds: seq<Round>, i: nat)
    requires i < |rounds| && ShutdownAt(rounds, i)
    ensures Shutdown in HandedOver(rounds)
  {
    var before, arrivals := HandedOver(rounds[..i]), rounds[i].arrivals;
    assert Shutdown in before + arrivals by {
      QueueHandedOver(rounds[..i]);
      var queue := Run(INITIAL, rounds[..i]).queue;
      assert (queue + arrivals)[0] in queue + arrivals;
    }
    assert HandedOver(rounds[..i + 1]) == before + arrivals by {
      assert rounds[..i + 1][..i] == rounds[..i];
    }
    HandedOverEarlier(rounds, i + 1);
  }

  lemma {:induction false} ReturnsAlone(rounds: seq<Round>)
    requires Shutdown !in HandedOver(rounds)
    ensures !Run(INITIAL, rounds).running <==> exists i: nat :: i < |rounds| && Alone(rounds)(i)
  {
    ReturnsExactly(rounds);
    forall i: nat | i < |rounds| ensures ReturnsAt(rounds)(i) <==> Alone(rounds)(i) {
      if ShutdownAt(rounds, i) {
        ShutdownWasSent(rounds, i);
      }
    }
    SameWitnesses(ReturnsAt(rounds), Alone(rounds), |rounds|);
  }

  lemma {:induction false} AbandonsByShutdown(rounds: seq<Round>)
    requires !Run(INITIAL, rounds).running && Run(INITIAL, rounds).children != map[]
    ensures Shutdown in HandedOver(rounds)
  {
    AbandonsExactly(rounds);
    var i: nat :| i < |rounds| && Abandons(rounds)(i);
    ShutdownWasSent(rounds, i);
  }

  /** The thread ends as documented, when its channel is closed and no child is tracked, in every
      run in which `Shutdown` was not sent; so only `Shutdown` leaves a tracked child behind. */
  lemma {:induction false} OnlyShutdownAbandons(rounds: seq<Round>)
    requires Shutdown !in HandedOver(rounds)
    ensures
      var s := Run(INITIAL, rounds);
      && (!s.running <==> exists i: nat :: i < |rounds| && Alone(rounds)(i))
      && (!s.running ==> s.children == map[])
  {
    ReturnsAlone(rounds);
    if !Run(INITIAL, rounds).running && Run(INITIAL, rounds).children != map[] {
      AbandonsByShutdown(rounds);
    }
  }
}
