/** Which debug events the pump obtains, and the lives of its children, iteration by iteration
    of what happens outside. */
module PumpEvents {
  import opened Termination
  import opened Counting
  import opened Pump
  import opened PumpProofs

  // ------------------------------------------------------------ events obtained

  /** The message that the thread takes in iteration i. */
  function MessageAt(rounds: seq<Round>, i: nat): Option<Message>
    requires i < |rounds|
  {
    var s := Run(INITIAL, rounds[..i]);
    var queue := s.queue + rounds[i].arrivals;
    if s.running && queue != [] then Some(queue[0]) else None
  }

  /** A child that an iteration creates: the process id its creation yields, and the affinity
      mask and the exit sender of its request. */
  datatype Birth = Birth(pid: Pid, mask: nat, exitTx: Tx)

  function BirthAt(rounds: seq<Round>, i: nat): Option<Birth>
    requires i < |rounds|
  {
    match MessageAt(rounds, i)
    case Some(Spawn(req, _)) =>
      if rounds[i].creation.Created? then Some(Birth(rounds[i].creation.pid, req.affinityMask, req.exitTx)) else None
    case _ => None
  }

  /** The event that iteration i obtains: what its wait yields, if the thread is running, does
      not take `Shutdown`, and tracks a child, be it the one just created. */
  function EventAt(rounds: seq<Round>, i: nat): Option<DebugEvent>
    requires i < |rounds|
  {
    var s := Run(INITIAL, rounds[..i]);
    if s.running && MessageAt(rounds, i) != Some(Shutdown) && (s.children != map[] || BirthAt(rounds, i).Some?)
    then rounds[i].event else None
  }

  function EventsBefore(rounds: seq<Round>, n: nat): seq<DebugEvent>
    requires n <= |rounds|
  {
    if n == 0 then []
    else
      var e := EventAt(rounds, n - 1);
      EventsBefore(rounds, n - 1) + if e.Some? then [e.value] else []
  }

  /** The events that a trace says have been obtained, in order. */
  function Obtained(trace: seq<Act>): seq<DebugEvent> {
    if trace == [] then []
    else
      var front, a := trace[..|trace| - 1], trace[|trace| - 1];
      if a.Got? then Obtained(front) + [a.event] else Obtained(front)
  }

  lemma {:induction false} ObtainedSnoc(trace: seq<Act>, a: Act)
    ensures Obtained(trace + [a]) == if a.Got? then Obtained(trace) + [a.event] else Obtained(trace)
  {}

  lemma {:induction false} ObtainedPush(trace: seq<Act>, first: Act, act: Option<Act>, last: Act)
    requires !last.Got? && (act.Some? ==> !act.value.Got?)
    ensures Obtained(Push(trace + [first], act) + [last])
         == if first.Got? then Obtained(trace) + [first.event] else Obtained(trace)
  {
    ObtainedSnoc(trace, first);
    if act.Some? {
      ObtainedSnoc(trace + [first], act.value);
    }
    ObtainedSnoc(Push(trace + [first], act), last);
  }

  lemma {:induction false} ReceiveObtains(s: PumpState, m: Message, creation: Creation)
    ensures Obtained(Receive(s, m, creation).trace) == Obtained(s.trace)
  {
    if m.Spawn? {
      var replied := Replied(m.respTx, creation);
      match creation
      case CreateFailed(_) =>
        ObtainedPush(s.trace, replied, None, Dropped(m.req.exitTx));
      case Created(pid) =>
        var displaced := if pid in s.children then Some(Dropped(s.children[pid].exitTx)) else None;
        ObtainedPush(s.trace, Inserted(pid, m.req.exitTx, m.req.affinityMask), displaced, replied);
    }
  }

  lemma {:induction false} DispatchObtains(s: PumpState, e: DebugEvent)
    ensures Obtained(Dispatch(s, e).trace) == Obtained(s.trace) + [e]
  {
    ObtainedPush(s.trace, Got(e), ActFor(s.children, e), Continued(e.pid, e.tid, StatusFor(s.children, e)));
  }

  lemma {:induction false} RefuseObtains(trace: seq<Act>, arrivals: seq<Message>)
    ensures Obtained(Refuse(trace, arrivals)) == Obtained(trace)
    decreases |arrivals|
  {
    if arrivals != [] {
      match arrivals[0]
      case Shutdown => RefuseObtains(trace, arrivals[1..]);
      case Spawn(req, respTx) =>
        ObtainedPush(trace, Dropped(req.exitTx), None, ReplyDropped(respTx));
        RefuseObtains(trace + [Dropped(req.exitTx)] + [ReplyDropped(respTx)], arrivals[1..]);
    }
  }

  /** What an iteration of a running thread obtains. */
  function EventOf(s: PumpState, r: Round): Option<DebugEvent> {
    var spawns := s.queue != [] && s.queue[0].Spawn? && r.creation.Created?;
    if (s.queue == [] || s.queue[0] != Shutdown) && (s.children != map[] || spawns) then r.event else None
  }

  lemma {:induction false} IterateObtains(s: PumpState, r: Round)
    requires s.running
    ensures var e := EventOf(s, r);
      Obtained(Iterate(s, r).trace) == Obtained(s.trace) + if e.Some? then [e.value] else []
  {
    if s.queue != [] {
      var t := s.(queue := s.queue[1..]);
      ReceiveObtains(t, s.queue[0], r.creation);
      if s.queue[0].Spawn? && r.creation.Created? {
        assert r.creation.pid in Receive(t, s.queue[0], r.creation).children;
      }
    }
    if r.event.Some? {
      DispatchObtains(Served(s, r.creation), r.event.value);
    }
  }

  lemma {:induction false} IterationObtains(rounds: seq<Round>, i: nat)
    requires i < |rounds|
    ensures var e := EventAt(rounds, i);
      Obtained(Run(INITIAL, rounds[..i + 1]).trace)
        == Obtained(Run(INITIAL, rounds[..i]).trace) + if e.Some? then [e.value] else []
  {
    var s := Run(INITIAL, rounds[..i]);
    assert rounds[..i + 1][..i] == rounds[..i];
    if s.running {
      IterateObtains(s.(queue := s.queue + rounds[i].arrivals), rounds[i]);
    } else {
      RefuseObtains(s.trace, rounds[i].arrivals);
    }
  }

  lemma {:induction false} ObtainedBefore(rounds: seq<Round>, n: nat)
    requires n <= |rounds|
    ensures Obtained(Run(INITIAL, rounds[..n]).trace) == EventsBefore(rounds, n)
  {
    if n > 0 {
      ObtainedBefore(rounds, n - 1);
      IterationObtains(rounds, n - 1);
    }
  }

  /** Over every run, the debug events obtained are, in order and once each, what the waits
      yield in the iterations in which the thread runs, does not take `Shutdown`, and tracks a
      child: no event is skipped, whether or not messages come. */
  lemma {:induction false} ObtainedExactly(rounds: seq<Round>)
    ensures Obtained(Run(INITIAL, rounds).trace) == EventsBefore(rounds, |rounds|)
  {
    ObtainedBefore(rounds, |rounds|);
    assert rounds[..|rounds|] == rounds;
  }

  // ------------------------------------------------------------- lives by rounds

  /** What the lives of children depend on in one iteration. */
  datatype Tick = Tick(birth: Option<Birth>, event: Option<DebugEvent>)

  function TickAt(rounds: seq<Round>, i: nat): Tick
    requires i < |rounds|
  {
    Tick(BirthAt(rounds, i), EventAt(rounds, i))
  }

  function TicksOf(rounds: seq<Round>): seq<Tick> {
    seq(|rounds|, i requires 0 <= i < |rounds| => TickAt(rounds, i))
  }

  function LifeAfter(life: Life, tx: Tx, t: Tick): Life {
    var born := match t.birth
      case None => life
      case Some(b) => LifeStep(life, tx, Inserted(b.pid, b.exitTx, b.mask));
    if t.event.Some? then LifeStep(born, tx, Got(t.event.value)) else born
  }

  function LifeFrom(ticks: seq<Tick>, tx: Tx): Life {
    if ticks == [] then Unborn else LifeAfter(LifeFrom(ticks[..|ticks| - 1], tx), tx, ticks[|ticks| - 1])
  }

  lemma {:induction false} LifeFromMore(ticks: seq<Tick>, n: nat, tx: Tx)
    requires n < |ticks|
    ensures LifeFrom(ticks[..n + 1], tx) == LifeAfter(LifeFrom(ticks[..n], tx), tx, ticks[n])
  {
    assert ticks[..n + 1][..n] == ticks[..n];
  }

  /** The same for a running thread whose round has arrived. */
  function TickOf(s: PumpState, r: Round): Tick {
    Tick(if s.queue != [] && s.queue[0].Spawn? && r.creation.Created?
         then Some(Birth(r.creation.pid, s.queue[0].req.affinityMask, s.queue[0].req.exitTx)) else None,
         EventOf(s, r))
  }

  lemma {:induction false} ServedLives(s: PumpState, r: Round, tx: Tx)
    requires s.queue != []
    ensures LifeOf(Served(s, r.creation).trace, tx) == LifeAfter(LifeOf(s.trace, tx), tx, TickOf(s, r).(event := None))
  {
    var m := s.queue[0];
    if m.Spawn? {
      var replied := Replied(m.respTx, r.creation);
      match r.creation
      case CreateFailed(_) =>
        Snoc(s.trace, replied, tx);
        Snoc(s.trace + [replied], Dropped(m.req.exitTx), tx);
      case Created(pid) =>
        CreatedLives(s.(queue := s.queue[1..]), m.req, m.respTx, pid, tx);
    }
  }

  lemma {:induction false} EventOfServed(s: PumpState, r: Round)
    requires s.running
    ensures var t := Served(s, r.creation);
      EventOf(s, r) == if t.running && t.children != map[] then r.event else None
  {
    if s.queue != [] && s.queue[0].Spawn? && r.creation.Created? {
      assert r.creation.pid in Served(s, r.creation).children;
    }
  }

  lemma {:induction false} IterateIs(s: PumpState, r: Round)
    requires s.running
    ensures var e := EventOf(s, r);
      Iterate(s, r).trace == if e.Some? then Dispatch(Served(s, r.creation), e.value).trace
                             else Served(s, r.creation).trace
  {
    EventOfServed(s, r);
  }

  lemma {:induction false} IterateLives(s: PumpState, r: Round, tx: Tx)
    requires s.running
    ensures LifeOf(Iterate(s, r).trace, tx) == LifeAfter(LifeOf(s.trace, tx), tx, TickOf(s, r))
  {
    if s.queue != [] {
      ServedLives(s, r, tx);
    }
    IterateIs(s, r);
    if EventOf(s, r).Some? {
      DispatchLives(Served(s, r.creation), EventOf(s, r).value, tx);
    }
  }

  lemma {:induction false} IterationLives(rounds: seq<Round>, i: nat, tx: Tx)
    requires i < |rounds|
    ensures LifeOf(Run(INITIAL, rounds[..i + 1]).trace, tx)
         == LifeAfter(LifeOf(Run(INITIAL, rounds[..i]).trace, tx), tx, TickAt(rounds, i))
  {
    var s := Run(INITIAL, rounds[..i]);
    assert rounds[..i + 1][..i] == rounds[..i];
    if s.running {
      IterateLives(s.(queue := s.queue + rounds[i].arrivals), rounds[i], tx);
    } else {
      RefuseTrace(s.trace, rounds[i].arrivals, tx);
    }
  }

  /** A child's life follows from what the iterations create and obtain. */
  lemma {:induction false} LifeInRounds(rounds: seq<Round>, tx: Tx, n: nat)
    requires n <= |rounds|
    ensures LifeOf(Run(INITIAL, rounds[..n]).trace, tx) == LifeFrom(TicksOf(rounds)[..n], tx)
  {
    if n > 0 {
      LifeInRounds(rounds, tx, n - 1);
      IterationLives(rounds, n - 1, tx);
      assert TicksOf(rounds)[n - 1] == TickAt(rounds, n - 1);
      LifeFromMore(TicksOf(rounds), n - 1, tx);
    }
  }

  // --------------------------------------------------------- from birth to end

  /** Iteration i creates the child whose exit sender is `tx`. */
  predicate Starts(ticks: seq<Tick>, tx: Tx, i: nat) {
    i < |ticks| && ticks[i].birth.Some? && ticks[i].birth.value.exitTx == tx
  }

  /** The event of an iteration ends a process. */
  predicate Kills(t: Tick, pid: Pid) {
    t.event.Some? && t.event.value.pid == pid && (t.event.value.kind.ExitProcess? || t.event.value.kind.Rip?)
  }

  predicate Reuses(t: Tick, pid: Pid) {
    t.birth.Some? && t.birth.value.pid == pid
  }

  /** From iteration i on and before n nothing ends the process and its id is not given again. */
  predicate LivesFrom(ticks: seq<Tick>, pid: Pid, i: nat, n: nat)
    requires n <= |ticks|
  {
    (forall k :: i <= k < n ==> !Kills(ticks[k], pid)) && (forall k :: i < k < n ==> !Reuses(ticks[k], pid))
  }

  /** Iteration i creates the child of `tx` and the event of iteration j ends it. */
  predicate StartsAndEnds(ticks: seq<Tick>, tx: Tx, i: nat, j: nat) {
    && Starts(ticks, tx, i) && i <= j < |ticks|
    && var pid := ticks[i].birth.value.pid;
    LivesFrom(ticks, pid, i, j) && Kills(ticks[j], pid) && (i < j ==> !Reuses(ticks[j], pid))
  }

  /** The events obtained under a process id from iteration i on and before n. */
  function Heard(ticks: seq<Tick>, pid: Pid, i: nat, n: nat): seq<EventKind>
    requires n <= |ticks|
  {
    if n <= i then []
    else
      var e := ticks[n - 1].event;
      Heard(ticks, pid, i, n - 1) + if e.Some? && e.value.pid == pid then [e.value.kind] else []
  }

  /** No sender is given to two children. */
  predicate OneBirth(ticks: seq<Tick>, tx: Tx) {
    forall i, k :: 0 <= i < |ticks| && 0 <= k < |ticks| && Starts(ticks, tx, i) && Starts(ticks, tx, k) ==> i == k
  }

  lemma {:induction false} AliveAfter(ticks: seq<Tick>, tx: Tx, i: nat, n: nat)
    requires OneBirth(ticks, tx) && Starts(ticks, tx, i) && i < n <= |ticks|
    requires LivesFrom(ticks, ticks[i].birth.value.pid, i, n)
    ensures var b := ticks[i].birth.value;
      LifeFrom(ticks[..n], tx) == Alive(b.pid, b.mask, Heard(ticks, b.pid, i, n))
  {
    var pid := ticks[i].birth.value.pid;
    assert ticks[..n][..n - 1] == ticks[..n - 1];
    assert !Kills(ticks[n - 1], pid);
    if n - 1 > i {
      AliveAfter(ticks, tx, i, n - 1);
      assert !Reuses(ticks[n - 1], pid) && !Starts(ticks, tx, n - 1);
    } else {
      assert Heard(ticks, pid, i, i) == [];
    }
  }

  lemma {:induction false} EndedAfter(ticks: seq<Tick>, tx: Tx, i: nat, j: nat, n: nat)
    requires OneBirth(ticks, tx) && StartsAndEnds(ticks, tx, i, j) && j < n <= |ticks|
    ensures var b := ticks[i].birth.value;
      LifeFrom(ticks[..n], tx) == Ended(b.pid, b.mask, Heard(ticks, b.pid, i, j + 1))
    decreases n
  {
    var pid := ticks[i].birth.value.pid;
    assert ticks[..n][..n - 1] == ticks[..n - 1];
    if n - 1 > j {
      EndedAfter(ticks, tx, i, j, n - 1);
      assert !Starts(ticks, tx, n - 1);
    } else if j > i {
      AliveAfter(ticks, tx, i, j);
      assert !Starts(ticks, tx, j);
    } else {
      assert Heard(ticks, pid, i, i) == [];
    }
  }

  ghost predicate StartsAndLives(ticks: seq<Tick>, tx: Tx, i: nat, pid: Pid, n: nat) {
    Starts(ticks, tx, i) && i < n <= |ticks| && pid == ticks[i].birth.value.pid && LivesFrom(ticks, pid, i, n)
  }

  /** Where a life that is going on, or has ended, comes from. */
  ghost predicate Explained(ticks: seq<Tick>, tx: Tx, life: Life, n: nat) {
    && (life.Alive? ==> exists i: nat :: StartsAndLives(ticks, tx, i, life.pid, n))
    && (life.Ended? ==> exists i: nat, j: nat :: StartsAndEnds(ticks, tx, i, j))
  }

  lemma {:induction false} LifeExplained(ticks: seq<Tick>, tx: Tx, n: nat)
    requires n <= |ticks|
    ensures Explained(ticks, tx, LifeFrom(ticks[..n], tx), n)
  {
    if n > 0 {
      var k := n - 1;
      LifeExplained(ticks, tx, k);
      assert ticks[..n][..k] == ticks[..k];
      var before, after := LifeFrom(ticks[..k], tx), LifeFrom(ticks[..n], tx);
      if Starts(ticks, tx, k) {
        assert after.Alive? ==> StartsAndLives(ticks, tx, k, after.pid, n);
        assert after.Ended? ==> StartsAndEnds(ticks, tx, k, k);
      } else if before.Alive? {
        var i: nat :| StartsAndLives(ticks, tx, i, before.pid, k);
        assert after.Alive? ==> StartsAndLives(ticks, tx, i, after.pid, n);
        assert after.Ended? ==> StartsAndEnds(ticks, tx, i, k);
      }
    }
  }

  lemma {:induction false} NotUnborn(ticks: seq<Tick>, tx: Tx, i: nat, n: nat)
    requires Starts(ticks, tx, i) && i < n <= |ticks|
    ensures !LifeFrom(ticks[..n], tx).Unborn?
  {
    assert ticks[..n][..n - 1] == ticks[..n - 1];
    if n - 1 > i {
      NotUnborn(ticks, tx, i, n - 1);
    }
  }

  lemma {:induction false} KeepsMask(ticks: seq<Tick>, tx: Tx, i: nat, n: nat)
    requires OneBirth(ticks, tx) && Starts(ticks, tx, i) && i < n <= |ticks|
    ensures var life, b := LifeFrom(ticks[..n], tx), ticks[i].birth.value;
      !life.Unborn? && life.pid == b.pid && life.mask == b.mask
  {
    assert ticks[..n][..n - 1] == ticks[..n - 1];
    if n - 1 > i {
      KeepsMask(ticks, tx, i, n - 1);
      assert !Starts(ticks, tx, n - 1);
    }
  }

  lemma {:induction false} HandedOverMore(rounds: seq<Round>, n: nat, tx: Tx)
    requires n <= |rounds|
    ensures Count(HandedOver(rounds[..n]), Carries(tx)) <= Count(HandedOver(rounds), Carries(tx))
    decreases |rounds|
  {
    if n < |rounds| {
      var front := rounds[..|rounds| - 1];
      assert front[..n] == rounds[..n];
      HandedOverMore(front, n, tx);
      CountConcat(HandedOver(front), rounds[|rounds| - 1].arrivals, Carries(tx));
    } else {
      assert rounds[..n] == rounds;
    }
  }

  /** A child whose sender is handed over once has no life before it is created. */
  lemma {:induction false} UnbornBefore(rounds: seq<Round>, tx: Tx, i: nat)
    requires Starts(TicksOf(rounds), tx, i) && Count(HandedOver(rounds), Carries(tx)) <= 1
    ensures LifeOf(Run(INITIAL, rounds[..i]).trace, tx).Unborn?
  {
    var s := Run(INITIAL, rounds[..i]);
    var queue := s.queue + rounds[i].arrivals;
    assert TicksOf(rounds)[i] == TickAt(rounds, i);
    assert rounds[..i + 1][..i] == rounds[..i];
    SendersConserved(rounds[..i], tx);
    HandedOverMore(rounds, i + 1, tx);
    CountConcat(HandedOver(rounds[..i]), rounds[i].arrivals, Carries(tx));
    CountConcat(s.queue, rounds[i].arrivals, Carries(tx));
    CountMember(queue, Carries(tx), queue[0]);
    NotInserted(s.trace, tx);
  }

  lemma {:induction false} BornOnce(rounds: seq<Round>, tx: Tx)
    requires Count(HandedOver(rounds), Carries(tx)) <= 1
    ensures OneBirth(TicksOf(rounds), tx)
  {
    var ticks := TicksOf(rounds);
    forall i, k | 0 <= i < k < |ticks| && Starts(ticks, tx, i) ensures !Starts(ticks, tx, k) {
      NotUnborn(ticks, tx, i, k);
      LifeInRounds(rounds, tx, k);
      if Starts(ticks, tx, k) {
        UnbornBefore(rounds, tx, k);
      }
    }
  }

  /** Over every run: a child whose sender is handed over once has ended exactly if some
      iteration created it and the event that a later one, or the same, obtained ended its
      process before the id was given again; and it has then seen exactly the events obtained
      under its process id from the one iteration to the other. */
  lemma {:induction false} EndedExactly(rounds: seq<Round>, tx: Tx)
    requires Count(HandedOver(rounds), Carries(tx)) <= 1
    ensures
      var ticks, life := TicksOf(rounds), LifeOf(Run(INITIAL, rounds).trace, tx);
      && (life.Ended? <==> exists i: nat, j: nat :: StartsAndEnds(ticks, tx, i, j))
      && (forall i: nat, j: nat :: StartsAndEnds(ticks, tx, i, j) ==>
            var b := ticks[i].birth.value;
            life == Ended(b.pid, b.mask, Heard(ticks, b.pid, i, j + 1)))
  {
    var ticks := TicksOf(rounds);
    LifeInRounds(rounds, tx, |rounds|);
    assert rounds[..|rounds|] == rounds && ticks[..|ticks|] == ticks;
    LifeExplained(ticks, tx, |ticks|);
    BornOnce(rounds, tx);
    forall i: nat, j: nat | StartsAndEnds(ticks, tx, i, j)
      ensures var b := ticks[i].birth.value;
        LifeFrom(ticks, tx) == Ended(b.pid, b.mask, Heard(ticks, b.pid, i, j + 1))
    {
      EndedAfter(ticks, tx, i, j, |ticks|);
    }
  }

  /** Over every run, the affinity set for a child is the mask of its own request, once, and
      only if that is not zero and the child has had a breakpoint. */
  lemma {:induction false} MaskOfRequest(rounds: seq<Round>, tx: Tx, i: nat)
    requires Starts(TicksOf(rounds), tx, i) && Count(HandedOver(rounds), Carries(tx)) <= 1
    ensures
      var s, mask := Run(INITIAL, rounds), TicksOf(rounds)[i].birth.value.mask;
      var life := LifeOf(s.trace, tx);
      && !life.Unborn?
      && MasksSet(s.trace, tx) == if mask != 0 && HitBreakpoint(life.seen) then [mask] else []
  {
    var ticks := TicksOf(rounds);
    LifeInRounds(rounds, tx, |rounds|);
    assert rounds[..|rounds|] == rounds && ticks[..|ticks|] == ticks;
    BornOnce(rounds, tx);
    KeepsMask(ticks, tx, i, |ticks|);
    TableRefinesChildren(rounds, tx);
  }
}
