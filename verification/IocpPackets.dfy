/** What the listener makes of packets and registrations, in terms of its rounds alone: which
    waits end it, how far the final drain goes, which messages are exits, and one slot for
    each process. */
module IocpPackets {
  import opened Termination
  import opened Counting
  import opened Iocp
  import opened IocpProofs

  // ------------------------------------------------------------------ the packets

  /** A wait that failed without dequeuing a packet. */
  predicate TimedOut(p: Poll) {
    !p.ok && p.overlapped == 0
  }

  /** The first wait of a drain that times out or brings the key 0, or the end. */
  function DrainLength(tail: seq<Poll>): (n: nat)
    ensures n <= |tail|
    ensures forall i :: 0 <= i < n ==> !TimedOut(tail[i]) && tail[i].key != 0
    ensures n < |tail| ==> TimedOut(tail[n]) || tail[n].key == 0
  {
    if tail == [] || TimedOut(tail[0]) || tail[0].key == 0 then 0 else 1 + DrainLength(tail[1..])
  }

  /** The exits among packets, in order: messages 7 and 8 of the process whose id is the low 32
      bits of the packet's pointer, abnormal for 8. */
  function ExitsAmong(polls: seq<Poll>): seq<Meeting> {
    if polls == [] then []
    else ExitsAmong(polls[..|polls| - 1]) + ExitOfPacket(polls[|polls| - 1])
  }

  function ExitOfPacket(p: Poll): seq<Meeting> {
    var pid, code := p.overlapped % 0x1_0000_0000, p.exitCode.UnwrapOr(0);
    if p.bytes == 7 then [Exit(pid, Unknown(ExitStatus(code)))]
    else if p.bytes == 8 then [Exit(pid, Crash(code, 0))]
    else []
  }

  lemma {:induction false} ExitsAmongFirst(polls: seq<Poll>)
    requires polls != []
    ensures ExitsAmong(polls) == ExitOfPacket(polls[0]) + ExitsAmong(polls[1..])
  {
    if |polls| > 1 {
      var front := polls[..|polls| - 1];
      ExitsAmongFirst(front);
      assert polls[1..][..|polls| - 2] == front[1..];
    } else {
      assert polls[..0] == [] && polls[1..] == [];
    }
  }

  lemma {:induction false} DrainedByIndex(tail: seq<Poll>)
    ensures DrainedExits(tail) == ExitsAmong(tail[..DrainLength(tail)])
  {
    var n := DrainLength(tail);
    if n > 0 {
      DrainedByIndex(tail[1..]);
      ExitsAmongFirst(tail[..n]);
      assert tail[..n][1..] == tail[1..][..n - 1];
    }
  }

  // ------------------------------------------------------------------- the rounds

  /** The wait of a round ends the listener: its key is 0, and, where the timeout is tested first,
      it has not timed out. */
  predicate Ends(order: Order, p: Poll) {
    p.key == 0 && (order.KeyFirst? || !TimedOut(p))
  }

  predicate Reached(order: Order, rounds: seq<Round>, i: nat)
    requires i <= |rounds|
  {
    forall j :: 0 <= j < i ==> !Ends(order, rounds[j].poll)
  }

  /** The packets whose messages are dispatched in a round. */
  function PacketsIn(order: Order, r: Round): seq<Poll> {
    if Ends(order, r.poll) then r.tail[..DrainLength(r.tail)]
    else if TimedOut(r.poll) then [] else [r.poll]
  }

  /** The registrations that a round finds in the channel. */
  function RegistrationsIn(rounds: seq<Round>, i: nat): seq<Registration>
    requires i < |rounds|
  {
    (if i == 0 then [] else rounds[i - 1].late) + rounds[i].arrivals
  }

  /** What the two maps hear of in a round: its registrations and then its exits. */
  function MeetingsIn(order: Order, rounds: seq<Round>, i: nat): seq<Meeting>
    requires i < |rounds|
  {
    if Reached(order, rounds, i) then Arrivals(RegistrationsIn(rounds, i)) + ExitsAmong(PacketsIn(order, rounds[i]))
    else []
  }

  function MeetingsBefore(order: Order, rounds: seq<Round>, n: nat): seq<Meeting>
    requires n <= |rounds|
  {
    if n == 0 then [] else MeetingsBefore(order, rounds, n - 1) + MeetingsIn(order, rounds, n - 1)
  }

  function Meetings(order: Order, rounds: seq<Round>): seq<Meeting> {
    MeetingsBefore(order, rounds, |rounds|)
  }

  lemma {:induction false} RunsWhileReached(order: Order, rounds: seq<Round>, n: nat)
    requires n <= |rounds|
    ensures Run(order, INITIAL, rounds[..n]).running <==> Reached(order, rounds, n)
  {
    RunsUntil(order, rounds[..n]);
    assert forall j :: 0 <= j < n ==> rounds[..n][j] == rounds[j];
    assert forall j :: 0 <= j < n ==> (Returns(order, rounds[j].poll) <==> Ends(order, rounds[j].poll));
  }

  lemma {:induction false} QueueIsLate(order: Order, rounds: seq<Round>, n: nat)
    requires n <= |rounds| && Reached(order, rounds, n)
    ensures Run(order, INITIAL, rounds[..n]).queue == if n == 0 then [] else rounds[n - 1].late
  {
    if n > 0 {
      assert rounds[..n][..n - 1] == rounds[..n - 1];
      RunsWhileReached(order, rounds, n - 1);
    }
  }

  lemma {:induction false} RoundMeets(order: Order, s: ListenerState, r: Round)
    ensures MeetingsOf(order, s, r) == Arrivals(s.queue + r.arrivals) + ExitsAmong(PacketsIn(order, r))
  {
    DrainedByIndex(r.tail);
    assert [r.poll][..0] == [] && ExitsAmong([r.poll]) == [] + ExitOfPacket(r.poll);
    assert Exits(r.poll) == ExitOfPacket(r.poll);
  }

  lemma {:induction false} AllMeetingsSnoc(order: Order, front: seq<Round>, r: Round)
    ensures AllMeetings(order, front + [r]) == AllMeetings(order, front) +
      if Run(order, INITIAL, front).running then MeetingsOf(order, Run(order, INITIAL, front), r) else []
  {
    assert (front + [r])[..|front|] == front;
  }

  lemma {:induction false} MetOneMore(order: Order, rounds: seq<Round>, n: nat)
    requires n < |rounds|
    ensures AllMeetings(order, rounds[..n + 1]) == AllMeetings(order, rounds[..n]) + MeetingsIn(order, rounds, n)
  {
    assert rounds[..n + 1] == rounds[..n] + [rounds[n]];
    AllMeetingsSnoc(order, rounds[..n], rounds[n]);
    RunsWhileReached(order, rounds, n);
    if Reached(order, rounds, n) {
      QueueIsLate(order, rounds, n);
      RoundMeets(order, Run(order, INITIAL, rounds[..n]), rounds[n]);
    }
  }

  /** Over every run: what the two maps hear of, in order and once each, is, for every round up
      to the first whose wait ends the listener, the registrations in the channel and then the
      exits among the packets of that round; after the wait that ends it these are the packets
      before the first timeout or key 0. */
  lemma {:induction false} MeetingsExactly(order: Order, rounds: seq<Round>)
    ensures AllMeetings(order, rounds) == Meetings(order, rounds)
  {
    var met := (i: nat) => if i <= |rounds| then AllMeetings(order, rounds[..i]) else [];
    var before := (i: nat) => if i <= |rounds| then MeetingsBefore(order, rounds, i) else [];
    var part := (i: nat) => if i < |rounds| then MeetingsIn(order, rounds, i) else [];
    forall i: nat | i < |rounds|
      ensures met(i + 1) == met(i) + part(i) && before(i + 1) == before(i) + part(i)
    {
      MetOneMore(order, rounds, i);
    }
    SameGrowth(met, before, part, |rounds|);
    assert rounds[..|rounds|] == rounds;
  }

  /** Round i is reached and dispatches the packet, which tells of an exit. */
  predicate TakesExit(order: Order, rounds: seq<Round>, i: nat, p: Poll) {
    i < |rounds| && Reached(order, rounds, i) && p in PacketsIn(order, rounds[i]) && (p.bytes == 7 || p.bytes == 8)
  }

  /** The process that an exit packet is about, and the reason that its message calls for. */
  predicate Tells(p: Poll, pid: Pid, reason: TerminationReason) {
    && p.overlapped % 0x1_0000_0000 == pid
    && var code := p.exitCode.UnwrapOr(0);
    reason == if p.bytes == 8 then Crash(code, 0) else Unknown(ExitStatus(code))
  }

  /** Round i is reached and finds the registration in the channel. */
  predicate TakesRegistration(order: Order, rounds: seq<Round>, i: nat, r: Registration) {
    i < |rounds| && Reached(order, rounds, i) && r in RegistrationsIn(rounds, i)
  }

  lemma {:induction false} ExitAmong(polls: seq<Poll>, m: Meeting)
    ensures m in ExitsAmong(polls) <==> exists p :: p in polls && ExitOfPacket(p) == [m]
  {
    if polls != [] {
      var front, last := polls[..|polls| - 1], polls[|polls| - 1];
      assert polls == front + [last];
      ExitAmong(front, m);
      assert m in ExitOfPacket(last) <==> ExitOfPacket(last) == [m];
    }
  }

  lemma {:induction false} ArrivalAmong(queue: seq<Registration>, m: Meeting)
    ensures m in Arrivals(queue) <==> m.Arrive? && Registration(m.pid, m.exitTx) in queue
  {
    if m.Arrive? && Registration(m.pid, m.exitTx) in queue {
      var i :| 0 <= i < |queue| && queue[i] == Registration(m.pid, m.exitTx);
      assert Arrivals(queue)[i] == m;
    }
    if m in Arrivals(queue) {
      var i :| 0 <= i < |queue| && Arrivals(queue)[i] == m;
      assert queue[i] == Registration(m.pid, m.exitTx);
    }
  }

  function MeetsIn(order: Order, rounds: seq<Round>, m: Meeting): nat -> bool {
    (i: nat) => i < |rounds| && m in MeetingsIn(order, rounds, i)
  }

  function MetBy(order: Order, rounds: seq<Round>, m: Meeting): nat -> bool {
    (i: nat) => i <= |rounds| && m in MeetingsBefore(order, rounds, i)
  }

  lemma {:induction false} MetInRound(order: Order, rounds: seq<Round>, m: Meeting, i: nat)
    requires i < |rounds|
    ensures MetBy(order, rounds, m)(i + 1) <==> MetBy(order, rounds, m)(i) || MeetsIn(order, rounds, m)(i)
  {
    assert MeetingsBefore(order, rounds, i + 1) == MeetingsBefore(order, rounds, i) + MeetingsIn(order, rounds, i);
  }

  lemma {:induction false} MeetingInRound(order: Order, rounds: seq<Round>, i: nat, m: Meeting)
    requires i < |rounds|
    ensures m.Arrive? ==> (m in MeetingsIn(order, rounds, i) <==>
      Reached(order, rounds, i) && Registration(m.pid, m.exitTx) in RegistrationsIn(rounds, i))
    ensures m.Exit? ==> (m in MeetingsIn(order, rounds, i) <==>
      Reached(order, rounds, i) && exists p :: p in PacketsIn(order, rounds[i]) && ExitOfPacket(p) == [m])
  {
    ArrivalAmong(RegistrationsIn(rounds, i), m);
    ExitAmong(PacketsIn(order, rounds[i]), m);
  }

  lemma {:induction false} MetInSomeRound(order: Order, rounds: seq<Round>, m: Meeting)
    ensures m in Meetings(order, rounds) <==> exists i: nat :: i < |rounds| && MeetsIn(order, rounds, m)(i)
  {
    var met, meets := MetBy(order, rounds, m), MeetsIn(order, rounds, m);
    forall i: nat | i < |rounds| ensures met(i + 1) <==> met(i) || meets(i) {
      MetInRound(order, rounds, m, i);
    }
    BroughtAbout(met, meets, |rounds|);
  }

  /** An exit is taken exactly if some round that is reached dispatches a packet with message 7
      or 8 for its process, and the reason is the one that message calls for. */
  lemma {:induction false} ExitTakenExactly(order: Order, rounds: seq<Round>, pid: Pid, reason: TerminationReason)
    ensures Exit(pid, reason) in Meetings(order, rounds)
       <==> exists i: nat, p: Poll :: TakesExit(order, rounds, i, p) && Tells(p, pid, reason)
  {
    var m := Exit(pid, reason);
    MetInSomeRound(order, rounds, m);
    if m in Meetings(order, rounds) {
      var i: nat :| i < |rounds| && MeetsIn(order, rounds, m)(i);
      MeetingInRound(order, rounds, i, m);
      var p :| p in PacketsIn(order, rounds[i]) && ExitOfPacket(p) == [m];
      assert TakesExit(order, rounds, i, p);
    }
    if i: nat, p: Poll :| TakesExit(order, rounds, i, p) && Tells(p, pid, reason) {
      assert ExitOfPacket(p) == [m];
      MeetingInRound(order, rounds, i, m);
      assert MeetsIn(order, rounds, m)(i);
    }
  }

  /** A registration is taken exactly if some round that is reached finds it in the channel. */
  lemma {:induction false} RegistrationTakenExactly(order: Order, rounds: seq<Round>, pid: Pid, tx: Tx)
    ensures Arrive(pid, tx) in Meetings(order, rounds)
       <==> exists i: nat :: TakesRegistration(order, rounds, i, Registration(pid, tx))
  {
    var m := Arrive(pid, tx);
    MetInSomeRound(order, rounds, m);
    if m in Meetings(order, rounds) {
      var i: nat :| i < |rounds| && MeetsIn(order, rounds, m)(i);
      MeetingInRound(order, rounds, i, m);
      assert TakesRegistration(order, rounds, i, Registration(pid, tx));
    }
    if i: nat :| TakesRegistration(order, rounds, i, Registration(pid, tx)) {
      MeetingInRound(order, rounds, i, m);
      assert MeetsIn(order, rounds, m)(i);
    }
  }

  /** After any run, a round whose packet carries any other message, such as that of a process
      that has just started, does no more than register what is in the channel. */
  lemma {:induction false} OtherMessagesIgnored(order: Order, rounds: seq<Round>, r: Round)
    requires r.poll.bytes != 7 && r.poll.bytes != 8 && r.poll.key != 0
    ensures
      var s := Run(order, INITIAL, rounds);
      s.running ==>
        Run(order, INITIAL, rounds + [r]).desk == MeetAll(s.desk, Arrivals(s.queue + r.arrivals))
    ensures
      var s := Run(order, INITIAL, rounds);
      s.running && s.queue == [] && r.arrivals == [] ==> Run(order, INITIAL, rounds + [r]).desk == s.desk
  {
    var s := Run(order, INITIAL, rounds);
    assert (rounds + [r])[..|rounds|] == rounds;
    if s.running {
      StepMeets(order, s, r);
      RoundMeets(order, s, r);
      assert PacketsIn(order, r) == [] || PacketsIn(order, r)[..0] == [];
      assert ExitsAmong(PacketsIn(order, r)) == [];
      assert Arrivals(s.queue + r.arrivals) + [] == Arrivals(s.queue + r.arrivals);
    }
  }

  /** The final drain takes, in order and once each, exactly the exits among the packets before
      the first timeout or key 0; and a process that is waited for when it begins gets the first
      of its results among them, or is still waited for if there is none. */
  lemma {:induction false} DrainServesWaiters(d: Desk, tail: seq<Poll>, pid: Pid)
    requires pid in d.waiters
    ensures Drain(d, tail) == MeetAll(d, ExitsAmong(tail[..DrainLength(tail)]))
    ensures
      var e, first := Drain(d, tail), FirstReason(ExitsAmong(tail[..DrainLength(tail)]), pid);
      if first.None? then
        pid in e.waiters && Handed(e.trace, pid) == Handed(d.trace, pid)
      else
        pid !in e.waiters && Handed(e.trace, pid) == Handed(d.trace, pid) + [(d.waiters[pid], first.value)]
  {
    DrainMeets(d, tail);
    DrainedByIndex(tail);
    DrainedExitsAreExits(tail);
    ExitsServe(d, DrainedExits(tail), pid);
  }

  // ---------------------------------------------------- one slot for each process

  /** What the two maps know of one process. */
  datatype Slot = Free | Waiting(exitTx: Tx) | Held(reason: TerminationReason)

  function SlotAfter(slot: Slot, m: Meeting): Slot {
    match m
    case Arrive(_, tx) => if slot.Held? then Free else Waiting(tx)
    case Exit(_, reason) => if slot.Waiting? then Free else Held(reason)
  }

  /** The slot of a process, from its own registrations and exits. */
  function SlotOf(ms: seq<Meeting>, pid: Pid): Slot {
    if ms == [] then Free
    else
      var slot, m := SlotOf(ms[..|ms| - 1], pid), ms[|ms| - 1];
      if m.pid == pid then SlotAfter(slot, m) else slot
  }

  /** The deliveries for a process: each time a registration and an exit meet. */
  function MatchesOf(ms: seq<Meeting>, pid: Pid): seq<(Tx, TerminationReason)> {
    if ms == [] then []
    else
      var front, m := ms[..|ms| - 1], ms[|ms| - 1];
      var slot := SlotOf(front, pid);
      MatchesOf(front, pid) +
      if m.pid != pid then []
      else if m.Arrive? && slot.Held? then [(m.exitTx, slot.reason)]
      else if m.Exit? && slot.Waiting? then [(slot.exitTx, m.reason)]
      else []
  }

  predicate Shows(d: Desk, slot: Slot, pid: Pid) {
    match slot
    case Free => pid !in d.waiters && pid !in d.pending
    case Waiting(tx) => pid in d.waiters && d.waiters[pid] == tx && pid !in d.pending
    case Held(reason) => pid !in d.waiters && pid in d.pending && d.pending[pid] == reason
  }

  lemma {:induction false} MeetShows(d: Desk, slot: Slot, m: Meeting)
    requires Shows(d, slot, m.pid)
    ensures Shows(Meet(d, m), SlotAfter(slot, m), m.pid)
    ensures Handed(Meet(d, m).trace, m.pid) == Handed(d.trace, m.pid) +
      if m.Arrive? && slot.Held? then [(m.exitTx, slot.reason)]
      else if m.Exit? && slot.Waiting? then [(slot.exitTx, m.reason)]
      else []
  {
    var e := Meet(d, m);
    if e.trace != d.trace {
      HandedSnoc(d.trace, e.trace[|d.trace|], m.pid);
    }
  }

  lemma {:induction false} MeetingsShow(ms: seq<Meeting>, pid: Pid)
    ensures Shows(MeetAll(EMPTY_DESK, ms), SlotOf(ms, pid), pid)
    ensures Handed(MeetAll(EMPTY_DESK, ms).trace, pid) == MatchesOf(ms, pid)
  {
    if ms != [] {
      var front, m := ms[..|ms| - 1], ms[|ms| - 1];
      MeetingsShow(front, pid);
      var d := MeetAll(EMPTY_DESK, front);
      if m.pid == pid {
        MeetShows(d, SlotOf(front, pid), m);
      } else {
        MeetElsewhere(d, m, pid);
      }
    }
  }

  /** Over every run, however often a process id is registered for or exits, the two maps are
      one slot for each process: a newer registration displaces an older one, a newer exit
      replaces an older one, and a registration and an exit that meet are delivered to each
      other, in order. */
  lemma {:induction false} MapsRefineSlots(order: Order, rounds: seq<Round>, pid: Pid)
    ensures
      var d, ms := Run(order, INITIAL, rounds).desk, Meetings(order, rounds);
      Shows(d, SlotOf(ms, pid), pid) && Handed(d.trace, pid) == MatchesOf(ms, pid)
  {
    RunMeets(order, rounds, pid);
    MeetingsExactly(order, rounds);
    MeetingsShow(AllMeetings(order, rounds), pid);
  }
}
