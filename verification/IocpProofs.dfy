/** Theorems about every run of the completion-port listener. */
module IocpProofs {
  import opened Termination
  import opened Counting
  import opened Iocp

  // --------------------------------------------------------------- the rendezvous

  /** What the two maps ever hear of: a registration or an exit. */
  datatype Meeting =
    | Arrive(pid: Pid, exitTx: Tx)
    | Exit(pid: Pid, reason: TerminationReason)

  function Meet(d: Desk, m: Meeting): Desk {
    match m
    case Arrive(pid, exitTx) => Register(d, Registration(pid, exitTx))
    case Exit(pid, reason) => Deliver(d, pid, reason)
  }

  function MeetAll(d: Desk, ms: seq<Meeting>): Desk {
    if ms == [] then d else Meet(MeetAll(d, ms[..|ms| - 1]), ms[|ms| - 1])
  }

  function Arrivals(queue: seq<Registration>): seq<Meeting> {
    seq(|queue|, i requires 0 <= i < |queue| => Arrive(queue[i].pid, queue[i].exitTx))
  }

  function Exits(p: Poll): seq<Meeting> {
    if IsExit(p) then [Exit(PidOf(p), ClassifyIocpExit(p))] else []
  }

  /** The exits a final drain takes: those before the first packet that ends it. */
  function DrainedExits(tail: seq<Poll>): seq<Meeting> {
    if tail == [] || EndsDrain(tail[0]) then [] else Exits(tail[0]) + DrainedExits(tail[1..])
  }

  /** The meetings of one iteration, in order. */
  function MeetingsOf(order: Order, s: ListenerState, r: Round): seq<Meeting> {
    Arrivals(s.queue + r.arrivals) +
    if Returns(order, r.poll) then DrainedExits(r.tail)
    else if IsTimeout(r.poll) then [] else Exits(r.poll)
  }

  lemma {:induction false} MeetAllConcat(d: Desk, a: seq<Meeting>, b: seq<Meeting>)
    ensures MeetAll(d, a + b) == MeetAll(MeetAll(d, a), b)
  {
    if b == [] {
      assert a + b == a;
    } else {
      MeetAllConcat(d, a, b[..|b| - 1]);
      assert (a + b)[..|a + b| - 1] == a + b[..|b| - 1];
    }
  }

  lemma {:induction false} RegisterAllMeets(d: Desk, queue: seq<Registration>)
    ensures RegisterAll(d, queue) == MeetAll(d, Arrivals(queue))
  {
    if queue != [] {
      RegisterAllMeets(d, queue[..|queue| - 1]);
      assert Arrivals(queue)[..|queue| - 1] == Arrivals(queue[..|queue| - 1]);
    }
  }

  lemma {:induction false} NotifyMeets(d: Desk, p: Poll)
    ensures Notify(d, p) == MeetAll(d, Exits(p))
  {}

  lemma {:induction false} DrainMeets(d: Desk, tail: seq<Poll>)
    ensures Drain(d, tail) == MeetAll(d, DrainedExits(tail))
    decreases |tail|
  {
    if tail != [] && !EndsDrain(tail[0]) {
      NotifyMeets(d, tail[0]);
      DrainMeets(Notify(d, tail[0]), tail[1..]);
      MeetAllConcat(d, Exits(tail[0]), DrainedExits(tail[1..]));
    }
  }

  lemma {:induction false} StepMeets(order: Order, s: ListenerState, r: Round)
    requires s.running
    ensures Step(order, s, r).desk == MeetAll(s.desk, MeetingsOf(order, s, r))
  {
    var first := Arrivals(s.queue + r.arrivals);
    RegisterAllMeets(s.desk, s.queue + r.arrivals);
    var d := MeetAll(s.desk, first);
    DrainMeets(d, r.tail);
    NotifyMeets(d, r.poll);
    MeetAllConcat(s.desk, first, DrainedExits(r.tail));
    MeetAllConcat(s.desk, first, Exits(r.poll));
    MeetAllConcat(s.desk, first, []);
  }

  /** No process is ever both waited for and held, in any run whatever. */
  lemma {:induction false} MapsStayDisjoint(ms: seq<Meeting>)
    ensures MeetAll(EMPTY_DESK, ms).waiters.Keys !! MeetAll(EMPTY_DESK, ms).pending.Keys
  {
    if ms != [] {
      MapsStayDisjoint(ms[..|ms| - 1]);
    }
  }

  function ArrivalOf(pid: Pid): Meeting -> bool { (m: Meeting) => m.Arrive? && m.pid == pid }
  function ExitOf(pid: Pid): Meeting -> bool { (m: Meeting) => m.Exit? && m.pid == pid }

  /** The deliveries made for a process, in order. */
  function Handed(trace: seq<Act>, pid: Pid): seq<(Tx, TerminationReason)> {
    if trace == [] then []
    else
      var front, a := trace[..|trace| - 1], trace[|trace| - 1];
      if a.Sent? && a.pid == pid then Handed(front, pid) + [(a.exitTx, a.reason)] else Handed(front, pid)
  }

  lemma {:induction false} HandedSnoc(trace: seq<Act>, a: Act, pid: Pid)
    ensures Handed(trace + [a], pid)
         == if a.Sent? && a.pid == pid then Handed(trace, pid) + [(a.exitTx, a.reason)] else Handed(trace, pid)
  {}

  /** What the desk must show for a process, given who registered for it and how it ended. */
  ghost predicate Settled(d: Desk, ms: seq<Meeting>, pid: Pid) {
    && (forall tx: Tx :: Arrive(pid, tx) in ms && Count(ms, ExitOf(pid)) == 0 ==>
          pid in d.waiters && d.waiters[pid] == tx)
    && (forall reason :: Exit(pid, reason) in ms && Count(ms, ArrivalOf(pid)) == 0 ==>
          pid in d.pending && d.pending[pid] == reason)
    && (forall tx: Tx, reason :: Arrive(pid, tx) in ms && Exit(pid, reason) in ms ==>
          Handed(d.trace, pid) == [(tx, reason)])
    && (pid in d.waiters <==> Count(ms, ArrivalOf(pid)) == 1 && Count(ms, ExitOf(pid)) == 0)
    && (pid in d.pending <==> Count(ms, ExitOf(pid)) == 1 && Count(ms, ArrivalOf(pid)) == 0)
    && |Handed(d.trace, pid)| == (if Count(ms, ArrivalOf(pid)) == 1 && Count(ms, ExitOf(pid)) == 1 then 1 else 0)
  }

  /** When a process is registered for at most once and exits at most once, it ends up waited
      for, held, or delivered once to its own registrant, in whichever order the two come and
      whatever happens to other processes. */
  lemma {:induction false} Rendezvous(ms: seq<Meeting>, pid: Pid)
    requires Count(ms, ArrivalOf(pid)) <= 1 && Count(ms, ExitOf(pid)) <= 1
    ensures Settled(MeetAll(EMPTY_DESK, ms), ms, pid)
  {
    if ms != [] {
      var front, m := ms[..|ms| - 1], ms[|ms| - 1];
      Rendezvous(front, pid);
      assert ms == front + [m];
      var d := MeetAll(EMPTY_DESK, front);
      RendezvousStep(d, front, m, pid);
    }
  }

  lemma {:induction false} RendezvousStep(d: Desk, ms: seq<Meeting>, m: Meeting, pid: Pid)
    requires Settled(d, ms, pid)
    requires Count(ms + [m], ArrivalOf(pid)) <= 1 && Count(ms + [m], ExitOf(pid)) <= 1
    ensures Settled(Meet(d, m), ms + [m], pid)
  {
    CountSnoc(ms, m, ArrivalOf(pid));
    CountSnoc(ms, m, ExitOf(pid));
    if m.pid != pid {
      MeetElsewhere(d, m, pid);
    } else {
      MeetHere(d, ms, m);
    }
  }

  /** The two maps say the same of a process. */
  predicate SameFor(x: Desk, y: Desk, pid: Pid) {
    && (pid in x.waiters <==> pid in y.waiters) && (pid in x.waiters ==> x.waiters[pid] == y.waiters[pid])
    && (pid in x.pending <==> pid in y.pending) && (pid in x.pending ==> x.pending[pid] == y.pending[pid])
  }

  predicate Agree(x: Desk, y: Desk, pid: Pid) {
    SameFor(x, y, pid) && Handed(x.trace, pid) == Handed(y.trace, pid)
  }

  lemma {:induction false} MeetElsewhere(d: Desk, m: Meeting, pid: Pid)
    requires m.pid != pid
    ensures
      Agree(d, Meet(d, m), pid)
  {
    var e := Meet(d, m);
    if e.trace != d.trace {
      HandedSnoc(d.trace, e.trace[|d.trace|], pid);
    }
  }

  lemma {:induction false} MeetHere(d: Desk, ms: seq<Meeting>, m: Meeting)
    requires Settled(d, ms, m.pid)
    requires Count(ms + [m], ArrivalOf(m.pid)) <= 1 && Count(ms + [m], ExitOf(m.pid)) <= 1
    ensures Settled(Meet(d, m), ms + [m], m.pid)
  {
    CountSnoc(ms, m, ArrivalOf(m.pid));
    CountSnoc(ms, m, ExitOf(m.pid));
    forall x | x in ms && x.pid == m.pid ensures x.Arrive? != m.Arrive? {
      CountMember(ms, if x.Arrive? then ArrivalOf(m.pid) else ExitOf(m.pid), x);
    }
    var e := Meet(d, m);
    if e.trace != d.trace {
      HandedSnoc(d.trace, e.trace[|d.trace|], m.pid);
    }
  }

  lemma {:induction false} SettledAgree(x: Desk, a: seq<Meeting>, y: Desk, b: seq<Meeting>, pid: Pid)
    requires Settled(x, a, pid) && Settled(y, b, pid)
    requires Count(a, ArrivalOf(pid)) == Count(b, ArrivalOf(pid)) <= 1
    requires Count(a, ExitOf(pid)) == Count(b, ExitOf(pid)) <= 1
    requires forall m :: m in a <==> m in b
    ensures Agree(x, y, pid)
  {
    if Count(a, ArrivalOf(pid)) > 0 {
      var m := CountWitness(a, ArrivalOf(pid));
      assert Arrive(pid, m.exitTx) in a;
    }
    if Count(a, ExitOf(pid)) > 0 {
      var m := CountWitness(a, ExitOf(pid));
      assert Exit(pid, m.reason) in a;
    }
  }

  /** The outcome for such a process does not depend on the order of the meetings at all. */
  lemma {:induction false} OrderIndependent(a: seq<Meeting>, b: seq<Meeting>, pid: Pid)
    requires multiset(a) == multiset(b)
    requires Count(a, ArrivalOf(pid)) <= 1 && Count(a, ExitOf(pid)) <= 1
    ensures Agree(MeetAll(EMPTY_DESK, a), MeetAll(EMPTY_DESK, b), pid)
  {
    CountMultiset(a, b, ArrivalOf(pid));
    CountMultiset(a, b, ExitOf(pid));
    Rendezvous(a, pid);
    Rendezvous(b, pid);
    assert forall m :: m in a <==> m in multiset(a);
    assert forall m :: m in b <==> m in multiset(b);
    SettledAgree(MeetAll(EMPTY_DESK, a), a, MeetAll(EMPTY_DESK, b), b, pid);
  }

  // ------------------------------------------------------- the rendezvous in runs

  /** Everything the two maps hear of in a run. */
  function AllMeetings(order: Order, rounds: seq<Round>): seq<Meeting> {
    if rounds == [] then []
    else
      var front := rounds[..|rounds| - 1];
      var s := Run(order, INITIAL, front);
      if !s.running then AllMeetings(order, front)
      else AllMeetings(order, front) + MeetingsOf(order, s, rounds[|rounds| - 1])
  }

  lemma {:induction false} DropAllHands(trace: seq<Act>, queue: seq<Registration>, pid: Pid)
    ensures Handed(DropAll(trace, queue), pid) == Handed(trace, pid)
  {
    if queue != [] {
      DropAllHands(trace, queue[..|queue| - 1], pid);
      HandedSnoc(DropAll(trace, queue[..|queue| - 1]), Dropped(queue[|queue| - 1].exitTx), pid);
    }
  }

  /** A run of the listener is the meeting of its registrations and exit packets. */
  lemma {:induction false} RunMeets(order: Order, rounds: seq<Round>, pid: Pid)
    ensures
      var d, e := Run(order, INITIAL, rounds).desk, MeetAll(EMPTY_DESK, AllMeetings(order, rounds));
      && d.waiters == e.waiters && d.pending == e.pending && Handed(d.trace, pid) == Handed(e.trace, pid)
      && (Run(order, INITIAL, rounds).running ==> d == e)
  {
    if rounds != [] {
      var front, r := rounds[..|rounds| - 1], rounds[|rounds| - 1];
      RunMeets(order, front, pid);
      var s := Run(order, INITIAL, front);
      if s.running {
        StepMeets(order, s, r);
        MeetAllConcat(EMPTY_DESK, AllMeetings(order, front), MeetingsOf(order, s, r));
      } else {
        DropAllHands(s.desk.trace, r.arrivals + r.late, pid);
      }
    }
  }

  /** In every run of the listener, in either order of its tests, the two maps never share a
      process; and a process that is registered for and exits at most once is waited for
      exactly if it has not exited, held exactly if it has not been registered for, and given
      its own result exactly once if both happened. */
  lemma {:induction false} ListenerRendezvous(order: Order, rounds: seq<Round>, pid: Pid)
    ensures
      var d, ms := Run(order, INITIAL, rounds).desk, AllMeetings(order, rounds);
      && d.waiters.Keys !! d.pending.Keys
      && (Count(ms, ArrivalOf(pid)) <= 1 && Count(ms, ExitOf(pid)) <= 1 ==> Settled(d, ms, pid))
  {
    var ms := AllMeetings(order, rounds);
    RunMeets(order, rounds, pid);
    MapsStayDisjoint(ms);
    if Count(ms, ArrivalOf(pid)) <= 1 && Count(ms, ExitOf(pid)) <= 1 {
      Rendezvous(ms, pid);
    }
  }

  // ------------------------------------------------- results of reused process ids

  function GivenTo(trace: seq<Act>, tx: Tx): seq<TerminationReason> {
    if trace == [] then []
    else
      var front, a := trace[..|trace| - 1], trace[|trace| - 1];
      if a.Sent? && a.exitTx == tx then GivenTo(front, tx) + [a.reason] else GivenTo(front, tx)
  }

  predicate Mentions(m: Meeting, pid: Pid, tx: Tx) {
    m.pid == pid || (m.Arrive? && m.exitTx == tx)
  }

  lemma {:induction false} GivenSnoc(trace: seq<Act>, a: Act, tx: Tx)
    ensures GivenTo(trace + [a], tx)
         == if a.Sent? && a.exitTx == tx then GivenTo(trace, tx) + [a.reason] else GivenTo(trace, tx)
  {}

  /** One meeting, as one sender sees it. */
  lemma {:induction false} MeetGives(d: Desk, m: Meeting, tx: Tx)
    ensures
      var e := Meet(d, m);
      var sent :=
        if m.Arrive? then m.exitTx == tx && m.pid in d.pending
        else m.pid in d.waiters && d.waiters[m.pid] == tx;
      GivenTo(e.trace, tx) ==
        if !sent then GivenTo(d.trace, tx)
        else GivenTo(d.trace, tx) + [if m.Arrive? then d.pending[m.pid] else m.reason]
  {}

  lemma {:induction false} Unmentioned(ms: seq<Meeting>, tx: Tx)
    requires forall m :: m in ms ==> !(m.Arrive? && m.exitTx == tx)
    ensures GivenTo(MeetAll(EMPTY_DESK, ms).trace, tx) == []
    ensures tx !in MeetAll(EMPTY_DESK, ms).waiters.Values
  {
    if ms != [] {
      Unmentioned(ms[..|ms| - 1], tx);
      MeetGives(MeetAll(EMPTY_DESK, ms[..|ms| - 1]), ms[|ms| - 1], tx);
    }
  }

  /** The sender waits under that process id or nowhere. */
  ghost predicate Only(d: Desk, pid: Pid, tx: Tx) {
    forall p :: p in d.waiters && p != pid ==> d.waiters[p] != tx
  }

  lemma {:induction false} OtherPasses(d: Desk, m: Meeting, pid: Pid, tx: Tx)
    requires !Mentions(m, pid, tx) && Only(d, pid, tx)
    ensures Only(Meet(d, m), pid, tx)
    ensures SameFor(d, Meet(d, m), pid)
  {}

  lemma {:induction false} OtherGivesNothing(d: Desk, m: Meeting, pid: Pid, tx: Tx)
    requires !Mentions(m, pid, tx) && Only(d, pid, tx)
    ensures GivenTo(Meet(d, m).trace, tx) == GivenTo(d.trace, tx)
  {}

  lemma {:induction false} OthersPass(d: Desk, ms: seq<Meeting>, pid: Pid, tx: Tx)
    requires forall m :: m in ms ==> !Mentions(m, pid, tx)
    requires Only(d, pid, tx)
    ensures var e := MeetAll(d, ms);
      Only(e, pid, tx) && GivenTo(e.trace, tx) == GivenTo(d.trace, tx) && SameFor(d, e, pid)
  {
    if ms != [] {
      OthersPass(d, ms[..|ms| - 1], pid, tx);
      OtherPasses(MeetAll(d, ms[..|ms| - 1]), ms[|ms| - 1], pid, tx);
      OtherGivesNothing(MeetAll(d, ms[..|ms| - 1]), ms[|ms| - 1], pid, tx);
    }
  }

  lemma {:induction false} FreshRegistration(d: Desk, between: seq<Meeting>, pid: Pid, tx: Tx,
                                             reason: TerminationReason)
    requires GivenTo(d.trace, tx) == [] && tx !in d.waiters.Values && d.waiters.Keys !! d.pending.Keys
    requires forall m :: m in between ==> !Mentions(m, pid, tx)
    ensures
      var last := Meet(MeetAll(Meet(d, Arrive(pid, tx)), between), Exit(pid, reason));
      GivenTo(last.trace, tx) == [if pid in d.pending then d.pending[pid] else reason]
  {
    var arrive, exit := Arrive(pid, tx), Exit(pid, reason);
    var e := Meet(d, arrive);
    var f := MeetAll(e, between);
    MeetGives(d, arrive, tx);
    assert Only(e, pid, tx);
    OthersPass(e, between, pid, tx);
    MeetGives(f, exit, tx);
    if pid in d.pending {
      assert pid !in e.waiters && pid !in f.waiters;
      assert GivenTo(Meet(f, exit).trace, tx) == GivenTo(e.trace, tx) == [d.pending[pid]];
    } else {
      assert e.waiters[pid] == tx && f.waiters[pid] == tx;
      assert GivenTo(Meet(f, exit).trace, tx) == [reason];
    }
  }

  /** The same two meetings in the other order. */
  lemma {:induction false} LateRegistration(d: Desk, between: seq<Meeting>, pid: Pid, tx: Tx,
                                            reason: TerminationReason)
    requires GivenTo(d.trace, tx) == [] && tx !in d.waiters.Values && d.waiters.Keys !! d.pending.Keys
    requires forall m :: m in between ==> !Mentions(m, pid, tx)
    ensures
      var last := Meet(MeetAll(Meet(d, Exit(pid, reason)), between), Arrive(pid, tx));
      GivenTo(last.trace, tx) == if pid in d.waiters then [] else [reason]
  {
    var arrive, exit := Arrive(pid, tx), Exit(pid, reason);
    var e := Meet(d, exit);
    var f := MeetAll(e, between);
    MeetGives(d, exit, tx);
    assert pid in e.pending <==> pid !in d.waiters;
    OthersPass(e, between, pid, tx);
    MeetGives(f, arrive, tx);
  }

  lemma {:induction false} MeetAllBetween(before: seq<Meeting>, x: Meeting, between: seq<Meeting>, y: Meeting)
    ensures MeetAll(EMPTY_DESK, before + [x] + between + [y])
         == Meet(MeetAll(Meet(MeetAll(EMPTY_DESK, before), x), between), y)
  {
    assert (before + [x])[..|before|] == before;
    MeetAllConcat(EMPTY_DESK, before + [x], between);
    var all := before + [x] + between;
    assert (all + [y])[..|all|] == all;
  }

  /** Exits of processes nobody registered are held, and a registration whose process exited
      unseen goes on waiting.  So after any history, when a process id is registered for once
      more and exits once more: if the registration comes first, the new registrant gets that
      exit's reason exactly when no other reason was held under the id, which it gets instead;
      if the exit comes first, exactly when nobody was waiting under the id, or it gets none. */
  lemma {:induction false} OwnResultExactly(before: seq<Meeting>, between: seq<Meeting>, pid: Pid, tx: Tx,
                                            reason: TerminationReason)
    requires forall m :: m in before ==> !(m.Arrive? && m.exitTx == tx)
    requires forall m :: m in between ==> !Mentions(m, pid, tx)
    ensures
      var held := MeetAll(EMPTY_DESK, before).pending;
      var all := before + [Arrive(pid, tx)] + between + [Exit(pid, reason)];
      GivenTo(MeetAll(EMPTY_DESK, all).trace, tx) == [if pid in held then held[pid] else reason]
    ensures
      var waiting := MeetAll(EMPTY_DESK, before).waiters;
      var all := before + [Exit(pid, reason)] + between + [Arrive(pid, tx)];
      GivenTo(MeetAll(EMPTY_DESK, all).trace, tx) == if pid in waiting then [] else [reason]
  {
    Unmentioned(before, tx);
    MapsStayDisjoint(before);
    FreshRegistration(MeetAll(EMPTY_DESK, before), between, pid, tx, reason);
    LateRegistration(MeetAll(EMPTY_DESK, before), between, pid, tx, reason);
    MeetAllBetween(before, Arrive(pid, tx), between, Exit(pid, reason));
    MeetAllBetween(before, Exit(pid, reason), between, Arrive(pid, tx));
  }

  /** Every waiter was registered, every held result is an exit, and every delivery joins a
      registration and an exit of one and the same process id. */
  ghost predicate Sourced(d: Desk, ms: seq<Meeting>) {
    && (forall p :: p in d.waiters ==> Arrive(p, d.waiters[p]) in ms)
    && (forall p :: p in d.pending ==> Exit(p, d.pending[p]) in ms)
    && (forall a :: a in d.trace && a.Sent? ==> Arrive(a.pid, a.exitTx) in ms && Exit(a.pid, a.reason) in ms)
  }

  lemma {:induction false} MeetingsSourced(ms: seq<Meeting>)
    ensures Sourced(MeetAll(EMPTY_DESK, ms), ms)
  {
    if ms != [] {
      MeetingsSourced(ms[..|ms| - 1]);
      assert forall m :: m in ms[..|ms| - 1] ==> m in ms;
    }
  }

  lemma {:induction false} DropAllSends(trace: seq<Act>, queue: seq<Registration>)
    ensures forall a :: a in DropAll(trace, queue) && a.Sent? ==> a in trace
  {
    if queue != [] {
      DropAllSends(trace, queue[..|queue| - 1]);
    }
  }

  /** Over every run, whatever ids are reused, whatever is delivered to a registrant is the
      reason of an exit packet that carried the very id it registered for. */
  lemma {:induction false} DeliveriesSourced(order: Order, rounds: seq<Round>)
    ensures Sourced(Run(order, INITIAL, rounds).desk, AllMeetings(order, rounds))
  {
    if rounds != [] {
      var front, r := rounds[..|rounds| - 1], rounds[|rounds| - 1];
      var s := Run(order, INITIAL, front);
      if s.running {
        RunMeets(order, front, 0);
        StepMeets(order, s, r);
        MeetAllConcat(EMPTY_DESK, AllMeetings(order, front), MeetingsOf(order, s, r));
        MeetingsSourced(AllMeetings(order, rounds));
      } else {
        DeliveriesSourced(order, front);
        DropAllSends(s.desk.trace, r.arrivals + r.late);
      }
    }
  }

  // ---------------------------------------------------- conservation of senders

  function SentTo(tx: Tx): Act -> bool { (a: Act) => a.Sent? && a.exitTx == tx }
  function DroppedFor(tx: Tx): Act -> bool { (a: Act) => a.Dropped? && a.exitTx == tx }
  function Carries(tx: Tx): Registration -> bool { (r: Registration) => r.exitTx == tx }

  function Is(tx: Tx): Tx -> bool { (t: Tx) => t == tx }

  function DeskPlaces(d: Desk, tx: Tx): nat {
    |Under(d.waiters, Is(tx))| + Count(d.trace, SentTo(tx)) + Count(d.trace, DroppedFor(tx))
  }

  /** In how many places a sender is: in the channel, waiting, used to send, dropped. */
  function Places(s: ListenerState, tx: Tx): nat {
    Count(s.queue, Carries(tx)) + DeskPlaces(s.desk, tx)
  }

  function HandedOver(rounds: seq<Round>): seq<Registration> {
    if rounds == [] then []
    else HandedOver(rounds[..|rounds| - 1]) + (rounds[|rounds| - 1].arrivals + rounds[|rounds| - 1].late)
  }

  lemma {:induction false} ActCounted(trace: seq<Act>, a: Act, tx: Tx)
    ensures Count(trace + [a], SentTo(tx)) + Count(trace + [a], DroppedFor(tx))
         == Count(trace, SentTo(tx)) + Count(trace, DroppedFor(tx)) + if a.exitTx == tx then 1 else 0
  {}

  lemma {:induction false} MeetConserves(d: Desk, m: Meeting, tx: Tx)
    ensures DeskPlaces(Meet(d, m), tx)
         == DeskPlaces(d, tx) + if m.Arrive? && m.exitTx == tx then 1 else 0
  {
    var e := Meet(d, m);
    if e.trace != d.trace {
      ActCounted(d.trace, e.trace[|d.trace|], tx);
    }
    UnderRemove(d.waiters, m.pid, Is(tx));
    if m.Arrive? {
      UnderUpdate(d.waiters, m.pid, m.exitTx, Is(tx));
    }
  }

  lemma {:induction false} ExitsConserve(d: Desk, ms: seq<Meeting>, tx: Tx)
    requires forall m :: m in ms ==> m.Exit?
    ensures DeskPlaces(MeetAll(d, ms), tx) == DeskPlaces(d, tx)
  {
    if ms != [] {
      var front, m := ms[..|ms| - 1], ms[|ms| - 1];
      ExitsConserve(d, front, tx);
      MeetConserves(MeetAll(d, front), m, tx);
      assert m in ms && m.Exit?;
    }
  }

  lemma {:induction false} RegisterAllConserves(d: Desk, queue: seq<Registration>, tx: Tx)
    ensures DeskPlaces(RegisterAll(d, queue), tx) == DeskPlaces(d, tx) + Count(queue, Carries(tx))
  {
    if queue != [] {
      var front, r := queue[..|queue| - 1], queue[|queue| - 1];
      RegisterAllConserves(d, front, tx);
      MeetConserves(RegisterAll(d, front), Arrive(r.pid, r.exitTx), tx);
    }
  }

  lemma {:induction false} DropAllConserves(trace: seq<Act>, queue: seq<Registration>, tx: Tx)
    ensures Count(DropAll(trace, queue), SentTo(tx)) + Count(DropAll(trace, queue), DroppedFor(tx))
         == Count(trace, SentTo(tx)) + Count(trace, DroppedFor(tx)) + Count(queue, Carries(tx))
  {
    if queue != [] {
      var front, r := queue[..|queue| - 1], queue[|queue| - 1];
      DropAllConserves(trace, front, tx);
      ActCounted(DropAll(trace, front), Dropped(r.exitTx), tx);
    }
  }

  lemma {:induction false} DrainedExitsAreExits(tail: seq<Poll>)
    ensures forall m :: m in DrainedExits(tail) ==>
              m.Exit? && (m.reason.Unknown? || (m.reason.Crash? && m.reason.address == 0))
  {
    if tail != [] {
      DrainedExitsAreExits(tail[1..]);
    }
  }

  lemma {:induction false} StepConserves(order: Order, s: ListenerState, r: Round, tx: Tx)
    ensures Places(Step(order, s, r), tx) == Places(s, tx) + Count(r.arrivals + r.late, Carries(tx))
  {
    CountConcat(r.arrivals, r.late, Carries(tx));
    if !s.running {
      DropAllConserves(s.desk.trace, r.arrivals + r.late, tx);
    } else {
      CountConcat(s.queue, r.arrivals, Carries(tx));
      RegisterAllConserves(s.desk, s.queue + r.arrivals, tx);
      var d := RegisterAll(s.desk, s.queue + r.arrivals);
      DrainMeets(d, r.tail);
      DrainedExitsAreExits(r.tail);
      ExitsConserve(d, DrainedExits(r.tail), tx);
      NotifyMeets(d, r.poll);
      ExitsConserve(d, Exits(r.poll), tx);
    }
  }

  /** Over every run, each sender ever registered is in exactly one place. */
  lemma {:induction false} SendersConserved(order: Order, rounds: seq<Round>, tx: Tx)
    ensures Places(Run(order, INITIAL, rounds), tx) == Count(HandedOver(rounds), Carries(tx))
  {
    if rounds == [] {
      assert Under(EMPTY_DESK.waiters, Is(tx)) == {};
    } else {
      var front, r := rounds[..|rounds| - 1], rounds[|rounds| - 1];
      SendersConserved(order, front, tx);
      StepConserves(order, Run(order, INITIAL, front), r, tx);
      CountConcat(HandedOver(front), r.arrivals + r.late, Carries(tx));
    }
  }

  /** What the receiving half finds, given that a thread that has returned has dropped its
      maps and its channel with everything in them. */
  function ExitReceiver(s: ListenerState, tx: Tx): Receiver<TerminationResult> {
    if GivenTo(s.desk.trace, tx) != [] then Holds(Ok(GivenTo(s.desk.trace, tx)[0]))
    else if Count(s.desk.trace, DroppedFor(tx)) > 0 then Closed
    else if !s.running && (Count(s.queue, Carries(tx)) > 0 || Under(s.desk.waiters, Is(tx)) != {}) then Closed
    else Open
  }

  lemma {:induction false} GivenCounted(trace: seq<Act>, tx: Tx)
    ensures |GivenTo(trace, tx)| == Count(trace, SentTo(tx))
  {
    if trace != [] {
      GivenCounted(trace[..|trace| - 1], tx);
    }
  }

  /** No exit channel gets a second message, and once the listener has returned, on any path,
      no registrant is left with an open, empty channel. */
  lemma {:induction false} NoWaiterStranded(order: Order, rounds: seq<Round>, tx: Tx)
    requires Count(HandedOver(rounds), Carries(tx)) == 1
    ensures
      var s := Run(order, INITIAL, rounds);
      && |GivenTo(s.desk.trace, tx)| + Count(s.desk.trace, DroppedFor(tx)) <= 1
      && (ExitReceiver(s, tx).Open? <==>
            s.running && (Count(s.queue, Carries(tx)) == 1 || |Under(s.desk.waiters, Is(tx))| == 1))
  {
    SendersConserved(order, rounds, tx);
    GivenCounted(Run(order, INITIAL, rounds).desk.trace, tx);
  }

  lemma {:induction false} HandedIsGiven(trace: seq<Act>, pid: Pid, tx: Tx, reason: TerminationReason)
    requires (tx, reason) in Handed(trace, pid)
    ensures reason in GivenTo(trace, tx)
  {
    var front, a := trace[..|trace| - 1], trace[|trace| - 1];
    if !(a.Sent? && a.pid == pid && a.exitTx == tx && a.reason == reason) {
      HandedIsGiven(front, pid, tx, reason);
    }
  }

  lemma {:induction false} ResultIsGiven(d: Desk, ms: seq<Meeting>, pid: Pid, tx: Tx, reason: TerminationReason)
    requires Settled(d, ms, pid) && Arrive(pid, tx) in ms && Exit(pid, reason) in ms
    ensures reason in GivenTo(d.trace, tx)
  {
    assert Handed(d.trace, pid) == [(tx, reason)];
    HandedIsGiven(d.trace, pid, tx, reason);
  }

  lemma {:induction false} ArrivalsQueued(order: Order, s: ListenerState, r: Round)
    ensures forall m :: m in MeetingsOf(order, s, r) && m.Arrive? ==>
              Registration(m.pid, m.exitTx) in s.queue + r.arrivals
  {
    var queue := s.queue + r.arrivals;
    DrainedExitsAreExits(r.tail);
    forall m | m in MeetingsOf(order, s, r) && m.Arrive? ensures Registration(m.pid, m.exitTx) in queue {
      assert m in Arrivals(queue);
      var i :| 0 <= i < |queue| && Arrivals(queue)[i] == m;
      assert queue[i] == Registration(m.pid, m.exitTx);
    }
  }

  lemma {:induction false} ArrivalsHandedOver(order: Order, rounds: seq<Round>)
    ensures forall m :: m in AllMeetings(order, rounds) && m.Arrive? ==>
              Registration(m.pid, m.exitTx) in HandedOver(rounds)
    ensures forall r :: r in Run(order, INITIAL, rounds).queue ==> r in HandedOver(rounds)
  {
    if rounds != [] {
      var front, r := rounds[..|rounds| - 1], rounds[|rounds| - 1];
      var s := Run(order, INITIAL, front);
      ArrivalsHandedOver(order, front);
      ArrivalsQueued(order, s, r);
      assert HandedOver(rounds) == HandedOver(front) + (r.arrivals + r.late);
    }
  }

  /** The listener knows two reasons: a crash without an address, and unknown. */
  lemma {:induction false} ExitsClassified(order: Order, rounds: seq<Round>)
    ensures forall m :: m in AllMeetings(order, rounds) && m.Exit? ==>
              m.reason.Unknown? || (m.reason.Crash? && m.reason.address == 0)
  {
    if rounds != [] {
      ExitsClassified(order, rounds[..|rounds| - 1]);
      DrainedExitsAreExits(rounds[|rounds| - 1].tail);
    }
  }

  lemma {:induction false} GivenIsSent(trace: seq<Act>, tx: Tx, reason: TerminationReason)
    requires reason in GivenTo(trace, tx)
    ensures exists a :: a in trace && a.Sent? && a.exitTx == tx && a.reason == reason
  {
    var front, a := trace[..|trace| - 1], trace[|trace| - 1];
    if !(a.Sent? && a.exitTx == tx && a.reason == reason) {
      GivenIsSent(front, tx, reason);
    }
  }

  /** A reason that a registrant was given was met under its own process id. */
  lemma {:induction false} GivenWasMet(order: Order, rounds: seq<Round>, pid: Pid, tx: Tx,
                                       reason: TerminationReason)
    requires Count(HandedOver(rounds), Carries(tx)) == 1 && Registration(pid, tx) in HandedOver(rounds)
    requires reason in GivenTo(Run(order, INITIAL, rounds).desk.trace, tx)
    ensures Arrive(pid, tx) in AllMeetings(order, rounds) && Exit(pid, reason) in AllMeetings(order, rounds)
  {
    var trace := Run(order, INITIAL, rounds).desk.trace;
    GivenIsSent(trace, tx, reason);
    var a :| a in trace && a.Sent? && a.exitTx == tx && a.reason == reason;
    DeliveriesSourced(order, rounds);
    ArrivalsHandedOver(order, rounds);
    CountUnique(HandedOver(rounds), Carries(tx), Registration(pid, tx), Registration(a.pid, tx));
  }

  lemma {:induction false} MetIsGiven(order: Order, rounds: seq<Round>, pid: Pid, tx: Tx,
                                      reason: TerminationReason)
    requires
      var ms := AllMeetings(order, rounds);
      && Count(ms, ArrivalOf(pid)) <= 1 && Arrive(pid, tx) in ms
      && Count(ms, ExitOf(pid)) <= 1 && Exit(pid, reason) in ms
    ensures reason in GivenTo(Run(order, INITIAL, rounds).desk.trace, tx)
  {
    ListenerRendezvous(order, rounds, pid);
    ResultIsGiven(Run(order, INITIAL, rounds).desk, AllMeetings(order, rounds), pid, tx, reason);
  }

  lemma {:induction false} HoldsWhatWasGiven(s: ListenerState, tx: Tx, reason: TerminationReason)
    requires |GivenTo(s.desk.trace, tx)| <= 1
    ensures ExitReceiver(s, tx) == Holds(Ok(reason)) <==> reason in GivenTo(s.desk.trace, tx)
  {}

  /** For a process registered for at most once and exiting at most once: its registrant's
      channel holds a reason exactly when the listener has taken the registration and the exit
      with that reason. */
  lemma {:induction false} ReceiverGetsResult(order: Order, rounds: seq<Round>, pid: Pid, tx: Tx,
                                              reason: TerminationReason)
    requires Count(HandedOver(rounds), Carries(tx)) == 1 && Registration(pid, tx) in HandedOver(rounds)
    requires
      var ms := AllMeetings(order, rounds);
      Count(ms, ArrivalOf(pid)) <= 1 && Count(ms, ExitOf(pid)) <= 1
    ensures ExitReceiver(Run(order, INITIAL, rounds), tx) == Holds(Ok(reason))
       <==> Arrive(pid, tx) in AllMeetings(order, rounds) && Exit(pid, reason) in AllMeetings(order, rounds)
  {
    NoWaiterStranded(order, rounds, tx);
    HoldsWhatWasGiven(Run(order, INITIAL, rounds), tx, reason);
    if reason in GivenTo(Run(order, INITIAL, rounds).desk.trace, tx) {
      GivenWasMet(order, rounds, pid, tx, reason);
    } else if Arrive(pid, tx) in AllMeetings(order, rounds) && Exit(pid, reason) in AllMeetings(order, rounds) {
      MetIsGiven(order, rounds, pid, tx, reason);
    }
  }

  // ------------------------------------------------------------------- shutdown

  /** The listener runs exactly as long as no wait meets the condition its tests return on. */
  lemma {:induction false} RunsUntil(order: Order, rounds: seq<Round>)
    ensures Run(order, INITIAL, rounds).running
       <==> forall i :: 0 <= i < |rounds| ==> !Returns(order, rounds[i].poll)
  {
    if rounds != [] {
      var n := |rounds| - 1;
      RunsUntil(order, rounds[..n]);
      assert forall i :: 0 <= i < n ==> rounds[..n][i] == rounds[i];
    }
  }

  /** What the waits of a run yield. */
  function Waits(rounds: seq<Round>): seq<Poll> {
    seq(|rounds|, i requires 0 <= i < |rounds| => rounds[i].poll)
  }

  /** Windows stores no key on a timeout, so the key keeps the zero it was given, which is the
      shutdown key.  As written, the listener therefore outlives no timeout: it runs exactly as
      long as every wait has dequeued a packet of the job.  With the tests the other way round
      it runs exactly as long as no shutdown packet has come. */
  lemma {:induction false} TimeoutEndsListener(rounds: seq<Round>)
    requires forall p :: p in Waits(rounds) && !p.ok && p.overlapped == 0 ==> p.key == 0
    ensures Run(KeyFirst, INITIAL, rounds).running
       <==> forall p :: p in Waits(rounds) ==> !(!p.ok && p.overlapped == 0) && p.key != 0
    ensures Run(TimeoutFirst, INITIAL, rounds).running
       <==> forall p :: p in Waits(rounds) ==> (!p.ok && p.overlapped == 0) || p.key != 0
  {
    RunsUntil(KeyFirst, rounds);
    RunsUntil(TimeoutFirst, rounds);
    assert forall i :: 0 <= i < |rounds| ==> Waits(rounds)[i] == rounds[i].poll;
  }

  predicate TimeoutWithShutdownKey(p: Poll) {
    !p.ok && p.overlapped == 0 && p.key == 0
  }

  predicate ShutdownPacket(p: Poll) {
    (p.ok || p.overlapped != 0) && p.key == 0
  }

  /** The code does what its comment says on every prefix of a run exactly when no timeout
      leaves the shutdown key behind before a shutdown packet has come. */
  lemma {:induction false} OrdersAgreeExactly(rounds: seq<Round>)
    ensures (forall n :: 0 <= n <= |rounds| ==>
              Run(KeyFirst, INITIAL, rounds[..n]) == Run(TimeoutFirst, INITIAL, rounds[..n]))
       <==> (forall i :: 0 <= i < |rounds| && TimeoutWithShutdownKey(rounds[i].poll) ==>
              exists j :: 0 <= j < i && ShutdownPacket(rounds[j].poll))
  {
    if forall i :: 0 <= i < |rounds| && TimeoutWithShutdownKey(rounds[i].poll) ==>
         exists j :: 0 <= j < i && ShutdownPacket(rounds[j].poll) {
      forall n | 0 <= n <= |rounds|
        ensures Run(KeyFirst, INITIAL, rounds[..n]) == Run(TimeoutFirst, INITIAL, rounds[..n])
      {
        OrdersAgree(rounds, n);
      }
    } else {
      var i :| 0 <= i < |rounds| && TimeoutWithShutdownKey(rounds[i].poll)
               && !exists j :: 0 <= j < i && ShutdownPacket(rounds[j].poll);
      var prefix := rounds[..i + 1];
      RunsUntil(KeyFirst, prefix);
      RunsUntil(TimeoutFirst, prefix);
      assert prefix[i] == rounds[i];
      assert forall j :: 0 <= j <= i ==> !Returns(TimeoutFirst, prefix[j].poll);
    }
  }

  lemma {:induction false} OrdersAgree(rounds: seq<Round>, n: nat)
    requires n <= |rounds|
    requires forall i :: 0 <= i < |rounds| && TimeoutWithShutdownKey(rounds[i].poll) ==>
               exists j :: 0 <= j < i && ShutdownPacket(rounds[j].poll)
    ensures Run(KeyFirst, INITIAL, rounds[..n]) == Run(TimeoutFirst, INITIAL, rounds[..n])
  {
    if n > 0 {
      OrdersAgree(rounds, n - 1);
      assert rounds[..n][..n - 1] == rounds[..n - 1];
      RunsUntil(TimeoutFirst, rounds[..n - 1]);
    }
  }

  /** What it costs: a registered child that exits after the first idle wait.  Its registrant
      finds a closed channel as the code stands, and the reason with the tests exchanged. */
  lemma {:induction false} EarlyReturnLosesExit(pid: Pid, tx: Tx, code: U32)
    ensures
      var idle := Round([Registration(pid, tx)], Poll(false, 0, 0, 0, None), [], []);
      var exit := Round([], Poll(true, 7, 1, pid, Some(code)), [], []);
      && ExitReceiver(Run(KeyFirst, INITIAL, [idle, exit]), tx) == Closed
      && ExitReceiver(Run(TimeoutFirst, INITIAL, [idle, exit]), tx) == Holds(Ok(Unknown(ExitStatus(code))))
  {
    var idle := Round([Registration(pid, tx)], Poll(false, 0, 0, 0, None), [], []);
    var exit := Round([], Poll(true, 7, 1, pid, Some(code)), [], []);
    assert [idle, exit][..1] == [idle] && [idle][..0] == [];
    assert [Registration(pid, tx)][..0] == [] && [] + [Registration(pid, tx)] == [Registration(pid, tx)];
    var waiting := Desk(map[pid := tx], map[], []);
    assert RegisterAll(EMPTY_DESK, [Registration(pid, tx)]) == waiting;
    assert Run(KeyFirst, INITIAL, [idle]) == ListenerState(waiting, [], false);
    assert Run(TimeoutFirst, INITIAL, [idle]) == ListenerState(waiting, [], true);
    assert pid in Under(waiting.waiters, Is(tx));
    GivenSnoc([], Sent(pid, tx, Unknown(ExitStatus(code))), tx);
  }

  function FirstReason(ms: seq<Meeting>, pid: Pid): (reason: Option<TerminationReason>)
    ensures reason.Some? <==> Count(ms, ExitOf(pid)) > 0
  {
    if ms == [] then None
    else
      var earlier := FirstReason(ms[..|ms| - 1], pid);
      var m := ms[|ms| - 1];
      if earlier.Some? then earlier
      else if m.Exit? && m.pid == pid then Some(m.reason) else None
  }

  lemma {:induction false} ExitsServe(d: Desk, ms: seq<Meeting>, pid: Pid)
    requires pid in d.waiters && forall m :: m in ms ==> m.Exit?
    ensures
      var e, first := MeetAll(d, ms), FirstReason(ms, pid);
      if first.None? then
        pid in e.waiters && e.waiters[pid] == d.waiters[pid] && Handed(e.trace, pid) == Handed(d.trace, pid)
      else
        pid !in e.waiters && Handed(e.trace, pid) == Handed(d.trace, pid) + [(d.waiters[pid], first.value)]
  {
    if ms != [] {
      var front, m := ms[..|ms| - 1], ms[|ms| - 1];
      ExitsServe(d, front, pid);
      var x, y := MeetAll(d, front), MeetAll(d, ms);
      if y.trace != x.trace {
        HandedSnoc(x.trace, y.trace[|x.trace|], pid);
      }
    }
  }
}
