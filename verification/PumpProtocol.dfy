/** The order in which the pump acts, and how soon it answers and returns. */
module PumpProtocol {
  import opened Termination
  import opened Counting
  import opened Pump
  import opened PumpProofs

  // ------------------------------------------------------------- the protocol

  /** What the thread still has to do before it may turn to something else: continue the
      debug event it holds, of a tracked process or of another, or answer the request whose
      entry it has just inserted. */
  datatype Duty = Settled | Owing(event: DebugEvent) | Passing(event: DebugEvent) | Answering(pid: Pid) | Broken

  /** The duty, and which processes the trace so far says are tracked. */
  datatype Log = Log(duty: Duty, tracked: set<Pid>)

  predicate Continues(e: DebugEvent, a: Act)
    requires a.Continued?
  {
    e.pid == a.pid && e.tid == a.tid && (e.kind.Exception? || a.status == DbgContinue)
  }

  function DutyStep(l: Log, a: Act): Duty {
    var d := l.duty;
    match a
    case Got(e) => if !d.Settled? then Broken else if e.pid in l.tracked then Owing(e) else Passing(e)
    case Continued(_, _, status) =>
      if d.Owing? && Continues(d.event, a) then Settled
      else if d.Passing? && Continues(d.event, a) && (d.event.kind.Exception? ==> status == DbgExceptionNotHandled)
      then Settled
      else Broken
    case AffinitySet(pid, _, mask) =>
      if d.Owing? && d.event.pid == pid && IsBreakpoint(d.event.kind) && mask != 0 then d else Broken
    case Sent(_, _) => if d.Owing? && Terminal(d.event.kind) then d else Broken
    case Inserted(pid, _, _) => if d.Settled? then Answering(pid) else Broken
    case Replied(_, Created(pid)) => if d == Answering(pid) then Settled else Broken
    case Replied(_, CreateFailed(_)) => if d.Settled? then d else Broken
    case Dropped(_) => if d.Settled? || d.Answering? then d else Broken
    case ReplyDropped(_) => if d.Settled? then d else Broken
  }

  function LogStep(l: Log, a: Act): Log {
    Log(DutyStep(l, a),
        match a
        case Inserted(pid, _, _) => l.tracked + {pid}
        case Got(e) => if Terminal(e.kind) then l.tracked - {e.pid} else l.tracked
        case _ => l.tracked)
  }

  function LogOf(trace: seq<Act>): Log {
    if trace == [] then Log(Settled, {}) else LogStep(LogOf(trace[..|trace| - 1]), trace[|trace| - 1])
  }

  /** Nothing is owed, and the table tracks what the trace says. */
  predicate Kept(s: PumpState) {
    LogOf(s.trace) == Log(Settled, s.children.Keys)
  }

  lemma {:induction false} LogSnoc(trace: seq<Act>, a: Act)
    ensures LogOf(trace + [a]) == LogStep(LogOf(trace), a)
  {}

  lemma {:induction false} LogPush(trace: seq<Act>, first: Act, act: Option<Act>, last: Act)
    ensures
      var l := LogStep(LogOf(trace), first);
      LogOf(Push(trace + [first], act) + [last])
        == LogStep(if act.None? then l else LogStep(l, act.value), last)
  {
    LogSnoc(trace, first);
    if act.Some? {
      LogSnoc(trace + [first], act.value);
    }
    LogSnoc(Push(trace + [first], act), last);
  }

  /** From inserting the entry to answering the request. */
  lemma {:induction false} CreationDischarged(l: Log, inserted: Act, displaced: Option<Act>, replied: Act)
    requires l.duty.Settled? && inserted.Inserted? && (displaced.Some? ==> displaced.value.Dropped?)
    requires replied.Replied? && replied.creation == Created(inserted.pid)
    ensures
      var begun := LogStep(l, inserted);
      LogStep(if displaced.None? then begun else LogStep(begun, displaced.value), replied)
        == Log(Settled, l.tracked + {inserted.pid})
  {}

  lemma {:induction false} CreatedKeeps(s: PumpState, req: SpawnRequest, respTx: Tx, pid: Pid)
    requires Kept(s)
    ensures Kept(Receive(s, Spawn(req, respTx), Created(pid)))
  {
    var displaced := if pid in s.children then Some(Dropped(s.children[pid].exitTx)) else None;
    var inserted, replied := Inserted(pid, req.exitTx, req.affinityMask), Replied(respTx, Created(pid));
    LogPush(s.trace, inserted, displaced, replied);
    CreationDischarged(LogOf(s.trace), inserted, displaced, replied);
  }

  lemma {:induction false} ReceiveKeeps(s: PumpState, m: Message, creation: Creation)
    requires Kept(s)
    ensures Kept(Receive(s, m, creation))
  {
    if m.Spawn? {
      if creation.Created? {
        CreatedKeeps(s, m.req, m.respTx, creation.pid);
      } else {
        LogSnoc(s.trace, Replied(m.respTx, creation));
        LogSnoc(s.trace + [Replied(m.respTx, creation)], Dropped(m.req.exitTx));
      }
    }
  }

  lemma {:induction false} KeysAfter(children: map<Pid, ChildEntry>, e: DebugEvent)
    ensures TableAfter(children, e).Keys == if Terminal(e.kind) then children.Keys - {e.pid} else children.Keys
  {}

  /** From getting the event to continuing it. */
  lemma {:induction false} EventDischarged(l: Log, children: map<Pid, ChildEntry>, e: DebugEvent)
    requires l == Log(Settled, children.Keys)
    ensures
      var got := LogStep(l, Got(e));
      var act := ActFor(children, e);
      LogStep(if act.None? then got else LogStep(got, act.value),
              Continued(e.pid, e.tid, StatusFor(children, e))).duty.Settled?
  {
    if e.pid !in children {
      assert ActFor(children, e).None?;
    }
  }

  lemma {:induction false} DispatchKeeps(s: PumpState, e: DebugEvent)
    requires Kept(s)
    ensures Kept(Dispatch(s, e))
  {
    LogPush(s.trace, Got(e), ActFor(s.children, e), Continued(e.pid, e.tid, StatusFor(s.children, e)));
    KeysAfter(s.children, e);
    EventDischarged(LogOf(s.trace), s.children, e);
  }

  lemma {:induction false} RefuseKeeps(trace: seq<Act>, arrivals: seq<Message>)
    requires LogOf(trace).duty.Settled?
    ensures LogOf(Refuse(trace, arrivals)) == LogOf(trace)
    decreases |arrivals|
  {
    if arrivals != [] {
      match arrivals[0]
      case Shutdown => RefuseKeeps(trace, arrivals[1..]);
      case Spawn(req, respTx) =>
        LogPush(trace, Dropped(req.exitTx), None, ReplyDropped(respTx));
        RefuseKeeps(trace + [Dropped(req.exitTx)] + [ReplyDropped(respTx)], arrivals[1..]);
    }
  }

  /** Along every run, each debug event obtained is continued exactly once, under its own
      process and thread id, before anything else is awaited or served; the affinity is set
      only while that child's breakpoint is held, and an exit reason is sent only while a
      terminal event of a tracked child is held; an event of a process that is not tracked is
      passed back at once, unhandled if it is an exception, and nothing else is done about it;
      and every successful creation is answered right after its entry is inserted, before any
      debug event can be obtained.  The processes in the table are those inserted since their
      last terminal event. */
  lemma {:induction false} ProtocolKept(rounds: seq<Round>)
    ensures Kept(Run(INITIAL, rounds))
  {
    if rounds != [] {
      var front, r := rounds[..|rounds| - 1], rounds[|rounds| - 1];
      ProtocolKept(front);
      var s := Run(INITIAL, front);
      if !s.running {
        RefuseKeeps(s.trace, r.arrivals);
      } else {
        var all := s.(queue := s.queue + r.arrivals);
        if all.queue != [] {
          ReceiveKeeps(all.(queue := all.queue[1..]), all.queue[0], r.creation);
        }
        if r.event.Some? {
          DispatchKeeps(Served(all, r.creation), r.event.value);
        }
      }
    }
  }

  /** A living child's event is passed back unhandled exactly when it is an exception other
      than the loader breakpoint. */
  lemma {:induction false} StatusMeaning(s: PumpState, e: DebugEvent, tx: Tx)
    requires Refines(s, tx)
    requires var life := LifeOf(s.trace, tx); life.Alive? && life.pid == e.pid
    ensures
      var seen := LifeOf(s.trace, tx).seen;
      (StatusFor(s.children, e) == DbgExceptionNotHandled
       <==> e.kind.Exception? && !LoaderBreakpoint(seen + [e.kind], |seen|))
  {
    var seen := LifeOf(s.trace, tx).seen;
    assert forall j :: 0 <= j < |seen| ==> (seen + [e.kind])[j] == seen[j];
  }

  // -------------------------------------------------------------------- replies

  lemma {:induction false} RefuseReplies(trace: seq<Act>, arrivals: seq<Message>, tx: Tx)
    ensures Count(Refuse(trace, arrivals), RepliedFor(tx)) == Count(trace, RepliedFor(tx))
    ensures Count(Refuse(trace, arrivals), ReplyDroppedFor(tx))
         == Count(trace, ReplyDroppedFor(tx)) + Count(arrivals, Awaits(tx))
    decreases |arrivals|
  {
    if arrivals != [] {
      CountFirst(arrivals, Awaits(tx));
      match arrivals[0]
      case Shutdown => RefuseReplies(trace, arrivals[1..], tx);
      case Spawn(req, respTx) =>
        CountPush(trace, Dropped(req.exitTx), None, ReplyDropped(respTx), RepliedFor(tx));
        CountPush(trace, Dropped(req.exitTx), None, ReplyDropped(respTx), ReplyDroppedFor(tx));
        RefuseReplies(trace + [Dropped(req.exitTx)] + [ReplyDropped(respTx)], arrivals[1..], tx);
    }
  }

  lemma {:induction false} ReceiveReplies(s: PumpState, m: Message, creation: Creation, tx: Tx)
    ensures
      var t := Receive(s, m, creation);
      && Count(t.trace, RepliedFor(tx)) == Count(s.trace, RepliedFor(tx)) + (if Awaits(tx)(m) then 1 else 0)
      && Count(t.trace, ReplyDroppedFor(tx)) == Count(s.trace, ReplyDroppedFor(tx))
  {
    if m.Spawn? {
      var replied := Replied(m.respTx, creation);
      match creation
      case CreateFailed(_) =>
        CountPush(s.trace, replied, None, Dropped(m.req.exitTx), RepliedFor(tx));
        CountPush(s.trace, replied, None, Dropped(m.req.exitTx), ReplyDroppedFor(tx));
      case Created(pid) =>
        var displaced := if pid in s.children then Some(Dropped(s.children[pid].exitTx)) else None;
        var inserted := Inserted(pid, m.req.exitTx, m.req.affinityMask);
        CountPush(s.trace, inserted, displaced, replied, RepliedFor(tx));
        CountPush(s.trace, inserted, displaced, replied, ReplyDroppedFor(tx));
    }
  }

  lemma {:induction false} DispatchReplies(s: PumpState, e: DebugEvent, tx: Tx)
    ensures Count(Dispatch(s, e).trace, RepliedFor(tx)) == Count(s.trace, RepliedFor(tx))
    ensures Count(Dispatch(s, e).trace, ReplyDroppedFor(tx)) == Count(s.trace, ReplyDroppedFor(tx))
  {
    var act, status := ActFor(s.children, e), Continued(e.pid, e.tid, StatusFor(s.children, e));
    CountPush(s.trace, Got(e), act, status, RepliedFor(tx));
    CountPush(s.trace, Got(e), act, status, ReplyDroppedFor(tx));
  }

  lemma {:induction false} ServedReplies(s: PumpState, creation: Creation, tx: Tx)
    ensures ReplyPlaces(Served(s, creation), tx) == ReplyPlaces(s, tx)
  {
    if s.queue != [] {
      CountFirst(s.queue, Awaits(tx));
      ReceiveReplies(s.(queue := s.queue[1..]), s.queue[0], creation, tx);
    }
  }

  lemma {:induction false} IterateReplies(s: PumpState, r: Round, tx: Tx)
    requires s.running
    ensures ReplyPlaces(Iterate(s, r), tx) == ReplyPlaces(s, tx)
  {
    ServedReplies(s, r.creation, tx);
    if r.event.Some? {
      DispatchReplies(Served(s, r.creation), r.event.value, tx);
    }
  }

  lemma {:induction false} StepReplies(s: PumpState, r: Round, tx: Tx)
    ensures ReplyPlaces(Step(s, r), tx) == ReplyPlaces(s, tx) + Count(r.arrivals, Awaits(tx))
  {
    if !s.running {
      RefuseReplies(s.trace, r.arrivals, tx);
    } else {
      CountConcat(s.queue, r.arrivals, Awaits(tx));
      IterateReplies(s.(queue := s.queue + r.arrivals), r, tx);
    }
  }

  /** Over every run, each reply sender is still queued, has been used exactly once, or has
      been dropped; so `spawn_child` gets one answer, or an error once the thread is gone. */
  lemma {:induction false} RepliesConserved(rounds: seq<Round>, tx: Tx)
    ensures ReplyPlaces(Run(INITIAL, rounds), tx) == Count(HandedOver(rounds), Awaits(tx))
  {
    if rounds != [] {
      var front, r := rounds[..|rounds| - 1], rounds[|rounds| - 1];
      RepliesConserved(front, tx);
      StepReplies(Run(INITIAL, front), r, tx);
      CountConcat(HandedOver(front), r.arrivals, Awaits(tx));
    }
  }

  // -------------------------------------------------------------------- progress

  predicate NoShutdown(queue: seq<Message>, n: nat)
    requires n <= |queue|
  {
    forall i :: 0 <= i < n ==> queue[i] != Shutdown
  }

  /** An iteration with a message waiting takes that message and no other. */
  lemma {:induction false} IterateTakesOne(s: PumpState, r: Round)
    requires s.running && s.queue != []
    ensures Iterate(s, r).queue == s.queue[1..]
    ensures Iterate(s, r).running <==> s.queue[0] != Shutdown
  {}

  lemma {:induction false} TakeNext(queue: seq<Message>, n: nat, come: seq<Message>, arrivals: seq<Message>)
    requires n < |queue|
    ensures var all := queue[n..] + come + arrivals;
      all != [] && all[0] == queue[n] && all[1..] == queue[n + 1..] + (come + arrivals)
  {}

  /** As long as messages other than `Shutdown` are waiting, each iteration takes one. */
  lemma {:induction false} OneMessageEach(s: PumpState, rounds: seq<Round>)
    requires s.running && |rounds| <= |s.queue| && NoShutdown(s.queue, |rounds|)
    ensures Run(s, rounds).running
    ensures Run(s, rounds).queue == s.queue[|rounds|..] + HandedOver(rounds)
  {
    if rounds == [] {
      assert s.queue[0..] + [] == s.queue;
    } else {
      var n := |rounds| - 1;
      OneMessageEach(s, rounds[..n]);
      var t := Run(s, rounds[..n]);
      TakeNext(s.queue, n, HandedOver(rounds[..n]), rounds[n].arrivals);
      IterateTakesOne(t.(queue := t.queue + rounds[n].arrivals), rounds[n]);
    }
  }

  lemma {:induction false} StaysReturned(s: PumpState, rounds: seq<Round>, n: nat)
    requires n <= |rounds| && !Run(s, rounds[..n]).running
    ensures !Run(s, rounds).running
    decreases |rounds|
  {
    if n < |rounds| {
      var front := rounds[..|rounds| - 1];
      assert front[..n] == rounds[..n];
      StaysReturned(s, front, n);
    } else {
      assert rounds[..n] == rounds;
    }
  }

  /** With n messages ahead of `Shutdown` the loop returns in iteration n + 1, neither earlier
      nor later, whatever debug events, creations and arrivals occur meanwhile. */
  lemma {:induction false} ShutdownIsPrompt(s: PumpState, rounds: seq<Round>, n: nat)
    requires s.running && n < |s.queue| && s.queue[n] == Shutdown && NoShutdown(s.queue, n)
    ensures Run(s, rounds).running <==> |rounds| <= n
  {
    if |rounds| <= n {
      OneMessageEach(s, rounds);
    } else {
      var t := Run(s, rounds[..n]);
      OneMessageEach(s, rounds[..n]);
      TakeNext(s.queue, n, HandedOver(rounds[..n]), rounds[n].arrivals);
      IterateTakesOne(t.(queue := t.queue + rounds[n].arrivals), rounds[n]);
      assert rounds[..n + 1][..n] == rounds[..n];
      StaysReturned(s, rounds, n + 1);
    }
  }

  /** What has been replied on a reply sender, in order. */
  function Replies(trace: seq<Act>, tx: Tx): seq<Creation> {
    if trace == [] then []
    else
      var front, a := trace[..|trace| - 1], trace[|trace| - 1];
      if a.Replied? && a.respTx == tx then Replies(front, tx) + [a.creation] else Replies(front, tx)
  }

  lemma {:induction false} RepliesSnoc(trace: seq<Act>, a: Act, tx: Tx)
    ensures Replies(trace + [a], tx)
         == if a.Replied? && a.respTx == tx then Replies(trace, tx) + [a.creation] else Replies(trace, tx)
  {}

  lemma {:induction false} RepliesPush(trace: seq<Act>, first: Act, act: Option<Act>, last: Act, tx: Tx)
    requires act.Some? ==> !act.value.Replied?
    ensures Replies(Push(trace + [first], act) + [last], tx)
         == Replies(trace, tx)
            + (if first.Replied? && first.respTx == tx then [first.creation] else [])
            + (if last.Replied? && last.respTx == tx then [last.creation] else [])
  {
    RepliesSnoc(trace, first, tx);
    if act.Some? {
      RepliesSnoc(trace + [first], act.value, tx);
    }
    RepliesSnoc(Push(trace + [first], act), last, tx);
  }

  lemma {:induction false} SpawnReplies(s: PumpState, req: SpawnRequest, respTx: Tx, creation: Creation)
    ensures Replies(Receive(s, Spawn(req, respTx), creation).trace, respTx)
         == Replies(s.trace, respTx) + [creation]
  {
    var replied := Replied(respTx, creation);
    match creation
    case CreateFailed(_) =>
      RepliesPush(s.trace, replied, None, Dropped(req.exitTx), respTx);
    case Created(pid) =>
      var displaced := if pid in s.children then Some(Dropped(s.children[pid].exitTx)) else None;
      RepliesPush(s.trace, Inserted(pid, req.exitTx, req.affinityMask), displaced, replied, respTx);
  }

  lemma {:induction false} DispatchAnswersNobody(s: PumpState, e: DebugEvent, tx: Tx)
    ensures Replies(Dispatch(s, e).trace, tx) == Replies(s.trace, tx)
  {
    RepliesPush(s.trace, Got(e), ActFor(s.children, e),
                Continued(e.pid, e.tid, StatusFor(s.children, e)), tx);
  }

  lemma {:induction false} RepliesCounted(trace: seq<Act>, tx: Tx)
    ensures |Replies(trace, tx)| == Count(trace, RepliedFor(tx))
  {
    if trace != [] {
      RepliesCounted(trace[..|trace| - 1], tx);
    }
  }

  lemma {:induction false} IterateAnswers(s: PumpState, r: Round)
    requires s.running && s.queue != [] && s.queue[0].Spawn?
    ensures var resp := s.queue[0].respTx;
      Replies(Iterate(s, r).trace, resp) == Replies(s.trace, resp) + [r.creation]
  {
    var m := s.queue[0];
    SpawnReplies(s.(queue := s.queue[1..]), m.req, m.respTx, r.creation);
    if r.event.Some? {
      DispatchAnswersNobody(Served(s, r.creation), r.event.value, m.respTx);
    }
  }

  /** A spawn request with k messages and no `Shutdown` ahead of it is answered in iteration
      k + 1, once, by what its creation yields. */
  lemma {:induction false} SpawnIsAnswered(s: PumpState, rounds: seq<Round>, k: nat)
    requires s.running && k < |s.queue| && s.queue[k].Spawn? && NoShutdown(s.queue, k)
    requires |rounds| == k + 1
    ensures
      var resp, before, after := s.queue[k].respTx, Run(s, rounds[..k]), Run(s, rounds);
      && Replies(after.trace, resp) == Replies(before.trace, resp) + [rounds[k].creation]
      && Count(after.trace, RepliedFor(resp)) == Count(before.trace, RepliedFor(resp)) + 1
  {
    OneMessageEach(s, rounds[..k]);
    var t := Run(s, rounds[..k]);
    TakeNext(s.queue, k, HandedOver(rounds[..k]), rounds[k].arrivals);
    IterateAnswers(t.(queue := t.queue + rounds[k].arrivals), rounds[k]);
    RepliesCounted(t.trace, s.queue[k].respTx);
    RepliesCounted(Run(s, rounds).trace, s.queue[k].respTx);
  }
}
