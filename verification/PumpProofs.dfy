/** Theorems about every run of the debug pump. */
module PumpProofs {
  import opened Termination
  import opened Counting
  import opened Pump

  // ---------------------------------------------------- one child, on its own

  /** What becomes of the child whose exit sender is `tx`: the events under its process id
      from the moment its entry is inserted until it ends or is displaced. */
  datatype Life =
    | Unborn
    | Alive(pid: Pid, mask: nat, seen: seq<EventKind>)
    | Ended(pid: Pid, mask: nat, seen: seq<EventKind>)
    | Displaced(pid: Pid, mask: nat, seen: seq<EventKind>)

  predicate Terminal(k: EventKind) {
    k.ExitProcess? || k.Rip?
  }

  function LifeStep(life: Life, tx: Tx, a: Act): Life {
    match a
    case Inserted(pid, exitTx, mask) =>
      if exitTx == tx then Alive(pid, mask, [])
      else if life.Alive? && life.pid == pid then Displaced(pid, life.mask, life.seen)
      else life
    case Got(e) =>
      if life.Alive? && life.pid == e.pid then
        if Terminal(e.kind) then Ended(life.pid, life.mask, life.seen + [e.kind])
        else Alive(life.pid, life.mask, life.seen + [e.kind])
      else life
    case _ => life
  }

  function LifeOf(trace: seq<Act>, tx: Tx): Life {
    if trace == [] then Unborn
    else LifeStep(LifeOf(trace[..|trace| - 1], tx), tx, trace[|trace| - 1])
  }

  predicate IsBreakpoint(k: EventKind) {
    k.Exception? && AsU32(k.code) == 0x8000_0003
  }

  /** The first breakpoint exception, and no other, is the loader breakpoint. */
  predicate LoaderBreakpoint(seen: seq<EventKind>, i: nat)
    requires i < |seen|
  {
    IsBreakpoint(seen[i]) && forall j :: 0 <= j < i ==> !IsBreakpoint(seen[j])
  }

  /** Second-chance exceptions other than the loader breakpoint count against the child. */
  predicate CountsAgainst(seen: seq<EventKind>, i: nat)
    requires i < |seen|
  {
    seen[i].Exception? && !seen[i].firstChance && !LoaderBreakpoint(seen, i)
  }

  predicate HitBreakpoint(seen: seq<EventKind>) {
    exists i :: 0 <= i < |seen| && IsBreakpoint(seen[i])
  }

  /** The index of the last event that counts against the child. */
  function Blame(seen: seq<EventKind>, upTo: nat): (r: Option<nat>)
    requires upTo <= |seen|
    ensures r.None? <==> forall i :: 0 <= i < upTo ==> !CountsAgainst(seen, i)
    ensures r.Some? ==>
      && r.value < upTo && CountsAgainst(seen, r.value)
      && forall i :: r.value < i < upTo ==> !CountsAgainst(seen, i)
  {
    if upTo == 0 then None
    else if CountsAgainst(seen, upTo - 1) then Some(upTo - 1)
    else Blame(seen, upTo - 1)
  }

  predicate IsFastFailCode(code: U32) {
    code == 0xC000_0409 || code == 0x4000_0015
  }

  /** Why a child ended, in terms of its own events alone. */
  function Verdict(seen: seq<EventKind>): Option<TerminationReason> {
    if seen == [] then None
    else
      match seen[|seen| - 1]
      case Rip => Some(ExternalKill(ExitStatus(1)))
      case ExitProcess(exitCode) =>
        (match Blame(seen, |seen|)
         case None => Some(Unknown(ExitStatus(exitCode)))
         case Some(i) =>
           var code := AsU32(seen[i].code);
           if IsFastFailCode(code) then Some(FastFail(code)) else Some(Crash(code, seen[i].address)))
      case _ => None
  }

  /** The entry the table must hold for a living child. */
  function EntryFor(seen: seq<EventKind>, mask: nat, tx: Tx): ChildEntry {
    var blamed := Blame(seen, |seen|);
    ChildEntry(if blamed.None? then None else Some(Recorded(seen[blamed.value])),
               HitBreakpoint(seen), mask, tx)
  }

  function Recorded(k: EventKind): PendingException
    requires k.Exception?
  {
    PendingException(k.code, k.address, IsFastFailCode(AsU32(k.code)))
  }

  // ------------------------------------------------------- reading the trace

  /** The reasons delivered on an exit channel, in order. */
  function Delivered(trace: seq<Act>, tx: Tx): seq<TerminationReason> {
    if trace == [] then []
    else
      var front, a := trace[..|trace| - 1], trace[|trace| - 1];
      if a.Sent? && a.exitTx == tx then Delivered(front, tx) + [a.reason] else Delivered(front, tx)
  }

  /** The affinity masks applied to the child whose exit sender is `tx`, in order. */
  function MasksSet(trace: seq<Act>, tx: Tx): seq<nat> {
    if trace == [] then []
    else
      var front, a := trace[..|trace| - 1], trace[|trace| - 1];
      if a.AffinitySet? && a.exitTx == tx then MasksSet(front, tx) + [a.mask] else MasksSet(front, tx)
  }

  function InsertedFor(tx: Tx): Act -> bool { (a: Act) => a.Inserted? && a.exitTx == tx }
  function DroppedFor(tx: Tx): Act -> bool { (a: Act) => a.Dropped? && a.exitTx == tx }
  function RepliedFor(tx: Tx): Act -> bool { (a: Act) => a.Replied? && a.respTx == tx }
  function ReplyDroppedFor(tx: Tx): Act -> bool { (a: Act) => a.ReplyDropped? && a.respTx == tx }

  /** Requests that carry `tx` as their exit sender, and as their reply sender. */
  function Carries(tx: Tx): Message -> bool { (m: Message) => m.Spawn? && m.req.exitTx == tx }
  function Awaits(tx: Tx): Message -> bool { (m: Message) => m.Spawn? && m.respTx == tx }

  /** One more act, as the readings of the trace see it. */
  lemma {:induction false} Snoc(trace: seq<Act>, a: Act, tx: Tx)
    ensures LifeOf(trace + [a], tx) == LifeStep(LifeOf(trace, tx), tx, a)
    ensures Delivered(trace + [a], tx)
         == if a.Sent? && a.exitTx == tx then Delivered(trace, tx) + [a.reason] else Delivered(trace, tx)
    ensures MasksSet(trace + [a], tx)
         == if a.AffinitySet? && a.exitTx == tx then MasksSet(trace, tx) + [a.mask] else MasksSet(trace, tx)
  {}

  lemma {:induction false} NotInserted(trace: seq<Act>, tx: Tx)
    requires Count(trace, InsertedFor(tx)) == 0
    ensures LifeOf(trace, tx).Unborn?
  {
    if trace != [] {
      NotInserted(trace[..|trace| - 1], tx);
    }
  }

  // ---------------------------------------------------------- the refinement

  /** The shared table, seen from one child: it holds that child's entry exactly while the
      child lives, the entry is what the child's own events call for, and what has been sent
      and set on its behalf is what its own events call for. */
  ghost predicate Refines(s: PumpState, tx: Tx) {
    var life := LifeOf(s.trace, tx);
    && TableHolds(s.children, life, tx)
    && OutputsDue(s.trace, life, tx)
  }

  ghost predicate TableHolds(children: map<Pid, ChildEntry>, life: Life, tx: Tx) {
    && (life.Alive? ==> life.pid in children
                        && children[life.pid] == EntryFor(life.seen, life.mask, tx))
    && (forall p :: p in children && children[p].exitTx == tx ==> life.Alive? && life.pid == p)
  }

  predicate OutputsDue(trace: seq<Act>, life: Life, tx: Tx) {
    && (life.Ended? ==> Verdict(life.seen).Some?)
    && Delivered(trace, tx) == (if life.Ended? then [Verdict(life.seen).value] else [])
    && MasksSet(trace, tx)
       == (if !life.Unborn? && life.mask != 0 && HitBreakpoint(life.seen) then [life.mask] else [])
  }

  lemma {:induction false} BlameAppend(seen: seq<EventKind>, k: EventKind, upTo: nat)
    requires upTo <= |seen|
    ensures Blame(seen + [k], upTo) == Blame(seen, upTo)
  {
    var longer := seen + [k];
    forall i | 0 <= i < upTo ensures CountsAgainst(longer, i) == CountsAgainst(seen, i) {
      assert LoaderBreakpoint(longer, i) == LoaderBreakpoint(seen, i) by {
        assert forall j :: 0 <= j <= i ==> longer[j] == seen[j];
      }
    }
  }

  lemma {:induction false} FastFailCodes(code: I32)
    ensures IsFastFailCode(AsU32(code)) <==> code == STACK_BUFFER_OVERRUN || code == FATAL_APP_EXIT
  {}

  lemma {:induction false} BreakpointAfter(seen: seq<EventKind>, k: EventKind)
    ensures HitBreakpoint(seen + [k]) <==> HitBreakpoint(seen) || IsBreakpoint(k)
    ensures LoaderBreakpoint(seen + [k], |seen|) <==> IsBreakpoint(k) && !HitBreakpoint(seen)
  {
    var longer, n := seen + [k], |seen|;
    assert longer[n] == k && forall j :: 0 <= j < n ==> longer[j] == seen[j];
    if i :| 0 <= i < n && IsBreakpoint(seen[i]) {
      assert IsBreakpoint(longer[i]);
    }
  }

  lemma {:induction false} BlameAfter(seen: seq<EventKind>, k: EventKind)
    ensures
      var blamed := Blame(seen, |seen|);
      && Blame(seen + [k], |seen| + 1) ==
           (if k.Exception? && !k.firstChance && !(IsBreakpoint(k) && !HitBreakpoint(seen)) then Some(|seen|)
            else blamed)
      && (blamed.Some? ==> (seen + [k])[blamed.value] == seen[blamed.value])
  {
    BreakpointAfter(seen, k);
    BlameAppend(seen, k, |seen|);
  }

  /** One more event in a child's life, and the entry it calls for. */
  lemma {:induction false} EntryAfter(seen: seq<EventKind>, k: EventKind, mask: nat, tx: Tx)
    ensures
      var e := EntryFor(seen, mask, tx);
      EntryFor(seen + [k], mask, tx)
        == if k.Exception? then EntryStep(e, k.code, k.address, k.firstChance) else e
    ensures HitBreakpoint(seen + [k]) <==> HitBreakpoint(seen) || IsBreakpoint(k)
  {
    if k.Exception? {
      FastFailCodes(k.code);
    }
    BreakpointAfter(seen, k);
    BlameAfter(seen, k);
  }

  /** The classification from the table entry is the verdict from the child's own events. */
  lemma {:induction false} VerdictAfter(seen: seq<EventKind>, k: EventKind, mask: nat, tx: Tx)
    requires Terminal(k)
    ensures Verdict(seen + [k]) == Some(
      if k.Rip? then ExternalKill(ExitStatus(1))
      else ClassifyExit(EntryFor(seen, mask, tx).pending, k.exitCode))
  {
    EntryAfter(seen, k, mask, tx);
    BlameAppend(seen, k, |seen|);
  }

  /** How the readings of the trace change when at most one act follows another. */
  lemma {:induction false} SnocPush(trace: seq<Act>, first: Act, act: Option<Act>, last: Act, tx: Tx)
    requires first.Got? || first.Inserted?
    requires act.Some? ==> act.value.AffinitySet? || act.value.Sent? || act.value.Dropped?
    requires last.Continued? || last.Replied?
    ensures
      var after := Push(trace + [first], act) + [last];
      var mine := act.Some? && act.value.exitTx == tx;
      && LifeOf(after, tx) == LifeStep(LifeOf(trace, tx), tx, first)
      && Delivered(after, tx)
         == (if mine && act.value.Sent? then Delivered(trace, tx) + [act.value.reason] else Delivered(trace, tx))
      && MasksSet(after, tx)
         == (if mine && act.value.AffinitySet? then MasksSet(trace, tx) + [act.value.mask] else MasksSet(trace, tx))
  {
    Snoc(trace, first, tx);
    if act.Some? {
      Snoc(trace + [first], act.value, tx);
    }
    Snoc(Push(trace + [first], act), last, tx);
  }

  lemma {:induction false} CountPush(trace: seq<Act>, first: Act, act: Option<Act>, last: Act, f: Act -> bool)
    ensures Count(Push(trace + [first], act) + [last], f)
         == Count(trace, f) + (if f(first) then 1 else 0) + (if act.Some? && f(act.value) then 1 else 0)
            + (if f(last) then 1 else 0)
  {
    CountSnoc(trace, first, f);
    if act.Some? {
      CountSnoc(trace + [first], act.value, f);
    }
    CountSnoc(Push(trace + [first], act), last, f);
  }

  lemma {:induction false} TableOthers(children: map<Pid, ChildEntry>, e: DebugEvent, life: Life, tx: Tx)
    requires TableHolds(children, life, tx) && !(life.Alive? && life.pid == e.pid)
    ensures TableHolds(TableAfter(children, e), life, tx)
  {}

  lemma {:induction false} DispatchOthers(s: PumpState, e: DebugEvent, tx: Tx)
    requires Refines(s, tx)
    requires var life := LifeOf(s.trace, tx); !(life.Alive? && life.pid == e.pid)
    ensures Refines(Dispatch(s, e), tx)
  {
    var act := ActFor(s.children, e);
    SnocPush(s.trace, Got(e), act, Continued(e.pid, e.tid, StatusFor(s.children, e)), tx);
    assert act.Some? ==> act.value.exitTx != tx;
    TableOthers(s.children, e, LifeOf(s.trace, tx), tx);
  }

  lemma {:induction false} OwnEntry(children: map<Pid, ChildEntry>, e: DebugEvent, life: Life, tx: Tx)
    requires TableHolds(children, life, tx) && life.Alive? && life.pid == e.pid
    ensures TableHolds(TableAfter(children, e), LifeStep(life, tx, Got(e)), tx)
  {
    EntryAfter(life.seen, e.kind, life.mask, tx);
  }

  /** What a child's own event makes the thread do: send the verdict of its events at its end, set
      its non-zero affinity mask at its first breakpoint. */
  lemma {:induction false} OwnAct(children: map<Pid, ChildEntry>, e: DebugEvent, life: Life, tx: Tx)
    requires TableHolds(children, life, tx) && life.Alive? && life.pid == e.pid
    ensures
      var verdict := Verdict(life.seen + [e.kind]);
      && (Terminal(e.kind) ==> verdict.Some?)
      && ActFor(children, e) ==
           if Terminal(e.kind) then Some(Sent(tx, verdict.value))
           else if IsBreakpoint(e.kind) && !HitBreakpoint(life.seen) && life.mask != 0
           then Some(AffinitySet(life.pid, tx, life.mask))
           else None
  {
    if Terminal(e.kind) {
      VerdictAfter(life.seen, e.kind, life.mask, tx);
    }
  }

  lemma {:induction false} DispatchOwn(s: PumpState, e: DebugEvent, tx: Tx)
    requires Refines(s, tx)
    requires var life := LifeOf(s.trace, tx); life.Alive? && life.pid == e.pid
    ensures Refines(Dispatch(s, e), tx)
  {
    var life := LifeOf(s.trace, tx);
    var act := ActFor(s.children, e);
    SnocPush(s.trace, Got(e), act, Continued(e.pid, e.tid, StatusFor(s.children, e)), tx);
    OwnEntry(s.children, e, life, tx);
    OwnAct(s.children, e, life, tx);
    BreakpointAfter(life.seen, e.kind);
  }

  lemma {:induction false} DispatchRefines(s: PumpState, e: DebugEvent, tx: Tx)
    requires Refines(s, tx)
    ensures Refines(Dispatch(s, e), tx)
  {
    var life := LifeOf(s.trace, tx);
    if life.Alive? && life.pid == e.pid {
      DispatchOwn(s, e, tx);
    } else {
      DispatchOthers(s, e, tx);
    }
  }

  lemma {:induction false} TableInsert(children: map<Pid, ChildEntry>, pid: Pid, req: SpawnRequest, life: Life, tx: Tx)
    requires TableHolds(children, life, tx) && (req.exitTx == tx ==> life.Unborn?)
    ensures TableHolds(children[pid := ChildEntry(None, false, req.affinityMask, req.exitTx)],
                       LifeStep(life, tx, Inserted(pid, req.exitTx, req.affinityMask)), tx)
  {}

  lemma {:induction false} CreatedRefines(s: PumpState, req: SpawnRequest, respTx: Tx, pid: Pid, tx: Tx)
    requires Refines(s, tx) && (req.exitTx == tx ==> LifeOf(s.trace, tx).Unborn?)
    ensures Refines(Receive(s, Spawn(req, respTx), Created(pid)), tx)
  {
    var displaced := if pid in s.children then Some(Dropped(s.children[pid].exitTx)) else None;
    var inserted := Inserted(pid, req.exitTx, req.affinityMask);
    SnocPush(s.trace, inserted, displaced, Replied(respTx, Created(pid)), tx);
    TableInsert(s.children, pid, req, LifeOf(s.trace, tx), tx);
  }

  /** A sender is inserted at most once, so it is not in the table when it arrives. */
  lemma {:induction false} ReceiveRefines(s: PumpState, m: Message, creation: Creation, tx: Tx)
    requires Refines(s, tx)
    requires Carries(tx)(m) ==> Count(s.trace, InsertedFor(tx)) == 0
    ensures Refines(Receive(s, m, creation), tx)
  {
    if Carries(tx)(m) {
      NotInserted(s.trace, tx);
    }
    if m.Spawn? {
      if creation.Created? {
        CreatedRefines(s, m.req, m.respTx, creation.pid, tx);
      } else {
        var replied := Replied(m.respTx, creation);
        Snoc(s.trace, replied, tx);
        Snoc(s.trace + [replied], Dropped(m.req.exitTx), tx);
      }
    }
  }

  // --------------------------------------------------- conservation of senders

  function HeldFor(tx: Tx): ChildEntry -> bool { (c: ChildEntry) => c.exitTx == tx }

  /** In how many places the exit sender `tx` is: queued, tabled, used to send, dropped. */
  function Places(s: PumpState, tx: Tx): nat {
    Count(s.queue, Carries(tx)) + |Under(s.children, HeldFor(tx))| + |Delivered(s.trace, tx)|
      + Count(s.trace, DroppedFor(tx))
  }

  function ReplyPlaces(s: PumpState, tx: Tx): nat {
    Count(s.queue, Awaits(tx)) + Count(s.trace, RepliedFor(tx)) + Count(s.trace, ReplyDroppedFor(tx))
  }

  function HandedOver(rounds: seq<Round>): seq<Message> {
    if rounds == [] then []
    else HandedOver(rounds[..|rounds| - 1]) + rounds[|rounds| - 1].arrivals
  }

  lemma {:induction false} TableConserves(children: map<Pid, ChildEntry>, e: DebugEvent, tx: Tx)
    ensures |Under(TableAfter(children, e), HeldFor(tx))|
         == |Under(children, HeldFor(tx))|
            - if e.pid in children && children[e.pid].exitTx == tx && Terminal(e.kind) then 1 else 0
  {
    if e.pid in children {
      if Terminal(e.kind) {
        UnderRemove(children, e.pid, HeldFor(tx));
      } else if e.kind.Exception? {
        UnderUpdate(children, e.pid, TableAfter(children, e)[e.pid], HeldFor(tx));
      }
    }
  }

  lemma {:induction false} DispatchCounts(s: PumpState, e: DebugEvent, tx: Tx)
    ensures Count(Dispatch(s, e).trace, InsertedFor(tx)) == Count(s.trace, InsertedFor(tx))
    ensures Count(Dispatch(s, e).trace, DroppedFor(tx)) == Count(s.trace, DroppedFor(tx))
  {
    var act, status := ActFor(s.children, e), Continued(e.pid, e.tid, StatusFor(s.children, e));
    CountPush(s.trace, Got(e), act, status, DroppedFor(tx));
    CountPush(s.trace, Got(e), act, status, InsertedFor(tx));
  }

  lemma {:induction false} DispatchConserves(s: PumpState, e: DebugEvent, tx: Tx)
    ensures Places(Dispatch(s, e), tx) == Places(s, tx)
    ensures Count(Dispatch(s, e).trace, InsertedFor(tx)) == Count(s.trace, InsertedFor(tx))
  {
    SnocPush(s.trace, Got(e), ActFor(s.children, e), Continued(e.pid, e.tid, StatusFor(s.children, e)), tx);
    DispatchCounts(s, e, tx);
    TableConserves(s.children, e, tx);
  }

  lemma {:induction false} CreatedConserves(s: PumpState, req: SpawnRequest, respTx: Tx, pid: Pid, tx: Tx)
    ensures
      var t := Receive(s, Spawn(req, respTx), Created(pid));
      var here := if req.exitTx == tx then 1 else 0;
      && Places(t, tx) == Places(s, tx) + here
      && Count(t.trace, InsertedFor(tx)) == Count(s.trace, InsertedFor(tx)) + here
  {
    var displaced := if pid in s.children then Some(Dropped(s.children[pid].exitTx)) else None;
    var inserted, replied := Inserted(pid, req.exitTx, req.affinityMask), Replied(respTx, Created(pid));
    SnocPush(s.trace, inserted, displaced, replied, tx);
    CountPush(s.trace, inserted, displaced, replied, DroppedFor(tx));
    CountPush(s.trace, inserted, displaced, replied, InsertedFor(tx));
    UnderUpdate(s.children, pid, ChildEntry(None, false, req.affinityMask, req.exitTx), HeldFor(tx));
  }

  lemma {:induction false} FailedConserves(s: PumpState, req: SpawnRequest, respTx: Tx, error: int, tx: Tx)
    ensures
      var t := Receive(s, Spawn(req, respTx), CreateFailed(error));
      && Places(t, tx) == Places(s, tx) + (if req.exitTx == tx then 1 else 0)
      && Count(t.trace, InsertedFor(tx)) == Count(s.trace, InsertedFor(tx))
  {
    var replied, dropped := Replied(respTx, CreateFailed(error)), Dropped(req.exitTx);
    Snoc(s.trace, replied, tx);
    Snoc(s.trace + [replied], dropped, tx);
    CountPush(s.trace, replied, None, dropped, DroppedFor(tx));
    CountPush(s.trace, replied, None, dropped, InsertedFor(tx));
  }

  lemma {:induction false} ReceiveConserves(s: PumpState, m: Message, creation: Creation, tx: Tx)
    ensures Places(Receive(s, m, creation), tx) == Places(s, tx) + if Carries(tx)(m) then 1 else 0
    ensures Count(Receive(s, m, creation).trace, InsertedFor(tx))
         <= Count(s.trace, InsertedFor(tx)) + if Carries(tx)(m) then 1 else 0
  {
    if m.Spawn? {
      match creation
      case CreateFailed(error) => FailedConserves(s, m.req, m.respTx, error, tx);
      case Created(pid) => CreatedConserves(s, m.req, m.respTx, pid, tx);
    }
  }

  lemma {:induction false} RefuseTrace(trace: seq<Act>, arrivals: seq<Message>, tx: Tx)
    ensures
      var after := Refuse(trace, arrivals);
      && LifeOf(after, tx) == LifeOf(trace, tx)
      && Delivered(after, tx) == Delivered(trace, tx)
      && MasksSet(after, tx) == MasksSet(trace, tx)
      && Count(after, InsertedFor(tx)) == Count(trace, InsertedFor(tx))
      && Count(after, DroppedFor(tx)) == Count(trace, DroppedFor(tx)) + Count(arrivals, Carries(tx))
    decreases |arrivals|
  {
    if arrivals != [] {
      CountFirst(arrivals, Carries(tx));
      match arrivals[0]
      case Shutdown => RefuseTrace(trace, arrivals[1..], tx);
      case Spawn(req, respTx) =>
        var dropped := trace + [Dropped(req.exitTx)];
        Snoc(trace, Dropped(req.exitTx), tx);
        Snoc(dropped, ReplyDropped(respTx), tx);
        CountPush(trace, Dropped(req.exitTx), None, ReplyDropped(respTx), InsertedFor(tx));
        CountPush(trace, Dropped(req.exitTx), None, ReplyDropped(respTx), DroppedFor(tx));
        RefuseTrace(dropped + [ReplyDropped(respTx)], arrivals[1..], tx);
    }
  }

  function Filed(s: PumpState, tx: Tx): nat {
    Count(s.trace, InsertedFor(tx)) + Count(s.queue, Carries(tx))
  }

  lemma {:induction false} ServedConserves(s: PumpState, creation: Creation, tx: Tx)
    ensures Places(Served(s, creation), tx) == Places(s, tx)
    ensures Filed(Served(s, creation), tx) <= Filed(s, tx)
  {
    if s.queue != [] {
      CountFirst(s.queue, Carries(tx));
      ReceiveConserves(s.(queue := s.queue[1..]), s.queue[0], creation, tx);
    }
  }

  /** One iteration changes nothing but where a sender is. */
  lemma {:induction false} IterateConserves(s: PumpState, r: Round, tx: Tx)
    requires s.running
    ensures Places(Iterate(s, r), tx) == Places(s, tx)
    ensures Filed(Iterate(s, r), tx) <= Filed(s, tx)
  {
    ServedConserves(s, r.creation, tx);
    if r.event.Some? {
      DispatchConserves(Served(s, r.creation), r.event.value, tx);
    }
  }

  lemma {:induction false} StepConserves(s: PumpState, r: Round, tx: Tx)
    ensures Places(Step(s, r), tx) == Places(s, tx) + Count(r.arrivals, Carries(tx))
    ensures Filed(Step(s, r), tx) <= Filed(s, tx) + Count(r.arrivals, Carries(tx))
  {
    if !s.running {
      RefuseTrace(s.trace, r.arrivals, tx);
    } else {
      CountConcat(s.queue, r.arrivals, Carries(tx));
      IterateConserves(s.(queue := s.queue + r.arrivals), r, tx);
    }
  }

  /** Over every run, each exit sender handed to the thread is in exactly one place: waiting
      in the channel, in the table, sent on, or dropped. */
  lemma {:induction false} SendersConserved(rounds: seq<Round>, tx: Tx)
    ensures Places(Run(INITIAL, rounds), tx) == Count(HandedOver(rounds), Carries(tx))
    ensures Filed(Run(INITIAL, rounds), tx) <= Count(HandedOver(rounds), Carries(tx))
  {
    if rounds == [] {
      assert Under(INITIAL.children, HeldFor(tx)) == {};
    } else {
      var front, r := rounds[..|rounds| - 1], rounds[|rounds| - 1];
      SendersConserved(front, tx);
      StepConserves(Run(INITIAL, front), r, tx);
      CountConcat(HandedOver(front), r.arrivals, Carries(tx));
    }
  }

  // -------------------------------------------------------- the refinement, ctd.

  lemma {:induction false} ServedRefines(s: PumpState, creation: Creation, tx: Tx)
    requires Refines(s, tx) && Filed(s, tx) <= 1
    ensures Refines(Served(s, creation), tx)
  {
    if s.queue != [] {
      CountFirst(s.queue, Carries(tx));
      ReceiveRefines(s.(queue := s.queue[1..]), s.queue[0], creation, tx);
    }
  }

  lemma {:induction false} IterateRefines(s: PumpState, r: Round, tx: Tx)
    requires s.running && Refines(s, tx) && Filed(s, tx) <= 1
    ensures Refines(Iterate(s, r), tx)
  {
    ServedRefines(s, r.creation, tx);
    if r.event.Some? {
      DispatchRefines(Served(s, r.creation), r.event.value, tx);
    }
  }

  lemma {:induction false} StepRefines(s: PumpState, r: Round, tx: Tx)
    requires Refines(s, tx) && Filed(s, tx) + Count(r.arrivals, Carries(tx)) <= 1
    ensures Refines(Step(s, r), tx)
  {
    if !s.running {
      RefuseTrace(s.trace, r.arrivals, tx);
    } else {
      CountConcat(s.queue, r.arrivals, Carries(tx));
      IterateRefines(s.(queue := s.queue + r.arrivals), r, tx);
    }
  }

  /** The shared table refines one independent machine per child: over every interleaving of
      spawns, debug events, timeouts and shutdowns, a child whose exit sender was handed over
      once gets the verdict of its own events, exactly once, when and only when it ends. */
  lemma {:induction false} TableRefinesChildren(rounds: seq<Round>, tx: Tx)
    requires Count(HandedOver(rounds), Carries(tx)) <= 1
    ensures Refines(Run(INITIAL, rounds), tx)
  {
    if rounds != [] {
      var front, r := rounds[..|rounds| - 1], rounds[|rounds| - 1];
      CountConcat(HandedOver(front), r.arrivals, Carries(tx));
      TableRefinesChildren(front, tx);
      SendersConserved(front, tx);
      StepRefines(Run(INITIAL, front), r, tx);
    }
  }

  /** What the receiving half of an exit channel finds, given that a thread that has returned
      has dropped its table and its channel with everything in them. */
  function ExitReceiver(s: PumpState, tx: Tx): Receiver<TerminationResult> {
    if Delivered(s.trace, tx) != [] then Holds(Ok(Delivered(s.trace, tx)[0]))
    else if Count(s.trace, DroppedFor(tx)) > 0 then Closed
    else if !s.running && (Count(s.queue, Carries(tx)) > 0 || Under(s.children, HeldFor(tx)) != {}) then Closed
    else Open
  }

  /** A capacity-one exit channel never gets a second message, so no send can block; and once
      the thread has returned, on any path, no waiter is left with an open, empty channel. */
  lemma {:induction false} NoWaiterStranded(rounds: seq<Round>, tx: Tx)
    requires Count(HandedOver(rounds), Carries(tx)) == 1
    ensures var s := Run(INITIAL, rounds);
      && |Delivered(s.trace, tx)| + Count(s.trace, DroppedFor(tx)) <= 1
      && (ExitReceiver(s, tx).Open? <==>
            s.running && (Count(s.queue, Carries(tx)) == 1 || |Under(s.children, HeldFor(tx))| == 1))
  {
    SendersConserved(rounds, tx);
  }

  /** The channel of a child that ended holds the verdict of its own events; the channel of
      one that did not holds nothing, and is closed once the thread has returned. */
  lemma {:induction false} ReceiverGetsVerdict(rounds: seq<Round>, tx: Tx)
    requires Count(HandedOver(rounds), Carries(tx)) == 1
    ensures
      var s := Run(INITIAL, rounds);
      var life := LifeOf(s.trace, tx);
      && (life.Ended? ==> Verdict(life.seen).Some? && ExitReceiver(s, tx) == Holds(Ok(Verdict(life.seen).value)))
      && (!life.Ended? ==> !ExitReceiver(s, tx).Holds?)
      && (!life.Ended? && !s.running ==> ExitReceiver(s, tx) == Closed)
  {
    TableRefinesChildren(rounds, tx);
    NoWaiterStranded(rounds, tx);
  }

  // ------------------------------------------------------------------ short runs

  /** A child is created and has its first event in the same iteration. */
  function SpawnThen(pid: Pid, tid: U32, req: SpawnRequest, respTx: Tx, kind: EventKind): Round {
    Round([Spawn(req, respTx)], true, Created(pid), Some(DebugEvent(pid, tid, kind)))
  }

  lemma {:induction false} SpawnThenState(pid: Pid, tid: U32, req: SpawnRequest, respTx: Tx, kind: EventKind)
    ensures
      var born := Receive(INITIAL, Spawn(req, respTx), Created(pid));
      Run(INITIAL, [SpawnThen(pid, tid, req, respTx, kind)]) == Dispatch(born, DebugEvent(pid, tid, kind))
  {
    var rounds, request := [SpawnThen(pid, tid, req, respTx, kind)], Spawn(req, respTx);
    assert rounds[..0] == [];
    assert INITIAL.queue + [request] == [request] && [request][1..] == [];
  }

  lemma {:induction false} SpawnThenRun(pid: Pid, tid: U32, req: SpawnRequest, respTx: Tx, kind: EventKind)
    ensures
      var rounds := [SpawnThen(pid, tid, req, respTx, kind)];
      && Count(HandedOver(rounds), Carries(req.exitTx)) == 1
      && Run(INITIAL, rounds).running
      && LifeOf(Run(INITIAL, rounds).trace, req.exitTx)
         == if Terminal(kind) then Ended(pid, req.affinityMask, [kind]) else Alive(pid, req.affinityMask, [kind])
  {
    var rounds := [SpawnThen(pid, tid, req, respTx, kind)];
    assert rounds[..0] == [];
    assert HandedOver(rounds) == [] + [Spawn(req, respTx)];
    CountSnoc([], Spawn(req, respTx), Carries(req.exitTx));
    SpawnThenState(pid, tid, req, respTx, kind);
    SpawnThenLife(pid, tid, req, respTx, kind);
  }

  lemma {:induction false} DispatchLives(s: PumpState, e: DebugEvent, tx: Tx)
    ensures LifeOf(Dispatch(s, e).trace, tx) == LifeStep(LifeOf(s.trace, tx), tx, Got(e))
  {
    SnocPush(s.trace, Got(e), ActFor(s.children, e), Continued(e.pid, e.tid, StatusFor(s.children, e)), tx);
  }

  lemma {:induction false} CreatedLives(s: PumpState, req: SpawnRequest, respTx: Tx, pid: Pid, tx: Tx)
    ensures LifeOf(Receive(s, Spawn(req, respTx), Created(pid)).trace, tx)
         == LifeStep(LifeOf(s.trace, tx), tx, Inserted(pid, req.exitTx, req.affinityMask))
  {
    var displaced := if pid in s.children then Some(Dropped(s.children[pid].exitTx)) else None;
    SnocPush(s.trace, Inserted(pid, req.exitTx, req.affinityMask), displaced, Replied(respTx, Created(pid)), tx);
  }

  lemma {:induction false} SpawnThenLife(pid: Pid, tid: U32, req: SpawnRequest, respTx: Tx, kind: EventKind)
    ensures
      var born := Receive(INITIAL, Spawn(req, respTx), Created(pid));
      LifeOf(Dispatch(born, DebugEvent(pid, tid, kind)).trace, req.exitTx)
        == if Terminal(kind) then Ended(pid, req.affinityMask, [kind]) else Alive(pid, req.affinityMask, [kind])
  {
    var born := Receive(INITIAL, Spawn(req, respTx), Created(pid));
    CreatedLives(INITIAL, req, respTx, pid, req.exitTx);
    DispatchLives(born, DebugEvent(pid, tid, kind), req.exitTx);
    assert [] + [kind] == [kind];
  }

  /** The same, and then `Shutdown` arrives. */
  function SpawnThenShutdown(pid: Pid, tid: U32, req: SpawnRequest, respTx: Tx, kind: EventKind): seq<Round> {
    [SpawnThen(pid, tid, req, respTx, kind), Round([Shutdown], true, CreateFailed(0), None)]
  }

  lemma {:induction false} SpawnThenShutdownRun(pid: Pid, tid: U32, req: SpawnRequest, respTx: Tx, kind: EventKind)
    requires !Terminal(kind)
    ensures
      var rounds := SpawnThenShutdown(pid, tid, req, respTx, kind);
      && Count(HandedOver(rounds), Carries(req.exitTx)) == 1
      && !Run(INITIAL, rounds).running
      && LifeOf(Run(INITIAL, rounds).trace, req.exitTx) == Alive(pid, req.affinityMask, [kind])
  {
    var rounds := SpawnThenShutdown(pid, tid, req, respTx, kind);
    var front := [SpawnThen(pid, tid, req, respTx, kind)];
    assert rounds[..1] == front;
    SpawnThenRun(pid, tid, req, respTx, kind);
    SpawnThenState(pid, tid, req, respTx, kind);
    var s := Run(INITIAL, front);
    assert Run(INITIAL, rounds) == s.(running := false) by {
      assert s.queue + [Shutdown] == [Shutdown] && [Shutdown][1..] == [];
    }
    CountSnoc(HandedOver(front), Shutdown, Carries(req.exitTx));
  }
}
