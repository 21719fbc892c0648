/** The debug pump: one thread that serves spawn requests and debug events for every
    debugged child through one table keyed by process id. */
module Pump {
  import opened Termination

  const STACK_BUFFER_OVERRUN: I32 := AsI32(0xC000_0409)
  const FATAL_APP_EXIT: I32 := AsI32(0x4000_0015)
  const BREAKPOINT: I32 := AsI32(0x8000_0003)

  // ------------------------------------------------------- what the thread sees

  datatype EventKind =
    | CreateProcess
    | Exception(code: I32, address: U64, firstChance: bool)
    | ExitProcess(exitCode: U32)
    | Rip
    | OtherEvent // threads, modules, debug strings and unknown codes

  datatype DebugEvent = DebugEvent(pid: Pid, tid: U32, kind: EventKind)

  datatype SpawnRequest = SpawnRequest(affinityMask: nat, exitTx: Tx)

  datatype Message = Spawn(req: SpawnRequest, respTx: Tx) | Shutdown

  /** What `CreateProcessW` answers. */
  datatype Creation = Created(pid: Pid) | CreateFailed(error: int)

  /** Everything outside the thread during one iteration of its loop: messages that arrive
      before it looks at its channel, whether a sender is still alive, what a creation
      would answer, and what the wait for a debug event yields (`None` is a timeout). */
  datatype Round = Round(arrivals: seq<Message>, connected: bool, creation: Creation,
                         event: Option<DebugEvent>)

  // ------------------------------------------------------- what the thread does

  datatype ContinueStatus = DbgContinue | DbgExceptionNotHandled

  datatype Act =
    | Inserted(pid: Pid, exitTx: Tx, mask: nat)
    | Replied(respTx: Tx, creation: Creation)
    | Got(event: DebugEvent)
    | AffinitySet(pid: Pid, exitTx: Tx, mask: nat)
    | Sent(exitTx: Tx, reason: TerminationReason)
    | Dropped(exitTx: Tx)
    | ReplyDropped(respTx: Tx)
    | Continued(pid: Pid, tid: U32, status: ContinueStatus)

  datatype PendingException = PendingException(code: I32, address: U64, isFastFail: bool)

  datatype ChildEntry = ChildEntry(pending: Option<PendingException>, pastLoaderBp: bool,
                                   affinityMask: nat, exitTx: Tx)

  datatype PumpState = PumpState(children: map<Pid, ChildEntry>, queue: seq<Message>,
                                 trace: seq<Act>, running: bool)

  const INITIAL: PumpState := PumpState(map[], [], [], true)

  function ClassifyExit(pending: Option<PendingException>, exitCode: U32): TerminationReason {
    match pending
    case Some(exc) =>
      if exc.isFastFail then FastFail(AsU32(exc.code)) else Crash(AsU32(exc.code), exc.address)
    case None => Unknown(ExitStatus(exitCode))
  }

  /** A table entry after an exception of its child: the first breakpoint is taken to be the
      loader's, a later second-chance exception is remembered, a first chance is not. */
  function EntryStep(c: ChildEntry, code: I32, address: U64, firstChance: bool): ChildEntry {
    if !c.pastLoaderBp && code == BREAKPOINT then c.(pastLoaderBp := true)
    else if !firstChance then
      c.(pending := Some(PendingException(code, address, code == STACK_BUFFER_OVERRUN || code == FATAL_APP_EXIT)))
    else c
  }

  function TableAfter(children: map<Pid, ChildEntry>, e: DebugEvent): map<Pid, ChildEntry> {
    if e.pid !in children then children
    else match e.kind
      case Exception(code, address, firstChance) =>
        children[e.pid := EntryStep(children[e.pid], code, address, firstChance)]
      case ExitProcess(_) => children - {e.pid}
      case Rip => children - {e.pid}
      case _ => children
  }

  /** What a debug event makes the thread do between getting and continuing it. */
  function ActFor(children: map<Pid, ChildEntry>, e: DebugEvent): Option<Act> {
    if e.pid !in children then None
    else
      var child := children[e.pid];
      match e.kind
      case Exception(code, _, _) =>
        if !child.pastLoaderBp && code == BREAKPOINT && child.affinityMask != 0
        then Some(AffinitySet(e.pid, child.exitTx, child.affinityMask)) else None
      case ExitProcess(exitCode) => Some(Sent(child.exitTx, ClassifyExit(child.pending, exitCode)))
      case Rip => Some(Sent(child.exitTx, ExternalKill(ExitStatus(1))))
      case _ => None
  }

  function StatusFor(children: map<Pid, ChildEntry>, e: DebugEvent): ContinueStatus {
    if !e.kind.Exception? then DbgContinue
    else if e.pid in children && !children[e.pid].pastLoaderBp && e.kind.code == BREAKPOINT then DbgContinue
    else DbgExceptionNotHandled
  }

  function Push(trace: seq<Act>, act: Option<Act>): seq<Act> {
    if act.None? then trace else trace + [act.value]
  }

  /** `dispatch_event` and the `ContinueDebugEvent` after it. */
  function Dispatch(s: PumpState, e: DebugEvent): PumpState {
    s.(children := TableAfter(s.children, e),
       trace := Push(s.trace + [Got(e)], ActFor(s.children, e))
                + [Continued(e.pid, e.tid, StatusFor(s.children, e))])
  }

  /** One received message.  An entry that is already in the table under the new process id
      is displaced, and its sender dropped with it; a failed creation drops the request. */
  function Receive(s: PumpState, m: Message, creation: Creation): PumpState {
    match m
    case Shutdown => s.(running := false)
    case Spawn(req, respTx) =>
      match creation
      case Created(pid) =>
        var displaced := if pid in s.children then Some(Dropped(s.children[pid].exitTx)) else None;
        s.(children := s.children[pid := ChildEntry(None, false, req.affinityMask, req.exitTx)],
           trace := Push(s.trace + [Inserted(pid, req.exitTx, req.affinityMask)], displaced)
                    + [Replied(respTx, creation)])
      case CreateFailed(_) =>
        s.(trace := s.trace + [Replied(respTx, creation)] + [Dropped(req.exitTx)])
  }

  /** What happens to a message sent after the thread has returned: it comes back to the
      sender, which drops it. */
  function Refuse(trace: seq<Act>, arrivals: seq<Message>): seq<Act>
    decreases |arrivals|
  {
    if arrivals == [] then trace
    else match arrivals[0]
      case Shutdown => Refuse(trace, arrivals[1..])
      case Spawn(req, respTx) =>
        Refuse(trace + [Dropped(req.exitTx)] + [ReplyDropped(respTx)], arrivals[1..])
  }

  /** The state after the message part of an iteration. */
  function Served(s: PumpState, creation: Creation): PumpState {
    if s.queue == [] then s else Receive(s.(queue := s.queue[1..]), s.queue[0], creation)
  }

  /** The part of an iteration after the messages of the round have arrived. */
  function Iterate(s: PumpState, r: Round): PumpState
    requires s.running
  {
    if s.children == map[] && s.queue == [] then
      // `recv` blocks while a sender lives and breaks the loop when none does
      if r.connected then s else s.(running := false)
    else
      var t := Served(s, r.creation);
      if !t.running || t.children == map[] || r.event.None? then t
      else Dispatch(t, r.event.value)
  }

  function Step(s: PumpState, r: Round): PumpState {
    if s.running then Iterate(s.(queue := s.queue + r.arrivals), r)
    else s.(trace := Refuse(s.trace, r.arrivals))
  }

  function Run(s: PumpState, rounds: seq<Round>): PumpState {
    if rounds == [] then s
    else Step(Run(s, rounds[..|rounds| - 1]), rounds[|rounds| - 1])
  }

  // ----------------------------------------------------------------- the thread

  /** The thread's own state, the channel it reads and, in order, all it does outside. */
  class PumpThread {
    var children: map<Pid, ChildEntry>
    var queue: seq<Message>
    var trace: seq<Act>
    var running: bool

    function State(): PumpState
      reads this
    {
      PumpState(children, queue, trace, running)
    }

    constructor ()
      ensures State() == INITIAL
    {
      children, queue, trace, running := map[], [], [], true;
    }

    /** `dispatch_event`: changes the table, acts, and returns the status to continue with. */
    method DispatchEvent(event: DebugEvent) returns (status: ContinueStatus)
      modifies this`children, this`trace
      ensures Dispatch(old(State()), event)
           == State().(trace := trace + [Continued(event.pid, event.tid, status)])
    {
      var pid := event.pid;
      trace := trace + [Got(event)];
      match event.kind
      case Exception(code, address, firstChance) =>
        if pid in children {
          var child := children[pid];
          if !child.pastLoaderBp && code == BREAKPOINT {
            children := children[pid := child.(pastLoaderBp := true)];
            if child.affinityMask != 0 {
              trace := trace + [AffinitySet(pid, child.exitTx, child.affinityMask)];
            }
            return DbgContinue;
          }
          if !firstChance {
            var isFastFail := code == STACK_BUFFER_OVERRUN || code == FATAL_APP_EXIT;
            children := children[pid := child.(pending := Some(PendingException(code, address, isFastFail)))];
            return DbgExceptionNotHandled;
          }
        }
        return DbgExceptionNotHandled;
      case ExitProcess(exitCode) =>
        if pid in children {
          var child := children[pid];
          children := children - {pid};
          trace := trace + [Sent(child.exitTx, ClassifyExit(child.pending, exitCode))];
        }
        return DbgContinue;
      case Rip =>
        if pid in children {
          var child := children[pid];
          children := children - {pid};
          trace := trace + [Sent(child.exitTx, ExternalKill(ExitStatus(1)))];
        }
        return DbgContinue;
      case _ =>
        return DbgContinue;
    }

    /** The `Spawn` arm of the loop. */
    method ServeSpawn(req: SpawnRequest, respTx: Tx, creation: Creation)
      modifies this`children, this`trace
      ensures State() == Receive(old(State()), Spawn(req, respTx), creation)
    {
      match creation
      case Created(pid) =>
        trace := trace + [Inserted(pid, req.exitTx, req.affinityMask)];
        if pid in children {
          trace := trace + [Dropped(children[pid].exitTx)];
        }
        children := children[pid := ChildEntry(None, false, req.affinityMask, req.exitTx)];
        trace := trace + [Replied(respTx, creation)];
      case CreateFailed(_) =>
        trace := trace + [Replied(respTx, creation)];
        trace := trace + [Dropped(req.exitTx)];
    }

    /** `pump_loop`, for as many iterations as `rounds` describes; `n` of them took place. */
    method PumpLoop(rounds: seq<Round>) returns (n: nat)
      requires running
      modifies this
      ensures n <= |rounds| && State() == Run(old(State()), rounds[..n])
      ensures running ==> n == |rounds|
    {
      n := 0;
      while n < |rounds|
        invariant n <= |rounds| && running
        invariant State() == Run(old(State()), rounds[..n])
      {
        var r := rounds[n];
        n := n + 1;
        assert rounds[..n][..n - 1] == rounds[..n - 1];
        queue := queue + r.arrivals;
        if children == map[] && queue == [] {
          if !r.connected {
            running := false;
            return;
          }
          continue;
        }
        if queue != [] {
          var m := queue[0];
          queue := queue[1..];
          match m
          case Spawn(req, respTx) =>
            ServeSpawn(req, respTx, r.creation);
          case Shutdown =>
            running := false;
            return;
        }
        if children == map[] {
          continue;
        }
        if r.event.None? {
          continue;
        }
        var status := DispatchEvent(r.event.value);
        trace := trace + [Continued(r.event.value.pid, r.event.value.tid, status)];
      }
    }
  }
}
