/** The completion-port listener: registrations and exit packets for the children of a job
    meet in two maps, in whichever order they come. */
module Iocp {
  import opened Termination

  const MSG_EXIT_PROCESS: U32 := 7
  const MSG_ABNORMAL_EXIT_PROCESS: U32 := 8
  const SHUTDOWN_KEY := 0

  datatype Registration = Registration(pid: Pid, exitTx: Tx)

  /** What one `GetQueuedCompletionStatus` leaves behind: its result, the three out-variables
      as they stand after the call, and the exit code that a look-up for this packet's
      process would find. */
  datatype Poll = Poll(ok: bool, bytes: U32, key: nat, overlapped: nat, exitCode: Option<U32>)

  /** Everything outside the thread during one iteration: registrations already in the channel
      when it is drained, the wait, what the zero-timeout waits of a final drain would yield
      (after the last of them the port is empty), and registrations that come too late for
      this iteration's drain of the channel. */
  datatype Round = Round(arrivals: seq<Registration>, poll: Poll, tail: seq<Poll>,
                         late: seq<Registration>)

  datatype Act =
    | Sent(pid: Pid, exitTx: Tx, reason: TerminationReason)
    | Dropped(exitTx: Tx)

  /** The two maps, and what has been done with senders so far. */
  datatype Desk = Desk(waiters: map<Pid, Tx>, pending: map<Pid, TerminationReason>, trace: seq<Act>)

  datatype ListenerState = ListenerState(desk: Desk, queue: seq<Registration>, running: bool)

  const EMPTY_DESK: Desk := Desk(map[], map[], [])
  const INITIAL: ListenerState := ListenerState(EMPTY_DESK, [], true)

  predicate IsTimeout(p: Poll) {
    !p.ok && p.overlapped == 0
  }

  predicate IsExit(p: Poll) {
    p.bytes == MSG_EXIT_PROCESS || p.bytes == MSG_ABNORMAL_EXIT_PROCESS
  }

  /** `overlapped as usize as u32` */
  function PidOf(p: Poll): Pid {
    p.overlapped % 0x1_0000_0000
  }

  function ClassifyIocpExit(p: Poll): TerminationReason {
    var code: U32 := if p.exitCode.Some? then p.exitCode.value else 0;
    if p.bytes == MSG_ABNORMAL_EXIT_PROCESS then Crash(code, 0) else Unknown(ExitStatus(code))
  }

  function Register(d: Desk, r: Registration): Desk {
    if r.pid in d.pending then
      d.(pending := d.pending - {r.pid}, trace := d.trace + [Sent(r.pid, r.exitTx, d.pending[r.pid])])
    else if r.pid in d.waiters then
      d.(waiters := d.waiters[r.pid := r.exitTx], trace := d.trace + [Dropped(d.waiters[r.pid])])
    else
      d.(waiters := d.waiters[r.pid := r.exitTx])
  }

  function RegisterAll(d: Desk, queue: seq<Registration>): Desk {
    if queue == [] then d
    else Register(RegisterAll(d, queue[..|queue| - 1]), queue[|queue| - 1])
  }

  function Deliver(d: Desk, pid: Pid, reason: TerminationReason): Desk {
    if pid in d.waiters then
      d.(waiters := d.waiters - {pid}, trace := d.trace + [Sent(pid, d.waiters[pid], reason)])
    else
      d.(pending := d.pending[pid := reason])
  }

  function Notify(d: Desk, p: Poll): Desk {
    if IsExit(p) then Deliver(d, PidOf(p), ClassifyIocpExit(p)) else d
  }

  predicate EndsDrain(p: Poll) {
    IsTimeout(p) || p.key == SHUTDOWN_KEY
  }

  function Drain(d: Desk, tail: seq<Poll>): Desk
    decreases |tail|
  {
    if tail == [] || EndsDrain(tail[0]) then d else Drain(Notify(d, tail[0]), tail[1..])
  }

  /** The code tests the key before it tests for a timeout; the comment on the timeout test
      describes the other order. */
  datatype Order = KeyFirst | TimeoutFirst

  predicate Returns(order: Order, p: Poll) {
    p.key == SHUTDOWN_KEY && (order.KeyFirst? || !IsTimeout(p))
  }

  function DropAll(trace: seq<Act>, queue: seq<Registration>): seq<Act> {
    if queue == [] then trace
    else DropAll(trace, queue[..|queue| - 1]) + [Dropped(queue[|queue| - 1].exitTx)]
  }

  function Step(order: Order, s: ListenerState, r: Round): ListenerState {
    if !s.running then
      // the receiver is gone: every later registration comes back and is dropped
      s.(desk := s.desk.(trace := DropAll(s.desk.trace, r.arrivals + r.late)))
    else
      var d := RegisterAll(s.desk, s.queue + r.arrivals);
      if Returns(order, r.poll) then ListenerState(Drain(d, r.tail), r.late, false)
      else ListenerState(if IsTimeout(r.poll) then d else Notify(d, r.poll), r.late, true)
  }

  function Run(order: Order, s: ListenerState, rounds: seq<Round>): ListenerState {
    if rounds == [] then s
    else Step(order, Run(order, s, rounds[..|rounds| - 1]), rounds[|rounds| - 1])
  }

  /** The listener thread: its two maps, its channel and, in order, all it does with senders. */
  class IocpThread {
    var waiters: map<Pid, Tx>
    var pending: map<Pid, TerminationReason>
    var trace: seq<Act>
    var queue: seq<Registration>
    var running: bool

    function DeskState(): Desk
      reads this
    {
      Desk(waiters, pending, trace)
    }

    function State(): ListenerState
      reads this
    {
      ListenerState(DeskState(), queue, running)
    }

    constructor ()
      ensures State() == INITIAL
    {
      waiters, pending, trace, queue, running := map[], map[], [], [], true;
    }

    /** The `while let` loop that empties the channel. */
    method TakeRegistrations()
      modifies this`waiters, this`pending, this`trace, this`queue
      ensures queue == [] && DeskState() == RegisterAll(old(DeskState()), old(queue))
    {
      ghost var all := queue;
      ghost var done := 0;
      assert all[0..] == all;
      while queue != []
        invariant 0 <= done <= |all| && queue == all[done..]
        invariant DeskState() == RegisterAll(old(DeskState()), all[..done])
        decreases |queue|
      {
        var r := queue[0];
        queue := queue[1..];
        done := done + 1;
        assert all[..done][..done - 1] == all[..done - 1];
        if r.pid in pending {
          var result := pending[r.pid];
          pending := pending - {r.pid};
          trace := trace + [Sent(r.pid, r.exitTx, result)];
        } else {
          if r.pid in waiters {
            trace := trace + [Dropped(waiters[r.pid])];
          }
          waiters := waiters[r.pid := r.exitTx];
        }
      }
      assert all[..done] == all;
    }

    method DispatchNotification(p: Poll)
      modifies this`waiters, this`pending, this`trace
      ensures DeskState() == Notify(old(DeskState()), p)
    {
      if p.bytes != MSG_EXIT_PROCESS && p.bytes != MSG_ABNORMAL_EXIT_PROCESS {
        return;
      }
      var pid := PidOf(p);
      var result := ClassifyIocpExit(p);
      if pid in waiters {
        var tx := waiters[pid];
        waiters := waiters - {pid};
        trace := trace + [Sent(pid, tx, result)];
      } else {
        pending := pending[pid := result];
      }
    }

    method DrainRemaining(tail: seq<Poll>)
      modifies this`waiters, this`pending, this`trace
      ensures DeskState() == Drain(old(DeskState()), tail)
    {
      var i := 0;
      assert tail[0..] == tail;
      while i < |tail|
        invariant 0 <= i <= |tail|
        invariant Drain(DeskState(), tail[i..]) == Drain(old(DeskState()), tail)
      {
        var p := tail[i];
        assert tail[i..][1..] == tail[i + 1..];
        if !p.ok && p.overlapped == 0 {
          return;
        }
        if p.key == SHUTDOWN_KEY {
          return;
        }
        DispatchNotification(p);
        i := i + 1;
      }
    }

    /** `iocp_loop`, for as many iterations as `rounds` describes; `n` of them took place. */
    method IocpLoop(rounds: seq<Round>) returns (n: nat)
      requires running
      modifies this
      ensures n <= |rounds| && State() == Run(KeyFirst, old(State()), rounds[..n])
      ensures running ==> n == |rounds|
    {
      n := 0;
      while n < |rounds|
        invariant n <= |rounds| && running
        invariant State() == Run(KeyFirst, old(State()), rounds[..n])
      {
        var r := rounds[n];
        n := n + 1;
        assert rounds[..n][..n - 1] == rounds[..n - 1];
        queue := queue + r.arrivals;
        TakeRegistrations();
        queue := r.late;
        if r.poll.key == SHUTDOWN_KEY {
          DrainRemaining(r.tail);
          running := false;
          return;
        }
        if !r.poll.ok && r.poll.overlapped == 0 {
          continue;
        }
        DispatchNotification(r.poll);
      }
    }
  }
}
