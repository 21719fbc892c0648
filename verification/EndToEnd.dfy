/** From what happens to a child to what its handle answers: pump or listener, sentinel reader
    and waiter put together. */
module EndToEnd {
  import opened Termination
  import opened Counting
  import Pump
  import PumpProofs
  import PumpEvents
  import Iocp
  import IocpProofs
  import IocpPackets
  import Sentinel
  import Waiter

  /** A fresh handle whose exit channel stands as given and whose sentinel pipe has closed
      after these reads (what the reader then sends is `Sentinel.SentinelThread`'s contract). */
  ghost function Handle(exitRx: Receiver<TerminationResult>, chunks: seq<seq<Sentinel.Byte>>): Waiter.ChildState {
    Waiter.ChildState(Some(exitRx), Some(Holds(Framed(chunks))), None)
  }

  ghost predicate Framed(chunks: seq<seq<Sentinel.Byte>>) {
    Sentinel.HasFrame(Sentinel.Stream(chunks))
  }

  ghost predicate Accused(seen: seq<Pump.EventKind>) {
    exists i :: 0 <= i < |seen| && PumpProofs.CountsAgainst(seen, i)
  }

  /** What a final answer must be, from the child's own events and whether a complete sentinel
      frame was read.  It exited cleanly with c exactly if it exited with c, nothing counts
      against it and a frame was read; it was killed from outside exactly if a system error
      ended it, or it exited, nothing counts against it and no frame was read; otherwise the
      last exception that counts against it decides, whatever the sentinel says. */
  ghost predicate Classified(seen: seq<Pump.EventKind>, framed: bool, reason: TerminationReason) {
    && seen != []
    && var last := seen[|seen| - 1];
    && (forall c: U32 :: reason == CleanExit(ExitStatus(c)) <==>
          last == Pump.ExitProcess(c) && !Accused(seen) && framed)
    && (forall c: U32 :: reason == ExternalKill(ExitStatus(c)) <==>
          (last.Rip? && c == 1) || (last == Pump.ExitProcess(c) && !Accused(seen) && !framed))
    && (forall i :: 0 <= i < |seen| && last.ExitProcess? && PumpProofs.CountsAgainst(seen, i)
                    && (forall j :: i < j < |seen| ==> !PumpProofs.CountsAgainst(seen, j)) ==>
          reason == ExceptionReason(AsU32(seen[i].code), seen[i].address))
    && !reason.Unknown?
  }

  function ExceptionReason(code: U32, address: U64): TerminationReason {
    if code == 0xC000_0409 || code == 0x4000_0015 then FastFail(code) else Crash(code, address)
  }

  lemma {:induction false} VerdictClassified(seen: seq<Pump.EventKind>, framed: bool)
    requires PumpProofs.Verdict(seen).Some?
    ensures Classified(seen, framed, Waiter.RefineBy(PumpProofs.Verdict(seen).value, framed))
  {
    var blamed := PumpProofs.Blame(seen, |seen|);
    assert blamed.Some? <==> Accused(seen);
    var last := seen[|seen| - 1];
    forall i | 0 <= i < |seen| && last.ExitProcess? && PumpProofs.CountsAgainst(seen, i)
               && forall j :: i < j < |seen| ==> !PumpProofs.CountsAgainst(seen, j)
      ensures PumpProofs.Verdict(seen).value == ExceptionReason(AsU32(seen[i].code), seen[i].address)
    {
      assert blamed == Some(i);
    }
  }

  /** What `wait` makes of it: the exit code of a child that nothing counts against, the code
      of the last exception that counts against it otherwise, and 1 for a system error. */
  lemma {:induction false} VerdictStatus(seen: seq<Pump.EventKind>, framed: bool)
    requires PumpProofs.Verdict(seen).Some?
    ensures
      var status := Waiter.ReasonToExitStatus(Waiter.RefineBy(PumpProofs.Verdict(seen).value, framed));
      && seen != []
      && var last := seen[|seen| - 1];
      && (last.Rip? ==> status == ExitStatus(1))
      && (last.ExitProcess? && !Accused(seen) ==> status == ExitStatus(last.exitCode))
      && (forall i :: 0 <= i < |seen| && last.ExitProcess? && PumpProofs.CountsAgainst(seen, i)
                      && (forall j :: i < j < |seen| ==> !PumpProofs.CountsAgainst(seen, j)) ==>
            status == ExitStatus(AsU32(seen[i].code)))
  {
    VerdictClassified(seen, framed);
    if Accused(seen) {
      var i := PumpProofs.Blame(seen, |seen|).value;
      assert PumpProofs.CountsAgainst(seen, i);
    }
  }

  /** With the debug API and the sentinel, over every run in which the pump has seen the child
      end, the handle answers with the right classification. */
  lemma {:induction false} DebugApiVerdict(rounds: seq<Pump.Round>, tx: Tx,
                                           chunks: seq<seq<Sentinel.Byte>>, plain: Result<U32>)
    requires Count(PumpProofs.HandedOver(rounds), PumpProofs.Carries(tx)) == 1
    requires PumpProofs.LifeOf(Pump.Run(Pump.INITIAL, rounds).trace, tx).Ended?
    ensures
      var s := Pump.Run(Pump.INITIAL, rounds);
      var answer := Waiter.WaitDiagnosed(Handle(PumpProofs.ExitReceiver(s, tx), chunks), plain).1;
      && answer.Reason? && answer.result.Ok?
      && Classified(PumpProofs.LifeOf(s.trace, tx).seen, Framed(chunks), answer.result.value)
  {
    PumpProofs.ReceiverGetsVerdict(rounds, tx);
    var s := Pump.Run(Pump.INITIAL, rounds);
    VerdictClassified(PumpProofs.LifeOf(s.trace, tx).seen, Framed(chunks));
    Waiter.FirstAnswer(PumpProofs.ExitReceiver(s, tx), Framed(chunks), plain);
  }

  /** The same in terms of what happens outside the pump: iteration i takes the child's request
      and creates it, and the event that iteration j obtains ends it; the events that count are
      those obtained under its process id from the one to the other. */
  lemma {:induction false} DebugApiVerdictInRounds(rounds: seq<Pump.Round>, tx: Tx, i: nat, j: nat,
                                                   chunks: seq<seq<Sentinel.Byte>>, plain: Result<U32>)
    requires Count(PumpProofs.HandedOver(rounds), PumpProofs.Carries(tx)) == 1
    requires PumpEvents.StartsAndEnds(PumpEvents.TicksOf(rounds), tx, i, j)
    ensures
      var s, ticks := Pump.Run(Pump.INITIAL, rounds), PumpEvents.TicksOf(rounds);
      var answer := Waiter.WaitDiagnosed(Handle(PumpProofs.ExitReceiver(s, tx), chunks), plain).1;
      && answer.Reason? && answer.result.Ok?
      && Classified(PumpEvents.Heard(ticks, ticks[i].birth.value.pid, i, j + 1), Framed(chunks), answer.result.value)
  {
    PumpEvents.EndedExactly(rounds, tx);
    DebugApiVerdict(rounds, tx, chunks, plain);
  }

  /** A fresh handle without a sentinel. */
  function PlainHandle(exitRx: Receiver<TerminationResult>): Waiter.ChildState {
    Waiter.ChildState(Some(exitRx), None, None)
  }

  predicate Answers(a: Waiter.Answer, reason: TerminationReason) {
    a == Waiter.Reason(Ok(reason))
  }

  /** What the exit channel brings to a handle without a sentinel is the answer as it stands;
      when the channel closes, the exit code is all there is. */
  lemma {:induction false} PlainAnswer(exitRx: Receiver<TerminationResult>, plain: Result<U32>)
    ensures Waiter.WaitDiagnosed(PlainHandle(exitRx), plain).1 ==
      match exitRx
      case Open => Waiter.Blocked
      case Holds(result) => Waiter.Reason(result)
      case Closed =>
        (match plain
         case Ok(code) => Waiter.Reason(Ok(Unknown(ExitStatus(code))))
         case Err(e) => Waiter.Reason(Err(e)))
  {
    assert exitRx.Holds? ==> Waiter.RawReason(PlainHandle(exitRx), plain) == exitRx.message;
  }

  predicate BlamesException(a: Waiter.Answer) {
    a.Reason? && a.result.Ok? && (a.result.value.Crash? || a.result.value.FastFail?)
  }

  lemma {:induction false} VerdictBlames(seen: seq<Pump.EventKind>)
    requires PumpProofs.Verdict(seen).Some?
    ensures
      var reason := PumpProofs.Verdict(seen).value;
      && seen != []
      && (reason.Crash? || reason.FastFail? <==> seen[|seen| - 1].ExitProcess? && Accused(seen))
  {
    assert PumpProofs.Blame(seen, |seen|).Some? <==> Accused(seen);
  }

  lemma {:induction false} VerdictCases(seen: seq<Pump.EventKind>, c: U32)
    requires PumpProofs.Verdict(seen).Some?
    ensures
      var reason := PumpProofs.Verdict(seen).value;
      && seen != []
      && !reason.CleanExit?
      && (reason.ExternalKill? <==> seen[|seen| - 1].Rip?)
      && (reason.ExternalKill? ==> reason.status == ExitStatus(1))
      && (reason == Unknown(ExitStatus(c)) <==> seen[|seen| - 1] == Pump.ExitProcess(c) && !Accused(seen))
  {
    assert PumpProofs.Blame(seen, |seen|).Some? <==> Accused(seen);
  }

  /** `ExternalKill` is documented to need the sentinel.  With the debug API alone, over every
      run and whatever a plain wait would say, the answer is never a clean exit, and it is an
      external kill exactly if a system error event ended the child. */
  lemma {:induction false} KillWithoutSentinelExactly(rounds: seq<Pump.Round>, tx: Tx, plain: Result<U32>)
    requires Count(PumpProofs.HandedOver(rounds), PumpProofs.Carries(tx)) == 1
    ensures
      var s := Pump.Run(Pump.INITIAL, rounds);
      var life := PumpProofs.LifeOf(s.trace, tx);
      var answer := Waiter.WaitDiagnosed(PlainHandle(PumpProofs.ExitReceiver(s, tx)), plain).1;
      && (forall status :: !Answers(answer, CleanExit(status)))
      && (forall status :: Answers(answer, ExternalKill(status)) <==>
            status == ExitStatus(1) && life.Ended? && life.seen != [] && life.seen[|life.seen| - 1].Rip?)
  {
    var s := Pump.Run(Pump.INITIAL, rounds);
    var life := PumpProofs.LifeOf(s.trace, tx);
    PumpProofs.ReceiverGetsVerdict(rounds, tx);
    PlainAnswer(PumpProofs.ExitReceiver(s, tx), plain);
    if life.Ended? {
      VerdictCases(life.seen, 0);
    }
  }

  /** With the debug API alone, over every run in which the pump has seen the child end: the
      handle answers, and exit code c without a known cause is the answer exactly if the child
      exited with c and nothing counts against it. */
  lemma {:induction false} PlainDebugVerdict(rounds: seq<Pump.Round>, tx: Tx, plain: Result<U32>)
    requires Count(PumpProofs.HandedOver(rounds), PumpProofs.Carries(tx)) == 1
    requires PumpProofs.LifeOf(Pump.Run(Pump.INITIAL, rounds).trace, tx).Ended?
    ensures
      var s := Pump.Run(Pump.INITIAL, rounds);
      var seen := PumpProofs.LifeOf(s.trace, tx).seen;
      var answer := Waiter.WaitDiagnosed(PlainHandle(PumpProofs.ExitReceiver(s, tx)), plain).1;
      && answer.Reason? && answer.result.Ok? && seen != []
      && (forall c: U32 :: Answers(answer, Unknown(ExitStatus(c))) <==>
            seen[|seen| - 1] == Pump.ExitProcess(c) && !Accused(seen))
      && (BlamesException(answer) <==> seen[|seen| - 1].ExitProcess? && Accused(seen))
  {
    var s := Pump.Run(Pump.INITIAL, rounds);
    var seen := PumpProofs.LifeOf(s.trace, tx).seen;
    PumpProofs.ReceiverGetsVerdict(rounds, tx);
    PlainAnswer(PumpProofs.ExitReceiver(s, tx), plain);
    VerdictBlames(seen);
    forall c: U32
      ensures PumpProofs.Verdict(seen).value == Unknown(ExitStatus(c)) <==>
                seen[|seen| - 1] == Pump.ExitProcess(c) && !Accused(seen)
    {
      VerdictCases(seen, c);
    }
  }

  /** The exit code that a reason stands for. */
  function CodeOf(reason: TerminationReason): U32 {
    match reason
    case Crash(code, _) => code
    case FastFail(code) => code
    case CleanExit(status) => status.raw
    case ExternalKill(status) => status.raw
    case Unknown(status) => status.raw
  }

  lemma {:induction false} PlainStatus(reason: TerminationReason, c: Waiter.Call)
    requires c.statusOnly
    ensures Waiter.Do(PlainHandle(Holds(Ok(reason))), c).1 == Waiter.Status(Ok(ExitStatus(CodeOf(reason))))
  {
    var s := PlainHandle(Holds(Ok(reason)));
    PlainAnswer(Holds(Ok(reason)), c.plain);
    Waiter.StatusAnswers(s, c);
    assert Waiter.Do(s, c.(statusOnly := false)).1 == Waiter.Reason(Ok(reason));
  }

  lemma {:induction false} VerdictCode(seen: seq<Pump.EventKind>)
    requires PumpProofs.Verdict(seen).Some?
    ensures
      var code := CodeOf(PumpProofs.Verdict(seen).value);
      && seen != []
      && var last := seen[|seen| - 1];
      && (last.Rip? ==> code == 1)
      && (last.ExitProcess? && !Accused(seen) ==> code == last.exitCode)
      && (forall i :: 0 <= i < |seen| && last.ExitProcess? && PumpProofs.CountsAgainst(seen, i)
                      && (forall j :: i < j < |seen| ==> !PumpProofs.CountsAgainst(seen, j)) ==>
            code == AsU32(seen[i].code))
  {
    assert PumpProofs.Blame(seen, |seen|).Some? <==> Accused(seen);
  }

  /** What `wait` reports with the debug API alone: the exit code of a child that nothing counts
      against, the code of the last exception that does otherwise, and 1 for a system error. */
  lemma {:induction false} PlainDebugStatus(rounds: seq<Pump.Round>, tx: Tx, c: Waiter.Call)
    requires Count(PumpProofs.HandedOver(rounds), PumpProofs.Carries(tx)) == 1 && c.statusOnly
    requires PumpProofs.LifeOf(Pump.Run(Pump.INITIAL, rounds).trace, tx).Ended?
    ensures
      var s := Pump.Run(Pump.INITIAL, rounds);
      var seen := PumpProofs.LifeOf(s.trace, tx).seen;
      var answer := Waiter.Do(PlainHandle(PumpProofs.ExitReceiver(s, tx)), c).1;
      && seen != []
      && var last := seen[|seen| - 1];
      && (last.Rip? ==> answer == Waiter.Status(Ok(ExitStatus(1))))
      && (last.ExitProcess? && !Accused(seen) ==> answer == Waiter.Status(Ok(ExitStatus(last.exitCode))))
      && (forall i :: 0 <= i < |seen| && last.ExitProcess? && PumpProofs.CountsAgainst(seen, i)
                      && (forall j :: i < j < |seen| ==> !PumpProofs.CountsAgainst(seen, j)) ==>
            answer == Waiter.Status(Ok(ExitStatus(AsU32(seen[i].code)))))
  {
    var s := Pump.Run(Pump.INITIAL, rounds);
    PumpProofs.ReceiverGetsVerdict(rounds, tx);
    PlainStatus(PumpProofs.ExitReceiver(s, tx).message.value, c);
    VerdictCode(PumpProofs.LifeOf(s.trace, tx).seen);
  }

  /** An input at which the sentinel is not needed: the first event of a child is a system
      error. */
  lemma {:induction false} SystemErrorKills(pid: Pid, tid: U32, req: Pump.SpawnRequest, respTx: Tx, plain: Result<U32>)
    ensures
      var s := Pump.Run(Pump.INITIAL, [PumpProofs.SpawnThen(pid, tid, req, respTx, Pump.Rip)]);
      Answers(Waiter.WaitDiagnosed(PlainHandle(PumpProofs.ExitReceiver(s, req.exitTx)), plain).1,
              ExternalKill(ExitStatus(1)))
  {
    PumpProofs.SpawnThenRun(pid, tid, req, respTx, Pump.Rip);
    KillWithoutSentinelExactly([PumpProofs.SpawnThen(pid, tid, req, respTx, Pump.Rip)], req.exitTx, plain);
  }

  /** If the pump returns, or loses the child's entry, before it sees the child end, the handle
      falls back to the exit code alone: any exception seen so far is forgotten, and the
      sentinel decides. */
  lemma {:induction false} DebugApiFallback(rounds: seq<Pump.Round>, tx: Tx,
                                            chunks: seq<seq<Sentinel.Byte>>, code: U32)
    requires Count(PumpProofs.HandedOver(rounds), PumpProofs.Carries(tx)) == 1
    requires !Pump.Run(Pump.INITIAL, rounds).running
    requires !PumpProofs.LifeOf(Pump.Run(Pump.INITIAL, rounds).trace, tx).Ended?
    ensures Waiter.WaitDiagnosed(
              Handle(PumpProofs.ExitReceiver(Pump.Run(Pump.INITIAL, rounds), tx), chunks), Ok(code)).1
         == Waiter.Reason(Ok(
              if Framed(chunks) then CleanExit(ExitStatus(code)) else ExternalKill(ExitStatus(code))))
  {
    PumpProofs.ReceiverGetsVerdict(rounds, tx);
    Waiter.FirstAnswer(Closed, Framed(chunks), Ok(code));
  }

  /** Only the exit channel can bring a crash or a fast-fail. */
  lemma {:induction false} BlameComesFromChannel(exitRx: Receiver<TerminationResult>,
                                                 chunks: seq<seq<Sentinel.Byte>>, plain: Result<U32>)
    ensures BlamesException(Waiter.WaitDiagnosed(Handle(exitRx, chunks), plain).1)
       <==> exitRx.Holds? && exitRx.message.Ok? && (exitRx.message.value.Crash? || exitRx.message.value.FastFail?)
  {
    var s := Handle(exitRx, chunks);
    assert exitRx.Holds? ==> Waiter.RawReason(s, plain) == exitRx.message;
    assert exitRx.Closed? ==> Waiter.RawReason(s, plain) == Waiter.PlainReason(plain);
  }

  /** Over every run, whatever a plain wait would say: an exception is reported exactly if the
      pump has seen the child exit and something counts against it by then. */
  lemma {:induction false} ExceptionReportedExactly(rounds: seq<Pump.Round>, tx: Tx, chunks: seq<seq<Sentinel.Byte>>,
                                                    plain: Result<U32>)
    requires Count(PumpProofs.HandedOver(rounds), PumpProofs.Carries(tx)) == 1
    ensures
      var s := Pump.Run(Pump.INITIAL, rounds);
      var life := PumpProofs.LifeOf(s.trace, tx);
      BlamesException(Waiter.WaitDiagnosed(Handle(PumpProofs.ExitReceiver(s, tx), chunks), plain).1) <==>
        life.Ended? && life.seen != [] && life.seen[|life.seen| - 1].ExitProcess? && Accused(life.seen)
  {
    var s := Pump.Run(Pump.INITIAL, rounds);
    var life := PumpProofs.LifeOf(s.trace, tx);
    BlameComesFromChannel(PumpProofs.ExitReceiver(s, tx), chunks, plain);
    PumpProofs.ReceiverGetsVerdict(rounds, tx);
    if life.Ended? {
      VerdictBlames(life.seen);
    }
  }

  /** What it costs that `Shutdown` does not wait for tracked children: a child that has had a
      second-chance exception is reported as clean or killed. */
  lemma {:induction false} ShutdownLosesException(pid: Pid, tid: U32, req: Pump.SpawnRequest, respTx: Tx,
                                                  fault: Pump.EventKind, chunks: seq<seq<Sentinel.Byte>>, code: U32)
    requires fault.Exception? && !fault.firstChance && fault.code != Pump.BREAKPOINT
    ensures
      var s := Pump.Run(Pump.INITIAL, PumpProofs.SpawnThenShutdown(pid, tid, req, respTx, fault));
      && PumpProofs.LifeOf(s.trace, req.exitTx) == PumpProofs.Alive(pid, req.affinityMask, [fault])
      && Accused([fault])
      && Waiter.WaitDiagnosed(Handle(PumpProofs.ExitReceiver(s, req.exitTx), chunks), Ok(code)).1
         == Waiter.Reason(Ok(
              if Framed(chunks) then CleanExit(ExitStatus(code)) else ExternalKill(ExitStatus(code))))
  {
    PumpProofs.SpawnThenShutdownRun(pid, tid, req, respTx, fault);
    assert PumpProofs.CountsAgainst([fault], 0);
    DebugApiFallback(PumpProofs.SpawnThenShutdown(pid, tid, req, respTx, fault), req.exitTx, chunks, code);
  }

  /** With the job object and the sentinel, over every run in which the listener has found the
      child's only registration in its channel and dispatched its only exit packet: message 8 is
      a crash with the exit code and no address, and message 7 is a clean exit or a kill as the
      sentinel says. */
  lemma {:induction false} JobObjectVerdict(order: Iocp.Order, rounds: seq<Iocp.Round>, k: nat, i: nat,
                                            packet: Iocp.Poll, tx: Tx, chunks: seq<seq<Sentinel.Byte>>,
                                            plain: Result<U32>)
    requires Count(IocpProofs.HandedOver(rounds), IocpProofs.Carries(tx)) == 1
    requires IocpPackets.TakesRegistration(order, rounds, k, Iocp.Registration(packet.overlapped % 0x1_0000_0000, tx))
    requires IocpPackets.TakesExit(order, rounds, i, packet)
    requires
      var ms, pid: Pid := IocpPackets.Meetings(order, rounds), packet.overlapped % 0x1_0000_0000;
      Count(ms, IocpProofs.ArrivalOf(pid)) <= 1 && Count(ms, IocpProofs.ExitOf(pid)) <= 1
    ensures
      var code := packet.exitCode.UnwrapOr(0);
      Waiter.WaitDiagnosed(
        Handle(IocpProofs.ExitReceiver(Iocp.Run(order, Iocp.INITIAL, rounds), tx), chunks), plain).1
      == Waiter.Reason(Ok(
           if packet.bytes == 8 then Crash(code, 0)
           else if Framed(chunks) then CleanExit(ExitStatus(code))
           else ExternalKill(ExitStatus(code))))
  {
    var pid: Pid, code := packet.overlapped % 0x1_0000_0000, packet.exitCode.UnwrapOr(0);
    var reason := if packet.bytes == 8 then Crash(code, 0) else Unknown(ExitStatus(code));
    IocpPackets.MeetingsExactly(order, rounds);
    assert IocpPackets.Tells(packet, pid, reason);
    IocpPackets.RegistrationTakenExactly(order, rounds, pid, tx);
    IocpPackets.ExitTakenExactly(order, rounds, pid, reason);
    IocpProofs.ArrivalsHandedOver(order, rounds);
    IocpProofs.ReceiverGetsResult(order, rounds, pid, tx, reason);
    Waiter.FirstAnswer(Holds(Ok(reason)), Framed(chunks), plain);
  }

  /** The listener's counterpart of `DebugApiFallback`: if it has returned without giving a
      registrant anything, the answer comes from the exit code and the sentinel alone. */
  lemma {:induction false} JobObjectFallback(order: Iocp.Order, rounds: seq<Iocp.Round>, tx: Tx,
                                             chunks: seq<seq<Sentinel.Byte>>, code: U32)
    requires Count(IocpProofs.HandedOver(rounds), IocpProofs.Carries(tx)) == 1
    requires
      var s := Iocp.Run(order, Iocp.INITIAL, rounds);
      !s.running && IocpProofs.GivenTo(s.desk.trace, tx) == []
    ensures Waiter.WaitDiagnosed(
              Handle(IocpProofs.ExitReceiver(Iocp.Run(order, Iocp.INITIAL, rounds), tx), chunks), Ok(code)).1
         == Waiter.Reason(Ok(
              if Framed(chunks) then CleanExit(ExitStatus(code)) else ExternalKill(ExitStatus(code))))
  {
    IocpProofs.NoWaiterStranded(order, rounds, tx);
    Waiter.FirstAnswer(Closed, Framed(chunks), Ok(code));
  }

  lemma {:induction false} CrashIsMet(order: Iocp.Order, rounds: seq<Iocp.Round>, pid: Pid, tx: Tx,
                                      chunks: seq<seq<Sentinel.Byte>>, plain: Result<U32>)
    requires Count(IocpProofs.HandedOver(rounds), IocpProofs.Carries(tx)) == 1
    requires Iocp.Registration(pid, tx) in IocpProofs.HandedOver(rounds)
    requires
      var ms := IocpProofs.AllMeetings(order, rounds);
      Count(ms, IocpProofs.ArrivalOf(pid)) <= 1 && Count(ms, IocpProofs.ExitOf(pid)) <= 1
    ensures
      var s, ms := Iocp.Run(order, Iocp.INITIAL, rounds), IocpProofs.AllMeetings(order, rounds);
      BlamesException(Waiter.WaitDiagnosed(Handle(IocpProofs.ExitReceiver(s, tx), chunks), plain).1) <==>
        IocpProofs.Arrive(pid, tx) in ms && exists code: U32 :: IocpProofs.Exit(pid, Crash(code, 0)) in ms
  {
    var s, ms := Iocp.Run(order, Iocp.INITIAL, rounds), IocpProofs.AllMeetings(order, rounds);
    var rx := IocpProofs.ExitReceiver(s, tx);
    BlameComesFromChannel(rx, chunks, plain);
    IocpProofs.ExitsClassified(order, rounds);
    forall reason ensures rx == Holds(Ok(reason)) <==>
      IocpProofs.Arrive(pid, tx) in ms && IocpProofs.Exit(pid, reason) in ms
    {
      IocpProofs.ReceiverGetsResult(order, rounds, pid, tx, reason);
    }
  }

  /** Round i dispatches an abnormal exit of the process. */
  predicate TakesCrash(order: Iocp.Order, rounds: seq<Iocp.Round>, i: nat, p: Iocp.Poll, pid: Pid) {
    IocpPackets.TakesExit(order, rounds, i, p) && p.bytes == 8 && p.overlapped % 0x1_0000_0000 == pid
  }

  lemma {:induction false} CrashTaken(order: Iocp.Order, rounds: seq<Iocp.Round>, pid: Pid)
    ensures (exists code: U32 :: IocpProofs.Exit(pid, Crash(code, 0)) in IocpPackets.Meetings(order, rounds))
       <==> exists i: nat, p: Iocp.Poll :: TakesCrash(order, rounds, i, p, pid)
  {
    if code: U32 :| IocpProofs.Exit(pid, Crash(code, 0)) in IocpPackets.Meetings(order, rounds) {
      IocpPackets.ExitTakenExactly(order, rounds, pid, Crash(code, 0));
      var i: nat, p: Iocp.Poll :| IocpPackets.TakesExit(order, rounds, i, p)
                                  && IocpPackets.Tells(p, pid, Crash(code, 0));
      assert TakesCrash(order, rounds, i, p, pid);
    }
    if i: nat, p: Iocp.Poll :| TakesCrash(order, rounds, i, p, pid) {
      var code := p.exitCode.UnwrapOr(0);
      assert IocpPackets.Tells(p, pid, Crash(code, 0));
      IocpPackets.ExitTakenExactly(order, rounds, pid, Crash(code, 0));
    }
  }

  /** Over every run, whatever a plain wait would say: a crash is reported exactly if the listener,
      before its return, found the registration in its channel and dispatched an abnormal exit of
      the process. */
  lemma {:induction false} CrashReportedExactly(order: Iocp.Order, rounds: seq<Iocp.Round>, pid: Pid, tx: Tx,
                                                chunks: seq<seq<Sentinel.Byte>>, plain: Result<U32>)
    requires Count(IocpProofs.HandedOver(rounds), IocpProofs.Carries(tx)) == 1
    requires Iocp.Registration(pid, tx) in IocpProofs.HandedOver(rounds)
    requires
      var ms := IocpPackets.Meetings(order, rounds);
      Count(ms, IocpProofs.ArrivalOf(pid)) <= 1 && Count(ms, IocpProofs.ExitOf(pid)) <= 1
    ensures
      var s := Iocp.Run(order, Iocp.INITIAL, rounds);
      BlamesException(Waiter.WaitDiagnosed(Handle(IocpProofs.ExitReceiver(s, tx), chunks), plain).1) <==>
        && (exists i: nat :: IocpPackets.TakesRegistration(order, rounds, i, Iocp.Registration(pid, tx)))
        && (exists i: nat, p: Iocp.Poll :: TakesCrash(order, rounds, i, p, pid))
  {
    IocpPackets.MeetingsExactly(order, rounds);
    CrashIsMet(order, rounds, pid, tx, chunks, plain);
    IocpPackets.RegistrationTakenExactly(order, rounds, pid, tx);
    CrashTaken(order, rounds, pid);
  }
}
