/** The handle to a running child: what it answers when it is waited for. */
module Waiter {
  import opened Termination

  datatype CachedReason =
    | CachedUnknown(code: U32)
    | CachedCrash(code: U32, address: U64)
    | CachedFastFail(code: U32)
    | CachedExternalKill(code: U32)
    | CachedCleanExit(code: U32)

  /** `s.code().unwrap_or(1) as u32` */
  function ExitCode(s: ExitStatus): U32 {
    AsU32(s.Code().UnwrapOr(1))
  }

  function MakeExitStatus(code: U32): ExitStatus {
    ExitStatus(code)
  }

  function FromReason(r: TerminationReason): CachedReason {
    match r
    case Unknown(s) => CachedUnknown(ExitCode(s))
    case Crash(code, address) => CachedCrash(code, address)
    case FastFail(code) => CachedFastFail(code)
    case ExternalKill(s) => CachedExternalKill(ExitCode(s))
    case CleanExit(s) => CachedCleanExit(ExitCode(s))
  }

  function IntoReason(c: CachedReason): TerminationReason {
    match c
    case CachedUnknown(code) => Unknown(MakeExitStatus(code))
    case CachedCrash(code, address) => Crash(code, address)
    case CachedFastFail(code) => FastFail(code)
    case CachedExternalKill(code) => ExternalKill(MakeExitStatus(code))
    case CachedCleanExit(code) => CleanExit(MakeExitStatus(code))
  }

  /** The cache loses nothing, through the signed and unsigned casts of every 32-bit code. */
  lemma {:induction false} CacheRoundTrip(r: TerminationReason, c: CachedReason)
    ensures IntoReason(FromReason(r)) == r && FromReason(IntoReason(c)) == c
  {}

  function ReasonToExitStatus(r: TerminationReason): ExitStatus {
    match r
    case Unknown(s) => s
    case CleanExit(s) => s
    case ExternalKill(s) => s
    case Crash(code, _) => MakeExitStatus(code)
    case FastFail(code) => MakeExitStatus(code)
  }

  function RefineBy(reason: TerminationReason, sentinelOk: bool): TerminationReason {
    match reason
    case Unknown(status) => if sentinelOk then CleanExit(status) else ExternalKill(status)
    case _ => reason
  }

  datatype ChildState = ChildState(exitRx: Option<Receiver<TerminationResult>>,
                                   sentinelRx: Option<Receiver<bool>>,
                                   cached: Option<CachedReason>)

  /** A call either blocks on an open channel, which leaves the handle as it is until the
      channel resolves, or answers. */
  datatype Answer = Blocked | Reason(result: TerminationResult) | Status(status: Result<ExitStatus>)

  function PlainReason(plain: Result<U32>): TerminationResult {
    match plain
    case Ok(code) => Ok(Unknown(MakeExitStatus(code)))
    case Err(e) => Err(e)
  }

  /** Receiving leaves the channel without its message. */
  function Emptied<T>(rx: Option<Receiver<T>>): Option<Receiver<T>> {
    if rx.Some? && rx.value.Holds? then Some(Closed) else rx
  }

  /** The reason before refinement: the channel's message, or the plain wait when there is no
      channel or its sender is gone. */
  function RawReason(s: ChildState, plain: Result<U32>): TerminationResult
    requires s.exitRx != Some(Open)
  {
    match s.exitRx
    case Some(Holds(result)) => result
    case _ => PlainReason(plain)
  }

  function Refined(reason: TerminationReason, sentinelRx: Option<Receiver<bool>>): TerminationReason
    requires sentinelRx != Some(Open)
  {
    match sentinelRx
    case None => reason
    case Some(Holds(ok)) => RefineBy(reason, ok)
    case Some(Closed) => RefineBy(reason, false)
  }

  /** `wait_diagnosed`, given what a plain wait on the process would find. */
  function WaitDiagnosed(s: ChildState, plain: Result<U32>): (ChildState, Answer) {
    if s.cached.Some? then
      var reason := IntoReason(s.cached.value);
      (s.(cached := Some(FromReason(reason))), Reason(Ok(reason)))
    else if s.exitRx == Some(Open) then (s, Blocked)
    else
      var raw := RawReason(s, plain);
      var emptied := s.(exitRx := Emptied(s.exitRx));
      if raw.Err? then (emptied, Reason(raw))
      else if s.sentinelRx == Some(Open) then (s, Blocked)
      else
        var reason := Refined(raw.value, s.sentinelRx);
        (ChildState(Emptied(s.exitRx), None, Some(FromReason(reason))), Reason(Ok(reason)))
  }

  /** The first call on a handle whose channels have resolved. */
  lemma {:induction false} FirstAnswer(exitRx: Receiver<TerminationResult>, sentinelOk: bool, plain: Result<U32>)
    ensures exitRx.Holds? && exitRx.message.Ok? ==>
      WaitDiagnosed(ChildState(Some(exitRx), Some(Holds(sentinelOk)), None), plain).1
        == Reason(Ok(RefineBy(exitRx.message.value, sentinelOk)))
    ensures exitRx.Closed? && plain.Ok? ==>
      WaitDiagnosed(ChildState(Some(exitRx), Some(Holds(sentinelOk)), None), plain).1
        == Reason(Ok(RefineBy(Unknown(ExitStatus(plain.value)), sentinelOk)))
  {}

  function StatusOf(a: Answer): Answer {
    match a
    case Reason(Ok(reason)) => Status(Ok(ReasonToExitStatus(reason)))
    case Reason(Err(e)) => Status(Err(e))
    case _ => a
  }

  /** A call, with what the channels that were still open hold by then. */
  datatype Call = Call(statusOnly: bool, exitNow: Receiver<TerminationResult>, sentinelNow: Receiver<bool>,
                       plain: Result<U32>)

  function Evolved<T>(rx: Option<Receiver<T>>, now: Receiver<T>): Option<Receiver<T>> {
    if rx == Some(Open) then Some(now) else rx
  }

  /** `wait` or `wait_diagnosed`, after the channels have moved on. */
  function Do(s: ChildState, c: Call): (ChildState, Answer) {
    var now := s.(exitRx := Evolved(s.exitRx, c.exitNow), sentinelRx := Evolved(s.sentinelRx, c.sentinelNow));
    var r := WaitDiagnosed(now, c.plain);
    (r.0, if c.statusOnly then StatusOf(r.1) else r.1)
  }

  function After(s: ChildState, calls: seq<Call>): ChildState {
    if calls == [] then s else Do(After(s, calls[..|calls| - 1]), calls[|calls| - 1]).0
  }

  function AnswerOf(s: ChildState, calls: seq<Call>, i: nat): Answer
    requires i < |calls|
  {
    Do(After(s, calls[..i]), calls[i]).1
  }

  class WorrywartChild {
    var exitRx: Option<Receiver<TerminationResult>>
    var sentinelRx: Option<Receiver<bool>>
    var cachedReason: Option<CachedReason>

    function State(): ChildState
      reads this
    {
      ChildState(exitRx, sentinelRx, cachedReason)
    }

    constructor (exitRx: Option<Receiver<TerminationResult>>, sentinelRx: Option<Receiver<bool>>)
      ensures State() == ChildState(exitRx, sentinelRx, None)
    {
      this.exitRx, this.sentinelRx, cachedReason := exitRx, sentinelRx, None;
    }

    /** `refine_with_sentinel`: takes the receiver, so it is asked at most once. */
    method RefineWithSentinel(reason: TerminationReason) returns (refined: TerminationReason)
      requires sentinelRx != Some(Open)
      modifies this`sentinelRx
      ensures sentinelRx == None && refined == Refined(reason, old(sentinelRx))
    {
      var taken := sentinelRx;
      sentinelRx := None;
      if taken.None? {
        return reason;
      }
      var sentinelOk := if taken.value.Holds? then taken.value.message else false;
      match reason
      case Unknown(status) =>
        refined := if sentinelOk then CleanExit(status) else ExternalKill(status);
      case _ =>
        refined := reason;
    }

    method WaitDiagnosedCall(plain: Result<U32>) returns (answer: Answer)
      modifies this
      ensures (State(), answer) == WaitDiagnosed(old(State()), plain)
    {
      if cachedReason.Some? {
        var reason := IntoReason(cachedReason.value);
        cachedReason := Some(FromReason(reason));
        return Reason(Ok(reason));
      }
      if exitRx == Some(Open) {
        return Blocked;
      }
      var raw: TerminationResult;
      if exitRx.Some? && exitRx.value.Holds? {
        raw := exitRx.value.message;
        if raw.Ok? && sentinelRx == Some(Open) {
          // the call will be held up below, with the message in hand
          return Blocked;
        }
        exitRx := Some(Closed);
      } else {
        raw := PlainReason(plain);
      }
      if raw.Err? {
        return Reason(raw);
      }
      if sentinelRx == Some(Open) {
        return Blocked;
      }
      var reason := RefineWithSentinel(raw.value);
      cachedReason := Some(FromReason(reason));
      answer := Reason(Ok(reason));
    }

    method WaitCall(plain: Result<U32>) returns (answer: Answer)
      modifies this
      ensures var r := WaitDiagnosed(old(State()), plain);
        State() == r.0 && answer == StatusOf(r.1)
    {
      answer := WaitDiagnosedCall(plain);
      if answer.Reason? {
        if answer.result.Ok? {
          answer := Status(Ok(ReasonToExitStatus(answer.result.value)));
        } else {
          answer := Status(Err(answer.result.error));
        }
      }
    }
  }

  // ------------------------------------------------------------------- stability

  predicate Succeeds(a: Answer) {
    (a.Reason? && a.result.Ok?) || (a.Status? && a.status.Ok?)
  }

  function AnswerFor(reason: TerminationReason, c: Call): Answer {
    if c.statusOnly then Status(Ok(ReasonToExitStatus(reason))) else Reason(Ok(reason))
  }

  /** Once a reason is cached, a call answers with it whatever the channels and the process
      have to say, and caches it again. */
  lemma {:induction false} CachedAnswers(s: ChildState, reason: TerminationReason, c: Call)
    requires s.cached == Some(FromReason(reason))
    ensures Do(s, c).0.cached == Some(FromReason(reason)) && Do(s, c).1 == AnswerFor(reason, c)
    ensures Do(s, c).0.exitRx == Evolved(s.exitRx, c.exitNow)
    ensures Do(s, c).0.sentinelRx == Evolved(s.sentinelRx, c.sentinelNow)
  {}

  lemma {:induction false} AfterSnoc(s: ChildState, calls: seq<Call>, c: Call)
    ensures After(s, calls + [c]) == Do(After(s, calls), c).0
  {
    assert (calls + [c])[..|calls|] == calls;
  }

  lemma {:induction false} CachedForEver(s: ChildState, calls: seq<Call>, i: nat, j: nat, reason: TerminationReason)
    requires i <= j <= |calls|
    requires After(s, calls[..i]).cached == Some(FromReason(reason))
    ensures After(s, calls[..j]).cached == Some(FromReason(reason))
  {
    if i < j {
      CachedForEver(s, calls, i, j - 1, reason);
      assert calls[..j] == calls[..j - 1] + [calls[j - 1]];
      AfterSnoc(s, calls[..j - 1], calls[j - 1]);
      CachedAnswers(After(s, calls[..j - 1]), reason, calls[j - 1]);
    }
  }

  /** The reason a successful call answers from. */
  function FoundBy(s: ChildState, c: Call): TerminationReason {
    var now := s.(exitRx := Evolved(s.exitRx, c.exitNow), sentinelRx := Evolved(s.sentinelRx, c.sentinelNow));
    var r := WaitDiagnosed(now, c.plain).1;
    if r.Reason? && r.result.Ok? then r.result.value else Unknown(ExitStatus(0))
  }

  /** From the first successful call on, every mix of `wait` and `wait_diagnosed` answers from
      one and the same reason, for ever, and no call after it reads the exit channel or keeps a
      sentinel receiver: the one changes on its own account only, the other is gone. */
  lemma {:induction false} StableAnswers(s: ChildState, calls: seq<Call>, i: nat, j: nat)
    requires i <= j < |calls| && Succeeds(AnswerOf(s, calls, i))
    ensures
      var reason := FoundBy(After(s, calls[..i]), calls[i]);
      && AnswerOf(s, calls, i) == AnswerFor(reason, calls[i])
      && AnswerOf(s, calls, j) == AnswerFor(reason, calls[j])
    ensures s.cached.None? ==> After(s, calls[..j + 1]).sentinelRx.None?
    ensures i < j ==> After(s, calls[..j + 1]).exitRx == Evolved(After(s, calls[..j]).exitRx, calls[j].exitNow)
  {
    var before := After(s, calls[..i]);
    var reason := FoundBy(before, calls[i]);
    assert calls[..i + 1][..i] == calls[..i] && calls[..j + 1][..j] == calls[..j];
    if before.cached.Some? {
      CacheRoundTrip(reason, before.cached.value);
    }
    if s.cached.None? {
      SentinelTakenOnSuccess(s, calls[..j + 1]);
      assert calls[..j + 1][..i] == calls[..i];
    }
    assert After(s, calls[..i + 1]).cached == Some(FromReason(reason));
    if i < j {
      CachedForEver(s, calls, i + 1, j, reason);
      CachedAnswers(After(s, calls[..j]), reason, calls[j]);
    }
  }

  /** The sentinel receiver is taken by the first success and by nothing else: a blocked call
      or an error leaves it, and leaves nothing cached. */
  lemma {:induction false} SentinelTakenOnSuccess(s: ChildState, calls: seq<Call>)
    requires s.cached.None?
    ensures
      var t := After(s, calls);
      && (t.cached.Some? <==> exists i :: 0 <= i < |calls| && Succeeds(AnswerOf(s, calls, i)))
      && (t.cached.Some? ==> t.sentinelRx.None?)
      && (t.cached.None? ==> (t.sentinelRx.Some? <==> s.sentinelRx.Some?))
  {
    if calls != [] {
      var n := |calls| - 1;
      var front := calls[..n];
      SentinelTakenOnSuccess(s, front);
      forall i | 0 <= i < n ensures AnswerOf(s, front, i) == AnswerOf(s, calls, i) {
        assert front[..i] == calls[..i];
      }
      assert Succeeds(AnswerOf(s, calls, n)) <==> After(s, calls).cached.Some?;
      if After(s, front).cached.Some? {
        var i :| 0 <= i < n && Succeeds(AnswerOf(s, front, i));
        assert Succeeds(AnswerOf(s, calls, i));
      }
    }
  }

  // -------------------------------------------------------------- what is answered

  /** `wait` and `wait_diagnosed` do the same and answer alike: both are held up, both report the
      same error, or the status is the exit code that the reason stands for. */
  lemma {:induction false} StatusAnswers(s: ChildState, c: Call)
    ensures
      var full, short := Do(s, c.(statusOnly := false)), Do(s, c.(statusOnly := true));
      && full.0 == short.0
      && (full.1 == Blocked <==> short.1 == Blocked)
      && (forall e :: full.1 == Reason(Err(e)) <==> short.1 == Status(Err(e)))
      && (forall st :: full.1 == Reason(Ok(Unknown(st))) ==> short.1 == Status(Ok(st)))
      && (forall st :: full.1 == Reason(Ok(CleanExit(st))) ==> short.1 == Status(Ok(st)))
      && (forall st :: full.1 == Reason(Ok(ExternalKill(st))) ==> short.1 == Status(Ok(st)))
      && (forall code :: full.1 == Reason(Ok(FastFail(code))) ==> short.1 == Status(Ok(ExitStatus(code))))
      && (forall code, address ::
            full.1 == Reason(Ok(Crash(code, address))) ==> short.1 == Status(Ok(ExitStatus(code))))
  {}

  /** A fresh handle without a sentinel whose child leaves only an exit code, be it that nothing
      monitors it, that its monitor is gone, or that its monitor found no cause: `wait` answers
      with that code. */
  lemma {:induction false} ExitCodeIsStatus(exitRx: Option<Receiver<TerminationResult>>, c: Call, code: U32)
    requires c.statusOnly
    requires if exitRx.Some? && exitRx.value.Holds? then exitRx.value.message == Ok(Unknown(ExitStatus(code)))
             else exitRx != Some(Open) && c.plain == Ok(code)
    ensures Do(ChildState(exitRx, None, None), c).1 == Status(Ok(ExitStatus(code)))
  {
    var s := ChildState(exitRx, None, None);
    assert RawReason(s, c.plain) == Ok(Unknown(ExitStatus(code)));
  }

  /** When there is nothing to go by but the process, and waiting for it fails, the answer is that
      error, and the next call waits again: the handle is left as it was. */
  lemma {:induction false} FailedWaitIsAnswered(exitRx: Option<Receiver<TerminationResult>>,
                                                sentinelRx: Option<Receiver<bool>>, c: Call, e: int)
    requires exitRx == None || exitRx == Some(Closed)
    requires c.plain == Err(e)
    ensures
      var s := ChildState(exitRx, sentinelRx, None);
      && Do(s, c).1 == (if c.statusOnly then Status(Err(e)) else Reason(Err(e)))
      && Do(s, c).0 == ChildState(exitRx, Evolved(sentinelRx, c.sentinelNow), None)
  {
    assert RawReason(ChildState(exitRx, sentinelRx, None), c.plain) == Err(e);
  }

  /** The reason that a handle comes to, once its channels have resolved: what the monitor sent,
      or the exit code if it sent nothing; and an exit without a known cause is clean if the
      sentinel was received and a kill if it was not, unless there is no sentinel. */
  function FinalReason(sent: Option<TerminationReason>, code: U32, sentinel: Option<bool>): TerminationReason {
    var raw := if sent.Some? then sent.value else Unknown(ExitStatus(code));
    match (raw, sentinel)
    case (Unknown(st), Some(true)) => CleanExit(st)
    case (Unknown(st), Some(false)) => ExternalKill(st)
    case _ => raw
  }

  /** What a channel has resolved to; a sender that is gone has sent nothing. */
  function ExitEnd(sent: Option<TerminationReason>): Receiver<TerminationResult> {
    if sent.Some? then Holds(Ok(sent.value)) else Closed
  }

  /** A call that finds each channel still open or as it ends up. */
  predicate ResolvesTo(c: Call, sent: Option<TerminationReason>, code: U32, sentinelEnd: Option<Receiver<bool>>) {
    && (c.exitNow == Open || c.exitNow == ExitEnd(sent))
    && (sentinelEnd.None? || c.sentinelNow == Open || c.sentinelNow == sentinelEnd.value)
    && c.plain == Ok(code)
  }

  /** A handle whose monitor is at work, with or without a sentinel. */
  function FreshHandle(withSentinel: bool): ChildState {
    ChildState(Some(Open), if withSentinel then Some(Open) else None, None)
  }

  predicate ExitSeen(calls: seq<Call>) {
    exists k :: 0 <= k < |calls| && calls[k].exitNow != Open
  }

  predicate SentinelSeen(calls: seq<Call>) {
    exists k :: 0 <= k < |calls| && calls[k].sentinelNow != Open
  }

  lemma {:induction false} SeenSnoc(calls: seq<Call>, c: Call)
    ensures ExitSeen(calls + [c]) <==> ExitSeen(calls) || c.exitNow != Open
    ensures SentinelSeen(calls + [c]) <==> SentinelSeen(calls) || c.sentinelNow != Open
  {
    var all := calls + [c];
    assert all[|calls|] == c && forall k :: 0 <= k < |calls| ==> all[k] == calls[k];
    if k :| 0 <= k < |calls| && calls[k].exitNow != Open {
      assert all[k].exitNow != Open;
    }
    if k :| 0 <= k < |calls| && calls[k].sentinelNow != Open {
      assert all[k].sentinelNow != Open;
    }
  }

  /** Where a handle stands whose channels have, or have not yet, been found resolved. */
  predicate Stands(t: ChildState, sent: Option<TerminationReason>, code: U32, sentinelEnd: Option<Receiver<bool>>,
                   exitSeen: bool, sentinelSeen: bool)
    requires sentinelEnd != Some(Open)
  {
    if exitSeen && (sentinelEnd.None? || sentinelSeen) then
      t.cached == Some(FromReason(FinalReason(sent, code, Meant(sentinelEnd))))
    else
      && t.cached.None?
      && t.exitRx == Some(if exitSeen then ExitEnd(sent) else Open)
      && t.sentinelRx == if sentinelEnd.None? then None else Some(if sentinelSeen then sentinelEnd.value else Open)
  }

  /** A sentinel channel that closes without a message means that none was received. */
  function Meant(sentinelEnd: Option<Receiver<bool>>): Option<bool>
    requires sentinelEnd != Some(Open)
  {
    match sentinelEnd
    case None => None
    case Some(Holds(received)) => Some(received)
    case Some(Closed) => Some(false)
  }

  lemma {:induction false} CallAdvances(t: ChildState, c: Call, sent: Option<TerminationReason>, code: U32,
                                        sentinelEnd: Option<Receiver<bool>>, exitSeen: bool, sentinelSeen: bool)
    requires sentinelEnd != Some(Open) && Stands(t, sent, code, sentinelEnd, exitSeen, sentinelSeen)
    requires ResolvesTo(c, sent, code, sentinelEnd)
    ensures
      var x, y := exitSeen || c.exitNow != Open, sentinelSeen || c.sentinelNow != Open;
      && Stands(Do(t, c).0, sent, code, sentinelEnd, x, y)
      && Do(t, c).1 == if x && (sentinelEnd.None? || y) then AnswerFor(FinalReason(sent, code, Meant(sentinelEnd)), c)
                       else Blocked
  {
    var reason := FinalReason(sent, code, Meant(sentinelEnd));
    CacheRoundTrip(reason, FromReason(reason));
  }

  /** Over every mix of calls on a fresh handle, whenever its channels resolve: a call is held up
      exactly until the exit channel, and the sentinel's if there is one, have been found
      resolved, and every other call answers from the one final reason.  No call that is held up
      loses a message. */
  lemma {:induction false} AnswersExactly(calls: seq<Call>, n: nat, sent: Option<TerminationReason>, code: U32,
                                          sentinelEnd: Option<Receiver<bool>>)
    requires n < |calls| && sentinelEnd != Some(Open)
    requires forall i :: 0 <= i < |calls| ==> ResolvesTo(calls[i], sent, code, sentinelEnd)
    ensures
      AnswerOf(FreshHandle(sentinelEnd.Some?), calls, n) ==
        if ExitSeen(calls[..n + 1]) && (sentinelEnd.None? || SentinelSeen(calls[..n + 1])) then
          AnswerFor(FinalReason(sent, code, Meant(sentinelEnd)), calls[n])
        else Blocked
  {
    var s := FreshHandle(sentinelEnd.Some?);
    StandsAfter(calls, n, sent, code, sentinelEnd);
    var front := calls[..n];
    CallAdvances(After(s, front), calls[n], sent, code, sentinelEnd, ExitSeen(front), SentinelSeen(front));
    SeenSnoc(calls[..n], calls[n]);
    assert calls[..n + 1] == calls[..n] + [calls[n]];
  }

  lemma {:induction false} StandsAfter(calls: seq<Call>, n: nat, sent: Option<TerminationReason>, code: U32,
                                       sentinelEnd: Option<Receiver<bool>>)
    requires n <= |calls| && sentinelEnd != Some(Open)
    requires forall i :: 0 <= i < |calls| ==> ResolvesTo(calls[i], sent, code, sentinelEnd)
    ensures
      var front := calls[..n];
      var now := After(FreshHandle(sentinelEnd.Some?), front);
      Stands(now, sent, code, sentinelEnd, ExitSeen(front), SentinelSeen(front))
  {
    if n > 0 {
      var s := FreshHandle(sentinelEnd.Some?);
      var front, c := calls[..n - 1], calls[n - 1];
      StandsAfter(calls, n - 1, sent, code, sentinelEnd);
      CallAdvances(After(s, front), c, sent, code, sentinelEnd, ExitSeen(front), SentinelSeen(front));
      SeenSnoc(front, c);
      assert calls[..n] == front + [c] && calls[..n][..n - 1] == front;
    }
  }

  lemma {:induction false} AfterFirst(s: ChildState, c: Call, calls: seq<Call>)
    ensures After(s, [c] + calls) == After(Do(s, c).0, calls)
  {
    if calls == [] {
      assert [c] + calls == [] + [c];
      AfterSnoc(s, [], c);
    } else {
      var front, last := calls[..|calls| - 1], calls[|calls| - 1];
      AfterFirst(s, c, front);
      assert [c] + calls == [c] + front + [last] && calls == front + [last];
      AfterSnoc(s, [c] + front, last);
      AfterSnoc(Do(s, c).0, front, last);
    }
  }

  /** An error that was sent is answered once: every later call answers as on a handle whose
      channel has closed without a message, and the sentinel is still there for it. */
  lemma {:induction false} ErrorAnsweredOnce(sentinelRx: Option<Receiver<bool>>, e: int, c: Call, calls: seq<Call>,
                                            n: nat)
    requires n < |calls|
    ensures
      var s := ChildState(Some(Holds(Err(e))), sentinelRx, None);
      var closed := ChildState(Some(Closed), Evolved(sentinelRx, c.sentinelNow), None);
      && AnswerOf(s, [c] + calls, 0) == (if c.statusOnly then Status(Err(e)) else Reason(Err(e)))
      && AnswerOf(s, [c] + calls, n + 1) == AnswerOf(closed, calls, n)
  {
    var s := ChildState(Some(Holds(Err(e))), sentinelRx, None);
    var all := [c] + calls;
    assert all[..0] == [] && all[..n + 1] == [c] + calls[..n] && all[n + 1] == calls[n];
    AfterFirst(s, c, calls[..n]);
  }
}
