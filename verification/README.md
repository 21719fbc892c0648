# Verification of worrywart's event routing and serializers

worrywart launches Windows child processes and says why each one ended. This project models the
parts of it that are its own logic and proves properties of them in Dafny:

- `CommandLine.dfy`: the command-line printer, against the rules by which Microsoft's C runtime
  splits a command line ("Parsing C command-line arguments").
- `EnvBlock.dfy`, `BlockLayout.dfy`: the builder's override log and the environment block, against a
  plain map and a reader of such blocks; the block's order and entries unit by unit.
- `Sentinel.dfy`: the reader of 8-byte sentinel frames.
- `Pump.dfy`, `PumpProofs.dfy`, `PumpEvents.dfy`, `PumpProtocol.dfy`, `PumpReturn.dfy`: the debug pump
  thread, the refinement of one machine per child, which events it obtains, conservation of channel
  senders, order of acts, progress, and how the thread returns.
- `Iocp.dfy`, `IocpProofs.dfy`, `IocpPackets.dfy`: the completion-port listener, its rendezvous, its
  return, and what it makes of each packet.
- `Waiter.dfy`: the handle that callers wait on.
- `EndToEnd.dfy`: from events to the final answer.
- `Termination.dfy`, `Counting.dfy`: shared types, and counting in sequences and maps.

Threads are classes whose methods are proved against step functions; the theorems are about every
run of those functions. Everything outside a thread is a parameter: what arrives on its channel,
what a creation or a wait yields, what a read returns. A timeout is one possible outcome; nothing
depends on time. Each thread keeps a trace of what it does to the outside, and senders are numbers,
so that sending, dropping and displacing them can be counted. A thread that has returned has dropped
its table and its channel. Every lemma turns Dafny's automatic induction off, so its body is its
whole proof. A theorem about one sender asks that this sender was handed over once, which Rust's
ownership guarantees.

## Where the code and its documentation differ

- `crates/worrywart/src/core.rs:188` says that `env_remove` removes an environment variable. It
  removes overrides of that exact name: an inherited variable stays, and so does an override in
  another case, which the child finds under the same name (`EnvBlock.RemoveHidesOnlyOverrides`,
  `EnvBlock.RemoveLeavesVariable`).
- `crates/worrywart/src/core.rs:181` says that `env` sets or overrides a variable. Overrides are matched
  by exact name and Windows looks names up without regard to case, so an override of an inherited name
  in another case is never found (`EnvBlock.OverrideFoundExactly`, `EnvBlock.OverrideShadowed`).
- `crates/worrywart/src/core.rs:441` calls the last NUL the double-NUL terminator. When the builder has
  cleared the environment and no override is left, the block is a single NUL
  (`EnvBlock.DoubleNulExactly`).
- `crates/worrywart/src/iocp.rs:161` says that a timeout loops back. The shutdown key is tested first,
  and it is the value the key variable has when a timeout stores nothing, so the listener returns at its
  first idle wait (`IocpProofs.TimeoutEndsListener`, `IocpProofs.EarlyReturnLosesExit`). The model
  follows the code; the other order is a parameter of the step function for comparison.
- `crates/worrywart/src/pump.rs:14-15` says that the thread ends when no more children are tracked.
  `Shutdown` ends it at once (`PumpProtocol.ShutdownIsPrompt`). The thread ends as documented in every
  run without `Shutdown` (`PumpReturn.OnlyShutdownAbandons`) and leaves tracked children behind exactly
  if it takes `Shutdown` while it tracks some (`PumpReturn.AbandonsExactly`); those children
  lose the exceptions recorded for them (`EndToEnd.ShutdownLosesException`,
  `EndToEnd.ExceptionReportedExactly`).
- `crates/worrywart/src/termination.rs:38-39` says that `ExternalKill` needs the sentinel. A system
  error event, and nothing else, yields it to a handle without a sentinel
  (`EndToEnd.KillWithoutSentinelExactly`, `EndToEnd.SystemErrorKills`).

## Model

| member | source | states |
|---|---|---|
| CommandLine.QuoteArg | crates/worrywart/src/core.rs:474-506 | appends to the buffer the text that the run-by-run quoting rules ask for and leaves what is already there unchanged; the one-pass counter of pending backslashes computes those rules |
| CommandLine.BuildCommandLine | crates/worrywart/src/core.rs:464-472 | the quoted program, then each quoted argument after one space, then a NUL |
| CommandLine.EscapedInOnePass | crates/worrywart/src/core.rs:482-504 | the character loop with its pending counter equals the specification by runs of backslashes |
| CommandLine.QuotedLength | crates/worrywart/src/core.rs:474-506 | quoting keeps every character and adds at most one more per character and the two quote marks |
| CommandLine.VerbatimExactly | crates/worrywart/src/core.rs:474-480 | an argument is printed as it stands if and only if it is not empty and has no space, tab or quote mark |
| CommandLine.LineLayout | crates/worrywart/src/core.rs:464-472 | the line is the printed program, and each further argument adds one space and its printed form at the end |
| CommandLine.RoundTrip | crates/worrywart/src/core.rs:464-506 | Microsoft's argv rules (all three treatments of doubled quote marks) give back exactly the program and the arguments if and only if nothing contains a NUL and the program has no quote mark and no backslash right before a closing quote |
| CommandLine.PrintingIsInjective | crates/worrywart/src/core.rs:464-506 | two different safe commands never print the same line |
| EnvBlock.WorrywartCommand.Env | crates/worrywart/src/core.rs:181-186 | appends an override to the log and changes nothing else |
| EnvBlock.WorrywartCommand.EnvRemove | crates/worrywart/src/core.rs:188-192 | removes every override of that exact name and keeps the others in order |
| EnvBlock.WorrywartCommand.EnvClear | crates/worrywart/src/core.rs:194-199 | forgets the log and cuts off the inherited environment |
| EnvBlock.WorrywartCommand.PushSentinelHandle | crates/worrywart/src/core.rs:234-239 | the sentinel handle is the last override |
| EnvBlock.WorrywartCommand.BuildEnvBlock | crates/worrywart/src/core.rs:399-443 | no block when nothing is overridden or cleared, otherwise the serialized, stably sorted merge of the inherited pairs and the log |
| EnvBlock.FoldMeaning | crates/worrywart/src/core.rs:421-431 | sort keys are equal exactly for names that differ in the case of ASCII letters only |
| EnvBlock.LexMeaning | crates/worrywart/src/core.rs:432 | keys are compared by code unit at their first difference, a prefix first |
| EnvBlock.StableSortIsStable | crates/worrywart/src/core.rs:432 | the sort yields a sorted permutation that keeps the order of pairs with equal keys |
| EnvBlock.StableSortIsUnique | crates/worrywart/src/core.rs:432 | a sorted sequence with the same order inside every name is unique, so the choice of stable algorithm does not matter |
| EnvBlock.LogMeansOverrides | crates/worrywart/src/core.rs:181-199 | the log left by any sequence of builder calls means the last-write-wins map of those calls |
| EnvBlock.PairsMeanEnvironment | crates/worrywart/src/core.rs:399-432 | for every sequence of builder calls the pairs the child finds, serialized or inherited, mean (cleared ? nothing : parent) overlaid by the overrides |
| EnvBlock.RemoveHidesOnlyOverrides | crates/worrywart/src/core.rs:188-192 | after `env_remove` a child that ignores case no longer finds the name if and only if no other override spells it in any case and, unless the environment was cleared, no inherited name does; a child that compares exactly, if and only if the environment was cleared or the name was not inherited |
| EnvBlock.RemoveLeavesVariable | crates/worrywart/src/core.rs:188-192 | two inputs at which the variable stays: inherited under the very name, and overridden in another case in a cleared environment |
| EnvBlock.OverriddenOnce | crates/worrywart/src/core.rs:410-414 | an overridden exact name occurs once among the pairs the child finds, any other as often as it was inherited |
| EnvBlock.SettingsInOrder | crates/worrywart/src/core.rs:181-199 | the overrides, listed by the last call that set each, are exactly the last-write-wins map |
| EnvBlock.MatchesInOrder | crates/worrywart/src/core.rs:410-432 | under every name, a reader that ignores case meets the inherited spellings that are not overridden and then the overrides in the order in which they were last set |
| EnvBlock.OverrideFoundExactly | crates/worrywart/src/core.rs:410-432 | an override is the first match for a reader that ignores case if and only if no inherited name that is not overridden spells it in another case and no other override that does was last set before it |
| EnvBlock.OverrideShadowed | crates/worrywart/src/core.rs:181-186 | an input at which an override is lost to such a reader: the name is inherited in another case |
| EnvBlock.SentinelHandleWins | crates/worrywart/src/core.rs:234-239 | the handle is the one value of its exact name; for a reader that ignores case it is the first match if and only if the environment without it has no other spelling of the name |
| EnvBlock.BlockRoundTrip | crates/worrywart/src/core.rs:434-441 | splitting the block on NUL and at the first equals sign after index 0 returns the pairs if and only if every name is non-empty, NUL-free and without an equals sign after index 0 and every value is NUL-free |
| EnvBlock.ChildReadsEnvironment | crates/worrywart/src/core.rs:399-443 | what a child reads from its block, or inherits, is the reference environment for a reader that compares exactly, and for one that ignores case the matches of every name in their order |
| EnvBlock.DoubleNulExactly | crates/worrywart/src/core.rs:441 | a block that is passed ends in two NULs if and only if some override is left, and is a single NUL otherwise |
| BlockLayout.InheritsExactly | crates/worrywart/src/core.rs:399-402 | the environment is inherited if and only if the calls never cleared it and leave no override |
| BlockLayout.BlockAscends | crates/worrywart/src/core.rs:416-432 | in every block, and in what a child reads from it, of any two names in order the folded one of the first is a prefix of that of the second or has the smaller unit where they first differ |
| BlockLayout.EntryLayout | crates/worrywart/src/core.rs:434-442 | one more pair puts its name, an equals sign (61), its value and a NUL (0) before the last NUL |
| BlockLayout.SentinelVariable | crates/worrywart/src/core.rs:234-239 | the handle is pushed under the name WORRYWART_SENTINEL_HANDLE |
| Sentinel.SentinelThread | crates/worrywart/src/sentinel.rs:111-149 | for every way the byte stream is cut into reads, the answer is whether some complete frame at a multiple of 8 bytes begins with the magic; stale buffer bytes never matter |
| Sentinel.StreamMeaning | crates/worrywart/src/sentinel.rs:116-130 | the byte stream is what the reads return one after the other, up to the first that returns nothing |
| Sentinel.ReadFile | crates/worrywart/src/sentinel.rs:118-126 | a read fills the buffer from the offset on and leaves the rest as it was |
| Sentinel.FrameGrows | crates/worrywart/src/sentinel.rs:131-138 | bytes that do not complete a frame change no answer, and a completed frame changes it by its own first four bytes alone |
| Pump.PumpThread.DispatchEvent | crates/worrywart/src/pump.rs:425-531 | table, outside acts and continue status after one debug event |
| Pump.PumpThread.ServeSpawn | crates/worrywart/src/pump.rs:214-239 | table insertion and the one reply to a spawn request, for a successful and a failed creation |
| Pump.PumpThread.PumpLoop | crates/worrywart/src/pump.rs:194-276 | the loop computes the step machine, iteration by iteration, and returns on `Shutdown` or when every sender is gone while no child is tracked |
| PumpEvents.ObtainedExactly | crates/worrywart/src/pump.rs:249-271 | over every run the debug events obtained are, in order and once each, those that the waits yield in exactly the iterations in which the thread runs, does not take `Shutdown` and tracks a child |
| PumpEvents.EndedExactly | crates/worrywart/src/pump.rs:194-276 | over every run a child has ended if and only if an iteration took its request and created it and the event obtained in a later one, or the same, ended its process before the id was given again; it has then seen exactly the events obtained under its id in between |
| PumpEvents.MaskOfRequest | crates/worrywart/src/pump.rs:447-462 | the affinity set for a child is the mask of its own request, once, if that is not zero and it has had a breakpoint |
| PumpProofs.EntryAfter | crates/worrywart/src/pump.rs:440-486 | the table entry follows from the child's events: the first breakpoint exception is the loader's, the last other second-chance exception is remembered |
| PumpProofs.VerdictAfter | crates/worrywart/src/pump.rs:534-547 | classifying from the table entry gives the verdict of the child's own events |
| Termination.CastsKeepBits | crates/worrywart/src/pump.rs:534-547 | the casts between signed and unsigned codes yield the number of the other type that is congruent modulo 2 to the 32 |
| PumpProofs.TableRefinesChildren | crates/worrywart/src/pump.rs:194-276 | over every interleaving, a child whose sender was handed over once has its own entry exactly while it lives, gets the verdict of its own events exactly once when it ends, and has its non-zero affinity mask set once, at its first breakpoint, if it reaches one |
| PumpProofs.SendersConserved | crates/worrywart/src/pump.rs:202-246 | over every run each exit sender is in exactly one place: queued, in the table, used once, or dropped |
| PumpProofs.NoWaiterStranded | crates/worrywart/src/pump.rs:240-246 | an exit channel gets at most one message, and is open and empty exactly while the thread runs and still has the sender queued or in the table |
| PumpProofs.ReceiverGetsVerdict | crates/worrywart/src/pump.rs:488-498 | the channel of a child that ended holds its verdict; otherwise it holds nothing, and is closed once the thread has returned |
| PumpProtocol.ProtocolKept | crates/worrywart/src/pump.rs:212-271 | every event obtained is continued once under its own ids before anything else is done; affinity and exit reasons only inside an event of a tracked child; an event of an untracked process is passed back at once, unhandled if it is an exception, with nothing else done; each successful creation is answered right after its entry is inserted, before any event; the table tracks the processes inserted since their last terminal event |
| PumpProtocol.StatusMeaning | crates/worrywart/src/pump.rs:447-485 | a tracked child's event is passed back unhandled if and only if it is an exception other than the loader breakpoint |
| PumpProtocol.RepliesConserved | crates/worrywart/src/pump.rs:173-181 | each reply sender is queued, used exactly once, or dropped |
| PumpProtocol.ShutdownIsPrompt | crates/worrywart/src/pump.rs:198-248 | with n messages ahead of `Shutdown` the loop returns in iteration n + 1 and not before, whatever else happens |
| PumpProtocol.SpawnIsAnswered | crates/worrywart/src/pump.rs:212-239 | a request with k messages and no `Shutdown` ahead is answered in iteration k + 1: that iteration adds one reply on its sender, and it is what its creation yields |
| PumpReturn.ReturnsExactly | crates/worrywart/src/pump.rs:198-248 | over every run the thread has returned if and only if it took `Shutdown` or, tracking no child, found its channel empty and without a sender |
| PumpReturn.AbandonsExactly | crates/worrywart/src/pump.rs:240-246 | over every run the thread has returned with a tracked child left behind if and only if it took `Shutdown` while it tracked one |
| PumpReturn.OnlyShutdownAbandons | crates/worrywart/src/pump.rs:14-15 | in a run in which `Shutdown` was not sent the thread ends when and only when its channel is closed and no child is tracked |
| Iocp.IocpThread.TakeRegistrations | crates/worrywart/src/iocp.rs:129-141 | empties the channel; each registration takes a held result or waits, displacing an older registration of the same process |
| Iocp.IocpThread.DispatchNotification | crates/worrywart/src/iocp.rs:175-195 | non-exit messages change nothing; an exit serves its waiter or is held |
| Iocp.IocpThread.DrainRemaining | crates/worrywart/src/iocp.rs:200-223 | takes packets until a timeout or a shutdown packet |
| Iocp.IocpThread.IocpLoop | crates/worrywart/src/iocp.rs:122-168 | the loop computes the step machine in the order the code has its tests |
| IocpProofs.ListenerRendezvous | crates/worrywart/src/iocp.rs:122-195 | in every run the two maps share no process, and a process with at most one registration and one exit is waited for, held, or served once with its own result |
| IocpProofs.OrderIndependent | crates/worrywart/src/iocp.rs:128-195 | for such a process every reordering of all registrations and exits leads to the same maps and the same delivery |
| IocpProofs.OwnResultExactly | crates/worrywart/src/iocp.rs:134-138 | after any history: a new registrant whose process exits later gets a reason held under that process id if there is one, and its own otherwise; one whose process exited earlier gets its own if nobody was waiting under the id then, and none otherwise |
| IocpProofs.DeliveriesSourced | crates/worrywart/src/iocp.rs:134-194 | over every run, with ids reused or not, each delivery joins a registration and an exit packet of one process id, everything held is an exit and everything waited for was registered |
| IocpProofs.SendersConserved | crates/worrywart/src/iocp.rs:104-106 | over every run each registered sender is in exactly one place |
| IocpProofs.NoWaiterStranded | crates/worrywart/src/iocp.rs:150-158 | an exit channel gets at most one message, and is open and empty exactly while the listener runs and has its sender queued or waiting |
| IocpProofs.TimeoutEndsListener | crates/worrywart/src/iocp.rs:143-163 | on a system that stores no key on a timeout the listener runs exactly as long as every wait dequeues a job packet; with the two tests exchanged, exactly as long as no shutdown packet comes |
| IocpProofs.OrdersAgreeExactly | crates/worrywart/src/iocp.rs:150-163 | the two orders of the tests behave alike on every prefix of a run if and only if no timeout leaves the shutdown key before a shutdown packet has come |
| IocpProofs.EarlyReturnLosesExit | crates/worrywart/src/iocp.rs:150-163 | one idle wait before a registered child exits: closed channel as written, the reason with the tests exchanged |
| IocpProofs.ReceiverGetsResult | crates/worrywart/src/iocp.rs:186-194 | for a process registered and exiting at most once, its registrant finds a reason if and only if the listener has taken the registration and the exit with that reason |
| IocpPackets.MeetingsExactly | crates/worrywart/src/iocp.rs:122-223 | over every run the registrations and exits that the two maps hear of are, in order and once each, those of the rounds up to the first wait that ends the listener: what is in the channel, then the packet, or after the last wait the packets before the first timeout or key 0; messages 7 and 8 alone are exits |
| IocpPackets.ExitTakenExactly | crates/worrywart/src/iocp.rs:175-195 | an exit with its reason is taken if and only if a round that is reached dispatches a packet with message 7 or 8 for that process: 8 is a crash with the exit code, 7 an unknown exit with it |
| IocpPackets.RegistrationTakenExactly | crates/worrywart/src/iocp.rs:128-141 | a registration is taken if and only if a round that is reached finds it in the channel |
| IocpPackets.OtherMessagesIgnored | crates/worrywart/src/iocp.rs:170-184 | after any run a packet with a message other than 7 and 8 changes neither map and delivers nothing |
| IocpPackets.DrainServesWaiters | crates/worrywart/src/iocp.rs:200-223 | the drain dispatches exactly the exits among the packets before the first timeout or key 0, in order, and a waiting process gets the first of its results among them |
| IocpPackets.MapsRefineSlots | crates/worrywart/src/iocp.rs:122-195 | over every run, however often ids are reused, the two maps are one slot for each process, free, waiting or holding: the newest registration waits, the newest exit is held, and what meets is delivered in order |
| Waiter.WorrywartChild.RefineWithSentinel | crates/worrywart/src/core.rs:447-462 | takes the receiver and resolves `Unknown` only; a closed channel counts as no sentinel |
| Waiter.WorrywartChild.WaitDiagnosedCall | crates/worrywart/src/core.rs:597-626 | cache, channel, fallback, refinement and caching, with errors leaving sentinel and cache alone |
| Waiter.WorrywartChild.WaitCall | crates/worrywart/src/core.rs:591-594 | the status of the reason the same call would give |
| Waiter.StableAnswers | crates/worrywart/src/core.rs:591-626 | from the first success on every mix of the two calls answers from the same reason, through the cached form and its casts and whatever the channels hold; no later call reads the exit channel, and the sentinel receiver is gone |
| Waiter.SentinelTakenOnSuccess | crates/worrywart/src/core.rs:451-454 | the sentinel receiver is taken by the first success and by no blocked or failed call |
| Waiter.AnswersExactly | crates/worrywart/src/core.rs:597-626 | over every mix of calls and whenever the channels resolve, a call is held up exactly until the exit channel and the sentinel channel have been found resolved, and every other call answers from the one final reason; a closed sentinel channel counts as no sentinel received |
| Waiter.StatusAnswers | crates/worrywart/src/core.rs:591-594 | `wait` and `wait_diagnosed` change the handle alike and are held up and fail alike, and a success is the exit code or the exception code of the reason |
| Waiter.ExitCodeIsStatus | crates/worrywart/src/core.rs:693-701 | without a sentinel, a child that leaves only an exit code, monitored or not, makes `wait` answer with that code |
| Waiter.ErrorAnsweredOnce | crates/worrywart/src/core.rs:606-612 | an error that was sent is answered once, and later calls answer as after a closed channel, with the sentinel still there |
| Waiter.FailedWaitIsAnswered | crates/worrywart/src/core.rs:610-615 | an error of the plain wait is passed on and leaves the handle as it was |
| EndToEnd.VerdictClassified | crates/worrywart/src/core.rs:447-462 | the refined verdict meets the classification rules, in both directions for clean exits and kills |
| EndToEnd.VerdictStatus | crates/worrywart/src/core.rs:591-594 | the status `wait` reports: the exit code when nothing counts against the child, the code of the last exception that does otherwise, and 1 after a system error |
| EndToEnd.DebugApiVerdict | crates/worrywart/src/core.rs:597-626 | debug API and sentinel, over every pump run: clean exit, external kill, fast-fail and crash are reported exactly when the child's own events and the sentinel stream call for them |
| EndToEnd.DebugApiVerdictInRounds | crates/worrywart/src/core.rs:597-626 | the same in terms of what happens outside: the iteration that creates the child, the one whose event ends it, and the events obtained under its id in between |
| EndToEnd.KillWithoutSentinelExactly | crates/worrywart/src/core.rs:451-454 | debug API without a sentinel, over every pump run: never a clean exit, and an external kill if and only if a system error event ended the child |
| EndToEnd.PlainDebugVerdict | crates/worrywart/src/core.rs:597-626 | debug API without a sentinel, over every pump run that saw the child end: an unknown exit with code c if and only if it exited with c and nothing counts against it, a crash or fast-fail if and only if it exited and something does |
| EndToEnd.PlainDebugStatus | crates/worrywart/src/core.rs:591-594 | debug API without a sentinel: `wait` answers the exit code when nothing counts against the child, the code of the last exception that does otherwise, and 1 after a system error |
| EndToEnd.SystemErrorKills | crates/worrywart/src/pump.rs:515-527 | a one-iteration run in which a handle without a sentinel answers an external kill |
| EndToEnd.DebugApiFallback | crates/worrywart/src/core.rs:606-612 | when the pump ends first the answer comes from the exit code and the sentinel alone |
| EndToEnd.ExceptionReportedExactly | crates/worrywart/src/core.rs:597-626 | over every pump run a crash or a fast-fail is answered if and only if the pump has seen the child exit and an exception counts against it |
| EndToEnd.ShutdownLosesException | crates/worrywart/src/pump.rs:240-246 | a two-iteration run in which a second-chance exception is seen, `Shutdown` follows, and the child is reported as clean or killed |
| EndToEnd.JobObjectVerdict | crates/worrywart/src/iocp.rs:225-240 | job object and sentinel, over every listener run that found the only registration and dispatched the only exit packet: message 8 is a crash without an address, message 7 is resolved by the sentinel |
| EndToEnd.JobObjectFallback | crates/worrywart/src/core.rs:606-612 | when the listener has returned without serving a registrant the answer comes from the exit code and the sentinel alone |
| EndToEnd.CrashReportedExactly | crates/worrywart/src/iocp.rs:225-240 | over every listener run a crash is answered if and only if, before its return, the listener found the registration in its channel and dispatched a packet with message 8 of that process |

## Left out

- UTF-16 encoding and lossy decoding of arguments: text is a sequence of characters; every character that matters to quoting is one code unit.
- The Windows calls themselves, handles and their closing: creation, waits, reads and exit-code look-ups are parameters with any outcome.
- The look-up of an exit code by process id may find another process that has since reused the id; the code it finds is a parameter of the packet.
- That the kernel posts an exit packet for every child: the listener starts after the first child has been created, so no such claim is made.
- `spawn_plain`, `spawn_debug` and `spawn_job_monitored` beyond the channels and the environment they set up.
- The tokio-compatible layer: it delegates and has no logic of its own.
- Sentinel.SentinelThread: assumes that a read returns no more bytes than were asked for, as `ReadFile` guarantees.
- Waiter.WorrywartChild.WaitDiagnosedCall: a call held up on an open channel is an answer `Blocked` that leaves the handle as it is, so a call held up at the sentinel has not yet emptied the exit channel.
- CommandLine.QuoteArg: the output buffer goes in and comes back as a value instead of being changed in place; nothing else can refer to it in the code.
- Overrides are matched by exact name, as in the code; sort keys, and the reader that ignores case, fold ASCII letters only, as the code's sort does. The system's full case table is not modelled.
