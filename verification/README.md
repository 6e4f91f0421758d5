# Leo-One: verified models of its stateful cores

Leo-One manages remote machines: a C agent, a Go backend and a React frontend. This project
models the parts of it whose correctness depends on interleavings, on state kept across calls
or on two encodings that have to agree, and proves what they keep, for every input and every
run. `dafny verify dfyconfig.toml` checks the whole project.

| modules | component |
|---|---|
| `RelayModel`, `RelayInvariants`, `RelayPreservation`, `RelayTheorems`, `RelayCalls`, `RelayRaces`, `Relay` | remote-desktop relay: pairing, ending and forgetting sessions |
| `CommandLine`, `CommandLineBuilder` | Windows command-line builder, and the Microsoft C runtime parser it writes for |
| `SendQueue`, `WakeUp`, `Reconnect` | the agent's send queue, its wake-up protocol and its reconnection waits |
| `RateLimit`, `Limiter` | sliding-window limiter |
| `ExecSlots`, `Hub` | the agent's execution slots; the backend's registry of agent connections |
| `ScreenScaling`, `RemoteInput` | screen scaling, frame header, input from the browser to the screen |
| `Config`, `ConfigLines`, `ConfigProofs`, `ConfigValues` | configuration file |
| `FileTransfer` | download, verification and renaming of a file |
| `CpuMetrics` | CPU usage from per-core counters |
| `Cron` | schedule presets |
| `Basics`, `Sums`, `Folds`, `Decimal` | shared definitions and facts |

How the components are modelled:

* **Concurrency** is a transition system. Each mutex section is one atomic step, what a thread
  still has to do after it is a program counter, and a run is any sequence of enabled steps.
  `RelayModel.Step`, `WakeUp.Step`, `ExecSlots.Step` and `Hub.Step` are these systems; histories
  (pumps started, reasons reported, connections closed, messages accepted, results built) are part of the state.
  Sessions, connections, contexts and clients are numbered handles.
* **Objects that are updated in place** are classes whose methods are proved to do exactly what
  the corresponding step or specification function says (`Relay.Relay`, `SendQueue.Queue`,
  `Limiter.Limiter`, `Hub.Hub`, `ExecSlots.Slots`, `Reconnect.Backoff`, `FileTransfer.Download`,
  `CpuMetrics.Collector`); loops over buffers keep their arrays.
* **Clocks, schedulers, allocation, sockets and the file system** are parameters or steps: every
  outcome is covered.

Some properties that look natural do not hold of the code. Each comes with an input or a run
that shows it and with the exact condition under which the code does meet it:

* An ended id can come back to life while its tombstone stands, because `Register` does not look
  at the tombstones: `RelayRaces.NoResurrection` proves that this happens exactly in the runs
  that register a tombstoned id, and `RelayRaces.RevivalIsReachable` gives one. (`attach` alone
  never revives an id.)
* "pair_timeout" can end a paired session: `RelayRaces.PairTimeoutEndsPaired` proves that it does
  exactly if every side that was missing when the timer decided attaches before the session is
  ended and while no tombstone stands, and `RelayRaces.PairTimeoutCanEndPairedSession` that this
  is always possible.
* argv[0] is quoted like an argument, but the runtime reads a program name by other rules:
  `CommandLine.LineRoundTrip` proves that the whole line is read back exactly when argv[0] has no
  quote and does not both need quotes and end with a backslash, and
  `CommandLine.TailRoundTripIff` that the arguments after it are read back exactly when argv[0]
  needs no quotes or the quotes in it are balanced. Under the argument rules alone everything is
  read back.
* The view filter of the relay does not stop every input by itself: it looks at the first byte
  of a message, while the agent takes every piece of 65536 bytes that its callback receives for
  a message (`RemoteInput.LongMessageInjects`). `RemoteInput.NothingInjectedIff` says exactly
  which messages inject nothing; an agent in view mode never injects anything.
* A download can destroy the file it is meant to replace, or leave it under a `.part` name, if the
  requested name is the command's own `.part` name (`FileTransfer.EqualNamesAreUnsafe`).
  `FileTransfer.TransferIsSafe` proves exactly when a return keeps its promises.
* A tombstone can be removed by an earlier timer of the same id
  (`RelayRaces.EarlierTimerForgets`). `RelayRaces.TombstoneHasItsOwnTimer` proves that this takes
  the registration of a tombstoned id.
* A comment line is not always ignored: one that is longer than the line buffer is read in
  pieces, and an entry at its end takes effect (`ConfigProofs.LongCommentIsActedOn`).
  `ConfigLines.LineIsInertIff` proves which lines change nothing.
* A successful download is not always complete on disk: the result of `fclose` is ignored, and
  the digest is that of the bytes received (`FileTransfer.LossAtCloseGoesUnnoticed`).
  `FileTransfer.DeliversVerifiedBytes` proves that it is exactly if the close loses nothing.
* The overall CPU percentage can leave 0..100 if the 64-bit sums over the cores wrap
  (`CpuMetrics.OverallCanLeaveRange`). `CpuMetrics.PercentInRangeIff` says when a percentage is
  in range, and `CpuMetrics.OverallBetweenInTime` that 256 cores need 2^56 ticks to get there.

## Model

| member | source | states |
|---|---|---|
| RelayPreservation.StepKeepsInv | backend/internal/infrastructure/remotedesktop/relay.go:116-364 | every step of every call, timer, pump, `end` and tombstone keeps the whole invariant: registry, end-once, pump-once, owner, connection and tombstone parts |
| RelayPreservation.RefusalLeavesRegistry | backend/internal/infrastructure/remotedesktop/relay.go:154-203 | a refused attach creates no session and fills no slot; all it leaves is a call that closes the connection |
| RelayPreservation.FillChangesOneSlot | backend/internal/infrastructure/remotedesktop/relay.go:164-190 | an accepted attach fills exactly one slot, which was free, of the one live session of its id; no other session changes |
| RelayPreservation.CloseBoth | backend/internal/infrastructure/remotedesktop/relay.go:312-317 | closing the two slots of a session closes each connection held there once and no other connection |
| RelayTheorems.InvOverRun | backend/internal/infrastructure/remotedesktop/relay.go:116-364 | the invariant holds after every run from a state where it holds |
| RelayTheorems.RelaySafety | backend/internal/infrastructure/remotedesktop/relay.go:116-326 | in every reachable state each registered session is live and has a goroutine that will end it, an id has at most one live session, each session starts at most one pump and only when paired, MarkEnded is requested at most once and exactly when `end` is over, and each connection is accounted for |
| RelayTheorems.EndedBranchUnreachable | backend/internal/infrastructure/remotedesktop/relay.go:169-176 | no reachable registry holds an ended session, so the `ls.ended` branch of attach never runs |
| RelayTheorems.SlotsFrozen | backend/internal/infrastructure/remotedesktop/relay.go:178-190 | over any run, a filled slot keeps its connection and no slot changes once the session has ended, so `end` closes every connection the session ever held |
| RelayTheorems.RunLowersRank | backend/internal/infrastructure/remotedesktop/relay.go:212-326 | every goroutine step lowers a rank, counting the goroutines it starts |
| RelayTheorems.SomeoneCanMove | backend/internal/infrastructure/remotedesktop/relay.go:294-326 | no deadlock on `endOnce`: while a goroutine is unfinished, one can move |
| RelayTheorems.QuietIsClean | backend/internal/infrastructure/remotedesktop/relay.go:294-326 | with all goroutines finished: no session, no tombstone, every session ended and reported once, pumped once exactly if paired, every connection closed exactly once |
| RelayTheorems.InternalRunsAreBounded | backend/internal/infrastructure/remotedesktop/relay.go:212-326 | without new calls a run has at most as many steps as the rank of its start |
| RelayTheorems.RelayDrains | backend/internal/infrastructure/remotedesktop/relay.go:116-364 | after any run, once calls stop, every schedule ends within a bound and ends with nothing leaked |
| RelayCalls.EndSessionEnds | backend/internal/infrastructure/remotedesktop/relay.go:328-343 | in every continuation in which a call of EndSession has finished, the session that was registered under the id has ended, is out of the registry, was reported once and has each of its connections closed once; for an unknown id nothing changes |
| RelayCalls.EndForAgentEnds | backend/internal/infrastructure/remotedesktop/relay.go:345-364 | the same for every session of the agent that was registered when EndSessionsForAgent was called |
| RelayCalls.EndIsCalledBy | backend/internal/infrastructure/remotedesktop/relay.go:212-287 | `end` is called by a pair timer that finds its session registered and a side missing, by a pump that is over, by EndSession and by EndSessionsForAgent, on those sessions and with those reasons, and in no other way |
| RelayCalls.TimerLeavesPaired | backend/internal/infrastructure/remotedesktop/relay.go:212-222 | a pair timer that finds its session paired does nothing |
| RelayCalls.MarkCarriesReason | backend/internal/infrastructure/remotedesktop/relay.go:294-325 | the goroutine that endOnce admits reports its own reason and no other is reported |
| RelayCalls.PairedSessionLives | backend/internal/infrastructure/remotedesktop/relay.go:212-326 | a paired session that nobody is ending stays alive, registered and connected over every run in which its pump is not over and no call asks for its end |
| RelayCalls.CreationRecords | backend/internal/infrastructure/remotedesktop/relay.go:116-190 | a new session has the id, agent and mode of the call, and no connection but that of the attach that created it |
| RelayRaces.RevivalStep | backend/internal/infrastructure/remotedesktop/relay.go:116-126 | one step makes a tombstoned id live again if and only if it registers that id |
| RelayRaces.NoResurrection | backend/internal/infrastructure/remotedesktop/relay.go:116-176 | a run never has an id both live and tombstoned if and only if it never registers a tombstoned id |
| RelayRaces.RevivalIsReachable | backend/internal/infrastructure/remotedesktop/relay.go:116-326 | registering a session, letting its pair timer end it and registering the id again brings a tombstoned id back to life |
| RelayRaces.PlaceIsFinal | backend/internal/infrastructure/remotedesktop/relay.go:154-203 | over any run, whether a connection was refused or which slot it went to never changes |
| RelayRaces.AttachRefusedByTombstone | backend/internal/infrastructure/remotedesktop/relay.go:154-163 | an attach that meets a tombstone leaves the registry alone, and in every continuation its connection sits in no slot and is closed exactly once, by this call: never before the call is finished, once after |
| RelayRaces.TombstoneFreezesSlots | backend/internal/infrastructure/remotedesktop/relay.go:154-210 | over any run during which the tombstone of an id stands, no session of that id gains or loses a connection, and sessions registered meanwhile stay empty |
| RelayRaces.OneForgetterKept | backend/internal/infrastructure/remotedesktop/relay.go:296-310 | while no id is live and tombstoned, every step keeps: only a standing tombstone has a goroutine that will remove it, and only one |
| RelayRaces.TombstoneHasItsOwnTimer | backend/internal/infrastructure/remotedesktop/relay.go:294-310 | in every run that registers no tombstoned id, an id is tombstoned if and only if exactly one goroutine is there to forget it |
| RelayRaces.EarlierTimerForgets | backend/internal/infrastructure/remotedesktop/relay.go:303-310 | from every state with an earlier timer of the same id, a session can end and lose its tombstone before its own timer has started |
| RelayRaces.EarlierTimerIsReachable | backend/internal/infrastructure/remotedesktop/relay.go:116-310 | such a state is reachable, for every id, agent and mode |
| RelayRaces.SlotAfterStep | backend/internal/infrastructure/remotedesktop/relay.go:154-190 | after any step a side of a session is connected if and only if it was before or the step is an attach for it, with its id, before its end and without a tombstone |
| RelayRaces.SlotAfterRun | backend/internal/infrastructure/remotedesktop/relay.go:116-326 | the same over every run |
| RelayRaces.PairTimeoutEndsPaired | backend/internal/infrastructure/remotedesktop/relay.go:212-222 | in every run from the timer's decision to its end of the session, the session ended is paired if and only if each missing side attached in between, in time and without a tombstone |
| RelayRaces.PairTimeoutCanEndPairedSession | backend/internal/infrastructure/remotedesktop/relay.go:212-222 | whichever sides are missing when the timer has decided, they can all still attach, and "pair_timeout" then ends a paired session |
| RelayRaces.DecidedTimerIsReachable | backend/internal/infrastructure/remotedesktop/relay.go:116-222 | a decided timer with both sides missing is reachable, for every id, agent and mode |
| RelayRaces.HalfPairedTimerIsReachable | backend/internal/infrastructure/remotedesktop/relay.go:116-222 | so is one with either side missing |
| Relay.Relay.Register | backend/internal/infrastructure/remotedesktop/relay.go:116-126 | refuses a registered id and changes nothing; otherwise adds one fresh session |
| Relay.Relay.Attach | backend/internal/infrastructure/remotedesktop/relay.go:154-210 | new registry and next action are those of the attach step, on every branch |
| Relay.Relay.PairTimeoutCheck | backend/internal/infrastructure/remotedesktop/relay.go:215-217 | true exactly if this very session is still registered and unpaired |
| Relay.Relay.End | backend/internal/infrastructure/remotedesktop/relay.go:296-302 | unregisters the session only if it is the registered one, marks it ended, sets the tombstone |
| Relay.Relay.ForgetEnded | backend/internal/infrastructure/remotedesktop/relay.go:306-310 | removes the tombstone and nothing else |
| Relay.Relay.SessionsOf | backend/internal/infrastructure/remotedesktop/relay.go:351-359 | lists all registered sessions of the agent and only those |
| CommandLine.ScanEvenQuote | agent/platform/windows/executor_win.c:102-109 | after 2n backslashes a quote opens or closes a quoted part, and doubled inside one it is literal |
| CommandLine.ScanOddQuote | agent/platform/windows/executor_win.c:102-109 | after 2n+1 backslashes a quote is literal and n backslashes remain |
| CommandLine.ScanQuotedTail | agent/platform/windows/executor_win.c:125-145 | by the runtime's rules a quoted form reads back as its argument, with any pending backslashes, and reading stops at its closing quote |
| CommandLine.ScanRendered | agent/platform/windows/executor_win.c:110-146 | every argument, empty, with quotes, blanks or trailing backslashes, reads back as itself |
| CommandLine.ArgumentsRoundTrip | agent/platform/windows/executor_win.c:110-159 | for every argv the parsed line is that argv, by the argument rules |
| CommandLine.ScanProgramName | agent/platform/windows/executor_win.c:110-146 | a program name without quotes is read to its end, and exactly if it is not both quoted and ended by a backslash |
| CommandLine.UnreadBehindTail | agent/platform/windows/executor_win.c:125-145 | what the runtime leaves unread behind a quoted program name: exactly what follows if the quotes in it are balanced, what an open quoted part leaves of that, or a part of the name |
| CommandLine.TailRoundTrip | agent/platform/windows/executor_win.c:110-159 | behind a program name that needs no quotes or has balanced ones all arguments are read back |
| CommandLine.TailRoundTripIff | agent/platform/windows/executor_win.c:110-159 | whatever arguments follow are read back if and only if the name is such a name |
| CommandLine.QuoteNameSwallowsArgument | agent/platform/windows/executor_win.c:133-135 | a program named by a single quote swallows its argument |
| CommandLine.LineRoundTrip | agent/platform/windows/executor_win.c:110-159 | the whole line is read back if and only if the program name is safe |
| CommandLine.QuotedDirectoryIsMisread | agent/platform/windows/executor_win.c:142-145 | a quoted program name that ends with a backslash is read back with two |
| CommandLineBuilder.ComputeNeedsQuotes | agent/platform/windows/executor_win.c:111-114 | quotes are needed exactly for an empty argument or one with a space, tab or quote |
| CommandLineBuilder.AppendPlain | agent/platform/windows/executor_win.c:118-123 | copies the argument or forces the failure of the build, within the buffer |
| CommandLineBuilder.AppendQuotedBody | agent/platform/windows/executor_win.c:125-145 | the loop with its backslash counter writes the quoted form, cut off at the end of the buffer |
| CommandLineBuilder.AppendQuotedArg | agent/platform/windows/executor_win.c:110-146 | appends the separator and the rendered argument, or leaves the index at the buffer size |
| CommandLineBuilder.BuildCmdline | agent/platform/windows/executor_win.c:148-159 | succeeds if and only if the rendering and its NUL fit; then the buffer holds exactly the rendering, which parses to argv by the argument rules and by the rules for a whole line if and only if argv[0] is safe, with all arguments after argv[0] read back if that is tail-safe, and for NUL-free arguments the terminator is the first NUL; nothing past the size is written |
| CommandLineBuilder.RenderReads | agent/platform/windows/executor_win.c:110-159 | how the runtime reads a rendered line: all of it by the argument rules, the arguments behind a tail-safe argv[0], the whole if and only if argv[0] is safe, and no NUL before the end for NUL-free arguments |
| CommandLineBuilder.RenderNulFree | agent/platform/windows/executor_win.c:157-158 | for NUL-free arguments the terminator is the first NUL of the line |
| SendQueue.Clip | agent/src/connection.c:464-464 | an oversized message is cut to exactly its first 65536 bytes, any other is kept |
| SendQueue.WindowAfterPush | agent/src/connection.c:474-479 | writing the tail slot of the ring appends to the queue, across the wrap-around |
| SendQueue.WindowAfterPop | agent/src/connection.c:157-170 | advancing the head removes the oldest message, which is the head slot |
| SendQueue.Queue.Send | agent/src/connection.c:461-481 | the three results and when each occurs; an accepted message is appended, otherwise nothing changes; tail stays (head + count) mod 32 and accepted stays written plus queued |
| SendQueue.Queue.Writeable | agent/src/connection.c:154-178 | hands over the oldest message, removes it, and asks to be called again exactly if more are left |
| WakeUp.StepKeepsInv | agent/src/connection.c:116-212 | every step of a sender, a callback or the connection thread keeps FIFO order, context coherence and the pending wake-up |
| WakeUp.InvOverRun | agent/src/connection.c:116-212 | the same over every run |
| WakeUp.NoWakeUpIsLost | agent/src/connection.c:116-199 | in every reachable state with a usable connection and a queued message, WRITEABLE is requested, a cancel is pending, a sender is about to cancel this context, or a callback will request it, also for leftovers of earlier connections |
| WakeUp.WrittenIsPrefixOfAccepted | agent/src/connection.c:154-178 | across reconnections the payloads given to lws_write are an initial part of the accepted ones, in order, without loss or repetition, and at most 32 lie in between |
| WakeUp.SendOutcome | agent/src/connection.c:461-481 | whatever other threads do meanwhile, a send queues exactly its data, cut at 65536 bytes, unless 32 messages are waiting, and does nothing without data or connection |
| WakeUp.ConnectedIs | agent/src/connection.c:116-212 | sends are possible from an ESTABLISHED to the next CLOSED or end of the context, and at no other time |
| WakeUp.CancelRequestsWriteable | agent/src/connection.c:180-199 | a serviced cancel requests WRITEABLE if and only if a message was waiting and the connection is current |
| WakeUp.WriteHandsOverOne | agent/src/connection.c:154-178 | a WRITEABLE event hands over the oldest message and no other, and asks again if more are left |
| WakeUp.ProtocolLowersRank | agent/src/connection.c:461-489 | every protocol step lowers a rank |
| WakeUp.StuckMeansEmpty | agent/src/connection.c:154-199 | with a usable connection, if no protocol step is possible everything accepted has been written |
| WakeUp.QueueDrains | agent/src/connection.c:154-199 | from every reachable state, while the connection stays up and no call arrives, every schedule ends within a bound with the queue empty |
| Reconnect.DelayNext | agent/src/connection.c:358-360 | the k-th wait is 5000 + 5000k up to 60000, and the capped increment takes the k-th wait min(5000 + 5000k, 60000) to the next |
| Reconnect.Backoff.OnEstablished | agent/src/connection.c:119-119 | restarts the count of waits |
| Reconnect.Backoff.Wait | agent/src/connection.c:347-360 | the k-th wait since the last established connection lasts min(5000 + 5000k, 60000) ms, or to the tick at which a stop is seen |
| RateLimit.RecentTwice | backend/internal/pkg/ratelimit/ratelimit.go:32-46 | purging earlier never changes what a later purge keeps |
| RateLimit.CallRefines | backend/internal/pkg/ratelimit/ratelimit.go:32-90 | one call gives the same answer on compacted lists as on the full history, and they agree again afterwards |
| RateLimit.LimiterRefinesHistory | backend/internal/pkg/ratelimit/ratelimit.go:32-90 | for every sequence of calls under a non-decreasing clock all answers equal those computed from the full history since the last Reset |
| RateLimit.DroppedCallsDoNotMatter | backend/internal/pkg/ratelimit/ratelimit.go:52-90 | leaving out queries, or calls on keys nobody else uses, changes no other answer |
| RateLimit.KeysAreIndependent | backend/internal/pkg/ratelimit/ratelimit.go:52-90 | the answers about a key are those of the calls on that key alone |
| RateLimit.BlockedIsAQuery | backend/internal/pkg/ratelimit/ratelimit.go:64-73 | Blocked never changes a later answer although it purges |
| RateLimit.GrantIsSpaced | backend/internal/pkg/ratelimit/ratelimit.go:52-62 | a grant keeps max + 1 consecutive stamps at least a window apart, with separate readings for the decision and the stamp |
| RateLimit.HistoryIsGranted | backend/internal/pkg/ratelimit/ratelimit.go:52-62 | without RecordFailure the attempts on record are exactly the stamps of the granted calls since the last Reset |
| RateLimit.GrantsAreSpaced | backend/internal/pkg/ratelimit/ratelimit.go:48-62 | over every run in which only Allow records, any max + 1 consecutive grants of a key span at least the window |
| Limiter.Compact | backend/internal/pkg/ratelimit/ratelimit.go:33-39 | the in-place loop leaves, at the front of the same array, exactly the attempts after the cutoff, in order |
| Limiter.Append | backend/internal/pkg/ratelimit/ratelimit.go:60-60 | the slice with one more element, in place or in a new array |
| Limiter.Limiter.PurgeLocked | backend/internal/pkg/ratelimit/ratelimit.go:32-46 | purges this key as specified, leaves every other key's array alone and returns what is stored |
| Limiter.Limiter.Allow | backend/internal/pkg/ratelimit/ratelimit.go:52-62 | lists and answer are those of the specification; no two keys ever share a backing array |
| Limiter.Limiter.Blocked | backend/internal/pkg/ratelimit/ratelimit.go:69-73 | lists and answer are those of the specification |
| Limiter.Limiter.RecordFailure | backend/internal/pkg/ratelimit/ratelimit.go:76-81 | lists are those of the specification |
| Limiter.Limiter.Reset | backend/internal/pkg/ratelimit/ratelimit.go:86-90 | lists are those of the specification |
| ExecSlots.MoveIsAccounted | agent/src/agent.c:310-382 | each step of a command changes the counter by exactly the change in the slot it holds, on every failure path, and never past four |
| ExecSlots.StepKeepsInv | agent/src/agent.c:310-382 | every step keeps counter = slots held, at most four, and each command's account |
| ExecSlots.SlotsConserved | agent/src/agent.c:310-616 | in every interleaving the counter is the number of slots held, in 0..4; no slot is released twice or unreserved, no command builds two results |
| ExecSlots.MovesAreBounded | agent/src/agent.c:397-616 | without new messages only boundedly many moves are possible |
| ExecSlots.CommandsFinish | agent/src/agent.c:310-1103 | however allocations and thread creations turn out, all commands finish, each with exactly one CMD_RESULT and its slot released exactly as often as taken, and the counter returns to 0 |
| ExecSlots.CommandDecided | agent/src/agent.c:310-382 | in every run a finished command with an invalid body took no slot and did no work; one with a valid body was refused a slot if and only if four were in use when it tried, and worked if and only if it got one and neither its allocation nor its thread creation failed |
| ExecSlots.Slots.Reserve | agent/src/agent.c:310-322 | succeeds exactly if fewer than four commands hold a slot, and then this one does |
| ExecSlots.Slots.Release | agent/src/agent.c:327-332 | this command, and no other, gives its slot back |
| Hub.StepKeepsInv | backend/internal/infrastructure/websocket/hub.go:38-118 | every call keeps: a channel is closed, and once, exactly if its client was registered and is not current any more |
| Hub.InvOverRun | backend/internal/infrastructure/websocket/hub.go:38-118 | the same over every sequence of calls |
| Hub.ChannelsClosedOnce | backend/internal/infrastructure/websocket/hub.go:38-118 | in every run no channel is closed twice, a client in the map has an open channel, a registered one that left it a closed one |
| Hub.ClientIsLast | backend/internal/infrastructure/websocket/hub.go:38-118 | after every sequence of calls the map holds, for every agent, the last client registered that was not unregistered and whose agent was not disconnected since |
| Hub.LateUnregisterIsHarmless | backend/internal/infrastructure/websocket/hub.go:56-78 | Unregister of a client already replaced or disconnected changes nothing |
| Hub.Hub.Register | backend/internal/infrastructure/websocket/hub.go:38-54 | closes a channel only if it is open, replaces the agent's client, keeps the invariant |
| Hub.Hub.Unregister | backend/internal/infrastructure/websocket/hub.go:65-78 | closes and removes exactly if the client is the current one |
| Hub.Hub.Disconnect | backend/internal/infrastructure/websocket/hub.go:102-118 | closes and removes the agent's client, and reports whether there was one |
| ScreenScaling.DecidingDimension | agent/src/remote_desktop.c:43-50 | with any rounding of the division and the product, the dimension that decides the scale comes out as its maximum or one less |
| ScreenScaling.ComputeOutputSize | agent/src/remote_desktop.c:37-53 | with any double rounding the output is at least 1 by 1, within the source and within the maximum, is the source if that fits, and otherwise comes within one pixel of one exceeded maximum; both dimensions are within two pixels of one common scale |
| ScreenScaling.NearestInside | agent/src/remote_desktop.c:66-73 | every source row or column computed for a destination one lies inside the source |
| ScreenScaling.NearestSamples | agent/src/remote_desktop.c:66-73 | the computed index s for i is the one with s * n <= i * src < (s + 1) * n, and there is no other |
| ScreenScaling.RowsAreRepacked | agent/src/remote_desktop.c:66-74 | rows that hold the nearest pixels hold, for every output pixel, the source pixel that these products determine |
| ScreenScaling.AspectKept | agent/src/remote_desktop.c:43-52 | two dimensions that come from one scale keep the proportions of the source up to rounding |
| ScreenScaling.NearestOfSame | agent/src/remote_desktop.c:57-64 | for equal sizes the nearest-neighbour formula is the identity |
| ScreenScaling.OffsetInside | agent/src/remote_desktop.c:69-72 | every written byte lies inside the packed image |
| ScreenScaling.OffsetInjective | agent/src/remote_desktop.c:69-72 | different destination bytes have different offsets, so each is written once |
| ScreenScaling.SourceInside | agent/src/remote_desktop.c:68-72 | every read lies inside the source for any stride of at least four times the width |
| ScreenScaling.CopiedRowIsNearest | agent/src/remote_desktop.c:57-64 | the row-copy fast path gives what the general formula gives |
| ScreenScaling.RepackRow | agent/src/remote_desktop.c:66-74 | one row of the general loop holds the nearest source pixels, nothing outside the row changes |
| ScreenScaling.CopyRow | agent/src/remote_desktop.c:58-62 | one row of the fast path meets the same specification |
| ScreenScaling.RepackScale | agent/src/remote_desktop.c:55-75 | every byte of output pixel (x, y) is that of the source pixel (sx, sy) with sx * outW <= x * srcW < (sx + 1) * outW and sy * outH <= y * srcH < (sy + 1) * outH, by either path; nothing past the image is written |
| ScreenScaling.HeaderRoundTrip | agent/src/remote_desktop.c:296-304 | the viewer reads the header back if and only if the dimensions fit 16 bits and the frame number 32 |
| ScreenScaling.AnnouncedSize | agent/src/agent.c:957-960 | with maxima clamped to 1..7680 the viewer takes the message for a frame and reads the true dimensions |
| RemoteInput.DecodeEncode | agent/src/remote_desktop.c:191-224 | in control mode every event the viewer encodes is decoded to itself, signed scrolling included |
| RemoteInput.FilteredHasNoInput | backend/internal/infrastructure/remotedesktop/relay.go:42-52 | what the filter lets through holds no input message |
| RemoteInput.PassedNext | backend/internal/infrastructure/remotedesktop/relay.go:42-52 | message by message, the filter holds back exactly those whose first byte is 0x10 to 0x13 |
| RemoteInput.ViewerToAgent | backend/internal/infrastructure/remotedesktop/relay.go:277-281 | the direction from viewer to agent is filtered in mode "view" and in no other |
| RemoteInput.CopyOne | backend/internal/infrastructure/remotedesktop/relay.go:234-258 | delivers, in order, the passed messages up to the first failing write, and all of them if none fails |
| RemoteInput.PieceAt | agent/src/remote_desktop.c:360-368 | the pieces of a message start at the multiples of the receive buffer and are cut there |
| RemoteInput.NothingInjectedIff | agent/src/remote_desktop.c:191-224 | messages delivered to an agent in control mode inject nothing if and only if no piece of them is an input message long enough to decode; to one in view mode they never do |
| RemoteInput.LongMessageInjects | agent/src/remote_desktop.c:360-368 | any event encoded behind a control message of 65536 bytes passes the view filter and is injected by an agent in control mode |
| RemoteInput.ViewMode | backend/internal/infrastructure/remotedesktop/relay.go:234-281 | whatever the viewer sends, an initial part of the non-input messages arrives; an agent in view mode injects nothing, and one in control mode nothing if and only if every piece is harmless, so nothing for messages that fit the buffer |
| RemoteInput.EncodedIsReceivedWhole | agent/src/remote_desktop.c:360-368 | encoded events reach the callback as single pieces |
| RemoteInput.ControlMode | frontend/src/components/remoteDesktop/RemoteDesktopViewer.tsx:137-155 | the injected events are an initial part of the captured ones, and all of them if no write fails |
| RemoteInput.Normalize | frontend/src/components/remoteDesktop/RemoteDesktopViewer.tsx:42-47 | any pointer position becomes a coordinate in 0..65535 |
| RemoteInput.NormalizeIsNearest | frontend/src/components/remoteDesktop/RemoteDesktopViewer.tsx:42-47 | a position on the canvas becomes the coordinate within a half of 65535 times its relative position |
| RemoteInput.ToScreenIs | agent/platform/linux/input_linux.c:144-150 | the pixel p for x is the one with p * 65535 <= x * (size - 1) < (p + 1) * 65535 |
| RemoteInput.ToScreenMonotone | agent/platform/linux/input_linux.c:144-150 | coordinates reach the screen in order |
| RemoteInput.PointerReachesScreen | agent/platform/linux/input_linux.c:144-150 | from the canvas to the pixel: in order, on the screen, edges to edges |
| Config.TrimText | agent/src/config.c:18-24 | the two loops remove exactly the leading and trailing white space |
| Config.Load | agent/src/config.c:37-108 | the read loop computes the specified configuration, or the error for an invalid one or a file that cannot be opened |
| ConfigValues.LoadFailsIff | agent/src/config.c:100-161 | a text fails to load if and only if its fingerprint is not 64 characters long or agent id, tenant id or endpoint stays empty |
| ConfigValues.UnsetFieldIsDefault | agent/src/config.c:46-50 | a field that no line sets is empty, and the intervals are 300 and 10800 |
| ConfigValues.ValueIsCut | agent/src/config.c:27-33 | which field each key sets and how many characters of the value it keeps |
| ConfigValues.LoadedFits | agent/src/config.c:27-33 | no text loads to a value that does not fit its field |
| ConfigValues.AtoiReads | agent/src/config.c:92-95 | an interval is an optional sign and the digits after it; the rest is not looked at |
| ConfigValues.TrimIsExact | agent/src/config.c:18-24 | trimming removes white space at both ends, all of it, and nothing else |
| ConfigLines.LoadSplit | agent/src/config.c:55-96 | loading complete lines and then the rest is loading the whole |
| ConfigLines.LoadIsFold | agent/src/config.c:55-96 | loading a text is acting on the pieces that fgets makes of it, in order |
| ConfigLines.IgnoredLineDoesNotMatter | agent/src/config.c:55-67 | a line of any length whose pieces are all ignored or name no known key can be added or removed anywhere |
| ConfigLines.LineIsInertIff | agent/src/config.c:55-96 | a line leaves every configuration unchanged if and only if each of its pieces is ignored or names no known key |
| ConfigLines.ShortIgnoredLineIsInert | agent/src/config.c:52-60 | an ignored line that fits the buffer is such a line |
| ConfigLines.CommentIsIgnored | agent/src/config.c:57-60 | text whose first character after white space is # or ; is ignored |
| ConfigLines.BlankIsIgnored | agent/src/config.c:57-60 | text of white space alone is ignored |
| ConfigLines.NoSeparatorIsIgnored | agent/src/config.c:62-67 | text without = is ignored |
| ConfigProofs.LongCommentIsActedOn | agent/src/config.c:52-60 | an entry behind the first 1023 characters of a comment line takes effect, whatever they are |
| ConfigProofs.LongCommentSetsAgentId | agent/src/config.c:52-74 | so one comment line can set the agent id |
| ConfigLines.SetCommutes | agent/src/config.c:73-95 | settings of different keys commute |
| ConfigLines.LinesWithDistinctKeysCommute | agent/src/config.c:55-96 | any permutation of the lines of a file, or of part of it, loads to the same result as long as no two of the lines set the same field; lines that are ignored or name no known key do not count, and lines may have any length |
| ConfigLines.ShortLinesAreIndependent | agent/src/config.c:69-95 | for lines that fit the buffer, setting the same field means naming the same known key |
| ConfigProofs.IntRoundTrip | agent/src/config.c:92-95 | every int is printed and read back exactly |
| ConfigProofs.LoadOfSaved | agent/src/config.c:110-139 | what loading a saved configuration gives, field by field |
| ConfigProofs.LoadedHasNoNewlines | agent/src/config.c:55-96 | no file loads to a configuration with a newline in it |
| ConfigProofs.SaveLoadRoundTrip | agent/src/config.c:37-161 | for every configuration the structure can hold, load after save gives it back if and only if it is valid, trimmed and free of newlines |
| FileTransfer.CallbackKeepsStep | agent/src/file_transfer.c:137-209 | until a failure the bytes hashed are the bytes written, and their number is counted |
| FileTransfer.AtMostTenProgressMessages | agent/src/file_transfer.c:175-191 | for a known size, from the request or from the headers, every callback sequence sends at most ten progress messages while no more than that size is received |
| FileTransfer.ReportsNewMebibyte | agent/src/file_transfer.c:186-190 | for an unknown size a chunk is reported if and only if it reaches a new multiple of 1 MiB |
| FileTransfer.UnknownSizeIsSparse | agent/src/file_transfer.c:186-190 | for an unknown size there are never more reports than MiB received |
| FileTransfer.Download.ReceiveChunk | agent/src/file_transfer.c:175-191 | the receive callback, including the short write that hashes and counts nothing |
| FileTransfer.Download.Callback | agent/src/file_transfer.c:144-209 | each callback updates the context as specified |
| FileTransfer.Download.Deliver | agent/src/file_transfer.c:314-318 | a batch of callbacks has the effect of its callbacks in order |
| FileTransfer.DigestAcceptedIff | agent/src/file_transfer.c:362-369 | a digest is accepted if and only if none is expected or it equals the expected one character by character up to ASCII case |
| FileTransfer.ServiceLoop | agent/src/file_transfer.c:314-333 | the loop delivers callbacks until done, an error or the deadline, and leaves exactly the specified context and code |
| FileTransfer.OkIsVerified | agent/src/file_transfer.c:338-378 | on success the bytes stored are the bytes hashed and counted, with an accepted digest, and the final name holds what the closed file kept of them |
| FileTransfer.TransferIsSafe | agent/src/file_transfer.c:218-390 | for every course of events and every return: final name replaced exactly on success, no `.part` file left, no other file changed, if and only if the two names differ, or nothing was opened, or a failure had no final file to remove |
| FileTransfer.EqualNamesAreUnsafe | agent/src/file_transfer.c:247-254 | with the command's `.part` name as file name, success leaves the `.part` file and a failure removes an existing file |
| FileTransfer.DeliversVerifiedBytes | agent/src/file_transfer.c:335-371 | a successful transfer delivers the verified bytes if and only if closing the file lost none, and otherwise all but the last bytes that were lost |
| FileTransfer.LossAtCloseGoesUnnoticed | agent/src/file_transfer.c:335-371 | for any bytes and any loss at close, a download checked against the right digest reports success with a shortened file |
| FileTransfer.Transfer | agent/src/file_transfer.c:218-390 | the code of the source computes that outcome on the work directory, with exact conditions for success and for safety; a digest that differs from an expected one by more than case never succeeds |
| CpuMetrics.DeltaOfPlus | agent/platform/windows/metrics_win.c:242-252 | the deltas of the wrapped 64-bit sums are the wrapped sums of the deltas |
| CpuMetrics.PercentInRange | agent/platform/windows/metrics_win.c:95-100 | a core idle no longer than it ran has a percentage in 0..100 |
| CpuMetrics.BusyBetween | agent/platform/windows/metrics_win.c:243-252 | the busy time of all cores lies between the extreme percentages of their total time |
| CpuMetrics.OverallBetween | agent/platform/windows/metrics_win.c:243-252 | the overall percentage lies between any bounds that hold for all cores |
| CpuMetrics.PercentInRangeIff | agent/platform/windows/metrics_win.c:95-100 | a percentage is in 0..100 if and only if the total is zero or not below the idle time |
| CpuMetrics.OverallCanLeaveRange | agent/platform/windows/metrics_win.c:242-252 | two sane cores whose totals sum past 2^64 give 200 percent |
| CpuMetrics.OverallBetweenInTime | agent/platform/windows/metrics_win.c:242-252 | with at most 256 cores and less than 2^56 ticks between snapshots the overall percentage lies between any bounds of the cores |
| CpuMetrics.UsageReportsCounters | agent/platform/windows/metrics_win.c:95-100 | in terms of the raw counters: p times the total time is 100 times the busy time, for every core whose counters did not wrap and overall for the sums over the cores, and 0 if no time passed |
| CpuMetrics.Aggregate | agent/platform/windows/metrics_win.c:238-253 | the loop computes the percentages of the per-core deltas and of their wrapped sum |
| CpuMetrics.UsageIsFaithful | agent/platform/windows/metrics_win.c:238-253 | for any number of cores and sane counters every core is in 0..100, and the overall percentage lies between the extremes as long as the totals sum below 2^64 |
| CpuMetrics.Collector.Collect | agent/platform/windows/metrics_win.c:227-258 | reports usage exactly if there is an earlier snapshot of as many cores, with the above guarantees and the percentages of the raw counters, and keeps the new snapshot |
| Cron.WordsOfBuilt | frontend/src/lib/cron.ts:55-65 | a built daily or weekly expression has exactly the five expected fields |
| Cron.PresetIff | frontend/src/lib/cron.ts:32-50 | field by field, which expressions are hourly, daily and weekly; all others are advanced |
| Cron.JsTrimIsExact | frontend/src/components/scripts/ScheduleFormModal.tsx:103-103 | the advanced text loses white space at both ends and nothing else |
| Cron.MalformedTimeIsMidnight | frontend/src/lib/cron.ts:59-64 | a time that is no time builds midnight |
| Cron.EditingPreservesSchedule | frontend/src/components/scripts/ScheduleFormModal.tsx:46-103 | opening any expression and saving it unchanged keeps its fields up to leading zeros and white space, and keeps an advanced one literally |
| Cron.BuiltPresetParsesBack | frontend/src/lib/cron.ts:32-65 | parsing a built daily or weekly preset gives back preset, time and, for weekly, weekday |

## Left out

- Sockets, TLS, libwebsockets, gorilla, cJSON, OpenSSL, X11 and Win32: they appear as steps, events, an abstract hash and success flags.
- SQL repositories, HTTP handlers, roles, certificates, the script scheduler and the React pages: thin wrappers, or resting on code outside the repository.
- Relay: the copy and ping goroutines of a pump are one step "the pump finishes", enabled at any time; what they copy is modelled separately in `RemoteInput`. After the mutex section of `end`, starting the tombstone timer and closing the two connections is one step. Pointer identity of sessions is equality of handles.
- Hub.Hub.Register: each client object is registered once, as the connection handler does; sends on a channel after it was closed and the offline status written outside the lock are not modelled.
- WakeUp: lws_cancel_service on a context that is destroyed or replaced has no effect, and neither has a WRITEABLE request on a stale wsi; the memory safety of these calls is not modelled. A send made inside a callback counts as an ordinary sender, which allows more interleavings than the code.
- SendQueue.Queue.Send: the NULL arguments that also give a network error are not modelled; messages are texts of one character per byte.
- Nothing is stated about HELLO being the first message of a connection or about end-to-end delivery of commands: neither holds.
- ExecSlots: what the commands execute, the shutdown of the agent and the sending of a built result are not modelled.
- CommandLineBuilder.BuildCmdline: lengths are unbounded, so overflow of size_t sums is not modelled; C strings are sequences of characters up to their NUL. The environment block and process creation are not modelled.
- Percentages of CPU usage and normalized coordinates use real numbers: floating-point rounding is not modelled there. In the scaling, each double operation is a real operation with any relative error up to 2^-53.
- RemoteInput.Pieces: libwebsockets is taken to deliver a message that fits the receive buffer whole and a longer one in full buffers and a rest; a message over the relay's read limit of 8 MiB is a failed read, which ends the copied sequence.
- RemoteInput.DecodeEncode: key and button tables, the bound of ten scroll clicks and the viewer's dropping of stale frames are not modelled.
- Config.Load: atoi is modelled for values that fit an int.
- FileTransfer.Transfer: remove() is taken to succeed, and rename() of a file to its own name to do nothing; file-name and URL checks are the flag `requestOk`, and no other program touches the work directory meanwhile; overflow of the 64-bit count times 100 and of the int percentage is not modelled. As in the code, the size is not checked when no digest is given, and nothing bounds the percentage by 100.
- CpuMetrics.OverallBetween: is stated for sums of the per-core totals that fit 64 bits; `OverallCanLeaveRange` shows that some bound is needed.
- Cron.EditingPreservesSchedule: numerals are below 2^53, where JavaScript numbers are exact. `BuildCronFromPreset` takes time parts that are numerals or no numbers at all, not "1e3", hexadecimal or blank-padded numbers; an all-blank text has no words instead of one empty word, and either way is not five fields. Descriptions of schedules are not modelled.
