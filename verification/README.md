# Verified models of Twisted's state machines

Twisted's core is a handful of state machines that run with little or no I/O. This project models
six of them in Dafny and proves, for every input and every run, what their code, tests and
documentation promise. Where a promise turned out not to hold, the code is modelled as it is, and
the project proves when it does hold, or gives the run in which it fails.

| file | what it models |
|---|---|
| `TelnetWire.dfy` | the Telnet byte parser and the printer that goes with it |
| `TelnetOptions.dfy`, `TelnetEnd.dfy` | option negotiation at one end, chunked input, and the `Telnet` object |
| `TelnetSession.dfy`, `TelnetRequests.dfy`, `TelnetAgreement.dfy` | two such ends joined by a byte stream in each direction, what a request's Deferred tells, and what the ends agree on |
| `Workers.dfy`, `TeamModel.dfy`, `TeamSizes.dfy`, `ThreadTeam.dfy` | the thread team, its coordinator, its worker limit and quitting |
| `LockWorker.dfy` | the lock worker, alone and under any interleaving of threads |
| `TimerHeap.dfy`, `ReactorTimers.dfy`, `CancellationCount.dfy`, `AsyncioTimers.dfy` | delayed calls: heap, staging list, the pass over them, the count of cancelled ones, `timeout`, asyncio's one timer |
| `EventModel.dfy`, `EventRuns.dfy`, `ReactorEvents.dfy`, `ThreadCalls.dfy` | three-phase system events and `callFromThread` |
| `ClientModel.dfy`, `ClientOutcomes.dfy`, `ClientHistory.dfy`, `ClientMachine.dfy` | the machine that keeps a client connection, and the backoff policy |
| `WriteBuffer.dfy` | buffered writing, producers, and the two ways of closing a `FileDescriptor` |
| `LineEditor.dfy` | the line editor with history, against the terminal row it is shown on |

Objects that update their fields are classes; each method is proved against a function of the old
state, or against an invariant and the exact new contents. The properties of whole runs are lemmas
about those functions, or invariants (`Valid`) that every method keeps. `dafny verify
dfyconfig.toml` checks everything.

## Findings

Places where the code does not do what one would expect. Each is stated by the member named.

- Telnet data that contains a CR byte does not always come back: the printer sends CR as it is, and
  the parser then takes the next byte with it. `StreamRoundTrip` says exactly when it does.
- `requestNegotiation` doubles IAC in its payload but not in `about`: `RequestSurvivesIff`.
- An unknown Telnet command makes `dataReceived` raise, and application data of the same call is
  dropped. This is the only way in which chunking matters: `ChunkIndependence`.
- A system event that is fired while it still waits for a Deferred goes on too early. The contracts
  of `FireEvent` and `DeferredFires` say exactly when: the rest of a firing runs although some
  returned Deferred has not fired if and only if another DeferredList of the event goes on waiting.
  `FiredTwice` is such a run.
- `ClientService.stop` before any `start` leaves earlier `whenConnected` Deferreds unfired; nothing
  else does: `NoneOutstanding`.
- A half-close can be stranded, pending with no write event coming. Every public method says what it
  does to this (`Stranded`): it comes about only where a drain resumes a producer, and ends only with
  another write, another request to close or half-close, or the loss of the connection. With no
  producer to resume, the write events of a connection carry a pending half-close out if and only if it was not
  stranded (`HalfCloseIsReachedIffNotStranded`); with one they always strand it
  (`ResumingStrandsHalfClose`). `HalfCloseIsForgotten` is a run in which nothing revives it.
- The documentation of `FileDescriptor.loseConnection` says that a registered producer keeps the
  connection open. The code does this for a pull producer or a paused one only:
  `StreamingProducerIsNotAwaited`, and exactly in the contract of `DoWrite`.
- `_isSendBufferFull` also counts bytes that were sent already but are still at the front of
  `dataBuffer`: `SentBytesCountAsFull` says exactly when this is wrong, and `PausedForSentBytes` is a
  run in which it pauses a producer.
- `LockWorker` drops work when other work raises (`RaisingLosesWork`): everything is run if and only
  if nothing raises, save the very last (`LostExactlyByRaising`), and under any interleaving the list
  is empty when the lock is released under just that condition (`EmptyWhenReleased`).
- In the line editor, a tab takes the cursor to a tab stop exactly if the cursor and the end of the
  line were equally far past one: `TabReachesTabStop`.
- In the line editor, going up from an unfinished line and down again brings it back only if there
  was an older line to go up to; otherwise it is cleared: `UnfinishedLineComesBack`.
- A team accepts tasks and never runs any, in any run, if and only if its worker limit is 0 or less:
  `NoLimitNoWork`.
- `_cancellations` is a lower bound of the cancelled calls that are stored, not a count. Only a
  compaction changes the difference, which is the ghost field `missed`, and it leaves the count exact if
  and only if no staged call is cancelled (`Compact`). `CountFallsBehind` is a run in which
  it falls behind.

## Model

| member | source | states |
|---|---|---|
| `TelnetWire.ParseAppend` | src/twisted/conch/telnet.py:556-635 | parsing a concatenation is parsing the first part and going on from there, up to merging data |
| `TelnetWire.CommandRoundTrip` | src/twisted/conch/telnet.py:469-482 | a printed DO, DONT, WILL or WONT is parsed back as that command from any state between commands |
| `TelnetWire.PlainCommandRoundTrip` | src/twisted/conch/telnet.py:574-579 | IAC and one of the codes 241 to 249 is delivered as that command without argument, after any pending CR |
| `TelnetWire.UnknownCommandRaises` | src/twisted/conch/telnet.py:567-585 | after an IAC exactly the bytes below 241 make the parser raise |
| `TelnetWire.EmptyNegotiationRaises` | src/twisted/conch/telnet.py:559-632 | elsewhere it raises exactly at the end of a subnegotiation that holds nothing |
| `TelnetWire.PayloadRoundTrip` | src/twisted/conch/telnet.py:543-553 | any payload with its IACs doubled is collected back byte for byte |
| `TelnetWire.NegotiationRoundTrip` | src/twisted/conch/telnet.py:543-553 | a printed subnegotiation comes back with its option and payload |
| `TelnetWire.StreamRoundTrip` | src/twisted/conch/telnet.py:887-991 | any sequence of writes, option commands, plain commands and subnegotiations parses back to itself, up to merging data, if and only if its CRs are safe; it never makes the parser raise |
| `TelnetWire.NoCrIsSafe` | src/twisted/conch/telnet.py:887-991 | data without CR is always safe |
| `TelnetWire.NulNeverRecovered` | src/twisted/conch/telnet.py:593-612 | a NUL written after a CR never comes back |
| `TelnetWire.Octets` | src/twisted/conch/telnet.py:990-991 | on the wire LF is 13 10, a lone CR comes from 13 0, IAC is 255 255, and a subnegotiation stands between 255 250 and 255 240 |
| `TelnetWire.RequestSurvivesIff` | src/twisted/conch/telnet.py:543-553 | a subnegotiation survives the wire exactly when its option is not IAC |
| `TelnetOptions.OfferIsTakenIfAllowed` | src/twisted/conch/telnet.py:684-799 | an offer (WILL) or request (DO) about a disabled option enables it exactly if the application's policy allows, and is answered 253 or 254 (251 or 252) accordingly |
| `TelnetOptions.RefusalIsHeeded` | src/twisted/conch/telnet.py:723-838 | after WONT or DONT the option is disabled and not being negotiated; an answer goes out exactly if it was disabled unasked |
| `TelnetOptions.HandlerRaisesIff` | src/twisted/conch/telnet.py:684-838 | the exact condition under which a handler raises |
| `TelnetOptions.OthersUnchanged` | src/twisted/conch/telnet.py:684-838 | hearing a command changes nothing about other options or the other side |
| `TelnetOptions.RequestIsTakenUpIff` | src/twisted/conch/telnet.py:485-540 | a request is taken up exactly if neither side of the option is being negotiated and it would change something; then exactly its command goes out; otherwise it is refused for the first of these reasons |
| `TelnetOptions.AskKeepsAccounts` | src/twisted/conch/telnet.py:485-540 | `will`, `wont`, `do` and `dont` keep every Deferred accounted for: outstanding on exactly one option and side, or fired once |
| `TelnetOptions.HearKeepsAccounts` | src/twisted/conch/telnet.py:684-838 | so does every handler of the four dispatch tables |
| `TelnetOptions.ReleaseKeepsLedger` | src/twisted/conch/telnet.py:638-647 | so does losing the connection, for each Deferred it fails |
| `TelnetEnd.RunAppend` | src/twisted/conch/telnet.py:556-635 | parsing and dispatching together split at any byte |
| `TelnetEnd.ReceiveIsRun` | src/twisted/conch/telnet.py:556-635 | one call of `dataReceived` delivers the tokens of the stream, merged, less data cut off by an unknown command |
| `TelnetEnd.RunIsParse` | src/twisted/conch/telnet.py:556-635 | unless a handler raises, exactly what the parser makes of a stream is delivered, and the negotiation hears exactly the commands in it |
| `TelnetEnd.ChunkIndependence` | src/twisted/conch/telnet.py:556-635 | all ways of cutting a stream into chunks give the same final state and merged events, if and only if it does not reach an unknown command with data undelivered |
| `TelnetEnd.PrintedIsDelivered` | src/twisted/conch/telnet.py:556-635 | data, plain commands and subnegotiations written by one end are given to the application of the other, in order, however they are cut, if their CRs are safe |
| `TelnetEnd.Telnet.Will` | src/twisted/conch/telnet.py:485-498 | new state, bytes written and answer are those of the specification |
| `TelnetEnd.Telnet.Wont` | src/twisted/conch/telnet.py:501-514 | likewise |
| `TelnetEnd.Telnet.Do` | src/twisted/conch/telnet.py:517-527 | likewise |
| `TelnetEnd.Telnet.Dont` | src/twisted/conch/telnet.py:530-540 | likewise |
| `TelnetEnd.Telnet.RequestNegotiation` | src/twisted/conch/telnet.py:543-553 | the bytes of the subnegotiation are added to the output |
| `TelnetEnd.Telnet.WriteApplicationData` | src/twisted/conch/telnet.py:990-991 | the data is added with IACs doubled and newlines expanded |
| `TelnetEnd.Telnet.TelnetWill` | src/twisted/conch/telnet.py:684-721 | the four handlers of WILL do what the specification of hearing it says |
| `TelnetEnd.Telnet.TelnetWont` | src/twisted/conch/telnet.py:723-760 | likewise for WONT |
| `TelnetEnd.Telnet.TelnetDo` | src/twisted/conch/telnet.py:763-799 | likewise for DO |
| `TelnetEnd.Telnet.TelnetDont` | src/twisted/conch/telnet.py:802-839 | likewise for DONT |
| `TelnetEnd.Telnet.ByteReceived` | src/twisted/conch/telnet.py:559-632 | one turn of the loop is one step of the parser; `command` and `commands` exist exactly in the states that use them |
| `TelnetEnd.Telnet.DataReceived` | src/twisted/conch/telnet.py:556-635 | the whole call is `Receive` of its bytes |
| `TelnetEnd.Telnet.ConnectionLost` | src/twisted/conch/telnet.py:638-647 | every Deferred that is outstanding is failed, once |
| `TelnetSession.HearingKeepsCoherent` | src/twisted/conch/telnet.py:684-838 | in a coherent pair of views no handler that can never be entered is entered, and hearing keeps them coherent |
| `TelnetSession.AskingKeepsCoherent` | src/twisted/conch/telnet.py:485-540 | so does a request from either end |
| `TelnetSession.HearingKeepsTheEnd` | src/twisted/conch/telnet.py:684-838 | what both ends will have in the end is not changed by hearing what is in flight |
| `TelnetSession.AskingDecidesTheEnd` | src/twisted/conch/telnet.py:485-540 | a request decides it: the option will be disabled, or enabled exactly if the peer allows it or has asked for the same |
| `TelnetSession.DeliverChunk` | src/twisted/conch/telnet.py:556-635 | delivering any chunk in flight raises nothing, keeps both ends coherent, takes exactly its length off the bytes still to be delivered, and changes nothing about what both will have in the end |
| `TelnetSession.RunStaysSound` | src/twisted/conch/telnet.py:485-839 | no run from coherent ends raises anything |
| `TelnetSession.QuietIsSettled` | src/twisted/conch/telnet.py:485-839 | with nothing in flight both ends agree on every option, nobody negotiates, and every request's Deferred has fired once |
| `TelnetSession.DeliveringEnds` | src/twisted/conch/telnet.py:485-839 | delivering ends after a number of bytes that is known in advance |
| `TelnetSession.TelnetNegotiationConverges` | src/twisted/conch/telnet.py:485-839 | all of this for any policies and any run from a fresh connection |
| `TelnetAgreement.AskingDecides` | src/twisted/conch/telnet.py:485-540 | the same for two ends and their byte streams; all other options are unaffected |
| `TelnetAgreement.RunKeepsEnd` | src/twisted/conch/telnet.py:485-839 | no run that asks nothing more about an option changes what both will have of it in the end |
| `TelnetAgreement.RequestDecides` | src/twisted/conch/telnet.py:485-839 | after a request at either end, at any point of a run, with no other about the option following, both ends have once nothing is in flight exactly what was asked for, if it was to disable, or if the peer's policy allows it or the peer had asked for the same; and the option disabled otherwise |
| `TelnetRequests.AwaitsOrFires` | src/twisted/conch/telnet.py:485-839 | a request stays under way, its option unchanged, until a command about it; that fires its Deferred with True if the option now has the value asked for, and else with OptionRefused |
| `TelnetRequests.GrantedIffTaken` | src/twisted/conch/telnet.py:485-839 | whatever happens at an end after a request, its Deferred has fired with True exactly if the option took the value asked for when the negotiation ended, with OptionRefused exactly if it did not, and not at all exactly while it goes on |
| `TelnetRequests.GrantedIffTakenInRuns` | src/twisted/conch/telnet.py:485-839 | the same in any run of two joined ends, where with nothing in flight one of the two has happened |
| `TelnetRequests.EnabledWithConsent` | src/twisted/conch/telnet.py:485-839 | whatever a peer sends, an option is enabled only if the application's policy allows it or the application has asked to enable it |
| `TelnetRequests.EnabledWithConsentInRuns` | src/twisted/conch/telnet.py:485-839 | in every run from a fresh connection an end has its peer enable only what its policy allows, and itself only that or what it asked for |
| `Workers.Quit.Set` | src/twisted/_threads/_convenience.py:28-45 | sets the flag, and succeeds only the first time |
| `Workers.MemoryWorker.Do` | src/twisted/_threads/_memory.py:34-41 | adds work behind all other, unless the worker has quit |
| `Workers.MemoryWorker.Quit` | src/twisted/_threads/_memory.py:44-49 | adds the end marker, once |
| `Workers.MemoryWorker.Take` | src/twisted/_threads/_memory.py:62-69 | takes the oldest work, and nothing from the end marker on |
| `Workers.MemoryWorker.TakeAll` | src/twisted/_threads/_memory.py:34-69 | all work accepted before the end marker is taken, in order, and then only the marker is left |
| `TeamModel.NextKeeps` | src/twisted/_threads/_team.py:112-230 | every call, completion and turn of the coordinator keeps the books of workers and tasks |
| `TeamModel.RunKeeps` | src/twisted/_threads/_team.py:112-230 | so does every run |
| `TeamModel.TasksAreServedInOrder` | src/twisted/_threads/_team.py:158-218 | in every reachable state each task is in one place, tasks were dispatched in the order submitted, none waits while a worker is idle or none is busy, and the workers stay within the limit |
| `TeamModel.QuittingIsGraceful` | src/twisted/_threads/_team.py:141-155 | the coordinator is quit exactly when quitting was started and nobody is busy; then nothing waits or runs and each worker was quit once; no worker gets a task after its quit |
| `TeamModel.LimitStays` | src/twisted/_threads/_pool.py:56-60 | no step changes the limit |
| `TeamModel.NoLimitNoWork` | src/twisted/_threads/_pool.py:56-60 | in no run is anything ever dispatched exactly if the limit is 0 or less; every accepted task then waits |
| `TeamSizes.GrowMakesWorkers` | src/twisted/_threads/_team.py:112-126 | with nothing waiting and before quitting, n workers are made or the limit is reached; those that pay off `shrink` are quit at once and exactly the others are idle |
| `TeamSizes.GrowCallIsPerformed` | src/twisted/_threads/_team.py:112-126 | so a call of `grow` does this when the coordinator performs it |
| `TeamSizes.ShrinkQuitsWorkers` | src/twisted/_threads/_team.py:141-155 | as many idle workers are quit as were asked for, each once, as far as there are any, and the rest is owed |
| `TeamSizes.ShrinkCallIsPerformed` | src/twisted/_threads/_team.py:129-155 | so a call of `shrink` does this, with all workers counted if it names no number |
| `TeamSizes.ReturningPaysOff` | src/twisted/_threads/_team.py:199-218 | a worker that comes back is quit if one is owed, and idle otherwise |
| `TeamSizes.EveryShrinkIsPaid` | src/twisted/_threads/_team.py:112-218 | in every run before quitting, the workers quit and those owed are together as many as `shrink` was asked for; and every worker made is idle, busy or quit |
| `TeamSizes.SubmittedIsAccepted` | src/twisted/_threads/_team.py:158-165 | exactly the tasks of the calls of `do` before the first `quit` are accepted, in order |
| `TeamSizes.EverythingGetsDone` | src/twisted/_threads/_team.py:112-230 | once nobody calls it, a team comes to rest after a bounded number of steps in any order, and rests only when every task accepted is done |
| `ThreadTeam.Team.Do` | src/twisted/_threads/_team.py:158-165 | refused after `quit`, otherwise queued for the coordinator |
| `ThreadTeam.Team.Grow` | src/twisted/_threads/_team.py:112-126 | likewise |
| `ThreadTeam.Team.Shrink` | src/twisted/_threads/_team.py:129-138 | likewise |
| `ThreadTeam.Team.Quit` | src/twisted/_threads/_team.py:221-230 | queues the start of quitting, once |
| `ThreadTeam.Team.Perform` | src/twisted/_threads/_memory.py:62-69 | one turn of the coordinator is one step of the specification |
| `ThreadTeam.Team.CreateWorkers` | src/twisted/_threads/_team.py:119-126 | the loop of `grow` |
| `ThreadTeam.Team.QuitIdlers` | src/twisted/_threads/_team.py:141-155 | quits idle workers and leaves the rest to be quit as they come back |
| `ThreadTeam.Team.CoordinateThisTask` | src/twisted/_threads/_team.py:168-196 | gives the task to an idle or a new worker, or makes it wait |
| `ThreadTeam.Team.RecycleWorker` | src/twisted/_threads/_team.py:199-218 | the worker takes a waiting task, is quit, or becomes idle, and the last one out quits the coordinator |
| `LockWorker.Worker.Do` | src/twisted/_threads/_threadworker.py:90-113 | the thread runs the work and then, in order, what it hands over, until something raises; the lock and the list are given up again |
| `LockWorker.NothingIsLost` | src/twisted/_threads/_threadworker.py:90-113 | work that does not raise is run completely, with everything it hands over |
| `LockWorker.LostExactlyByRaising` | src/twisted/_threads/_threadworker.py:90-113 | what runs is the work in order up to the first that raises; that is all of it, and the list is empty, exactly if only the last may raise |
| `LockWorker.RaisingLosesWork` | src/twisted/_threads/_threadworker.py:103-111 | work that hands over another piece and then raises: the other never runs |
| `LockWorker.RunsInGenerations` | src/twisted/_threads/_threadworker.py:90-113 | work runs first in first out: a list runs before all it hands over, and that in the order in which it was handed over |
| `LockWorker.RunKeeps` | src/twisted/_threads/_threadworker.py:90-122 | under any interleaving of any number of threads the lock is held by the one thread that is inside, and each thread has run what it should have, also after a quit |
| `LockWorker.MutualExclusion` | src/twisted/_threads/_threadworker.py:90-113 | two threads are never inside at once |
| `LockWorker.InterleavingDoesNotMatter` | src/twisted/_threads/_threadworker.py:90-122 | a thread that is outside again has run exactly what it would have run alone, in that order; if the worker has quit and refused a call of its work, then a part of that, which includes all accepted pieces before the last, and is the whole exactly if the work that made the call raises anyway |
| `LockWorker.OnlyAcceptedWorkIsRun` | src/twisted/_threads/_threadworker.py:90-122 | at any time, also after a quit, what a thread has run is an initial part of what it would run alone |
| `LockWorker.EmptyWhenReleased` | src/twisted/_threads/_threadworker.py:103-111 | the list of a thread that released the lock is what its work left, and empty exactly if nothing but the last raised, unless a call of that work was refused after a quit |
| `LockWorker.AcceptedUntilQuit` | src/twisted/_threads/_threadworker.py:90-122 | a call from outside is accepted exactly while the worker has not quit |
| `LockWorker.NothingAcceptedAfterQuit` | src/twisted/_threads/_threadworker.py:90-122 | after a quit no run gives any thread more work |
| `LockWorker.NoDeadlock` | src/twisted/_threads/_threadworker.py:90-113 | while a thread is not outside, some thread can go on |
| `LockWorker.EverythingGetsRun` | src/twisted/_threads/_threadworker.py:90-113 | once nobody calls it, all threads get outside after a bounded number of steps in any order, having run all they accepted |
| `TimerHeap.RootIsEarliest` | src/twisted/internet/base.py:163-180 | nothing in a heap is before its root |
| `TimerHeap.SiftUp` | src/twisted/internet/base.py:800-812 | the hand-written sift restores the order and keeps the contents |
| `TimerHeap.HeapPush` | src/twisted/internet/base.py:838-838 | order kept, one call added |
| `TimerHeap.HeapPop` | src/twisted/internet/base.py:899-899 | order kept, the root taken |
| `TimerHeap.Heapify` | src/twisted/internet/base.py:929-929 | any list becomes a heap of the same calls |
| `ReactorTimers.Reactor.DoCallLater` | src/twisted/internet/base.py:782-793 | a new call due then, staged; a negative delay changes nothing |
| `ReactorTimers.Reactor.DoCancel` | src/twisted/internet/base.py:87-104 | exactly this call stops being outstanding, unless it was cancelled or called |
| `ReactorTimers.Reactor.StatusTells` | src/twisted/internet/base.py:87-104 | a call raises AlreadyCalled exactly if it has run, AlreadyCancelled exactly if it was cancelled, and nothing exactly while it is outstanding |
| `ReactorTimers.Reactor.DoReset` | src/twisted/internet/base.py:106-127 | exactly this call is now due then, whether or not it had to move in the heap |
| `ReactorTimers.Reactor.DoDelay` | src/twisted/internet/base.py:129-151 | exactly this call is due that much later, or earlier |
| `ReactorTimers.Reactor.MoveCallLaterSooner` | src/twisted/internet/base.py:795-817 | the order is restored after the key of one call was lowered |
| `ReactorTimers.Reactor.GetDelayedCalls` | src/twisted/internet/base.py:819-829 | exactly the calls neither run nor cancelled, each once |
| `ReactorTimers.Reactor.InsertNewDelayedCalls` | src/twisted/internet/base.py:832-839 | staged calls go into the heap, and no due time changes |
| `ReactorTimers.Reactor.Timeout` | src/twisted/internet/base.py:842-869 | exactly the wait to the earliest key, kept within [0, 2147483], and nothing exactly without calls in the heap; so at most the wait to any outstanding call |
| `ReactorTimers.ClampedIsNearest` | src/twisted/internet/base.py:852-869 | the wait is the nearest that is not negative and at most 2147483 seconds |
| `ReactorTimers.Reactor.RunCall` | src/twisted/internet/base.py:908-910 | an active, due call is run, once, whatever its callback does to the timers |
| `ReactorTimers.Reactor.RunDue` | src/twisted/internet/base.py:896-922 | the pass ends, by calls in the heap and then postponed ones among them; nothing outstanding in the heap is due afterwards, and what is staged is exactly what was and the calls made meanwhile |
| `ReactorTimers.Reactor.RunCallback` | src/twisted/internet/base.py:908-911 | a callback's operations take effect in order up to the first that raises, and the calls it makes are staged |
| `ReactorTimers.EffectsInOrder` | src/twisted/internet/base.py:908-911 | operations of a callback that return take effect one after the other |
| `ReactorTimers.NothingAfterRaising` | src/twisted/internet/base.py:908-911 | one that raises has no effect, nor have those after it |
| `ReactorTimers.RunningCallIsCalled` | src/twisted/internet/base.py:908-911 | a call is marked as called before it is run: a callback that first cancels, resets or delays the call that runs it does nothing more |
| `ReactorTimers.RekeyingKeepsTimes` | src/twisted/internet/base.py:903-906 | a postponed call that is put back keeps its time |
| `ReactorTimers.Reactor.Compact` | src/twisted/internet/base.py:924-929 | the rebuilt heap keeps every outstanding call and no cancelled one; the count is then exact if and only if no staged call is cancelled |
| `ReactorTimers.Reactor.CountIsLowerBound` | src/twisted/internet/base.py:815-816 | `_cancellations` is at most the number of cancelled calls stored, and equal exactly when none was missed |
| `CancellationCount.CountFallsBehind` | src/twisted/internet/base.py:896-929 | a pass whose compaction misses a call that its callback made and cancelled |
| `ReactorTimers.Reactor.RunUntilCurrent` | src/twisted/internet/base.py:893-929 | whatever callbacks do, no call that there was before the pass and that is still outstanding is due, and exactly the calls made meanwhile are staged; the calls are then what its turns make of them (a call run once with all its callback does, or re-keyed) and it logs exactly the calls run; the count of cancelled calls is then at most 50 or half the heap; if no outstanding call has a callback that does something, those are exactly the calls that are due, in order of due time |
| `ReactorTimers.WhatRanWasDue` | src/twisted/internet/base.py:893-929 | in every reachable state a call that was run was run once, was not cancelled, and was due at the time of its pass |
| `AsyncioTimers.AsyncioReactor.Reschedule` | src/twisted/internet/asyncioreactor.py:271-279 | arms the timer, at this clock reading, for exactly the time at which the earliest key in the heap is reached, or at once, or LONGEST from now, so in time for every outstanding call, from any state; or leaves it as it was when the heap is empty |
| `AsyncioTimers.AsyncioReactor.CallLater` | src/twisted/internet/asyncioreactor.py:285-290 | the timer is the one there was, if that goes off no later than one armed now would, and otherwise that one; it is in time for the new call and all others |
| `AsyncioTimers.AsyncioReactor.Reset` | src/twisted/internet/asyncioreactor.py:281-283 | the timer is armed again exactly if the key became earlier, and is in time for every call |
| `AsyncioTimers.AsyncioReactor.Delay` | src/twisted/internet/asyncioreactor.py:281-283 | likewise |
| `AsyncioTimers.AsyncioReactor.OnTimer` | src/twisted/internet/asyncioreactor.py:266-269 | after the pass no call that there was before it is outstanding and due, and the timer is armed for the earliest key, or for nothing if the heap is empty |
| `AsyncioTimers.NeverOversleeps` | src/twisted/internet/asyncioreactor.py:266-290 | between events a timer is armed that goes off by the time any outstanding call is due, or by its arming time if that was later, which the clock has reached |
| `AsyncioTimers.WakesWhenDue` | src/twisted/internet/asyncioreactor.py:271-279 | a timer armed now goes off exactly when the earliest key is reached, or now if that is past, or after LONGEST |
| `AsyncioTimers.SoonerIsLeast` | src/twisted/internet/asyncioreactor.py:285-290 | after `callLater` it is the sooner of the two |
| `EventModel.RemoveKeeps` | src/twisted/internet/base.py:365-412 | removing keeps every trigger accounted for, and removes only what is named |
| `EventRuns.RemovedIffListed` | src/twisted/internet/base.py:365-412 | removing succeeds exactly if a trigger of that name is listed in that phase, unless one has run in this firing |
| `EventRuns.RemovingWhatHasRun` | src/twisted/internet/base.py:395-409 | then it succeeds and changes nothing |
| `EventRuns.FirstOneIsRemoved` | src/twisted/internet/base.py:378-391 | it is the one added first that is removed: it is off the list, the others stay in order, and nothing else changes |
| `EventRuns.RemovedNeverRuns` | src/twisted/internet/base.py:346-447 | a trigger that was removed runs in no later firing, whatever happens to the event |
| `EventRuns.RemovalsInOrder` | src/twisted/internet/base.py:365-412 | removals that a trigger makes are made one after the other until one raises |
| `EventModel.CallKeeps` | src/twisted/internet/base.py:422-431 | a call runs the first trigger of its list, which had not run, and whether or not it raises, removes only what it names |
| `EventRuns.CallMakesRemovals` | src/twisted/internet/base.py:422-431 | a trigger is off its list when it runs, makes its removals, and its Deferred counts exactly if nothing raised |
| `EventModel.DrainKeeps` | src/twisted/internet/base.py:440-447 | draining a phase leaves its list empty, runs only its triggers, each for the first time, and removes only what they name |
| `EventRuns.FinishedIsWhatRan` | src/twisted/internet/base.py:418-424 | `finishedBefore` is what has run in this firing, in order |
| `EventModel.ContinueKeeps` | src/twisted/internet/base.py:435-447 | so does the rest of a firing: all during-triggers run and then all after-triggers |
| `ReactorEvents.ThreePhaseEvent.AddTrigger` | src/twisted/internet/base.py:346-362 | the trigger goes to the end of its list |
| `ReactorEvents.ThreePhaseEvent.RemoveTrigger` | src/twisted/internet/base.py:365-412 | the first equal trigger is removed; one this firing has run already is left alone; otherwise it raises |
| `ReactorEvents.ThreePhaseEvent.RunNext` | src/twisted/internet/base.py:422-431 | exactly what the specification of a call says: what is taken, what is removed, and what Deferred it returns |
| `ReactorEvents.ThreePhaseEvent.RunBefores` | src/twisted/internet/base.py:419-431 | the before-phase is drained, and the Deferreds collected are those its triggers returned |
| `ReactorEvents.ThreePhaseEvent.FireEvent` | src/twisted/internet/base.py:415-432 | all before-triggers run; the rest runs now if every Deferred they returned has fired, and otherwise waits for exactly the others; too early exactly if the event was waiting already |
| `ReactorEvents.ThreePhaseEvent.ContinueFiring` | src/twisted/internet/base.py:435-447 | exactly what the specification of the rest of a firing says |
| `ReactorEvents.ThreePhaseEvent.DeferredFires` | src/twisted/internet/base.py:432-447 | the rest runs when the last Deferred of a list fires, and not before; too early exactly if another list goes on waiting |
| `ReactorEvents.WaitsWhileUnfired` | src/twisted/internet/base.py:415-447 | some list waits exactly while some returned Deferred has not fired |
| `ReactorEvents.PhasesInOrder` | src/twisted/internet/base.py:415-447 | once a during- or after-trigger has run, every Deferred of the before-triggers had fired, and no earlier phase runs any more, unless firings overlapped |
| `ReactorEvents.ExactlyOnce` | src/twisted/internet/base.py:346-447 | each trigger has run once, was removed, or waits, and only one of these; those of one phase ran in the order in which they were added |
| `ReactorEvents.FiredTwice` | src/twisted/internet/base.py:415-432 | a run in which a during-trigger runs although a returned Deferred has not fired |
| `ThreadCalls.ReactorThreads.CallFromThread` | src/twisted/internet/base.py:1020-1030 | the call is accepted behind all others, with a wake-up |
| `ThreadCalls.ReactorThreads.MakeCalls` | src/twisted/internet/base.py:876-892 | a pass makes exactly the calls queued at its start, in order; those that arrive meanwhile wait, with a wake-up |
| `ThreadCalls.EverythingIsMade` | src/twisted/internet/base.py:876-892 | more passes than calls queue calls make nothing more |
| `ThreadCalls.MakeEverything` | src/twisted/internet/base.py:876-892 | that many passes make everything accepted, and leave the queue empty |
| `ClientModel.NextKeeps` | src/twisted/application/internet.py:946-1031 | whatever can happen there is a transition for, and every transition keeps the invariant |
| `ClientModel.FailureKeeps` | src/twisted/application/internet.py:924-942 | a failure fires exactly the Deferreds whose countdown ends with it |
| `ClientModel.UnawaitKeeps` | src/twisted/application/internet.py:913-921 | all who wait are fired, once |
| `ClientModel.RunKeeps` | src/twisted/application/internet.py:946-1031 | in every run a retry timer is live exactly while waiting, stop-waiters are there exactly while disconnecting or restarting, and there is a current connection then and while connected |
| `ClientHistory.StateFollowsHistory` | src/twisted/application/internet.py:946-1031 | in every run the state, the open connection and the number of failed attempts are functions of what was last asked, made, lost and failed; so the machine does what was last asked of it |
| `ClientModel.FiresAtMostOnce` | src/twisted/application/internet.py:843-942 | each Deferred of `whenConnected` fires at most once and is outstanding until then |
| `ClientModel.NoneOutstanding` | src/twisted/application/internet.py:946-1031 | none is outstanding when connected, nor when stopped, except exactly in a machine that was asked and never started |
| `ClientModel.FailsOnTime` | src/twisted/application/internet.py:891-942 | one asked with `failAfterFailures` k has fired or is outstanding; it fails at exactly the max(1, k)-th later failure, if it fails, and does not wait beyond it |
| `ClientOutcomes.NewlyFired` | src/twisted/application/internet.py:891-1031 | the Deferreds that an input fires, and how, are exactly those for which it decides: a connection made, an attempt or wait that is stopped, a stopped connection that ends, the failure asked for, or the answer at once while connected or stopped |
| `ClientOutcomes.FiredBecause` | src/twisted/application/internet.py:891-1031 | in any run a Deferred has fired with an outcome exactly if some input decided that |
| `ClientOutcomes.FailsUnlessConnectedOrStopped` | src/twisted/application/internet.py:843-942 | asked for while there is no connection and none is being given up, and with neither a connection nor a stop after that, it has failed with exactly the max(1, k)-th later failure once there were as many, and is outstanding until then; without k, for ever |
| `ClientModel.StopsFireInOrder` | src/twisted/application/internet.py:691-701 | the Deferreds of `stop` fire in order, once |
| `ClientModel.DelayGrows` | src/twisted/application/internet.py:519-525 | with a factor of at least 1 the delay before jitter grows with the attempt, up to `maxDelay` |
| `ClientHistory.DelayIsGeometric` | src/twisted/application/internet.py:519-525 | the first delay is `initialDelay`, each later one `factor` times the one before, up to `maxDelay`, and from the hundredth attempt on the same |
| `ClientHistory.OverflowIsMaxDelay` | src/twisted/application/internet.py:519-525 | a power beyond the largest float gives `maxDelay` |
| `ClientModel.WaitsGrow` | src/twisted/application/internet.py:775-781 | so do the waits over consecutive failures of the machine |
| `ClientMachine.Machine.Start` | src/twisted/application/internet.py:946-1009 | the class makes the transition of the specification |
| `ClientMachine.Machine.Stop` | src/twisted/application/internet.py:946-1009 | likewise, also where stopping an attempt makes it fail at once |
| `ClientMachine.Machine.WhenConnected` | src/twisted/application/internet.py:1011-1031 | likewise |
| `ClientMachine.Machine.ConnectionMade` | src/twisted/application/internet.py:958-959 | likewise |
| `ClientMachine.Machine.ConnectionFailed` | src/twisted/application/internet.py:960-961 | likewise |
| `ClientMachine.Machine.Reconnect` | src/twisted/application/internet.py:971-972 | likewise |
| `ClientMachine.Machine.ClientDisconnected` | src/twisted/application/internet.py:979-1003 | likewise |
| `ClientMachine.Machine.DeliverConnectionFailure` | src/twisted/application/internet.py:924-942 | the loop splits the waiters into those that fail now, in order, and the rest, one failure closer |
| `WriteBuffer.FileDescriptor.Write` | src/twisted/internet/abstract.py:339-355 | the data goes to the end of the queue, and exactly a full buffer pauses a streaming producer, which is remembered |
| `WriteBuffer.FileDescriptor.WriteSequence` | src/twisted/internet/abstract.py:358-383 | likewise for the chunks joined |
| `WriteBuffer.FileDescriptor.DoWrite` | src/twisted/internet/abstract.py:234-289 | the queue loses exactly what was taken; when it empties, a waiting producer is resumed, or the close is reported, or the half-close is done; closing is reported only when everything accepted was sent; how many sent bytes stay in the buffer is exact |
| `WriteBuffer.FileDescriptor.MaybePauseProducer` | src/twisted/internet/abstract.py:326-336 | pauses exactly a streaming producer with a full buffer |
| `WriteBuffer.FileDescriptor.SentBytesCountAsFull` | src/twisted/internet/abstract.py:311-323 | the buffer counts as full exactly if the bytes to send and those sent from its front are more than the limit; that is wrong exactly if the bytes to send alone are not |
| `WriteBuffer.PausedForSentBytes` | src/twisted/internet/abstract.py:311-323 | a run in which a producer is paused for that reason |
| `WriteBuffer.FileDescriptor.RegisterProducer` | src/twisted/internet/abstract.py:86-112 | one producer at a time; a pull producer is started, and one for a lost connection stopped |
| `WriteBuffer.FileDescriptor.UnregisterProducer` | src/twisted/internet/abstract.py:115-121 | a requested close has a write event coming again |
| `WriteBuffer.FileDescriptor.ConnectionLost` | src/twisted/internet/abstract.py:191-207 | the producer is stopped and nothing is watched any more |
| `WriteBuffer.FileDescriptor.LoseConnection` | src/twisted/internet/abstract.py:386-409 | the close is requested, or happens at once after a half-close, when nothing is left to send |
| `WriteBuffer.FileDescriptor.LoseWriteConnection` | src/twisted/internet/abstract.py:411-413 | the half-close is requested with a write event |
| `WriteBuffer.WriteEvents` | src/twisted/internet/abstract.py:234-289 | write events that each take something end with everything sent; a producer that waits is resumed, or else a requested close is reported, or else a pending half-close done, exactly if a write event was coming |
| `WriteBuffer.CloseIsReached` | src/twisted/internet/abstract.py:252-289 | a requested close with no producer is reported once everything is sent |
| `WriteBuffer.HalfCloseIsReachedIffNotStranded` | src/twisted/internet/abstract.py:281-289 | with no producer to resume, a pending half-close is carried out exactly if it has a write event coming |
| `WriteBuffer.ResumingStrandsHalfClose` | src/twisted/internet/abstract.py:272-280 | with a producer to resume it is left with no write event coming |
| `WriteBuffer.HalfCloseIsForgotten` | src/twisted/internet/abstract.py:115-121 | a run that leaves it so when the producer has gone |
| `WriteBuffer.StreamingProducerIsNotAwaited` | src/twisted/internet/abstract.py:272-280 | a streaming producer that is not paused does not hold the connection open |
| `LineEditor.OperationsRespectBlanks` | src/twisted/conch/insults/helper.py:151-178 | inserting, replacing, deleting and cutting do the same to rows that differ in trailing blanks |
| `LineEditor.WritePrompt` | src/twisted/conch/recvline.py:172-186 | text written to an empty row is what the row shows |
| `LineEditor.UnfinishedLineComesBack` | src/twisted/conch/recvline.py:343-371 | going up and down again brings an unfinished line back exactly if there was a line to go up to |
| `LineEditor.BackspaceUndoesTyping` | src/twisted/conch/recvline.py:277-282 | a backspace takes back what was typed in insert mode |
| `LineEditor.ArrowsMoveByOne` | src/twisted/conch/recvline.py:252-261 | Left and Right move the cursor by one and undo each other, except at the ends |
| `LineEditor.HomeIsAllTheWayLeft` | src/twisted/conch/recvline.py:264-274 | Home is Left, and End is Right, until nothing moves |
| `LineEditor.DeleteIsBackspaceFromTheRight` | src/twisted/conch/recvline.py:285-288 | Delete is Right and a backspace, and nothing at the end of the line |
| `LineEditor.InsertSwitchesModes` | src/twisted/conch/recvline.py:236-242 | Insert switches the mode, in which a character goes before the one at the cursor or in its place |
| `LineEditor.HistoryIsWalked` | src/twisted/conch/recvline.py:343-371 | Up and Down show the lines of the history in turn and undo each other |
| `LineEditor.TypedLineIsDelivered` | src/twisted/conch/recvline.py:226-378 | a line that is typed and ended with Return is delivered as typed and remembered, and Up shows it |
| `LineEditor.TabReachesTabStop` | src/twisted/conch/recvline.py:245-249 | the cursor is at a tab stop after a tab exactly if cursor and end of the line were equally far past one |
| `LineEditor.TabMissesTabStop` | src/twisted/conch/recvline.py:245-249 | a line in which it is not |
| `LineEditor.CursorStaysInside` | src/twisted/conch/recvline.py:226-305 | no key moves the cursor off the line |
| `LineEditor.LineBuffer.CharacterReceived` | src/twisted/conch/recvline.py:236-242 | the character goes into the line, and row and cursor stay in step |
| `LineEditor.LineBuffer.HandleTab` | src/twisted/conch/recvline.py:245-249 | the line grows by blanks to the next tab stop, the cursor moves by as many, and likewise |
| `LineEditor.LineBuffer.HandleBackspace` | src/twisted/conch/recvline.py:277-282 | the character before the cursor goes, and likewise |
| `LineEditor.LineBuffer.HandleDelete` | src/twisted/conch/recvline.py:285-288 | the character at the cursor goes, and likewise |
| `LineEditor.LineBuffer.HandleReturn` | src/twisted/conch/recvline.py:374-377 | the line is delivered and remembered, and the next prompt is in step |
| `LineEditor.LineBuffer.HandleUp` | src/twisted/conch/recvline.py:343-353 | the older line is shown; an unfinished one joins the history |
| `LineEditor.LineBuffer.HandleDown` | src/twisted/conch/recvline.py:356-371 | the newer line is shown, or an empty one |
| `LineEditor.LineBuffer.KeystrokeReceived` | src/twisted/conch/recvline.py:226-233 | every key does what the specification without a terminal says, the prompt stays, and row and cursor stay in step |
| `LineEditor.LineBuffer.Typed` | src/twisted/conch/recvline.py:226-378 | so does any run of keys: the row is prompt and line up to trailing blanks, the cursor is at the edited place, all positions are in range |

## Left out

- Sockets, event-loop back ends, TLS and the clock: `writeSomeData` results, times, the choices of
  the two Telnet policies and `set.pop`'s choice of a worker are parameters.
- Objects and aliasing: a `DelayedCall` and a Telnet option's state are records in a table of the
  object that owns them, named by number. Deferreds are numbers that fire once.
- `heapq`: its operations are written out here, not its own algorithms; only order and contents are
  relied on.
- Callbacks of timed calls, triggers, thread calls and lock work are finite scripts of the operations
  they make; a callback that re-enters the pass that runs it is not modelled.
- The coordinator of a team runs one errand at a time, and each public call of a team checks and
  queues as one step; a race between `quit` and another caller's check is not modelled.
- `createWorker` with a limit that changes while the team runs: dispatch is then not in order.
- `AsyncioTimers.AsyncioReactor.OnTimer`: callbacks of the pass use the base reactor's `callLater`;
  with this reactor's own, new calls enter the heap during the pass, and only `Reschedule`, which
  works from any state, is proved to put the timer right.
- `AsyncioTimers.AsyncioReactor.CallLater`: the clock is read once in each call, not several times; the
  readings need not increase from call to call.
- `ReactorEvents.PhasesInOrder`: overlapping firings are excluded; for them the contracts of `FireEvent`
  and `DeferredFires` say exactly when the rest of a firing runs.
- `LockWorker.EmptyWhenReleased`: says nothing about what is left in the list when a call that the work
  made was refused after a quit; `InterleavingDoesNotMatter` says what was run.
- `ThreadWorker`: one queue and one thread that empties it; it would only add easy members.
- `prepareConnection` of the client machine counts as part of the connection attempt, and an attempt
  that ends inside `connect` as one that ends right after it.
- `ClientModel.DelayGrows`: delays are real numbers, not rounded; a power beyond the largest float, which
  is a parameter, raises OverflowError as in the code.
- Telnet input after `connectionLost`, the NAWS and LINEMODE subnegotiations, and login.
- Half-closing hooks that subclasses add (`_closeWriteConnection`), and what a producer does when it
  is told to pause, resume or stop, other than as a later call.
- Wrapping of long lines, `terminalSize` and redrawing: the terminal row is as wide as it has to be.
- Everything else in the repository: endpoints, resolvers, services, credentials, plug-ins and the
  adapters around them.
