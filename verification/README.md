# A verified model of enyx-net-tester's transfer sessions

enyx-net-tester sends and receives a byte pattern over TCP or UDP between two peers, at a limited
bandwidth, and reports whether the data and the connection behaved. This project models that
behaviour in Dafny and proves properties of it.

## What is modelled

* **One session.** A session runs two independent halves, send and receive. Each half is a chain of
  asynchronous completions: a throttle wait, an input or output of a size chosen by the kernel, accounting,
  then another transfer, another wait, or the end. The halves meet at a join that closes the socket.
  Over TCP a shutdown policy says when the sending direction is half-closed, and a last one-byte read
  must meet the end of the stream. `SessionModel.dfy` gives the session as a value with its handlers as
  functions and its environment as a set of enabled events. `Session.dfy` is the session as the
  object of the source, with mutable counters, flags, buffers, throttles and handler slots; each of
  its methods is proved to take the step of the model, so what is proved of the model's runs
  (`SessionInvariant.dfy`, `SessionTheorems.dfy`, `SessionVerdict.dfy`, `SessionCompletion.dfy`) holds
  of the object.
* **Two connected TCP sessions.** `Connection.dfy` joins two sessions by two bounded FIFO byte channels
  with an end-of-stream mark, the half-close of section 3.6 of RFC 9293. The kernel completes an operation in one step and the
  handler runs in a later one. `ConnectionIntegrity.dfy` proves that data is never corrupted in any
  pair, `ConnectionSafety.dfy` which pairs never fail, `ConnectionLiveness.dfy` that every run is
  finite and where it may stop, and `ConnectionExactness.dfy` that the configurations alone decide
  whether every run succeeds.
* **Pacing and the timeout.** `BandwidthThrottle.dfy`, `SessionPacing.dfy` and `TestDuration.dfy` hold
  the truncating slice arithmetic, the schedule of the slices from the connection on and the timeout
  estimated for it.
* **The application.** `Application.dfy` has the placement of sessions on io_services, the polling
  threads with their shared exit flag as interleaved turns, and the failure that is reported;
  `ApplicationExit.dfy` says when threads leave and which applications can end quietly.
* **Configuration.** `Configuration.dfy` has the per-line checks and the object reused between lines,
  `Ranges.dfy` the expansion of the CPU core list.

## Main results

* Take any two accepted TCP configurations whose slices, in the directions in use, are not empty, and
  leave out timeouts, signals and network errors. Then every run, under every interleaving and
  chunking, ends with both sockets closed and no failure recorded if and only if the directions face
  each other, the sizes are equal, and the policies are SEND_COMPLETE on both sides of a two-way
  transfer, or anything but WAIT_FOR_PEER on both sides of a one-way transfer
  (`SucceedsExactlyWhenCompleting`, `CompletingTable`); and then every run also transfers everything
  and nothing more. So RECEIVE_COMPLETE or WAIT_FOR_PEER can fail in two-way mode: the half-close may
  come while the local send half is still running. The timeout is a separate question: a completing
  pair that moves 100000 bytes at 1999 bytes per second sampled at 1000 Hz does not end in time.
* Every run of any two such sessions is bounded by the work there was at the start.
* In a run without cancelled operations, each half of a started session that has not failed waits for
  its throttle, its I/O or the closing read, or is complete.
* The failure that a run leaves on record is the cause of its last failing event, and there is none
  exactly when no event failed; the exit flag is set exactly if a failure is on record or it was set before.
* The schedule of the slices starts at the moment the session learns of its connection: no byte moves
  before, the grant after n others may fire n slice durations later and never earlier, and the bytes
  moved stay under the rate counted from that moment.
* Mode FIRST records a mismatch exactly when some read starts with a wrong byte. Mode ALL, which
  restarts an 8-bit counter at every read, records a mismatch exactly when the bytes delivered over
  the whole run are not the pattern; a session fed by another session never does.
* If truncation leaves at least the smaller bandwidth, margin included, the timeout exceeds the schedule
  of every size. If it does not, an explicit size (`OutlastingSize`) is not covered; it may lie
  beyond 64 bits, and where it does not, the condition is exact over the sizes the program can be given. A
  bandwidth of 1999 sampled at 1000 Hz is an example with the size 5998; no run whose schedule outlasts the
  timeout can move all its bytes in time.
* If the application ends without reporting a failure and without a process signal, every session has
  finished: an io_service only stops when none of its sessions has anything pending. Such an end is possible
  exactly when no direction in use has empty slices, or empty datagrams; and once an io_service has
  stopped, or exit is requested, its thread leaves within two turns. A process signal can
  end any application that has a session quietly, with none of them started.
* Despite its comment, the removal of duplicates in the core list only removes neighbours; the list
  is free of duplicates exactly when any two ranges are disjoint or only touch.

## Model

| member | source | states |
|---|---|---|
| Configuration.RefusalExact | src/Executable.cpp:62-86 | the checks accept a line exactly when it has one of the two end points, a non-zero size and frequency, and a policy that its direction allows |
| Configuration.RefusalIsFirstViolated | src/Executable.cpp:62-86 | a line is refused for the first of the things that are wrong with it, in the order of the checks |
| Configuration.LineRoundTrip | src/Executable.cpp:127-193 | every acceptable configuration can be given on a line, and reads back as itself |
| Configuration.OmittedMeansDefault | src/Executable.cpp:144-193 | an option left out is as good as given with its documented default, for the checks and for the meaning |
| Configuration.Reader.Notify | src/Executable.cpp:127-193 | a line overwrites every field of the shared configuration with its value or default, except size and end point when absent |
| Configuration.Reader.FillLine | src/Executable.cpp:50-87 | the outcome of a line and the configuration it leaves do not depend on earlier lines |
| Configuration.Reader.FillFile | src/Executable.cpp:103-117 | every configuration is what its own line means although one moved-from object is reused, a client exactly if the line connects; the first bad line refuses the file |
| Stream.ChunkIsStream | src/TcpSession.cpp:129-141 | a chunk taken from the buffer at the low byte of the sent count continues the stream pattern |
| SessionInvariant.SendRequestInv | src/TcpSession.cpp:125-130 | the clamped request keeps the exact slice accounting, without wrapping in the 64-bit subtraction |
| SessionInvariant.AfterSendKeeps | src/Session.cpp:244-250 | counting a partial send keeps the accounting whether the slice goes on, is used up, or the half ends |
| SessionInvariant.AfterReadKeeps | src/Session.cpp:170-177 | counting a partial, unclamped read keeps the accounting and the overshoot bound |
| SessionInvariant.OnEofKeeps | src/TcpSession.cpp:102-115 | the closing read keeps the half-close count and the join, whatever it returns |
| SessionInvariant.StartTransferKeeps | src/Session.cpp:97-117 | every direction, policy and protocol starts in a state of the invariant |
| SessionInvariant.StepKeeps | src/TcpSession.cpp:51-162 | every handler, for every completion, keeps the session invariant |
| SessionInvariant.RunKeeps | src/Session.cpp:156-284 | over whole runs the invariant holds, and failures, mismatches and closes are never taken back |
| SessionTheorems.SenderAccounting | src/TcpSession.cpp:117-145 | sent plus the clamped slice is min(grants * slice, size); a complete send has sent the size with ceil(size / slice) grants |
| SessionTheorems.ReceiverAccounting | src/Session.cpp:156-179 | received plus the slice is grants * slice; a complete reception overshoots by less than one read, with ceil(size / slice) grants |
| SessionTheorems.EmptySlicesNeverMove | src/BandwidthThrottle.cpp:32-38 | a bandwidth below the sampling frequency keeps the half at zero bytes in every run |
| SessionTheorems.JoinCorrect | src/Session.cpp:278-284 | on_finish runs at most once, exactly when both halves are complete, and no event is possible afterwards |
| SessionTheorems.ClosesAtSecondCompletion | src/Session.cpp:188-195 | the handler that closes is the one that completes the second half, in either order |
| SessionTheorems.HalfClosedOnceBeforeClose | src/TcpSession.cpp:79-162 | a TCP session half-closes once before its only close; under SEND_COMPLETE, or without sending, no send starts afterwards |
| SessionTheorems.HalfCloseMoment | src/TcpSession.cpp:79-156 | which handler half-closes under each policy, and that no other does |
| SessionTheorems.LateSendsCounted | src/TcpSession.cpp:117-145 | late sends are exactly the sends started with the sending direction half-closed |
| SessionTheorems.FinishedMeansTransferred | src/Session.cpp:261-268 | a finished session has sent exactly its size and received at least its size, in its directions |
| SessionTheorems.FailureExplained | src/Session.cpp:163-169 | unexpected EOF on record means fewer bytes than the size, unexpected data that the size had been reached, and a mismatch that bytes were verified |
| SessionTheorems.DatagramFits | src/UdpSession.cpp:100-103 | the buffer assertion holds for every position, slice and draw exactly when the largest datagram is at most BUFFER_SIZE - 255 |
| SessionTheorems.DatagramDrawn | src/UdpSession.cpp:100-102 | a datagram has the size drawn for it, or what is left of the slice |
| SessionTheorems.DatagramFixed | src/UdpSession.cpp:134-141 | with one size configured every datagram has it, or what is left of the slice |
| SessionTheorems.HalvesPending | src/TcpSession.cpp:51-145 | in a run without cancelled operations, each half of a started session without failure waits for its throttle, its I/O or the closing read, or is complete, and the session is finished exactly when neither waits |
| SessionTheorems.OutOfWork | src/Session.cpp:278-284 | a session with nothing pending, not even its wait for signals, has finished or failed, and a finished one has nothing pending |
| SessionTheorems.OutgoingChunk | src/UdpSession.cpp:96-117 | a pending send lies in the buffer over TCP, and over UDP when the largest datagram leaves room for every offset; inside the buffer it is the pattern from the sent count on |
| SessionTheorems.AssertionHolds | src/UdpSession.cpp:100-103 | under the same condition no handler of any session meets the buffer assertion with a larger chunk |
| SessionTheorems.VerifyFirstIsReadStarts | src/Session.cpp:207-209 | over any run, mode FIRST has recorded a mismatch exactly when some read started with a byte that is not the pattern at its position |
| SessionPacing.RateBound | src/BandwidthThrottle.hpp:22-38 | the k-th grant never fires before start + (k - 1) * duration, so the bytes moved stay under the granted rate |
| SessionPacing.CountersCount | src/Session.cpp:244-245 | the counters of a session are the grants and the accepted bytes of its run |
| SessionPacing.ConnectionStarts | src/Session.cpp:97-117 | a run connects at most once, only the timeout and signals can come before, and the two schedules start at the times read when it connects, the receive half first |
| SessionPacing.NothingBeforeConnection | src/Session.cpp:97-117 | no byte moves before the connection |
| SessionPacing.SendSchedule | src/BandwidthThrottle.hpp:24-34 | after n grants the next one may fire n slice durations after the connection, and not before |
| SessionPacing.ReceiveSchedule | src/BandwidthThrottle.hpp:24-34 | the same for the receive half |
| SessionPacing.SendRateBound | src/BandwidthThrottle.cpp:19-23 | in any run the bytes sent stay under one slice per started duration since the connection, and the send half cannot complete before its last slice scheduled from there |
| SessionPacing.ReceiveRateBound | src/BandwidthThrottle.cpp:19-23 | in any run the bytes received obey the same bound, and the size cannot be reached before its last slice scheduled from the connection |
| SessionTheorems.SendProgress | src/TcpSession.cpp:117-145 | with non-empty slices a measure decreases at every grant and every successful send |
| SessionTheorems.ReceiveProgress | src/TcpSession.cpp:51-77 | with non-empty slices a measure decreases at every grant and every successful read |
| SessionTheorems.VerifyAllIsWholeStream | src/Session.cpp:197-231 | over any run, mode ALL has recorded a mismatch exactly when the delivered bytes are not the pattern, and mode NONE never |
| SessionVerdict.VerdictIsLastCause | src/Session.cpp:156-284 | over any run, the failure on record is the cause of the last event that failed the session, and there is none exactly when no event did; causes are told from the events and the stream position alone |
| SessionVerdict.StepVerdict | src/TcpSession.cpp:102-115 | each event records its own cause or leaves the record alone: a byte after the size is unexpected data, an early end unexpected EOF, a cancelled transfer nothing |
| SessionVerdict.OneSignal | src/Session.cpp:69-91 | a run handles at most one signal, because the wait is not started again |
| SessionCompletion.CanStillFinish | src/TcpSession.cpp:51-156 | from any state without failure or cancelled half, a session with room to move can still finish without a failure |
| SessionCompletion.NoDeadEnd | src/TcpSession.cpp:51-156 | no run that has neither failed nor been cancelled is a dead end |
| SessionCompletion.FinishableExactly | src/BandwidthThrottle.cpp:32-38 | a session has a run in which it finishes exactly when every direction in use has slices, and datagrams, that are not empty |
| BandwidthThrottles.HandlerMemory.Allocate | src/HandlerAllocator.hpp:40-46 | the slot must hold no live handler, which the unset flag cannot tell |
| BandwidthThrottles.HandlerMemory.Deallocate | src/HandlerAllocator.hpp:48-53 | the slot is free before the handler runs |
| BandwidthThrottles.BandwidthThrottle.Delay | src/BandwidthThrottle.hpp:22-38 | the timer is armed for the scheduled start of the next slice, in a free slot |
| BandwidthThrottles.BandwidthThrottle.Fire | src/BandwidthThrottle.hpp:28-34 | the schedule advances by one duration from the previous start, and a whole slice is granted |
| BandwidthThrottles.BandwidthThrottle.Reset | src/BandwidthThrottle.cpp:19-23 | the schedule restarts now |
| Sessions.Session.Initialize | src/Session.cpp:93-94 | the send buffer holds the pattern |
| Sessions.Session.VerifyBytes | src/Session.cpp:197-231 | the wrapping 8-bit counter checks every byte against its absolute stream position |
| Sessions.Session.OnReceive | src/Session.cpp:156-179 | a read completion takes the step of the model, freeing its slot first and leaving each slot in use exactly while its operation is pending; exit is requested exactly if it was before or a failure is on record |
| Sessions.Session.OnEof | src/TcpSession.cpp:102-115 | the closing read takes the step of the model: the end completes the half, a byte is unexpected data, an error is recorded as it is |
| Sessions.Session.FinishReceive | src/TcpSession.cpp:79-100 | TCP half-closes under RECEIVE_COMPLETE and starts the closing read, UDP completes the half |
| Sessions.Session.AsyncSend | src/UdpSession.cpp:88-119 | the request of the model in a free slot, under the assertion of the source and no more |
| Sessions.Session.OnSend | src/Session.cpp:233-252 | a send completion takes the step of the model |
| Sessions.Session.FinishSend | src/TcpSession.cpp:147-156 | TCP half-closes under SEND_COMPLETE before the half completes |
| Sessions.Session.Outgoing | src/TcpSession.cpp:141-143 | the bytes given to the kernel are the pattern at the sent count |
| Sessions.Session.StartTransfer | src/Session.cpp:97-117 | both halves start as the direction asks, with each schedule restarted at its own time |
| Sessions.Session.PollOne | src/Application.cpp:93-94 | any enabled handler keeps the object valid, with at most one live handler per slot, takes exactly the step of the model and keeps its invariant, and leaves exit requested exactly if it was before or a failure is on record; it demands only what the source asserts of a send |
| ConnectionIntegrity.ActFlows | src/TcpSession.cpp:51-156 | every action of either end or kernel keeps the bytes in flight equal to the pattern between taken and pushed |
| ConnectionIntegrity.NeverMismatched | src/Session.cpp:197-231 | whatever the two configurations, chunking and interleaving, neither session ever records a data mismatch |
| ConnectionSafety.NoKernelFault | src/TcpSession.cpp:79-115 | in a safe pair no send is refused, no read is reset, the size is never followed by data, and the end never comes early |
| ConnectionSafety.RunReadClean | src/TcpSession.cpp:102-115 | a half-close that answers the peer's end comes after all data, because the peer has read all of it |
| ConnectionSafety.NeverFails | src/TcpSession.cpp:52-162 | matched sessions of safe policies never record a failure; two that wait for the peer never half-close |
| ConnectionLiveness.QuiescentCases | src/TcpSession.cpp:52-162 | a clean pair without a move has succeeded on both sides, or both sides wait for each other |
| ConnectionLiveness.EveryRunIsBounded | src/TcpSession.cpp:51-145 | no run of any two sessions with non-empty slices is longer than the work at its start |
| ConnectionLiveness.EveryRunSucceeds | src/TcpSession.cpp:52-162 | matched completing sessions: every run is bounded, records no failure, and stops only with both sockets closed and sent = received = size |
| ConnectionLiveness.BothWaitStall | src/TcpSession.cpp:102-107 | two WAIT_FOR_PEER sessions never half-close, and stop only with everything transferred and both waiting for the end |
| ConnectionExactness.FailingRun | src/TcpSession.cpp:84-107 | a two-way session whose half-close does not wait for its own data has a run that fails |
| ConnectionExactness.FrugalReportIsMatched | src/Session.cpp:172-178 | if reads return one byte each and both ends close without a failure, exactly the two sizes were exchanged and the configurations match |
| ConnectionExactness.OtherwiseSomeRunDoesNot | src/TcpSession.cpp:52-162 | a pair that is not matched and completing has a run that records a failure, or stops before both ends have closed without one |
| ConnectionExactness.SucceedsExactlyWhenCompleting | src/TcpSession.cpp:52-162 | for any two accepted TCP configurations, every run ends with both ends closed and no failure exactly when they are matched and completing, and then exactly everything is transferred |
| ConnectionExactness.CompletingTable | src/Executable.cpp:71-79 | the completing pairs among accepted configurations, by direction and policy |
| TestDuration.EstimateExact | src/Session.cpp:141-154 | harmless truncation lets the timeout cover the last scheduled slice of both directions for every 64-bit size; harmful truncation leaves an explicit size uncovered, so the condition is exact wherever that size fits in 64 bits |
| TestDuration.CoversAtSmaller | src/Session.cpp:141-154 | for one size, both directions are covered exactly when the smaller bandwidth alone is |
| TestDuration.HarmfulBeyondWordsExample | src/Session.cpp:141-154 | a truncation that is harmful only to sizes beyond 64 bits |
| TestDuration.DivisibleCoversSchedule | src/Session.cpp:141-154 | when the frequency divides the smaller bandwidth the timeout covers both schedules with any margin |
| TestDuration.TooSlowToFinish | src/Session.cpp:119-130 | if the last slice is scheduled at or after the timeout, no run moves all bytes of the half before the deadline of a timer started no later than the connection |
| TestDuration.TruncationExample | src/BandwidthThrottle.cpp:25-38 | 100000 bytes at 1999 bytes per second sampled at 1000 Hz are scheduled over 99.999 s against a timeout of 56.1 s; already 5998 bytes are not covered |
| Application.Place | src/Application.cpp:134-162 | one io_service and one pinned thread per listed core, or a single one that is not pinned; sessions go to them in turn, so each gets the rounded-down share and the first few one more |
| Application.LoadBalanced | src/Application.cpp:144-152 | any round-robin placement gives each io_service the rounded-down share of the sessions, and the first ones, as many as are left over, one more |
| Application.FirstFailure | src/Application.cpp:169-177 | the failure reported is that of the first failed session in configuration order, and none exactly when none failed |
| Application.TurnsKeep | src/Application.cpp:89-95 | under every interleaving a thread only leaves its loop for a requested exit or an io_service whose sessions have nothing pending, and failures are never lost |
| Application.QuietExitMeansAllDone | src/Application.cpp:125-179 | joined without a reported failure or process signal, every session has finished with its data transferred; finishing is derived from having nothing pending |
| ApplicationExit.ProcessSignalExitsQuietly | src/Signal.cpp:37-44 | a process signal can end any application that has a session without a failure and with no session started |
| ApplicationExit.OneHandlerAfterExit | src/Application.cpp:93-94 | once exit is requested each thread runs at most the one handler it was polling for |
| ApplicationExit.LeavesLoop | src/Application.cpp:89-95 | once exit is requested or its io_service has stopped, a thread takes exactly the turns left to it, two at most, and has then exited |
| ApplicationExit.ExitedExactly | src/Application.cpp:89-95 | a thread can take a turn exactly until it has exited |
| ApplicationExit.IdleCanExit | src/Application.cpp:89-95 | with nothing failed and nothing pending, the threads can all leave, with no failure to report |
| ApplicationExit.QuietEndExactly | src/Application.cpp:125-179 | an application can end without a failure and without a process signal exactly when each of its sessions is finishable |
| Ranges.RangeAsSequence | src/Range.ipp:66-76 | the loop yields every core from low to high, around the end of the type if inverted, and is safe at the type maximum |
| Ranges.ExpandIncrements | src/Range.ipp:66-76 | each core listed is the one before it incremented, with wrap-around |
| Ranges.Unique | src/Ranges.ipp:84-86 | in place, runs of equal neighbours are collapsed |
| Ranges.AsSequence | src/Ranges.ipp:71-89 | the expansions in order, with equal neighbours collapsed |
| Ranges.DedupKeepsRunStarts | src/Ranges.ipp:84-86 | what is kept is the first element of every run, in the order of the ranges |
| Ranges.RunStartsInOrder | src/Ranges.ipp:84-86 | the kept positions are all the starts of runs, in increasing order |
| Ranges.CoreListContents | src/Ranges.ipp:71-89 | for upright ranges the list holds exactly their union, and no equal neighbours |
| Ranges.CoreListIncreasing | src/Ranges.ipp:84-86 | ranges in order give a strictly increasing list |
| Ranges.CoreListDistinct | src/Ranges.ipp:84-86 | the list is free of duplicates exactly when any two ranges are disjoint or only touch with nothing else between |
| Ranges.DuplicateCoreExample | src/Ranges.ipp:84-86 | the ranges 0-1,0 list a core twice |

## Left out

- Sending a datagram for which the source's assertion fails: what a build without assertions then reads beyond the buffer is not modelled. The source does not check the configured datagram sizes for it.
- Sockets, name resolution, connecting and accepting, socket options: replaced by one "connected" event per session. A failed connection is indistinguishable from a successful one in the source, and here.
- UDP delivery: datagrams may be lost or reordered, so only the sender and the single session are modelled for UDP.
- The kernel: a TCP transfer moves at least one byte and no more than requested, a timer never fires early, and a completed operation runs its handler once; a reset reaches a reader only after its peer closed with unread data. These are the environment of the runs.
- Timeouts, signals and network errors are not actions of the two-session model; they are events of the single session and of the application.
- Cancelling the timeout and the signals: a cancelled wait is taken never to run its handler, and the timer to be started before the session can finish. In the single-session runs the timeout may strike at any time before the session finishes; its date is only compared with the schedule in `TestDuration.dfy`.
- Thread::run and the io_service: the polling loops are interleaved turns of a value rather than loops on shared objects, because their concurrency is the point; an io_service is reduced to whether its sessions have anything pending, the timeout timer aside, which only matters after a signal has failed the session.
- A second process signal, which aborts the process: the turns end with it.
- Handler sizes, and the allocator classes around the slot.
- 64-bit additions to the byte counts are unbounded: the sent count never exceeds the size, and the received count exceeds it by less than 131072.
- The slice schedule is in whole nanoseconds and is unbounded.
- CPU pinning, statistics, durations, messages, process exit codes, size and enumeration texts, option parsing and `main`.
