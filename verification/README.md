# Verification of the visible algorithms of beast-asio-standalone

A Dafny 4.11 project that models the stateful algorithms of the library and of its example programs
and proves what they are for. `dafny verify dfyconfig.toml` checks all of it.

| files | what they model |
|---|---|
| SessionPool, SessionTraces, SessionTouching, SessionAlloc, SessionReplay | the recycling session allocator: layout of its block, whole traces, a heap that returns memory next to the block, the allocator object on a shared heap, and its convergence to no heap traffic |
| SteadyTimer, HttpPipeline, HttpStory, HttpDrain, HttpSession, HttpService | the pipelined HTTP session of the advanced server, over every interleaving of its handlers |
| KeepAlive, KeepAliveStory, PingOverlap, WebsocketSession, WebsocketService | the ping and timeout protocol of its websocket session |
| Crawl, CrawlRuns, CrawlOutcomes, CrawlReports, CrawlTimer, CrawlWaits, CrawlWorker, CrawlProgram | the multi-worker crawler, over every interleaving of its threads |
| Octets, BufferBody, FileBody, DynamicBody, DynamicReading, ChunkPrinter | body readers and writers, and the loops that relay, print and copy bodies |
| NameOrder | case-insensitive comparison of field names and the order of the fields container |
| PathMapping | from a request target to the file that is opened |

## How the models are built

State that the source updates in place is an object here: `PoolT`, the two `Session` classes,
`CrawlReport` and `WorkerThread`, the body classes. Every handler is a method whose postcondition
equates the new state with a step of a state machine on values; what must hold over whole runs is
proved about that machine, for every sequence of events it admits, and then carried over to the
objects (`SessionReplay`, `HttpService`, `WebsocketService`, `CrawlProgram`). The two sessions are
moreover compared with a story that is told from the events alone, without handlers, timers or operations
in progress (`HttpStory`, `KeepAliveStory`). Ghost fields and the fields
called history record what the source does not: the order in which writes began, the time of the
last activity, the host that a closure reports on.

Events that come from outside are unconstrained: an operation completes with any result at any time
after it was started, a stream, a file or the parser fails at any time, a parser slices a body in any way, the heap returns any fresh address, a file
returns any non-empty short read. The strand makes handlers atomic and never runs them inline.
Memory addresses are integers and null is 0. `sizeof(element)` is an arbitrary positive constant,
and so is the number of clock ticks in a second.

## Where the code does less than it sets out to do

The model keeps the code as it is; each point is stated with the exact condition under which the
intended property holds.

* The placement test of the allocator looks only at where the last element ends. An allocation overlaps a
  live element if and only if it is placed in the block and a live element of the block begins in the
  octets that it is given, in every pool that nothing was overlapped in before; so a run overlaps something
  live if and only if one of its allocations meets that condition (`OverlapsIffGivesAwayLive`,
  `EverOverlapsIff`). It takes a heap element that ends exactly where the block begins: an allocation
  leaves the layout if and only if the last element is such a one and the request is no larger than the
  block (`LayoutUnlessMistaken`). A run on a fresh pool gets there (`OverwriteIsReachable`). All other
  results about the allocator assume that the heap never returns memory that ends where the block begins.
* The assertion in `on_ping` can fail: there is a moment in a run at which two completions in a row
  would fail it, if and only if there is one at which two pings are in progress
  (`AssertionCanFailIffPingsOverlap`), which happens (`OverlapIsReachable`).
* The capacity check of `basic_dynamic_body` subtracts without a sign: a request larger than
  `max_size()` is never refused, only the part that fits is taken (`OutcomeMeaning`). Reading a body is
  therefore sure to end if and only if at most `max_size()` octets are left once the body is full;
  otherwise the parser may present one slice for ever (`EndsIff`).
* The crawler accounts for every host in every run, but a worker that gets no host never exits: its
  timer was never set, and after `cancel_one` the handler waits again, for ever (`UnarmedNeverEnds`).
  Without a failure of a timer, the report is sure to be printed if and only if there is one worker and
  at least one host (`AlwaysReportsIff`), and can be printed at all if and only if there are at least as
  many hosts as workers (`SometimesReportsIff`).

## Model

| member | source | states |
|---|---|---|
| SessionPool.AllocateMeaning | example/common/session_alloc.hpp:157-198 | where an allocation goes and all that it changes: an idle pool with a block smaller than the mark gets a block of that size; the element goes right behind the last one, or to the start of the block, if and only if the last one lies in the block and the request fits behind it, and otherwise to the heap; its `used`, and the mark |
| SessionPool.AllocateKeepsLayout | example/common/session_alloc.hpp:157-198 | from every laid-out pool an allocation leads to a laid-out pool: the elements of the block ascend, precede all heap elements and end at their `used`; nothing live overlaps; the new element has the size asked for and overlaps nothing live, and no live element changes |
| SessionPool.ReleaseKeepsLayout | example/common/session_alloc.hpp:204-219 | releasing any live element, in any order, keeps that layout |
| SessionPool.FitsBehindBlockElement | example/common/session_alloc.hpp:166-189 | a request is placed in the block only at its start or right behind an element of the block, and its `used` is then its end within the block |
| SessionPool.NewElementIsPlaced | example/common/session_alloc.hpp:168-197 | wherever a new element goes, it is placed correctly and comes after every live one in address order and in `used` |
| SessionTouching.PlacementTestMistakes | example/common/session_alloc.hpp:181-182 | behind a heap element the placement test passes if and only if that element ends exactly at the block and the request is no larger than the block |
| SessionTouching.PlacementTestMeaning | example/common/session_alloc.hpp:181-182 | with elements in any order the placement test passes if and only if the last one lies in the block or ends where it begins, and the request fits behind it |
| SessionTouching.LayoutUnlessMistaken | example/common/session_alloc.hpp:157-198 | on a heap that may return memory next to the block, an allocation keeps the layout if and only if it is not mistaken in this way |
| SessionTouching.OverlapsIffGivesAwayLive | example/common/session_alloc.hpp:157-198 | on a heap that may return memory next to the block, in a pool whose live elements are disjoint but in any order: an allocation overlaps a live element if and only if it is placed in the block and a live element of the block begins in the octets it is given |
| SessionTouching.EverOverlapsIff | example/common/session_alloc.hpp:157-219 | a whole run on such a heap overlaps something live if and only if one of its allocations meets that condition, and otherwise keeps the live elements disjoint, whatever mistaken placements it contains |
| SessionTouching.DisjointUnlessOverwrites | example/common/session_alloc.hpp:157-198 | special case of a laid-out pool: an allocation overlaps a live element if and only if it is mistaken and the first live element lies in the block and begins within the octets given away |
| SessionTouching.SafeUntilMistaken | example/common/session_alloc.hpp:157-219 | a whole run on such a heap without a mistaken allocation keeps the layout, not only disjointness, and never overlaps anything live |
| SessionTouching.OverwriteIsReachable | example/common/session_alloc.hpp:157-219 | a run of four calls on a fresh pool after which the next allocation overwrites a live element, wherever the heap would have put it |
| SessionTraces.RunKeepsLayout | example/common/session_alloc.hpp:157-219 | the layout holds after every run, the number of live elements is that of the trace, and the mark never falls |
| SessionTraces.StepKeepsVerdicts | example/common/session_alloc.hpp:157-219 | the address test on a new element agrees with its placement, and its verdict on any element cannot change while anything is live |
| SessionTraces.ReleaseTestIsExact | example/common/session_alloc.hpp:157-219 | after every run the address test of `dealloc` says of each live element whether the block served its allocation |
| SessionTraces.HighWaterIsPeak | example/common/session_alloc.hpp:166-197 | once there is a block, a run raises the mark to exactly the largest `used` of the trace, a number that depends on no address |
| SessionTraces.RoomyRun | example/common/session_alloc.hpp:166-189 | a run that does not raise the mark of a pool whose block has that size never overflows to the heap |
| SessionTraces.FullRun | example/common/session_alloc.hpp:159-165 | such a run never replaces a block of the size of the mark |
| SessionTraces.TakeFillsBlock | example/common/session_alloc.hpp:159-165 | a smaller block is replaced once, and then has the size of the mark |
| SessionTraces.ReplayLearns | example/common/session_alloc.hpp:157-198 | every replay of a balanced trace advances what an idle pool has learned of it: a block, a sufficient mark, a block of that size |
| SessionTraces.Convergence | example/common/session_alloc.hpp:157-219 | for every balanced trace and all heap addresses: no overflow and at most one new block in the third replay, no request to the heap and an unchanged pool from the fourth on |
| SessionTraces.SecondReplayMayOverflow | example/common/session_alloc.hpp:157-198 | two allocations of one octet still overflow in the second replay on a fresh pool |
| SessionTraces.FootprintIsBounded | example/common/session_alloc.hpp:173-186 | headers and sizes of all live elements add up to at most the last `used`, which is at most the mark |
| SessionTraces.PeakCoversFootprint | example/common/session_alloc.hpp:173-186 | the largest `used` of a trace is at least its peak footprint, and equal to it when frees are last-in-first-out |
| SessionTraces.MarkLearnsPeakFootprint | example/common/session_alloc.hpp:186-197 | after a trace the mark covers the peak footprint, and under last-in-first-out frees is exactly the larger of the old mark and that peak |
| SessionAlloc.PoolT.constructor | example/common/session_alloc.hpp:82-88 | a new pool is empty and owns nothing of the heap |
| SessionAlloc.PoolT.Prepare | example/common/session_alloc.hpp:159-165 | an idle pool whose block is smaller than the mark frees it and takes one of the size of the mark; nobody else's heap blocks are touched |
| SessionAlloc.PoolT.PlaceInBlock | example/common/session_alloc.hpp:166-189 | places a request behind the last element exactly when it fits, asking the heap for nothing |
| SessionAlloc.PoolT.PlaceOnHeap | example/common/session_alloc.hpp:190-197 | serves a request that does not fit with one new heap block, disjoint from everything live |
| SessionAlloc.PoolT.Alloc | example/common/session_alloc.hpp:157-198 | the allocator object makes exactly the step of the value model, keeps its invariant and all foreign heap blocks; the address it returns, its block and the number of heap requests are stated on its fields: in the block whenever there is room behind the last element of the block, on the heap otherwise |
| SessionAlloc.PoolT.Dealloc | example/common/session_alloc.hpp:204-219 | removes exactly the element at the given address, and whenever the address test returns memory to the heap, that address is one the heap had returned to this pool |
| SessionAlloc.PoolT.Destroy | example/common/session_alloc.hpp:124-129 | leaves the heap as if the pool had never existed |
| SessionReplay.Perform | example/common/session_alloc.hpp:157-219 | carrying out a trace on the object is a run of the value model, with one heap request for each overflow and each new block |
| SessionReplay.Replay | example/common/session_alloc.hpp:157-219 | replaying a trace on the object asks the heap at most once in the third replay and never after it |
| HttpPipeline.StepKeepsInv | example/advanced/server/advanced_server.cpp:488-698 | every event keeps flow, order and clock; and the assertion that the queue is not empty when a write completes holds, that write being the front item's |
| HttpPipeline.Pipeline | example/advanced/server/advanced_server.cpp:488-698 | in every reachable state at most one read, one write and eight queued responses; while neither direction has ended a read is in progress iff there is room, a write iff the queue is not empty, hence always one of them |
| HttpPipeline.ResponsesInOrder | example/advanced/server/advanced_server.cpp:497-698 | the writes begun are a prefix of the responses submitted and the i-th of them answers the i-th request, as section 6.3.2 of RFC 7230 asks for |
| HttpPipeline.RunOnlyAppends | example/advanced/server/advanced_server.cpp:497-698 | in any continuation what was begun stays begun in that order, nothing is begun once writing has ended and nothing submitted once reading has |
| HttpPipeline.Silence | example/advanced/server/advanced_server.cpp:675-698 | after a failed write, or the write of a response that closes the connection, no write is ever begun in any continuation of the run |
| HttpDrain.QueueDrains | example/advanced/server/advanced_server.cpp:497-698 | in every reachable state in which writing goes on, successful writes alone send all that was submitted, or all up to the first response after which the connection closes |
| HttpPipeline.ClosesExactlyWhenOverdue | example/advanced/server/advanced_server.cpp:617-642 | the timer closes the socket exactly when a handler that did not fail is delivered 15 seconds or more after the latest `do_read`, stale handlers included |
| HttpPipeline.ReadsMoveDeadline | example/advanced/server/advanced_server.cpp:597-698 | every step that begins a read, a request that leaves room or a written response that makes room in a full queue, moves the deadline to 15 seconds from now, and no other step moves it |
| HttpStory.SessionMatchesStory | example/advanced/server/advanced_server.cpp:488-698 | in every run the whole state is the one told by the events alone: each request is answered in order and with its own wish to close, and what was written, what goes on, the limit of eight and the deadline |
| HttpStory.ClosesExactlyWhenIdle | example/advanced/server/advanced_server.cpp:617-642 | the timer closes the socket exactly when a handler that did not fail is delivered 15 seconds or more after the last read began, as told by the events |
| HttpPipeline.OverdueSessionCanClose | example/advanced/server/advanced_server.cpp:577-642 | exactly one wait is pending until the timer ends, and once the deadline has passed it can close the session in at most two steps |
| HttpSession.Session.Run | example/advanced/server/advanced_server.cpp:577-595 | starts the timer and the first read |
| HttpSession.Session.Send | example/advanced/server/advanced_server.cpp:508-550 | queues a response and begins its write if it is the only one |
| HttpSession.Session.PopFront | example/advanced/server/advanced_server.cpp:495-506 | removes the front response, begins the next write, and says whether the queue was full |
| HttpSession.Session.TimerHandler | example/advanced/server/advanced_server.cpp:617-642 | the object makes the step of the value model and keeps the invariant |
| HttpSession.Session.OnRead | example/advanced/server/advanced_server.cpp:644-673 | the same for a completed read: abort, end of stream, error, upgrade or a request |
| HttpSession.Session.OnWrite | example/advanced/server/advanced_server.cpp:675-698 | the same for a completed write |
| HttpService.Drive | example/advanced/server/advanced_server.cpp:488-698 | the session object, through any possible sequence of events: what it has begun stays begun, its writes answer the requests in order, none begins once writing has ended, and the queue stays bounded |
| HttpService.Flush | example/advanced/server/advanced_server.cpp:675-698 | completing the writes of the session object until there is none leaves it drained |
| HttpService.Serve | example/advanced/server/advanced_server.cpp:577-698 | a new session object, run through any possible sequence of events, ends in the state of the value model, which is the one that the events tell, and has written in the order of the requests |
| KeepAlive.StepKeepsInv | example/advanced/server/advanced_server.cpp:286-384 | every event keeps the deadline of the current window, the single pending wait and the count of pings |
| KeepAlive.DropsOnlyTheSilent | example/advanced/server/advanced_server.cpp:288-348 | the exact events that drop the connection; an open session was silent for 30 seconds by then, any other for 15 |
| KeepAlive.PingsOnlyTheQuiet | example/advanced/server/advanced_server.cpp:293-314 | a ping begins exactly when a timer handler finds an open session without activity for 15 seconds and not pinged yet, stale handlers included |
| KeepAliveStory.SessionMatchesStory | example/advanced/server/advanced_server.cpp:254-373 | in every run the whole state is the one told by the events alone: when the peer was last heard and the deadline last moved, what became of the ping, and what goes on |
| KeepAliveStory.DropsExactlyWhenIdle | example/advanced/server/advanced_server.cpp:288-348 | the connection is dropped exactly when a handler is delivered 15 seconds after the last activity or ping, unless that begins a ping; by then the time that passed since the last activity, summed up from the events, is 30 seconds for an open session and 15 for any |
| KeepAliveStory.PingsExactlyWhenQuiet | example/advanced/server/advanced_server.cpp:293-348 | a ping begins exactly when such a handler is delivered to an open session not pinged since the last activity, 15 seconds or more ago by the events |
| KeepAlive.AtMostOnePing | example/advanced/server/advanced_server.cpp:293-348 | in any stretch of a run without activity at most one ping begins |
| KeepAlive.OverdueSessionActs | example/advanced/server/advanced_server.cpp:288-337 | once the deadline has passed, at most two steps of the one pending wait begin the ping or drop the connection |
| KeepAlive.SilentPeerIsDropped | example/advanced/server/advanced_server.cpp:288-337 | from every reachable state whose timer goes on, some six steps at most, within 30 seconds and without activity, drop the connection |
| KeepAlive.LateHandlersAct | example/advanced/server/advanced_server.cpp:288-337 | in every run in which no wait fails, the timer handlers delivered after the deadline are exactly as many as the pings begun and connections dropped |
| KeepAlive.SecondLateHandlerDrops | example/advanced/server/advanced_server.cpp:288-337 | in every stretch without activity at most two handlers are delivered after the deadline, and the second, or the first if a ping is out or the session is not open, has dropped the connection |
| PingOverlap.AssertionCanFailIffPingsOverlap | example/advanced/server/advanced_server.cpp:293-373 | there is a moment of a run at which two completions in a row fail the assertion in `on_ping`, if and only if there is one at which two pings are in progress |
| PingOverlap.AssertionHoldsWithoutOverlap | example/advanced/server/advanced_server.cpp:350-373 | the assertion in `on_ping` fails in no reachable state before which two pings were never in progress at once |
| PingOverlap.OverlapFailsAssertion | example/advanced/server/advanced_server.cpp:361-372 | right after a ping begins, two completions in a row fail the assertion if and only if another ping was in progress |
| PingOverlap.OverlapIsReachable | example/advanced/server/advanced_server.cpp:293-372 | a concrete run from `do_accept` in which the assertion fails |
| WebsocketSession.Session.DoAccept | example/advanced/server/advanced_server.cpp:240-270 | starts the timer with a deadline for the handshake |
| WebsocketSession.Session.TimerHandler | example/advanced/server/advanced_server.cpp:286-337 | the object makes the step of the value model and keeps the invariant |
| WebsocketSession.Session.Activity | example/advanced/server/advanced_server.cpp:339-348 | is the step of the value model: the ping state is reset and the deadline is 15 seconds from now |
| WebsocketSession.Session.OnPing | example/advanced/server/advanced_server.cpp:350-373 | the same for a completed ping |
| WebsocketService.Deliver | example/advanced/server/advanced_server.cpp:286-373 | whatever event the session object handles, it drops the connection only after 15 seconds of silence, or 30 if it was open, and begins a ping only after 15 seconds and not twice |
| WebsocketService.Drive | example/advanced/server/advanced_server.cpp:286-373 | through any possible sequence of events without activity the session object begins at most one ping |
| WebsocketService.Serve | example/advanced/server/advanced_server.cpp:240-384 | a new session object, run through any possible sequence of events, ends in the state that the events tell |
| CrawlRuns.Conservation | example/http/client/crawl/http_crawl.cpp:63-383 | in every interleaving outcomes counted, outcomes posted and hosts held add up to the hosts claimed; each claimed host is in exactly one of these places; `success` is the sum of the status codes; `count_` is the number of closures run |
| CrawlRuns.CountersAttestOperations | example/http/client/crawl/http_crawl.cpp:257-383 | the counters, weighted by how far an outcome implies its host got, account for exactly the operations that succeeded in the run |
| CrawlOutcomes.CountersByKind | example/http/client/crawl/http_crawl.cpp:63-383 | in every interleaving, for every kind of outcome and each status code by itself, the counter and the posted closures that report it add up to the events that had it; the same for timer failures |
| CrawlOutcomes.ReportCountsOutcomes | example/http/client/crawl/http_crawl.cpp:65-113 | the printed report says how often each outcome, and each status code, occurred |
| CrawlRuns.Termination | example/http/client/crawl/http_crawl.cpp:181-383 | no run has more than six steps for a host, four for a worker and one for the report |
| CrawlRuns.DrainedIsComplete | example/http/client/crawl/http_crawl.cpp:84-235 | when all workers have stopped and the strand is drained, the index is hosts plus workers and every host has exactly one outcome |
| CrawlRuns.ReportIsComplete | example/http/client/crawl/http_crawl.cpp:455-471 | whenever the report is printed it is complete in this sense |
| CrawlRuns.ReportedIffEveryWorkerGotAHost | example/http/client/crawl/http_crawl.cpp:193-471 | every run that can go no further is complete, and the report was printed if and only if every worker got a host |
| CrawlReports.CanFinish | example/http/client/crawl/http_crawl.cpp:181-383 | every run can be continued, without a failure of a timer, to one that can go no further |
| CrawlReports.AlwaysReportsIff | example/http/client/crawl/http_crawl.cpp:84-471 | every run that goes on as long as it can prints the report, if and only if there is one worker and at least one host |
| CrawlReports.SometimesReportsIff | example/http/client/crawl/http_crawl.cpp:84-471 | some run prints the report, if and only if there are at least as many hosts as workers |
| CrawlTimer.UnarmedNeverEnds | example/http/client/crawl/http_crawl.cpp:193-235 | a timer whose deadline was never set keeps exactly one wait pending through any number of cancellations and any time |
| CrawlTimer.ArmedCanEnd | example/http/client/crawl/http_crawl.cpp:206-222 | one whose deadline was set ends with no more than time and its own handler |
| CrawlTimer.CanEndIffArmed | example/http/client/crawl/http_crawl.cpp:193-235 | without a failure a timer can end if and only if its deadline was ever set |
| CrawlWaits.StepProjects | example/http/client/crawl/http_crawl.cpp:193-255 | of all that can happen to the timer of a worker, a failure is `TimerFails`, its end is `TimerLapses` and the rest is nothing to the crawl; the two flags of the worker go on to show the timer |
| CrawlWaits.DetailRefinesCrawl | example/http/client/crawl/http_crawl.cpp:84-383 | every run of a crawl with the timer of a worker in full detail is a run of the crawl with the same effect, in which the wait can lapse exactly when the timer can end by itself |
| CrawlWaits.EndsFiveSecondsAfterHost | example/http/client/crawl/http_crawl.cpp:206-255 | the timer of a worker ends by itself exactly when its handler is delivered five seconds or more after the worker last got a host, as told by the events |
| CrawlWorker.CrawlReport.GetHost | example/http/client/crawl/http_crawl.cpp:84-92 | hands out every index once |
| CrawlWorker.CrawlReport.RunNext | example/http/client/crawl/http_crawl.cpp:65-113 | running a closure is the drain step of the value model, and counts its own outcome, with its own status code, and no other |
| CrawlWorker.WorkerThread.DoGetHost | example/http/client/crawl/http_crawl.cpp:224-255 | is the claim step of the value model, this being any one of any number of workers |
| CrawlWorker.WorkerThread.Run | example/http/client/crawl/http_crawl.cpp:181-190 | is a start followed by a claim, among any workers |
| CrawlWorker.WorkerThread.OnResolve | example/http/client/crawl/http_crawl.cpp:257-286 | is a success, or a failure followed by a claim, among any workers |
| CrawlWorker.WorkerThread.OnConnect | example/http/client/crawl/http_crawl.cpp:288-315 | is a success, or a failure followed by a claim, among any workers |
| CrawlWorker.WorkerThread.OnWrite | example/http/client/crawl/http_crawl.cpp:317-349 | is a success, or a failure followed by a claim, among any workers |
| CrawlWorker.WorkerThread.OnRead | example/http/client/crawl/http_crawl.cpp:351-383 | is a success or a failure, followed by a claim, among any workers |
| CrawlWorker.WorkerThread.OnTimer | example/http/client/crawl/http_crawl.cpp:193-222 | is the failure or the end of a timer, or waits again and changes nothing |
| CrawlProgram.Crawler.Perform | example/http/client/crawl/http_crawl.cpp:65-383 | every call of a handler on the objects of a crawler is a run of the value model |
| CrawlProgram.Crawler.Crawl | example/http/client/crawl/http_crawl.cpp:65-383 | through any sequence of handlers the objects of a crawler stay balanced, and every counter is right but for closures still posted; once all workers have stopped and the strand is drained the counters sum to the number of hosts |
| BufferBody.Put | include/beast/http/buffer_body.hpp:118-141 | copies exactly what there is room for, leaves all other memory alone, moves the buffer past it, and reports need_buffer iff something is left over |
| BufferBody.Writer.Get | include/beast/http/buffer_body.hpp:180-209 | yields the buffer once and then, depending on `more`, need_buffer or the end |
| BufferBody.Read | include/beast/http/impl/basic_parser.ipp:614-633 | whatever the slicing, the buffer gains exactly the next octets of the body; need_buffer means that the buffer is full and the message is not complete |
| BufferBody.Write | include/beast/http/impl/serializer.ipp:120-139 | emits the buffer exactly once, and of a failed write a prefix |
| BufferBody.Relay | example/doc/http_examples.hpp:517-556 | without an error the octets emitted are the body, each once and in order, in a number of rounds that follows from its length alone because every unfinished round moves 2048 octets, and the serializer is done unless the message was complete with its header; with an error, which only the input or the output can cause, they are a prefix of it |
| BufferBody.ReadAndPrint | example/doc/http_examples.hpp:1089-1100 | the same for printing, with 512 octets a round |
| FileBody.Writer.Get | include/beast/http/basic_file_body.hpp:329-380 | asks the file for 4096 octets or what remains; the next octets of the file, at least one, `more` iff some remain, which there are strictly fewer of every time; an error only if the file reported one |
| FileBody.PutToFile | include/beast/http/basic_file_body.hpp:481-510 | appends the buffers to the file in order, and on an error, reported exactly when the file does, the prefix whose length it returns |
| FileBody.StringBody.Put | include/beast/http/string_body.hpp:113-140 | appends exactly the flattened buffers, or nothing with buffer_overflow, which is reported exactly when the resize of the string throws |
| FileBody.CopyFileToString | include/beast/http/basic_file_body.hpp:329-380 | whatever short reads the file returns, the string gains exactly the first `file_size_` octets of the file; with an error, which only the file or a resize of the string can cause, a prefix of them |
| DynamicBody.OutcomeMeaning | include/beast/http/basic_dynamic_body.hpp:91-113 | the exact meaning of the wrapping check: refused iff at most `max_size()` octets do not fit, cut without an error iff more than `max_size()` are offered, never beyond the bound |
| DynamicBody.StallsExactlyWhenFull | include/beast/http/basic_dynamic_body.hpp:91-113 | when a non-empty put takes nothing and reports nothing |
| DynamicBody.DynamicBuffer.Put | include/beast/http/basic_dynamic_body.hpp:84-114 | appends exactly the prefix whose length it returns, which is what `OutcomeMeaning` describes |
| DynamicBody.PutsAreBounded | include/beast/http/basic_dynamic_body.hpp:84-114 | after any sequence of puts the body is what they took, in order, within `max_size()`; as long as everything fits together they take it all |
| DynamicReading.EndsByRoom | include/beast/http/impl/basic_parser.ipp:614-633 | with octets that were not taken presented again, a reading that has ended is complete if the body has room for all of it and a buffer_overflow if not, whatever the slices; and none is lost on the way |
| DynamicReading.EndsIff | include/beast/http/basic_dynamic_body.hpp:91-113 | every reading ends, however it is sliced, if and only if at most `max_size()` octets are left when the body is full |
| DynamicReading.Read | include/beast/http/impl/basic_parser.ipp:614-633 | reading slice by slice appends exactly the octets of the message up to the position reached, and ends as described |
| ChunkPrinter.Printer.OnHeader | example/doc/http_examples.hpp:1144-1165 | resets the chunk, or reports an error of the extensions, or else body_limit for a size beyond size_t |
| ChunkPrinter.Printer.OnBody | example/doc/http_examples.hpp:1173-1190 | appends the piece, and ends the read exactly at the last piece of a chunk |
| ChunkPrinter.Printer.Read | include/beast/http/impl/basic_parser.ipp:791-805 | returns end_of_chunk with exactly one whole chunk collected, however it was sliced |
| ChunkPrinter.Printer.PrintChunks | example/doc/http_examples.hpp:1193-1217 | prints every chunk (section 4.1 of RFC 7230) once, whole and in order, each with the size given to the header callback; with an error a prefix of them, and the error is one of the input or body_limit at a chunk that is too large |
| NameOrder.ToLowerChangesOnlyCapitals | include/beast/core/string.hpp:30-36 | the unsigned range test changes exactly the octets from 'A' to 'Z', negative chars included |
| NameOrder.IEquals | include/beast/core/string.hpp:38-69 | the fast and the slow loop together decide equality of the lower-case strings |
| NameOrder.ILessMeaning | include/beast/core/string.hpp:94-111 | `iless` holds exactly if the first octet that differs in lower case is the smaller one, or the left string ends first |
| NameOrder.ILessIsTotal | include/beast/core/string.hpp:94-111 | exactly one of less, equal in lower case, and greater |
| NameOrder.ILessIsTransitive | include/beast/core/string.hpp:94-111 | `iless` is transitive |
| NameOrder.KeyCompareIsStrictWeakOrder | include/beast/http/fields.hpp:120-162 | a strict weak order on fields whose incomparable names are those equal in lower case |
| NameOrder.KeyCompareMeaning | include/beast/http/fields.hpp:120-162 | the shorter name comes first, and of equally long ones the one that is smaller at the first difference in lower case |
| PathMapping.PathCat | example/advanced/server/advanced_server.cpp:78-101 | one final separator of the base is dropped before the path is appended; an empty base is ignored |
| PathMapping.HandleRequest | example/advanced/server/advanced_server.cpp:155-208 | one response to every request, of the kind that method, target and file system determine; a file is opened only for a legal target |
| PathMapping.StaysUnderRoot | example/advanced/server/advanced_server.cpp:78-169 | for a non-empty document root the segments of the opened path are those of the root, then those of the target with index.html in place of an empty last one; resolved lexically, no part of it leaves the root |
| PathMapping.WithoutRoot | example/advanced/server/advanced_server.cpp:78-101 | with an empty document root the segments are those of the target alone |

## Left out

- SessionAlloc.PoolT.Alloc: does not model the wrap-around of std::size_t; requests and their running totals are taken to stay below the largest value.
- SessionPool.AllocateKeepsLayout: does not model alignment, nor an exception from operator new.
- PathMapping.StaysUnderRoot: is lexical; symbolic links are a matter of the file system, and the branch for MSVC with its other separator is not modelled.
- HttpPipeline.ResponsesInOrder: says nothing about the delivery of responses that are still queued when the stream ends or is upgraded, since `on_read` then closes or moves the socket.
- FileBody.Writer.Get: takes the file to have at least as many octets as when it was opened; the source asserts the same.
- Reference counting of the allocator (`addref`, `release`, the converting copy): the converting copy takes no reference that its destructor gives back, so no balance can be claimed.
- Sockets, TLS, name resolution, real clocks, files, printing and logging: nondeterministic events and abstract octet sources stand for them. In particular `do_close` only ends a direction of the session, and a timer that closes a socket only makes later completions arbitrary.
- The echo of websocket messages and its buffer, the listener, `mime_type`, and the header fields of responses.
- In `Crawl` the delivery of a cancelled wait is not a step, because it changes nothing that is kept there; `CrawlTimer` models it in full, and `CrawlWaits` links the two.
- Header parsing, chunk framing and the websocket frames: the parser is any slicer of the body, the serializer the loop over `get`.
- The fields container itself, of which only the order is modelled; the flat, static and multi buffers; deflate; the other examples, which are simpler relatives of the modelled ones.
