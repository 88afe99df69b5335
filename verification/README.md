# A model of the tinyWS servers in Dafny

This project models the newer reactor server, `mutlithread/multiThread` (event loops, channels,
connections, timers, an HTTP server on top, and its thread pool and number formatting), and two
pieces of the proactor server `web-5.11-pressure` (the sorted timer list and the semaphore
thread pool), and proves what they promise their users.

`dafny verify dfyconfig.toml` checks everything.

## How it is built

Objects that the source changes in place are classes (`Buffer`, `TimerQueue`, `SortedTimerList`,
`HttpContext`, `HttpRequest`, `HttpResponse`, `HttpServer`, `TcpConnection`, `Channel`, `Epoll`,
`Server`, `Loop`, two `Shared`, `FixedBuffer`). A class has a `View`, `Value` or `Contents`
function, and each method is tied to a function on that value, or says its whole effect. What
has to hold of every run is proved about the functions. What several threads do together is a
state and its steps, and the theorems hold for every interleaving; the sequential code between
two points of interference is one step.

| Files | Content |
|---|---|
| `TcpServer`, `TcpServerSafety` | accept loop and IO loops, and the life of each connection across them |
| `ConnectionTable`, `Descriptors` | `connectionMap_` with its names; sockets and their descriptors |
| `ConnectionRefinement` | the server together with the output side of all its connections |
| `ConnectionModel`, `TcpConnection`, `ConnectionState` | the output side of one connection |
| `Epoll`, `ChannelStatus` | channels, epoll bookkeeping and the kernel's interest set |
| `EventLoop`, `EventLoopObject` | the functor queue, the wakeup descriptor and the quit flag |
| `TimerModel`, `TimerRuns`, `TimerQueue` | the two ordered timer sets, batches of callbacks, the timer descriptor |
| `SortTimerList` | the hand-linked list on the heap |
| `Bytes`, `Buffer` | byte strings and the growing buffer |
| `HttpRequest`, `HttpContext`, `HttpStreams` | the incremental parser and what it accepts |
| `HttpResponse`, `HttpRoundTrip` | the printer, read back by the parser |
| `HttpServerModel`, `HttpServer` | from the bytes a connection receives to the bytes it writes |
| `ThreadPool`, `ThreadPoolObject`, `SemaphorePool`, `SemaphorePoolObject` | the two pools |
| `Decimal`, `LogStream` | canonical numerals and integer formatting |
| `Options` | a value that may be missing |

## Where the code and what is said about it differ

The model follows the code.

- A message sent while output is pending is dropped as a whole
  (`mutlithread/multiThread/net/TcpConnection.cpp:258-288`): `ConnectionModel.AcceptedExactly`
  says exactly when, `ConnectionModel.SecondMessageLost` is an example. The comment in
  `mutlithread/multiThread/http/HttpServer.cpp:75-84`, that an accepted answer is written before
  the connection is closed, holds: `ConnectionModel.HalfCloseOnceAndLast` and `Drains`.
- `getExpired` speaks of the largest possible pair and searches with a null pointer, the
  smallest one. A timer due exactly at `now` stays, and the assert after the search fails:
  `TimerRuns.SentryAssert` (if and only if) and `TimerRuns.SentryFails`.
- A cancel from another thread is queued with a weak pointer, and the assert that the timer still
  exists fails if it has died meanwhile: `TimerRuns.QueuedCancelAssert` (if and only if) and
  `TimerRuns.QueuedCancelFails`.
- `reset` re-arms the descriptor only when the earliest timer has not expired meanwhile. A
  periodic timer whose batch outlasts its period stays queued with nothing armed:
  `TimerRuns.CoveredIffValid` (if and only if) and `TimerRuns.StuckTimer`.
- `quit` before `loop` is forgotten, since `loop` clears the flag: a request is honoured if and
  only if it is made while `loop` is running (`EventLoop.QuitHonouredExactly`), and
  `EventLoop.EarlyQuitIsLost` is an example. What the loop's own thread queues before `loop` wakes
  nobody: `EventLoop.NoLostWakeup` (if and only if) and `EventLoop.EarlyPushSleeps`.
- The queue of the semaphore pool holds up to `max_requests + 1` requests:
  `SemaphorePool.FullQueue`. A failing `sem_wait` goes unnoticed and can send a
  worker to an empty queue: `SemaphorePool.EmptyExactly` (if and only if) and
  `SemaphorePool.FailedWait`.
- A request line that fails stays in the buffer, and parsing it again can make the assert of
  `setMethod` fail: `HttpServerModel.ReadyAgain` (if and only if) and `HttpServerModel.NotReadyAgain`.
- One call of `onMessage` answers at most one request. A second one that is already in the buffer
  waits for the next message: `HttpServerModel.LeftWaiting` (if and only if) and
  `HttpServerModel.TwoInOne`. An answer that comes due while an earlier one is still being written
  is lost: `HttpServerModel.AnsweredExactly` (if and only if). `HttpServerModel.Conversation` says
  exactly when a client gets all its answers.
- A content length of more than 13 digits is cut by the 32-byte buffer it is printed into:
  `HttpRoundTrip.ReadBackExactly` (if and only if).
- A hang-up without readable data, together with urgent data or a peer half-close, closes a
  connection twice: `TcpServerSafety.DoubleClose` (if and only if) and
  `TcpServerSafety.DoubleCloseHappens`.
- The header block ends at the first line without a colon, empty or not, where section 3 of
  RFC 7230 asks for an empty line; the grammar `HttpStreams.IsRequest` says what the code does.

## Assumptions

- `send` and `shutdown` are called on the loop that owns the connection. Events come only for
  subscribed bits, besides hang-ups and errors, and a hang-up without readable data never
  comes with urgent data or a peer half-close (`TcpServer.Benign`).
- The kernel does not give out the descriptor of a socket that is still open; that each channel
  of a connection has its own then follows (`Descriptors.OneChannelPerDescriptor`). `epoll_ctl`
  fails only for a wrong registration, and `write` never takes more than it is offered.
- Handling one event, or running one functor, is one step with respect to the other loops: all
  they share is the locked queues, and each handler pushes at most one functor to another loop.
- The loop chosen for a connection is arbitrary; round robin is one choice.
- Results of system calls (bytes written, clock values, ready descriptors, end of file) and the
  user's callbacks are parameters. A timer callback is any list of additions and
  cancellations; the HTTP callback is any function of the request and the fresh response.
- Live timers have different addresses; ties are broken by sequence number, so no proof needs it.
- Bytes are characters. Ids, sequence numbers and times are unbounded integers; formatted
  integers are those of 64 bits, signed or unsigned, and buffer integers have the stated width.

## Model

| member | source | states |
|---|---|---|
| `TcpServerSafety.Lifecycle` | mutlithread/multiThread/net/TcpServer.cpp:68-121 | in every interleaving no assert fails, and each connection goes through accepted, established, closed, erased, destroyed in this order, each at most once; it is in the map exactly until it is erased |
| `TcpServerSafety.NoDanglingChannel` | mutlithread/multiThread/net/Channel.cpp:29-36 | every channel an epoll holds or has delivered belongs to a connection somebody keeps alive; a connection nobody keeps meets the asserts of both destructors |
| `TcpServerSafety.QuietServer` | mutlithread/multiThread/net/TcpServer.cpp:101-121 | when no functor is left, every closed connection has been erased and destroyed, and every other one is open and registered |
| `TcpServerSafety.NothingStuck` | mutlithread/multiThread/net/EventLoop.cpp:92-99 | a loop can always handle its next event and run its next functor: both name a known connection |
| `TcpServerSafety.DoubleClose` | mutlithread/multiThread/net/Channel.cpp:139-181 | for any event mask, one dispatch breaks the assert of handleClose exactly for the excluded masks with an end of file |
| `TcpServerSafety.DoubleCloseHappens` | mutlithread/multiThread/net/Channel.cpp:139-181 | a run of a server with one loop after which such an event breaks the assert |
| `TcpServerSafety.EventActedOn` | mutlithread/multiThread/net/Channel.cpp:139-181 | every event delivered in a run is acted on, as read off the raw bits: a hang-up without data or an end of file closes, readable data is read and answered, a drained write ends the write interest; the other connections stay as they are |
| `TcpServerSafety.NoBitsNoChange` | mutlithread/multiThread/net/Channel.cpp:139-181 | a mask with none of the bits that are acted on changes nothing |
| `TcpServerSafety.StepInv` | mutlithread/multiThread/net/TcpConnection.cpp:129-247 | every step of every loop keeps: the state, the interest, the epoll status, the map and the one functor each connection waits for belong together |
| `ConnectionRefinement.EveryConnectionFollows` | mutlithread/multiThread/net/TcpConnection.cpp:129-300 | in every interleaving of the loops, with the output buffers of all connections in place, no assert fails, what happens to each connection is a run of the connection model that agrees with the server, and its output is conserved |
| `ConnectionRefinement.StepLinked` | mutlithread/multiThread/net/Channel.cpp:139-181 | each step of the whole, with any reads, sends and partial writes, is a step of the server model, or none, and a run of the connection model |
| `ConnectionRefinement.EventRecorded` | mutlithread/multiThread/net/Channel.cpp:139-181 | handling an event lengthens the record of its connection by exactly the operations its raw bits ask for, in the order of the handler |
| `ConnectionTable.NamesDistinct` | mutlithread/multiThread/net/TcpServer.cpp:70-73 | two connections of a server have the same name only if they are the same one |
| `Descriptors.OneChannelPerDescriptor` | mutlithread/multiThread/net/TcpServer.cpp:68-121 | in every interleaving, two channels that are registered or still to be registered have different descriptors, though closed ones are used again |
| `ConnectionTable.Server.NewConnection` | mutlithread/multiThread/net/TcpServer.cpp:68-99 | the map keyed by names, the next id and the queues follow the server model's step |
| `ConnectionTable.Server.RemoveConnection` | mutlithread/multiThread/net/TcpServer.cpp:101-106 | removes at once on the accept loop, and queues the removal otherwise |
| `ConnectionTable.Server.RemoveConnectionInLoop` | mutlithread/multiThread/net/TcpServer.cpp:108-121 | erases the one entry with the connection's name, one if and only if the connection was there, and queues its destruction |
| `ConnectionModel.OutputConserved` | mutlithread/multiThread/net/TcpConnection.cpp:201-289 | in every run, bytes written followed by the output buffer are the accepted messages in order; an open connection waits for writability exactly while the buffer is not empty |
| `ConnectionModel.SocketConserved` | mutlithread/multiThread/net/TcpConnection.cpp:201-289 | in every run, the bytes recorded as written are those the kernel took, as the results of write say: no byte is sent twice or skipped |
| `ConnectionModel.AnnouncedExactly` | mutlithread/multiThread/net/TcpConnection.cpp:201-300 | completion is announced exactly when a write takes the last byte due, and the half-close comes exactly when that write, or shutdown itself, finds nothing left on a connection to be shut down |
| `ConnectionModel.HalfCloseOnceAndLast` | mutlithread/multiThread/net/TcpConnection.cpp:295-300 | the half-close happens at most once, after every accepted byte is written, and nothing is accepted or written later |
| `ConnectionModel.HalfClosedExactly` | mutlithread/multiThread/net/TcpConnection.cpp:215-224 | a connection being shut down has been half-closed if and only if its buffer is empty |
| `ConnectionModel.WrittenInOrder` | mutlithread/multiThread/net/TcpConnection.cpp:205-218 | at every moment the written bytes are a prefix of the accepted ones, and all of them when completion is announced |
| `ConnectionModel.AcceptedExactly` | mutlithread/multiThread/net/TcpConnection.cpp:255-289 | a message is taken over if and only if the connection is connected and all earlier output is written; otherwise it is dropped whole |
| `ConnectionModel.SecondMessageLost` | mutlithread/multiThread/net/TcpConnection.cpp:258-258 | a run in which a message to an open connection is never written |
| `ConnectionModel.Drains` | mutlithread/multiThread/net/TcpConnection.cpp:201-234 | writable events that each take at least a byte write everything and complete a waiting shutdown |
| `ConnectionModel.AssertsHold` | mutlithread/multiThread/net/TcpConnection.cpp:236-247 | handleClose finds an open connection; the channel wants nothing at its removal if and only if the connection was not being shut down |
| `ConnectionModel.ApplyInv` | mutlithread/multiThread/net/TcpConnection.cpp:63-300 | every operation keeps the conservation of output, the lawfulness of the history and the agreement of state and interest |
| `TcpConnectionModule.Neighbour` | mutlithread/multiThread/net/TcpConnection.cpp:129-289 | an operation on one connection leaves every other connection of the loop valid |
| `TcpConnectionModule.TcpConnection.ConnectionEstablished` | mutlithread/multiThread/net/TcpConnection.cpp:129-140 | connected, with the kernel watching for input; the other descriptors of the loop are as before |
| `TcpConnectionModule.TcpConnection.Send` | mutlithread/multiThread/net/TcpConnection.cpp:63-73 | the object's effect is the model's; the kernel's interest set follows, and is otherwise as before |
| `TcpConnectionModule.TcpConnection.SendInLoop` | mutlithread/multiThread/net/TcpConnection.cpp:255-289 | the direct write, the buffered rest and the write interest, for every result of write |
| `TcpConnectionModule.TcpConnection.Shutdown` | mutlithread/multiThread/net/TcpConnection.cpp:81-86 | the object's effect is the model's |
| `TcpConnectionModule.TcpConnection.HandleWrite` | mutlithread/multiThread/net/TcpConnection.cpp:201-234 | the object's effect is the model's; write interest is given up with the last byte |
| `TcpConnectionModule.TcpConnection.HandleClose` | mutlithread/multiThread/net/TcpConnection.cpp:236-247 | disconnected, and the kernel watches the descriptor no longer |
| `TcpConnectionModule.TcpConnection.ConnectionDestroyed` | mutlithread/multiThread/net/TcpConnection.cpp:142-154 | the descriptor is in neither the epoll's nor the kernel's table, and all others are as before |
| `EpollModule.Epoll.UpdateChannel` | mutlithread/multiThread/net/Epoll.cpp:61-96 | its asserts hold, epoll_ctl succeeds, and status, map and kernel interest set agree afterwards for every channel |
| `EpollModule.Epoll.RemoveChannel` | mutlithread/multiThread/net/Epoll.cpp:98-108 | the channel is in neither table, all others are as before |
| `EpollModule.Epoll.Poll` | mutlithread/multiThread/net/Epoll.cpp:36-59 | every pointer delivered is the channel mapped to the ready descriptor, with the kernel's mask |
| `EpollModule.Channel.DisableWriting` | mutlithread/multiThread/net/Channel.cpp:99-102 | write interest ends, the rest of the mask and of the interest set stays |
| `EpollModule.Channel.Remove` | mutlithread/multiThread/net/Channel.cpp:125-129 | a channel without events leaves both tables |
| `EventLoop.FirstInFirstOut` | mutlithread/multiThread/net/EventLoop.cpp:129-133 | what has run, then the rest of the batch, then the queue is always everything pushed |
| `EventLoop.NoLostWakeup` | mutlithread/multiThread/net/EventLoop.cpp:143-175 | the loop sleeps on functors whose enqueuers have finished if and only if its own thread queued some outside loop since the last swap; it never sleeps on a request to quit made while it was running |
| `EventLoop.CounterExactly` | mutlithread/multiThread/net/EventLoop.cpp:168-217 | the eventfd holds the number of wakeups since it was last read, so a poll sleeps if and only if none has come since |
| `EventLoop.QuitHonouredExactly` | mutlithread/multiThread/net/EventLoop.cpp:82-117 | the next test of the flag ends the loop if and only if the request to quit was made while loop was running |
| `EventLoop.QuitEndsLoop` | mutlithread/multiThread/net/EventLoop.cpp:92-117 | after a request to quit made while it is running, loop begins no further poll before it is called again |
| `EventLoop.NeverSleepsOnWork` | mutlithread/multiThread/net/EventLoop.cpp:92-99 | no exception when the loop's thread queues only from callbacks and functors |
| `EventLoop.ServedInOnePass` | mutlithread/multiThread/net/EventLoop.cpp:219-234 | everything queued at the swap has run at the next test of quit, whatever is queued meanwhile |
| `EventLoop.EarlyPushSleeps` | mutlithread/multiThread/net/EventLoop.cpp:147-149 | a push before loop is not served when the loop goes to sleep |
| `EventLoop.EarlyQuitIsLost` | mutlithread/multiThread/net/EventLoop.cpp:87-88 | a quit before loop does not end it |
| `EventLoopObject.Loop.QueueInLoop` | mutlithread/multiThread/net/EventLoop.cpp:129-150 | the object's change is the protocol's push, followed by a wakeup exactly in doPendingFunctors |
| `EventLoopObject.Loop.DoPendingFunctors` | mutlithread/multiThread/net/EventLoop.cpp:219-234 | runs what was pending, in order and once; what the functors queue is left pending with a wakeup |
| `TimerModel.HandleReadInv` | mutlithread/multiThread/net/TimerQueue.cpp:146-208 | after any batch with any callbacks both sets hold the same timers, each under its current expiry |
| `TimerModel.AddInv` | mutlithread/multiThread/net/TimerQueue.cpp:93-117 | adding a timer keeps the two sets in agreement |
| `TimerModel.CancelInv` | mutlithread/multiThread/net/TimerQueue.cpp:101-144 | cancelling a timer keeps the two sets in agreement |
| `TimerModel.DueExactly` | mutlithread/multiThread/net/TimerQueue.cpp:162-187 | getExpired takes exactly the timers that expired before now, in order and without repetition |
| `TimerModel.SizesAgree` | mutlithread/multiThread/net/TimerQueue.cpp:163-163 | the assert that both sets have the same size |
| `TimerModel.ContainerAsserts` | mutlithread/multiThread/net/TimerQueue.cpp:119-144 | the asserts of insertion and cancellation: one pair more, or exactly one pair less |
| `TimerRuns.HandleReadLeaves` | mutlithread/multiThread/net/TimerQueue.cpp:146-208 | which timers a batch leaves, as an if and only if, and when each of them expires, whatever the callbacks add and cancel |
| `TimerRuns.RanOnceInOrder` | mutlithread/multiThread/net/TimerQueue.cpp:146-160 | a batch runs exactly the timers expired before now, each once, in the order of expiry |
| `TimerRuns.SentryAssert` | mutlithread/multiThread/net/TimerQueue.cpp:164-169 | the assert after lower_bound holds if and only if no queued timer expires exactly at now |
| `TimerRuns.SentryFails` | mutlithread/multiThread/net/TimerQueue.cpp:164-169 | a timer served in the microsecond it expires fails the assert |
| `TimerRuns.NeverAgain` | mutlithread/multiThread/net/TimerQueue.cpp:119-142 | a cancelled timer, also from its own or a sibling's callback, leaves both sets with that batch and runs in no later batch of any run |
| `TimerRuns.QueuedCancelAssert` | mutlithread/multiThread/net/TimerQueue.cpp:101-125 | whatever happens between the request and the execution of a queued cancel, its assert holds if and only if the timer survives it: it is periodic or has not run until something cancels it, that is a batch which is serving it, and no batch follows |
| `TimerRuns.QueuedCancelAlone` | mutlithread/multiThread/net/TimerQueue.cpp:101-125 | if nobody else cancels the timer, that is if and only if the timer is periodic or has not run since the request |
| `TimerRuns.CancelingExactly` | mutlithread/multiThread/net/TimerQueue.cpp:128-141 | after a batch cancelingTimers_ holds exactly the timers it has served and its callbacks have cancelled |
| `TimerRuns.QueuedCancelFails` | mutlithread/multiThread/net/TimerQueue.cpp:123-124 | a one-shot timer that runs first, and a timer that another cancel ends first, fail the assert |
| `TimerModel.DelayReachesDeadline` | mutlithread/multiThread/net/TimerQueue.cpp:48-74 | the timespec is proper and never zero, and reaches the deadline, at least 100 microseconds away |
| `TimerRuns.ArmedInTime` | mutlithread/multiThread/net/TimerQueue.cpp:110-117 | in runs where reset finds the earliest timer valid, the descriptor is armed no later than the earliest expiry or 100 microseconds after the last arming |
| `TimerRuns.CoveredIffValid` | mutlithread/multiThread/net/TimerQueue.cpp:199-206 | whatever is armed before and whatever the callbacks do, a batch leaves the descriptor armed in time if and only if reset finds the earliest timer valid, or what the callbacks left armed is early enough |
| `TimerRuns.UnarmedUnlessValid` | mutlithread/multiThread/net/TimerQueue.cpp:199-206 | after a firing, when the callbacks add no timer, nothing is armed unless reset finds the earliest timer valid |
| `TimerRuns.AddDeadline` | mutlithread/multiThread/net/TimerQueue.cpp:110-117 | an addition earlier than all queued timers arms for exactly its expiry, or 100 microseconds ahead if that is later; any other leaves the descriptor alone |
| `TimerRuns.ResetDeadline` | mutlithread/multiThread/net/TimerQueue.cpp:199-206 | after a batch the descriptor is armed for exactly the earliest expiry, or 100 microseconds ahead, if the earliest timer is valid, and is as the callbacks left it otherwise |
| `TimerRuns.ArmedExactly` | mutlithread/multiThread/net/TimerQueue.cpp:110-206 | in every run, each arming is for exactly the earliest expiry queued at that moment or 100 microseconds ahead, never sooner |
| `TimerRuns.StuckTimer` | mutlithread/multiThread/net/Timer.cpp:40-42 | a periodic timer that stays queued with nothing armed |
| `TimerQueue.Timer.Restart` | mutlithread/multiThread/net/Timer.cpp:40-56 | a periodic timer is valid exactly up to one interval after now, any other one at no time after the epoch |
| `TimerQueue.TimerQueue.Insert` | mutlithread/multiThread/net/TimerQueue.cpp:210-243 | the ordered insertion into both sets, and whether the timer is now the earliest |
| `TimerQueue.TimerQueue.AddTimer` | mutlithread/multiThread/net/TimerQueue.cpp:93-117 | the object's effect is the model's |
| `TimerQueue.TimerQueue.CancelInLoop` | mutlithread/multiThread/net/TimerQueue.cpp:119-144 | the object's effect is the model's |
| `TimerQueue.TimerQueue.GetExpired` | mutlithread/multiThread/net/TimerQueue.cpp:162-187 | returns the due prefix and removes it from both sets |
| `TimerQueue.TimerQueue.Reset` | mutlithread/multiThread/net/TimerQueue.cpp:189-208 | restarts the periodic timers not cancelled and re-arms |
| `TimerQueue.TimerQueue.ResetTimerfd` | mutlithread/multiThread/net/TimerQueue.cpp:48-74 | the timespec of howMuchTimeFromNow makes the descriptor fire at the later of the expiry and 100 microseconds from now, and never disarms it |
| `TimerQueue.TimerQueue.HandleRead` | mutlithread/multiThread/net/TimerQueue.cpp:146-160 | the object's effect is the model's, callbacks changing the queue during the batch |
| `SortTimerList.RunIsLive` | web-5.11-pressure/lst_timer.cpp:13-113 | after any operations the list holds exactly the live timers, by expiry and then by insertion |
| `SortTimerList.SortedTimerList.AddTimer` | web-5.11-pressure/lst_timer.cpp:13-27 | links the timer in behind those that expire no later; links, head and tail are right again, and the list still holds what its operations leave |
| `SortTimerList.SortedTimerList.AddAfterHead` | web-5.11-pressure/lst_timer.cpp:93-113 | the search and the relinking, also for the first timer, which is its own predecessor |
| `SortTimerList.SortedTimerList.DelTimer` | web-5.11-pressure/lst_timer.cpp:29-52 | takes out just the timer given, with every pointer it follows present, and the list still holds what its operations leave |
| `SortTimerList.SortedTimerList.Tick` | web-5.11-pressure/lst_timer.cpp:73-90 | closes exactly the timers that are due, in order, leaves the others, and the list still holds what its operations leave |
| `BufferModule.Buffer.Append` | mutlithread/multiThread/net/Buffer.cpp:133-137 | adds at the end of the byte queue, across growth and compaction |
| `BufferModule.Buffer.Retrieve` | mutlithread/multiThread/net/Buffer.cpp:80-87 | drops from the front of the byte queue |
| `BufferModule.Buffer.Prepend` | mutlithread/multiThread/net/Buffer.cpp:222-227 | adds in front of the byte queue |
| `BufferModule.Buffer.MakeSpace` | mutlithread/multiThread/net/Buffer.cpp:284-296 | keeps the contents and makes the room asked for; its assert holds when it compacts |
| `BufferModule.Buffer.EnsureWritableBytes` | mutlithread/multiThread/net/Buffer.cpp:157-162 | its assert: the room asked for is there, and the contents are as before |
| `BufferModule.Buffer.FindCRLF` | mutlithread/multiThread/net/Buffer.cpp:53-57 | the first CRLF of the readable bytes |
| `BufferModule.Buffer.AppendInt` | mutlithread/multiThread/net/Buffer.cpp:143-155 | adds the encoding of the integer at the end |
| `BufferModule.Buffer.ReadInt` | mutlithread/multiThread/net/Buffer.cpp:164-206 | reads back any integer of that width written in front, and removes it |
| `Bytes.IntRoundTrip` | mutlithread/multiThread/net/Buffer.cpp:143-155 | decoding what was encoded gives the integer |
| `Bytes.IntRoundTripBack` | mutlithread/multiThread/net/Buffer.cpp:185-206 | encoding what was decoded gives the bytes |
| `Bytes.MostSignificantFirst` | mutlithread/multiThread/net/Buffer.cpp:143-150 | network byte order: the most significant byte is written first |
| `HttpContextModule.HttpContext.ParseRequest` | mutlithread/multiThread/http/HttpContext.cpp:13-65 | the loop ends and computes the line-by-line parse of the buffer; failure and completion exclude each other |
| `HttpContextModule.HttpContext.ProcessLine` | mutlithread/multiThread/http/HttpContext.cpp:85-109 | method, path, query and version of a request line, with every way to fail |
| `HttpContextModule.HttpContext.Reset` | mutlithread/multiThread/http/HttpContext.cpp:71-75 | ready for a new request |
| `HttpRequestModule.HttpRequest.SetMethod` | mutlithread/multiThread/http/HttpRequest.cpp:16-64 | succeeds if and only if the word is the string that methodString gives for some valid method, and sets that method |
| `HttpRequestModule.MethodRoundTrip` | mutlithread/multiThread/http/HttpRequest.cpp:16-64 | a word is read as a valid method if and only if it is the string of that method |
| `HttpRequestModule.HttpRequest.AddHeader` | mutlithread/multiThread/http/HttpRequest.cpp:90-103 | the field before the colon maps to the trimmed rest of the line |
| `HttpRequestModule.TrimMeaning` | mutlithread/multiThread/http/HttpRequest.cpp:93-101 | trimming takes off white space only, and all of it |
| `HttpRequestModule.SpacesAre` | mutlithread/multiThread/http/HttpRequest.cpp:93-101 | white space is the six characters of the C locale |
| `HttpStreams.ChunksDoNotMatter` | mutlithread/multiThread/http/HttpContext.cpp:13-65 | first outcome, request and unread bytes do not depend on how the stream is cut into messages |
| `HttpStreams.ParseAppend` | mutlithread/multiThread/http/HttpContext.cpp:16-62 | parsing on from where a first part stopped is parsing the whole at once |
| `HttpStreams.RequestAccepted` | mutlithread/multiThread/http/HttpContext.cpp:17-58 | every well-formed request is completed with the fields its lines say, leaving what follows |
| `HttpStreams.RequestNecessary` | mutlithread/multiThread/http/HttpContext.cpp:85-109 | what is completed starts with a well-formed request |
| `HttpStreams.AfterFailure` | mutlithread/multiThread/http/HttpContext.cpp:32-35 | a failed line stays in the buffer; the assert of setMethod fails at the next call if and only if the line starts with a known method and a space |
| `HttpResponseModule.HttpResponse.AddHeader` | mutlithread/multiThread/http/HttpResponse.cpp:35-37 | the map is updated at the key and its keys stay in order |
| `HttpResponseModule.LexMeaning` | mutlithread/multiThread/http/HttpResponse.cpp:62-67 | headers are printed in dictionary order of their keys: the smaller one ends first or has the smaller character where they first differ |
| `HttpResponseModule.HttpResponse.AppendToBuffer` | mutlithread/multiThread/http/HttpResponse.cpp:43-71 | appends the status line, the built-in fields, the headers in order, an empty line and the body |
| `HttpRoundTrip.HeadersReadBack` | mutlithread/multiThread/http/HttpResponse.cpp:52-70 | reading the printed block gives the built-in fields overlaid by the headers, and leaves the body |
| `HttpRoundTrip.ReadBackExactly` | mutlithread/multiThread/http/HttpResponse.cpp:57-59 | the round trip holds if and only if the length has at most 13 digits, the connection is closed, or the headers replace both built-in fields |
| `HttpRoundTrip.StatusReadBack` | mutlithread/multiThread/http/HttpResponse.cpp:43-50 | for every 32-bit code, the status line reads back as the code, the message and what follows, if and only if the message holds no CRLF |
| `HttpRoundTrip.ResponseReadBack` | mutlithread/multiThread/http/HttpResponse.cpp:43-71 | a whole printed response reads back as its code, message, headers and body |
| `HttpServerModel.OneAnswer` | mutlithread/multiThread/http/HttpServer.cpp:43-60 | one message brings about at most one answer, and leaves a state from which the next call ends |
| `HttpServerModel.HandledInOrder` | mutlithread/multiThread/http/HttpServer.cpp:43-60 | however a stream is cut into messages and whatever is written in between: the requests handled, followed by those left in the buffer, are the requests of the stream, each once and in order, up to a refused line |
| `HttpServerModel.CutsDoNotMatter` | mutlithread/multiThread/http/HttpServer.cpp:43-60 | two ways of receiving the same bytes have handled the same requests if neither has left any over |
| `HttpServerModel.LeftWaiting` | mutlithread/multiThread/http/HttpServer.cpp:54-59 | after a call that completes a request, another complete one waits unanswered if and only if the rest of the buffer starts with one |
| `HttpServerModel.TwoInOne` | mutlithread/multiThread/http/HttpServer.cpp:43-60 | on an idle connection that stays open, with a socket that takes every answer at once, two requests get one printed answer when they arrive together and two when they arrive apart |
| `HttpServerModel.ReadyAgain` | mutlithread/multiThread/http/HttpRequest.cpp:16-17 | the assert of setMethod holds at the next message if and only if no refused line with a known method is left |
| `HttpServerModel.NotReadyAgain` | mutlithread/multiThread/http/HttpRequest.cpp:16-17 | a request line that leaves the assert to fail at the next message |
| `HttpServerModel.AnsweredExactly` | mutlithread/multiThread/http/HttpServer.cpp:62-88 | the answer to a completed request is taken over if and only if the connection is connected and has written everything; in any case the request is consumed and the context starts over |
| `HttpServerModel.AnswersTaken` | mutlithread/multiThread/http/HttpServer.cpp:62-88 | over a whole run, the answers to the requests handled are all taken over if each comes due when the connection can take it, and strictly less is otherwise |
| `HttpServerModel.EndToEnd` | mutlithread/multiThread/http/HttpServer.cpp:43-88 | a well-formed request, however it arrives, is answered by the callback's printed response, in what is written and what is left to write; a closing response is followed by the half-close exactly when all is written |
| `HttpServerModel.ClosesExactly` | mutlithread/multiThread/http/HttpServer.cpp:62-88 | with a callback that leaves it to the server, the connection is closed behind the answer if and only if the request has Connection: close |
| `HttpServerModel.ClientReads` | mutlithread/multiThread/http/HttpServer.cpp:43-88 | what is written and left to write for a well-formed request reads back as the code, message, headers and body the callback set, over the built-in fields |
| `HttpServerModel.RefusedExactly` | mutlithread/multiThread/http/HttpServer.cpp:46-50 | a refused line is answered by a text that reads as 400 without headers or body, if the connection can take it, and the connection is shut down |
| `HttpServerModel.Conversation` | mutlithread/multiThread/http/HttpServer.cpp:37-88 | what is written and left to write is the answers to all the requests of the stream, in order, if and only if every answer comes due when the connection can take it and no request is left over |
| `HttpServerModule.HttpServer.OnMessage` | mutlithread/multiThread/http/HttpServer.cpp:43-60 | the effect on connection, context and buffer is the model's; the kernel's interest set follows, and is otherwise as before |
| `HttpServerModule.HttpServer.OnRequest` | mutlithread/multiThread/http/HttpServer.cpp:62-88 | the effect on the connection is the model's; the kernel's interest set follows, and is otherwise as before |
| `ThreadPool.EnoughAwake` | mutlithread/multiThread/base/ThreadPool.cpp:55-99 | in every interleaving as many workers are awake as there are entries queued, up to their number; none sleeps after stop |
| `ThreadPool.EachTaskOnce` | mutlithread/multiThread/base/ThreadPool.cpp:66-99 | first in, first out; what was taken is finished or run by exactly one worker |
| `ThreadPool.StopEnds` | mutlithread/multiThread/base/ThreadPool.cpp:44-53 | after stop every worker exits after at most three moves, so the joins return |
| `ThreadPool.LeftBehind` | mutlithread/multiThread/base/ThreadPool.cpp:44-99 | after stop, as many of the oldest tasks as there are workers in take are still served; exactly the rest of the queue is left when all have exited |
| `ThreadPoolObject.Shared.Take` | mutlithread/multiThread/base/ThreadPool.cpp:85-99 | a worker sleeps exactly if there is nothing to do and the pool runs; otherwise it has the oldest entry |
| `ThreadPoolObject.Shared.Submit` | mutlithread/multiThread/base/ThreadPool.cpp:55-64 | the critical section is the protocol's step |
| `SemaphorePool.NothingStranded` | web-5.11-pressure/threadpool.h:83-124 | first in, first out; a token is on its way for every queued request even if waits fail; the queue is bounded |
| `SemaphorePool.TokensMatch` | web-5.11-pressure/threadpool.h:107-115 | when waits succeed, queue length is semaphore value plus posts to come plus tokens held, and the empty branch is never taken |
| `SemaphorePool.FullQueue` | web-5.11-pressure/threadpool.h:87-91 | the queue can hold one request above its limit |
| `SemaphorePool.EmptyExactly` | web-5.11-pressure/threadpool.h:107-115 | at any moment of any run, some worker can still find the queue empty without a further failed wait if and only if a failed wait has not been made up for |
| `SemaphorePool.FailedWait` | web-5.11-pressure/threadpool.h:110-115 | one failed wait sends a worker with a token to an empty queue |
| `SemaphorePoolObject.Shared.Enqueue` | web-5.11-pressure/threadpool.h:83-93 | turns a request away exactly when the queue is above its limit, and otherwise queues it, before the post |
| `SemaphorePoolObject.Shared.Post` | web-5.11-pressure/threadpool.h:94-94 | the semaphore counts the request |
| `SemaphorePoolObject.Shared.Pop` | web-5.11-pressure/threadpool.h:107-124 | the oldest request, or an empty queue, and that only after a failed wait |
| `Decimal.SignedRoundTrip` | mutlithread/multiThread/base/LogStream.cpp:12-30 | every integer is printed as a canonical numeral that reads back as itself |
| `Decimal.SignedUnique` | mutlithread/multiThread/base/LogStream.cpp:12-30 | every canonical numeral is the printing of its value |
| `LogStream.Convert` | mutlithread/multiThread/base/LogStream.cpp:12-30 | writes the canonical numeral and its NUL, with truncating division through the mirrored table, and nothing else |
| `LogStream.NumericSize` | mutlithread/multiThread/base/LogStream.cpp:166-175 | 64-bit integers take at most 21 bytes with their NUL, inside the guard of 32 |
| `LogStream.FixedBuffer.FormatInteger` | mutlithread/multiThread/base/LogStream.cpp:177-183 | the whole numeral, or nothing when fewer than 32 bytes are left |

## Left out

- TimerRuns.ArmedInTime: has the hypothesis that each batch's reset finds the earliest timer still valid; without it the claim is false, as TimerRuns.StuckTimer shows.
- HttpServerModel.AnswersTaken: assumes a callback that does not look at the receive time, as do HttpServerModel.Conversation, HttpServerModel.EndToEnd, HttpServerModel.ClosesExactly and HttpServerModel.ClientReads.
- HttpServerModel.Conversation: is about messages that arrive while the assert of setMethod holds and about a connection that nothing else closes.
- TcpConnectionModule.TcpConnection.ConnectionDestroyed: asks for a connection that is not being shut down, as TcpServerSafety.Lifecycle guarantees; ConnectionModel.AssertsHold says that the assert fails otherwise.
- EventLoopObject.Loop.DoPendingFunctors: the object runs undisturbed; what other threads do in between is in EventLoop.
- TcpServer, EventLoop, ThreadPool and SemaphorePool are states and steps on values, because their subject is the interleaving; the objects beside them carry the fields and critical sections, not the threads.
- SortTimerList: in LinkBefore and LinkLast the new links are set after the search loop instead of inside it; deletion of a timer and the closing of its connection are a returned list.
- The destructor of TcpServer, and sends or shutdowns from other threads, which can reach the removal of a channel that still wants events.
- Buffer::readFd and shrink, the end-of-line searches, and swap; input reaches a buffer by append.
- Reading at end of file and read errors beyond closing the connection; high-water marks; TCP options; the weak pointer that ties a channel to its connection.
- epoll_wait failing or being interrupted, and the time it returns.
- Socket, Acceptor and addresses; Connector and TcpClient; asynchronous logging, log files and pointer or floating-point formatting.
- EventLoopThreadPool's choice of a loop; the thread-affinity asserts.
- adjust_timer, which is never called; the rest of the proactor server; the older copy mutlithread-6.27; the benchmark clients.
