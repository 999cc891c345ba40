# Verification of the coroutine server framework

This project models the parts of the framework whose behaviour is decided by its own code, and
proves what they keep over every input, every run and every interleaving.

| files | what they model |
|---|---|
| `Blocks`, `Iovecs`, `ByteArray`, `PositionalReads` | the byte buffer kept as a linked list of fixed-size nodes, with a cached current node; proved against the flat sequence of its bytes; when its positional reads answer what was asked |
| `Bits`, `Codec`, `TypedIO` | fixed-width, zigzag, varint and length-prefixed encodings, and typed reading and writing over the buffer |
| `TimerSpec`, `TimerRuns`, `Timers` | the ordered timer set as a value, whole runs over it, and the class that implements it |
| `IoSpec`, `IoManager` | event registration per descriptor, the kernel's interest set, the pending counter; as a value with runs, and as classes |
| `RunLoop`, `Scheduler` | the worker loop as a transition system for any number of workers, and the class with the shared task list |
| `UriMachine`, `UriText`, `UriPrint`, `UriSound`, `UriReference`, `UriAccepted`, `Uri` | the generated automaton with its mark register, the printer, both directions between them, texts without a scheme or an authority, exactly which texts with both are accepted, and the class |
| `Pattern`, `LogFormatter` | the log pattern parser with its step back, a printer, and when one inverts the other |
| `HttpBody` | the body loops of the HTTP client over a buffer and reads of any size |
| `Ipv4`, `Ipv6` | address arithmetic in network byte order, bit counting, and the text of IPv6 addresses |
| `Arith`, `Chars`, `Options` | shared arithmetic, digits, and an option type |

Classes hold the fields the original updates and their methods follow its loops and branches. Each is
proved against a value (`Text()`, `view`, `View()`); the properties are lemmas about these values.

What is assumed of the surroundings: the host is little-endian; `basesize` is at least 1; clock readings,
`epoll_ctl` failures, the sizes of reads and the order in which workers proceed are arbitrary; memory
allocation does not fail; callbacks are not null and tasks do not throw; one critical section is one step;
a failed `AZURE_ASSERT` ends the process; the double rounding in `ceil` is integer rounding up.

## Findings

Where the code does not do what one would expect, the project proves when exactly it does.

- A string read of length 0 at the very end of the capacity follows a null node pointer
  (`src/bytearray.cpp:393`). `TypedIO.RoundTrip` shows that this is the only way a round trip fails: the
  last value is an empty string and the bytes fill whole blocks.
- The positional `read` starts in the current node, whatever node holds the position
  (`src/bytearray.cpp:423-426`), and the positional `getReadBuffers` bounds its length by what is readable at
  the current position (`src/bytearray.cpp:597`). `PositionalReads` says exactly when they answer what was asked:
  the position is in the current node, or the length fits both positions; and shows an input for each way
  they do not.
- A ready event that wakes a kind that is not registered, as when a peer hangs up on a descriptor with one
  kind registered, reaches the assertion at `src/iomanager.cpp:32`. `IoSpec.ReadyKeeps` gives the exact
  condition, `IoSpec.HangUpStops` a reachable state.
- A refresh, or the re-insertion of a recurring timer, that sets an earlier deadline loses a wake-up, as
  nobody is told. `TimerRuns.AwakeExactly` is the exact condition, for every clock. It happens when the clock
  is set back (a timer of 10 ms added at 100, refreshed at 50: `TimerRuns.SetBackClockIsLost`; recurring timers
  after a rollover: `TimerRuns.RolloverIsLost`) and when a deadline wraps around at 2^64
  (`TimerRuns.WrappedDeadlineIsLost`).
- `idle` casts the wait to `int` (`src/iomanager.cpp:297-303`): a wait with bit 31 set, as for a timer 2^31 ms
  ahead, gives `epoll_wait` a negative timeout, which is none. `TimerRuns.IdleExactly` is the exact condition,
  `TimerRuns.LongWaitHasNoLimit` an input.
- Every fiber is in one place, a queue entry or one worker's hands, exactly as long as none is scheduled while it
  is in one: `RunLoop.OnePlaceExactly`. There are three ways to break it, each a run from the initial state
  (`RunLoop.RunsTwiceFromStart`, `RunLoop.StopsFromStart`): a fiber scheduled before its worker has settled it can run on both of two
  workers; one scheduled while it is queued, or taken and not begun, brings a worker to the assertion in `swapIn`.
- A reported stop is final exactly when no worker is settling a ready fiber: `RunLoop.StoppingIsFinal`.
- A URI with a scheme and an empty port (`http://host:/`) makes a string from a null mark, in `UriText.ParseText`.
  User information loses everything up to its first colon when a digit follows the colon. A path is kept only
  behind a scheme and "://" (`UriReferences.NeedsAuthority`, `UriAccepted.PathIsKept`): `//host/x` is accepted with
  its host and without its path, and there an empty port is no fault (`UriReferences.ParseRelative`);
  `UriReferences.ParseReference` has the texts without an authority.
  (The grammar's `dec_octet` says `2 [0-4] digit` with a 2 that is the byte 2, `include/uri.rl:51`; hosts with
  that byte are not part of this model.)
- In a log pattern, percent signs and a brace behind a directive without argument are taken for its
  argument, and percent signs at the end overtake such a directive: `Patterns.Faithful`, exactly, with
  `Patterns.BraceIsTaken` and `Patterns.PercentOvertakes` for an input of each kind.
- A chunk size line that reads split is parsed anew from the last split: `HttpBody.LineRead`. Its size is right
  exactly when only zeros are lost: `HttpBody.SizeExactly`. `HttpBody.LineDecides` says what the body becomes when
  more is lost; 16 bytes behind `10`, split behind the 1, give an empty body: `HttpBody.TenIsZero`.

## Model

| member | source | states |
|---|---|---|
| ByteArrays.ByteArray.CurrentBlock | src/bytearray.cpp:450-466 | the cached node is number position / basesize, and null exactly when the position is the capacity |
| ByteArrays.ByteArray.CapacityIsMultiple | src/bytearray.cpp:508-537 | the capacity is basesize times the number of nodes |
| ByteArrays.ByteArray.AddCapacity | src/bytearray.cpp:508-537 | room for n more bytes in whole blocks; no byte, nor position or size, changes; a null current node becomes the first new one |
| ByteArrays.CeilGrows | src/bytearray.cpp:517-519 | the number of blocks that ceil gives is the least that makes enough room |
| ByteArrays.ByteArray.Write | src/bytearray.cpp:351-385 | overwrites exactly [pos, pos + n) of the text, whatever nodes that crosses; size is the larger of size and pos + n; no other byte of the memory changes |
| ByteArrays.ByteArray.Read | src/bytearray.cpp:387-416 | returns exactly that slice, or out_of_range beyond what is readable, or the null pointer for a read of nothing at the capacity |
| ByteArrays.ByteArray.ReadAt | src/bytearray.cpp:418-448 | the const positional read: what it returns for every position, relative to the current node |
| PositionalReads.StartsWhereAsked | src/bytearray.cpp:423-426 | the positional read starts at the position asked for exactly when that is in the current node |
| PositionalReads.ReadAsked | src/bytearray.cpp:418-448 | for bytes that are there: right in the current node, the null pointer at the capacity, otherwise the bytes at another offset |
| PositionalReads.ReadsTheWrongBlock | src/bytearray.cpp:423-426 | two bytes in two nodes: asked for the second, it gives the first |
| PositionalReads.ReadsThroughNull | src/bytearray.cpp:423-426 | one byte in a full node: asked for at the end, it follows a null pointer |
| PositionalReads.BoundIsAsked | src/bytearray.cpp:596-600 | the bound from the current position is the one for the position asked for exactly when both are the same or the length fits both |
| PositionalReads.BuffersAsked | src/bytearray.cpp:596-633 | then the buffers gather to the bytes asked for; otherwise what they are |
| PositionalReads.BuffersTooShort | src/bytearray.cpp:596-600 | a byte that was read: no buffers when asked for it again |
| PositionalReads.BuffersPastSize | src/bytearray.cpp:596-633 | asked from the end on, a byte behind the size |
| PositionalReads.BuffersOffTheList | src/bytearray.cpp:596-633 | or it runs off the list |
| ByteArrays.ByteArray.SetPosition | src/bytearray.cpp:450-466 | moves the position and the cached node; fails beyond the capacity; extends size when the position passes it |
| ByteArrays.ByteArray.Clear | src/bytearray.cpp:338-349 | back to one block, with nothing in it |
| ByteArrays.ByteArray.ToString | src/bytearray.cpp:539-547 | the unread bytes, across nodes, without moving; the positional read never faults here |
| ByteArrays.ByteArray.GetReadBuffers | src/bytearray.cpp:563-594 | the entries are contiguous pieces of nodes that gather to the next min(len, readable) bytes |
| ByteArrays.ByteArray.GetReadBuffersAt | src/bytearray.cpp:596-633 | the same from any position, with the bound the code uses, and when it runs off the list |
| ByteArrays.ByteArray.GetWriteBuffers | src/bytearray.cpp:635-664 | the entries cover exactly len bytes from the position on, consecutively; nothing visible changes |
| ByteArrays.ByteArray.Receive | src/socket_stream.cpp:27-38 | filling a prefix of the write buffers from outside and moving the position equals a write of those bytes |
| Iovecs.Collect | src/bytearray.cpp:571-593 | the shared walk: a window of n bytes over consecutive nodes, or running off the list exactly when there are fewer |
| Iovecs.GatherWindow | src/bytearray.cpp:563-594 | a window gathers to the slice of the flat bytes it starts at |
| ByteArrays.FullAtWholeBlocks | src/bytearray.cpp:508-537 | a buffer filled from the start is full exactly when the bytes fill whole blocks |
| Codec.ByteSwapReverses | include/endian_.h:14-27 | byteswap reverses the memory image and undoes itself, for every width |
| Codec.FixedRoundTrip | src/bytearray.cpp:63-112 | reading a fixed-width value of either sign and byte order gives back what was written, over its whole range |
| Codec.ZigzagRoundTrip | src/bytearray.cpp:114-128 | zigzag decoding inverts encoding on every two's-complement value, with the wrap-around of the code |
| Codec.ZigzagValue | src/bytearray.cpp:114-120 | what the code's arithmetic computes: 2v for v >= 0, -2v - 1 for v < 0 |
| Codec.ZigzagOnto | src/bytearray.cpp:114-128 | every word is the code of exactly the value it decodes to |
| Codec.VarintLength | src/bytearray.cpp:134-144 | between 1 and 5, or 10, bytes: the local buffer is large enough |
| Codec.VarintRoundTrip | src/bytearray.cpp:254-267 | reading a varint gives its value and uses exactly the bytes written, whatever follows |
| TypedIO.VarintBuffer | src/bytearray.cpp:134-144 | the encoding loop fills its 5- or 10-byte buffer with the varint and never passes its end |
| TypedIO.WriteFixed | src/bytearray.cpp:71-76 | writes the bytes of the value in the chosen byte order |
| TypedIO.ReadVarint | src/bytearray.cpp:254-267 | the decoding loop, with what it consumes, also when the bytes run out |
| TypedIO.ReadText | src/bytearray.cpp:302-327 | length, then that many bytes: value, out_of_range and null pointer as decoding says |
| TypedIO.DecodeEncode | src/bytearray.cpp:63-327 | one value of any tag, anywhere in a text, is decoded to itself and ends where its bytes end |
| TypedIO.DecodeEncodeAll | src/bytearray.cpp:63-327 | the same for any list of values |
| TypedIO.RoundTrip | tests/test_bytearray.cpp:7-24 | writing any list of tagged values, rewinding and reading with the same tags gives the list and leaves nothing to read for every block size, except exactly the unreadable lists |
| TimerSpec.InsertSorted | src/timer.cpp:6-20 | inserting by the comparator keeps the set strictly sorted and adds exactly the timer; it is first exactly when begin() says so |
| TimerSpec.EraseSorted | src/timer.cpp:36-46 | erasing keeps the set sorted and without that timer |
| TimerSpec.ExpiryFires | src/timer.cpp:135-170 | fires every timer due before now and none due after, in order; all after a rollover; the recurring ones come back with new deadlines and the rest stay |
| TimerRuns.NextConserves | src/timer.cpp:36-186 | every operation keeps: sorted, and one-shots made = fired + cancelled + pending |
| TimerRuns.Run | src/timer.cpp:36-186 | the same after every run |
| TimerRuns.OneShotFate | src/timer.cpp:135-170 | over any run a one-shot timer has fired once, or was cancelled once, or is pending |
| TimerRuns.NeverAgain | src/timer.cpp:135-170 | a timer that left the set is never fired again by any later call |
| TimerRuns.CancelIsFinal | src/timer.cpp:36-46 | no run after a cancel fires the timer |
| TimerRuns.AwakeExactly | src/timer.cpp:36-186 | for every clock and every call: afterwards a wake-up is under way or no stored deadline is before the earliest at the last getNextTimer, exactly when a refresh or re-insertion sets no deadline before it; add, cancel, reset and getNextTimer always keep it |
| TimerRuns.WakeupsExactly | src/timer.cpp:36-186 | hence in every state of a run, exactly when every call of the run is harmless |
| TimerRuns.NoLostWakeup | src/timer.cpp:117-186 | so in every reachable state, when no refresh reads an earlier time than any call before it, no rollover is detected, and refreshed and re-inserted deadlines are below 2^64; the readings made before the lock is taken may come in any order |
| TimerRuns.NoOversleep | src/timer.cpp:117-133 | sleeping as long as getNextTimer says does not pass any deadline |
| TimerRuns.ComesBackExactly | src/iomanager.cpp:295-303 | epoll_wait comes back within the time it was told exactly when bit 31 of it is clear or there is no timer; otherwise its timeout is negative |
| TimerRuns.IdleExactly | src/iomanager.cpp:283-303 | hence exactly when idle sleeps past no deadline, for every timer set and clock |
| TimerRuns.LongWaitHasNoLimit | src/iomanager.cpp:297-303 | a timer 2^31 ms ahead makes the timeout negative |
| TimerRuns.RefreshIsLost | src/timer.cpp:48-62 | any refresh to an earlier deadline than the one the sleeper was told of loses the wake-up in a run of three calls |
| TimerRuns.SetBackClockIsLost | src/timer.cpp:48-62 | with the clock set back |
| TimerRuns.WrappedDeadlineIsLost | src/timer.cpp:48-62 | with a deadline that wraps around |
| TimerRuns.RolloverIsLost | src/timer.cpp:135-170 | the same for the re-insertion of a recurring timer after a rollover |
| Timers.TimerManager.Find | src/timer.cpp:36-46 | the search by comparator finds every member, because no key changes while a timer is one |
| Timers.TimerManager.AddTimer | src/timer.cpp:98-103 | inserts the timer with deadline now + ms, and notifies when it is first and no wake-up is under way |
| Timers.TimerManager.CancelTimer | src/timer.cpp:36-46 | takes the timer out exactly when its callback is set, and clears it; the unchecked erase finds it |
| Timers.TimerManager.RefreshTimer | src/timer.cpp:48-62 | takes the timer out, moves its deadline and puts it back |
| Timers.TimerManager.ResetTimer | src/timer.cpp:64-88 | the same with a new period, from now or from when it was set, through the notifying insert |
| Timers.TimerManager.GetNextTimer | src/timer.cpp:117-133 | the time to the first deadline, and the wake-up flag is cleared |
| Timers.TimerManager.DetectClockRollover | src/timer.cpp:188-196 | true exactly when the clock went back by more than an hour, or at all when the remembered reading is below an hour; remembers the reading |
| Timers.TimerManager.ListExpiredCb | src/timer.cpp:135-170 | the new set and the callbacks handed out are those of the specification, in order |
| IoSpec.AddKeeps | src/iomanager.cpp:94-147 | the kernel agrees with the events, one more task is accounted for, and when it stops or fails |
| IoSpec.DelKeeps | src/iomanager.cpp:149-181 | the same for delEvent; a refused call changes nothing |
| IoSpec.CancelKeeps | src/iomanager.cpp:183-213 | the same for cancelEvent, whose task is triggered |
| IoSpec.CancelAllKeeps | src/iomanager.cpp:215-251 | no event of the descriptor is left, and their tasks are triggered |
| IoSpec.ReadyKeeps | src/iomanager.cpp:321-366 | the same for a ready event, and exactly when it stops the process |
| IoSpec.HangUpStops | src/iomanager.cpp:331-365 | after a run of one successful addEvent, for any descriptor and kind, a hang-up on it stops the process |
| IoSpec.TriggerKeeps | src/iomanager.cpp:31-43 | the task goes to its scheduler, the context is emptied, nothing else changes |
| IoSpec.UnregisterIsLegal | src/iomanager.cpp:158-171 | MOD or DEL is only chosen when the kernel has the descriptor |
| IoSpec.AddAgrees | src/iomanager.cpp:118-131 | ADD is only chosen when the kernel does not have it, MOD only when it does |
| IoSpec.DoKeeps | src/iomanager.cpp:94-251 | every call keeps the invariant, and a failed epoll_ctl changes nothing but the size of the table |
| IoSpec.ExactlyOnce | src/iomanager.cpp:31-43 | over any run, each task is added as often as it was scheduled, dropped or is waiting; adds = triggers + deletes + pending count |
| IoManager.FdContext.TriggerEvent | src/iomanager.cpp:31-43 | fails its assertion for an unregistered kind; otherwise hands over the task and empties the context |
| IoManager.IOManager.AddEvent | src/iomanager.cpp:94-147 | the object after the call shows exactly the specified state or has stopped; grows the table |
| IoManager.IOManager.DelEvent | src/iomanager.cpp:149-181 | likewise for delEvent |
| IoManager.IOManager.CancelEvent | src/iomanager.cpp:183-213 | likewise for cancelEvent |
| IoManager.IOManager.CancelAllEvents | src/iomanager.cpp:215-251 | likewise for cancelAll |
| IoManager.IOManager.OnReady | src/iomanager.cpp:321-366 | likewise for one ready event |
| RunLoop.FirstEligible | src/scheduler.cpp:163-183 | the first entry that is neither pinned to another thread nor a running fiber |
| RunLoop.TakesFirst | src/scheduler.cpp:160-184 | taking removes the first eligible entry and keeps the order of the rest; otherwise the worker idles |
| RunLoop.NextCounts | src/scheduler.cpp:180-228 | every step keeps the active counter equal to the number of workers between taking and decrementing |
| RunLoop.RunCounts | src/scheduler.cpp:132-249 | under every interleaving the counter is exact and never negative |
| RunLoop.StoppingIsQuiet | src/scheduler.cpp:251-254 | when stopping() holds, the queue is empty and no worker holds an entry it has not counted off |
| RunLoop.StoppingIsFinal | src/scheduler.cpp:191-254 | a reported stop stays under every run without schedule() exactly when no worker is settling a fiber that is ready |
| RunLoop.StoppingBeforeRequeue | src/scheduler.cpp:191-196 | from any state with one busy worker a stop that is not final is reached |
| RunLoop.NextDelivers | src/scheduler.cpp:160-196 | entries given = queued + taken, as multisets, and a pinned entry is taken only by its thread |
| RunLoop.RunDelivers | src/scheduler.cpp:132-249 | the same after every run |
| RunLoop.OnePlaceStep | src/scheduler.cpp:132-249 | every step keeps each fiber in one place, one queue entry or one worker's hands, EXEC exactly while a worker runs it, exactly when the step is not a schedule() for a fiber in either |
| RunLoop.OnePlaceExactly | src/scheduler.cpp:132-249 | hence in every state of a run from the start exactly when every step of the run is disciplined |
| RunLoop.OneWorkerPerFiber | src/fiber.cpp:113-122 | then no fiber runs on two workers and the assertion in swapIn never fails |
| RunLoop.UndisciplinedRunsTwice | src/scheduler.cpp:191-200 | from any state where one worker runs a fiber, another is between turns and nothing is queued, a fiber scheduled before it is settled ends up running on both |
| RunLoop.QueuedTwiceStops | src/fiber.cpp:113-116 | from any state with two workers between turns and nothing queued, a fiber scheduled while it is queued brings the second worker to the assertion in swapIn |
| RunLoop.TakenTwiceStops | src/fiber.cpp:113-116 | likewise a fiber scheduled while a worker has taken it and not begun brings that worker to the assertion |
| RunLoop.RunsTwiceFromStart | src/scheduler.cpp:132-249 | the first happens in a run from the initial state, for any two threads and any fiber |
| RunLoop.StopsFromStart | src/scheduler.cpp:132-249 | and so do the other two |
| Schedulers.Scheduler.ScheduleNoLock | include/scheduler.h:75-85 | appends what is not null, and tells whether the list was empty |
| Schedulers.Scheduler.ScheduleAll | include/scheduler.h:49-63 | the batch hands over each job exactly once, in order, and leaves the caller's slots empty |
| Schedulers.Scheduler.TakeNext | src/scheduler.cpp:158-188 | the scan takes what the transition system says; wakes others exactly when an entry of theirs was passed over; if it takes nothing and wakes nobody, only running fibers are queued |
| Schedulers.Scheduler.IsStopping | src/scheduler.cpp:251-254 | exactly the four conditions |
| UriText.Scan | src/uri.rl.cc:5561-5610 | a loop state reads a whole component of its kind, percent-encodings included, and only lengthens the marked text |
| UriText.ParseText | include/uri.rl:45-151 | Create of every text scheme://[user@]host[:port]path[?query][#fragment] in closed form: the parts, except for an empty or too large port and for user information that looks like a port |
| UriText.UserRuns | src/uri.rl.cc:5871-5972 | what is kept of user information with colons, for every such text |
| UriText.EmptyPortFaults | src/uri.rl.cc:5631-5646 | an empty port makes a string from a null mark, whatever follows |
| UriReferences.ParseReference | include/uri.rl:119-130 | Create of every text [scheme:]path[?query][#fragment] without an authority, in closed form: accepted without its path |
| UriReferences.ParseRelative | include/uri.rl:121-122 | Create of every text //[user@]host[:port]path[?query][#fragment] with a registered name, in closed form: the parts without the path, unless the port is too large; an empty port is accepted |
| UriReferences.NeedsAuthority | include/uri.rl:119-130 | for every text the modelled automaton accepts: a path comes only from one that starts with a scheme and "://", and user information, a host or a port only from such a text or one that starts with "//" |
| UriAccepted.StepTracks | src/uri.rl.cc:5351-9490 | every transition behind the authority that is not lost adds its character to the component being read or completes it with a valid one |
| UriAccepted.AcceptedExactly | include/uri.rl:45-151 | of the texts that start with a scheme and "://" the modelled automaton accepts exactly those made of valid parts with a port that can be saved; and every way to read one gives the same Uri |
| UriAccepted.PathIsKept | include/uri.rl:119-130 | for every text the modelled automaton accepts: a path is kept exactly when the text is made of parts with a scheme, an authority and a path |
| UriPrint.OmittedPort | include/uri.rl:156-185 | the port left out of the text is exactly the one getPort gives back without it |
| UriPrint.ParsePrint | include/uri.rl:187-205 | Create(toString(u)) succeeds for every Uri with valid components, with the port and path defaults filled in |
| UriPrint.CreateAfterToString | include/uri.rl:134-205 | Create(toString(u)) succeeds exactly when there is a scheme; it agrees on every getter, and a second toString gives the same text, exactly when the user information does not look like a port |
| UriSound.StepSound | src/uri.rl.cc:35-10575 | every transition saves only text that is a valid component of its field |
| UriSound.AcceptedIsValid | include/uri.rl:134-151 | every text that the modelled automaton accepts yields valid components; texts it reports as not covered are out |
| UriSound.AcceptedRoundTrip | include/uri.rl:134-205 | hence a Uri accepted by the modelled automaton prints to a text that is accepted again exactly when it has a scheme, with the same getters and text under the same condition |
| Uris.Uri.Perform | include/uri.rl:16-113 | one action with positions in the text: atoi at the mark reads just the digits up to the position |
| Uris.Uri.Create | include/uri.rl:134-151 | the loop over the text gives null, a Uri with exactly the parsed fields, or not defined, as the modelled automaton says; not defined stands for undefined behaviour and for texts outside the model |
| Uris.Uri.Dump | include/uri.rl:187-199 | the text of the fields |
| Patterns.ParsePrint | src/log.cpp:470-544 | parsing inverts the printer on every list of pieces a pattern can name, exactly when no literal is taken for an argument and none overtakes a directive at the end |
| Patterns.BraceIsTaken | src/log.cpp:470-544 | a directive before the literal "{": the pattern is refused, and the directive follows the complaints |
| Patterns.PercentOvertakes | src/log.cpp:470-544 | a directive before a percent sign at the end: parsing gives them in the other order |
| Patterns.DirectiveSettles | src/log.cpp:512-517 | a directive without argument gives up its wait at the next directive or plain character, the step back included |
| Patterns.ScanWeighs | src/log.cpp:474-544 | a pattern without an error never names more text than it holds |
| LogFormatters.LogFormatter.Init | src/log.cpp:451-567 | the index loop computes the items and the error flag of the specification, and ends although stepping back leaves the index unchanged |
| LogFormatters.FormatterOfPrint | src/log.cpp:451-567 | a printed faithful list of known items gives these items without an error |
| HttpBody.ChunksArrive | src/http/http_connection.cpp:62-110 | for any chunks, reads and buffer size, when no size line loses more than zeros to a split, the body is the concatenated data, also when the line end behind it is split |
| HttpBody.WholeLosesZeros | src/http/http_connection.cpp:66-89 | in particular when every size line is whole when first looked at |
| HttpBody.LineRead | src/http/http_connection.cpp:66-89 | for any reads: the size is that of the digits in the look that completes the size line, and without a digit there the response is refused; what follows the line stays in the buffer or on the wire |
| HttpBody.SizeExactly | src/http/http_parser.cpp:241-249 | the size is right exactly when only zeros are lost |
| HttpBody.LineDecides | src/http/http_connection.cpp:62-110 | what any size line makes of the body, harmful or not: refused without a digit in the last look; otherwise as many bytes as those digits say, two more are lost, and what follows is read as the next size line |
| HttpBody.TenIsZero | src/http/http_connection.cpp:66-89 | 16 bytes behind the size line 10, split behind its first digit: the line loses more than zeros and the body is empty |
| HttpBody.RestArrives | src/http/http_connection.cpp:98-108 | the rest of the data arrives by reads of any size, and no more than it |
| HttpBody.HttpConnection.ReceiveHeader | src/http/http_connection.cpp:66-89 | the inner loop over the buffer computes the specified header and keeps every index in range |
| HttpBody.HttpConnection.ReceiveRest | src/http/http_connection.cpp:98-108 | the loop for the rest of the data |
| HttpBody.HttpConnection.RecvChunks | src/http/http_connection.cpp:62-110 | the outer loop computes the specified body, or null |
| HttpBody.LengthArrives | src/http/http_connection.cpp:111-134 | a body of known length is exactly the next bytes of buffer and wire |
| HttpBody.HttpConnection.RecvLength | src/http/http_connection.cpp:111-134 | the copy and the reads behind it compute that body |
| Ipv4.SwapAnd | src/address.cpp:305-312 | masking in network order is masking the number |
| Ipv4.NetworkRounds | src/address.cpp:296-312 | the network address is the address rounded down to a multiple of 2^(32 - p), the broadcast address that plus 2^(32 - p) - 1 |
| Ipv4.SameNetwork | src/address.cpp:305-312 | two addresses share a network exactly when their top p bits agree |
| Ipv4.ClearLowest | src/address.cpp:17-24 | value & (value - 1) removes exactly one bit |
| Ipv4.CountBytes | src/address.cpp:17-24 | the loop ends and counts the bits |
| Ipv4.SubnetCounts | src/address.cpp:314-320 | counting the bits of the subnet mask gives p in either byte order |
| Ipv4.IPv4Address.NetworkAddress | src/address.cpp:305-312 | null above 32, otherwise the rounded address |
| Ipv4.IPv4Address.BroadcastAddress | src/address.cpp:296-303 | null above 32, otherwise the last address |
| Ipv4.IPv4Address.SubnetMask | src/address.cpp:314-320 | the mask of p leading ones |
| Ipv6.ReadText | src/address.cpp:369-393 | the text denotes the address, read by section 2.2 of RFC 4291, for all 2^128 addresses |
| Ipv6.TextIsUnique | src/address.cpp:369-393 | no two addresses share a text |
| Ipv6.IPv6Address.Insert | src/address.cpp:369-393 | the loop writes that text: the first run of zeros left out, brackets and port around it |

## Left out

- ByteArrays.ByteArray.ReadAt: a position beyond size is compared after unsigned wrap-around, as the code does; the bytes it would copy before running off the list are not described.
- TypedIO.RoundTrip: float and double travel as the bit patterns of 32- and 64-bit words and have no tags of their own.
- TypedIO.WriteText: the strings with a varint length are not modelled; writer and reader use different encodings of the length there (`src/bytearray.cpp:193-197`, `src/bytearray.cpp:329-336`).
- ByteArrays.ByteArray.Clear: freeing memory is not modelled, here and in the destructor.
- ByteArrays.ByteArray.GetReadBuffers: the entries are returned, not appended to the caller's vector.
- Files, hexadecimal dumps and isLittleEndian of the byte buffer.
- Timers.TimerManager.ListExpiredCb: the two lock acquisitions at its start are one step; a timer's identity is an address that no other timer ever has.
- Timers.TimerManager.DetectClockRollover: a remembered reading below one hour wraps around as in the code.
- Condition timers, which wrap a callback around a weak pointer.
- IoManager.IOManager.AddEvent: the lock upgrade between the size check and the growth of the table is one step.
- IoSpec.ReadyKeeps: epoll_wait, the tickle pipe and edge-triggering are left out; ready events are arbitrary.
- RunLoop.OnePlaceStep: the window inside YieldToHold and YieldToReady between the state change and the context switch is one step; a worker's reused callback fiber is a fresh fiber each time.
- Schedulers.Scheduler.TakeNext: the class has the critical sections of the worker loop; the loop around them, with the context switches, is the transition system of `RunLoop`.
- Schedulers.Scheduler.ScheduleAll: a batch is one step; creating, joining and naming threads is left out.
- UriSound.AcceptedIsValid: IP literals and the byte 2 in a host end as not covered, and nothing is said of them.
- UriSound.AcceptedRoundTrip: likewise.
- UriReferences.NeedsAuthority: likewise.
- UriAccepted.PathIsKept: likewise; the code keeps a path behind an IP literal, too.
- UriAccepted.AcceptedExactly: likewise; a host that is an IP literal or holds the byte 2 is not among the parts.
- UriReferences.ParseRelative: likewise.
- Uris.Uri.Create: IP literals and the byte 2 in a host are reported as not defined, although the code parses them; a port above 2^31 - 1 counts as undefined, as atoi leaves it.
- UriMachine.Delta: the states of an authority without a scheme, a copy of those behind a scheme, are the latter with a flag; host states that follow dotted decimal digits are those of a registered name, which they equal on every byte but 2.
- LogFormatters.LogFormatter.Init: the items are named, not built; formatting a log event is left out.
- HttpBody.HttpConnection.RecvChunks: chunk extensions and trailers are not covered; sizes above 2^31 - 3 are a fault; the status line and header fields before the body are left out.
- Ipv4.IPv4Address.NetworkAddress: prefixes 0 and 1 shift by as much as the type is wide or into its sign, which C++ leaves undefined, and are excluded.
- Ipv4.IPv4Address.BroadcastAddress: likewise.
- Ipv4.IPv4Address.SubnetMask: likewise, and prefixes above 32, which it does not check.
- IPv6 networks, address lookup, sockets, coroutine switching, hooks, configuration, logging output, servlets and the daemon are left out.
