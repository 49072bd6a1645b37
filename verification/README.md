# Verification of the hbm standard library

This project models the Linux half of libhbm: the edge-triggered event loop with its notifier and timer, the
byte streams of a non-blocking socket, and the string and address arithmetic the library builds on them. It
proves what these parts promise to their callers over every input, every run and every interleaving. Where
the code does less than its documentation says, the code is modelled as it is, and a lemma says exactly when
it keeps the promise.

`dafny verify dfyconfig.toml` checks everything.

## How the model is built

**Event loop.** `LoopSystem` is a transition system. Its state is the handler map with node addresses, the
kernel's interest set with the raw pointers into that map, the batch of reported bits, the position inside
`execute()`, the drains of `addEvent` in progress, and for each source the unread work and the edge not yet
reported. Callback actions (adding, erasing, closing, stopping, reading) and other threads may take a step
between any two steps of the dispatcher, so re-entrant calls need no special treatment. The kernel is
conservative: ADD and MOD report nothing by themselves, ADD may be refused, and an address may be handed out
again as soon as its node is erased. `epoll_wait` and the store of its result are one step.

`forfeited` is bookkeeping: the sources whose wakeup was given up, by one of four branches of the code. These
are a callback that throws, a callback (in a batch or in a drain) that returns a result which is not positive
although its source never was empty during the call, and a return from `execute()` at the stop entry with
bits left. The no-lost-wakeup theorem holds without assumptions for everything outside this set, and
`BlamelessRun` names the runs in which the set stays empty.

`EventLoop` is the program itself: a class with the fields of the C++ class, its loops and its early break. Its
invariant `Valid()` says that the steps it took are a run of the transition system which makes exactly the
choices of a script, so that the theorems about runs are theorems about the object. A method gives up only when the
script is over or its next step cannot happen at that position, which is told by the callbacks in progress.

**Clients of the loop.** `LoopClient` puts a handler with known behaviour into the loop. `NotifierObject` uses
it for the notifier and its eventfd counter, `TimerInLoop` for the timer and the expirations its timerfd counts,
`TwoLayerDrain` for a socket whose unread bytes sit in the read-ahead buffer and in the kernel.

**Streams.** System calls come back with what finite scripts say: short counts, EAGAIN, EINTR, end of file, hard
errors. A script that is over makes every further call fail, which makes termination provable for every
finite behaviour of the kernel.

**Timer.** `TimerProtocol` has the steps of set, cancel and process on a timerfd; cancel is two steps, since its
callback may set and cancel again in between. `Timer` is the object with re-entrant callbacks.

**Strings and addresses.** Numbers are unbounded. The conversions of the code (`unsigned int`, `int`, `unsigned
char`) are written out as remainders. Netmasks and prefixes are proved for words of any width.

## Findings

- An add succeeds exactly when the kernel already watches the descriptor, or the descriptor is new and the ADD is
  granted (`AddSucceedsExactly`). After a refused `EPOLL_CTL_ADD` every further add on it therefore fails, through
  any run in which none of its handlers is erased (`RefusedUntilErased`, `AddsFailUntilErased`, `RefusedAddRun`), and
  an erasure helps exactly when it removes the last handler (`ErasureCuresRefusedAdd`).
- When `execute()` returns at the stop entry, a watched source with work is looked at again exactly when its edge
  has yet to be reported or a drain on it is under way (`StopCosts`). All others lose their wakeup, those reported
  behind the entry as well as those before it whose single call had a positive result, and `execute()` does not
  make up for it when it is called again (`StopForfeits`).
- `receiveComplete` converts the count at the end of the stream to `int`, which is exact below 2^31 only
  (`EarlyEndExact`); from there on a stream that is closed early gives a negative count (`EarlyEndRun`).
- A function given to `Timer::set` can ever be called with true exactly when no cancel is in progress and the
  previous function was not empty (`FiresExactly`): set tests the previous function instead of the one given, and a
  cancel disarms the timer after its callback, whatever that has set (`SetAfterEmptyRun`, `SetWhileCancellingRun`). The overload
  for durations cuts the period down to 32 bits, so that a period of 2^32 ms fails as if it were zero (`SetDuration`).
- `replace` for strings is what is documented exactly when the strings are equally long, or the substitute is
  longer and nothing the loop looks at again can begin with the search string (`ReplaceExact`). It ends
  for every text exactly when the search string is not empty and does not occur in the substitute from the
  position on at which the loop goes on (`TerminatesExactly`).
- `getSubnet` reads its parts modulo 2^32, so that 4294967297 passes for 1 (`HugeOctet`).

## Model

| member | source | states |
|---|---|---|
| Registration.AddKeepsValid | lib/sys/linux/eventloop.cpp:49-88 | adding keeps the correspondence of descriptors, nodes and kernel interest: the kernel's mask of a descriptor is exactly the directions with a handler, no node is without a handler, and the result is 0 exactly when the kernel watches the descriptor |
| Registration.AddUpdatesOneMap | lib/sys/linux/eventloop.cpp:98-137 | seen as one in-map and one out-map, adding changes the entry of its own direction at its own descriptor and nothing else, even when epoll_ctl refuses |
| Registration.EraseKeepsValid | lib/sys/linux/eventloop.cpp:147-175 | erasing keeps the same correspondence; it fails exactly for a descriptor the kernel does not know, and the kernel goes on watching it exactly when the other direction is left |
| Registration.EraseUpdatesOneMap | lib/sys/linux/eventloop.cpp:192-219 | erasing removes the entry of its own direction and preserves the other direction and every other descriptor |
| Registration.AddFrame | lib/sys/linux/eventloop.cpp:63-80 | live nodes keep their address and owner, what was watched stays watched, and beyond that exactly the added source, if the add succeeds |
| Registration.EraseFrame | lib/sys/linux/eventloop.cpp:162-175 | the pointer captured before the erasure is that of the erased node, the removed bits are what its slot must lose, no other node is touched, and everything watched but the erased source stays watched |
| Registration.AddSucceedsExactly | lib/sys/linux/eventloop.cpp:63-95 | an add succeeds if and only if the kernel already watches the descriptor, or it is new and the ADD is granted |
| Registration.RefusedAddIsSticky | lib/sys/linux/eventloop.cpp:66-87 | an add leaves a descriptor that only the handler map knows, and fails, if and only if the kernel did not watch it and it was in the map already or the ADD was refused |
| LoopLimits.RefusedAddRun | lib/sys/linux/eventloop.cpp:66-87 | a run from the start with a refused ADD, and an add of the other direction that fails although it would be granted |
| Registration.ErasureCuresRefusedAdd | lib/sys/linux/eventloop.cpp:162-175 | after a refused ADD an erasure makes the descriptor addable again if and only if it removed the last direction |
| LoopLimits.RefusedUntilErased | lib/sys/linux/eventloop.cpp:66-87 | over every run, a descriptor that was refused stays so until one of its handlers is erased |
| LoopLimits.AddsFailUntilErased | lib/sys/linux/eventloop.cpp:66-87 | and until then every add on it fails, in either direction and whatever the kernel would grant |
| LoopSafety.MaskOnce | lib/sys/linux/eventloop.cpp:177-187 | the early break of the masking loop is justified: masking the one slot that carries the address is masking all slots |
| LoopSafety.StepSafe | lib/sys/linux/eventloop.cpp:147-303 | every step of the dispatcher, callbacks, other threads and kernel keeps the batch safe: distinct addresses, and only bits of live handlers |
| LoopSafety.RunSafe | lib/sys/linux/eventloop.cpp:147-303 | the batch is safe in every state of every run, with re-entrant adds and erasures and reuse of addresses |
| LoopSafety.SafeDispatch | lib/sys/linux/eventloop.cpp:259-296 | in every run a set bit belongs to a live registration whose function of that direction is not null, so that no erased handler is called |
| LoopReports.NewBatchBits | lib/sys/linux/eventloop.cpp:243-261 | the bits of a new batch are exactly those epoll_wait reported, entry by entry and direction by direction |
| LoopReports.RunBacked | lib/sys/linux/eventloop.cpp:243-303 | in every state of every run each bit of the batch was reported by the last epoll_wait, in that entry, for the descriptor its node belongs to now |
| LoopReports.CallWasReported | lib/sys/linux/eventloop.cpp:243-296 | a function is called only for a direction that the last epoll_wait reported on the descriptor it is registered for |
| LoopReports.RoundOrder | lib/sys/linux/eventloop.cpp:257-303 | a round goes through the entries in the order of the report, in before out: during a call those before have had their call of the round and those behind have not |
| LoopReports.WatchedCanBeCalled | lib/sys/linux/eventloop.cpp:243-296 | after any run a loop that waits can go on to a call of the function of any direction that is watched: epoll_wait may report it, and the dispatcher then reaches it |
| LoopReports.WatchedAfter | lib/sys/linux/eventloop.cpp:49-234 | a source is watched from a successful add on until it is erased or its descriptor closed, and no other step changes that |
| LoopReports.EdgesAfter | lib/sys/linux/eventloop.cpp:58-87 | edge-triggered: only data that arrives at a watched source makes an edge, and it is gone once its descriptor was reported |
| LoopWakeups.NewBatchCovers | lib/sys/linux/eventloop.cpp:243-261 | edges taken out by epoll_wait turn into bits of the batch, so the sources stay covered |
| LoopWakeups.AddCovers | lib/sys/linux/eventloop.cpp:80-94 | data that arrived before the descriptor was added is covered by the drain that follows |
| LoopWakeups.EraseCovers | lib/sys/linux/eventloop.cpp:162-187 | erasing one direction loses no wakeup of the other one or of another descriptor |
| LoopWakeups.FinishCovers | lib/sys/linux/eventloop.cpp:263-296 | clearing a bit after a result that is not positive loses no wakeup when the source was seen empty during the call, and otherwise names the source |
| LoopWakeups.LeaveCovers | lib/sys/linux/eventloop.cpp:297-303 | leaving a batch gives up the bits left in it and nothing else |
| LoopWakeups.StepCovers | lib/sys/linux/eventloop.cpp:80-303 | every step keeps: a watched source with unread work has its edge pending, its bit in the batch, a drain in progress, or was given up |
| LoopWakeups.NoLostWakeup | lib/sys/linux/eventloop.cpp:80-303 | the same in every state of every run |
| LoopFairness.NothingForfeited | lib/sys/linux/eventloop.cpp:243-303 | in runs without throws, dishonest results and stops that leave bits, no wakeup is lost at all |
| LoopFairness.BlockedMeansEmpty | lib/sys/linux/eventloop.cpp:243-303 | in such runs, when the loop is blocked without an edge to come and no drain runs, no watched source holds work |
| LoopFairness.FairBatch | lib/sys/linux/eventloop.cpp:254-303 | at every point of every batch the call counts of any two bits still set differ by at most one |
| LoopFairness.RoundBound | lib/sys/linux/eventloop.cpp:257-303 | a batch takes at most one round more than it has positive results, with throws and erasures |
| LoopFairness.RoundClears | lib/sys/linux/eventloop.cpp:257-303 | a round without positive results and throws ends with every bit cleared |
| LoopFairness.BatchLength | lib/sys/linux/eventloop.cpp:254-303 | without throws and erasures the do-while ends after exactly one round more than the largest number of positive results of a single bit, all bits are cleared, and each was called once more than it returned a positive result |
| LoopFairness.PartialPass | lib/sys/linux/eventloop.cpp:259-301 | a batch with a stop entry makes one pass: slots before the entry are called at most once, slots behind it not at all |
| LoopFairness.ReturnsCovered | lib/sys/linux/eventloop.cpp:297-313 | execute has returned 0 at most as often as stop was called |
| LoopFairness.StopRemembered | lib/sys/linux/eventloop.cpp:308-313 | a stop stays pending through any steps, also before execute begins, until a stop entry is served |
| LoopLimits.StopCosts | lib/sys/linux/eventloop.cpp:297-301 | in every run, at every return through the stop entry, a watched source with work is covered afterwards if and only if its edge is pending or a drain on it is under way |
| LoopLimits.StopCostsLeftover | lib/sys/linux/eventloop.cpp:297-301 | in blameless runs those that are not are exactly those with a bit left in the batch and neither a pending edge nor a drain, and what the batch has left is recorded as given up |
| LoopLimits.StopForfeits | lib/sys/linux/eventloop.cpp:297-301 | a run after which execute waits again although a watched source holds work that nothing will report |
| EventLoopObject.EventLoop.constructor | lib/sys/linux/eventloop.cpp:24-40 | the object starts as the initial state of the transition system |
| EventLoopObject.EndsTheCall | lib/sys/linux/eventloop.cpp:264-278 | what leads out of a call in the batch is exactly its return or its exception, and a drain goes on exactly after a positive result |
| EventLoopObject.EventLoop.Store | lib/sys/linux/eventloop.cpp:55-87 | the in-place update of the handler map and epoll_ctl, for both directions, is the specified one |
| EventLoopObject.EventLoop.Register | lib/sys/linux/eventloop.cpp:59-88 | the locked part is exactly one add step, and a drain is due exactly when it returned 0 |
| EventLoopObject.EventLoop.AddEvent | lib/sys/linux/eventloop.cpp:49-96 | an empty function or descriptor -1 fails and changes nothing; otherwise the result is that of the registration, and after success the function has been called until it returned nothing positive |
| EventLoopObject.EventLoop.DrainHandler | lib/sys/linux/eventloop.cpp:90-95 | the drain ends with a result that is not positive, whatever the calls in between do to the loop |
| EventLoopObject.EventLoop.MaskEvents | lib/sys/linux/eventloop.cpp:177-187 | the loop with its break masks every slot of the batch that carries the pointer |
| EventLoopObject.EventLoop.Remove | lib/sys/linux/eventloop.cpp:162-175 | the in-place update of the handler map and epoll_ctl, with the pointer captured before the node is gone |
| EventLoopObject.EventLoop.Unregister | lib/sys/linux/eventloop.cpp:147-234 | -1 and no change when the direction is absent; otherwise exactly one erase step, with the batch masked |
| EventLoopObject.EventLoop.Stop | lib/sys/linux/eventloop.cpp:308-313 | exactly one stop step |
| EventLoopObject.EventLoop.RunCallback | lib/sys/linux/eventloop.cpp:264-296 | whatever a callback does re-entrantly, the position in the dispatch, the number of entries and the stop entries of the batch stay |
| EventLoopObject.EventLoop.BeginCall | lib/sys/linux/eventloop.cpp:263-265 | the function called is that of a live node and not null |
| EventLoopObject.EventLoop.EndCall | lib/sys/linux/eventloop.cpp:266-278 | a positive result counts and keeps the batch as it is, any other clears the bit, and a throw does neither |
| EventLoopObject.EventLoop.CallHandler | lib/sys/linux/eventloop.cpp:263-296 | a bit that is set means a call, whatever that does re-entrantly, which ends in one of those three ways |
| EventLoopObject.EventLoop.TestBit | lib/sys/linux/eventloop.cpp:263-296 | a bit that is not set is skipped in one step; a bit that is set leads to such a call |
| EventLoopObject.EventLoop.Round | lib/sys/linux/eventloop.cpp:258-302 | the for loop ends behind the last entry, with a choice of the script used up for every positive result, or at the stop entry |
| EventLoopObject.EventLoop.Dispatch | lib/sys/linux/eventloop.cpp:254-303 | the nested loops end, at the stop entry or with the loop waiting again |
| EventLoopObject.EventLoop.Execute | lib/sys/linux/eventloop.cpp:236-306 | execute refines the transition system over every script, so that it calls exactly the functions reported and still registered: it returns 0 only at a stop entry and -1 only after a failed wait, and gives up only where the script is over, or its next step is not possible or not admitted by the innermost callback or by epoll_wait |
| LoopClient.MoveKeepsOk | lib/sys/linux/eventloop.cpp:263-296 | a handler that returns nothing positive only once its source is empty stays honest whatever the rest of the program does meanwhile |
| LoopClient.WorkIsCovered | lib/sys/linux/eventloop.cpp:243-303 | work at the source of an honest handler means that it will be called again |
| NotifierObject.Notifier.Notify | lib/sys/linux/notifier.cpp:54-58 | 8 and one more in the counter, or -1 and no change when the counter is full |
| NotifierObject.Notifier.Process | lib/sys/linux/notifier.cpp:60-72 | the callbacks given are called in order, as often as the counter said, up to the first that throws, and it throws if and only if there is such a one; what they notify stays in the counter, exactly, and notified = run + counter + dropped is kept |
| NotifierObject.RegisteringIsCalm | lib/sys/linux/notifier.cpp:32-34 | the registration in the constructor, at any time of any run, makes the eventfd watched and a drain due |
| NotifierObject.DrainEnds | lib/sys/linux/notifier.cpp:32-34 | however much later, that drain can read the counter and end when nothing was notified |
| NotifierObject.ConstructedIsOk | lib/sys/linux/notifier.cpp:23-35 | the constructor undisturbed leaves the eventfd watched, nothing notified and no drain in progress |
| NotifierObject.ActKeepsOk | lib/sys/linux/notifier.cpp:54-72 | notified = run + counter + rests of the loops in progress is kept by every step of the notifier and of the event loop around it, with process() in the dispatcher and in drains |
| NotifierObject.NotificationsConserved | lib/sys/linux/notifier.cpp:54-72 | over every run notifications are conserved, and when the loop is blocked with nothing to report the callback ran as often as was notified |
| NotifierObject.NotifiedFromConstruction | lib/sys/linux/notifier.cpp:23-72 | the same for every run from the creation of the eventfd on, whatever happens between the registration and the end of its drain |
| Connection.ReadvTakesPrefix | lib/communication/linux/bufferedreader.cpp:46-47 | what readv hands over and what it leaves make up the stream; end of file and EAGAIN mean that the kernel's queue is empty |
| Connection.ReadvExactly | lib/communication/linux/bufferedreader.cpp:46-47 | it returns bytes if and only if some are in the queue or arrive, 0 if and only if the stream is empty and closed, and EAGAIN in all other cases that are no failure |
| BufferedReading.RecvConserves | lib/communication/linux/bufferedreader.cpp:21-56 | recv returns the next bytes of read-ahead buffer and kernel, at most as many as asked for, and never reads ahead more than 65536 |
| BufferedReading.RecvTakes | lib/communication/linux/bufferedreader.cpp:23-55 | what is read ahead is handed out as far as it goes and without a system call; with nothing read ahead one readv decides |
| BufferedReading.NotPositiveMeansDrained | lib/communication/linux/bufferedreader.cpp:23-55 | for a non-empty request nothing positive comes only when both layers are empty or the call failed for good; for an empty request 0 says nothing |
| BufferedReading.ReadAheadAgrees | lib/communication/linux/bufferedreader.cpp:21-56 | over any sequence of calls and lengths, short reads and errors, bytes returned, bytes read ahead and the kernel's bytes make up what the peer sent |
| BufferedReading.Channel.Readv2 | lib/communication/linux/bufferedreader.cpp:40-46 | the scattered read fills the caller's buffer first and the read-ahead buffer with the rest |
| BufferedReading.BufferedReader.Recv | lib/communication/linux/bufferedreader.cpp:21-56 | the object with its buffer, fill level and read position does what recv is proved to do, and stores the bytes in order without touching others |
| BufferedReading.BufferedReader.Refill | lib/communication/linux/bufferedreader.cpp:38-55 | one readv serves the request and reads ahead what is beyond it |
| TwoLayerDrain.ReceiveCounts | lib/communication/linux/bufferedreader.cpp:23-55 | a receive accounts for every byte of both layers, and takes all of them when it reports that there is nothing more |
| TwoLayerDrain.GivesUpExactly | lib/communication/linux/bufferedreader.cpp:38-55 | a receive gives up if and only if nothing is read ahead and readv fails |
| TwoLayerDrain.StartIsOk | lib/communication/linux/bufferedreader.cpp:15-19 | what every step keeps holds at the start, with both layers empty |
| TwoLayerDrain.ActKeepsOk | lib/communication/linux/socketnonblocking.cpp:270-273 | the event loop's view of the socket's unread work is the sum of both layers, through every step |
| TwoLayerDrain.BytesLeftAreCovered | lib/communication/linux/socketnonblocking.cpp:270-273 | over every run of a socket whose handler returns the result of a non-empty receive, bytes left in either layer mean that the handler is called again |
| SocketTransfers.SocketNonblocking.Poll | lib/communication/linux/socketnonblocking.cpp:67-80 | the first outcome of poll that is not an interruption decides the result, and no later one is used up |
| SocketTransfers.SocketNonblocking.Receive | lib/communication/linux/socketnonblocking.cpp:270-273 | hands the buffered reader's answer through |
| SocketTransfers.SocketNonblocking.ReceiveTurn | lib/communication/linux/socketnonblocking.cpp:280-304 | one turn stores the next bytes behind those stored, or finds the end of the stream; it fails if and only if readv failed for good or a wait gave up, and goes on with nothing stored exactly after EAGAIN and a wait that ended ready |
| SocketTransfers.SocketNonblocking.ReceiveLoop | lib/communication/linux/socketnonblocking.cpp:279-305 | the loop ends for every kernel script, with the bytes stored and those pending making up the stream at each turn, and fails only after a failing readv, a time-out or a failing poll |
| SocketTransfers.SocketNonblocking.ReceiveComplete | lib/communication/linux/socketnonblocking.cpp:275-307 | independent of fragmentation: the full size with exactly the next bytes of the stream, or all there was before its end, or -1, and that only after a failing readv, a time-out or a failing poll; when none of these comes and the stream has enough, the full size |
| SocketTransfers.HonestNeverFails | lib/communication/linux/socketnonblocking.cpp:287-303 | a transfer whose reads do not fail and whose waits do not give up, in scripts that go on, is never told to fail |
| SocketTransfers.EarlyEndExact | lib/communication/linux/socketnonblocking.cpp:285-286 | the count returned at the end of the stream is right if and only if it is below 2^31 |
| SocketTransfers.EarlyEndRun | lib/communication/linux/socketnonblocking.cpp:285-286 | a stream of 2^31 bytes or more that is read at once and then ends, for which the count returned is negative |
| SocketTransfers.SocketNonblocking.SendBlock | lib/communication/linux/socketnonblocking.cpp:400-439 | its length with all bytes on the wire, or -1 with a proper prefix of them; -1 only after a send that took nothing or was refused for good, or a wait that gave up, with one wait for each EAGAIN and none for EINTR |
| SocketTransfers.SocketNonblocking.SendOnce | lib/communication/linux/socketnonblocking.cpp:412-437 | one send: goes on after bytes taken, after EINTR, and after EAGAIN exactly if the wait ended ready, and fails otherwise |
| SocketTransfers.SocketNonblocking.SendSome | lib/communication/linux/socketnonblocking.cpp:333-350 | as many bytes as sendmsg took; EAGAIN and EINTR count as nothing written, and exactly 0 and other errors end the transfer |
| SocketTransfers.SocketNonblocking.Locate | lib/communication/linux/socketnonblocking.cpp:359-370 | the inner loop finds the block in which the written bytes end without stepping past the last one, with blocks of size zero too |
| SocketTransfers.SocketNonblocking.Skip | lib/communication/linux/socketnonblocking.cpp:356-370 | the blocks rewritten in place are the old payload without the bytes written |
| SocketTransfers.SocketNonblocking.SendTurn | lib/communication/linux/socketnonblocking.cpp:331-370 | after every turn the bytes on the wire and the rewritten blocks make up the same payload, and it ends the transfer exactly after a sendmsg that took nothing or was refused for good |
| SocketTransfers.SocketNonblocking.WaitForWritable | lib/communication/linux/socketnonblocking.cpp:373-376 | the transfer goes on exactly after a wait that ended ready, and fails after one that gave up |
| SocketTransfers.SocketNonblocking.SendBlocks | lib/communication/linux/socketnonblocking.cpp:310-380 | gather write refines one flat write: the total length with all blocks on the wire, or a prefix on the wire and exactly the rest in the caller's rewritten array; 0 only after a sendmsg that took nothing, -1 only after one refused for good or a wait that gave up, one ready wait between any two sends, and everything is sent when the sends make progress and the waits end ready |
| SocketTransfers.SocketNonblocking.SendBlockList | lib/communication/linux/socketnonblocking.cpp:384-398 | the overload for lists keeps the same promise and leaves the list alone |
| SocketTransfers.StepOver | lib/communication/linux/socketnonblocking.cpp:361-364 | stepping over a block leaves the same bytes to go, and one more block to look at |
| SocketTransfers.CutStep | lib/communication/linux/socketnonblocking.cpp:365-368 | cutting into a block leaves the same bytes to go |
| SocketTransfers.RoundTrip | lib/communication/linux/socketnonblocking.cpp:275-380 | when sendBlocks, the first on the connection or a later one, returned the total and the receiveComplete calls behind what was sent before add up to it, the received bytes are the blocks, for every fragmentation on both sides |
| SocketTransfers.ReceiveAll | lib/communication/linux/socketnonblocking.cpp:275-307 | successive receiveComplete calls of any sizes, all successful, hold consecutive pieces of the stream, and all succeed when no read fails, no wait gives up and the stream has enough |
| SocketTransfers.Transfer | lib/communication/linux/socketnonblocking.cpp:275-380 | one object sends blocks and a connected one receives them in buffers of any sizes: if all calls succeed the buffers hold the blocks, and they succeed when on both sides nothing fails and no wait gives up |
| TimerProtocol.PeriodSpecExact | lib/sys/linux/timer.cpp:56-66 | the itimerspec is exactly the period in nanoseconds, with tv_nsec below 10^9, and never zero for a period that is not |
| TimerProtocol.SetArms | lib/sys/linux/timer.cpp:50-73 | a set arms the timerfd for exactly the period given, repeatedly or once, and installs the function, or the do-nothing one for an empty function over an empty one |
| TimerProtocol.StepKeepsArming | lib/sys/linux/timer.cpp:50-112 | every step keeps what one function may see: true any number of times and then false at most once, and one call in all for a single shot |
| TimerProtocol.CallbackTraces | lib/sys/linux/timer.cpp:50-112 | that holds for each set in every run, with sets and cancels from within callbacks |
| TimerProtocol.NoCallAfterCancel | lib/sys/linux/timer.cpp:75-100 | nobody is called after a cancel is over, or failed, until the next set |
| TimerProtocol.ExpirationsCoalesce | lib/sys/linux/timer.cpp:102-112 | any number of expirations of a running timer, processed once, make exactly one call of its function |
| TimerProtocol.SetAfterEmptyIsMissed | lib/sys/linux/timer.cpp:67-71 | a function set while an empty one is in place is not called in any continuation |
| TimerProtocol.SetAfterEmptyRun | lib/sys/linux/timer.cpp:67-72 | a run in which that happens while the timer runs and expires |
| TimerProtocol.SetWhileCancellingNeverFires | lib/sys/linux/timer.cpp:88-97 | a set made from the callback of a cancel never fires, since that cancel disarms the timer afterwards |
| TimerProtocol.SetWhileCancellingRun | lib/sys/linux/timer.cpp:88-97 | a run in which a set from there installs its function and starts the timer, which the cancel then disarms |
| TimerProtocol.FiresExactly | lib/sys/linux/timer.cpp:50-112 | after any run, a function set for a period that is not zero can be called with true in some continuation if and only if no cancel is in progress and the previous function was not empty |
| TimerObject.Timer.Set | lib/sys/linux/timer.cpp:50-73 | -1 and no change for a period of zero, otherwise exactly one set step, which arms the timerfd for that many nanoseconds and, when repeated, for that interval, and installs the function given |
| TimerObject.Timer.SetDuration | lib/sys/linux/timer.cpp:45-48 | the 64-bit count is cut down to 32 bits, so it fails exactly for multiples of 2^32 and otherwise arms for what is left |
| TimerObject.Timer.Cancel | lib/sys/linux/timer.cpp:75-100 | 1 exactly if the timer was running, whose function then was called with false first, once and after being replaced; nobody is called otherwise, and the timer is disarmed at the end whatever that call did |
| TimerObject.Timer.Process | lib/sys/linux/timer.cpp:102-112 | one read; exactly one call with true if there was an expiration and a function, however its callback sets and cancels, and none otherwise; an exception exactly for an empty function |
| TimerObject.Timer.RunCallback | lib/sys/linux/timer.cpp:88-111 | the sets and cancels a callback makes nest and are exactly the set and cancel steps of the protocol meanwhile, in their order, up to the return of the callback |
| TimerObject.Timer.Traces | lib/sys/linux/timer.cpp:50-112 | at any time each function has seen what the protocol allows |
| TimerInLoop.ActKeepsOk | lib/sys/linux/timer.cpp:26-37 | the event loop's view of the timerfd's unread work is the number of expirations not read, through sets and cancels from anywhere |
| TimerInLoop.ExpirationsAreCovered | lib/sys/linux/timer.cpp:102-112 | over every blameless run with a timer in the loop, it follows its protocol, and an expiration not read means that process() will be called |
| TimerInLoop.TimerServed | lib/sys/linux/timer.cpp:26-112 | from its creation on each function sees what the protocol allows, and no expiration waits when the loop is blocked with nothing to report |
| Splitting.FindFirst | lib/string/split.cpp:41 | find gives the first occurrence at or behind the position, or there is none |
| Splitting.Split | lib/string/split.cpp:28-48 | the loop gives the tokens between the separators found from the left; an empty separator splits nothing |
| Splitting.SplitChar | lib/string/split.cpp:12-26 | the same for a single character |
| Splitting.JoinTokens | lib/string/split.cpp:28-48 | joining the tokens gives the text back, for every text and non-empty separator |
| Splitting.TokensJoin | lib/string/split.cpp:28-48 | splitting joined tokens gives them back if and only if the separator first occurs behind each token and not in the last |
| Splitting.CharTokens | lib/string/split.cpp:12-26 | one token more than there are separators, all free of them |
| Splitting.CharTokensJoin | lib/string/split.cpp:12-26 | for a character the tokens come back if and only if none contains it |
| Replacing.Replace | lib/string/replace.cpp:20-28 | the in-place loop, for any number of turns |
| Replacing.Ends | lib/string/replace.cpp:20-28 | it ends for every text when the substitute is shorter than twice a non-empty search string |
| Replacing.ConsumesRest | lib/string/replace.cpp:23-26 | each turn takes some of the text not looked at yet, when the substitute holds no search string behind the length of the search string |
| Replacing.NeverEnds | lib/string/replace.cpp:23-26 | when it does, a text with something to find never runs out of it |
| Replacing.TerminatesExactly | lib/string/replace.cpp:20-28 | the loop ends for every text if and only if the search string is not empty and does not occur in the substitute from its own length on |
| Replacing.EmptySearchNeverEnds | lib/string/replace.cpp:20-28 | it never ends for an empty search string |
| Replacing.ExchangedIsExpected | lib/string/replace.cpp:20-28 | exchanging from left to right is splitting by the search string and joining with the substitute |
| Replacing.ExchangesAll | lib/string/replace.cpp:20-28 | for exchangeable strings the loop exchanges exactly the occurrences in the original text |
| Replacing.TooSeldom | lib/string/replace.cpp:25 | a shorter substitute steps over the next occurrence |
| Replacing.TooOften | lib/string/replace.cpp:25 | a longer substitute whose tail may begin an occurrence is replaced again |
| Replacing.ReplaceExact | lib/string/replace.cpp:20-28 | replace does what is documented for every text if and only if the two strings are exchangeable |
| Replacing.ReplaceChar | lib/string/replace.cpp:14-18 | for characters it always is splitting and joining, character by character |
| Bits.BitAndBits | lib/communication/ipv4address.cpp:158 | every bit of the and is set if and only if it is set in both operands |
| Bits.IsMask | lib/communication/ipv4address.cpp:199-214 | a number is the mask of p ones if and only if its upper p bits are set and the others are not |
| Bits.MaskedEqual | lib/communication/ipv4address.cpp:158 | under a mask numbers agree if and only if their upper bits do, for any width |
| Decimal.ReadPrinted | lib/communication/ipv4address.cpp:152-159 | std::stoul reads back what std::to_string printed |
| Decimal.ReadForms | lib/communication/ipv4address.cpp:152-153 | white space and a sign before the digits and anything behind them are accepted, and a minus wraps around |
| Decimal.ReadNothing | lib/communication/ipv4address.cpp:152-153 | without a digit there is no conversion |
| Ipv4Addresses.HugeOctet | lib/communication/ipv4address.cpp:152-157 | a printed number passes for an octet if and only if it is at most 255 modulo 2^32 |
| Ipv4Addresses.ParsedPrint | lib/communication/ipv4address.cpp:180-182 | printed addresses are read back, so different addresses print differently |
| Ipv4Addresses.PrintOrder | lib/communication/ipv4address.cpp:180-182 | the octets are printed with the most significant first |
| Ipv4Addresses.PrefixOfEight | lib/communication/ipv4address.cpp:165-183 | so that prefix 8 prints "255.0.0.0" |
| Ipv4Addresses.GetSubnet | lib/communication/ipv4address.cpp:139-163 | the loop over the parts: the subnet, "" for parts missing or beyond 255, or an exception, whichever comes first |
| Ipv4Addresses.SubnetIsAnd | lib/communication/ipv4address.cpp:139-163 | a text results if and only if address and netmask can be read, and it is the and of the two 32-bit numbers, printed canonically; without four parts each it is "" |
| Ipv4Addresses.SubnetFailsExactly | lib/communication/ipv4address.cpp:147-157 | the first of the four parts that is no octet decides: an exception if std::stoul cannot convert it in the address or in the netmask, otherwise "" |
| Ipv4Addresses.SubnetIdempotent | lib/communication/ipv4address.cpp:139-163 | the subnet of a subnet is itself |
| Ipv4Addresses.SameSubnetExactly | lib/communication/ipv4address.cpp:139-163 | under the netmask of a prefix two addresses have the same subnet text if and only if their upper bits agree |
| Ipv4Addresses.MaskOfPrefix | lib/communication/ipv4address.cpp:171-178 | the loop makes the mask of that many ones, for a word of any width, without losing bits to the shift |
| Ipv4Addresses.GetNetmaskFromPrefix | lib/communication/ipv4address.cpp:165-183 | the printed mask, or "" for a prefix beyond 32 |
| Ipv4Addresses.PrefixOfMask | lib/communication/ipv4address.cpp:199-215 | accepts exactly the masks of ones followed by zeros and returns the number of ones, for a word of any width |
| Ipv4Addresses.GetPrefixFromNetmask | lib/communication/ipv4address.cpp:185-216 | inverts getNetmaskFromPrefix for every prefix; an accepted netmask is the mask of the prefix it returns, which prints as the same text when that was canonical |
| NetadapterLists.CountPrefix | lib/communication/linux/netadapterlist.cpp:186-200 | counts the bits set before the first byte that is zero |
| NetadapterLists.OnesAreBits | lib/communication/linux/netadapterlist.cpp:190-196 | the ones counted in a byte are the bits that are set |
| NetadapterLists.StopsAtZero | lib/communication/linux/netadapterlist.cpp:186-189 | nothing behind a zero byte counts |
| NetadapterLists.CountsPrefix | lib/communication/linux/netadapterlist.cpp:185-202 | that is the prefix for every netmask of ones followed by zeros, of any number of bytes |
| NetadapterLists.ScanExactly | lib/communication/linux/netadapterlist.cpp:274-278 | the first address that shares the subnet or throws decides |
| NetadapterLists.CheckSubnet | lib/communication/linux/netadapterlist.cpp:265-282 | the first adapter in index order that is not excluded and decides, "" if none does, or the exception of getSubnet |
| NetadapterLists.NoConflictExactly | lib/communication/linux/netadapterlist.cpp:265-282 | "" if and only if no adapter but the excluded one has an address in the subnet, otherwise the name of the one with the lowest index, whatever the excluded adapter holds |

## Left out

- All Windows variants.
- Socket setup, connect, options, name resolution, multicast and TCP servers, netlink: system-call plumbing.
- trim, pidfile, executeCommand, exceptions and tools: they would only add easy members.
- Exceptions thrown by a handler in the drain of addEvent, by the constructors and out of memory. In a batch they are steps of the model.
- A function object that is replaced or erased while it runs: the model identifies functions, not their lifetime.
- EventLoopObject.EventLoop.Execute: does not model drains of different threads that overlap without nesting; those are runs of LoopSystem, for which the theorems hold too.
- Threads share the object one locked step at a time. That epoll_wait and the store of its result happen before the lock is taken is one atomic step here.
- EPOLL_CTL_MOD and DEL are taken to succeed on descriptors of the interest set. Descriptor numbers reused by other threads between close and eraseEvent are not considered.
- disconnect is not a member: it is a close followed by two erasures, each of which is a step of the loop. Stream properties are stated for one connection; disconnect does not reset the read-ahead buffer.
- clearOutDataCb clears the wrong direction (lib/communication/linux/socketnonblocking.cpp:130); that line is not modelled.
- Sizes are unbounded, so sums of block sizes do not overflow size_t. The number of blocks per sendmsg is not limited either, and MSG_MORE has no effect on what is sent.
- SocketTransfers.SocketNonblocking.SendBlockList: does not model the empty list, for which the code takes the address of the first element of an empty vector.
- SocketTransfers.SocketNonblocking.ReceiveComplete: does not model the passing of time; a time-out is one of the outcomes of poll.
- NotifierObject.Notifier.Process: does not model what callbacks do besides notifying and throwing.
- TimerObject.Timer.Set: does not model a failing timerfd_settime, and time is a matter of when expirations are counted.
- TimerObject.Timer.Process: does not model exceptions of user functions.
- Replacing.Replace: does not run without a bound on its turns, because the loop need not end; None says that it is not over yet.
- Ipv4Addresses.GetPrefixFromNetmask: does not model the grammar of inet_addr (fewer parts, octal, hexadecimal); its result is a parameter that has to agree with what inet_ntoa prints. Byte order conversions cancel out and are left out.
- isValidManualAddress, isApipaAddress, isValidNetmask and equal: branches over the result of inet_aton.
- NetadapterLists.CheckSubnet: does not model how update fills the list; adapters come in the order of the map.
- The FireWire GUID of netadapterlist.cpp.
