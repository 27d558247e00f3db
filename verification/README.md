# A verified model of the summer network library

summer is a reactor network library in the style of muduo: an event loop with a task queue and
a timer queue, two pollers, buffered TCP connections, a connector that retries, and on top of
them a publish/subscribe hub. This project models those parts in Dafny and proves what they
guarantee over every run. `dafny verify dfyconfig.toml` checks all of it.

Each part that changes state appears twice. A state machine on values has one function per
operation, and a run is a sequence of its steps; the theorems about runs are lemmas about it. A
class with the fields and member functions of the source is proved to make exactly the steps of
that machine, so the theorems hold of it; where the class keeps a trace, they are also stated of
the object.

## Two readings of the source

Some statements of the library visibly miss their intent. Operations that contain one take a
`Reading`: `AsWritten` executes the statement as it stands in the file, `Intended` the one that
was evidently meant. Every other statement is the same under both, and a theorem that mentions
no reading in its hypotheses holds for both. For each such statement a lemma says exactly when
the code as it stands does what was meant:

| statement | as written | exactly when it is harmless |
|---|---|---|
| net/Buffer.h:162 | makespace grows to `writeableBytes() + more`, not to `writeIndex_ + more` | `Buffers.AppendSucceedsIff`, `Buffers.ReadSucceedsIff` |
| net/Buffer.h:103 | append asserts one byte more than it needs | `Buffers.AppendSucceedsIff`, `Buffers.ReadSucceedsIff` |
| net/hub/codec.cc:31 | tests the first CRLF again, not the second | `Codec.ParseAsWrittenIff`, `Codec.FragmentationAsWrittenIff`, `Hub.ServeAsWrittenIff` |
| net/TimerQueue.cc:200, 213 | dereferences the end iterator for an id that is not active | `TimerFiring.FaultIffMissingCancel` |
| net/TcpConnection.cc:87 | calls `shutdown()`, which does nothing in this state | `Connections.DrainedIsHalfClosedIff` |

Lines 125 and 250 of net/TimerQueue.cc copy a time from the end iterator before they compare the
iterator with `end()`; the value is used only if the iterator is not the end, so the model has
no such read.

Other statements are modelled as they stand, under both readings, with the exact condition under
which they meet the intent: net/TimerQueue.cc:33-36 does not clamp a deadline that has passed
(`Timestamps.ArmIsTimelyIff`, `TimerArming.ArmedAfterAddIff`, `TimerArming.ArmedAfterBatchIff`);
net/EventLoop.cc:128 wakes the loop only for calls from its own thread during doPendingFunctor
(a sleeping loop holds only tasks queued without a wakeup, `EventLoops.SleepsOnlyOnUnwoken`, and
in every such state a task so queued waits, `EventLoops.UnwokenTaskWaits`);
net/poller/PollPoller.cc:57-63 mutes a slot and never un-mutes it (`Registry.SameInterestIff`), and
neither poller resets the index of a removed channel.

The machine of a connection's output has a plain sequence for its buffer, so that there the reading
concerns net/TcpConnection.cc:87 alone; the class has the real buffer, and a run of it ends where
append fails, which `TcpConnections.TcpConnection.SendInLoop` states exactly. The machines of the
receiving side have the buffer's size and read index, and all its statements.

A machine's fields record what its steps do. Lemmas tie each such record to the steps of the run:
what a caller asked of addTimer (TimerRequests), which tasks were queued and when quit was called
(EventLoops), which messages were sent and what a write took of them (Connections), and the lines
that were received (Codec).

Where the source asserts, the classes assert, and the verifier proves that the assertions cannot
fail; the state machines check the same conditions and record a violation as a fault.

## The files

| file | content |
|---|---|
| Prelude.dfy | options, readings, sequences of steps |
| Timestamp.dfy, TimerModel.dfy, TimerInvariants.dfy, TimerFiring.dfy, TimerRequests.dfy, TimerArming.dfy, TimerCancelling.dfy, TimerQueue.dfy | the timer queue |
| EventLoop.dfy, LoopClass.dfy | the task queue and its wakeup, with interleaved threads |
| Registry.dfy, Pollers.dfy | channels and the two pollers |
| Buffer.dfy | the byte buffer |
| Connection.dfy, TcpConnection.dfy | the output path and states of a connection |
| ConnectorModel.dfy, Connector.dfy | the connector |
| Codec.dfy, Hub.dfy, HubServer.dfy | wire format, hub and client |

System calls, the allocator and the clock are arguments: what a write accepts, what readv
delivers, which address `new Timer` returns, what the clock shows.

## Model

| member | source | states |
|---|---|---|
| Timestamps.SplitReconstructsDelay | net/TimerQueue.cc:31-43 | the truncating split into seconds and nanoseconds adds up to the delay for every pair of times, and is a value timerfd_settime accepts exactly if the deadline has not passed |
| Timestamps.ArmMeaning | net/TimerQueue.cc:57-76 | resetTimerfd arms for a future deadline, disarms for the present one, and changes nothing for a past one |
| Timestamps.ArmIsTimelyIff | net/TimerQueue.cc:57-76 | the descriptor fires no later than the deadline exactly if that is in the future, or has passed and an earlier deadline was left standing |
| TimerModel.First | net/TimerQueue.cc:249 | begin() of the ordered set is its least entry |
| TimerInvariants.SortedIsEnumeration | net/TimerQueue.cc:129 | copying a range of the ordered set lists each element once, in increasing order |
| TimerInvariants.SameSize | net/TimerQueue.cc:120 | indexes that hold the same timers have the same size, as asserted at the head and foot of the operations |
| TimerInvariants.InsertKeepsInv | net/TimerQueue.cc:241-272 | for a live timer that is not pending the assertions of insert hold, the timer becomes pending in both indexes, and no other timer is affected |
| TimerInvariants.CancelKeepsInv | net/TimerQueue.cc:192-217 | cancelInLoop keeps both indexes in agreement and every timer in one place; it faults exactly as written for an id that is not active |
| TimerInvariants.ExpireKeepsInv | net/TimerQueue.cc:118-153 | the assertions of getExpired hold, and the timers it takes leave both indexes for the batch |
| TimerInvariants.ResetOneKeepsInv | net/TimerQueue.cc:159-172 | a turn of reset moves its timer back into the indexes or frees it, and keeps all else in place |
| TimerInvariants.ResetAllKeepsInv | net/TimerQueue.cc:155-172 | the loop of reset leaves no timer outside the indexes and the insertion queue, and touches nothing else |
| TimerInvariants.StepKeepsInv | net/TimerQueue.cc:94-272 | every step, also of other threads and of callbacks in the middle of a batch, keeps the invariant, and faults exactly for a missing id cancelled as written |
| TimerInvariants.RunKeepsInv | net/TimerQueue.cc:94-272 | the invariant holds after every run |
| TimerFiring.FaultIffMissingCancel | net/TimerQueue.cc:192-217 | in every run all assertions hold and no freed timer is accessed, except that as written the run stops exactly where an id is cancelled that is not active |
| TimerFiring.EveryTimerInOnePlace | net/TimerQueue.cc:94-272 | at any time a created timer is in exactly one of: queued for insertion, pending, in the batch, freed; and no timer is freed twice |
| TimerFiring.IndexesAlwaysAgree | net/TimerQueue.cc:118-272 | timers_ and activeTimers_ hold the same timers at any time, each under its current expiration and sequence |
| TimerFiring.ExpireTakesExactlyDue | net/TimerQueue.cc:94-153 | handleRead takes exactly the entries not later than now, in the order of the set, and leaves the others; a deadline of the descriptor that has been reached is used up, a later one stands |
| TimerFiring.BatchEndsIn | net/TimerQueue.cc:155-172 | after the batch a repeating timer that was not cancelled is pending for one interval after the batch, any other timer of the batch is freed, and the rest are untouched |
| TimerFiring.FiringDiscipline | net/TimerQueue.cc:94-185 | in every run: no timer runs early or in a batch taken before it was created, batches run in the order of expiration, a one-shot timer runs once, and runs of a repeating timer are at least its interval apart |
| TimerRequests.TimersRunAsAsked | net/TimerQueue.cc:94-239 | in every run, by the requests and the clock readings of the run's own steps: a timer runs no earlier than asked and in no batch begun before it was asked for; one asked for once runs at most once; runs of one asked to repeat are in different batches and at least the asked interval apart |
| TimerRequests.AddMakesWhatWasAsked | net/Timer.h:18-30 | addTimer makes a timer with the time, kind and interval that were asked for and the next sequence number, and touches no other |
| TimerRequests.AddIsPending | net/TimerQueue.cc:219-239 | called in the loop thread, it makes the timer pending for the asked time at once |
| TimerRequests.PostsAreQueued | net/TimerQueue.cc:187-227 | called in another thread, it queues the insertion, as cancel queues its request |
| TimerRequests.InsertTaskIsPending | net/TimerQueue.cc:229-239 | when the loop comes to a queued insertion, the timer becomes pending for its time |
| TimerRequests.QueueIsFifo | net/TimerQueue.cc:187-227 | the queue holds what other threads queued and the loop has not executed, in order |
| TimerRequests.WhatCanHappen | net/TimerQueue.cc:94-239 | in a state without a fault every request can be made, and outside and inside handleRead its next step can happen |
| TimerRequests.BatchRunsAll | net/TimerQueue.cc:105-115 | when the loop of handleRead is through, each timer of the batch has run in it once, in order |
| TimerRequests.BatchEndsAsAsked | net/TimerQueue.cc:155-172 | a timer of the batch is pending for the batch's clock reading plus the asked interval exactly if it was asked to repeat and no cancel of it was asked for since the batch began; otherwise it is freed |
| TimerFiring.CancelTakesHoldIffNotQueued | net/TimerQueue.cc:192-217 | in every reachable state, processing a cancel dooms its timer exactly if the timer is not still queued for insertion; otherwise it affects no timer |
| TimerFiring.CancelIsPrecise | net/TimerQueue.cc:197-214 | a cancel affects no timer with another address or sequence, so a stale id is harmless when its address is used again |
| TimerFiring.CancelledNeverRunsLater | net/TimerQueue.cc:107-172 | a doomed timer runs in no later batch, and not at all if no batch was in progress, however the run goes on |
| TimerCancelling.QueuedCancelFindsTimer | net/TimerQueue.cc:187-227 | a cancel queued by another thread with an id it got from addTimer frees its timer, if that is live still when the loop comes to the request, because the queue is first in, first out |
| TimerCancelling.QueuedCancelFaultsIff | net/TimerQueue.cc:187-227 | as written such a request stops the process exactly if its timer is live no more |
| TimerCancelling.EarlyCancelMisses | net/TimerQueue.cc:192-217 | a cancel made in the loop thread for a timer that another thread has just added has no effect |
| TimerCancelling.CancelInBatchFaults | net/TimerQueue.cc:197-214 | as written, cancelling a timer of the current batch faults, in every reachable state |
| TimerCancelling.SelfCancelFaults | net/TimerQueue.cc:197-214 | a repeating timer that cancels itself: the run that faults as written and dooms the timer as intended |
| TimerArming.ArmedAfterAddIff | net/TimerQueue.cc:229-239 | after adding a timer the descriptor is armed in time exactly if an earlier timer is pending, or the deadline is in the future, or it has passed and an earlier deadline was left standing; a new earliest deadline in the future is armed for exactly |
| TimerArming.LateAddIsNotArmed | net/TimerQueue.cc:229-239 | a timer added to an empty queue when its deadline is reached is pending with nothing armed |
| TimerArming.LostTimerStaysLost | net/TimerQueue.cc:229-239 | in every reachable state a timer that is pending with nothing armed stays so, however the run goes on while the clock does not run back and the timer is not cancelled, so that no batch begins |
| TimerArming.ArmedAfterBatchIff | net/TimerQueue.cc:174-184 | after a batch the descriptor is armed in time exactly under a condition on the clock reading of resetTimerfd |
| TimerArming.PunctualRunIsArmed | net/TimerQueue.cc:94-239 | outside handleRead a pending timer implies a descriptor armed no later than the earliest expiration, in every run whose resetTimerfd calls meet deadlines still in the future |
| TimerArming.LateResetLosesTimers | net/TimerQueue.cc:31-43 | without that condition a run leaves a timer pending and the descriptor not armed in time |
| TimerQueues.TimerQueue.Insert | net/TimerQueue.cc:241-272 | does what the model does, and reports whether the earliest expiration changed |
| TimerQueues.TimerQueue.AddTimerInLoop | net/TimerQueue.cc:229-239 | inserts and arms as the model does |
| TimerQueues.TimerQueue.CancelInLoop | net/TimerQueue.cc:192-217 | erases and frees, or notes the id during a batch, as the model does |
| TimerQueues.TimerQueue.GetExpired | net/TimerQueue.cc:118-153 | returns the due entries in order and removes exactly them and their keys |
| TimerQueues.TimerQueue.Reset | net/TimerQueue.cc:155-185 | re-inserts or frees each timer of the batch and arms, as the model does |
| TimerQueues.TimerQueue.RunQueued | net/TimerQueue.cc:187-239 | the loop executes what another thread's addTimer or cancel queued |
| TimerQueues.TimerQueue.HandleRead | net/TimerQueue.cc:94-116 | for any callbacks, handleRead is a run of the model |
| EventLoops.StepKeepsCovered | net/EventLoop.cc:108-174 | every step keeps: from the swap to the return of poll each queued task has its wakeup written or about to be written by the thread that queued it |
| EventLoops.StepKeepsFifo | net/EventLoop.cc:121-152 | every step keeps executed tasks, rest of the batch and queue, in this order, equal to the tasks queued so far |
| EventLoops.RunKeepsInv | net/EventLoop.cc:77-174 | the invariants hold in every interleaving |
| EventLoops.NoLostWakeup | net/EventLoop.cc:85-174 | when the loop is in poll and a task is queued that runInLoop posted, or the loop thread queued while looping, the eventfd is readable or the task's poster is about to write it |
| EventLoops.SleepsOnlyOnUnwoken | net/EventLoop.cc:121-133 | a loop left asleep leaves only tasks queued directly from another thread or before loop() |
| EventLoops.UnwokenTaskWaits | net/EventLoop.cc:121-133 | in every reachable state in which the loop sleeps, a task queued directly from another thread stays in the queue and the loop asleep, however the run goes on without runInLoop and without poll returning by itself |
| EventLoops.OnlyRunInLoopWakes | net/EventLoop.cc:108-133 | of the pushes of other threads exactly that of queueInLoop leaves a sleeping loop asleep; the one of runInLoop is followed by a wakeup |
| EventLoops.UnwokenTasksAreLeft | net/EventLoop.cc:121-133 | two short runs that leave such a task, one queued from another thread and one before loop() |
| EventLoops.ExactlyOnceInOrder | net/EventLoop.cc:121-152 | tasks run exactly once and in the order of queueing, at every step of every interleaving |
| EventLoops.RunsInTheNextBatch | net/EventLoop.cc:135-152 | a task runs in the batch taken next after it was queued, not in the running one and not later |
| EventLoops.BatchIsFixed | net/EventLoop.cc:146-149 | while a batch lasts, the tasks begun are exactly those it had left, whatever is queued meanwhile |
| EventLoops.HistoryIsQueuings | net/EventLoop.cc:108-133 | the tasks in the history are those that the steps of the run queued, in order, each with where it came from |
| EventLoops.LoopEndsIffQuit | net/EventLoop.cc:77-106 | the test of the loop leaves it exactly if quit() was called since it was entered |
| EventLoops.LoopGoesOn | net/EventLoop.cc:77-106 | once entered, the loop goes on as long as nobody calls quit(), whatever else happens |
| EventLoops.LoopGetsOn | net/EventLoop.cc:135-152 | doPendingFunctor is never stuck: it swaps the queue out, runs each functor in its turn, and comes to its end |
| EventLoops.CounterCountsWrites | net/EventLoop.cc:154-174 | the eventfd counts the wakeups since it was last read, up to its maximum |
| EventLoops.PollReportsWrites | net/EventLoop.cc:85-100 | poll reports the eventfd exactly if it was written since it was last read; it is then read before the functors are called |
| EventLoops.LoopQueueWakesIff | net/EventLoop.cc:121-133 | queueInLoop in the loop thread is followed by a wakeup exactly if functors are being called |
| LoopClass.EventLoop.WakesForTasks | net/EventLoop.cc:85-174 | of the object: in poll, a queued task posted with runInLoop, or queued in the loop thread while looping, has its wakeup written or about to be |
| LoopClass.EventLoop.RunsInOrder | net/EventLoop.cc:121-152 | of the object: its tasks run exactly once and in the order of queueing; outside doPendingFunctor those run and those queued are all |
| LoopClass.EventLoop.RunInLoop | net/EventLoop.cc:108-119 | from another thread: the task is queued behind all others and the eventfd written afterwards, with any interference between |
| LoopClass.EventLoop.QueueInLoop | net/EventLoop.cc:121-133 | in the loop thread: the task is queued behind all others, and the wakeup follows exactly if functors are being called |
| LoopClass.EventLoop.DoPendingFunctor | net/EventLoop.cc:135-152 | runs, in order and once each, exactly the tasks that it swaps out, among them all that were queued before, whatever other threads and the tasks themselves do meanwhile |
| LoopClass.EventLoop.Turn | net/EventLoop.cc:85-100 | a turn of the loop has run, at its end, everything that was queued when poll returned, in order; it ends the loop exactly if quit() was called in it, or before it and since the loop was entered |
| LoopClass.EventLoop.Loop | net/EventLoop.cc:77-106 | loop() keeps the object a run of the protocol over any number of turns, runs all that was queued before it, and ends exactly if quit() is called in one of them |
| Registry.DispatchInOrder | net/Channel.cc:37-76 | handleEvent calls the close, error, read and write callbacks in this order, under these conditions |
| Registry.SameRegistrations | net/poller/PollPoller.cc:27-98 | after any calls the two pollers register the same descriptors with the same interest, and a slot is muted exactly if an update took all interest since the registration |
| Registry.CallsDoWhatTheySay | net/poller/PollPoller.cc:27-98 | an update registers its descriptor with the given interest in both pollers and touches no other; an accepted removal takes just it out of both |
| Registry.SameInterestIff | net/poller/PollPoller.cc:57-63 | the pollers watch the same events of a descriptor exactly if it was not enabled again after such an update |
| Registry.SameRemovalIff | net/poller/PollPoller.cc:72-78 | the assertions of both pollers accept the same removals, except of a descriptor registered with no interest and never given any |
| Registry.WherePollersPart | net/poller/EpollPoller.cc:93-128 | two short traces on which the pollers differ |
| Pollers.PushBack | net/poller/PollPoller.cc:32-43 | a new slot keeps slots, indexes and map in one-to-one correspondence |
| Pollers.ChangeSlot | net/poller/PollPoller.cc:47-63 | an update of a registered channel keeps the correspondence and mutes exactly for no interest |
| Pollers.SwapRemoveKeeps | net/poller/PollPoller.cc:81-96 | swap-removal keeps the correspondence, and every other registration |
| Pollers.PollPoller.UpdateChannel | net/poller/PollPoller.cc:27-66 | registers or changes the channel, for a known channel, and no other; the assertions hold |
| Pollers.PollPoller.RemoveChannel | net/poller/PollPoller.cc:68-98 | removes exactly the channel's registration; the assertions hold; the channel keeps its index and is not accepted again |
| Pollers.PollPoller.FillActiveChannels | net/poller/PollPoller.cc:121-141 | the scan that stops at numEvents reports every ready channel exactly once, with its events, in slot order |
| Pollers.EpollPoller.UpdateChannel | net/poller/EpollPoller.cc:93-116 | map and kernel list change together, for a known channel; the assertions hold |
| Pollers.EpollPoller.RemoveChannel | net/poller/EpollPoller.cc:118-128 | removes exactly the channel from map and kernel list; the channel is not accepted again |
| Pollers.EpollPoller.FillActiveChannels | net/poller/EpollPoller.cc:77-91 | the assertions of the dispatch hold, and each event's channel is reported once with its events |
| Pollers.PollPoller.MutedIffDisabled | net/poller/PollPoller.cc:57-63 | of the object: a slot is muted exactly if an update took all interest since the registration |
| Pollers.EpollPoller.AgreesWith | net/poller/EpollPoller.cc:93-128 | of two objects that were given the same calls: same descriptors, same interest, and the same events watched exactly if not enabled again after a mute |
| Buffers.AppendSucceedsIff | net/Buffer.h:96-174 | with the intended statements append always succeeds; as written exactly if a byte is left over before makespace or after compaction, or more than half of the vector was writeable when it grows |
| Buffers.AppendAsWrittenFails | net/Buffer.h:96-174 | two buffers on which append as written violates its assertion, or leaves the vector |
| Buffers.ReadSucceedsIff | net/Buffer.cc:17-44 | with the intended statements every read succeeds; as written exactly those that fit behind the write index, or leave a byte to spare when the vector is compacted |
| Buffers.FindCRLF | net/Buffer.h:55-67 | the first CRLF at or after the start, or none |
| Buffers.Buffer.Swap | net/Buffer.h:28-33 | exchanges the contents |
| Buffers.Buffer.Retrieve | net/Buffer.h:69-73 | drops characters from the front |
| Buffers.Buffer.RetrieveAsString | net/Buffer.h:88-94 | returns the contents and empties the buffer |
| Buffers.Buffer.Compact | net/Buffer.h:166-172 | the overlapping copy from the front moves the contents unchanged, for a read index beyond the prepend area |
| Buffers.Buffer.MakeSpace | net/Buffer.h:158-174 | as append calls it, the compaction branch meets that condition, and the contents survive whenever the vector still holds the write index |
| Buffers.Buffer.Append | net/Buffer.h:96-107 | ends as AppendSucceedsIff says, and on success puts the data behind the contents |
| Buffers.Buffer.Prepend | net/Buffer.h:114-120 | puts the data in front of the contents exactly if its assertion holds |
| Buffers.Buffer.Shrink | net/Buffer.h:122-132 | keeps the contents in a vector of the asked size |
| Buffers.Buffer.ReadFd | net/Buffer.cc:17-44 | fails exactly as ReadSucceedsIff says; otherwise adds exactly the bytes read, in order, across the tail and the extra block; nothing on an error |
| Connections.OutputConserved | net/TcpConnection.cc:65-228 | for any sends, from any thread, and any partial or failed writes: bytes given to the socket, then the output buffer, are the messages of the sends carried out, in order |
| Connections.SendTakesWhatIsWritten | net/TcpConnection.cc:190-228 | a message sent when nothing waits: what the write takes goes to the socket, and exactly the rest waits, with write interest; a failed write takes nothing |
| Connections.SendWaitsBehindOutput | net/TcpConnection.cc:190-228 | while output waits, a message is put behind it and nothing is written |
| Connections.SendOnlyWhileConnected | net/TcpConnection.cc:147-162 | send() does that while connected, and otherwise nothing |
| Connections.WritableTakesWhatIsWritten | net/TcpConnection.cc:65-105 | what a write takes of the output leaves the buffer, and no more; without write interest, or on a failure, nothing happens |
| Connections.StatusOnlyAdvances | net/TcpConnection.cc:107-274 | no step takes the connection to an earlier state |
| Connections.StatusAfterStep | net/TcpConnection.cc:107-274 | the steps that change the state, and to what; the channel is removed exactly by connectionDestroyed |
| Connections.ShutdownHalfClosesIff | net/TcpConnection.cc:230-247 | shutdown() of a connected connection half-closes it at once exactly if nothing waits |
| Connections.ClosedWritesNothing | net/TcpConnection.cc:107-120 | after closing, nothing is written, sent or half-closed but by sends that other threads queued |
| Connections.EventWritesIffWritable | net/Channel.cc:46-73 | an event that does not close the connection is a write exactly if it reports the socket writable |
| Connections.WriteInterestIffOutput | net/TcpConnection.cc:65-274 | in every run, with sends from any thread: until the connection is closed, write interest is on exactly while output waits; and read interest is on exactly while the connection is established |
| Connections.NothingAfterHalfClose | net/TcpConnection.cc:65-247 | shutdownWrite is first issued with all output given to the socket; from then on more is sent exactly if another thread's non-empty message arrives late, and otherwise it is not issued again and no byte is given to the socket |
| Connections.CompletionIffDrained | net/TcpConnection.cc:77-82 | in every run the write-complete callback is queued by exactly the writes that leave nothing unsent, of send, of a send queued by another thread, and of handleWrite |
| Connections.DrainedIsHalfClosedIff | net/TcpConnection.cc:85-88 | in every run a drained connection on which shutdown was asked is half-closed always as intended, and as written exactly if nothing waited at shutdown() |
| Connections.LateDrainIsNotHalfClosed | net/TcpConnection.cc:85-88 | a run on which the line as written leaves the connection open |
| Connections.QueuedSendAfterHalfClose | net/TcpConnection.cc:147-162 | a send queued by another thread can follow the half-close |
| Connections.ClosingEventWritesNothing | net/Channel.cc:46-73 | an event that closes the connection hands nothing to the socket, even if it also reports it writable |
| TcpConnections.TcpConnection.SendInLoop | net/TcpConnection.cc:190-228 | over the real buffer does what the model does on a plain sequence, unless append fails, which it does exactly as stated for the buffer |
| TcpConnections.TcpConnection.HandleWrite | net/TcpConnection.cc:65-105 | over the real buffer does what the model does |
| TcpConnections.TcpConnection.Shutdown | net/TcpConnection.cc:230-238 | changes the state and half-closes if nothing waits |
| TcpConnections.TcpConnection.HandleClose | net/TcpConnection.cc:107-120 | disconnects and takes read and write interest |
| TcpConnections.TcpConnection.ConnectionDestroyed | net/TcpConnection.cc:262-274 | disconnects a connection that was never established, and has the channel removed |
| TcpConnections.TcpConnection.Happens | net/TcpConnection.cc:65-274 | whatever happens next to the object, it goes on as a run of the model |
| TcpConnections.TcpConnection.OutputIsConserved | net/TcpConnection.cc:65-274 | of the object: bytes given to the socket, then the real output buffer, are the messages of the sends carried out; write interest is on exactly while the buffer is not empty, until it is closed |
| TcpConnections.TcpConnection.SendMessage | net/TcpConnection.cc:147-162 | sends only while connected |
| ConnectorModel.HandleEventIsDispatch | net/Channel.cc:37-76 | the connector's event is the channel's dispatch with its two callbacks |
| ConnectorModel.AttemptByErrno | net/Connector.cc:50-91 | an attempt opens one socket and waits for it, closes it and retries, or closes it and gives up, by the listed error numbers |
| ConnectorModel.EachStartAttempts | net/Connector.cc:38-48 | start, restart and a retry each make one attempt; restart forgets the retries before it and begins with half a second |
| ConnectorModel.WhatIsAsserted | net/Connector.cc:50-163 | the states in which the assertions of startInLoop, connecting, handleError and handleWrite fail |
| ConnectorModel.FailureIsRetried | net/Connector.cc:94-173 | whenever the socket that is waited for fails, the next iteration has an empty channel and a retry that can fire, and that waits for the next socket |
| ConnectorModel.StepKeepsControl | net/Connector.cc:38-173 | every step but an untimely restart keeps at most one retry pending and the channel empty when an attempt may start; it faults exactly if an attempt starts before the last channel was reset |
| ConnectorModel.FaultIffHasty | net/Connector.cc:38-173 | in every run whose restarts are timely the assertions hold, except exactly when an attempt starts in the iteration in which the last one ended |
| ConnectorModel.RestartIsSafeIff | net/Connector.cc:43-48 | a restart that does not meet the old channel keeps all this exactly if it finds the connector not waiting for a socket and, unless its own attempt is given up, no retry pending |
| ConnectorModel.RestartWhileWaitingFaults | net/Connector.cc:43-48 | two runs in which a restart while waiting for a socket violates an assertion |
| ConnectorModel.RestartWhileRetryingFaults | net/Connector.cc:43-48 | a run in which a restart with a retry pending does |
| ConnectorModel.EverySocketInOnePlace | net/Connector.cc:50-173 | each socket opened is in the channel, closed once, or handed over once; at most one retry is pending, and none while a socket is waited for |
| ConnectorModel.EventHasOneOutcome | net/Connector.cc:127-173 | an event with error, writable or both closes and retries, or hands over, never both |
| ConnectorModel.RetriesBackOff | net/Connector.cc:165-173 | the n-th retry since the last start waits 500 ms doubled n times, at most 30 s |
| ConnectorModel.HastyTimerFaults | net/Connector.cc:94-108 | a retry timer firing in the iteration that added it violates the assertion of connecting |
| Connectors.Connector.StartInLoop | net/Connector.cc:50-91 | opens a socket and proceeds, retries or gives up by the error number, as the model does |
| Connectors.Connector.Restart | net/Connector.cc:43-48 | at any time: starts again with the initial delay, as the model does, and stays under control if it is timely |
| Connectors.Connector.BacksOff | net/Connector.cc:165-173 | of the object: the n-th retry since the last start waits 500 ms doubled n times, at most 30 s |
| Connectors.Connector.OwnsSocket | net/Connector.cc:50-173 | of the object, while restarts are timely and no assertion failed: each socket it opened is waited for, closed once, or handed over once |
| Connectors.Connector.TimerFires | net/Connector.cc:165-173 | a retry timer that fires in a later iteration finds the channel empty; the assertions hold |
| Connectors.Connector.HandleEvent | net/Connector.cc:127-163 | for a registered channel the assertions hold, and the event does what the model does |
| Connectors.Connector.RunFunctors | net/Connector.cc:121-125 | the queued resetChannel empties the channel |
| Codec.ParseAsWrittenIff | net/hub/codec.cc:30-38 | the line as written goes wrong exactly on a publication whose second line has not ended |
| Codec.SuccessIff | net/hub/codec.cc:14-54 | the parse succeeds exactly with the command, topic and content of the first line, or two lines for pub, and their length |
| Codec.ErrorIff | net/hub/codec.cc:45-48 | it reports an error exactly for a complete first line without a space |
| Codec.ContinueIff | net/hub/codec.cc:14-54 | as intended it asks for more exactly if the first line is not complete, or is that of a publication and the second is not |
| Codec.ParseStable | net/hub/codec.cc:14-54 | success and error do not change when more characters arrive, and a success uses only characters that are there |
| Codec.DrainSplit | net/hub/hub.cc:143-162 | parsing the rest together with what arrives next is parsing both together |
| Codec.FragmentationIndependence | net/hub/hub.cc:135-163 | any split of a stream into reads yields the same requests and the same unread characters |
| Codec.FragmentationAsWrittenIff | net/Buffer.cc:17-44 | as written, with the buffer's statements and the codec's, receiving goes wrong exactly if some read is too long for the input buffer or leaves a partial publication; otherwise it is independent of the split |
| Codec.FirstReadFailsIff | net/Buffer.cc:17-44 | as written the first read of a connection fails exactly if it is longer than the initial size or leaves a partial publication |
| Codec.OverlongReadFails | net/Buffer.cc:38-41 | a read of 2000 characters fails as written, with no partial publication |
| Codec.FirstLineAloneGoesWrong | net/hub/codec.cc:30-38 | as written a read of the first line of a publication alone goes wrong, for every topic; the intended loop waits |
| Codec.PrintParseIff | net/hub/pubsub.cc:86-103 | a printed command is parsed back, whatever follows it, exactly if topic and content contain no CRLF |
| Codec.RoundTripIff | net/hub/pubsub.cc:57-103 | a list of printed commands is received as that list, with nothing left, exactly if none contains CRLF |
| Codec.ParsedIsClean | net/hub/codec.cc:23-35 | topics and contents that the parser delivers contain no CRLF |
| Codec.ParseMessage | net/hub/codec.cc:14-54 | on the buffer: the result of the parse of its contents, and exactly the characters used are retrieved |
| Hub.RunMatches | net/hub/hub.cc:39-82 | over any history of requests, the records of the topics are what the history says, and each connection was sent the printed form of exactly its deliveries |
| Hub.SubscribeReachesServer | net/hub/pubsub.cc:86-97 | the printed form of a client's subscribe or unsubscribe, as the server receives it, adds its connection to the topic's audience or takes it out, and touches no other topic |
| Hub.PublishReachesAudience | net/hub/pubsub.cc:99-103 | that of a publish sends the message once to the audience and to no one else |
| Hub.ServeAllMatches | net/hub/hub.cc:135-163 | the requests dispatched for a connection are those of its whole stream, however it was split and mixed with others |
| Hub.EndToEndDelivery | net/hub/hub.cc:29-184 | from arbitrary incoming bytes to the decoded output: a subscriber decodes exactly the last content at each subscription to a published topic and each publication while subscribed, in order |
| Hub.ReceivedIsPrefix | net/hub/hub.cc:29-184 | what a subscriber has decoded so far is a prefix of its deliveries |
| Hub.ServeAsWrittenIff | net/hub/hub.cc:135-163 | as written the server goes wrong exactly if some read is too long for the input buffer of its connection, or leaves a partial publication in it; otherwise it does what is intended |
| Hub.EndToEndAsWritten | net/hub/hub.cc:29-184 | as written: what a server whose reads did not fail has sent, a subscriber that receives it decodes as exactly its deliveries, or goes wrong, the latter exactly if one of its own reads is too long or leaves a partial publication |
| HubServers.HubServer.FindTopic | net/hub/hub.cc:104-115 | inserts an unknown topic and changes no other |
| HubServers.HubServer.Subscribe | net/hub/hub.cc:39-50 | adds to the audience and sends the last publication, if there is one |
| HubServers.HubServer.UnSubscribe | net/hub/hub.cc:52-55 | removes from the audience of the topic only |
| HubServers.HubServer.Publish | net/hub/hub.cc:57-67 | the loop over the audience sends the message once to each member and to no one else |
| HubServers.HubServer.OnMessage | net/hub/hub.cc:135-163 | dispatches exactly the complete requests in the buffer, in order, and leaves the rest; the loop ends |
| HubServers.HandleRead | net/TcpConnection.cc:45-63 | under both readings: reading into the real buffer and dispatching is one step of the server of the end-to-end theorems, and fails exactly where that goes wrong |
| HubServers.PubSubClient.HandleRead | net/TcpConnection.cc:45-63 | under both readings: the client's read is one step of the receiver of the theorems about receiving, and its callback has been called for exactly the publications among the requests received |
| HubServers.ClientIsCalledForDeliveries | net/hub/pubsub.cc:57-79 | the subscribe callback of a client is called for exactly its deliveries |
| HubServers.PubSubClient.OnMessage | net/hub/pubsub.cc:57-79 | calls the callback for exactly the publications received, in order, and asks for shutdown exactly if what it leaves unread begins with a complete line without a space |

## Left out

- Disconnection in the hub (net/hub/hub.cc:122-132, 168-169, 176-177): the code edits a copy of the set of topics, so a model of the clean-up would be invention; connections stay connected.
- shutdown() from another thread, which races with the loop's own changes of the state: the source promises nothing there.
- Overflow of the buffer's int indexes beyond 2 GB, of the 64-bit timer sequence and of microsecond times: the model's integers are unbounded, except in the unsigned arithmetic of append and the eventfd counter, where wrap-around and saturation are modelled.
- Floating-point intervals: a timer carries its interval in whole microseconds, as addTime truncates it, and a flag for being positive.
- Time: one clock stands for gettimeofday and the timer descriptor's monotonic clock, and one reading of it for the head of handleRead, up to the first callback.
- std::map, std::set and std::vector as data structures: they are Dafny's maps, sets and sequences, and a Topic is a value in its map; the buffer's vector is an array.
- Buffer.retrieve(end), the unbounded retrieval by pointer, differs from retrieve(len) only in its argument.
- epoll_wait's growth of events_, logging, time formatting, the choice of the poller by getenv, address and socket option wrappers.
- Mutex, Condition, Thread and CountDownLatch: a locked region is one step.
- TcpServer, TcpClient, Acceptor, EventLoopThread and EventLoopThreadPool: wiring that would add only easy members.
- Inputs that a user callback of a connection could give from inside handleRead are separate steps of the connection, not nested calls.
