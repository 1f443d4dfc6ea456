# A model of the jvm tracing agent in Dafny

This project models the parts of the agent whose correctness rests on a protocol, an invariant or a
layout rather than on plumbing, and proves what they are meant to guarantee:

- `Channel`, `ChannelSafety`, `ChannelTheorems`, `ChannelCalls`, `ChannelObject`: the rendezvous
  channel, as a step relation over any number of concurrent `Write`, `Read` and `Close` calls, its
  invariant, and the theorems over all runs (delivery, the borrowed pointer, wakeups, coming to rest,
  closing, timing out). The class holds the fields and runs each locked stretch in place.
- `Stacks`, `Collector`, `CollectorProgress`, `Collect`: the stack trace form, its order and grouping, one stack collection
  with its signal handlers running at any time, and the collecting function run against it.
- `RequestService`, `RequestHistory`: who owns the acknowledgement descriptors of the stack trace
  service, and that every request is served, in order.
- `ZQueue`, `Safepoint`: the blocking queue, and the safepoint handshake built on it.
- `Tracee`, `Symbols`, `SymbolImage`: word-wise access to another process, symbol lookup in its memory,
  and images of objects laid out for it.
- `Ledger`: the allocation ledger that allocates through the functions it instruments.
- `HsPerf`: the hsperfdata reader and the layout it inverts.
- `Common`: optional values, bytes, sums over maps.

Concurrent code is modelled as a state machine: `Enabled(s, e)` and `Apply(s, e)` give the steps,
`IsRun(states, steps)` a finite run from the initial state, and a theorem speaks of every state of
every run. One step is one stretch of code under the lock, or one action between two points where
other threads may run. Choices of the scheduler, the kernel and the C library (which sleeper
`notify_one` picks, whether a deadline has passed, which address `malloc` returns) are parts of the
step, hence universally quantified. Histories kept in the state, such as what was pushed or delivered,
are proved to be what the steps of the run say. A timed wait that reports a timeout may do so although it was
notified, as section 30.5.1 of ISO C++11 allows. The classes beside the state machines update the
fields in place, and each of their methods is proved to be the corresponding step.

Where code and documentation disagree, the code is followed:

- `channel.h` says that values already written can still be read after `Close`; the code lets no read
  succeed once `closed_` is set, and a written value can be lost (`ChannelTheorems.CloseCanLoseValue`).
  `ChannelTheorems.WrittenSurvivesCloseIff` says exactly when none is: when the zone holds no unread
  value as `Close` takes the lock.
- The handler's comment speaks of skipping the current frame; both the first `unw_step` and the one in
  the loop guard come before the first read, so two frames are passed over (`Stacks.Visited`).
- `try_pop` may return false with an item in the queue, and can leave another consumer asleep beside an
  item (`ZQueue.TimedConsumerCanStrand`). `ZQueue.StrandsIff` says exactly when: if and only if a
  `try_pop` has been in progress beside another call.
- A failed `malloc` is booked under the null address and counted for good
  (`Ledger.FailedMallocIsCounted`); `Ledger.CounterIsLiveTotal` gives the exact condition.
- `ptrace_push` from a misaligned or too small stack pointer overwrites live data;
  `Tracee.PushKeepsLiveIff` says exactly when it does not.

## Model

| member | source | states |
|---|---|---|
| ChannelSafety.ZoneStep | src/ts/common/unbuffered_channel.h:53-144 | every step keeps: at most one call at the handshake wait, it is the one `item_` points to, and a set `reader_in_zone_` means a zone writer that is awake |
| ChannelSafety.WakeStep | src/ts/common/unbuffered_channel.h:53-144 | every step keeps: on an open channel a free zone with a sleeping writer has an awake entry writer, an unread zone with a sleeping reader has an awake reader |
| ChannelSafety.CloseStep | src/ts/common/unbuffered_channel.h:146-156 | every step keeps: each notification of `Close` already sent has left no sleeper on its condition variable |
| ChannelSafety.EntryLogStep | src/ts/common/unbuffered_channel.h:69-108 | every step keeps the entry history: distinct calls, all entered ones in it, the zone writer last |
| ChannelSafety.DeliveryStep | src/ts/common/unbuffered_channel.h:69-143 | every step keeps: what readers copied is the completed writes plus a read zone writer, and the zone entries without the timed-out ones |
| ChannelSafety.ReaderStep | src/ts/common/unbuffered_channel.h:116-144 | every step keeps: successful reads and deliveries correspond one to one |
| ChannelSafety.RunInv | src/ts/common/unbuffered_channel.h:50-156 | the whole invariant holds in every state of every run |
| ChannelTheorems.BorrowedPointerIsLive | src/ts/common/unbuffered_channel.h:137-143 | whenever a read copies `*item_`, the call that stored it is inside its own `Write`, alone in the zone, and its argument is what is copied |
| ChannelTheorems.ZoneHoldsOneHandshake | src/ts/common/unbuffered_channel.h:166-178 | the invariants documented at the two zone flags, in every state |
| ChannelTheorems.ExactlyOnceInOrder | src/ts/common/unbuffered_channel.h:69-143 | the values read are the arguments of the completed `Write` calls and of a read zone writer, each once, in zone-entry order with timed-out writes removed |
| ChannelTheorems.EveryReadOnce | src/ts/common/unbuffered_channel.h:116-144 | a read returned true with a value exactly when that value was delivered to it, once, and it is the argument of a `Write` that entered the zone and cannot fail any more |
| ChannelTheorems.CallsAreBegun | src/ts/common/unbuffered_channel.h:50-156 | in every run the calls of a state are exactly those begun, each of its kind and with its argument |
| ChannelTheorems.TimedOutWriteIsNeverRead | src/ts/common/unbuffered_channel.h:74-84 | a write that reports a timeout is never read, before or after |
| ChannelTheorems.ReadWriteOnlySucceeds | src/ts/common/unbuffered_channel.h:85-108 | a write whose value was read can only succeed, without timeout or FATAL, even if `Close` intervenes |
| ChannelTheorems.NoLostWakeup | src/ts/common/unbuffered_channel.h:53-144 | with a write and a read in flight on an open channel, some awake call is about to act on the zone |
| ChannelTheorems.CheckUsesPotential | src/ts/common/unbuffered_channel.h:53-144 | every check by an awake call, whoever it wakes, lowers a potential of the calls in flight |
| ChannelTheorems.ComesToRest | src/ts/common/unbuffered_channel.h:53-144 | a stretch of checks only is no longer than that potential, at most three times the number of calls |
| ChannelTheorems.RestMeansPaired | src/ts/common/unbuffered_channel.h:16-37 | an open channel at rest never has a write and a read both waiting |
| ChannelTheorems.AwakeCanCheck | src/ts/common/unbuffered_channel.h:53-144 | an awake call is never kept from its check |
| ChannelTheorems.ChecksComeToRest | src/ts/common/unbuffered_channel.h:53-144 | on an open channel, however calls are scheduled, checks go on until all are at rest, for at most three times as many steps as calls, and then no write waits beside a read |
| ChannelTheorems.RendezvousCompletes | src/ts/common/unbuffered_channel.h:16-37 | if no deadline passes before rest, all writes then in flight have succeeded or all reads then in flight have returned a value |
| ChannelTheorems.ClosedChannelDrains | src/ts/common/unbuffered_channel.h:116-156 | once closed: stays closed, no read succeeds any more, nobody newly sleeps |
| ChannelTheorems.CloseLeavesNoSleeper | src/ts/common/unbuffered_channel.h:146-156 | after the three notifications nobody is asleep on any condition variable, ever again |
| ChannelTheorems.WrittenSurvivesCloseIff | src/ts/common/channel.h:60-62 | all that was written and has not timed out is read, then or later, exactly if the zone holds no unread value when `Close` takes the lock |
| ChannelTheorems.CloseCanLoseValue | src/ts/common/channel.h:60-62 | a reachable state with a value in the zone, neither read nor timed out, and a later read that returned without it |
| ChannelTheorems.WaitedMeansSlept | src/ts/common/unbuffered_channel.h:55-130 | in every run a call is past its first check exactly if it has been asleep |
| ChannelTheorems.TimeoutExactly | src/ts/common/unbuffered_channel.h:55-130 | in every run a call has reported a timeout exactly if it once checked, having slept, with its deadline passed and its condition false |
| ChannelTheorems.FalseConditionSleeps | src/ts/common/unbuffered_channel.h:55-130 | and short of that a check that finds its condition false goes to sleep |
| ChannelCalls.SleeperCanTimeOut | src/ts/common/unbuffered_channel.h:55-130 | a sleeper can always wake with its deadline passed, and then reports a timeout exactly if its condition is false |
| ChannelCalls.ClosedIff | src/ts/common/unbuffered_channel.h:146-151 | the channel is closed exactly when some `Close` has had the lock |
| ChannelCalls.CloseGoesOn | src/ts/common/channel.h:68 | `Close` never blocks: its next step can always be made, and crashes only if the channel was closed before |
| ChannelCalls.CloseTakesFiveSteps | src/ts/common/unbuffered_channel.h:146-156 | in every run a `Close` makes its steps one by one and is over after five of its own |
| ChannelTheorems.CrashExactly | src/ts/common/channel.h:64-69 | the process dies exactly by closing a closed channel, writing to one, or being in the zone of one with the value never read |
| ChannelObject.UnbufferedChannel.WriteEntry | src/ts/common/unbuffered_channel.h:50-77 | the locked stretch of `Write` up to the handshake wait is the protocol's step and keeps the invariant |
| ChannelObject.UnbufferedChannel.WriteHandshake | src/ts/common/unbuffered_channel.h:74-109 | likewise from the handshake wait to the return |
| ChannelObject.UnbufferedChannel.ReadItem | src/ts/common/unbuffered_channel.h:116-144 | likewise `Read`; `item_` is never dangling where it is used, and the caller's variable gets the value read, the default value on a closed channel, or stays as it is |
| ChannelObject.UnbufferedChannel.CloseLocked | src/ts/common/unbuffered_channel.h:146-151 | likewise `Close` under the lock |
| ChannelObject.UnbufferedChannel.CloseNotify | src/ts/common/unbuffered_channel.h:152-155 | likewise each notification of `Close` |
| Stacks.StackTraceForm.AddAddress | src/ts/signal_handler.cc:64-70 | appends to the used part of the form while it has fewer than 100 addresses |
| Stacks.StackTraceForm.Fill | src/ts/signal_handler.cc:151-162 | the handler's loop leaves in the form the first 100 readable instruction pointers it visits |
| Stacks.RecordOfUnwind | src/ts/signal_handler.cc:151-162 | the record of an unwind frame by frame: two frames passed over, a readable frame with fewer than a hundred readable ones before it at that place, nothing else |
| Stacks.RecordOfReadable | src/ts/signal_handler.cc:151-162 | of an unwind of readable frames, entry i is frame i + 2, up to a hundred |
| Stacks.StackLess | src/ts/signal_handler.cc:429-443 | the comparison loop decides shortlex order |
| Stacks.Trichotomy | src/ts/signal_handler.cc:429-443 | the order is strict and two stacks are equivalent only if equal |
| Stacks.Transitive | src/ts/signal_handler.cc:429-443 | the order is transitive |
| Stacks.Locate | src/ts/signal_handler.cc:447-455 | finds the place of a stack in the ordered map |
| Stacks.GroupByStack | src/ts/signal_handler.cc:445-455 | yields strictly increasing distinct stacks, each with precisely the slot tids that have it, in slot order, and none missing |
| Stacks.GroupsInOrder | src/ts/signal_handler.cc:429-455 | shallow stacks come before deep ones, and of equally deep ones the smaller address at the first difference decides |
| Stacks.GroupsPartition | src/ts/signal_handler.cc:445-476 | with ascending tids, the groups partition them, each group ascending and not empty |
| Stacks.GroupsUnique | src/ts/signal_handler.cc:445-455 | that description determines the grouping |
| Stacks.SetDifference | src/ts/signal_handler.cc:108-118 | the merge returns, ascending, exactly what only the first range has |
| Collector.SignalStep | src/ts/signal_handler.cc:341-360 | every step keeps: slots are the signalled threads in order, forms are theirs, failures are the rest |
| Collector.AckStep | src/ts/signal_handler.cc:73-79 | every step keeps: acks counted plus bytes in the pipe are the forms submitted |
| Collector.UnwindKeepsForm | src/ts/signal_handler.cc:151-162 | a turn of the handler's loop keeps the form equal to the readable part of what was visited, and complete when submitted |
| CollectorProgress.HandlerFinishes | src/ts/signal_handler.cc:151-162 | the handler's loop ends after at most one turn more than frames, with the recorded stack ready to be submitted |
| CollectorProgress.AbandonedMeansGivenUp | src/ts/signal_handler.cc:131-165 | in every run a form is given up only because the handler could not begin or its one-byte write failed |
| CollectorProgress.SignalledBySteps | src/ts/signal_handler.cc:344-360 | in every run the n-th signal goes to the n-th thread, which counts as failed exactly if the signal did |
| CollectorProgress.CollectionCompletes | src/ts/signal_handler.cc:341-428 | a run in which no handler gives up and the timer does not fire can go on until it ends normally, within six steps and one per visited frame for each thread and two more, idle turns apart |
| CollectorProgress.WaitingCanTimeOut | src/ts/signal_handler.cc:383-411 | while acknowledgements are missing the timer can end the wait |
| Collector.AcksMatchForms | src/ts/signal_handler.cc:341-425 | acks plus bytes equal forms submitted, at most the forms handed out, one per slot, one per awaited thread after signalling |
| Collector.CollectedMeansSubmitted | src/ts/signal_handler.cc:383-425 | when the wait loop exits normally every form has been submitted |
| Collector.FormsAreFinal | src/ts/signal_handler.cc:383-428 | and nothing can change a form any more |
| Collector.EndToEnd | src/ts/signal_handler.cc:325-478 | on every normal return the tids over all results are exactly those signalled, each once, and each has the first 100 readable instruction pointers of its own unwind |
| Collect.SignalAll | src/ts/signal_handler.cc:344-360 | the signalling loop yields, ascending, the slots and failures the protocol speaks of |
| Collect.AwaitAcks | src/ts/signal_handler.cc:383-425 | the wait loop succeeds exactly with as many acknowledgements as awaited, fails only at the timer and otherwise goes on |
| Collect.RunAgrees | src/ts/signal_handler.cc:383-425 | in every run the acknowledgements reported to that loop are those the protocol counted, the timer fires exactly on failure, and a normal end has as many as awaited |
| Collect.Collect | src/ts/signal_handler.cc:325-478 | the whole function against any run of kernel and handlers: results exactly if the run ends normally, and then the threads signalled, each once, under their own recorded stacks |
| RequestService.StepKeepsInv | src/ts/signal_handler.cc:172-288 | every step keeps ownership, the record of closes and the order of flush and close |
| RequestService.ExactlyOneHolder | src/ts/signal_handler.cc:172-288 | each open write end is held by exactly one of handler, pipe and service, and nothing else is held |
| RequestService.ClosedAtMostOnce | src/ts/signal_handler.cc:172-288 | every close hits the end it was meant for, no request is closed twice, though numbers are reused |
| RequestService.FlushedBeforeAck | src/ts/signal_handler.cc:262-288 | the service closes its own request's end only when the flushed text holds exactly what it printed for it, each line once and in order |
| RequestService.DumpIsComplete | src/ts/signal_handler.cc:241-288 | what that speaks of is everything printed since the request was received, in order |
| RequestHistory.RequestsAreAccounted | src/ts/signal_handler.cc:172-193 | in every run the requests are those created, and each write end is held open by somebody or has been closed |
| RequestHistory.ServedInOrder | src/ts/signal_handler.cc:241-288 | in every run the requests acknowledged, the one in hand and those in the pipe are, in that order, those sent |
| RequestHistory.AckedMeansClosed | src/ts/signal_handler.cc:262-288 | a request is acknowledged by closing its write end |
| RequestHistory.EveryRequestIsServed | src/ts/signal_handler.cc:241-288 | as long as a request is left the service can go on, it makes exactly five steps for each, and when none is left it reads again and all that were sent have been acknowledged in order |
| RequestHistory.LeavingScope | src/ts/common/defer.h:36-38 | leaving the scope flushes, then closes, then reads again, and does nothing else |
| RequestHistory.PrintedIsKept | src/ts/signal_handler.cc:262-288 | nothing printed is lost, doubled or reordered on its way through the buffer |
| RequestService.Descriptors.OpenPipe | src/ts/signal_handler.cc:172-181 | creating the pipe is the protocol's step: the handler then holds the one write end |
| RequestService.Descriptors.ReceiveRequest | src/ts/signal_handler.cc:241-268 | reading a request and registering the two deferred actions is the protocol's step |
| RequestService.Descriptors.SendRequest | src/ts/signal_handler.cc:182-193 | the handler's write and its failure branches are the protocol's step |
| RequestService.Descriptors.Unwind | src/ts/common/defer.h:36-38 | running one deferred action, last registered first, is the protocol's step |
| ZQueue.ConservedStep | src/zqueue.h:25-65 | every step keeps: what went in is what was removed followed by what is there, and each popped item belongs to one call |
| ZQueue.FirstInFirstOut | src/zqueue.h:25-65 | in every run what was removed, followed by what is there, is what the pushes appended, in their order; a call returns an item exactly if it removed it |
| ZQueue.PopsFollowPushes | src/zqueue.h:25-53 | without `clear` the n-th item handed to a consumer is the n-th pushed |
| ZQueue.NotificationsOwed | src/zqueue.h:25-30 | each push sends one notification |
| ZQueue.ConsumersAreBegun | src/zqueue.h:32-53 | in every run the consumer calls are those begun, each of its kind |
| ZQueue.GivesUpExactly | src/zqueue.h:42-49 | in every run a call returns false exactly if it is a `try_pop` that came out of a wait with a timeout |
| ZQueue.CheckTakesOldest | src/zqueue.h:37-38 | an awake call that sees an item before any timeout takes the oldest |
| ZQueue.SleeperCanGiveUp | src/zqueue.h:45-49 | a sleeping `try_pop` can always come back with a timeout |
| ZQueue.MatchedStep | src/zqueue.h:25-53 | every step that swallows no foreign notification keeps: while somebody waits, items are at most awake consumers plus pending notifications |
| ZQueue.NothingStranded | src/zqueue.h:25-53 | as long as no `try_pop` has been in progress beside another call the balance holds, and no item is stranded beside sleepers only |
| ZQueue.RiskyCanStrand | src/zqueue.h:42-53 | from every state with a `try_pop` beside another call, the calls in progress alone can come to strand an item |
| ZQueue.StrandsIff | src/zqueue.h:25-53 | a run had a moment from which its calls could come to strand an item if and only if it had one with a `try_pop` beside another call |
| ZQueue.PopOnlyOrOneConsumer | src/zqueue.h:25-53 | with `pop` consumers only, or one thread looping on either operation, that moment never comes |
| ZQueue.TimedConsumerCanStrand | src/zqueue.h:42-53 | a run of a `try_pop` and another consumer of either kind that ends with an item beside a sleeper |
| ZQueue.Queue.PushLocked | src/zqueue.h:25-28 | the append under the lock puts the item behind all others, is the queue's step and keeps conservation |
| ZQueue.Queue.PushNotify | src/zqueue.h:29 | the notification after it likewise |
| ZQueue.Queue.PopLocked | src/zqueue.h:32-53 | a turn of `pop` or `try_pop` under the lock likewise |
| ZQueue.Queue.ClearLocked | src/zqueue.h:60-65 | the clearing loop removes every item, in order, and leaves the queue empty |
| Safepoint.StepKeepsInv | src/trace_agent.h:146-181 | every step keeps: one consumer at a time, one token at most, and the queue's own invariants |
| Safepoint.JoinedMeansDone | src/trace_agent.h:158-181 | when `join` has returned: a trace was taken and a signal sent on the way, the one token pushed was consumed, the queue is empty and untouchable |
| Safepoint.DoneBySteps | src/trace_agent.h:146-176 | in every run signals, trace and token are those of the steps made |
| Safepoint.WorkerGoesOn | src/trace_agent.h:158-176 | until it joins, the worker is never kept from its next step |
| Safepoint.NotifierSignalsAgain | src/trace_agent.h:146-157 | a notifier asleep can time out, return and signal once more |
| Safepoint.NeverAsleepDuringJoin | src/trace_agent.h:146-176 | while the worker joins the notifier never sleeps |
| Safepoint.JoinReturns | src/trace_agent.h:146-176 | from there every run can go on and is over within six steps |
| Tracee.Process.Read | src/tt.cpp:57-68 | the buffer holds the remote bytes, rounded up to whole words, and is otherwise unchanged |
| Tracee.Process.Write | src/tt.cpp:44-56 | memory is the source laid over it, rounded up to whole words, addresses wrapping at 32 bits |
| Tracee.Process.ReadString | src/tt.cpp:69-107 | returns the string at the address if it ends within 64 bytes, and says when it does not |
| Tracee.Process.Push | src/tt.cpp:122-134 | where the stack pointer goes and what memory becomes |
| Tracee.Process.PushString | src/tt.cpp:365-369 | from an aligned stack pointer, a pushed string of up to 63 characters reads back even if the pointer wraps, the pointer stays aligned, only the room made changes, and without wrap nothing at or above the old pointer |
| Tracee.PushKeepsLiveIff | src/tt.cpp:122-134 | whatever is pushed, nothing at or above the old stack pointer changes, exactly if the size is at most the pointer and is a multiple of four or has a remainder above the misalignment |
| Symbols.ScanTakesLast | src/tt.cpp:192-238 | of several dynamic entries with a tag the last wins, and what is missing is left over from the previous object |
| Symbols.Finder.GetSymInfo | src/tt.cpp:192-238 | the loop over the dynamic section is that scan, and `nrels` the quotient |
| Symbols.Finder.FindInLinkMap | src/tt.cpp:239-269 | returns the address of the first matching symbol with name, size and value, or zero |
| Symbols.Finder.FindSymbol | src/tt.cpp:270-293 | returns what the first object with a match yields, in the order visited (unnamed maps skipped from the third on), or zero if none does |
| Symbols.ZeroMeansNone | src/tt.cpp:239-269 | without address wrap, an object yields the address of its first match, and zero exactly if it has none |
| Symbols.FirstMatchWithoutWrap | src/tt.cpp:239-293 | without address wrap the result is `l_addr + st_value` of the first match, object by object and symbol by symbol, and zero exactly if nothing matches |
| Symbols.FoundUnique | src/tt.cpp:270-293 | the description of the result determines it |
| SymbolImage.ImageInMemory | src/tt.cpp:192-293 | whatever the symbols, writing link maps, dynamic sections, hash headers, symbols and names in their layouts makes an image that can be searched |
| SymbolImage.LookupInImage | src/tt.cpp:239-293 | in such an image the first symbol with the name, a size and a value is found in the first or second map, named or not, and in the third only if that map has a name |
| Ledger.BookStaysBalanced | src/mem_checker.cpp:39-83 | after any additions and deletions `mem_` is, modulo 2^64, the total in the map plus the lengths added for an address already there |
| Ledger.BookIsHistory | src/mem_checker.cpp:39-83 | the map holds exactly the addresses added and not deleted since, with the length of the first such addition; the repeated additions are the others |
| Ledger.Heap.Malloc | src/hook.cpp:18-34 | under the guard a plain allocation, otherwise one recorded block and one map node |
| Ledger.Heap.Free | src/hook.cpp:39-46 | under the guard a plain release, otherwise the block leaves the ledger with its node |
| Ledger.Heap.Add | src/mem_checker.cpp:39-44 | the addition, whose node comes from the hooked `malloc` |
| Ledger.Heap.Del | src/mem_checker.cpp:69-83 | the deletion, terminating although it re-enters itself |
| Ledger.Heap.Erase | src/mem_checker.cpp:80-81 | freeing the node comes back through the hook and changes nothing else |
| Ledger.RunIsGood | src/hook.cpp:18-46 | in every run of a program the ledger lists exactly its live blocks, every other live block is a map node or unhooked, and no node is a key |
| Ledger.CounterIsLiveTotal | src/hook.cpp:18-46 | the counter is the total of the live blocks plus refused bytes modulo 2^64, so the live total exactly when the refused bytes vanish |
| Ledger.BlocksAreLive | src/hook.cpp:18-46 | in every run the blocks in that total are those got from `malloc` and not released, with the sizes asked for |
| Ledger.FailedMallocIsCounted | src/hook.cpp:18-22 | a run with nothing live and a counter that is not zero |
| HsPerf.MeasureName | src/hsperfdata_parser.h:101-112 | the loop finds the bytes up to the next zero or the end |
| HsPerf.Parse | src/hsperfdata_parser.h:74-142 | header checks and entry loop compute the reading function; for every file, which magic number, version and byte order are refused, in that order, and that shorter ones are read out of bounds |
| HsPerf.EntryInside | src/hsperfdata_parser.h:97-140 | wherever an encoded entry stands, the reader finds its name, kind and value and the byte after it |
| HsPerf.ParseInvertsLayout | src/hsperfdata_parser.h:74-140 | of every encoded file the reader returns exactly the names and values of as many entries as it claims, in order, without leaving the buffer |
| HsPerf.TruncatedIsUndefined | src/hsperfdata_parser.h:95-97 | a file that claims more entries than it has is read beyond its end |
| HsPerf.UnsupportedStopsParse | src/hsperfdata_parser.h:115-134 | an unsupported long or text stops the reader there, with all entries before it and none after |
| HsPerf.ReaderStandsAt | src/hsperfdata_parser.h:95-139 | at its turn i the reader stands at the first offset plus the lengths of the entries before, where entry i was written, with their items read |
| HsPerf.AfterIsReader | src/hsperfdata_parser.h:95-140 | the loop's outcome is the outcome of going on from where it stands after any number of turns |

## Left out

- JVMTI and JNI callbacks, the stack walk of `trace_agent.h`, capability registration, `agent.cpp`, `trace.h`: plumbing over libraries that are not part of this model.
- Unwinding, symbolization, signal delivery, `select`, timers and pipes appear only through what they may report; assumed are whole transfers of four bytes and of one byte, and at most one handling of a queued signal.
- A collection that times out, or whose pipe or timer cannot be created: its forms are destroyed while handlers may still hold them, so nothing is claimed after `Failed`.
- Signals from another process and a null form pointer, which the handler ignores: they would only add steps that change nothing.
- Collector and Safepoint are modelled on values, as are the interleavings of all protocols: what runs in place is in the classes and methods beside them.
- The red-black tree behind `std::map`: the grouping keeps an ordered sequence, the ledger a map with one node per key; balancing and the tree header are not modelled.
- Map nodes in `Ledger`: that `erase` unlinks a node before freeing it is assumed. The scratch allocations of the backtrace inside `add`, made and released under the guard, are not modelled.
- `trace_lock` takes its mutex by value and protects nothing; the ledger is modelled for one thread.
- Remote memory: a peek at an unmapped address is modelled byte by byte as 0xff; sizes are those of a C `int`.
- Symbols.Finder.FindSymbol: an image whose dynamic section lacks DT_NULL or a table, whose relocation entry size is zero, whose number of symbols is negative or whose chain of maps is cyclic makes the original loop, divide by zero or read garbage; objects of that kind before the match are excluded by `WellFormed`.
- `get_linkmap`, `find_sym_in_rel`, `get_dyn_info`, `ptrace_call`, `call_dl_open` and `main` of `tt.cpp`: process control, or a global that is never set.
- The text that `hsperfdata_parser` prints and `is_generation`, which only selects what is printed.
- `mem_fuller::pending`, the `worker` loop of `trace_agent.h`, `zqueue::count`, wall-clock bounds, log text and pretty-printing.
