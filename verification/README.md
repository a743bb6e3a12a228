# Verified model of a binder-based download stack and the Android libraries under it

The repository runs two services over binder: a download service that keeps
resumable downloads, and an http service that fetches over sockets on its
behalf. Both stand on Android's libutils, libcutils and liblog. This project
models the parts in which many steps have to agree, and proves what they
promise.

- **RefBase** (`RefBase`, `RefBaseSafety`, `RefBaseTheorems`,
  `RefBaseCallbacks`, `RefBaseRuns`, `WeakrefImpl`). Strong and weak counts of
  one object, any number of threads, every atomic operation, callback, `delete`
  and free a step of its own. A caller of `incStrong` holds a strong reference
  throughout, or a weak one under weak lifetime, or has an object that was never
  strongly referenced, with no references around but weak ones of its own; a
  caller of `attemptIncStrong` holds a weak one; a reference that a call in
  flight relies on is not given up; and no more than `MAX_COUNT` references
  exist at once. That is all the runs assume.
- **Downloads** (`CancelHandshake`, `CancelSafety`, `CancelVerdicts`,
  `CancelRuns`, `HttpRequests`, `Resume`, `ResumeSafety`, `ResumeTheorems`,
  `ResumeImpl`, `ByteCounter`, `ByteCounterSafety`). The worker of each task,
  the client's `cancel()`, the queue of oneway messages and the http service's
  request map interleave. `Resume` follows the `.part` file over any number of
  interrupted attempts; it assumes one live task per destination path, a
  resource that does not change between attempts, bytes that belong where a 206
  says they do, and a body framed by its length or by chunks. A 206 may end
  anywhere. Those that start behind the end of the `.part` file are treated
  apart, in `ResumeTheorems.LateRangeLeavesHole`.
- **Looper** (`Looper`, `LooperSafety`, `LooperProgress`, `LooperImpl`). One
  polling thread and any number of senders. Handlers send and remove messages,
  but do not poll themselves.
- **Codecs that have to agree with their other half.** The binary event list
  (`EventList*`), HTTP body framing over a refillable buffer (`HttpFraming`,
  `HttpFramingProofs`, `HttpReader`), the UTF-8/16 converters (`Unicode*`),
  length-prefixed records (`RecordStream*`), and parameter strings
  (`StrParms*`).
- **Containers against plain sequences and maps.** The vector that shares
  buffers until it is changed (`CopyOnWrite`, `VectorRuns`, `VectorCost`), one
  such buffer in the hands of many threads (`SharedBufferRace`,
  `SharedBufferSafety`, `SharedBufferTheorems`), the stable sort and the sorted
  vector (`StableSort`, `SortedVector`, `SortedVectorImpl`), and the chained
  hash map (`Hashmap`, `HashmapImpl`). A thread that acquires a shared buffer
  holds a reference to it already.

Concurrent protocols are state machines: a `Step` per atomic action, an
invariant kept by every step, and theorems over every state of every run. Code
that works on one object is a class whose methods change its fields in place,
each tied to a specification function; the lemmas are about those functions.
`Common` holds the few definitions that several modules share.

## Where the code falls short

- A download can complete with less than the resource. The last byte of a
  `Content-Range` is never looked at (service/http/HttpClient.cpp:541-552,
  653-684), and nothing compares what arrived with the total, so a 206 that ends
  early, which RFC 9110 section 15.3.7 allows, is renamed to `destPath` all the
  same, against the comment at service/download/DownloadService.cpp:330.
  `ResumeTheorems.ShortRangeCompletes` is such a download: 200 bytes of 1024 are
  there, 301 more arrive. `ResumeTheorems.AttemptIsSafe`,
  `ResumeTheorems.AnyAttemptsAreSafe` and `ResumeImpl.Download.Retry` say that a
  completed attempt leaves the resource exactly if the answer to it was a 200,
  or a 206 that reaches the last byte, or `.part` was whole before and is kept.
- Nor is the start of a 206 compared with the offset asked for. One that starts
  later leaves a hole, and `ResumeTheorems.LateRangeLeavesHole` gives the exact
  condition under which the file is right nonetheless.
- The counter of a finished download can be too high. If the server starts over,
  the worker's load of `resumedFrom` races with the callback that stores it
  (service/download/DownloadService.cpp:100-108, 325-326): in
  `ByteCounterSafety.RefusedResumeOvercounts` one byte is complete and three are
  shown. `ByteCounterSafety.DrainedCounterIsExact` and
  `ByteCounterSafety.StaleExactly` say exactly when. The total can become
  unknown again too, if the first callback is handled last:
  `ByteCounterSafety.LateCallbackForgetsTotal`,
  `ByteCounterSafety.TotalIsExact`.
- In a debug build `incStrong` asserts that the strong count was not zero. Under
  weak lifetime a holder of a weak reference may call it after the last strong
  one is gone: `RefBaseRuns.RevivalTripsAssertion` is a run that does.
  `RefBaseTheorems.CountsAreExact` says that no other check fails, and exactly
  when this one does.
- Event lists longer than 127 elements are written without any error and do not
  come back. `element_count` is an `int8_t`
  (external/android/system/logging/liblog/include/private/android_logger.h:61-64),
  which the reader turns into a huge unsigned count; from 256 elements on the
  writer's byte wraps as well. `EventListRoundTrip.RoundTrip` gives the exact
  condition, `EventListRoundTrip.LongListIsLost` a list of 128. The reader also
  counts one level more than the writer, since the outermost list is a level to
  it.
- After an overflow, nested `list_begin` and `list_end` calls can change the
  element count of an earlier list that was already closed, since the table of
  list positions keeps its old entry: `EventListOverflow.ClosedListIsChanged` is
  such a writer, and `EventListOverflow.ClosedListsKept` says that what is
  stored stays exactly if there was no overflow or no list was closed at that
  depth.
- The two short cuts of `SortedVectorImpl::merge` use `<= 0` and `>= 0`, so when
  the end of one vector ranks equal to the start of the other both items are
  kept, and the result is not a sorted set any more.
  `SortedVector.MergeIsStrict` and `SortedVector.ShortCutsAgree` state exactly
  when they are right. Merging into an empty vector compares with a null item;
  the model excludes it.
- `_shrink` says it always reduces the buffer
  (external/android/system/core/libutils/VectorImpl.cpp:471-475). Below four
  slots it enlarges it: `VectorCost.ShrinkingShrinks`.
- A string that is cut for lack of room is no error: the call returns how much
  of it was stored, the position moves by the whole length, and only that shows
  that the message is spoilt (`EventListCodes.StringResult`,
  `EventListCodes.ResultsOrPosition`).
- Inserting no items at the end of a full vector reports NO_MEMORY and changes
  nothing: `CopyOnWrite.Vector.InsertArrayAt`.
- The comment at external/android/system/core/libutils/RefBase.cpp:102-105 says
  that the destructor may free the control block of an object with strong
  lifetime that was never referenced. The code there frees it only with weak
  lifetime. The model follows the code.
- The comment at external/android/system/core/libcutils/record_stream.cpp:117
  speaks of a 16-bit length. The code reads 32 bits, and so does the model.
- A cancel that waits more than 60 s for its transfer to begin can be dropped.
  `CancelRuns.StaleCancelIsLost` is a run in which `cancel()` came in time, its
  http cancel was handled, and the task completes. `CancelSafety.ClaimIsExact`
  says that the purge is the only way to lose it.

## Model

| member | source | states |
|---|---|---|
| RefBaseSafety.RunInv | external/android/system/core/libutils/RefBase.cpp:425-768 | every state of every interleaving of the calls satisfies the bookkeeping of references held and in flight |
| RefBaseTheorems.NoUseAfterFree | external/android/system/core/libutils/RefBase.cpp:460-491 | no thread's next step touches a freed object or control block, and a held reference always refers to live memory |
| RefBaseTheorems.CountsAreExact | external/android/system/core/libutils/RefBase.cpp:425-458 | weak count = weak + strong references + increments in flight; the bias is subtracted once, by one thread; `onFirstRef` runs at most once; no fatal check fires, and no debug assertion but that of `incStrong`, exactly when a weak holder finds the strong count at zero |
| RefBaseTheorems.ReclaimedOnce | external/android/system/core/libutils/RefBase.cpp:547-583 | destructor and free of the control block happen at most once, in that order, on the 1-to-0 transition their lifetime calls for |
| RefBaseTheorems.NothingLeaks | external/android/system/core/libutils/RefBase.cpp:740-768 | with no reference left and no call in flight, an object that was ever referenced is gone, block included |
| RefBaseTheorems.NoResurrection | external/android/system/core/libutils/RefBase.cpp:586-683 | with strong lifetime, after the strong count has reached zero no promotion ever succeeds again |
| RefBaseTheorems.PromotionIsExact | external/android/system/core/libutils/RefBase.cpp:586-683 | each step of `attemptIncStrong` commits to success on a live object and takes one unit of the strong count, or changes nothing; under strong lifetime it gives up only on a dead object, under weak lifetime exactly if the object, asked, refuses |
| RefBaseTheorems.UnneededIsExact | external/android/system/core/libutils/RefBase.cpp:651-660 | an agreed reference is reported as unneeded exactly if another strong one exists by then |
| RefBaseTheorems.PromotionEnds | external/android/system/core/libutils/RefBase.cpp:645-683 | giving up restores the weak count, success gives the caller one strong reference |
| RefBaseCallbacks.EveryCallIsMade | external/android/system/core/libutils/RefBase.cpp:460-491 | `onFirstRef` runs once for the first `incStrong`, `onLastStrongRef` once each time the last reference goes or one was unneeded, and every agreement to be revived gives a reference |
| RefBaseCallbacks.AnswersAreRespected | external/android/system/core/libutils/RefBase.cpp:645-649 | in every state the references taken on an answer are the answers that agreed, but for the threads about to take theirs; with strong lifetime nobody asks |
| RefBaseTheorems.AttemptIncWeakSucceeds | external/android/system/core/libutils/RefBase.cpp:685-705 | `attemptIncWeak` by the holder of a reference cannot find the count at zero |
| RefBaseTheorems.AttemptIncWeakTakes | external/android/system/core/libutils/RefBase.cpp:685-705 | each of its steps changes nothing and tries again, or ends with one weak reference more |
| RefBaseRuns.PromotionDuringFirstIncStrong | external/android/system/core/libutils/RefBase.cpp:664-683 | the race of a promotion with the first `incStrong` occurs: the bias is left to the other thread |
| RefBaseRuns.RevivalTripsAssertion | external/android/system/core/libutils/RefBase.cpp:432-436 | a run within the callers' contract reaches the failing debug assertion |
| WeakrefImpl.Weakref.Advance | external/android/system/core/libutils/RefBase.cpp:425-705 | the object's own step on its fields is the step of the state machine |
| WeakrefImpl.Weakref.RunSchedule | external/android/system/core/libutils/RefBase.cpp:425-705 | any schedule of steps, atomic adds and compare-exchanges that fail at will included, keeps the invariant on the real fields |
| CancelSafety.RunInv | service/download/DownloadService.cpp:219-350 | every state of every interleaving of workers, cancels and messages satisfies the handshake's invariant |
| CancelSafety.NoCancelLost | service/download/DownloadService.cpp:395-413 | a concluded `cancel()` means: the worker never fetches, or the http cancel is queued, or its flag is on the transfer's entry, unless that entry went stale first |
| CancelSafety.ClaimSeesCancel | service/http/HttpService.cpp:87-97 | a transfer that begins within 60 s of its early cancel begins with the flag set |
| CancelSafety.ClaimIsExact | service/http/HttpService.cpp:87-97 | a transfer begins with its flag set exactly if a cancel of its id was handled and no purge dropped the entry since |
| CancelRuns.StaleCancelIsLost | service/http/HttpService.cpp:238-243 | a run from the start in which a cancel was sent and handled, its entry went stale, and the task completes |
| CancelSafety.AtMostOneMoreRead | service/http/HttpClient.cpp:374-400 | once the cancel is on the entry, at most one more socket read follows, over the whole rest of the run |
| CancelSafety.EntriesExact | service/http/HttpService.cpp:87-102 | running entries are exactly the transfers under way, one each; an entry not running is a cancelled one |
| CancelSafety.TerminalIsExplained | service/download/DownloadService.cpp:173-186 | whoever sees a terminal state also sees its message |
| CancelSafety.DropsStaleOnly | service/http/HttpService.cpp:238-243 | handling a cancel drops exactly the unclaimed entries of others older than 60 s, and only if its own id was unknown |
| CancelVerdicts.VerdictIsExplained | service/download/DownloadService.cpp:219-350 | completed: the last read made the body whole and the rename went well; failed: something went wrong; cancelled: somebody asked, before the body was whole |
| CancelVerdicts.CancelDecides | service/download/DownloadService.cpp:307-323 | a task cancelled before its end is decided fails if fetchToFd was never called for another reason, ends as if uncancelled if the body was whole first, and otherwise ends cancelled |
| CancelVerdicts.FlagStops | service/http/HttpClient.cpp:374-400 | once the flag shows and no read is under way, no read follows and the task does not complete; it ends cancelled if it has yet to look at the flag or is cancelled itself |
| CancelVerdicts.StoppedEnds | service/download/DownloadService.cpp:307-323 | and it ends: every step of its worker brings it nearer, no other's takes it back |
| CancelVerdicts.CanceledBeforeCall | service/download/DownloadService.cpp:270-276 | a task cancelled before its worker's check never calls fetchToFd and ends cancelled, or failed exactly if something went wrong before |
| CancelVerdicts.TroubleIsNoticed | service/download/DownloadService.cpp:245-335 | every failure is recorded in the step in which it happens, and no other |
| CancelVerdicts.WorkerGetsOn | service/download/DownloadService.cpp:219-350 | every step of a worker takes it on, redirects and reads that bring more apart |
| CancelVerdicts.CancelGetsOn | service/download/DownloadService.cpp:395-413 | every step of `cancel()` takes it on and does nothing but set the flag and send one message; an ended task is left alone |
| HttpRequests.HttpService.Begin | service/http/HttpService.cpp:87-97 | a cancel remembered for the id stays visible to the transfer |
| HttpRequests.HttpService.DropStale | service/http/HttpService.cpp:238-242 | exactly the unclaimed entries older than 60 s go; running ones never |
| HttpRequests.HttpService.Cancel | service/http/HttpService.cpp:229-247 | the id's entry carries the flag afterwards, known or not, and no running entry is lost |
| ResumeSafety.PumpKeepsPrefix | service/http/HttpService.cpp:186-203 | however the body arrives and wherever it is cut, the file stays a prefix of the resource; it succeeds exactly if it gets to the announced end |
| ResumeSafety.PumpArrives | service/http/HttpService.cpp:186-203 | the loop succeeds exactly if what arrives before a cut or a failed write is the whole body |
| ResumeSafety.FetchArrives | service/http/HttpService.cpp:130-217 | a transfer succeeds exactly if there is an answer, seek and any truncation work, and the body arrives |
| ResumeSafety.FetchIsExact | service/http/HttpService.cpp:159-203 | it leaves exactly so many bytes of the resource in the file: those there before, none if the server starts over, and those that arrived |
| ResumeTheorems.VerdictIsExact | service/download/DownloadService.cpp:219-350 | completed and cancelled, each exactly from what happens to the attempt |
| ResumeTheorems.AttemptIsExact | service/download/DownloadService.cpp:219-350 | and what it leaves in the two files, to the byte |
| ResumeTheorems.StartingOverCompletes | service/http/HttpService.cpp:169-175 | a 200 to a resume replaces what is there and completes with the whole resource |
| ResumeTheorems.LastAttemptCompletes | service/download/DownloadService.cpp:219-350 | such an attempt ends any series of attempts |
| ResumeTheorems.AttemptIsSafe | service/download/DownloadService.cpp:219-350 | one attempt keeps `.part` a prefix and changes `destPath` only by the rename; what is renamed is the whole resource exactly if the answer reached its end |
| ResumeTheorems.ShortRangeCompletes | service/http/HttpClient.cpp:541-552 | a task that completes with 501 bytes of 1024 |
| ResumeTheorems.LateRangeLeavesHole | service/http/HttpClient.cpp:653-684 | a 206 that starts behind the end of `.part` leaves the right bytes exactly if the resource has zeros in the gap, and all of them if it also reaches the end |
| ResumeTheorems.ResumedAttemptKeepsBytes | service/http/HttpService.cpp:159-176 | an attempt that the server lets resume loses no byte on disk |
| ResumeTheorems.AnyAttemptsAreSafe | service/download/DownloadService.cpp:219-350 | over any number of attempts `destPath` is untouched until one completes, and is then the resource exactly if the answer to that one reached the end |
| ResumeTheorems.WholeRangesAreEnough | service/download/DownloadService.cpp:325-339 | with answers that all reach the end, `destPath` is untouched until it is exactly the resource |
| ResumeImpl.Download.PumpBody | service/http/HttpService.cpp:186-203 | the loop over the pieces computes the specified file, count and result |
| ResumeImpl.Download.FetchToFd | service/http/HttpService.cpp:130-227 | the call on the file in place is the specified transfer, and succeeds exactly if the body arrives |
| ResumeImpl.Download.FailTask | service/download/DownloadService.cpp:219-350 | an empty `.part` is removed on failure |
| ResumeImpl.Download.RunTask | service/download/DownloadService.cpp:219-350 | the worker on its two files is the specified attempt, and completes exactly if it is called, the body arrives and the rename works |
| ResumeImpl.Download.Retry | service/download/DownloadService.cpp:219-350 | the loop of attempts on the two files is the specified one; it leaves the old destination, or the resource exactly if the last answer reached its end |
| ByteCounterSafety.RunInv | service/download/DownloadService.cpp:100-148 | every interleaving of worker and callbacks keeps order, origin and last word of what is stored |
| ByteCounterSafety.DrainedCounterIsExact | service/download/DownloadService.cpp:325-339 | after success and a drained queue `downloaded` is where the body ended, exactly unless the worker looked at `resumedFrom` too early and stored last |
| ByteCounterSafety.StaleExactly | service/download/DownloadService.cpp:100-104 | too early means: before the callback stored it, with a server that did not start where asked |
| ByteCounterSafety.HonouredCounterIsExact | service/download/DownloadService.cpp:325-339 | with a server that did, `downloaded` is the size of the file |
| ByteCounterSafety.RefusedResumeOvercounts | service/download/DownloadService.cpp:325-326 | a schedule after which three bytes of one are shown |
| ByteCounterSafety.ProgressIsReal | service/download/DownloadService.cpp:124-128 | while the body arrives, `downloaded` is where it resumed, or the start and a count of bytes written by then |
| ByteCounterSafety.BodyIsReported | service/http/HttpService.cpp:186-203 | each turn reports exactly the count it has reached |
| ByteCounterSafety.TotalIsAnnounced | service/download/DownloadService.cpp:124-128 | while the task runs `total` is what the server announced, from the first callback on |
| ByteCounterSafety.TotalIsExact | service/download/DownloadService.cpp:337-339 | what `total` ends at: the size of the file, or the one announced if progress was still to be told |
| ByteCounterSafety.LateCallbackForgetsTotal | service/download/DownloadService.cpp:105-108 | a schedule after which the total of a finished download is unknown |
| LooperSafety.TimeoutDelayIsTight | external/android/system/core/libutils/Timers.cpp:59-73 | the millisecond rounding is never early, less than 1 ms late, fits an int, and gives up exactly beyond the range |
| LooperSafety.PlaceSplits | external/android/system/core/libutils/Looper.cpp:594-600 | a new message goes after those due no later and before all others |
| LooperSafety.InsertSorted | external/android/system/core/libutils/Looper.cpp:586-618 | insertion keeps the queue sorted and adds exactly the message |
| LooperSafety.WithoutKeeps | external/android/system/core/libutils/Looper.cpp:620-653 | removal keeps the queue sorted and every message that does not match as often as it was there |
| LooperSafety.RemovalIsExact | external/android/system/core/libutils/Looper.cpp:620-653 | what goes: the handler's messages, all or those with the given `what` |
| LooperSafety.WithoutKeepsOrder | external/android/system/core/libutils/Looper.cpp:620-653 | the others stay in the order they had |
| LooperSafety.RunInv | external/android/system/core/libutils/Looper.cpp:211-339 | every state of every interleaving satisfies wake-up flow and message conservation |
| LooperSafety.NoLostWakeUp | external/android/system/core/libutils/Looper.cpp:211-339 | a looper blocked in `epoll_wait` has nothing due that its timeout, the wake event or a sender about to signal does not cover |
| LooperSafety.NeverEarly | external/android/system/core/libutils/Looper.cpp:216-226 | a timeout shortened for a message does not end before the message is due |
| LooperSafety.NeverLongerThanAsked | external/android/system/core/libutils/Looper.cpp:216-226 | a blocked looper waits no longer than its caller asked, and less only for a message due within range and sooner |
| LooperProgress.PollProceeds | external/android/system/core/libutils/Looper.cpp:211-339 | every step takes a poll to its next phase; at its end the next due time is the new head's, or none |
| LooperProgress.WakeIsConsumed | external/android/system/core/libutils/Looper.cpp:269-275 | the wake event is consumed by the poll that was told of it, and by no other |
| LooperProgress.WakesForNewHead | external/android/system/core/libutils/Looper.cpp:586-618 | a sender goes on to wake the looper exactly for a new head outside a handler |
| LooperSafety.MessagesAreConserved | external/android/system/core/libutils/Looper.cpp:300-339 | every message sent is queued, in hand, handled or removed exactly once, and handed over only when due |
| LooperSafety.DispatchesHead | external/android/system/core/libutils/Looper.cpp:300-339 | the message handed over is the earliest due |
| LooperImpl.MessageLooper.SendMessageAtTime | external/android/system/core/libutils/Looper.cpp:586-618 | the linear search inserts where specified and wakes only for a new head outside a handler |
| LooperImpl.MessageLooper.RemoveMessages | external/android/system/core/libutils/Looper.cpp:620-653 | removing from the back leaves exactly the specified queue |
| LooperImpl.MessageLooper.PollTimeout | external/android/system/core/libutils/Looper.cpp:216-226 | the timeout handed to epoll is the specified one, within what the caller asked |
| LooperImpl.MessageLooper.DispatchDue | external/android/system/core/libutils/Looper.cpp:300-339 | the loop is the specified one, with the clock read anew for every message and the queue changed by handlers and senders meanwhile; no send among these wakes, and the next due time is the new head's |
| LooperImpl.DrainIsExact | external/android/system/core/libutils/Looper.cpp:300-339 | every message handed over is due at its turn's reading of the clock, none left is due at the last, and none is lost or doubled whatever is sent and removed meanwhile |
| EventListWriter.ItemAdded | external/android/system/logging/liblog/log_event_list.cpp:133-281 | a tree that fits is stored as its encoding, in place, and counts as one element of the enclosing list |
| EventListWriter.LossIsVisible | external/android/system/logging/liblog/log_event_list.cpp:133-281 | no overflow and a position inside the payload, exactly when length and nesting of the whole tree fit |
| EventListWriter.MessageIsEncoding | external/android/system/logging/liblog/log_event_list.cpp:318-345 | the message is the encoding of the list, or of its only element |
| EventListReader.LittleEndianRoundTrip | external/android/system/logging/liblog/log_event_list.cpp:411-419 | a number read from its stored bytes is the number |
| EventListReader.ReadItem | external/android/system/logging/liblog/log_event_list.cpp:354-535 | reading an encoded tree gives its tokens and leaves every enclosing list counted and stopping as it should |
| EventListRoundTrip.ItemLost | external/android/system/logging/liblog/log_event_list.cpp:354-376 | a tree with a list too long or too deep is never read back, wherever in it that list is |
| EventListRoundTrip.RoundTrip | external/android/system/logging/liblog/log_event_list.cpp:354-535 | writing then reading gives the preorder tokens, `complete` on the last only, exactly for trees with at most 127 elements a list and reader depth within 8 |
| EventListRoundTrip.EmptyMessage | external/android/system/logging/liblog/log_event_list.cpp:330-341 | nothing logged reads as one unknown element, complete |
| EventListRoundTrip.LongListIsLost | external/android/system/logging/liblog/include/private/android_logger.h:61-64 | 128 ints are logged without loss and do not come back |
| EventListCodes.ElementBytes | external/android/system/logging/liblog/include/private/android_logger.h:60-100 | the bytes of one element of each kind |
| EventListCodes.NumberResult | external/android/system/logging/liblog/log_event_list.cpp:164-202 | a number is stored and 0 returned exactly if there is no overflow and room; otherwise only the overflow flag is set |
| EventListCodes.StringResult | external/android/system/logging/liblog/log_event_list.cpp:204-233 | the result is how much of a string is stored, as a string of its own; a cut one leaves the position outside the payload |
| EventListCodes.BeginResult | external/android/system/logging/liblog/log_event_list.cpp:133-162 | when a list is opened, and the error otherwise |
| EventListCodes.EndResult | external/android/system/logging/liblog/log_event_list.cpp:259-281 | when one is closed, and what changes |
| EventListCodes.ErrorsAreOverflow | external/android/system/logging/liblog/log_event_list.cpp:133-281 | over a whole tree some call reports an error exactly if the overflow flag is set in the end |
| EventListCodes.ResultsOrPosition | external/android/system/logging/liblog/log_event_list.cpp:133-281 | results and position together tell exactly whether the tree fitted |
| EventListOverflow.StaleEntryIsWritten | external/android/system/logging/liblog/log_event_list.cpp:133-162 | after an overflow, opening and closing a list writes the header of the last one closed at that depth |
| EventListOverflow.ClosedListsKept | external/android/system/logging/liblog/log_event_list.cpp:259-281 | nested opens and closes leave what is stored alone exactly if nothing has overflowed or no list was closed at that depth |
| EventListOverflow.ClosedListIsChanged | external/android/system/logging/liblog/log_event_list.cpp:133-281 | an empty list that is then said to have one element |
| EventListImpl.LogWriter.constructor | external/android/system/logging/liblog/log_event_list.cpp:48-80 | a new context is an open list at the start of a zeroed buffer |
| EventListImpl.LogWriter.Store | external/android/system/logging/liblog/log_event_list.cpp:226-230 | the copy into the buffer changes exactly its target range |
| EventListImpl.LogWriter.WriteNumber | external/android/system/logging/liblog/log_event_list.cpp:164-202 | the write on the buffer and tables is the specified one, with its result code |
| EventListImpl.LogWriter.WriteString | external/android/system/logging/liblog/log_event_list.cpp:204-233 | the same for strings, with the truncation that moves the position by the whole length |
| EventListImpl.LogWriter.ListBegin | external/android/system/logging/liblog/log_event_list.cpp:133-162 | the same for opening a list, on every overflow path |
| EventListImpl.LogWriter.ListEnd | external/android/system/logging/liblog/log_event_list.cpp:259-281 | the same for closing one |
| EventListImpl.LogWriter.ListBuffer | external/android/system/logging/liblog/log_event_list.cpp:318-345 | the same for handing out the message |
| EventListImpl.LogReader.ReadNext | external/android/system/logging/liblog/log_event_list.cpp:354-543 | reading is the specified step; peeking returns the same element and changes nothing |
| HttpFramingProofs.LineEnds | service/http/HttpClient.cpp:403-426 | a line ends with LF or CRLF, and 8192 bytes is the longest |
| HttpFramingProofs.DigitIsWorth | service/http/HttpClient.cpp:494 | the hexadecimal digits of both cases and their values |
| HttpFramingProofs.NumberIsParsed | service/http/HttpClient.cpp:489-499 | `strtoll` in base 16 on any sign, prefix, digits and rest |
| HttpFramingProofs.NoNumber | service/http/HttpClient.cpp:495-498 | and where there is no number |
| HttpFramingProofs.SizeOfHeader | service/http/HttpClient.cpp:489-499 | a chunk header with digits of either case, leading zeros, space around them and any extension gives the number the digits denote |
| HttpFramingProofs.ChunkDelivered | service/http/HttpClient.cpp:481-511 | a chunk in front of any stream adds exactly its data |
| HttpFramingProofs.ChunkedRoundTrip | service/http/HttpClient.cpp:481-520 | every body in every chunking, with any spelling of the sizes, extensions and trailers, is delivered exactly |
| HttpFramingProofs.CutIsNoticed | service/http/HttpClient.cpp:481-511 | a connection that ends anywhere before the last chunk's line gives an error after a prefix of the body |
| HttpFramingProofs.ChunkedGrows | service/http/HttpClient.cpp:481-520 | for any bytes at all, a connection cut short delivers a prefix of what the longer one would |
| HttpReader.FirstEndDecides | service/http/HttpClient.cpp:374-400 | a connection ends with the first turn that is no data and no short wait, and how; all data before that is delivered |
| HttpReader.Reader.Fill | service/http/HttpClient.cpp:374-400 | refilling an empty buffer leaves buffered plus unread bytes the same stream |
| HttpReader.Reader.ReadLine | service/http/HttpClient.cpp:403-426 | the line read depends on the stream and its end only, not on how `recv` splits it |
| HttpReader.Reader.PumpPlain | service/http/HttpClient.cpp:450-477 | exactly the wanted bytes, or an I/O error after all there were; delivered plus remaining bytes make up the stream |
| HttpReader.Reader.PumpChunk | service/http/HttpClient.cpp:481-511 | one turn of the chunk loop |
| HttpReader.Reader.PumpChunked | service/http/HttpClient.cpp:481-520 | the delivered body is the specified decoding of the stream, or a prefix of it if the sink refuses |
| CopyOnWrite.SharedBuffer.Release | external/android/system/core/libutils/SharedBuffer.cpp:115-138 | the count returned is 1 exactly for the last owner |
| CopyOnWrite.SharedBuffer.Dealloc | external/android/system/core/libutils/SharedBuffer.cpp:50-53 | a buffer is freed once, and only with no owner |
| CopyOnWrite.Vector.Copy | external/android/system/core/libutils/VectorImpl.cpp:49-56 | a copy shares the buffer, counts as one reference more, and changes no other vector |
| CopyOnWrite.Vector.ReleaseStorage | external/android/system/core/libutils/VectorImpl.cpp:366-375 | the buffer is freed exactly if no vector is left on it |
| CopyOnWrite.Vector.EditArray | external/android/system/core/libutils/VectorImpl.cpp:85-104 | afterwards the vector is alone on its buffer, the old one exactly if it was alone before, contents unchanged, all others untouched |
| CopyOnWrite.Vector.EditResize | external/android/system/core/libutils/SharedBuffer.cpp:68-91 | the kept items survive the change of size, in place exactly if the vector was alone, and in a copy otherwise |
| CopyOnWrite.Vector.Grow | external/android/system/core/libutils/VectorImpl.cpp:377-451 | the items before and after the gap are the old ones, and the capacity follows the growth rule |
| CopyOnWrite.Vector.Shrink | external/android/system/core/libutils/VectorImpl.cpp:453-517 | exactly the gap's items go, and the capacity follows the shrinking rule |
| CopyOnWrite.Vector.InsertArrayAt | external/android/system/core/libutils/VectorImpl.cpp:124-133 | insertion on this vector's sequence alone; the result code on every path |
| CopyOnWrite.Vector.InsertAt | external/android/system/core/libutils/VectorImpl.cpp:145-158 | the same for repeated items |
| CopyOnWrite.Vector.Add | external/android/system/core/libutils/VectorImpl.cpp:247-250 | the item is appended to this vector's sequence alone |
| CopyOnWrite.Vector.ReplaceAt | external/android/system/core/libutils/VectorImpl.cpp:257-278 | one item changes in this vector's sequence alone |
| CopyOnWrite.Vector.RemoveItemsAt | external/android/system/core/libutils/VectorImpl.cpp:280-290 | the items go from this vector's sequence alone |
| CopyOnWrite.Vector.Clear | external/android/system/core/libutils/VectorImpl.cpp:299-302 | this vector is empty, all others unchanged |
| CopyOnWrite.Vector.SetCapacity | external/android/system/core/libutils/VectorImpl.cpp:334-354 | the contents stay, and the result is the capacity |
| CopyOnWrite.Vector.Resize | external/android/system/core/libutils/VectorImpl.cpp:356-364 | truncated or filled up to the size asked for |
| CopyOnWrite.Vector.Assign | external/android/system/core/libutils/VectorImpl.cpp:67-83 | both vectors have the right side's items, on one buffer or none |
| CopyOnWrite.Vector.Finish | external/android/system/core/libutils/VectorImpl.cpp:292-297 | a vector that goes lets go of its buffer and leaves the others as they are |
| VectorRuns.Run | external/android/system/core/libutils/VectorImpl.cpp:67-517 | after any program of operations on any vectors, each stands for what the same operations make of independent sequences, and no buffer is leaked or freed under an owner |
| VectorRuns.DoesIsDetermined | external/android/system/core/libutils/VectorImpl.cpp:67-517 | what an operation makes of the sequences is determined |
| SharedBufferSafety.RunInv | external/android/system/core/libutils/SharedBuffer.cpp:111-138 | every state of every interleaving of acquires, releases and edits accounts for each reference |
| SharedBufferTheorems.NoUseAfterFree | external/android/system/core/libutils/SharedBuffer.cpp:115-138 | no thread's next step reaches into a freed buffer, and it is freed once |
| SharedBufferTheorems.FreedWithLastReference | external/android/system/core/libutils/SharedBuffer.cpp:115-138 | the buffer is freed, or about to be by one thread, exactly when no reference is left |
| SharedBufferTheorems.WriterIsAlone | external/android/system/core/libutils/SharedBuffer.cpp:55-100 | the check for the only owner is not overtaken: while it writes in place no other thread has a step to take |
| SharedBufferTheorems.SnapshotHolds | external/android/system/core/libutils/SharedBuffer.cpp:55-66 | a thread that keeps its reference and does not write sees the same bytes over any stretch of any run |
| SharedBufferTheorems.NobodyWaits | external/android/system/core/libutils/SharedBuffer.cpp:111-138 | a holder may do anything with its reference at any time, and a call can always go on |
| SharedBufferTheorems.CallsEnd | external/android/system/core/libutils/SharedBuffer.cpp:115-138 | every step brings a call nearer to its end; a release gives up one reference and is the last exactly if the count was one |
| SharedBufferTheorems.EditDecides | external/android/system/core/libutils/SharedBuffer.cpp:55-66 | an edit works in place exactly if no other reference exists |
| VectorCost.AppendsAreLinear | external/android/system/core/libutils/VectorImpl.cpp:36-451 | k single appends to an empty vector move at most 3k items |
| VectorCost.GrowthIsHalf | external/android/system/core/libutils/VectorImpl.cpp:395-403 | a grown buffer has room for half as many items again, rounded down, and one, at least four |
| VectorCost.ShrinkingShrinks | external/android/system/core/libutils/VectorImpl.cpp:467-475 | shrinking makes the buffer smaller exactly above four slots |
| VectorCost.AppendAll | external/android/system/core/libutils/VectorImpl.cpp:377-451 | the appends themselves cost what was counted and leave the items in order |
| StableSort.InsertionSort | external/android/system/core/libutils/VectorImpl.cpp:170-224 | sorted, stable in every rank, a permutation, and nothing is moved exactly if the items were in order |
| StableSort.ShiftIn | external/android/system/core/libutils/VectorImpl.cpp:203-217 | the inner loop moves one item in front of exactly the greater ones |
| StableSort.StableSortIsUnique | external/android/system/core/libutils/VectorImpl.cpp:170-224 | order and stability admit one result only |
| StableSort.StableIsPermutation | external/android/system/core/libutils/VectorImpl.cpp:170-224 | what is stable in every rank is a permutation |
| SortedVector.IndexOrderOf | external/android/system/core/libutils/VectorImpl.cpp:591-619 | the binary search finds the match, or the only place where the item fits |
| SortedVector.AddedItems | external/android/system/core/libutils/VectorImpl.cpp:621-631 | adding keeps strict order and gives exactly the item and those of other rank |
| SortedVector.WithoutItems | external/android/system/core/libutils/VectorImpl.cpp:668-676 | removing keeps strict order and leaves exactly the items of other rank |
| SortedVector.MergedEachIsStrict | external/android/system/core/libutils/VectorImpl.cpp:633-648 | merging item after item keeps strict order |
| SortedVector.MergedEachItems | external/android/system/core/libutils/VectorImpl.cpp:633-648 | the result is the other vector's items and those here of ranks it lacks |
| SortedVector.StrictIsUnique | external/android/system/core/libutils/VectorImpl.cpp:591-666 | a strictly ordered vector is determined by its set of items |
| SortedVector.MergeIsStrict | external/android/system/core/libutils/VectorImpl.cpp:650-666 | merging two sorted vectors keeps strict order exactly if their end items differ |
| SortedVector.ShortCutsAgree | external/android/system/core/libutils/VectorImpl.cpp:650-666 | the short cuts agree with merging item after item exactly then |
| SortedVectorImpl.Sort | external/android/system/core/libutils/VectorImpl.cpp:170-224 | sorting affects this vector only, and a sorted one stays on its shared buffer |
| SortedVectorImpl.Add | external/android/system/core/libutils/VectorImpl.cpp:621-631 | the vector becomes the specified one, at the index returned |
| SortedVectorImpl.Remove | external/android/system/core/libutils/VectorImpl.cpp:668-676 | the same for removal |
| SortedVectorImpl.MergeEach | external/android/system/core/libutils/VectorImpl.cpp:633-648 | the loop computes the specified merge |
| SortedVectorImpl.Merge | external/android/system/core/libutils/VectorImpl.cpp:650-666 | each of the three ways computes the specified merge |
| Hashmap.KeysDiffer | external/android/system/core/libcutils/hashmap.cpp:181-190 | equal keys are never stored twice, in whatever buckets |
| Hashmap.TableAdds | external/android/system/core/libcutils/hashmap.cpp:200-210 | adding an unequal key at either end of its chain adds that pair to the map |
| Hashmap.TableReplaces | external/android/system/core/libcutils/hashmap.cpp:213-217 | replacing a value keeps the stored key |
| Hashmap.TableRemoves | external/android/system/core/libcutils/hashmap.cpp:239-258 | unlinking an entry removes that pair |
| Hashmap.ListingIsMap | external/android/system/core/libcutils/hashmap.cpp:261-274 | the order of iteration names every pair once |
| HashmapImpl.OnIdentity | external/android/system/core/libcutils/hashmap.cpp:192-258 | with equality as `equals` the operations are those of a map |
| HashmapImpl.HashMap.constructor | external/android/system/core/libcutils/hashmap.cpp:43-75 | the bucket count is the least power of two above 4/3 of the capacity |
| HashmapImpl.HashMap.Search | external/android/system/core/libcutils/hashmap.cpp:224-236 | the walk finds the one equal key of its chain |
| HashmapImpl.HashMap.Get | external/android/system/core/libcutils/hashmap.cpp:224-237 | the value of the equal key in the map, across all buckets |
| HashmapImpl.HashMap.PutValue | external/android/system/core/libcutils/hashmap.cpp:192-222 | the map put; the load stays at 3/4 if allocation succeeds |
| HashmapImpl.HashMap.Remove | external/android/system/core/libcutils/hashmap.cpp:239-259 | the map removal, touching one chain |
| HashmapImpl.HashMap.ExpandIfNecessary | external/android/system/core/libcutils/hashmap.cpp:100-129 | rehashing keeps the map; the bucket count doubles exactly above the load |
| HashmapImpl.HashMap.ForEach | external/android/system/core/libcutils/hashmap.cpp:261-274 | each entry is visited once, in order, though the callback removes the current one; a callback's refusal ends it |
| StrParms.ParsePrinted | external/android/system/core/libcutils/str_parms.cpp:139-204 | parsing printed clean pairs puts exactly them |
| StrParms.ParseIsClean | external/android/system/core/libcutils/str_parms.cpp:139-204 | whatever is parsed, keys and values come out without separators |
| StrParms.PrintParseIsIdentity | external/android/system/core/libcutils/str_parms.cpp:331-359 | printing in any order then parsing is the identity exactly on clean maps |
| StrParms.SemicolonIsLost | external/android/system/core/libcutils/str_parms.cpp:139-204 | a value with a semicolon comes back as two pairs |
| StrParms.ValueIsCut | external/android/system/core/libcutils/str_parms.cpp:139-204 | so does every such value: what follows the semicolon becomes a key of its own |
| StrParmsImpl.CreateStr | external/android/system/core/libcutils/str_parms.cpp:139-204 | the tokenising loop over the hash map parses as specified |
| StrParmsImpl.AddToken | external/android/system/core/libcutils/str_parms.cpp:162-193 | one token adds its pair, or nothing |
| StrParmsImpl.ToStr | external/android/system/core/libcutils/str_parms.cpp:331-359 | the text is a printing of exactly the map's pairs |
| StrParmsImpl.Del | external/android/system/core/libcutils/str_parms.cpp:89-126 | the key goes, or without a key everything |
| UnicodeBits.LengthTable | external/android/system/core/libutils/Unicode.cpp:356-359 | the shift table gives the length the leading bits say |
| UnicodeBits.PairBack | external/android/system/core/libutils/Unicode.cpp:296-301 | splitting a joined surrogate pair gives the pair |
| UnicodeBits.EncodedBack | external/android/system/core/libutils/Unicode.cpp:63-102 | the bytes written for any scalar value are well formed and decode to it |
| UnicodeBits.DecodedBack | external/android/system/core/libutils/Unicode.cpp:356-395 | any well-formed character decodes to a scalar value that encodes back to it |
| UnicodeRoundTrip.MeasuredUtf8IsExact | external/android/system/core/libutils/Unicode.cpp:317-345 | the measured length is the number of bytes written, lone surrogates or not |
| UnicodeRoundTrip.MeasuredUtf16IsExact | external/android/system/core/libutils/Unicode.cpp:397-435 | a string that can be measured converts to exactly that many units |
| UnicodeRoundTrip.ThereAndBack16 | external/android/system/core/libutils/Unicode.cpp:283-311 | UTF-16 to UTF-8 and back is always possible, and the identity exactly without lone surrogates |
| UnicodeRoundTrip.ThereAndBack8 | external/android/system/core/libutils/Unicode.cpp:445-479 | UTF-8 to UTF-16 and back is the identity exactly on well-formed strings |
| UnicodeImpl.Utf16ToUtf8Length | external/android/system/core/libutils/Unicode.cpp:317-345 | the loop measures exactly, and fails exactly for nothing or for more than fits |
| UnicodeImpl.StoreUtf8 | external/android/system/core/libutils/Unicode.cpp:89-102 | one code point's bytes, written last to first |
| UnicodeImpl.ConvertUtf16 | external/android/system/core/libutils/Unicode.cpp:283-311 | in a buffer of the measured size neither fatal check can fail, and the result ends in NUL |
| UnicodeImpl.Utf8ToUtf16Length | external/android/system/core/libutils/Unicode.cpp:397-435 | the loop measures exactly, and fails exactly for a character cut short |
| UnicodeImpl.ConvertUtf8 | external/android/system/core/libutils/Unicode.cpp:445-479 | with the measured room it consumes all and writes exactly that much; with less it stops before the first character that does not fit |
| UnicodeImpl.StoreUtf16 | external/android/system/core/libutils/Unicode.cpp:458-474 | one code point's units, or a report that the pair does not fit |
| RecordStream.FrameRoundTrip | external/android/system/core/libcutils/record_stream.cpp:74-94 | the records of a framed stream are those framed, in order, with a cut one at the end ignored |
| RecordStream.FrameFits | external/android/system/core/libcutils/record_stream.cpp:46-63 | framed records within the limit never exceed it in the stream |
| RecordStream.FirstIsStable | external/android/system/core/libcutils/record_stream.cpp:96-113 | a record complete in the buffer is the stream's record whatever follows |
| RecordStreamImpl.Stream.NextBuffered | external/android/system/core/libcutils/record_stream.cpp:96-113 | the first buffered record is consumed whole or not at all |
| RecordStreamImpl.Stream.Compact | external/android/system/core/libcutils/record_stream.cpp:156-167 | the remainder moves to the front unchanged |
| RecordStreamImpl.Stream.ReadMore | external/android/system/core/libcutils/record_stream.cpp:169-177 | a read, never into zero space, loses no byte |
| RecordStreamImpl.Stream.GetNext | external/android/system/core/libcutils/record_stream.cpp:128-188 | the stream's next record or none of it; the full-buffer branch is met only by a record over the limit |
| RecordStreamImpl.ReadAll | external/android/system/core/libcutils/record_stream.cpp:128-188 | for any read sizes the records returned are exactly the stream's, in order, all of them at its end |

## Left out

- Sockets, TLS, DNS, epoll and poll calls, binder transport, parcels, file creation and clocks: what they return is a parameter or a nondeterministic step.
- Weak memory ordering in `RefBase` and `SharedBuffer`: every atomic operation is one sequentially consistent step, and counts stay below 2^31.
- `DEBUG_REFS` code, `forceIncStrong`, an explicit `delete` by a client and references taken inside the object's destructor.
- `MAX_COUNT` is the callers' contract in the runs of `RefBase`; the code only checks it in debug paths and aborts.
- Wake-up of `awaitCompletion`: `finish` stores the state outside the lock, so only the message of a terminal state is covered.
- A restart of the http service: a call that does not reach it fails, but its request map and its ids live on in `CancelHandshake`.
- The shared request object: in `CancelHandshake` the map entry itself stands for it; once a transfer holds the object it also holds the entry.
- A body framed by the end of the connection: a cut then passes for completion (service/http/HttpClient.cpp:461), so `Resume` assumes another framing.
- Redirects, URL parsing, header parsing and `get` itself: only the body framing below them is modelled.
- Looper file descriptors, responses and the epoll set, and handlers that poll again from inside.
- The check of `read_write_flag` and null contexts in the event list: the two uses are two classes. `android_log_write_list` hands the same message to a logger. String lengths are taken to stay below 2^31.
- Allocation failure, and sizes beyond `size_t`, in the vector: both abort or leave the vector unchanged. The constructors, destructors and move functions of the item type are plain copies of values.
- Merging a sorted vector into itself and inserting from a vector's own storage.
- A hash chain is the sequence of its entries: the links themselves, and the failure to allocate an entry, are not modelled. Index masking is the remainder by a power of two.
- Ownership of the strings in `str_parms`, its typed getters and setters, and strings with NUL.
- `utf32_to_utf8` and `utf32_from_utf8_at`, which reuse or repeat what is proved for UTF-8, and the string comparison helpers.
- `EINTR` in the record stream, and its fixed 16-bit limit on `maxRecordLen`, which the model does not need.
