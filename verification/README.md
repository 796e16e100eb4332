# OpenPal broker: a verified model

OpenPal is a broker between command-line agents and the devices that watch them. Its core is state in memory that many
goroutines change, and one hand-written binary parser. This project models that core in Dafny and proves what it is
meant to guarantee.

| file | models |
|---|---|
| `EventLog.dfy`, `Recovery.dfy`, `Eviction.dfy`, `StateManager.dfy` | the output log cache, call by call: numbering, the sliding window, incremental reads, recovery from a stored session, two-phase eviction |
| `CacheAges.dfy` | what sets a cache's times and counters, and what they decide in a cleanup |
| `CacheLock.dfy` | the cache's readers-writer lock, which one kind of read does not give back |
| `ConcurrentLog.dfy`, `PublishOrder.dfy`, `CacheSchedules.dfy` | the same cache under every schedule of the calls' lock-protected sections |
| `Varint.dfy`, `ProtobufScan.dfy`, `BlobWalk.dfy` | the Cursor blob reader: varint decoder, wire-format scanner, walk over the blob graph |
| `ScannedText.dfy`, `BlobMessages.dfy` | what the scanner makes of any one field, and what the messages of a walk say, byte by byte |
| `RateLimit.dfy`, `InputQueue.dfy`, `ClientRegistry.dfy`, `Admission.dfy` | the server: rate limiter, bounded input queue, client registry, and the client limit under concurrent attempts |
| `InputSends.dfy` | which inputs are refused, and how the others reach the command line |
| `AcpClient.dfy`, `AcpReplies.dfy` | matching JSON-RPC responses to requests over one shared stream, and the outcome of each kind of message |
| `OutputBuffer.dfy` | the debounced output of the test client |
| `DeepClone.dfy` | deep cloning of event data on the heap |
| `SessionFileCache.dfy` | the double-checked lazy cache of the session file |
| `OpenCodeJoin.dfy` | the join of message rows and part rows |
| `Json.dfy`, `Runs.dfy` | plain JSON values and runs of state machines, shared by the others |

Two forms of model meet in most files. Code that updates fields or arrays is a class (or a method with a loop), and each
method is proved to have exactly the effect of a function on plain values. Runs and interleavings are sequences of
steps, one step for each lock-protected section or atomic operation, and the main results about them quantify over all.
`Recovery.dfy` and `Eviction.dfy` treat a whole call as one step; `CacheSchedules.dfy` takes the same calls apart into
their sections, and proves that an uninterrupted call is its sections in a row.

## What the proofs found

Most promises hold as stated. Where one holds only sometimes, the exact condition is proved, for all inputs:

- A reader of a new task gets exactly the events it missed, and no panic, if and only if, being behind, it is at most
  `maxEventsPerTask + 1` events behind, and, being up to date, a stored session holds no more messages than it has read
  and, once more than `maxEventsPerTask` events are cached, fits into the array behind them.
  The comments in `internal/state/manager.go` speak of `maxEventsPerTask`, but the window is trimmed before the append
  (lines 415-423), so the code keeps one more. (`Recovery.MissedEventsAreExact`)
- Reads agree with the plain filter at every position if and only if the cache is in number order
  (`EventLog.ReadsAreExactIffOrdered`). Concurrent outputs leave it in number order throughout if and only if no append
  goes below the last cached number; in a schedule that completes, if and only if every append takes the oldest call in
  flight (`PublishOrder.OrderedThroughoutIffNotBelow`, `PublishOrder.OrderedThroughoutIffOldest`).
- Under every schedule of outputs, recovering reads and cleanups, the cached numbers stay consecutive and in step with
  the sequence number if and only if every section finds what it must (`CacheSchedules.KeptThroughoutIff`). A recovery
  into an empty cache keeps them so if and only if no output of that task was in flight when it filled the cache and none
  took a number before it stored the sequence number (`CacheSchedules.RecoveryMustBeAlone`); of two recoveries at once,
  the second fill keeps them so if and only if it brings a whole window (`CacheSchedules.SecondRecovery`), and with both
  stores done, in any order, the numbering is kept if and only if it did and the number stored last is the one its last
  event has (`CacheSchedules.TwoRecoveriesKept`). The server's sending of history does not exclude outputs meanwhile, so
  all of this can happen.
- A read that has to search the cached events returns with its read lock (`internal/state/manager.go`, lines 541 and
  578-594). After any run, a call that waits for the write lock, such as an output's append, can still return if and only
  if no read has searched so far; so one such read is enough to stop all outputs for good.
  (`CacheLock.WriterReturnsIffNobodySearched`, `CacheLock.OneSearchIsEnough`)
- Once caches have to go by access time, the task of the latest output goes if and only if it is too much on its own: when
  the limit on tasks is below two or its events alone are over three quarters of the memory. It is the last to go.
  (`CacheAges.LatestOutputStays`)
- A cache created by a recovery has no creation time, so a limit on age takes it for as old as the zero time: the next
  cleanup past the fast path drops it. (`Recovery.RecoveredCacheIsOld`)
- The limit on connections per second is kept if and only if it divides 10^9: the interval is rounded down, so any other
  limit admits one too many. (`RateLimit.LimitIsKeptIffItDivides`)
- Inputs are delivered in the order of acceptance in every run with so many cancels if and only if there is none: a
  cancel clears the started flag but leaves the processor running, so a second one may overtake it. As long as no second
  one has started, the order is kept whatever the cancels.
  A single run that leaves nothing in hand has kept it if and only if every delivery was of the oldest input in hand.
  (`InputQueue.OrderIsKeptIffNoCancel`, `InputQueue.OneProcessorKeepsOrder`, `InputQueue.OrderedIffDeliversOldest`)
- The limit on clients is tested before the connection is upgraded, and a client enters the registry after that. With at
  most n attempts in between, the registry can exceed the limit by exactly n - 1 clients, so the limit holds if and only
  if attempts come one at a time (`Admission.OvershootIsExact`, `Admission.LimitHoldsIffOneAtOnce`). Besides, replacing a
  client raises the counter for good: the test agrees with the registry of its moment if and only if no client was ever
  replaced (`ClientRegistry.LimitIsExactIffNeverReplaced`), and replacements can use up the whole limit, so that everybody
  is refused while nobody is connected, if and only if two attempts can be in between at once
  (`Admission.LocksOutIffTwoAtOnce`).
- A heartbeat check finds a silent client and removes its device later. If the device is registered then, the check
  closes the client it had found if and only if the device was not added again meanwhile; otherwise it closes one that
  connected after it had looked. If the device is not registered then, it closes nobody.
  (`ClientRegistry.SweepClosesWhatItFound`)
- Every caller gets the one answer about the session file if and only if the value is stored before the valid flag, as
  the code does. (`SessionFileCache.OneAnswerIffValueFirst`)
- The blob scanner panics if and only if one of the fields it comes to is length-delimited with a prefix of 2^63 or more,
  and the walk if and only if a reachable blob has such a field. (`ProtobufScan.PanicsIffHugePrefix`,
  `BlobWalk.WalkBlobs`)
- Recovering into an over-long slice panics in one exact case. (`StateManager.EventSlice.Populate`)

## Model

| member | source | states |
|---|---|---|
| `Varint.DecodeVarint` | internal/session_handler/cursor.go:260-272 | the shift-and-or loop returns the base-128 sum of the groups modulo 2^64 and their number; length 0 exactly when the first ten bytes hold no terminator |
| `Varint.AccumulateGroup` | internal/session_handler/cursor.go:265 | or-ing in a group shifted and cut to 64 bits adds it modulo 2^64, also in the tenth round where bits are lost |
| `Varint.EncodedShape` | internal/session_handler/cursor.go:260-272 | the standard encoding has one terminator, at its end, no more bytes than the value needs, and the value as its base-128 sum ("Base 128 Varints" of the Protocol Buffers Encoding specification) |
| `Varint.VarintRoundTrip` | internal/session_handler/cursor.go:260-272 | decoding the encoding of any 64-bit value, whatever bytes follow, returns the value and the encoding's length, at most ten |
| `Varint.ShortVarintsAreSmall` | internal/session_handler/cursor.go:263-271 | fewer than ten bytes never decode to 2^63 or more |
| `ProtobufScan.IsMostlyPrintable` | internal/session_handler/cursor.go:275-286 | the count decides: more than four fifths of the bytes are printable |
| `ProtobufScan.HexInjective` | internal/session_handler/cursor.go:237 | different payloads give different blob ids |
| `ProtobufScan.ParseDelimited` | internal/session_handler/cursor.go:225-248 | one length-delimited field, with its error branches and the panic of a negative length; `ScannedText` says the same without its helpers |
| `ProtobufScan.ParseField` | internal/session_handler/cursor.go:208-254 | one round of the scan: how far it goes and what it contributes, for every wire type |
| `ProtobufScan.ParseProtobufBlob` | internal/session_handler/cursor.go:197-257 | the loop returns every field's contribution in field order, on any bytes, and panics exactly when the specification does |
| `ProtobufScan.EncodedFieldStep` | internal/session_handler/cursor.go:208-254 | one round at the front of an encoded field consumes exactly that field |
| `ProtobufScan.ScanAfterMessage` | internal/session_handler/cursor.go:197-257 | scanning encoded fields with any bytes behind them gives the fields' contributions and then what the rest gives |
| `ProtobufScan.ScanEncodedMessage` | internal/session_handler/cursor.go:197-257 | scanning the encoding of any well-formed fields returns exactly the trimmed printable payloads and the hex of the 32-byte payloads, in field order ("Message Structure" of the same specification) |
| `ProtobufScan.PanicsIffHugePrefix` | internal/session_handler/cursor.go:203-234 | the scan of any bytes panics if and only if, at some position where it starts a field, a length-delimited tag is followed by a prefix that decodes to 2^63 or more |
| `ProtobufScan.ShortBlobsNeverPanic` | internal/session_handler/cursor.go:225-234 | no blob of ten bytes or fewer panics |
| `ProtobufScan.HugePrefixPanics` | internal/session_handler/cursor.go:231-234 | a field with such a prefix panics, whatever well-formed fields come before it and whatever bytes after |
| `ProtobufScan.HugePrefixSize` | internal/session_handler/cursor.go:231-234 | the smallest such blob has eleven bytes, so the bound of ten is sharp |
| `ScannedText.TrimIsMiddle` | internal/session_handler/cursor.go:244 | what is left is one part of the payload; only ASCII white space is dropped, and all of it at both ends |
| `ScannedText.TrimAround` | internal/session_handler/cursor.go:244 | white space around something that neither begins nor ends with it is exactly what goes |
| `ScannedText.MostlyPrintableIff` | internal/session_handler/cursor.go:275-286 | text has fewer than one control character in five bytes, tab, line feed and carriage return aside |
| `ScannedText.HexSpells` | internal/session_handler/cursor.go:238 | a reference is spelled in lower-case hexadecimal, the high half of each byte first |
| `ScannedText.DelimitedFieldScans` | internal/session_handler/cursor.go:224-249 | for every field number and payload: 32 bytes are one reference; any other payload is one text, its part between the white space, if the number is not zero, fewer than one byte in five is a control character and two bytes are left; otherwise nothing |
| `ScannedText.ReadableIsText` | internal/session_handler/cursor.go:239-247 | visible characters and inner spaces, with any white space around, contribute exactly the text between |
| `ScannedText.ReadableFieldScans` | internal/session_handler/cursor.go:197-257 | and the scan of a message of one such field returns that text alone |
| `ScannedText.SkippedFields` | internal/session_handler/cursor.go:218-254 | numbers, eight and four bytes and the other wire types are passed over, whatever follows |
| `ScannedText.BadTagSkipsAByte` | internal/session_handler/cursor.go:208-212 | where no tag ends within ten bytes the scan goes on one byte further |
| `ScannedText.UnendedNumberIsRescanned` | internal/session_handler/cursor.go:219-229 | an unended number is scanned as fields; an unended length too, from its second byte on |
| `ScannedText.ShortPayloadIsRescanned` | internal/session_handler/cursor.go:230-233 | a payload cut short is scanned as fields from behind its length on |
| `ScannedText.ShortFixedEndsScan` | internal/session_handler/cursor.go:222-251 | a fixed-width value cut short ends the scan |
| `BlobWalk.PreOrderSplit` | internal/session_handler/cursor.go:182-187 | walking a list of children is walking its parts one after the other, each without what came before |
| `BlobWalk.PreOrderIsReachability` | internal/session_handler/cursor.go:164-193 | the pre-order from the root visits exactly the reachable ids, each once, over cycles and dangling references |
| `BlobWalk.ParentPrecedes` | internal/session_handler/cursor.go:164-193 | every visited id other than the root comes after some id that refers to it |
| `BlobWalk.OnlyRootIsUser` | internal/session_handler/cursor.go:145-193 | the user role is on the first message when the root has text and nowhere else |
| `BlobWalk.Walker.ExtractFromBlob` | internal/session_handler/cursor.go:164-188 | the recursive walk terminates, marks exactly the pre-order of what was unvisited, and appends its messages in that order, or panics because one of those blobs has a length prefix of 2^63 or more |
| `BlobWalk.Walker.WalkChildren` | internal/session_handler/cursor.go:182-188 | the same for the loop over the children |
| `BlobWalk.RefsAreHex` | internal/session_handler/cursor.go:183-237 | every reference the scan returns has 64 characters, so the length test never drops one |
| `BlobWalk.WalkBlobs` | internal/session_handler/cursor.go:142-145 | the whole walk: panics exactly when a reachable blob has a length prefix of 2^63 or more; otherwise visits exactly the reachable ids and has one message for each that has text, in depth-first pre-order |
| `BlobMessages.JoinAppend` | internal/session_handler/cursor.go:182 | joining puts one line break between neighbours and moves nothing |
| `BlobMessages.LinesOfJoin` | internal/session_handler/cursor.go:182 | splitting a message at its line breaks gives the texts back when none of them holds one |
| `BlobMessages.OneMessageEach` | internal/session_handler/cursor.go:164-193 | the messages of an order are those of its blobs with text, one each, in order, each with its texts joined |
| `BlobMessages.PlainBlobScans` | internal/session_handler/cursor.go:197-257 | a blob of plain texts and then references scans to exactly these, in field order |
| `BlobMessages.PlainBlobIsOneMessage` | internal/session_handler/cursor.go:142-188 | the walk over a blob of plain texts yields one message of the user, whose lines are the texts in field order |
| `BlobMessages.ParentThenChildren` | internal/session_handler/cursor.go:142-188 | the walk over a blob that refers to others yields the user's message and then the assistant's, in the order of the references |
| `EventLog.CacheIsLogSuffix` | internal/state/manager.go:340-427 | after any run of outputs of a new task the cache is exactly the last maxEvents + 1 events of the untrimmed log |
| `EventLog.SearchFinds` | internal/state/manager.go:17-21 | in number order the binary search splits the events into those not newer and those newer |
| `EventLog.OrderedReadIsFilter` | internal/state/manager.go:540-595 | in number order, all fast paths and the search together are the plain filter, for every position |
| `EventLog.ReadsAreExactIffOrdered` | internal/state/manager.go:540-595 | reads agree with the filter at every position if and only if the events are in number order |
| `EventLog.CacheReadIsExact` | internal/state/manager.go:395-427 | looking in the cache of a new task finds exactly the events after the position if and only if it is at most maxEvents + 1 behind |
| `Recovery.MissedEventsAreExact` | internal/state/manager.go:481-526 | the incremental read of a new task returns without a panic exactly the events missed, once each and in order, if and only if the reader, being behind, is at most maxEvents + 1 behind and, being up to date, a stored session is no longer than what it has read and fits behind a cache over its limit |
| `Recovery.ReadSession` | internal/adapter/session_handler_bridge.go:38-51 | recovered events are numbered from one in message order, each with its message's role, time and text |
| `Recovery.CreateKeepsNumbering` | internal/state/manager.go:296-307 | creating a task keeps the numbering if and only if it has no cached events |
| `Recovery.AddKeepsNumbering` | internal/state/manager.go:357-427 | an output always keeps the numbering |
| `Recovery.GetKeepsNumbering` | internal/state/manager.go:481-526 | exactly when an uninterrupted incremental read keeps the numbering, the reallocation panic included |
| `Recovery.CleanKeepsNumbering` | internal/state/manager.go:665-792 | a cleanup keeps the numbering |
| `Recovery.RunKeepsNumbering` | internal/state/manager.go:296-792 | over every allowed run of uninterrupted calls the cached events of every task are consecutive, fit the window, and end at its sequence number |
| `Recovery.RecoveryThenOutput` | internal/state/manager.go:487-520 | an uninterrupted recovery of n messages returns them as 1 to n, and the next output is n + 1 and follows them in the cache |
| `Recovery.EvictedTaskStartsOver` | internal/state/manager.go:778-790 | a full cleanup keeps the state of exactly the known tasks that stay cached; an evicted one refuses outputs until it is created again, and then its cache holds the new log alone, numbered from one |
| `Recovery.RecoveredCacheIsOld` | internal/state/manager.go:603-692 | whatever is added to a recovered cache, it is too old if and only if a limit on age is set and the time since the zero time exceeds it; then the next cleanup past the fast path drops it, and its task's state with it unless no cache is young enough |
| `CacheAges.OutputIsAccess` | internal/state/manager.go:395-427 | an output of a known task sets the access time, sets the creation time only of a new cache, and is counted as an update, an eviction when the window was full, and an entry when it is new |
| `CacheAges.OutputsAge` | internal/state/manager.go:395-427 | after any outputs of a new task its cache is as old as the first and was accessed at the last; the counters count the updates and the evictions beyond maxEvents |
| `CacheAges.SearchStaysInside` | internal/state/manager.go:571-576 | the search never runs off the end of events whose last one is newer |
| `CacheAges.ReadIsAccess` | internal/state/manager.go:540-595 | a read sets the access time if and only if it starts behind the first cached event and before the last, more than five seconds after the last access; a full replay does not; hits and misses |
| `CacheAges.RecoveredTimes` | internal/state/manager.go:598-625 | a recovery leaves the times of a cache it finds and gives a new one the zero time for both |
| `CacheAges.MemoryIsPerEvent` | internal/state/manager.go:676-680 | the estimate is 512 bytes for every cached event |
| `CacheAges.CleanupByNumbers` | internal/state/manager.go:665-792 | from the configured numbers alone: when a cleanup does nothing, that it leaves nothing too old otherwise, when everything young stays, the targets when it does not, and the counters |
| `CacheAges.PressureDropsTooOld` | internal/state/manager.go:683-698 | with a quarter of the tasks or half of the memory in use nothing too old survives a cleanup |
| `CacheAges.LaterAccessStays` | internal/state/manager.go:753-771 | of two young tasks the one accessed later is never evicted while the other is kept, in every valid order |
| `CacheAges.LatestOutputStays` | internal/state/manager.go:395-771 | after an output later than every cached access, its task, if young, goes only when no cache stays; and when phase two runs, if and only if it is over a target on its own |
| `CacheAges.LaterOutputStays` | internal/state/manager.go:296-771 | over every run of creations, outputs and reads: the task with an output after the last access to the other, and later in time, is never evicted while the other is kept |
| `Eviction.MemoryWithout` | internal/state/manager.go:676-679 | the memory estimate does not depend on the order of iteration |
| `Eviction.EvictsShortestPrefix` | internal/state/manager.go:758-771 | phase two removes a prefix of the access order, the shortest one that meets both targets |
| `Eviction.SurvivorsWithinLimits` | internal/state/manager.go:665-775 | whatever branch a cleanup takes, both maxima hold afterwards; if phase two ran, both targets |
| `Eviction.CleanupMeetsLimits` | internal/state/manager.go:665-792 | every return leaves tasks and memory within their maxima, only removes entries, and counts exactly the removed ones |
| `Eviction.EvictionIsFairAndMinimal` | internal/state/manager.go:753-771 | everything evicted was accessed no later than everything kept, and one eviction fewer would miss a target |
| `Eviction.LruIsFairAndMinimal` | internal/state/manager.go:709-771 | the same for a whole cleanup in which phase two runs |
| `ConcurrentLog.NumberAccounts` | internal/state/manager.go:340-353 | taking a number keeps the account of every task |
| `ConcurrentLog.PublishAccounts` | internal/state/manager.go:395-427 | appending keeps it: numbers only move between in flight, cached and trimmed |
| `ConcurrentLog.EveryScheduleAccounts` | internal/state/manager.go:357-427 | under every interleaving the numbers in flight, cached and trimmed are together exactly 1 to the sequence number |
| `ConcurrentLog.AccountedNumbersAreDistinct` | internal/state/manager.go:340-353 | so all assigned numbers are distinct and none is missing |
| `PublishOrder.OrderedThroughoutIffNotBelow` | internal/state/manager.go:357-427 | under every schedule of outputs a cache stays in number order throughout if and only if no append goes below its last number |
| `PublishOrder.OrderedThroughoutIffOldest` | internal/state/manager.go:357-427 | in every schedule that completes the calls of a task, if and only if each append takes the oldest call in flight |
| `PublishOrder.OvertakenStays` | internal/state/manager.go:395-427 | once a call is overtaken, no continuation completes it in order |
| `PublishOrder.IdleIsSteady` | internal/state/manager.go:340-353 | any known task with no call in flight whose cache does not run ahead of its number meets the assumptions of the schedule theorem |
| `PublishOrder.OutOfOrderPublishing` | internal/state/manager.go:357-427 | two further outputs of any known task, whatever is cached or in flight, can end up cached in reverse, and a reader that has the first is told there is nothing new |
| `CacheSchedules.StepKept` | internal/state/manager.go:296-792 | for each lock-protected section, exactly when it keeps the cached numbers consecutive and the sequence number ahead of them by the calls in flight |
| `CacheSchedules.KeptThroughoutIff` | internal/state/manager.go:296-792 | every schedule of sections keeps the numbering throughout if and only if each section finds what it must |
| `CacheSchedules.RecoveryMustBeAlone` | internal/state/manager.go:487-511 | storing the recovered sequence number keeps the numbering if and only if no output of that task was in flight at the fill and none took a number since |
| `CacheSchedules.SecondRecovery` | internal/state/manager.go:598-625 | of two reads that both found nothing, the second fill keeps the numbering if and only if it brings a whole window |
| `CacheSchedules.TwoRecoveriesKept` | internal/state/manager.go:487-511 | with both fills and both stores done, in every order, the numbering is kept if and only if the second fill brought a whole window and the number stored last is its last event's, with no call in flight |
| `CacheSchedules.OrderlySchedulesKeepNumbering` | internal/state/manager.go:296-792 | schedules that append oldest first, create tasks afresh and leave recoveries alone keep the numbering at every point, for every task |
| `CacheSchedules.AddIsTwoSections` | internal/state/manager.go:357-375 | an uninterrupted output is its two sections |
| `CacheSchedules.GetIsThreeSections` | internal/state/manager.go:481-526 | an uninterrupted read is its three |
| `CacheSchedules.CleanupIsTwoSections` | internal/state/manager.go:665-792 | an uninterrupted cleanup is its two |
| `CacheLock.WaitsForEver` | internal/state/manager.go:578-594 | once a read that searches has its read lock, whoever waits for the write lock waits for ever |
| `CacheLock.WriterReturnsIffNobodySearched` | internal/state/manager.go:540-595 | after any run, a call that waits for the write lock can still return if and only if no read has searched so far |
| `CacheLock.OneSearchIsEnough` | internal/state/manager.go:578-594 | one such read, whenever it takes its lock, and no later append ever gets through, whatever else happens |
| `StateManager.EventSlice.SlideTo` | internal/state/manager.go:416-420 | the in-place shift leaves exactly the last n events |
| `StateManager.EventSlice.Push` | internal/state/manager.go:414-423 | trim then append is the window function |
| `StateManager.EventSlice.Populate` | internal/state/manager.go:608-624 | recovered events go behind, cut to the limit; the reallocation panics exactly when the slice is over the limit and lacks room |
| `StateManager.BinarySearchSeq` | internal/state/manager.go:17-21 | the loop computes the search function |
| `StateManager.Manager.NextSeqWithTime` | internal/state/manager.go:340-353 | the whole new state of taking a number, and the error for an unknown task |
| `StateManager.Manager.UpdateCache` | internal/state/manager.go:395-427 | the whole new state of one append, the access time included (`CacheAges.OutputIsAccess`) |
| `StateManager.Manager.AddOutput` | internal/state/manager.go:357-375 | number then append; an unknown task changes nothing |
| `StateManager.Manager.GetFromCache` | internal/state/manager.go:540-595 | every path returns and leaves what the read function says |
| `StateManager.Manager.PopulateCache` | internal/state/manager.go:598-625 | the whole new state, or the reallocation panic, exactly when the cached events are over the limit and their array lacks room; neither the size counter nor the times of a new entry are set |
| `StateManager.Manager.StoreSeq` | internal/state/manager.go:504-509 | the last section of a recovering read |
| `StateManager.Manager.GetIncrementalOutput` | internal/state/manager.go:481-526 | an uninterrupted call: cache first, recovery on nil, the panic, the highest number and the filter |
| `StateManager.Manager.CleanupCache` | internal/state/manager.go:665-792 | the method with its running totals is the cleanup function for some order by last access, on every return |
| `StateManager.Manager.EvictOldest` | internal/state/manager.go:754-767 | dropping from the front on running totals is eviction in access order until both targets are really met, and counts what it drops |
| `StateManager.EntriesAreLruOrder` | internal/state/manager.go:740-751 | the sorted entries list every cache once, by last access |
| `RateLimit.AcceptedAreSpaced` | internal/server/ws.go:271-299 | under every interleaving and any clocks, accepted times are at least the interval apart |
| `RateLimit.SwapLosesOnlyToAcceptance` | internal/server/ws.go:292-298 | a compare-and-swap fails only if another attempt was accepted since the load |
| `RateLimit.AttemptsAreCounted` | internal/server/ws.go:285-298 | the rate-limited counter and the acceptances count the attempts that ended that way, each once |
| `RateLimit.CountInWindow` | internal/server/ws.go:242-250 | k times in a half-open window, spaced, satisfy (k - 1) * interval < width |
| `RateLimit.SecondIsBounded` | internal/server/ws.go:242-299 | so do the acceptances of any one second of any run |
| `RateLimit.LimitIsKeptIffItDivides` | internal/server/ws.go:249 | no second of any run has more acceptances than the limit, if and only if the limit divides 10^9 |
| `RateLimit.LoneAttempt` | internal/server/ws.go:258-299 | an uninterrupted attempt by the numbers: refused at the client limit, accepted without a rate, and with one exactly when 10^9 divided by it has passed since the last acceptance |
| `RateLimit.NoRateLimit` | internal/server/ws.go:277-279 | without a rate nobody is rate-limited in any run |
| `RateLimit.ConnectionLimiter.SetConnectionRateLimit` | internal/server/ws.go:242-250 | the settings it leaves, off for zero and below |
| `RateLimit.ConnectionLimiter.SetMaxClients` | internal/server/ws.go:252-256 | only the client limit changes |
| `RateLimit.ConnectionLimiter.CheckMaxClients` | internal/server/ws.go:260-266 | refuses exactly when a limit is set and reached |
| `RateLimit.ConnectionLimiter.LoadLast` | internal/server/ws.go:281-289 | the load and the test are one step of the machine |
| `RateLimit.ConnectionLimiter.TrySwap` | internal/server/ws.go:292-298 | so is the compare-and-swap, whatever happened to the word |
| `RateLimit.ConnectionLimiter.CheckConnectionRateLimit` | internal/server/ws.go:271-299 | an uninterrupted call is the three steps, and is allowed exactly below the client limit and the interval after the last acceptance |
| `InputQueue.EveryInterleaving` | internal/server/ws.go:1130-1316 | accepted inputs are, in order, those removed and those waiting; depth at most 100; each call accepted or counted once; processors at most one more than cancels; an accepted input has a processor; each processor delivers what it took, and what is delivered was accepted |
| `InputQueue.OneProcessorKeepsOrder` | internal/server/ws.go:1130-1163 | each processor delivers in the order of acceptance, and so does the server while it has started no second one, whatever the cancels |
| `InputQueue.NoCancelKeepsOrder` | internal/server/ws.go:1130-1163 | with no cancel at most one processor exists, and delivered, in hand and waiting make up the accepted sequence in order |
| `InputQueue.Overtakes` | internal/server/ws.go:1298-1316 | a run with one cancel in which the later input is delivered first, and the earlier one after the cancel |
| `InputQueue.OrderedIffDeliversOldest` | internal/server/ws.go:1130-1163 | a run that leaves nobody with an input in hand has delivered in the order of acceptance if and only if every delivery was of the oldest input in hand |
| `InputQueue.OrderIsKeptIffNoCancel` | internal/server/ws.go:1298-1316 | no input is delivered after one accepted later, in every run of so many cancels, if and only if that number is zero |
| `InputSends.RefusedIffHundredWait` | internal/server/ws.go:2144-2158 | after any run, a send is refused and counted if and only if 100 inputs wait; otherwise its input waits last |
| `InputSends.HundredSendsDropNothing` | internal/server/ws.go:219 | a run with at most 100 sends drops nothing, whatever else happens |
| `InputSends.SendsAlone` | internal/server/ws.go:2144-2158 | sends alone leave the first 100 inputs waiting in order and drop the rest |
| `InputSends.RoundsDeliverAll` | internal/server/ws.go:1130-1163 | a processor left to itself delivers all that waits, in order, and nothing else |
| `InputSends.SentIsDelivered` | internal/server/ws.go:1130-2159 | from the first send to the last delivery: up to 100 inputs arrive exactly as sent |
| `InputSends.NoAdapterNoProcessor` | internal/server/ws.go:2148 | without an adapter no processor ever starts |
| `InputQueue.InputServer.QueueInput` | internal/server/ws.go:2137-2159 | an uninterrupted call is a send and a start |
| `InputQueue.InputServer.ProcessOne` | internal/server/ws.go:1130-1163 | one round of a processor takes the front input and delivers it |
| `InputQueue.InputServer.DrainInputQueue` | internal/server/ws.go:1282-1292 | the loop empties the queue, counts what it removed, and is that many drain steps and one more |
| `InputQueue.InputServer.HandleCancel` | internal/server/ws.go:1298-1316 | an uninterrupted cancel empties the queue and clears the flag, and leaves every processor with what it holds |
| `ClientRegistry.EveryRun` | internal/server/ws.go:806-857 | connections less disconnections is the registry size; the current counter exceeds it by the replacements; whoever is not registered is closed |
| `ClientRegistry.ClosedForGood` | internal/server/ws.go:112-116 | a closed client stays closed however the run goes on |
| `ClientRegistry.PeakIsHighest` | internal/server/ws.go:828-833 | the peak is the largest value the current counter had at any point of the run |
| `ClientRegistry.ConnectionsAreCounted` | internal/server/ws.go:822-826 | the total counts every addition, and an added client is the newest |
| `ClientRegistry.ClosesNobodyElse` | internal/server/ws.go:806-857 | a step closes nobody but the client it names or the one its device has registered |
| `ClientRegistry.LimitIsExactIffNeverReplaced` | internal/server/ws.go:260-266 | the test as such: it passes as if there were one client more for each replacement so far, and agrees with the registry of its moment if and only if there was none |
| `ClientRegistry.EmptyRegistryRefuses` | internal/server/ws.go:811-826 | one device that reconnects often enough and leaves uses up any limit set afterwards, with nobody connected |
| `Admission.RunStaysBounded` | internal/server/ws.go:740-829 | in every run with at most n attempts between check and entry, those counted and those admitted never exceed the limit by more than n - 1 |
| `Admission.OvershootIsExact` | internal/server/ws.go:740-829 | in all such runs the registry stays within a bound if and only if the bound is at least the limit plus n - 1 |
| `Admission.LimitHoldsIffOneAtOnce` | internal/server/ws.go:258-266 | the registry stays within the limit in all such runs if and only if n is one |
| `Admission.LocksOutIffTwoAtOnce` | internal/server/ws.go:740-829 | whenever nobody is registered somebody can be admitted, in all such runs, if and only if n is one |
| `ClientRegistry.Registry.AddClient` | internal/server/ws.go:806-837 | the objects follow the add step: the old client closed, the new one registered, every counter |
| `ClientRegistry.Registry.RemoveClient` | internal/server/ws.go:839-857 | the objects follow the remove step |
| `ClientRegistry.Registry.CheckHeartbeat` | internal/server/ws.go:477-513 | an uninterrupted check removes exactly the open clients silent for more than twenty seconds, each once |
| `ClientRegistry.SweepClosesWhatItFound` | internal/server/ws.go:485-512 | after any steps between a check's look and its removal, if the device is registered, the check closes the client it had found exactly when the device was not added again, and otherwise a newer one |
| `AcpClient.EndsAtFirst` | internal/adapter/acp_client.go:454-548 | the count of messages before the first that decides, among those a request may read |
| `AcpClient.NextIsProper` | internal/adapter/acp_client.go:402-549 | one request that waits ends with the verdict of the first failure or non-echo message of its own id among its reads, and reads them all and times out if and only if there is none; every notification is passed on |
| `AcpClient.EveryRun` | internal/adapter/acp_client.go:402-549 | over any sequence of requests and any stream: ids count up, requests read adjoining parts, each ends as the row above says, and the handler has every notification read so far, once and in order |
| `AcpClient.AnswersAreOwn` | internal/adapter/acp_client.go:499-513 | no request takes another's answer or an echo, and no message is read for two requests |
| `AcpReplies.PassedOverOrDecides` | internal/adapter/acp_client.go:462-514 | a request reads past timeouts, nulls and objects without its own id or that send a request back, and past nothing else |
| `AcpReplies.ResponseIsOutcome` | internal/adapter/acp_client.go:500-545 | the first response object with the request's id is its outcome: its error if that is not null, else its result if that is not null, else empty (section 5 of the JSON-RPC 2.0 specification) |
| `AcpReplies.FailureIsOutcome` | internal/adapter/acp_client.go:462-480 | end of file, a failed read and a line that is no object each end the request in their own way |
| `AcpReplies.SilenceTimesOut` | internal/adapter/acp_client.go:454-548 | a request that waits times out if and only if thirty reads, or fewer up to the deadline, are all passed over |
| `AcpReplies.NotificationIsNotice` | internal/adapter/acp_client.go:484-498 | a notification object (section 4.1 of the same specification) reaches the handler with its name and parameters, and nothing else does |
| `AcpReplies.NoticesInOrder` | internal/adapter/acp_client.go:484-498 | those of a part of the stream reach it in the order of the stream |
| `AcpReplies.NewSessionByResponse` | internal/adapter/acp_client.go:237-258 | for every response: an error never opens a session and leaves the one there is; a result object names it by the string under sessionId |
| `AcpReplies.NewSessionWithoutResponse` | internal/adapter/acp_client.go:247-251 | any other ending leaves the session too |
| `AcpClient.Connection.SendRequest` | internal/adapter/acp_client.go:402-549 | the method is the request function, for every early return |
| `AcpClient.Connection.AwaitReply` | internal/adapter/acp_client.go:454-548 | the bounded loop with its deadline, without reference to the request function |
| `AcpClient.Connection.Handle` | internal/adapter/acp_client.go:464-546 | one round: what ends the request and what goes to the handler, for every kind of message |
| `AcpClient.Connection.NewSession` | internal/adapter/acp_client.go:237-258 | the session after each outcome; without success it stays as it was |
| `AcpClient.Connection.Prompt` | internal/adapter/acp_client.go:260-273 | a prompt reads nothing, and without a session uses no number |
| `OutputBuffer.StaysBehind` | cmd/ws-test/main.go:266-339 | under any timing the printed text lacks exactly the buffered content of what flushing at once would print |
| `OutputBuffer.TimingIsInvisible` | cmd/ws-test/main.go:266-339 | two schedules of the same chunks, notices and resets print the same text once flushed |
| `OutputBuffer.EagerRun` | cmd/ws-test/main.go:271-284 | a run of one type prints one icon and its chunks concatenated, after a line break if it changes the type |
| `OutputBuffer.PrintsTheText` | cmd/ws-test/main.go:235-339 | under any timing a conversation of responses and notices, the last response possibly still open, prints each notice and, for each response, its runs on lines of their own |
| `OutputBuffer.OneChunkPrints` | cmd/ws-test/main.go:322-327 | under any timing one message is a robot and its text, one thought a balloon and its text |
| `OutputBuffer.TwoChunksPrint` | cmd/ws-test/main.go:321-332 | two chunks of one type share their icon |
| `OutputBuffer.ThoughtThenMessagePrints` | cmd/ws-test/main.go:270-277 | a thought and then a message stand on two lines, each behind its own icon |
| `OutputBuffer.TimingFreeIffKnown` | cmd/ws-test/main.go:322-333 | why the two literal types matter: the timing is invisible exactly for the types that have an icon |
| `OutputBuffer.Buffer.FlushNow` | cmd/ws-test/main.go:313-339 | prints the content once, with the icon only the first time, and empties the buffer |
| `OutputBuffer.Buffer.AddChunk` | cmd/ws-test/main.go:266-292 | the add step, flushing and breaking the line on a change of type |
| `OutputBuffer.Buffer.TimerFires` | cmd/ws-test/main.go:294-300 | a timer callback is a flush whenever it runs |
| `OutputBuffer.Buffer.EndResponse` | cmd/ws-test/main.go:235-247 | a flush, the reset, and what is printed after it |
| `OutputBuffer.Buffer.PrintNotice` | cmd/ws-test/main.go:249-253 | a notice is a flush and then its text |
| `DeepClone.LargerRegion` | internal/util/util.go:160-228 | the meaning of a value depends only on what it reaches |
| `DeepClone.SameMeaningIffAlike` | internal/util/util.go:160-228 | two values mean the same if and only if they look alike on the heap: the same scalars, keys and lengths all the way down, nil like empty |
| `DeepClone.CloneMapInterface` | internal/util/util.go:160-228 | the clone of any acyclic value means the same, and every map and slice in it is newly allocated |
| `DeepClone.CloneMap` | internal/util/util.go:119-140 | the same for a map, filled key by key |
| `DeepClone.CloneSlice` | internal/util/util.go:187-198 | the same for a slice, filled in place |
| `DeepClone.CloneForForward` | internal/state/manager.go:384-390 | a nil map stays nil |
| `DeepClone.CacheThenWrite` | internal/state/manager.go:365-379 | a cached value keeps its meaning whatever sequence of writes to maps and slices, the data's own included, the caller goes on to make |
| `SessionFileCache.OneAnswerForAll` | internal/adapter/adapter.go:879-912 | under every interleaving and any changes on disk the file is examined at most once and every return is that answer |
| `SessionFileCache.AnswersAreFromDisk` | internal/adapter/adapter.go:900-906 | the answer is what the disk gave at one of the steps |
| `SessionFileCache.UnnamedIsNo` | internal/adapter/adapter.go:880-883 | without a session file nothing is examined and every return is no |
| `SessionFileCache.OneAnswerIffValueFirst` | internal/adapter/adapter.go:905-907 | that holds if and only if the value is stored before the valid flag |
| `SessionFileCache.Adapter.SessionFileExists` | internal/adapter/adapter.go:879-912 | an uninterrupted call takes the answer from disk the first time and keeps it |
| `OpenCodeJoin.ExtractContentText` | internal/session_handler/claude.go:243-262 | strings as they are, the text blocks of arrays joined by lines, nothing else |
| `OpenCodeJoin.GroupParts` | internal/session_handler/opencode.go:126-134 | the map holds, for every id, exactly that id's parts in order |
| `OpenCodeJoin.GroupHasTheTexts` | internal/session_handler/opencode.go:149-160 | scanning a message's group finds what scanning all parts finds |
| `OpenCodeJoin.ReadMessages` | internal/session_handler/opencode.go:126-179 | building through the map gives what scanning all parts for each message gives, with the fallback to the message's own content |
| `OpenCodeJoin.ScanFindsTexts` | internal/session_handler/opencode.go:149-161 | the texts of a message are those of its rows that decode and have a non-empty one |
| `OpenCodeJoin.PartsHideContent` | internal/session_handler/opencode.go:163-168 | a message with a text among the parts shows one, and the same whatever its content is |
| `OpenCodeJoin.TwoPartsAreTwoLines` | internal/session_handler/opencode.go:144-178 | two parts with text, among any rows without, are the two lines of the message, under its role or the assistant's |
| `OpenCodeJoin.ContentIsFallback` | internal/session_handler/opencode.go:163-173 | without a text among the parts a message shows its content, and is left out when that has none |
| `OpenCodeJoin.BlockGives` | internal/session_handler/claude.go:249-257 | of a content array exactly the text blocks count, each with its text |
| `OpenCodeJoin.RowsInOrder` | internal/session_handler/opencode.go:138-179 | messages stand in the order of their rows |
| `OpenCodeJoin.OnlyGroupsMatter` | internal/session_handler/opencode.go:126-179 | only a message's own parts and their order matter, not how the groups are interleaved |

## Left out

- `StateManager.Manager`: the map holds cache values; the event slice that is shifted in place is the class `EventSlice`, proved by itself, so that a cache shares no array with its readers is not stated. Readers get copies in the source (internal/state/manager.go:562-581).
- `StateManager.Manager.PopulateCache`: the capacity of the array is a parameter, as the language leaves its growth open.
- `StateManager.Manager.CleanupCache`: sorting is modelled by insertion, one permutation sorted by last access; the results about cleanups quantify over every such permutation.
- `StateManager.Manager.GetIncrementalOutput`: one uninterrupted call; its sections are steps of their own in `CacheSchedules`.
- `StateManager.Manager.GetFromCache`: one atomic read that gives its lock back; that the partial-read path does not (internal/state/manager.go:578-594) is the subject of `CacheLock`, and the results about reads and schedules hold as far as calls return.
- `CacheAges.ReadIsAccess`: says what the refresh writes; that the source asks for the write lock there while it holds the read lock is in `CacheLock` too.
- `Recovery.RunKeepsNumbering`: takes each call as one step, which `CacheSchedules.OrderlySchedulesKeepNumbering` does not; assumes each task is created while it has no cached events, and that reads that may recover start from the beginning, as the server's do (internal/server/ws.go:861-864), or meet an empty cache; `Recovery.GetKeepsNumbering` and `CacheSchedules.KeptThroughoutIff` say exactly what happens otherwise.
- `Recovery.RecoveryThenOutput`: one uninterrupted call and the output after it; what may happen in between is the subject of `CacheSchedules.RecoveryMustBeAlone`.
- `Recovery.ReadSession`: a session that cannot be read counts as absent, as the source treats it.
- `ProtobufScan.IsMostlyPrintable`: the floating-point test against 0.8 is the exact comparison 5 * printable > 4 * length.
- `ProtobufScan.ParseDelimited`: trimming is by ASCII white space; the Unicode cases of the library's trim are not modelled.
- `BlobWalk.WalkBlobs`: the blob table is a map from id to bytes; the error for an empty result and the materialised file are not part of this model.
- `RateLimit.AcceptedAreSpaced`: times are unbounded integers, so a difference of two clock readings that overflows 64 bits is not modelled. The broadcast limiter (internal/server/ws.go:1662-1683) is the same machine over another word.
- `InputQueue.EveryInterleaving`: before shutdown; stopping the command-line agent and what it does with an input are not modelled.
- `ClientRegistry.Registry.CheckHeartbeat`: an uninterrupted check; in runs its removals are steps of their own, so anything may happen in between.
- `ClientRegistry.EveryRun`: before shutdown; a listener that removes a newer client of its device is an ordinary removal step.
- `AcpClient.EveryRun`: requests one after the other, with a handler that is set before and stays; ids compare as exact numbers, so the rounding of numbers above 2^53 is not modelled, nor is the decoding of a result beyond the session id, whose key is matched exactly.
- `AcpClient.Connection.SendRequest`: a stream that goes silent for ever has no place in the model, where each read returns something.
- `OutputBuffer.PrintsTheText`: notices stand between responses, though `OutputBuffer.TimingIsInvisible` allows them anywhere; the verbose client prints some lines without flushing first (cmd/ws-test/main.go:226-228); those are not covered.
- `DeepClone.CloneMapInterface`: pooled maps count as newly allocated, and values of types it does not handle are returned as they are; cyclic data, on which the source does not return, is excluded.
- `OpenCodeJoin.ReadMessages`: rows come as already decoded sequences in query order.
- `Recovery.RecoveredCacheIsOld`: ages are unbounded integers; the source's difference of two times saturates at about 292 years, which only a limit of that length can tell apart.
- Statistics in floating point, wall-clock values, back-off, task status, device sequence numbers, the session manager, keyword classification and argument building: short or straight-line.
- Processes, PTYs, WebSocket reads and writes, HTTP, SQLite, files and flags: input and output without an invariant of their own.
