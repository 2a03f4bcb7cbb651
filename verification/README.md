# Verification of the example stores, counters and adapters

This project models the systems that the repository's examples test, and proves what their
specifications and comments promise of them.

* **Histories** (`KeyValue`, `Epochs`): accepted writes, the epochs between freeze points, and what is
  left of a history when some epochs are missing. Both stores are described in these terms.
* **The embedded key-value store, Go form** (`GoStore`, `GoHistory`, `GoProtocol`, `GoCalls`,
  `GoReads`, `GoRuns`, `GoProgress`, `GoLoss`). `GoStore` has the struct with its methods, proved against functions
  on the store's layers. `GoProtocol` interleaves the same functions as lock-level steps of any number
  of clients, with program counters and the owners of `flushMutex` and `mu`. A step may also be a
  segment write that returns an error, with or without the object having been stored. A record of
  accepted writes, freeze points and failed writes is kept beside the store, and everything that reads
  return is stated in terms of it. `GoCalls` ties each request to what its call does and returns, and
  the record to the calls.
* **Its FizzBee specification** (`FizzSpec`, `GoRefinesSpec`). The `Writer` and `Storage` roles as an
  abstract machine. Both assertions of the specification hold of it, DirtyRead in every state and
  DurableRead in every infinite behaviour with finitely many Puts and a fair Flush, and the Go store
  refines it.
* **The embedded key-value store, Rust form** (`RustStore`, `RustHistory`, `RustProtocol`,
  `RustCalls`, `RustRuns`, `RustProgress`, `RustRace`). Steps are the stretches between await points.
  Whether `write_internal` takes the frozen buffer (as shipped, line 80) or clones it (line 81) is a
  parameter.
* **The atomic counters** (`Counters`), with `fetch_update` as a load and compare-and-swap loop.
* **TodoMVC** (`TodoMvc` and `TodoActions` on values, `TodoMvcRoles` as objects).
* **The record printers and titles of the todo-app adapters** (`Printers`, `PrinterCollisions`,
  `Titles`).
* **The buffered writer** (`BufferedWriter`), on slices with backing arrays.

`Options`, `Decimal` and `BlobNames` are shared. `dafny verify dfyconfig.toml` checks everything.

## Where the code differs from its text

* The note at kvstore.go:37-40 says that dirty reads may miss frozen data until a line is uncommented;
  the lines it refers to are active. The model follows the code.
* After a failed segment write the Go store behaves in a way that no comment mentions: the next flush of
  other keys drops the unwritten data (`GoLoss.FailureThenFreezeLosesData`; exactly when:
  `GoReads.FreezeLoses`), and the next flush of an empty buffer reports success
  (`GoLoss.FlushAfterFailureIsNotDurable`; exactly when a nil return means durable:
  `GoRuns.FlushOkIsDurableIff`, and key by key `GoRuns.FlushOkShowsKeyIff`).
* The shipped Rust form lets a dirty read miss a value that is being written
  (`RustRace.TakenSegmentIsMissed`), and loses for good what a failed put was writing
  (`RustRace.FailedPutLosesValue`). `RustHistory.MemoryViewIsLastPutIff` says exactly which states are
  affected for which keys, and `RustRuns.DirtyGetIsLastPutIff` exactly which calls.
* In the clone form nothing is lost, but a flush that finds something left frozen by a failed one stores
  that and not the buffer, and still returns Ok (`RustRace.CloneFlushLeavesBuffer`).
  `RustRuns.FlushOkIsDurableIff` covers both forms.
* The counter of `counter.rs` meets its specification exactly for limits that are not negative
  (`Counters.GoodRefinesIff`).
* Padded names stop sorting as numbers at 10000 (`Decimal.PaddedOrderIff`). The Go scan does not depend
  on the order of names.
* The printers do not escape quotes; `PrinterCollisions.CollidesIff` says exactly which lists have the
  text of another list.

## Model

| member | source | states |
|---|---|---|
| KeyValue.ReplayIsLastPut | examples/embedded-kvstore/fizz/embedded_kvstore.fizz:26-27 | the buffer left by a history holds exactly the keys written (keys are strings of Unicode scalar values, here and in every row below), each with the entry of its last write; this is the `_last_put` map the specification compares with |
| Decimal.PaddedDenotes | examples/embedded-kvstore/fizz/embedded_kvstore.fizz:100-106 | zero-padded decimal keeps the number, for all naturals |
| Decimal.PaddedOrder | examples/embedded-kvstore/fizz/embedded_kvstore.fizz:100-106 | below 10000 padded numbers sort as strings the way they sort as numbers |
| Decimal.PaddedWidth | examples/embedded-kvstore/fizz/embedded_kvstore.fizz:100-106 | the padded number has exactly four digits up to 9999, and from 10000 on no padding at all |
| Decimal.PaddedOrderIff | examples/embedded-kvstore/fizz/embedded_kvstore.fizz:100-106 | for all m < n the padded numbers sort as strings the way they sort as numbers if and only if m is at most n cut to the length of m; so from 10000 on not always |
| BlobNames.BlobKeyInjective | examples/embedded-kvstore/go/kvstore/kvstore.go:116-116 | two segments have the same blob name exactly when they have the same number |
| BlobNames.FilenameInjective | examples/embedded-kvstore/fizz/embedded_kvstore.fizz:65-66 | the same for the names in the specification |
| BlobNames.BlobKeyOrderIff | examples/embedded-kvstore/go/kvstore/kvstore.go:179-179 | for all m < n whole blob names sort as their numbers if and only if m is at most n cut to the length of m |
| BlobNames.BlobKeyOrder | examples/embedded-kvstore/go/kvstore/kvstore.go:179-179 | in particular whole blob names sort by number below 10000 |
| GoStore.Tag | examples/embedded-kvstore/go/kvstore/kvstore.go:155-161 | the tag-and-value encoding is non-empty and decodes to the entry it was made from, tombstone or value (also the empty value) |
| GoStore.TagAll | examples/embedded-kvstore/go/kvstore/kvstore.go:153-163 | an encoded buffer has only non-empty values and decodes to exactly the buffer |
| GoStore.GetReadsVisible | examples/embedded-kvstore/go/kvstore/kvstore.go:85-133 | reading the buffer, the frozen buffer and the segments newest first equals one lookup in the overlay laid oldest first, for any number of segments with any of them missing, at both durability levels |
| GoStore.FreezeKeepsVisible | examples/embedded-kvstore/go/kvstore/kvstore.go:153-172 | a freeze changes no read at either level when the frozen buffer it replaces is absent or already stored |
| GoStore.WriteAndClearKeepMemory | examples/embedded-kvstore/go/kvstore/kvstore.go:174-187 | storing the frozen buffer and then dropping it change no Memory read, and add the frozen buffer to what Remote reads see |
| GoStore.KVStore.constructor | examples/embedded-kvstore/go/kvstore/kvstore.go:53-59 | a new store is empty with its counter at zero |
| GoStore.KVStore.Put | examples/embedded-kvstore/go/kvstore/kvstore.go:69-75 | sets the raw entry of the key in the active buffer and changes nothing else |
| GoStore.KVStore.Delete | examples/embedded-kvstore/go/kvstore/kvstore.go:136-143 | sets a tombstone in the active buffer and changes nothing else |
| GoStore.KVStore.Get | examples/embedded-kvstore/go/kvstore/kvstore.go:77-134 | returns the overlay's value of the key at the requested level (Remote without options); never indexes an empty value |
| GoStore.KVStore.Freeze | examples/embedded-kvstore/go/kvstore/kvstore.go:148-172 | does nothing on an empty buffer; otherwise both loops together produce a blob map and a frozen buffer that are the encoded old buffer, empty the buffer and advance the counter |
| GoStore.KVStore.WriteBlob | examples/embedded-kvstore/go/kvstore/kvstore.go:179-183 | stores the blob under its name and succeeds, or reports an error with the blob stored or not, and changes nothing else |
| GoStore.KVStore.Clear | examples/embedded-kvstore/go/kvstore/kvstore.go:184-187 | drops the frozen buffer only |
| GoStore.KVStore.Flush | examples/embedded-kvstore/go/kvstore/kvstore.go:145-189 | alone, from a store without traces of failure: makes every Memory read of before a Remote read of after when its segment is stored, and keeps Memory reads also when the write fails; an error leaves the frozen buffer in place |
| GoStore.FlushKeepsMemory | examples/embedded-kvstore/go/kvstore/kvstore.go:145-189 | the same of the function that `Flush` is proved to compute |
| GoStore.FlushAddsBufferOnly | examples/embedded-kvstore/go/kvstore/kvstore.go:145-189 | alone, also with a frozen buffer left over from a failure: a flush adds to Remote reads exactly the active buffer if its segment is stored and nothing otherwise, and what was left over is in neither Remote nor Memory reads after it |
| GoProtocol.StepKeepsInv | examples/embedded-kvstore/go/kvstore/kvstore.go:69-189 | every lock-level step of any number of clients keeps the invariant: lock owners match program counters, each layer is its part of the history, only a failed write leaves a gap |
| GoProtocol.RunKeepsInv | examples/embedded-kvstore/go/kvstore/kvstore.go:69-189 | every state of every run, of any number of clients, satisfies the invariant |
| GoReads.RemoteReadIsKept | examples/embedded-kvstore/go/kvstore/kvstore.go:114-133 | a Remote read is the last put in the history without the epochs whose segments do not exist |
| GoReads.MemoryReadIsKept | examples/embedded-kvstore/go/kvstore/kvstore.go:85-133 | a Memory read is the last put in the history without exactly the epochs that were superseded unwritten |
| GoReads.MemoryReadIsLastPut | examples/embedded-kvstore/go/kvstore/kvstore.go:164-183 | as long as no unwritten segment has been superseded, also after a failed write, a Memory read is the last put |
| GoReads.MemoryReadIsLastPutIff | examples/embedded-kvstore/go/kvstore/kvstore.go:164-183 | in every state, whatever failed: a Memory read of a key is its last put if and only if it is not so that the newest epoch that wrote the key was superseded unwritten, the active buffer does not hold it and what is left answers differently |
| GoReads.FreezeLoses | examples/embedded-kvstore/go/kvstore/kvstore.go:164-172 | a freeze changes the Memory read of a key if and only if it replaces an unwritten frozen buffer that holds the key, the active buffer does not, and the segments answer differently |
| GoReads.RemoteReadIsPrefix | examples/embedded-kvstore/go/kvstore/kvstore.go:114-133 | with no superseded segment a Remote read of any key is its value at the freeze of the newest stored segment |
| GoReads.DurableReadsIncludeThem | examples/embedded-kvstore/go/kvstore/kvstore.go:114-133 | once the first writes are in segments without a gap, a Remote read of any key returns its value at a point no older than them, whatever fails later |
| GoRuns.ReadsInEveryState | examples/embedded-kvstore/fizz/embedded_kvstore.fizz:86-98 | without failed writes, in every state of every run, mid-flush included, Memory reads are last puts (DirtyRead) and Remote reads are reads of one history prefix |
| GoRuns.DurablePointIsMonotone | examples/embedded-kvstore/go/kvstore/kvstore.go:114-133 | the prefix that Remote reads see never moves backwards along a run, whatever fails |
| GoRuns.OnlyFreezesSupersede | examples/embedded-kvstore/go/kvstore/kvstore.go:164-172 | the superseded segments change only at a freeze, which supersedes the newest segment if it is unwritten |
| GoRuns.SegmentsAreWrittenOnce | examples/embedded-kvstore/go/kvstore/kvstore.go:165-180 | no stored segment is ever overwritten or removed |
| GoCalls.CallAnswers | examples/embedded-kvstore/go/kvstore/kvstore.go:69-189 | every call returns an answer of the kind its request asks for |
| GoCalls.PutIsAccepted | examples/embedded-kvstore/go/kvstore/kvstore.go:69-75 | an acknowledged Put or Delete has appended exactly its own key and entry to the record of accepted writes, in its return step, and has put the entry over whatever the active buffer held for the key |
| GoCalls.HistoryIsPuts | examples/embedded-kvstore/go/kvstore/kvstore.go:69-143 | nothing else is in that record: each write in it was appended by the return of a Put or Delete call with that key and entry |
| GoRuns.GetIsLinearizable | examples/embedded-kvstore/go/kvstore/kvstore.go:77-134 | a Get called for a key at a level returns the answer of one atomic read of that key at that level, taken at one step within the call: where it finds the key in a buffer, or reads the newest segment, although a segment may land between iterations of the scan |
| GoRuns.GetReturnsHistoryValue | examples/embedded-kvstore/go/kvstore/kvstore.go:77-134 | hence, without failures, a Get called at level Memory returns a last put of its key, and one called at level Remote the value at a freeze point, of a moment within the call |
| GoCalls.FlushErrIff | examples/embedded-kvstore/go/kvstore/kvstore.go:179-183 | a Flush call returns an error if and only if its segment write did, and nil otherwise |
| GoRuns.FlushErrKeepsMemory | examples/embedded-kvstore/go/kvstore/kvstore.go:179-183 | the failing write changes no Memory read; Remote reads gain the frozen buffer exactly if the object was stored all the same |
| GoRuns.FlushOkHasTested | examples/embedded-kvstore/go/kvstore/kvstore.go:145-152 | every Flush call that returns nil has tested the buffer within the call |
| GoRuns.FlushOkIsDurableIff | examples/embedded-kvstore/go/kvstore/kvstore.go:145-189 | whatever has failed: when Flush returns nil, all writes accepted before its test of the buffer are in gapless segments if and only if no segment was missing at that test |
| GoRuns.FlushOkShowsKeyIff | examples/embedded-kvstore/go/kvstore/kvstore.go:145-189 | key by key, on the early return as on the full path: a Remote read after a nil return equals the Memory read at the test if and only if it is not so that an unwritten frozen buffer alone holds the value, and equals the last put if and only if no missing segment hides it |
| GoRuns.FlushOkIsDurable | examples/embedded-kvstore/go/kvstore/kvstore.go:145-189 | in particular, when Flush returns nil and no write has failed, all writes accepted before its call are in gapless segments, also on the early return for an empty buffer |
| GoRuns.FlushedWritesStayVisible | examples/embedded-kvstore/go/kvstore/kvstore.go:145-189 | after a nil return with no segment missing at its test, every later Remote read of any key returns its value at a point no older than the test, even if later writes fail |
| GoLoss.FailureThenFreezeLosesData | examples/embedded-kvstore/go/kvstore/kvstore.go:167-183 | a run in which a failed write followed by a flush of another key makes a Memory read miss a value that was put and never deleted |
| GoLoss.FlushAfterFailureIsNotDurable | examples/embedded-kvstore/go/kvstore/kvstore.go:149-152 | a run in which the flush after a failed one finds the buffer empty and returns nil, with the value in no segment |
| GoProgress.SomeThreadCanStep | examples/embedded-kvstore/go/kvstore/kvstore.go:145-189 | whenever a call is pending some thread's next step is enabled |
| GoProgress.OutcomesAreFree | examples/embedded-kvstore/go/kvstore/kvstore.go:69-189 | a client that is not in a call can make any call, and a segment write can succeed or fail, stored or not |
| GoProgress.StepLowersMeasure | examples/embedded-kvstore/go/kvstore/kvstore.go:77-189 | every step other than a new call lowers a measure, also a freeze that lengthens the scan of waiting Gets |
| GoProgress.PendingCallsDrain | examples/embedded-kvstore/go/kvstore/kvstore.go:77-189 | without new calls a run is no longer than the measure of its start, and it stops only when every call has returned |
| FizzSpec.DirtyReadHolds | examples/embedded-kvstore/fizz/embedded_kvstore.fizz:86-91 | in every behaviour of the specification a dirty get is the last put |
| FizzSpec.DirtyGetReturnsLastPut | examples/embedded-kvstore/fizz/embedded_kvstore.fizz:29-46 | and a dirty Get that can happen next returns the last put |
| FizzSpec.FlushMakesDurable | examples/embedded-kvstore/fizz/embedded_kvstore.fizz:48-63 | in an infinite behaviour, once a flush has frozen after the last Put and has run to its end, Gets in between allowed, every clean get is the last put, for good |
| FizzSpec.DurableReadHolds | examples/embedded-kvstore/fizz/embedded_kvstore.fizz:93-98 | DurableRead: in every infinite behaviour with finitely many Puts and infinitely many steps of Flush there is a moment from which on every clean get of every key is the last put, and so is what every Get returns |
| GoRefinesSpec.GetsAgree | examples/embedded-kvstore/fizz/embedded_kvstore.fizz:36-46 | related states answer every get alike |
| GoRefinesSpec.StepSimulates | examples/embedded-kvstore/fizz/embedded_kvstore.fizz:16-66 | each step of the Go store without failures is matched by the specification's steps, with the counter shifted while the newest segment is unwritten |
| GoRefinesSpec.RunRefinesSpec | examples/embedded-kvstore/fizz/embedded_kvstore.fizz:16-83 | every run without failed writes, of any number of clients, is a behaviour of the specification |
| GoRefinesSpec.GetIsShown | examples/embedded-kvstore/fizz/embedded_kvstore.fizz:29-46 | in that behaviour each Get of the run appears within its call as a get for the key and the level asked for, with the result returned |
| GoRefinesSpec.PutIsShown | examples/embedded-kvstore/fizz/embedded_kvstore.fizz:21-27 | and each Put or Delete appears at its return as a Put of its key and entry |
| GoRefinesSpec.FlushIsShown | examples/embedded-kvstore/fizz/embedded_kvstore.fizz:48-63 | and each Flush that returns nil appears within its call as one whole flush, at once on the early return or step by step |
| RustStore.ListingReadsAll | examples/embedded-kvstore/rust/src/kvstore.rs:148-160 | reading an ascending listing from its end equals a lookup in the overlay of all segments |
| RustStore.EmbeddedKvStore.Put | examples/embedded-kvstore/rust/src/kvstore.rs:120-124 | inserts the value into `buf` only |
| RustStore.EmbeddedKvStore.Delete | examples/embedded-kvstore/rust/src/kvstore.rs:126-130 | inserts a tombstone into `buf` only |
| RustStore.EmbeddedKvStore.FreezeInternal | examples/embedded-kvstore/rust/src/kvstore.rs:58-69 | swaps the buffers exactly when `buf` is not empty and nothing is frozen, and says whether it did |
| RustStore.EmbeddedKvStore.WriteInternal | examples/embedded-kvstore/rust/src/kvstore.rs:72-94 | in either form: nothing when nothing is frozen; otherwise the frozen content becomes a new segment or, on an error, a new segment or none |
| RustStore.EmbeddedKvStore.Get | examples/embedded-kvstore/rust/src/kvstore.rs:132-161 | without interference returns the overlay's value at the requested level |
| RustStore.EmbeddedKvStore.Flush | examples/embedded-kvstore/rust/src/kvstore.rs:163-170 | alone, from any state: what was frozen, or else the buffer, is laid over the segments unless its put failed without storing it; the whole new state of both buffers in either form and on either result |
| RustHistory.MemoryViewIsLastPutIff | examples/embedded-kvstore/rust/src/kvstore.rs:79-82 | in every state of either form, whatever failed: an atomic look at all layers is the last put of a key if and only if it is not so that the newest epoch that wrote the key is in flight or lost, nothing newer holds it and what is left answers differently; in the clone form always |
| RustHistory.OverlookedIs | examples/embedded-kvstore/rust/src/kvstore.rs:79-82 | in the clone form no key is overlooked; in the shipped form a key whose newest settled epoch was not lost is overlooked exactly when it is in a taken but unwritten segment under a value other than the stored one |
| RustHistory.StoredIsPrefix | examples/embedded-kvstore/rust/src/kvstore.rs:87-91 | with no epoch lost the segments hold one prefix of the history |
| RustProtocol.StepKeepsInv | examples/embedded-kvstore/rust/src/kvstore.rs:58-170 | every step of any number of tasks, in either form, keeps the lock discipline and the link between layers and history |
| RustProtocol.RunKeepsInv | examples/embedded-kvstore/rust/src/kvstore.rs:58-170 | every state of every run satisfies the invariant |
| RustProtocol.ShippedHandOff | examples/embedded-kvstore/rust/src/kvstore.rs:58-82 | in the shipped form nothing is frozen while the gate is free, a freeze empties `buf` into the frozen buffer whatever it holds, and the final clear changes nothing |
| RustProtocol.GuardExcludes | examples/embedded-kvstore/rust/src/kvstore.rs:58-62 | while a freeze holds the write guard of `buf` no other task reads or writes it |
| RustRuns.OnlyFailedPutsLose | examples/embedded-kvstore/rust/src/kvstore.rs:79-91 | a step loses an epoch if and only if it is a put that fails without storing its object, in the shipped form, and it loses exactly the epoch it was writing |
| RustRuns.LostForGood | examples/embedded-kvstore/rust/src/kvstore.rs:72-94 | what is lost stays lost for the rest of the run |
| RustCalls.CallAnswers | examples/embedded-kvstore/rust/src/kvstore.rs:22-28 | every call returns an answer of the kind its request asks for |
| RustCalls.PutIsAccepted | examples/embedded-kvstore/rust/src/kvstore.rs:120-124 | an acknowledged put or delete has appended exactly its own key and entry to the record of accepted writes, in its return step, and has put the entry over whatever `buf` held for the key |
| RustCalls.HistoryIsPuts | examples/embedded-kvstore/rust/src/kvstore.rs:120-130 | nothing else is in that record: each write in it was appended by the return of a put or delete call with that key and entry |
| RustCalls.FlushErrIff | examples/embedded-kvstore/rust/src/kvstore.rs:87-91 | a flush call returns an error if and only if its segment put did, and Ok otherwise |
| RustRuns.DirtyGetIsLinearizable | examples/embedded-kvstore/rust/src/kvstore.rs:132-161 | a get called for a key at level Memory, whose parts race with puts, flushes and failures, returns what was the last put of that key at a moment within the call, unless it lists at a moment at which the key is overlooked; in the clone form always |
| RustRuns.DirtyGetIsLastPutIff | examples/embedded-kvstore/rust/src/kvstore.rs:132-161 | a get called at level Memory for a key whose last put does not change during the call returns it if and only if it does not list at a moment at which the key is overlooked |
| RustRuns.DirtyGetMissesOnlyInFlight | examples/embedded-kvstore/rust/src/kvstore.rs:72-94 | the same in terms of memory: unless the key was lost earlier, the get misses the last put exactly when it lists while the key is in a taken but unwritten segment under another value than the stored one |
| RustRuns.CleanGetIsLinearizable | examples/embedded-kvstore/rust/src/kvstore.rs:132-161 | a get called for a key at level Remote looks at no buffer and returns what an atomic read of all segments at its listing would, while flushes add more: the last put without the epochs then missing; with nothing lost, the value at the end of a history prefix |
| RustRuns.RunGrows | examples/embedded-kvstore/rust/src/kvstore.rs:58-94 | history, freeze points and stored epochs only grow along a run |
| RustRuns.FlushOkHasTested | examples/embedded-kvstore/rust/src/kvstore.rs:163-166 | every flush call that returns Ok has tested the buffers within the call |
| RustRuns.FlushOkIsDurableIff | examples/embedded-kvstore/rust/src/kvstore.rs:163-170 | whatever has failed: when a flush returns Ok, all writes accepted before its test of the buffers are in gapless epochs of the segments if and only if at the test no epoch was in flight or lost and there was not both something left frozen and something in `buf` |
| RustRuns.FlushedWritesStayVisible | examples/embedded-kvstore/rust/src/kvstore.rs:163-170 | then every later clean read of any key returns its value at a point no older than the test, whatever fails later |
| RustRuns.FlushOkIsDurable | examples/embedded-kvstore/rust/src/kvstore.rs:163-170 | in particular, when no put has failed by the Ok return, everything accepted before the call is visible to, or overwritten in, every later clean read, whatever fails later |
| RustProgress.SomeTaskCanStep | examples/embedded-kvstore/rust/src/kvstore.rs:58-170 | whenever a call is pending some task has an enabled next step |
| RustProgress.OutcomesAreFree | examples/embedded-kvstore/rust/src/kvstore.rs:72-94 | a task that is not in a call can make any call, and a segment put can succeed or fail, stored or not |
| RustProgress.StepLowersMeasure | examples/embedded-kvstore/rust/src/kvstore.rs:58-170 | every step other than a new call lowers a measure, also a put of a segment that waiting gets will have to read |
| RustProgress.PendingCallsDrain | examples/embedded-kvstore/rust/src/kvstore.rs:58-170 | without new calls a run is no longer than the measure of its start, and it stops only when every call has returned |
| RustRace.TakenSegmentIsMissed | examples/embedded-kvstore/rust/src/kvstore.rs:79-91 | a run of the shipped form in which a get called at level Memory returns nothing although at every moment of the call the last put is a value |
| RustRace.FailedPutLosesValue | examples/embedded-kvstore/rust/src/kvstore.rs:79-91 | a run of the shipped form in which a put value is in no layer after a failed put, the next flush returns Ok and a dirty get returns nothing |
| RustRace.CloneFlushLeavesBuffer | examples/embedded-kvstore/rust/src/kvstore.rs:62-66 | a run of the clone form in which the flush after a failed one returns Ok and a value put before it is in no segment |
| Counters.BadDriftBound | examples/fizzbee-mbt-quickstart/rust/src/counter.rs:15-26 | with n threads and limit at least 1 every run of the check-then-act counter stays between 1 - n and limit + n - 1, and no addition wraps when that fits in 32 bits |
| Counters.BadDriftIsReached | examples/fizzbee-mbt-quickstart/rust/src/counter.rs:15-26 | for every n some run reaches each end of the bound |
| Counters.BadWrapsBeyond | examples/fizzbee-mbt-quickstart/rust/src/counter.rs:15-20 | when the bound does not fit some run wraps to the most negative value |
| Counters.BadStaysAtZero | examples/fizzbee-mbt-quickstart/rust/src/counter.rs:15-26 | with a limit below 1 the counter stays at zero |
| Counters.GoodStepRefines | examples/fizzbee-mbt-quickstart/rust/src/counter.rs:45-71 | each call of the compare-and-swap counter changes it in one step, the one that ends the call, and there as the atomic specification does; the value stays in [0, limit] |
| Counters.GoodRunRefines | examples/fizzbee-mbt-quickstart/specs/simple-counter/counter.fizz:11-18 | every run of any number of threads gives the value that the clamped counter has after the same operations in the order in which the calls ended |
| Counters.CallTakesEffect | examples/fizzbee-mbt-quickstart/rust/src/counter.rs:45-71 | every call that ends has taken effect once, at its end, as the operation that was called |
| Counters.EffectsAreCalls | examples/fizzbee-mbt-quickstart/rust/src/counter.rs:45-71 | and nothing else takes effect |
| Counters.CallAloneEnds | examples/fizzbee-mbt-quickstart/rust/src/counter.rs:45-71 | from any point of a call, however stale what it has read, the call left alone ends within two steps with the effect that the specification gives it |
| Counters.SpuriousFailureRetries | examples/fizzbee-mbt-quickstart/rust/src/counter.rs:45-71 | a swap that fails for no reason changes nothing and ends no call that still has something to do |
| Counters.GoodRefinesIff | examples/fizzbee-mbt-quickstart/specs/simple-counter/counter.fizz:11-18 | for any number of threads: the counter agrees with the clamped counter in all states of all runs if and only if the limit is not negative |
| Counters.BadMemCounter.Inc | examples/fizzbee-mbt-quickstart/rust/src/counter.rs:15-20 | alone, from a value in range, it is the specification's increment |
| Counters.BadMemCounter.Dec | examples/fizzbee-mbt-quickstart/rust/src/counter.rs:22-26 | alone, from a value in range, it is the specification's decrement |
| Counters.GoodMemCounter.FetchUpdate | examples/fizzbee-mbt-quickstart/rust/src/counter.rs:45-71 | alone, whatever number of spurious failures, it applies the closure once; from a value in range it is the specification's operation |
| TodoMvc.ActionKeepsInv | examples/todomvc/spec/todomvc.fizz:16-127 | every action keeps: the view is the function of model and filter, ids ascend and lie below the next id, titles are not empty, at most MAX_ITEMS ids are given out |
| TodoMvc.RunKeepsInv | examples/todomvc/spec/todomvc.fizz:16-127 | after every run, for any MAX_ITEMS, the view is the function of the model and the filter, and ids and titles are in order |
| TodoMvc.BothAssertionsHold | examples/todomvc/spec/todomvc.fizz:60-141 | after every run both safety assertions hold, and more: the shown items are exactly those that match the filter, the count is the number of active items, the box is checked exactly when there are items and all are completed, and the button is shown exactly when some item is completed |
| TodoMvc.ShownIsLive | examples/todomvc/spec/todomvc.fizz:99-123 | what is shown is part of the model in ascending order of id, so the item at any shown position is in the model and is the only one with its id |
| TodoActions.OfferedIff | examples/todomvc/spec/todomvc.fizz:88-127 | when each action is offered, in terms of the items alone: adding while there are ids left, toggle-all while there are items, clearing while some item is completed, a row action for each shown item |
| TodoActions.AddAppends | examples/todomvc/spec/todomvc.fizz:21-25 | adding appends one active item with the title typed, under an id that no item has, and moves the active count by one |
| TodoActions.AnyListCanBeTyped | examples/todomvc/spec/todomvc.fizz:88-91 | any list of titles that are not empty can be typed in when there is room, and the model then holds exactly them in order |
| TodoActions.SwitchOnlyFilters | examples/todomvc/spec/todomvc.fizz:93-97 | switching the filter shows what matches it and touches no item, count, box or button |
| TodoActions.ToggleFlipsOne | examples/todomvc/spec/todomvc.fizz:27-30 | toggling a shown position flips exactly that item, keeps its id and title, and moves the active count by one |
| TodoActions.EditSavesTitle | examples/todomvc/spec/todomvc.fizz:42-45 | saving a text that is not empty gives exactly the item at the shown position that title, and keeps its id, its state and the active count |
| TodoActions.DeleteRemovesOne | examples/todomvc/spec/todomvc.fizz:38-40 | deleting a shown position, or saving an empty text there, removes exactly that item and keeps the others in order |
| TodoActions.ToggleAllTurnsOver | examples/todomvc/spec/todomvc.fizz:32-36 | toggle-all gives every item one state, keeps ids, titles and order, and turns the box from unchecked to checked or back |
| TodoActions.ClearKeepsActive | examples/todomvc/spec/todomvc.fizz:47-49 | clearing removes the completed items only, keeps the others in order and with them the active count, and hides the button |
| TodoMvc.IdsAreNotReused | examples/todomvc/spec/todomvc.fizz:21-25 | an id that has left the model never comes back in a run |
| TodoMvcRoles.TodoView.Refresh | examples/todomvc/spec/todomvc.fizz:60-82 | the view's fields become the function of the model's items and the current filter |
| TodoMvcRoles.TodoModel.AddTodo | examples/todomvc/spec/todomvc.fizz:21-25 | appends the record under the next id, advances the id and refreshes |
| TodoMvcRoles.TodoModel.Assign | examples/todomvc/spec/todomvc.fizz:27-45 | replaces the record of an id in its place and refreshes (Toggle and Save) |
| TodoMvcRoles.TodoModel.ToggleAll | examples/todomvc/spec/todomvc.fizz:32-36 | the loop over the keys sets every record and nothing else, then refreshes |
| TodoMvcRoles.TodoModel.Destroy | examples/todomvc/spec/todomvc.fizz:38-40 | removes the record of an id and refreshes |
| TodoMvcRoles.TodoModel.ClearCompleted | examples/todomvc/spec/todomvc.fizz:47-49 | keeps the active records and refreshes |
| TodoMvcRoles.TodoController.UserAddsItem | examples/todomvc/spec/todomvc.fizz:88-91 | does the step AddsItem and keeps the invariant |
| TodoMvcRoles.TodoController.UserSwitchesFilter | examples/todomvc/spec/todomvc.fizz:93-97 | does the step SwitchesFilter and keeps the invariant |
| TodoMvcRoles.TodoController.UserTogglesItem | examples/todomvc/spec/todomvc.fizz:99-103 | does the step TogglesItem, needing no knowledge that the shown item exists |
| TodoMvcRoles.TodoController.UserTogglesAll | examples/todomvc/spec/todomvc.fizz:105-107 | does the step TogglesAll and keeps the invariant |
| TodoMvcRoles.TodoController.UserDeletesItem | examples/todomvc/spec/todomvc.fizz:109-113 | does the step DeletesItem, needing no knowledge that the shown item exists |
| TodoMvcRoles.TodoController.UserEditsItem | examples/todomvc/spec/todomvc.fizz:115-123 | does the step EditsItem: saves a non-empty text, destroys on an empty one |
| TodoMvcRoles.TodoController.UserClearsCompleted | examples/todomvc/spec/todomvc.fizz:125-127 | does the step ClearsCompleted and keeps the invariant |
| Printers.AppendRecord | examples/todo-app/java/app/src/fizztest/java/org/example/todo/TodoAppRoleAdapter.java:321-346 | the separator loop appends the text that joining the entries gives |
| Printers.ToFizzBeeFormat | examples/todo-app/java/app/src/fizztest/java/org/example/todo/TodoAppRoleAdapter.java:299-313 | the outer separator loop returns the joined list text |
| Printers.PrintersAgree | examples/todo-app/typescript/fizztests/todo_adapters.ts:306-322 | the Java printer on sorted maps and the TypeScript printer give the same text for every list of records |
| Printers.TreeMapIsSorted | examples/todo-app/typescript/fizztests/todo_adapters.ts:307-313 | the fixed order of the fields is the order in which a sorted map yields them |
| Printers.ListRoundTrip | examples/todo-app/typescript/fizztests/todo_adapters.ts:306-322 | a parser recovers every list of records whose values contain no double quote from its text |
| Printers.PrintingIsInjective | examples/todo-app/typescript/fizztests/todo_adapters.ts:306-322 | hence such lists print alike only if they are equal |
| PrinterCollisions.CollidesIff | examples/todo-app/typescript/fizztests/todo_adapters.ts:306-322 | exactly which lists print like some other list, when values may hold quotes: every list of two or more records, and a single record if and only if its value spells out the end of a value and the head of another record |
| Titles.TrimIs | examples/todo-app/java/app/src/fizztest/java/org/example/todo/TodoAppRoleAdapter.java:292-294 | trim gives exactly the part of the text between its first and its last character that is not blank |
| Titles.DecodeEveryTitle | examples/todo-app/typescript/fizztests/todo_adapters.ts:278-284 | for every title: a missing one decodes to the empty text, one that does not start with the prefix once its outer blanks are gone to itself without them, any other to what follows the prefix without its outer blanks |
| Titles.DecodeUndoesEncode | examples/todo-app/java/app/src/fizztest/java/org/example/todo/TodoAppRoleAdapter.java:291-297 | decoding prefix + v gives v without its outer blanks if and only if v has a character that is not blank, for the blanks of either platform; otherwise it gives "Sample Title" |
| BufferedWriter.Writer.constructor | examples/buffered-writer/go/writer.go:17-22 | both slices start empty on different backing arrays |
| BufferedWriter.Writer.Append | examples/buffered-writer/go/writer.go:25-29 | adds to what is buffered and leaves what is flushed alone, in place or in a new backing array |
| BufferedWriter.Writer.Flush | examples/buffered-writer/go/writer.go:32-37 | flushed becomes flushed followed by buffered, buffered becomes empty, and the backing arrays stay apart although the truncated one is kept |
| BufferedWriter.Writer.GetLength | examples/buffered-writer/go/writer.go:40-44 | the number of elements ever appended |
| BufferedWriter.FlushedDataSurvives | examples/buffered-writer/go/writer.go:25-37 | for every sequence of calls and every growth of the slices they hold what a writer without shared arrays would, so flushed data survives the appends that reuse the truncated backing array |
| BufferedWriter.CallsKeepOrder | examples/buffered-writer/go/writer.go:25-37 | in such a writer flushed data only grows, and flushed followed by buffered is everything appended, in order |

## Left out

* The generated test interfaces, dispatchers, registries and runners, and the browser, DOM and database
  code: they forward calls to systems that are not part of this model.
* The plain locked counters in Go, TypeScript and Java, the SQL counters, and the todo-app specification:
  one-branch clamps and one invariant simpler than those of TodoMVC.
* Go keys that are not valid UTF-8, which JSON does not give back: a key here is a string of Unicode
  scalar values.
* Libraries are taken at their word: the skip list is a finite map, JSON returns the map it was given, an
  object store holds whole objects under their names and reads what it holds, a listing is ascending, and
  each new ULID is above all earlier ones.
* A segment read that fails for a reason other than a missing object. The Go scan skips such a segment;
  `GoStore.GetReadsVisible` covers that as one more missing segment, the step system has no such step.
* Reopening a store on a bucket that already has segments, closing it, and cancelled async calls.
* Callers that change a byte slice after passing it to `Put`, and the live slices that
  `BufferedWriter.State` returns.
* Progress of the retry loop of `GoodMemCounter` under interference, and of a get against endless new
  calls; scheduling fairness in general.
* The width of `flushID` and of ids, which are unbounded here; the counters are 32 bits wide.
* TodoMVC's dictionary is the sequence of its records in insertion order, with each record's id as its
  key: every assignment in the source stores a record under its own id.
- GoStore.KVStore.Flush: states one flush without interference; interference is the subject of GoProtocol.
