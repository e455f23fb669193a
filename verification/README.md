# Verification of hive.go

Dafny models of the parts of hive.go that carry the hardest promises, with proofs of those
promises: the binary codec serix, the notification protocol of reactive variables and the sets
derived from other sets, the two hand-written locks, three index structures, the worker-pool
counters, the ordered shutdown of the daemon, the crash-tolerant number sequence, and the exact
arithmetic. Check it with `dafny verify dfyconfig.toml`.

## Reading guide

| files | what they model |
|---|---|
| ByteStrings, Validators | byte strings, sorting, and the element validators of array rules |
| Codec, CodecFormat, CodecRoundTrip, CodecCanonical, CodecExact | the type-directed encoder and decoder, as functions on schemas and values that replace reflection, and what they write byte by byte |
| Serializer | the Serializer and Deserializer objects and their loops, proved equal to the functions in Codec |
| ReactiveVariable, DerivedVariable | Compute, OnUpdate and unsubscribe as interleaved steps under three locks, with a ghost history of the value |
| SetAlgebra | sets with mutations, occurrence counters, DerivedSet and SubtractReactive |
| StarvingMutex, DAGMutex | the locks as steps of goroutines with waiting, woken and in-flight-notification states |
| SortedSet, PriorityQueue, OrderedMap | mutable structures with back-indices, a heap and a doubly linked list |
| SortedSetLocks | the two locks of the sorted set, as steps of additions, deletions and weight changes |
| Daemon, CounterTree | ordered shutdown and the tree of pending-children counters, as steps |
| Sequence, SafeMath, PrefixBound | leased numbers in a store, overflow checks, the bound of a prefix scan |

A run is a sequence of states linked by steps that any goroutine may take at any time; a lemma
about runs speaks of every interleaving. Go's `error` returns and panics are both failures.
Library calls are modelled by what their documentation promises: `sort.Slice` yields some sorted
permutation, `container/heap`, `bits.Mul64` and `bits.Div64`, `sync.Mutex` and `sync.Cond`.
I/O outcomes (a failing store), the choices of consumers and the iteration order of Go maps are
parameters or arbitrary choices.

Where the code falls short of its intent the model follows the code, and the exact condition is
proved:

- A codec round trip in front of other bytes holds exactly for values that are `Faithful` there
  (CodecExact.RoundTripExact). It fails for a present optional field that encodes to nothing or to
  2^32 bytes and more, for a nil embedded pointer, for an embedded pointer to an unexported type, for
  map keys or values behind an interface or a pointer type that is not registered itself, for two
  elements without bytes under order-and-duplicate rules, and for an object behind an interface
  whose bytes do not start with a code that leads to its type: only structs and byte arrays write
  their code, registering a second type under a code silently takes it from the first, and an object
  shorter than a code is judged by what follows it. If all objects write codes of the right width,
  the other bytes do not matter (CodecExact.RestIrrelevant).
- Re-encoding a decoded value gives its bytes exactly if it `Fits` (CodecCanonical.Canonical): the
  length bounds of byte arrays are checked by the encoder alone, and through a pointer the decoder
  reads everything but the encoder writes structs and arrays only.
- Deleting an element of a sorted set and changing its weight take two locks in opposite orders.
  They block each other, and the whole set, for good exactly if both have got their first lock and
  neither its second (SortedSetLocks.FreeUnlessCrossed).
- A weight change works on a sorted set without its lock exactly if it looks for the unsubscribe
  function before addSorted has stored it (SortedSetLocks.LooseExactly).
- The merged order-and-duplicates validator differs from the two simple ones exactly on a writer
  with a second empty element: empty encodings are nil slices there and count as "no previous".
- `SafeMul(-1, min)` returns the minimum of a signed type instead of an error.
- `Sequence.Release` by an instance that has neither completed a `Next` nor read the store makes
  numbers repeat once any are in use, and so does a lease past 64 bits.
- Calling the unsubscribe function of a DerivedSet twice is harmless exactly if the source held
  nothing when it was taken out; otherwise the counts stay wrong for good and an element can get lost
  at any later time.
- `PopUntil` is documented to take elements below a priority; the code takes those up to it.

## Model

| member | source | states |
|---|---|---|
| Validators.AcceptsIff | serializer/serializable.go:253-293 | the composed stateful validator accepts a sequence if and only if it has every declared property (ascending, no duplicates, at most one element per type byte or type word) |
| Validators.MergedEqualsBoth | serializer/serializable.go:158-219 | the compare-with-previous validator accepts exactly when the order validator and the map-based uniqueness validator both do; on the writer's side exactly unless the second element is empty |
| Validators.RejectsExtension | serializer/serializable.go:253-293 | once a prefix is rejected, no continuation is accepted |
| Codec.DecodeItems | serializer/serializer.go:965-1018 | as many items as announced are read, and the bytes attributed to them are the consecutive bytes of the input |
| CodecFormat.GivenFirst | serializer/serix/type_settings.go:238-256 | settings passed in from a tag or an option override registered ones, each for itself, and registered ones fill the gaps |
| CodecFormat.PointerSettings | serializer/serix/type_settings.go:316-335 | a pointer has the settings registered for its own type, and only without those its element's; behind it settings are looked up again for some kinds only |
| CodecFormat.LengthFormat | serializer/serializer.go:212-254 | lengths are one, two or four bytes, the least significant first, and anything longer or an eight-byte prefix is a failure |
| CodecFormat.CodeFormat | serializer/serix/encode.go:188-193 | an object code is one byte or four, spelled out |
| CodecFormat.NumFormat | serializer/serix/encode.go:136-146 | a number is written if it is in range, byte by byte in two's complement |
| CodecFormat.Uint256Format | serializer/serix/encode.go:73-80 | a big integer is written if it has at most 256 bits and is not negative, in 32 spelled-out bytes |
| CodecFormat.StrFormat | serializer/serix/encode.go:103-127 | with whatever tag and registration, a string is its length in the chosen prefix and its bytes, and the exact conditions of refusal |
| CodecFormat.TagWins | serializer/serix/type_settings.go:56-57 | a short string in a field tagged with a one-byte length has it, whatever its type is registered with |
| CodecFormat.ByteSliceFormat | serializer/serix/encode.go:292-311 | the same for byte slices, whose bounds count without validation too |
| CodecFormat.ArrayFormat | serializer/serix/encode.go:270-290 | a byte array is its code and its bytes; its bounds count with validation and not behind a pointer |
| CodecFormat.Utf8Exact | serializer/serix/encode.go:111-119 | a string counts as UTF-8 if and only if it is the encoding of some sequence of Unicode scalar values |
| CodecFormat.FieldsFormat | serializer/serix/encode.go:202-268 | the fields are written in their order, one after the other, if and only if each of them can be |
| CodecFormat.FieldFormat | serializer/serix/encode.go:214-266 | plain, optional and embedded fields, byte by byte, nil cases included |
| CodecFormat.StructFormat | serializer/serix/encode.go:179-200 | a struct is its registered code and its fields |
| CodecFormat.PointerFormat | serializer/serix/encode.go:81-91 | a struct behind a pointer is written as the struct, with the pointer's settings; a nil pointer is a failure |
| CodecFormat.SequenceFormat | serializer/serix/encode.go:380-407 | a sequence is its length and its elements, sorted exactly if settings and rules both say so, and the exact conditions of refusal in terms of what the rules mean |
| CodecFormat.SliceFormat | serializer/serix/encode.go:292-329 | the elements of a slice are encoded without settings from outside, and every required type must occur |
| CodecFormat.MapFormat | serializer/serix/encode.go:331-378 | a map is its length and its entries, key before value, always in lexical order |
| CodecFormat.InterfaceFormat | serializer/serix/encode.go:153-177 | an object behind an interface is written as it is by itself, with the interface's settings, if it is registered for it |
| CodecFormat.KeysFormat | serializer/serix/decode.go:457-480 | which key types no map can have on either side of the codec, and which it can |
| CodecFormat.ElementCodeFormat | serializer/serix/serix.go:191-223 | the code that counts for a required type is that of the element itself, behind its pointer or interface |
| CodecRoundTrip.RoundTrip | serializer/serix/encode.go:60-407 | for every registry, decoding the encoding of a value in front of bytes where it is faithful gives the value with auto-sorted collections sorted, and consumes exactly the encoding |
| CodecRoundTrip.SequenceRoundTrip | serializer/serix/encode.go:380-407 | a sequence comes back in the order it was written, with length prefix, bounds and validators on both sides |
| CodecRoundTrip.InterfaceRoundTrip | serializer/serix/decode.go:223-249 | an object comes back through the interface if the bytes from its head on start with a code that still leads to its type |
| CodecRoundTrip.PointerRoundTrip | serializer/serix/encode.go:73-91 | a struct or byte array behind a pointer comes back with the settings of the pointer type, or else of its element |
| CodecRoundTrip.OptionalRoundTrip | serializer/serix/encode.go:202-268 | an optional field survives behind its 32-bit payload length |
| CodecRoundTrip.MapRoundTrip | serializer/serix/decode.go:457-494 | a map comes back with all entries, in the order of their encodings, and its keys stay distinct |
| CodecExact.RoundTripExact | serializer/serix/decode.go:14-518 | for every registry, an encodable value decodes to itself in front of given bytes if and only if it is faithful there |
| CodecExact.FaithfulNeeded | serializer/serix/decode.go:95-518 | a value whose encoding decodes to its canonical form in front of given bytes is faithful there |
| CodecExact.SameSize | serializer/serix/decode.go:95-518 | whatever bytes decode to the canonical form of a value, as many are read as the value's encoding has |
| CodecExact.LeadsByCode | serializer/serix/decode.go:223-249 | an object that writes a code as wide as its interface's codes leads back to its type, before any continuation, if and only if the code still belongs to that type |
| CodecExact.CodeTakenOver | serializer/serix/interfaces.go:36-39 | of two types registered under one code the first is written and comes back as the second |
| CodecExact.RestIrrelevant | serializer/serix/decode.go:223-249 | if all objects of interfaces write codes of the right width, a value that is faithful in front of some bytes is faithful in front of all |
| CodecExact.ShortHeadDepends | serializer/serix/decode.go:223-249 | for an object shorter than its interface's codes the round trip depends on the bytes that follow |
| CodecExact.DecodedSize | serializer/serix/decode.go:95-518 | the number of bytes read is determined by the decoded value |
| CodecExact.EncodedSize | serializer/serix/encode.go:60-407 | the number of bytes written is the size of the canonical form |
| CodecExact.EmptyOptionalLost | serializer/serix/encode.go:202-268 | a present optional field without bytes decodes as absent |
| CodecExact.HugeOptionalLost | serializer/serix/encode.go:202-268 | a present optional field of 2^32 bytes decodes as absent and leaves its bytes over |
| CodecExact.NilEmbeddedLost | serializer/serix/encode.go:202-268 | a nil embedded pointer is skipped by the encoder but read by the decoder |
| CodecExact.UnexportedEmbeddedLost | serializer/serix/decode.go:281-348 | an embedded pointer to an unexported type is written as its fields and can never be read |
| CodecExact.EntriesLost | serializer/serix/decode.go:440-455 | a non-empty map with an interface or an unregistered pointer type for its keys or values is never read back, whatever it was written as |
| CodecExact.PointersLost | serializer/serix/type_settings.go:337-363 | a map of pointers to structs is written and cannot be read |
| CodecExact.PointersKept | serializer/serix/type_settings.go:337-363 | the same map comes back if the pointer type itself is registered |
| CodecExact.PointerNotWritten | serializer/serix/decode.go:112-141 | a pointer to anything but a struct or an array is read as its element is, and never written |
| CodecExact.TwoEmptiesLost | serializer/serializable.go:196-219 | writer and reader disagree on two empty elements |
| CodecCanonical.Canonical | serializer/serix/decode.go:95-518 | with validation on, re-encoding a decoded value gives exactly the bytes read if it fits, and fails if not |
| CodecCanonical.SequenceCanonical | serializer/serix/decode.go:496-518 | an accepted sequence is written back byte for byte, sorting included |
| CodecCanonical.EncodedFits | serializer/serix/encode.go:73-91 | whatever passes the encoder's validation fits, at any depth |
| CodecCanonical.ArrayOutOfBounds | serializer/serix/decode.go:350-376 | a byte array below its minimum length is decoded but cannot be encoded |
| CodecCanonical.DecodedObeysRules | serializer/serix/decode.go:378-438 | a slice decoded with validation keeps its array rules: bounds, required types, and order and distinctness of the element encodings |
| CodecCanonical.MapOrderIrrelevant | serializer/serix/encode.go:351-378 | a map has the same encoding, or the same failure, for every iteration order |
| CodecCanonical.PrefixFree | serializer/serix/encode.go:60-407 | no encoding of a value that is faithful there is a proper prefix of another one of the same type |
| CodecCanonical.CanonSameEncoding | serializer/serix/type_settings.go:226-266 | a value and its auto-sorted form have the same encoding |
| ByteStrings.LittleEndianRoundTrip | serializer/serializer.go:114-123 | fixed-width little-endian numbers are read back |
| ByteStrings.CompareIs | serializer/serializable.go:158-219 | byte strings are compared as in a dictionary: a proper prefix is smaller, else the first difference decides |
| ByteStrings.SortBytesPermutation | serializer/serializer.go:319-361 | sorting by bytes depends on the multiset of encodings only |
| SerializerObjects.Serializer.WriteUint256 | serializer/serializer.go:126-165 | reversing the big-endian bytes in place and padding appends the 32-byte little-endian number; negative or wider numbers fail |
| SerializerObjects.Serializer.WriteVariableByteSlice | serializer/serializer.go:256-286 | appends what the codec's byte-slice encoding is, or keeps the first error |
| SerializerObjects.Serializer.WriteSliceOfByteSlices | serializer/serializer.go:319-361 | length, sorting when asked for, and the validation loop append the codec's sequence encoding |
| SerializerObjects.Serializer.WriteStructFields | serializer/serix/encode.go:202-268 | the field loop with optional payloads and embedded structs appends the codec's field encoding |
| SerializerObjects.EncodeElements | serializer/serix/encode.go:292-329 | the element loop collects the codec's item encodings |
| SerializerObjects.Deserializer.ReadUint256 | serializer/serializer.go:607-631 | reads the little-endian number and advances by 32 bytes |
| SerializerObjects.Deserializer.ReadVariableByteSlice | serializer/serializer.go:761-799 | advances the offset as the codec's byte-slice decoding does |
| SerializerObjects.Deserializer.ReadSequenceOfObjects | serializer/serializer.go:965-1018 | the item loop with validators yields the items and offset of the codec's sequence decoding |
| SerializerObjects.Deserializer.ReadStructFields | serializer/serix/decode.go:281-348 | the field loop yields the values and offset of the codec's field decoding |
| SerializerObjects.PaddedIsLittleEndian | serializer/serializer.go:126-165 | reversed big-endian bytes with zeros after them are the little-endian form |
| ReactiveVariable.StepInv | ds/reactive/variable_impl.go:48-62 | every step of the notification protocol keeps each subscriber's log a gap-free run of the history |
| ReactiveVariable.SubscriberHistory | ds/reactive/variable_impl.go:184-208 | a subscriber's calls are the value at registration, unless zero and not requested, and then every later change as (previous, new), in order, without gap or repetition |
| ReactiveVariable.FirstCall | ds/reactive/variable_impl.go:184-208 | a subscriber is first called with the value at the time of OnUpdate, unless that is zero and was not asked for, and then with every later change, in every run |
| ReactiveVariable.ComputeSets | ds/reactive/variable_impl.go:48-62 | after Compute the value is the one computed, as a new update exactly if it differs |
| ReactiveVariable.OldestFirst | ds/reactive/variable_impl.go:109-120 | an update is for exactly the callbacks registered when it happens, the older ones first |
| ReactiveVariable.WriteGoesThrough | ds/reactive/variable_impl.go:48-62 | from every reachable state every value can still be written and told to every subscriber: no lock is held for good |
| ReactiveVariable.SubscribeGoesThrough | ds/reactive/variable_impl.go:184-208 | from every reachable state a new subscriber can be registered and brought up to date |
| ReactiveVariable.UnsubscribeGoesThrough | ds/reactive/variable_impl.go:203-207 | from every reachable state every subscriber can be unsubscribed |
| ReactiveVariable.NothingAfterUnsubscribe | ds/reactive/utils.go:53-58 | after unsubscribe has returned a subscriber is not called again |
| ReactiveVariable.OnlyUnsubscribedSkipped | ds/reactive/utils.go:33-45 | LockExecution refuses a notification if and only if the subscriber has unsubscribed |
| ReactiveVariable.HistoryGrows | ds/reactive/variable_impl.go:109-120 | values once taken are never rewritten |
| DerivedVariable.DerivedConsistent | ds/reactive/variable.go:125-137 | in every interleaving of writers to two inputs with the waiting, reading, storing and unlocking of both callbacks, once nothing is in progress the derived value is the function of both current inputs |
| DerivedVariable.DerivedGoesThrough | ds/reactive/variable.go:125-137 | from every reachable state the derived variable can be completed and brought to the function of both inputs: its callbacks never block each other for good |
| DerivedVariable.DerivedStepInv | ds/reactive/variable_impl.go:48-62 | every step keeps this: what a callback has read under the derived variable's locks is still current, or the other callback has yet to do its work |
| SetAlgebra.Set.Apply | ds/set_impl.go:122-138 | adds, then deletes, in whatever order of iteration, and reports exactly what took effect |
| SetAlgebra.AppliedIsExact | ds/set_impl.go:122-138 | the reported mutations are disjoint from or contained in the set as due, and have the same effect as the requested ones |
| SetAlgebra.DeletionWins | ds/set_impl.go:122-138 | an element that is added and deleted at once is gone, and both are reported |
| SetAlgebra.SetArithmetic.Collect | ds/set_impl.go:393-401 | whatever calls came before, the collected mutations are exactly the threshold crossings since the first count |
| SetAlgebra.SetArithmetic.Add | ds/set_impl.go:359-366 | counts go up for added and down for deleted elements; the result is exactly the crossings |
| SetAlgebra.SetArithmetic.Subtract | ds/set_impl.go:376-383 | the same with the directions exchanged |
| SetAlgebra.DerivedSet.Inherit | ds/reactive/set_impl.go:315-324 | counts and set change together by the crossings of threshold one |
| SetAlgebra.StepInv | ds/reactive/set_impl.go:276-324 | every write, delivery, subscription or unsubscription step keeps the counts equal to the weighted number of sources shown to the subscriber, and the set equal to the elements counted |
| SetAlgebra.StepKeeps | ds/reactive/set_impl.go:276-324 | no write, delivery, subscription or unsubscription makes the distance between counts and weights greater or smaller |
| SetAlgebra.DerivedIsUnion | ds/reactive/set_impl.go:276-324 | with nothing in flight a DerivedSet is the union of the sources still subscribed |
| SetAlgebra.SubtractIsDifference | ds/reactive/set_impl.go:197-217 | with nothing in flight SubtractReactive is the set minus the union of the others |
| SetAlgebra.WriteAtAnyTime | ds/reactive/set_impl.go:50-89 | every source can be written at any time, and gets exactly the elements that were asked for |
| SetAlgebra.SubscribeAtAnyTime | ds/reactive/set_impl.go:170-220 | every set can be subscribed at any time, to be added or subtracted as asked |
| SetAlgebra.UnionComes | ds/reactive/set_impl.go:276-324 | from every reachable state the derived set can come to be the union of what its sources hold now |
| SetAlgebra.DifferenceComes | ds/reactive/set_impl.go:197-220 | the same for the difference |
| SetAlgebra.SecondUnsubscribe | ds/reactive/set_impl.go:276-294 | a second call of the unsubscribe function keeps the invariant if and only if the source held nothing when it was taken out |
| SetAlgebra.SecondUnsubscribeLoses | ds/reactive/set_impl.go:276-294 | after any other second call there is a continuation that ends, with nothing in flight, with an element missing that a subscribed source holds |
| SetAlgebra.LossIsReachable | ds/reactive/set_impl.go:276-294 | for every element there is a run from the start that loses it in this way |
| SetAlgebra.DerivedWithDrift | ds/reactive/set_impl.go:276-324 | in every run with any number of repeated calls, and with nothing in flight, an element is in the set exactly if more subscribed sources hold it than repeated calls have taken it out |
| SetAlgebra.UnionWithoutDrift | ds/reactive/set_impl.go:276-324 | the set is the union of the subscribed sources in every run whose repeated calls are for sources that held nothing |
| StarvingMutex.NextInv | runtime/syncutils/starvingmutex.go:49-147 | every step of every goroutine keeps the accounts of readers, writers, waiters and undelivered notifications balanced |
| StarvingMutex.Exclusion | runtime/syncutils/starvingmutex.go:102-122 | no writer together with a reader or a second writer |
| StarvingMutex.NoLostWakeUp | runtime/syncutils/starvingmutex.go:75-147 | behind every blocked goroutine there is a holder, a woken waiter, an undelivered notification or a writer about to look at the lock |
| StarvingMutex.Progress | runtime/syncutils/starvingmutex.go:49-147 | whenever a goroutine is blocked, another one that is neither idle nor blocked can take a step |
| StarvingMutex.CanStep | runtime/syncutils/starvingmutex.go:75-147 | the panicking checks of RUnlock and Unlock never fire under matched use |
| StarvingMutex.ReaderLetIn | runtime/syncutils/starvingmutex.go:49-70 | a reader that looks at the lock is let in if and only if no writer is in it, however many writers wait |
| StarvingMutex.WriterLetIn | runtime/syncutils/starvingmutex.go:102-124 | a writer is let in if and only if nobody is |
| StarvingMutex.WhoIsTold | runtime/syncutils/starvingmutex.go:75-148 | the last reader tells a writer, and a writer tells a writer before all readers, exactly if a writer wants to write |
| StarvingMutex.EveryStepCounts | runtime/syncutils/starvingmutex.go:49-148 | in whatever order goroutines run, without new calls they come to an end |
| StarvingMutex.EverybodyCan | runtime/syncutils/starvingmutex.go:49-148 | from every reachable state every goroutine can still come to read, and to write |
| StarvingMutex.RefinesRWLock | runtime/syncutils/starvingmutex.go:49-147 | every step is a step of a plain reader/writer lock or leaves it alone |
| DAGMutex.NextInv | runtime/syncutils/dagmutex.go:54-149 | every step keeps table, sessions and lock objects in agreement, across recycling, with entities unlocked in other groups than they were locked in |
| DAGMutex.Exclusion | runtime/syncutils/dagmutex.go:70-76 | a writer of an entity never overlaps another holder of it |
| DAGMutex.OneLockPerEntity | runtime/syncutils/dagmutex.go:95-149 | the table has an entry exactly while there are consumers, with their number, and all of them refer to the lock in it |
| DAGMutex.DroppedForGood | runtime/syncutils/dagmutex.go:107-149 | a lock object dropped from the table never comes back, in any continuation of any run |
| DAGMutex.LateReleaseHarmless | runtime/syncutils/dagmutex.go:62-93 | however many steps after a lock was dropped it is released, no lock that is in the table by then changes, its replacement included |
| DAGMutex.TableLockExact | runtime/syncutils/dagmutex.go:54-93 | the lock in the table counts exactly the goroutines that hold it now |
| DAGMutex.Admission | runtime/syncutils/dagmutex.go:54-76 | a call gets its next lock if and only if no writer has it, and for writing nobody at all |
| DAGMutex.ReleasesAllBut | runtime/syncutils/dagmutex.go:62-68 | an unlock call releases the locks of its entities as often as they were locked, and only the last consumer of an entity drops its lock unreleased |
| DAGMutex.LocksWhatWasAsked | runtime/syncutils/dagmutex.go:54-76 | a call waits for the locks of exactly the entities it was given, in its mode |
| DAGMutex.NoPanic | runtime/syncutils/dagmutex.go:119-149 | matched use finds every registered entity and releases only what is held |
| SortedSet.SortedSet.Swap | ds/reactive/sorted_set_impl.go:201-214 | neighbours are exchanged exactly if the left one is lighter or tied and less, and indices stay positions |
| SortedSet.SortedSet.UpdatePosition | ds/reactive/sorted_set_impl.go:161-198 | one displaced element goes to its place: the array is descending again and both extremes are right |
| SortedSet.SortedSet.Add | ds/reactive/sorted_set_impl.go:100-119 | the set gains the element with its weight, once, and all invariants hold |
| SortedSet.SortedSet.SetWeight | ds/reactive/sorted_set_impl.go:108-117 | only that weight changes, and all invariants hold |
| SortedSet.SortedSet.Delete | ds/reactive/sorted_set_impl.go:122-156 | the set loses the element, indices close up, and the extremes follow, down to the zero value |
| SortedSet.SortedSet.ShiftLeft | ds/reactive/sorted_set_impl.go:130-138 | the shift loop removes one position and renumbers the rest |
| SortedSet.SortedSet.ToDescending | ds/reactive/sorted_set_impl.go:74-87 | every element once, no lighter one before a heavier one, first and last being the cached extremes |
| SortedSet.SortedSet.ToAscending | ds/reactive/sorted_set_impl.go:58-71 | the same listing read backwards |
| SortedSet.HeavierFirst | ds/reactive/sorted_set_impl.go:201-214 | in a listing weights go down, and of equal weights the left element is not less than the right one |
| SortedSetLocks.StepInv | ds/reactive/sorted_set_impl.go:100-156 | every step of adding, deleting and changing weights keeps both kinds of locks exclusive, and the unsubscribe function is there whenever deleteSorted calls it |
| SortedSetLocks.CrossedForGood | ds/reactive/utils.go:33-58 | a delete that has the mutex and a weight change of the same element that has the execution mutex keep waiting for each other in every continuation, and the mutex is never released |
| SortedSetLocks.FreeUnlessCrossed | ds/reactive/sorted_set_impl.go:100-156 | in every reachable state the mutex can become free if and only if no delete and weight change have crossed |
| SortedSetLocks.WaiterGetsIn | ds/reactive/sorted_set_impl.go:100-156 | without such a crossing whoever waits for the mutex can get it |
| SortedSetLocks.OverlapCrosses | ds/reactive/sorted_set_impl.go:122-129 | a delete about to take the mutex and a weight change about to take the execution mutex cross as soon as both have their first lock |
| SortedSetLocks.AnyDeleteMayCross | ds/reactive/sorted_set_impl.go:108-129 | from every idle state, deleting any element can end in such a crossing |
| SortedSetLocks.InsideAlone | ds/reactive/sorted_set_impl.go:108-117 | two goroutines work on the sorted elements at once only if one is a weight change without the mutex |
| SortedSetLocks.LooseExactly | ds/reactive/sorted_set_impl.go:107-117 | a weight change goes on without the mutex if and only if it looks while the unsubscribe function is about to be stored |
| SortedSetLocks.LooseReachable | ds/reactive/sorted_set_impl.go:107-117 | a run in which this happens while the next element is being added |
| PriorityQueue.PriorityQueue.Swap | ds/generalheap/generalheap.go:19-22 | two elements change places and know their new index |
| PriorityQueue.PriorityQueue.RemoveAt | ds/generalheap/generalheap.go:14-41 | exactly the element at the index leaves, with index -1, and the heap order holds again |
| PriorityQueue.PriorityQueue.Push | ds/priorityqueue/priorityqueue.go:27-46 | the queue gains one element whose handle is new |
| PriorityQueue.PriorityQueue.Remove | ds/priorityqueue/priorityqueue.go:38-45 | the handle takes out its own element and nothing else, and does nothing once it is out |
| PriorityQueue.PriorityQueue.Peek | ds/priorityqueue/priorityqueue.go:49-58 | an element of least key, if there is any |
| PriorityQueue.PriorityQueue.Pop | ds/priorityqueue/priorityqueue.go:61-72 | an element of least key leaves, and only it |
| PriorityQueue.PriorityQueue.PopUntil | ds/priorityqueue/priorityqueue.go:75-87 | exactly the elements of at most the priority leave, each once, in non-decreasing order |
| PriorityQueue.PriorityQueue.PopAll | ds/priorityqueue/priorityqueue.go:90-102 | all elements leave, each once, in non-decreasing order |
| PriorityQueue.RootIsLeast | ds/generalheap/generalheap.go:14-16 | heap order makes the root a least element |
| OrderedMap.OrderedMap.Set | ds/orderedmap/orderedmap.go:76-103 | the sequence of entries is overwritten in place or extended at the end; list, dictionary and size agree on it |
| OrderedMap.PutKeeps | ds/orderedmap/orderedmap.go:76-103 | setting a key keeps all other entries and the order of all keys, and a new key comes last |
| OrderedMap.OrderedMap.Delete | ds/orderedmap/orderedmap.go:170-199 | the entry leaves the sequence, and the deleted element still leads on to its successor |
| OrderedMap.OrderedMap.ForEach | ds/orderedmap/orderedmap.go:107-127 | whatever is set and deleted during the traversal, no element is visited twice, they come in insertion order, every entry that stays is visited, and an entry there at the start is handed over with the value last set before its visit |
| OrderedMap.OrderedMap.ForEachExpiring | runtime/event/events.go:17-30 | if the consumer deletes the current entry, every entry is still visited once, in order, and exactly the others remain |
| OrderedMap.OrderedMap.ForEachReverse | ds/orderedmap/orderedmap.go:131-151 | the entries backwards, up to the first that is not accepted |
| OrderedMap.OrderedMap.Clone | ds/orderedmap/orderedmap.go:219-234 | a separate map with the same sequence of entries |
| Daemon.RemoveFromOrder | app/daemon/daemon.go:359-378 | in place, the first occurrence of the name is taken out of the list |
| Daemon.StepInv | app/daemon/daemon.go:150-388 | every step of registration, start, worker end and shutdown keeps registry, shutdown order, wait groups and stop loop in agreement, also if the running flag is unset between the two looks of a registration at it |
| Daemon.ShutdownOrder | app/daemon/daemon.go:222-232 | the list names every registered worker once, higher orders first |
| Daemon.HigherOrdersFirst | app/daemon/daemon.go:313-341 | a worker seen running is cancelled only when every worker of the snapshot with a higher order has returned, levels of finished workers included |
| Daemon.RegisterSays | app/daemon/daemon.go:184-239 | a registration is refused exactly if its name is taken and may not be replaced; otherwise the worker has the name and order asked for and is started exactly if the daemon runs |
| Daemon.HigherRequestFirst | app/daemon/daemon.go:183-232 | of two workers in any run, the one registered with the higher order has returned before the other is cancelled |
| Daemon.SnapshotComplete | app/daemon/daemon.go:135-148 | stopWorkers copies every registered worker |
| Daemon.CanStart | app/daemon/daemon.go:247-262 | a daemon that was neither started nor stopped can be started, and then every registered worker has been |
| Daemon.CanRegister | app/daemon/daemon.go:184-239 | any name can be registered with any order whenever the lock is free |
| Daemon.CanShutDown | app/daemon/daemon.go:296-341 | a running daemon can always be shut down and cleared: if handlers return, no wait lasts for ever |
| Daemon.AllReturned | app/daemon/daemon.go:313-341 | when stopWorkers ends every worker of the snapshot has returned |
| Daemon.WaitsForCancelled | app/daemon/daemon.go:313-341 | while a level is waited for, its wait group exists and all its workers in the snapshot have been cancelled |
| Daemon.CleanupOwn | app/daemon/daemon.go:345-355 | a finished worker removes its own registration, never a successor's, and nothing else |
| CounterTree.StepInv | runtime/syncutils/counter.go:101-154 | every step of concurrent updates keeps a group's counter equal to its busy children less what is owed, and every held lock of a group with exactly one caller |
| CounterTree.CounterIsBusyChildren | runtime/workerpool/group.go:52-116 | with no update in progress a group's counter is the number of its direct children with a non-zero counter |
| CounterTree.ZeroIffIdle | runtime/workerpool/group.go:124-126 | with no update in progress a group's counter is zero exactly when every pool below it is idle |
| CounterTree.RootZeroIffIdle | runtime/workerpool/group.go:129-131 | the root is zero exactly when every pool in the tree is idle |
| CounterTree.NoDeadlock | runtime/syncutils/counter.go:114-154 | while any lock is held some update can go on, although every call keeps its lock until all calls above it have returned |
| CounterTree.StepSays | runtime/workerpool/group.go:52-117 | a new node is an idle child of its group, an update gives its pool the new value, and nothing else changes a pool or the tree |
| CounterTree.CreatedStays | runtime/workerpool/group.go:52-117 | what was created in a group stays its child in every run |
| CounterTree.EveryStepCounts | runtime/syncutils/counter.go:114-154 | in whatever order updates go on, without new ones they come to an end |
| CounterTree.RootComesRight | runtime/workerpool/group.go:124-131 | from every reachable state the root's counter can come to say whether any pool is busy |
| CounterTree.Tree.Update | runtime/syncutils/counter.go:114-126 | one update with its nested notifications leaves the whole tree consistent and other pools as they were |
| CounterTree.Tree.NotifySubscribers | runtime/syncutils/counter.go:145-154 | the nested updates towards the root return with every lock above free again |
| SafeMath.SafeAdd | core/safemath/safe_math.go:22-34 | the sum exactly when it fits, for every signed and unsigned width |
| SafeMath.SafeSub | core/safemath/safe_math.go:37-49 | the difference exactly when it fits, the minimum included |
| SafeMath.SafeMulExact | core/safemath/safe_math.go:52-64 | SafeMul is the product exactly when it fits, and this if and only if it is not -1 times the minimum of a signed type |
| SafeMath.SafeMulMisses | core/safemath/safe_math.go:52-64 | for that pair the minimum is returned although the product does not fit |
| SafeMath.SafeMulUint64 | core/safemath/safe_math.go:69-81 | the product exactly when it fits 64 bits |
| SafeMath.SafeMulInt64 | core/safemath/safe_math.go:86-174 | the product exactly when it fits, the minimum included |
| SafeMath.Safe64MulDiv | core/safemath/safe_math.go:196-208 | the floor of x*y/div exactly when it fits 64 bits, with division by zero told apart |
| Sequence.ExecInv | kvstore/sequence.go:24-96 | a command keeps the numbers increasing and below the stored one if and only if it is sound: no lease past 64 bits, no Release by an instance that has neither completed a Next nor read the store while numbers are in use |
| Sequence.RunIncreasing | kvstore/sequence.go:24-96 | over any run of sound creations, crashes, Next and Release, with whatever failures of the store, the numbers handed out are strictly increasing |
| Sequence.UnsoundRepeats | kvstore/sequence.go:41-96 | after any command that is not sound a Next that succeeds hands out a number that is not above all others |
| Sequence.ReleaseWastesNothing | kvstore/sequence.go:58-71 | after a Release the next instance goes on with the very next number |
| Sequence.EarlyReleaseRepeats | kvstore/sequence.go:58-71 | a second instance released before its first Next starts from zero again |
| Sequence.WrappedLeaseRepeats | kvstore/sequence.go:73-96 | two leases of 2^63 numbers wrap the stored number to zero, and the first number comes again |
| Sequence.Sequence.Next | kvstore/sequence.go:41-55 | does to the store, the lease and the numbers handed out what the run's Next does, in every state and for every failure, and returns the number handed out |
| Sequence.Consecutive | kvstore/sequence.go:41-55 | an instance that is not interfered with hands out consecutive numbers, and the store is ahead of them by less than one interval |
| Sequence.LeaseExactly | kvstore/sequence.go:73-96 | a lease is exactly the interval's worth of numbers from the stored one on, with one access to the store |
| Sequence.RestartGoesOn | kvstore/sequence.go:41-96 | after a crash or restart the next instance goes on with the stored number, and a failed call hands out nothing |
| Sequence.PutUint64Bytes | kvstore/sequence.go:86-91 | numbers are stored as eight bytes, the most significant first |
| Sequence.Sequence.Update | kvstore/sequence.go:73-96 | takes up at the stored number and reserves the next interval, cut to 64 bits, or leaves the store as it was |
| Sequence.Sequence.Release | kvstore/sequence.go:58-71 | stores the next number and ends the lease, in every state, or changes nothing |
| Sequence.ReleaseTooEarly | kvstore/sequence.go:58-71 | with an early Release two instances hand out the same number |
| PrefixBound.KeyPrefixUpperBound | kvstore/utils/utils.go:24-35 | nil exactly for empty input or all 0xff; otherwise a key has the prefix if and only if start <= key < result |
| PrefixBound.BoundExact | kvstore/utils/utils.go:24-35 | the same for the bound as a function |

## Left out

- Codec: reflection, struct tag parsing and registration; custom Serializable and Deserializable hooks; syntactic validators; floats, time values and arrays of other elements than bytes; a uint64 length prefix is a failure, as the Serializer panics on it.
- Codec: the JSON and map forms in serializer/serix/map_encode.go and map_decode.go.
- Codec: values behind pointers are modelled, sharing between them is not; an Encode of a value of the wrong type is a failure. Settings registered for big.Int rather than *big.Int, a pointer to an interface registered as an object of an interface, and map keys with an interface inside that holds a value Go cannot compare.
- Codec: elements of a sorted sequence with equal encodings keep their order here; sort.Slice promises no particular one.
- ReactiveVariable: variables with a transformation function, Init, DefaultTo, ToggleValue and the OnUpdate variants are not modelled; values are integers, of which only equality and zero matter.
- DerivedVariable: the constructors for one, three and four inputs follow the same pattern as the one for two; direct writes to the derived variable and its Unsubscribe.
- StarvingMutex, DAGMutex, ReactiveVariable, Daemon, CounterTree, SortedSetLocks: protocols are modelled as steps on values, not as objects updated in place, because what is proved is about interleavings; debug-mode deadlock detection is left out.
- SetAlgebra: Replace and Clear as sources, WithElements, and direct writes to a derived set.
- SortedSet.SortedSet.Add: weight changes are applied one at a time; what a change does that arrives during an addition or a deletion is in SortedSetLocks, without the sorted elements themselves. Weights are integers, Less must be a strict weak order.
- SortedSetLocks: readers of the set, callbacks on its heaviest and lightest element, and the order in which waiting goroutines are served.
- PriorityQueue.PriorityQueue.Push: priorities are integers, standing for any total order.
- OrderedMap: Clear, and the lock around each operation; operations during a traversal happen one after the other between its steps.
- Daemon: a registration that is still waiting for the lock when the daemon has been cleared, and a second Start that is still waiting for it when the running flag has been unset; GetRunningBackgroundWorkers; that a handler returns once it is cancelled.
- CounterTree: WaitIsZero and the other waiting loops, names of pools and groups, shutdown.
- SafeMath: SafeDiv and SafeLeftShift.
- Containers and helpers: ShrinkingMap (a plain map here), RandomMap, ring buffers, stacks, bitmasks and lo helpers.
- Timers and channels: timed queues and executors, the worker-pool dispatcher, BatchedWriter, SubscriptionManager.
- The rest of the repository: ads, crypto, key-value stores, SQL, file utilities, loggers, application wiring, configuration and code generation.
