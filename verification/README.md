# Verified models of the Anki Drive SDK's data structures and protocol engines

A Dafny 4.11 project. It models five parts of the SDK and its example tools and proves what they are for.

* **The intrusive hash table** (`Basics`, `Bits`, `Bloom`, `UthashNodes`, `Uthash`, `UthashSort`, `StableSort`, `OrderedMap`,
  `UthashRun`). Handles are heap objects threaded through an app-order list and an array of bucket chains, updated in place.
  Ghost sequences name what the links mean. The main results: every run, on any hash function and with or without the bloom
  filter, behaves as an insertion-ordered plain map, sorts between other commands included; expansion figures and the expansion
  policy are exact; the in-place merge sort is the stable sort.
* **The ATT transport** (`AttCodes`, `AttribSpec`, `AttribCalls`, `AttribSafety`, `AttribEffects`, `AttribOrder`, `AttribAnswers`,
  `AttribIds`, `GAttrib`, `GAttribRun`, `LongReadAtomic`, `LongReadReport`, `LongReadValue`). The object `GAttrib` is proved
  equal, call by call, to a state machine on values; invariants over all its runs give the sequential protocol of section 3.3.2 and
  the transaction timeout of section 3.3.3 of Volume 3 Part F of the Bluetooth Core Specification, conservation and order of commands,
  exactly when a wake-up is lost, which request an answer reaches, and for a long read among other requests its atomicity, that it
  reports exactly once, and that it delivers exactly the value.
* **GATT procedures over the ATT codecs** (`Bytes`, `BtUuid`, `Att`, `GattRead`, `GattWrite`, `GattServer`, `GattChars`,
  `GattPrimary`, `GattIncluded`). Whole exchanges with a conforming server, through the encoded bytes: sections 4.4 to 4.9 of
  Volume 3 Part G. A conforming server is a table in handle order that answers a range request with any nonempty run of the first
  matches whose elements have one length; its buffer and the 512-byte receive buffer may cut the page further.
* **Service registration** (`GattService`): the size counted from the options, the handles taken, and the rollback.
* **Advertising packets** (`Eir`, `Advertisement`): a splitter that inverts the serializer and a parser that is a fold.

Assumptions, stated in the contracts:

* A nonzero id is passed to a send of a request only from a result callback, as the long read does; `AttribSafety.SafeActExactly`
  says exactly when it is safe. Before a long read starts, nonzero ids were returned by earlier sends; while it runs, other code
  does not use the read's own id.
* Callbacks are sequences of sends and cancels; destroy notifies call nothing back.
* Hash functions are arbitrary functions of the key bytes, and the caller of an add has looked the key up first, as
  `vehicle-scan.c` does.
* The attribute database is not part of the repository. It refuses handles in use and any others it likes, and
  finding free handles gives zero or the start of a free range below 0xffff.
* Where the original would read past a PDU or packet, copy past a field, or divide by zero, the contracts require that it does not:
  complete packets, fitting lengths, and element lengths that are not zero. Where it reads only the type of a cut record, that is enough.

Behaviour that differs from what one might expect, proved as it is: a failed write leaves no watch (`FailedWriteStalls`,
`NoLostWakeup`); a response that nobody asked for yet is taken for an answer (`EarlyAnswerTaken`); an error in the middle of a
long read is reported as success (`ErrorHidden`), and one in the middle of a characteristic discovery too (`PartTakenForAll`),
though not in a discovery of services (`FaultsAreTold`); an MTU above 512 cuts long values (`ReadsExactly`) and makes a long write
send bytes twice (`TilesAtOneSize`, `RepeatsBytes`); a value of 65536 bytes or more that does not fit one request is never fully
written (`EndsExactly`); a partly added characteristic stays in the database (`RollbackExactly`, `PartialStays`); setting
properties twice trips an assertion (`TwiceNotified`); the record count wraps at 256 (`BleAdvParseScan`). The header documents
code 1 of `anki_vehicle_parse_adv_record` for failures in general; the code returns it only when there is no packet at all. Two
bytes of the header's `ANKI_SERVICE_UUID` are swapped; the parser uses the other array, which is right (`AnkiServiceIs`).

The predicates of class `GAttrib` tie the object to `AttribSpec.State`: its methods' contracts are equations with the functions of
that module, and the safety lemmas are about those functions. The same holds for `ReadLongData`, `WriteLongData`, `DiscoverChar`,
`DiscoverPrimary`, `IncludedDiscovery`, `Adapter` and `VehicleAdv` and the functions named in their contracts.

## Model

| member | source | states |
|---|---|---|
| `Bloom.BitSet` | examples/vehicle-scan/uthash.h:124-125 | setting one bit of the filter changes the test of that bit and of no other |
| `Uthash.CeilIdeal` | examples/vehicle-scan/uthash.h:653-679 | the shift-and-mask expression is positive, and the doubled bucket count times it is the first multiple that holds all items |
| `Uthash.Rehash` | examples/vehicle-scan/uthash.h:686-697 | moving one handle keeps every chain doubly linked, counted and in its slot; `expand_mult` times the ideal length fits a chain longer than it, and one more does not; in other chains it is zero |
| `Uthash.Redistribute` | examples/vehicle-scan/uthash.h:681-700 | walking all old chains rehashes exactly the old set of handles into the new buckets, with `nonideal_items` the total excess and every `expand_mult` the number of ideal lengths in an overfull chain |
| `Uthash.HashTable.SplitsInTwo` | examples/vehicle-scan/uthash.h:198-201 | after a doubling from n buckets an element of old bucket b is in bucket b or b + n |
| `Uthash.HashTable.Rebucket` | examples/vehicle-scan/uthash.h:666-704 | the bucket array doubles, the structure invariant survives and the expansion figures are exact |
| `Uthash.HashTable.NoteExpansion` | examples/vehicle-scan/uthash.h:705-710 | the policy invariant over the whole history of expansions survives one more |
| `Uthash.HashTable.ExpandBuckets` | examples/vehicle-scan/uthash.h:666-712 | the invariant, a doubled array, exact figures (the ideal length, the excess, every `expand_mult`), and the history extended by whether this expansion was ineffective |
| `Uthash.HashTable.NonidealIs` | examples/vehicle-scan/uthash.h:688-689 | after an expansion `nonideal_items` counts exactly the handles that stand behind the ideal length in their chains |
| `Uthash.HashTable.NoexpandExactly` | examples/vehicle-scan/uthash.h:705-710 | growth is inhibited if and only if the last two expansions were ineffective, and no two consecutive ones before them were |
| `Uthash.HashTable.FindInBkt` | examples/vehicle-scan/uthash.h:597-608 | a result is in the chain and has the key; no result means that no handle of the chain has it |
| `Uthash.HashTable.SlotsAre` | examples/vehicle-scan/uthash.h:127-131 | the bucket of a key and its bit in the filter are the remainders of its hash by the bucket count and by the filter size |
| `Uthash.HashTable.Find` | examples/vehicle-scan/uthash.h:94-105 | a result has the key; no result means that no element of the whole table has it, with or without the bloom guard |
| `Uthash.HashTable.MakeTable` | examples/vehicle-scan/uthash.h:141-158 | a new table has 32 empty buckets, zeroed figures, the head as tail and a filter of the right size |
| `Uthash.HashTable.AddToBkt` | examples/vehicle-scan/uthash.h:611-622 | the table expands exactly if the chain reached its threshold and expansion is not inhibited; otherwise every figure stays |
| `Uthash.HashTable.DueExactly` | examples/vehicle-scan/uthash.h:611-622 | a key is due if and only if growth is not inhibited and its chain, with it, reaches ten times one more than `expand_mult` |
| `Uthash.HashTable.AddKeyptr` | examples/vehicle-scan/uthash.h:173-196 | full invariant; the element is last in app order, keys stay; a table that was there doubles exactly if the chain is due before the call, and otherwise every figure stays |
| `Uthash.HashTable.UnlinkApp` | examples/vehicle-scan/uthash.h:226-242 | removing the k-th element leaves a doubly linked list of the others, with head and tail right |
| `Uthash.HashTable.DelInBkt` | examples/vehicle-scan/uthash.h:625-635 | the chains then thread exactly the other handles, counts included |
| `Uthash.HashTable.Delete` | examples/vehicle-scan/uthash.h:215-248 | full invariant; app order with the element taken out; no figure of an expansion changes and its chain counts one less; the last element takes the table with it |
| `Uthash.HashTable.Replace` | examples/vehicle-scan/uthash.h:163-171 | full invariant; the holder of the key, if any, goes and the new element is last in app order; replacing the only element makes a new table, otherwise the table grows exactly if the chain without the replaced one is due |
| `Uthash.HashTable.Clear` | examples/vehicle-scan/uthash.h:849-858 | an empty valid table |
| `UthashSort.MergeRuns` | examples/vehicle-scan/uthash.h:745-789 | relinking in place emits the stable merge of the two runs, `prev` mirroring `next` |
| `UthashSort.Pass` | examples/vehicle-scan/uthash.h:729-794 | one pass over the list leaves it in the order of the functional merge pass and counts its merges |
| `UthashSort.SortList` | examples/vehicle-scan/uthash.h:719-804 | the loop ends and leaves the list doubly linked in the order of all passes; `insize` wraps at 32 bits |
| `Uthash.HashTable.Sort` | examples/vehicle-scan/uthash.h:719-804 | full invariant with bucket chains untouched; for a total preorder the app order is the stable sort of the old one |
| `StableSort.MergePassSorts` | examples/vehicle-scan/uthash.h:733-800 | the pass invariant: sorted runs of length k become sorted runs of length 2k |
| `StableSort.SortCorrect` | examples/vehicle-scan/uthash.h:719-804 | all passes together give a sorted, stable permutation |
| `StableSort.StableSortUnique` | examples/vehicle-scan/uthash.h:719-804 | that result is determined: two stable sorts of a sequence are equal |
| `Uthash.HashTable.Fsck` | examples/vehicle-scan/uthash.h:278-328 | the integrity check of the header accepts every valid table |
| `UthashRun.RunAll` | examples/vehicle-scan/uthash.h:94-858 | every run of finds, adds, replaces, deletes, clears and sorts, on any hash function, reports what a plain map reports and leaves the order of the ordered list: insertion order, and after a sort the sorted one |
| `UthashRun.Exec` | examples/vehicle-scan/uthash.h:94-858 | one command reports and leaves what the ordered list says; a table it does not free doubles exactly if the command adds to a chain that is due, and otherwise keeps every figure |
| `UthashRun.RunOn` | examples/vehicle-scan/uthash.h:648-712 | over every run on a table in any state: while it is not freed the history of its expansions only grows, and once expansion is inhibited the bucket array and every figure stay |
| `UthashRun.Look` | examples/vehicle-scan/uthash.h:94-105 | a find returns what the insertion-ordered list holds for the key |
| `UthashRun.ViewPasses` | examples/vehicle-scan/uthash.h:719-804 | sorting the handles by a comparator of their values sorts the list of their keys and values |
| `OrderedMap.StepIsMapStep` | examples/vehicle-scan/uthash.h:94-105 | the ordered list and the plain map agree on one command, keys staying unique |
| `OrderedMap.RunIsMapRun` | examples/vehicle-scan/uthash.h:94-858 | they agree over every run |
| `OrderedMap.SortIsStable` | examples/vehicle-scan/uthash.h:719-804 | a sort in a run leaves the stable sort of the entries whenever the comparator orders their values |
| `OrderedMap.ShortIsSortable` | examples/vehicle-scan/uthash.h:719-728 | a run can sort at any time if its commands and the entries it starts with are together at most 2^32 |
| `GAttrib.GAttrib.Send` | examples/vehicle-tool/gattrib.c:505-557 | the object ends in the state the transport model gives for a send: queue end by id and opcode, fresh id, wake-up |
| `GAttrib.GAttrib.Cancel` | examples/vehicle-tool/gattrib.c:567-601 | first match in requests, then in responses; a sent head only loses its callback |
| `GAttrib.GAttrib.CancelAll` | examples/vehicle-tool/gattrib.c:603-643 | both queues emptied but for a sent head without its callback, with the destroy notifies in order |
| `GAttrib.GAttrib.CanWriteData` | examples/vehicle-tool/gattrib.c:290-347 | responses before requests, nothing twice; fire-and-forget commands leave, others are marked and start the timer |
| `GAttrib.GAttrib.WriteWatchFires` | examples/vehicle-tool/gattrib.c:349-355 | when the watch function declines, the watch is cleared |
| `GAttrib.GAttrib.ReceivedData` | examples/vehicle-tool/gattrib.c:392-464 | event handlers, timer, popped head, wake-up, callback with its calls back, destruction, in this order |
| `GAttrib.GAttrib.DisconnectTimeout` | examples/vehicle-tool/gattrib.c:260-288 | aborts all requests, those queued by callbacks included, and only then goes stale |
| `GAttrib.GAttrib.AttribDestroy` | examples/vehicle-tool/gattrib.c:180-195 | every queued command is destroyed, requests first, and no callback runs |
| `AttribAnswers.OpcodesPair` | examples/vehicle-tool/gattrib.c:84-147 | the two opcode tables: exactly the twelve requests of the table expect an answer, the next opcode; exactly those and the error are responses |
| `AttribCalls.SendReturns` | examples/vehicle-tool/gattrib.c:505-557 | a send returns zero exactly on a stale transport; otherwise the id of one new command at the stated end of its queue, the other queue untouched, and the watch armed if that queue was empty |
| `AttribCalls.CancelUndoesSend` | examples/vehicle-tool/gattrib.c:505-601 | cancelling what was just sent says yes and leaves the queues as they were before the send |
| `AttribCalls.CancelExactly` | examples/vehicle-tool/gattrib.c:567-601 | a cancel says yes if and only if a queued command has the id; it hits the first such command and no other, and a no changes nothing |
| `AttribCalls.CancelAllExactly` | examples/vehicle-tool/gattrib.c:603-642 | all commands go in queue order, requests first; only an outstanding one stays, without its callback |
| `AttribCalls.DestroyExactly` | examples/vehicle-tool/gattrib.c:180-195 | destroying the transport destroys every command once, requests first and in queue order |
| `AttribCalls.WritesExactly` | examples/vehicle-tool/gattrib.c:290-347 | what a firing of the write watch does: the oldest response or else the first request is written; requests that expect an answer stay, marked, and start the timer; nothing is written while one is outstanding |
| `AttribCalls.ReadKeepsWatches` | examples/vehicle-tool/gattrib.c:392-464 | when the read watch stays, and when reading arms the write watch |
| `AttribSafety.ResponsesExpectNothing` | examples/vehicle-tool/gattrib.c:84-147 | no opcode that counts as a response expects an answer, so responses are never outstanding |
| `AttribSafety.ActKeeps` | examples/vehicle-tool/gattrib.c:505-643 | every send and cancel keeps the books and the one-outstanding rule, and never loses a wake-up |
| `AttribSafety.SafeActExactly` | examples/vehicle-tool/gattrib.c:536-546 | pushing to the head keeps the one-outstanding rule if and only if no request is outstanding |
| `AttribSafety.StepKeeps` | examples/vehicle-tool/gattrib.c:260-464 | every event keeps the whole invariant: books, one outstanding, timer |
| `AttribSafety.RunKeeps` | examples/vehicle-tool/gattrib.c:260-643 | so does every run |
| `AttribSafety.OneOutstanding` | examples/vehicle-tool/gattrib.c:306-346 | in every reachable state a sent command is the head request and no other; the timer is armed exactly then; and if the write watch never fired in vain, work pending means it is armed |
| `AttribSafety.NoLostWakeup` | examples/vehicle-tool/gattrib.c:290-366 | over every run: work waiting to be written always finds the write watch armed if and only if the watch never fires in vain, on a channel that is gone or refuses the PDU while something waits |
| `AttribSafety.ReadWakes` | examples/vehicle-tool/gattrib.c:392-464 | a response that finishes a request, or a failed read, arms the watch again for what waits, even after a lost wake-up |
| `AttribSafety.Conserved` | examples/vehicle-tool/gattrib.c:163-190 | in every reachable state each accepted command is in exactly one queue or destroyed; each is destroyed, written and called back at most once, and not called back after a cancel |
| `AttribSafety.TimeoutDelivers` | examples/vehicle-tool/gattrib.c:260-288 | with callbacks that call nothing back, the effects of a timeout are exactly these: the head told of the timeout, the others of the abort, each then destroyed, in queue order |
| `AttribEffects.TimeoutTells` | examples/vehicle-tool/gattrib.c:260-288 | whatever callbacks send or cancel: the head is told of the timeout before anything else, every other call back is an abort, in queue order, and each request with its callback is called back or was cancelled first |
| `AttribSafety.TimeoutKeeps` | examples/vehicle-tool/gattrib.c:260-288 | after a timeout, whatever callbacks do, the request queue is empty and the books balance |
| `AttribSafety.DestroyFinishes` | examples/vehicle-tool/gattrib.c:180-195 | destroying the object leaves every accepted command destroyed exactly once |
| `AttribSafety.FailedWriteStalls` | examples/vehicle-tool/gattrib.c:324-331 | a failed write leaves work pending with no watch armed: a concrete run |
| `GAttribRun.Drive` | examples/vehicle-tool/gattrib.c:260-643 | an object driven through any events ends in the state of the model; of its own fields: nothing but the head is outstanding, the timer runs for it, no wake-up is lost unless a watch fired in vain, and each accepted command is queued or destroyed |
| `AttribOrder.FirstIsOldest` | examples/vehicle-tool/gattrib.c:536-546 | in every reachable state the next response to be written is the oldest queued, whatever ids are used; so is the next request if no request uses an id of the caller's |
| `AttribAnswers.AnswersOutstanding` | examples/vehicle-tool/gattrib.c:428-461 | a response with a polite peer: only the outstanding request is called back, with the error code of an Error Response, zero for its own response opcode and 0x80 for any other; and with nothing if it was cancelled |
| `AttribAnswers.RunMatched` | examples/vehicle-tool/gattrib.c:505-546 | over every run each queued command expects the opcode behind its own, or nothing |
| `AttribAnswers.StillWanted` | examples/vehicle-tool/gattrib.c:418-423 | whatever event handlers send or cancel before an answer is handled: the outstanding request keeps its place, and its callback unless they cancelled it |
| `AttribAnswers.AnswersWereAsked` | examples/vehicle-tool/gattrib.c:392-464 | over every run with such a peer no request is told of a success before it was written |
| `AttribAnswers.EarlyAnswerTaken` | examples/vehicle-tool/gattrib.c:424-447 | a response that comes before the request was written is taken for its answer all the same: a concrete run |
| `AttribIds.NextIdIsNew` | examples/vehicle-tool/gattrib.c:536-551 | in every run that reuses only ids that were returned to it, no queued command carries the id that the counter gives next |
| `AttribIds.OwnIdCollides` | examples/vehicle-tool/gattrib.c:536-551 | with an id of the caller's own a queued command can carry it: a concrete run |
| `LongReadAtomic.StartInv` | examples/vehicle-tool/gatt.c:676-707 | starting a read establishes the invariant of the read, if no queued command carries the next id |
| `LongReadAtomic.WContinuesKeeps` | examples/vehicle-tool/gatt.c:626-632 | a continuation goes to the head of the queue under the same id and keeps one reference for one command |
| `LongReadAtomic.WStepKeeps` | examples/vehicle-tool/gatt.c:593-674 | every event keeps the invariant of the read |
| `LongReadAtomic.EveryRun` | examples/vehicle-tool/gatt.c:580-591 | over every run: one reference while a command is queued, freed exactly once after the last, at most one delivery, head position once started |
| `LongReadAtomic.Atomic` | examples/vehicle-tool/gattrib.c:536-546 | from the first READ being written until the last answer no other request is written |
| `LongReadAtomic.CancelStops` | examples/vehicle-tool/gattrib.c:567-601 | cancelling the one id at any point: the read never issues or delivers anything again |
| `LongReadReport.StepSettles` | examples/vehicle-tool/gatt.c:593-674 | every event keeps this: a read without commands has reported once or was cancelled, and a queued command without its callback was cancelled |
| `LongReadReport.ReportsExactlyOnce` | examples/vehicle-tool/gatt.c:593-674 | over every run: when the last command of the read is gone, its user has been told exactly once, unless one of its commands was cancelled |
| `LongReadReport.EveryReadEverywhere` | examples/vehicle-tool/gatt.c:580-707 | a read started in any state that a transport reaches by reusing only ids returned to it, over every run from there: one reference while a command is queued, freed once after it, told exactly once or cancelled |
| `LongReadValue.DeliversTheValue` | examples/vehicle-tool/gatt.c:593-707 | the read and its transfer together, with any sends, cancels and answers to others in between and no timeout: the user is told nothing but the value, once, with status zero; when the read has no command left it was told or cancelled |
| `Att.ReadByGrpRoundTrip` | examples/vehicle-tool/att.c:178-229 | decoding an encoded list gives exactly the first min(num, (len - 2) div element length) elements, in order |
| `Att.ReadByTypeRoundTrip` | examples/vehicle-tool/att.c:410-461 | the same for read-by-type responses |
| `Att.ReadByTypeCut` | examples/vehicle-tool/att.c:421-433 | an element longer than the buffer is cut to it and decoded as one cut element |
| `Att.FindInfoRoundTrip` | examples/vehicle-tool/att.c:781-847 | the same for find-information responses whose element length matches the format |
| `Att.FindByTypeRoundTrip` | examples/vehicle-tool/att.c:307-352 | decoding gives exactly the first (len - 1) div 4 ranges, in order |
| `Att.EncReadByGrpResp` | examples/vehicle-tool/att.c:178-203 | the loop writes exactly the specified bytes and nothing behind them; a buffer too small for one element gets nothing |
| `Att.EncReadByTypeResp` | examples/vehicle-tool/att.c:410-435 | the loop writes exactly the specified bytes and nothing behind them |
| `Att.EncFindInfoResp` | examples/vehicle-tool/att.c:781-807 | the loop writes exactly the specified bytes and nothing behind them |
| `Att.EncFindByTypeResp` | examples/vehicle-tool/att.c:307-327 | the loop writes exactly the specified bytes and nothing behind them |
| `Att.DecReadByGrpResp` | examples/vehicle-tool/att.c:205-229 | the loop returns the whole pieces of the PDU |
| `Att.DecReadByTypeResp` | examples/vehicle-tool/att.c:437-461 | the loop returns the whole pieces of the PDU |
| `Att.DecFindInfoResp` | examples/vehicle-tool/att.c:809-847 | the loop returns the format and the whole pieces of its element length |
| `Att.DecFindByTypeResp` | examples/vehicle-tool/att.c:329-352 | the loop returns the ranges of the whole pieces |
| `Att.RangeReqRoundTrip` | examples/vehicle-tool/att.c:123-176 | a request for a range decodes to its start, end and UUID |
| `Att.FindByTypeReqRoundTrip` | examples/vehicle-tool/att.c:231-305 | so does a find-by-type request, with the value cut to the buffer |
| `Att.EncReadResp` | examples/vehicle-tool/att.c:666-682 | the opcode and what fits of the value; nothing behind it changes |
| `Att.EncReadBlobResp` | examples/vehicle-tool/att.c:684-699 | the opcode and what fits of the value from the offset on |
| `Att.DecReadResp` | examples/vehicle-tool/att.c:701-719 | the two error codes without touching the buffer, or the value at its front |
| `Att.EncPrepWriteReq` | examples/vehicle-tool/att.c:999-1025 | handle, offset and what fits of the value; nothing behind it changes |
| `Att.PrepWriteRoundTrip` | examples/vehicle-tool/att.c:1027-1053 | the decoder gets back handle, offset and the part that fitted |
| `Bytes.LeastFirst` | examples/vehicle-tool/att.h:121-151 | 16-bit numbers are stored and read least significant byte first |
| `Att.RequestsOnTheWire` | examples/vehicle-tool/att.c:123-149 | every request of the procedures byte by byte: opcode, handles and offsets, then UUID or value |
| `Att.ResponsesOnTheWire` | examples/vehicle-tool/att.c:178-203 | the opcodes, length and format bytes of the responses, and the values they carry |
| `Att.RangeOnTheWire` | examples/vehicle-tool/att.c:307-327 | a range is stored as its start and its end |
| `Att.ErrorOnTheWire` | examples/vehicle-tool/att.c:721-738 | an Error Response carries opcode, handle and status, and the client reads that status from it and from nothing else |
| `Att.DecodersRefuse` | examples/vehicle-tool/att.c:205-229 | the list decoders refuse exactly the PDUs of another opcode |
| `BtUuid.WidenShort` | examples/vehicle-tool/lib/uuid.c:55-88 | both short forms widen to the base UUID with their number on top |
| `BtUuid.SameShort` | examples/vehicle-tool/lib/uuid.c:122-130 | short UUIDs compare equal if and only if their numbers are equal, whichever forms they have |
| `BtUuid.StringRoundTrip` | examples/vehicle-tool/lib/uuid.c:135-273 | parsing a printed UUID gives it back, in all three forms |
| `BtUuid.ParsesExactly` | examples/vehicle-tool/lib/uuid.c:183-273 | which strings parse (four or eight digits with or without a prefix, or the five dashed groups), and that what they parse to prints as they are, without the prefix and in lower case |
| `BtUuid.PrintsNumber` | examples/vehicle-tool/lib/uuid.c:135-181 | read as a hexadecimal number, what is printed is the number of the UUID; a 128-bit one is stored least significant byte first |
| `BtUuid.PrintedOverBase` | examples/vehicle-tool/lib/uuid.c:55-88 | a short UUID widened to 128 bits prints as itself over `-0000-1000-8000-00805f9b34fb` |
| `BtUuid.PrefixIgnored` | examples/vehicle-tool/lib/uuid.c:192-228 | a short UUID parses with a prefix `0x` or `0X` as well |
| `GattRead.ReadLongData.ReadCharHelper` | examples/vehicle-tool/gatt.c:640-674 | the object and the outcome are those of the transfer model, a refused next request included |
| `GattRead.ReadLongData.ReadBlobHelper` | examples/vehicle-tool/gatt.c:593-638 | the object and the outcome are those of the transfer model, sizes in 16 bits, a refused next request included |
| `GattRead.ReadsDeliver` | examples/vehicle-tool/gatt.c:593-674 | for every value under 65535 bytes and MTU from 23 to 512, if no request fails, the user gets opcode and exactly the value, after |v| div (MTU - 1) + 1 requests |
| `GattRead.ReadRecovers` | examples/vehicle-tool/att.c:701-719 | the response decoder recovers the value from that |
| `GattRead.ReadsExactly` | examples/vehicle-tool/gattrib.c:397-416 | the value arrives if and only if it is under 65535 bytes and the MTU is at most 512 or the value under 512 bytes |
| `GattRead.ErrorHidden` | examples/vehicle-tool/gatt.c:604-607 | if a request after the first is the first to fail, the user gets exactly the part fetched by the full responses before it, with status zero |
| `GattRead.ErrorsReportedExactly` | examples/vehicle-tool/gatt.c:593-674 | whatever requests the server fails, the user sees an error if and only if the first request failed, and then that error |
| `GattRead.ErrorTakenForSuccess` | examples/vehicle-tool/gatt.c:604-607 | 44 bytes of a hundred are handed over as a success: a concrete run |
| `GattRead.RefusalTold` | examples/vehicle-tool/gatt.c:623-673 | if the transport refuses the next request, the user is told 0x80 with exactly what was fetched |
| `GattWrite.WriteLongData.PrepareWrite` | examples/vehicle-tool/gatt.c:761-778 | the part from the current offset, if a request fits the buffer |
| `GattWrite.WriteLongData.PrepareWriteCb` | examples/vehicle-tool/gatt.c:736-759 | the object and the outcome are those of the write model: an error reported, or the offset moved in 16 bits by a response of any length and the execute or the next part issued |
| `GattWrite.WriteChar` | examples/vehicle-tool/gatt.c:780-815 | a write request that decodes to the whole value exactly if it fits, otherwise a prepare that decodes to its first part, and nothing exactly if neither fits |
| `GattWrite.ExecRoundTrip` | examples/vehicle-tool/att.c:1110-1148 | an execute request decodes to the wish it was made with: write all for flags 1, cancel all for flags 0 |
| `GattWrite.EndsByWriting` | examples/vehicle-tool/gatt.c:746-750 | what ends a long write is an execute that asks for the prepared writes to be written |
| `GattWrite.ServerReads` | examples/vehicle-tool/att.c:1027-1053 | the server decodes from the request for a part its handle, offset and bytes |
| `GattWrite.Forward` | examples/vehicle-tool/gatt.c:746-758 | every part moves the offset forward by what was echoed and never past the end |
| `GattWrite.WritesAreParts` | examples/vehicle-tool/gatt.c:736-759 | through the bytes of requests and cut responses, the exchange issues exactly the parts and one execute, up to the first error |
| `GattWrite.WriteDelivers` | examples/vehicle-tool/gatt.c:736-815 | for every value under 65536 bytes and every sequence of buffer sizes of at least 23, if no request fails: one write, or prepares and exactly one execute after them, and the attribute is the value, after prepares followed by what the old value had behind it |
| `GattWrite.WriteErrorsExactly` | examples/vehicle-tool/gatt.c:736-815 | whatever requests the server fails, the user is told of an error if and only if one of the requests failed, then of the first; nothing is issued after it and the attribute keeps its value |
| `GattWrite.EndsExactly` | examples/vehicle-tool/gatt.c:746-748 | without errors the write ends if and only if the value fits one request or is under 65536 bytes |
| `GattWrite.TilesExactly` | examples/vehicle-tool/gatt.c:745-758 | the bytes decoded from the prepares are the value if and only if no part of the value, cut by the buffer sizes, is longer than 507 bytes; otherwise they are more |
| `GattWrite.TilesAtOneSize` | examples/vehicle-tool/gatt.c:745-758 | with one buffer size: if and only if it is at most 512 or the value at most 507 bytes |
| `GattWrite.RepeatsBytes` | examples/vehicle-tool/gatt.c:745-758 | a value of 600 bytes in buffers of 517 sends five bytes twice: a concrete run |
| `GattServer.BetweenRest` | examples/vehicle-tool/gatt.c:502-515 | after the first j matches of a range request, asking from just behind them matches exactly the rest |
| `GattServer.PageCarries` | examples/vehicle-tool/gatt.c:459-490 | however a page is cut by the server, its buffer or the receive buffer, the client decodes a nonempty run of the first matches |
| `GattChars.DiscoverChar.CharDiscoveredCb` | examples/vehicle-tool/gatt.c:444-522 | the loop collects what the page model gives and asks on or reports as it says |
| `GattChars.FoundIsWanted` | examples/vehicle-tool/gatt.c:464-493 | from the bytes of declarations the callback finds exactly the wanted ones, short and long UUIDs compared in 128 bits |
| `GattChars.DiscoverFinds` | examples/vehicle-tool/gatt.c:444-552 | without errors discovery ends and reports every wanted characteristic of the range once, in handle order, for every paging; the error is zero if and only if something was found |
| `GattChars.DiscoverTells` | examples/vehicle-tool/gatt.c:517-521 | with any request failing: exactly the wanted characteristics below the handle that the failing request asks from, and error zero if any was found |
| `GattChars.PartTakenForAll` | examples/vehicle-tool/gatt.c:517-521 | an error is told if and only if nothing wanted was found before the failing request; a part is passed off as the whole if and only if something wanted lies on both sides of the handle it asks from |
| `GattChars.OtherKindTold` | examples/vehicle-tool/gatt.c:453-457 | a response of another opcode ends the discovery: 0x80 if nothing was found, and success otherwise |
| `GattPrimary.DiscoverPrimary.PrimaryByUuidCb` | examples/vehicle-tool/gatt.c:146-188 | the object and the outcome are those of the page model |
| `GattPrimary.DiscoverPrimary.PrimaryAllCb` | examples/vehicle-tool/gatt.c:190-257 | the loop collects what the page model gives; other element lengths are skipped |
| `GattPrimary.DiscoverByUuidFinds` | examples/vehicle-tool/gatt.c:146-188 | without errors discovery by UUID ends and reports the range of every service with this UUID once, in handle order |
| `GattPrimary.DiscoverAllFinds` | examples/vehicle-tool/gatt.c:190-257 | without errors discovery of all services ends and reports each once, in handle order |
| `GattPrimary.DiscoverByUuidTells` | examples/vehicle-tool/gatt.c:146-188 | with any request failing: exactly the ranges that start below the handle it asks from, and its error |
| `GattPrimary.DiscoverAllTells` | examples/vehicle-tool/gatt.c:190-257 | with any request failing: exactly the services that start below the handle it asks from, and its error |
| `GattPrimary.FaultsAreTold` | examples/vehicle-tool/gatt.c:157-160 | both discoveries tell an error if and only if a request failed with another status than attribute not found, whatever was found before |
| `GattPrimary.OtherKindTold` | examples/vehicle-tool/gatt.c:162-166 | a response of another opcode ends the discovery of all services with 0x80, and that by UUID with success; elements of other lengths than 6 and 20 are skipped |
| `GattIncluded.IncludedDiscovery.FindIncludedCb` | examples/vehicle-tool/gatt.c:378-428 | the loop takes in a page as the model does, issuing one lookup for each 128-bit include |
| `GattIncluded.IncludedDiscovery.ResolveIncludedUuidCb` | examples/vehicle-tool/gatt.c:289-323 | the include is completed, or the first error kept, and the reference given back |
| `GattIncluded.IncludedDiscovery.IsdUnref` | examples/vehicle-tool/gatt.c:87-100 | the user is told when the last reference goes |
| `GattIncluded.IncludedDiscovery.Finish` | examples/vehicle-tool/gatt.c:363-376 | a finished find gives its reference back after its callback |
| `GattIncluded.AnswerKeeps` | examples/vehicle-tool/gatt.c:80-100 | references equal the commands in flight after every answer, and the error is the first one |
| `GattIncluded.ReportsOnce` | examples/vehicle-tool/gatt.c:80-100 | whatever the answers: told exactly once, after the last command, with the first error if any and otherwise with the includes |
| `GattIncluded.OneAnswer` | examples/vehicle-tool/gatt.c:289-428 | one answer keeps what is found, being looked up and still to be found together the same, and strictly lowers the answers still needed |
| `GattIncluded.AllIncludesFound` | examples/vehicle-tool/gatt.c:363-442 | against a conforming server every include of the range is reported once, in handle order, with its UUID, for every paging |
| `GattIncluded.ErrorsAre` | examples/vehicle-tool/gatt.c:289-428 | the error of one answer: the status, but for attribute not found of a find; 0x80 for a PDU that is not what was asked for |
| `GattIncluded.EmptyPageEnds` | examples/vehicle-tool/gatt.c:402-427 | a page without a whole element ends the finds without an error |
| `GattService.ParseOpts` | examples/vehicle-tool/gatt-service.c:59-124 | the one-pass loop returns what the parsing function gives |
| `GattService.ParseIsGroups` | examples/vehicle-tool/gatt-service.c:116-120 | the parser treats the options of each characteristic on their own |
| `GattService.ParsedGathers` | examples/vehicle-tool/gatt-service.c:69-114 | what a characteristic gets from its options: the last UUID, properties and protections, all callbacks in order, and the handles asked for |
| `GattService.AcceptedExactly` | examples/vehicle-tool/gatt-service.c:185-226 | from the options: a characteristic passes validation if and only if its last UUID is of 16 or 128 bits, its last properties are not zero, and what can be read or written, or is protected against it, has a callback |
| `GattService.CountIsConsumed` | examples/vehicle-tool/gatt-service.c:69-90 | for a characteristic with a UUID the count equals the attributes it takes if and only if its notifying properties options are as many as its last one needs descriptors; setting the properties once suffices; it is never too small |
| `GattService.SizeIsConsumed` | examples/vehicle-tool/gatt-service.c:319-323 | if every characteristic names its UUID first and sets its properties once, the size counted is the number of handles taken |
| `GattService.AddCharacteristic` | examples/vehicle-tool/gatt-service.c:185-280 | what is added, in order, up to the first refusal; the handle moves on success only; the handles of value and descriptor are reported as soon as those are in, if asked for |
| `GattService.ServiceAttrDel` | examples/vehicle-tool/gatt-service.c:290-298 | exactly the range is removed, for ranges that end below the last handle |
| `GattService.AddCharsFrame` | examples/vehicle-tool/gatt-service.c:340-348 | adding characteristics fills exactly the handles from the first to behind the last attribute added |
| `GattService.GattServiceAdd` | examples/vehicle-tool/gatt-service.c:300-359 | from the raw options and the handle the database finds, the object ends as the registration model says |
| `GattService.RegistersExactly` | examples/vehicle-tool/gatt-service.c:333-351 | without refusals every attribute lands at its place in consecutive handles, and the final assertion holds if and only if every count was exact |
| `GattService.ClientsFind` | examples/vehicle-tool/gatt-service.c:126-277 | after a registration without refusals, reading the database as clients do: the service has its UUID, and each characteristic its declaration with its properties, UUID and the handle at which its value stands, with the permissions, callbacks and descriptor its options ask for |
| `GattService.NeedsAre` | examples/vehicle-tool/gatt-service.c:148-175 | which permission reading and writing need: authorization before authentication, then the property bits |
| `GattService.HungLast` | examples/vehicle-tool/gatt-service.c:243-256 | of several callbacks for an event the last stands, and the last of all gives the user data |
| `GattService.LeftoverExactly` | examples/vehicle-tool/gatt-service.c:340-348 | in free handles, adding characteristics leaves part of one behind if and only if one that the loop reaches is refused after its declaration went in |
| `GattService.RollbackExactly` | examples/vehicle-tool/gatt-service.c:344-346 | a failed registration leaves the database changed if and only if its declaration goes in and a characteristic that it reaches is refused in the middle |
| `GattService.PartialStays` | examples/vehicle-tool/gatt-service.c:344-346 | the declaration of a characteristic whose value is refused stays: a concrete registration |
| `GattService.ValidationRollsBack` | examples/vehicle-tool/gatt-service.c:195-224 | without refusals registration fails if and only if some characteristic fails validation, and then nothing is left behind |
| `GattService.OptionsRegister` | examples/vehicle-tool/gatt-service.c:300-359 | from the options, nothing refused and every characteristic acceptable: registered, in exactly the handles counted, if and only if each sets notifying properties as often as its last ones need descriptors; otherwise the assertion fails |
| `GattService.TwiceNotified` | examples/vehicle-tool/gatt-service.c:81-86 | setting notifying properties twice trips the final assertion: a concrete option list |
| `Eir.ScanInverts` | src/eir.c:23-54 | splitting a serialization gives back exactly its records, whatever padding follows |
| `Eir.BleAdvParseScan` | src/eir.c:23-54 | with and without an array: the count modulo 256, and up to 255 records in the array with the other slots untouched; without one the last record may be cut |
| `Advertisement.VehicleAdv.ParseAdvRecord` | src/advertisement.c:18-80 | on every complete packet whose lengths fit, the object and the return code are those of interpreting its records |
| `Advertisement.VehicleAdv.ParseMfgData` | src/advertisement.c:93-106 | the object holds what eight bytes carry, and the code is one for any other length |
| `Advertisement.MfgDataHolds` | src/advertisement.c:93-106 | exactly eight bytes are taken: product in two bytes and identifier in four, most significant first; any other length changes nothing |
| `Advertisement.VehicleAdv.ParseLocalName` | src/advertisement.c:108-132 | state, version and name by length; an absent field keeps its old value |
| `Advertisement.LocalNameHolds` | src/advertisement.c:108-132 | bits 4 to 6 of the first byte, the version least significant byte first, the name filled up with zeros; an absent field keeps its old value |
| `Advertisement.InterpretIsFold` | src/advertisement.c:18-80 | on records of known types, fitting lengths and no foreign service, interpreting is a left fold |
| `Advertisement.StopsExactly` | src/advertisement.c:18-80 | on any records: everything before the first unknown type or foreign service is taken, and the code tells which of the two it was, or whether the service is Anki's |
| `Advertisement.ParseIsFold` | src/advertisement.c:18-80 | from the bytes of such records, with any padding, the parser computes that fold and says whether the service is Anki's |
| `Advertisement.Accumulates` | src/advertisement.c:18-80 | an advertisement and then a scan response accumulate like both as one packet |
| `Advertisement.SentComesBack` | src/advertisement.c:18-132 | from the bytes in which a vehicle tells all its fields, the parser gives exactly these fields, whatever it knew before |
| `Advertisement.TestRecords` | test/test_vehicle_advertisement.c:47-72 | the two records of the unit tests give the values that these expect |
| `Advertisement.TestPackets` | test/test_vehicle_advertisement.c:11-45 | the vehicle's two packets of the unit tests, parsed one after the other, give success and the stated fields; only the first names the service |
| `Advertisement.AnkiServiceIs` | include/ankidrive/vehicle_gatt_profile.h:20-22 | the service UUID that the parser compares with prints as the string of the header, in lower case |
| `Advertisement.HasAnkiUuid` | src/advertisement.c:82-85 | yes if and only if a service that is not foreign comes before any other service and any unknown record; other records may be cut |

## Left out

- `HASH_SELECT`: the selected table gets neither a tail nor filter bits from it, so the invariants do not hold there.
- The internals of the hash functions, memory overhead figures, key emission and debug output.
- Allocation failure, null arguments, and the 32-bit ranges of `num_items`, `num_buckets` and `next_cmd_id`, which are unbounded here;
  `insize` of the sort does wrap.
- The `tbl` pointer of each handle and the offset arithmetic from handle to element: the table and its head pointer are one object.
- `Uthash.HashTable.AddKeyptr`: adding a key that is present, or an element that is in the table, is excluded, as by the callers.
- `Uthash.HashTable.Fsck`: what it reports of a damaged table; the walks of arbitrary links need not end.
- `Uthash.HashTable.Sort`: lists of 2^32 elements and more, whose run length would wrap to zero; comparators that look at anything
  but the values of the elements, here as in `UthashRun.RunAll`.
- Registered events: which handler matches a PDU, and handlers that unregister each other; their sends and cancels are parameters.
- References to the transport object, its channel and the read watch; sockets, the main loop and real time.
- `LongReadAtomic.StartInv`: no queued command may already carry the id that the counter gives next; `AttribIds.NextIdIsNew`
  says when that is so, and `LongReadReport.EveryReadEverywhere` does without it.
- `LongReadValue.DeliversTheValue`: timeouts; what they tell is in `AttribEffects.TimeoutTells`.
- `Att.DecReadByGrpResp`: an element length of zero, on which the original divides by zero, is excluded; so it is in the
  read-by-type decoder.
- The prepared-write response decoder, which tests for the request's opcode, and the remaining request and response codecs,
  which are straight-line field copies.
- `BtUuid.StringRoundTrip`: parsing covers strings of hexadecimal digits, as `BtUuid.ParsesExactly` says; signs, white space and
  odd digit counts that the C library also accepts are not modelled, and neither is the order of unequal UUIDs.
- `GattRead.ReadsExactly`: the MTU and the value stay the same during one read.
- `GattWrite.WriteDelivers`: one long write in progress on the server's queue, and a server that echoes every part it does not refuse.
  A prepare that the transport refuses is never reported in the original; here the transport takes every request.
- `GattIncluded.ReportsOnce`: every send is accepted and no command is cancelled; a refused send would leak its reference.
- `GattChars.DiscoverFinds`: the server's declarations are each followed by their value handle; the stop test relies on it.
- `GattService.AddCharacteristic`: user data of callbacks is an opaque number.
- `Eir.BleAdvParseScan`: records of more than 30 bytes with an array, which the original would write past its element.
- `gatt_parse_record` and the other SDP helpers, `protocol.c`, the command line tools and the HCI loop.
