# raids: verified models

Dafny models of the parts of the raids server where something can go wrong that no single
function shows: a hash table that doubles in place, the splitting and rejoining of memcached
datagrams, Redis transactions over a shared store, the loop that runs a command over its keys,
the decoding of a byte stream that arrives in pieces, SHA-1 fed in pieces, and two data
structures of the bundled terminal. Each operation is modelled with the branches, constants and
error cases of the source and proved against a specification of its own; the specification's
properties are proved for all inputs, all runs and all interleavings.

`dafny verify dfyconfig.toml` checks everything (Dafny 4.11).

## Modules

- `Common`: an option type and a fact about sets.
- `VarTable`: the open-addressing table of the HTTP client. A class over an array, proved to
  implement a map; the reason why the in-place doubling may move entries while it walks, and may
  stop early, is worked out in lemmas about probe paths.
- `Bytes`, `UdpCuts`, `UdpFraming`, `UdpMerge`, `UdpRoundTrip`, `UdpBatch`, `UdpKept`: the counting
  and the building pass of `construct_frames`, the reassembler, and the round trip through both.
  `UdpCuts` has the reference (`Datagrams`: the bytes cut at fixed sizes) and the pure cutting of
  segments, `UdpFraming` the two passes over the arrays, `UdpMerge` the reassembler with the exact
  outcome for every batch, `UdpRoundTrip` what that means for complete, incomplete and delivered
  requests, `UdpBatch` the loop over a batch of several requests, and `UdpKept` what frames kept
  from earlier batches can do to later requests.
- `TransactionQueue`, `TransactionLocks`, `TransactionRuns`, `TransactionWatch`,
  `TransactionHistory`: the queue with its duplicate keys, the lock walk, WATCH/MULTI/EXEC as a
  system of interleaved steps of any number of clients, what WATCH promises over whole runs, and
  what EXEC has done at the end of a run, told from the actions of the run alone.
- `Scheduler`, `KeyCommands`, `StringCommands`: the loop over the keys of a command, for every
  command that follows its rules, and DEL, RENAME, RENAMENX, GET, MGET and MSETNX run by it.
- `RedisReplies`: the text of replies, and what a client with a reader of its own reads from it.
- `MemcachedMsg`, `MemcachedStream`, `MemcachedErrors`: decoding text commands, independence of how
  the stream is cut, and what refused lines do to it.
- `MemcachedRequests`, `MemcachedValues`, `MemcachedResults`: round trips. Requests of all 24 commands
  from a writer through the decoder, values through the writer and the reader of replies, and the
  replies of one line.
- `Sha1`, `Sha1Stream`, `Sha1Meaning`: the block function against section 6.1 of RFC 3174, the
  streaming context against the padded message of section 4, and what the functions and constants
  shared by both mean, with the published digest of section 7.3.
- `LruMap`, `GlyphCache`, `MergeRanges`: the least-recently-used map, the glyph cache with its packed
  keys, and the in-place union of ranges, of `console/xterm.js`.

## Where the code and its promise differ

The models follow the code. Where a promised property fails, there is an input and the exact
condition under which it holds.

- Framing opens a datagram without payload when an empty segment starts exactly where a datagram
  was filled, and the receiver never counts such a datagram, so the request is never rebuilt:
  `UdpCuts.EmptyCutExample`; exactly then, `UdpFraming.BatchIsExactIff`, `UdpRoundTrip.RebuiltIff`.
- The search of `merge_frames` does not advance past an absent sequence number:
  `UdpRoundTrip.FirstFrameTwice`; exactly when, `UdpMerge.EvMemcachedMerge.MergeFrames` for every
  batch and `UdpRoundTrip.SpinsIff` in terms of what arrived.
- Taking a kept frame clears the slot behind the batch, which may be behind the array:
  `UdpKept.LateFrame`; exactly when, `UdpRoundTrip.CompleteEnds`.
- Kept frames survive the request that is rebuilt from them, and requests are told apart by their
  ids alone, so that a later request can get an old payload: `UdpKept.StaleFrame`; exactly when
  the rebuilt bytes are frames of one request, `UdpKept.OwnFramesIff`.
- A command that is refused while it is queued need not abort the transaction, although syntax is
  promised to be checked before (doc/redis_cmd.adoc:4202-4215): if it is `multi_queued` that
  refuses it, src/redis_exec.cpp:485-486 does not set `multi_abort`, and EXEC runs it:
  `TransactionQueue.RefusedExample`; EXEC runs only commands that were answered with QUEUED exactly
  if it runs none at all or none was refused this way, `TransactionQueue.RedisMultiExec.ExecExec`.
- WATCH promises that no watched key has been modified (doc/redis_cmd.adoc:4259-4261). For a key
  that existed this holds; a key that did not exist may have been created and deleted again:
  `TransactionWatch.AbsentKeyExample`; exactly what is noticed, `TransactionWatch.WatchAcceptsIff`.
- RENAME of a key to itself deletes the key, and RENAME of an empty value reports a missing key:
  `KeyCommands.RenameMovesIff`, `KeyCommands.RenameNxMovesIff`.
- RENAMENX and MSETNX promise the reply 0 when they refuse (doc/redis_cmd.adoc:1025-1045 and
  1624-1645); what is sent is an empty list, because src/redis_exec.cpp:1110-1111 handles the abort
  with the empty array: `KeyCommands.RenameEnds`, `StringCommands.MSetNxEnds`. RENAMENX with a
  missing source and an existing new name does not report the missing key.
- MSETNX with the last value missing first stores one key context more than its array has
  (src/redis_exec.cpp:500-520), which is not part of the model; it then creates the keys before the
  last one and fails: `StringCommands.AllOrNothingIff`.
- A command line that does not parse drops whatever has arrived with it, and decoding resumes
  wherever the next read begins, possibly in the middle of a line or of data:
  `MemcachedErrors.TwoBadLinesExample`; exactly when the cutting matters,
  `MemcachedErrors.IndependentIff`.
- The glyph cache looks glyphs up under 32 bits that do not tell all of them apart:
  `GlyphCache.InvertedExample`, `GlyphCache.WideExample`; exactly which of the glyphs that are ever
  drawn can come out as others, `GlyphCache.UnmistakableIff`, `GlyphCache.ShowsAnother`.
- `VarHT` never initialises its count of used slots (include/raids/ev_http_client.h:48-50): the
  count is then off by a constant, which `VarTable.VarHT.Add` carries. As long as the table stays
  below 2^32 slots and the count does not wrap, the map is right regardless; but additions double
  the table each time, up to 4 * 2^t slots after t of them, exactly as long as
  `VarTable.DoublesEachTime` says, so that an initial value of 2^30 or more leads to 2^32 slots.

## Model

| member | source | states |
|---|---|---|
| `VarTable.MaskIsModulo` | src/ev_http_client.cpp:854-861 | masking a hash with size - 1 is the remainder modulo the size, for every power of two |
| `VarTable.RunBound` | src/ev_http_client.cpp:862-874 | k occupied slots in a row, as a probe meets them, prove that k entries are stored |
| `VarTable.SkipStep` | src/ev_http_client.cpp:890-899 | passing a vacant slot, or an entry whose walk comes back to it, keeps what doubling needs to stay sound |
| `VarTable.VisitedPathsAvoid` | src/ev_http_client.cpp:897-905 | no entry that has been rehashed has the slot being vacated on its probe path |
| `VarTable.UpperPathsDoNotWrap` | src/ev_http_client.cpp:897-905 | by counting, no probe path of the upper half wraps around into slots still to be visited |
| `VarTable.MoveKeepsBindings` | src/ev_http_client.cpp:900-902 | moving an entry to a vacant slot leaves the same keys bound to the same values, each in one slot |
| `VarTable.MoveStep` | src/ev_http_client.cpp:897-905 | moving an entry to the first vacancy on its probe path keeps what doubling needs, including for entries visited a second time |
| `VarTable.StopEarly` | src/ev_http_client.cpp:891-893 | leaving the loop at the first vacant slot beyond the old size is sound: every entry is already reachable from its home |
| `VarTable.FinishDoubling` | src/ev_http_client.cpp:890-907 | when the loop runs to the end the table is correct for the new size |
| `VarTable.ProbeGoesOn` | src/ev_http_client.cpp:862-873 | with the table at most half full, a probe that has passed an occupied slot has slots left: every probe loop ends at a match or a vacancy |
| `VarTable.ReplayIsLastAdded` | src/ev_http_client.cpp:849-876 | the map the table is compared with binds each key to the value added last, for every sequence of additions |
| `VarTable.ProbeEndsAtVacancy` | src/ev_http_client.cpp:862-872 | a vacancy on the probe path proves that the key is nowhere in the table |
| `VarTable.InsertAtVacancy` | src/ev_http_client.cpp:867-871 | storing a new pair in the first vacancy of its probe path adds exactly that binding and keeps all others reachable |
| `VarTable.RebindInPlace` | src/ev_http_client.cpp:863-866 | overwriting the value of a found key changes that binding only |
| `VarTable.DoublesEachTime` | src/ev_http_client.cpp:849-858 | whatever the count was at first: after t additions the table has at most 4 * 2^t slots, and exactly as many if and only if the count before the last one was at least 2^t (or t is 1) |
| `VarTable.VarHT.constructor` | include/raids/ev_http_client.h:45-50 | an empty table; the count of used slots starts with whatever the memory held |
| `VarTable.VarHT.Add` | src/ev_http_client.cpp:849-876 | the table becomes the old map with the pair bound, doubling first when the count of used slots has reached half the size, which makes the size the one of DoublesEachTime; at most half of the slots are in use afterwards |
| `VarTable.VarHT.Put` | src/ev_http_client.cpp:861-874 | the probe loop ends with the pair bound, and reports a new slot exactly when the key was not there; an empty key binds nothing |
| `VarTable.VarHT.Get` | src/ev_http_client.cpp:910-928 | returns the value added last for a key, or absence; an empty key is found in every table that has slots |
| `VarTable.VarHT.Resize` | src/ev_http_client.cpp:878-908 | doubles the size, or creates eight slots, and keeps the map |
| `VarTable.VarHT.Rehash` | src/ev_http_client.cpp:890-906 | the in-place rehash leaves every entry once and reachable under the new mask |
| `VarTable.VarHT.Walk` | src/ev_http_client.cpp:896-905 | finds the first vacancy on the way from the home of an entry, or the entry itself; terminates |
| `UdpCuts.PackCuts` | src/ev_memcached.cpp:495-564 | cutting segment by segment yields the chunks of the whole byte sequence, plus one more datagram for each empty segment that starts where a datagram was just filled |
| `UdpCuts.EmptyAtCutIff` | src/ev_memcached.cpp:434-455 | a datagram without payload is opened if and only if an empty segment starts at a datagram boundary |
| `UdpCuts.PackKeepsBytes` | src/ev_memcached.cpp:538-563 | whatever the segments, the payloads in order are the bytes of the reply |
| `UdpCuts.PackFits` | src/ev_memcached.cpp:520-563 | no datagram holds more than its room |
| `UdpCuts.ChunksAreFull` | src/ev_memcached.cpp:422-423 | the reference chunks: all but the last are full, the last is not empty, together they are the bytes |
| `UdpCuts.FramesCarry` | src/ev_memcached.cpp:565-575 | gathered from memory after the headers were written, each frame is its header followed by its payload, and the header written into the first segment does not damage any payload |
| `UdpCuts.ReplyIsExactIff` | src/ev_memcached.cpp:416-586 | a reply goes out as its reference datagrams if and only if no empty segment starts at a datagram boundary |
| `UdpCuts.EmptyCutExample` | src/ev_memcached.cpp:434-437 | at the frame size of 1400 bytes: a reply of four segments that goes out in exactly three datagrams where the reference has two |
| `UdpCuts.ReplyFits` | src/ev_memcached.cpp:416-586 | no datagram is longer than the frame size, whatever the segments |
| `UdpCuts.DatagramsAreFull` | src/ev_memcached.cpp:422-423 | all reference datagrams but the last have exactly the frame size, and their payloads are the reply |
| `UdpFraming.MemcachedUdpFraming.ConstructFrames` | src/ev_memcached.cpp:416-586 | for every batch of replies the datagrams sent are those of the walk over their segments, headers included; as many messages and slices are used as were counted (BatchIsExactIff says when these are the reference datagrams) |
| `UdpFraming.MemcachedUdpFraming.Count` | src/ev_memcached.cpp:424-459 | the first pass counts the messages and slices of the walk, and asks for a split exactly when a reply needs a second datagram |
| `UdpFraming.MemcachedUdpFraming.CountRequest` | src/ev_memcached.cpp:427-457 | the same for one reply |
| `UdpFraming.MemcachedUdpFraming.SendWhole` | src/ev_memcached.cpp:464-483 | without a split every reply that is not empty is sent once, from the segments it was written to |
| `UdpFraming.MemcachedUdpFraming.SendSplit` | src/ev_memcached.cpp:484-585 | the second pass uses exactly the counted messages and slices, and sends exactly the frames the first pass walked over |
| `UdpFraming.MemcachedUdpFraming.BuildRequest` | src/ev_memcached.cpp:499-576 | appends the frames of one reply, with sequence numbers and total filled in |
| `UdpFraming.MemcachedUdpFraming.BuildFrames` | src/ev_memcached.cpp:513-564 | the inner loop builds the same cuts as the counting pass walks over |
| `UdpFraming.MemcachedUdpFraming.AddSlice` | src/ev_memcached.cpp:538-553 | one more slice goes to the datagram that is open, in both arrays |
| `UdpFraming.MemcachedUdpFraming.StampHeaders` | src/ev_memcached.cpp:565-575 | every header of a split reply is the first one with its own sequence number |
| `UdpFraming.PackCounts` | src/ev_memcached.cpp:424-459 | the numbers of frames and slices of the cut, step by step, are those the first pass adds up |
| `UdpFraming.CountGrows` | src/ev_memcached.cpp:424-459 | the counts of a prefix of the batch never exceed those of the batch, so no slot beyond the allocated ones is used |
| `UdpFraming.RequestAgrees` | src/ev_memcached.cpp:495-577 | the headers written for earlier replies do not change the cut of a later one |
| `UdpFraming.BatchIsExactIff` | src/ev_memcached.cpp:416-586 | what is sent for a batch is the reference datagrams of every reply if and only if in no reply an empty segment starts at a datagram boundary |
| `UdpFraming.AddressedReplies` | src/ev_memcached.cpp:495-578 | of what is sent for a batch, the datagrams that answer one request are those of its own reply, in order |
| `UdpFraming.WholeReply` | src/ev_memcached.cpp:464-483 | a reply that fits one frame is its own reference datagram |
| `UdpMerge.EvMemcachedMerge.MergeFrames` | src/ev_memcached.cpp:216-358 | for every batch and whatever was kept: with too few frames all of them are kept; otherwise the outcome is the one that Ends determines, exactly, and a rebuilt request is the frames in order with one header; nothing but frames of the request is dropped |
| `UdpMerge.EvMemcachedMerge.Concatenate` | src/ev_memcached.cpp:256-310 | the loop over the sequence numbers never ends if and only if it reaches a number of which there is no frame, overruns the array if and only if it reaches a kept frame with no slot behind the batch, and succeeds if and only if it reaches the total with exactly the expected size |
| `UdpMerge.EvMemcachedMerge.AppendFrame` | src/ev_memcached.cpp:257-309 | one round: the frame with the next number is appended, or the way the loop ends is decided |
| `UdpMerge.EvMemcachedMerge.CountFrames` | src/ev_memcached.cpp:225-248 | the numbers of frames and bytes of the request; kept frames are counted only if the batch has too few |
| `UdpMerge.EvMemcachedMerge.FindFrame` | src/ev_memcached.cpp:258-285 | finds the first frame with the next number, in the batch or among those kept, if there is one; only frames of the request with lower numbers are dropped on the way |
| `UdpMerge.EvMemcachedMerge.KeepFrames` | src/ev_memcached.cpp:312-355 | all frames of the request leave the batch, and the last one with each sequence number is kept in its place; what was kept for other numbers stays |
| `UdpMerge.EndsSpinning` | src/ev_memcached.cpp:256-310 | a number without a frame decides the outcome: no other one is possible |
| `UdpMerge.EndsOverrunning` | src/ev_memcached.cpp:302 | so does a kept frame without a slot behind the batch |
| `UdpMerge.EndsExceeding` | src/ev_memcached.cpp:288-298 | so does a frame that does not fit the buffer any more |
| `UdpMerge.KeptMeans` | src/ev_memcached.cpp:335-355 | a place holds a frame of the request with its number if the batch had one, and otherwise what it held before |
| `UdpRoundTrip.FramesLeft` | src/ev_memcached.cpp:225-251 | a complete request has as many frames as sequence numbers, so the guard before the loop is passed |
| `UdpRoundTrip.NoneKept` | src/ev_memcached.cpp:237-248 | when the batch alone has all frames none is kept, so the size is right although kept frames are not counted |
| `UdpRoundTrip.CompletePlace` | src/ev_memcached.cpp:258-285 | in a complete request every frame is found where it is |
| `UdpRoundTrip.CompleteEnds` | src/ev_memcached.cpp:216-311 | a complete request, in any order and over the batch and the kept frames, is rebuilt if and only if no kept frame is needed or there is a slot behind the batch; otherwise the array is overrun |
| `UdpRoundTrip.CompleteDrops` | src/ev_memcached.cpp:264-302 | all frames of a rebuilt request are dropped from the batch, and nothing else |
| `UdpRoundTrip.GluedFits` | src/ev_memcached.cpp:287-300 | frames that are all in the batch never exceed the buffer |
| `UdpRoundTrip.SpinsIff` | src/ev_memcached.cpp:251-310 | with nothing kept before, the loop never ends if and only if the batch has as many frames of the request as its total but none for some number |
| `UdpRoundTrip.FirstFrameTwice` | src/ev_memcached.cpp:256-310 | a request of two frames of which the first arrives twice: the loop never ends |
| `UdpRoundTrip.DatagramsAreFrames` | src/ev_memcached.cpp:565-575 | the datagrams of a split reply all carry its id and their own sequence number |
| `UdpRoundTrip.RejoinChunks` | src/ev_memcached.cpp:416-586 | joining the first n datagrams gives the first n chunks |
| `UdpRoundTrip.RoundTrip` | src/ev_memcached.cpp:216-586 | for every reply of more than a header and every frame size, the reference datagrams joined in sequence are the reply, byte for byte, with sequence number 0 and total 1 |
| `UdpRoundTrip.AnyOrderIsComplete` | src/ev_memcached.cpp:216-310 | the datagrams of a split reply in any order and distribution are a complete request |
| `UdpRoundTrip.SecondBatchCompletes` | src/ev_memcached.cpp:216-358 | a reply split over two batches: after the first one's frames were kept, the second makes the request complete |
| `UdpRoundTrip.EmptyPayload` | src/ev_memcached.cpp:434-437 | an empty segment at a boundary makes a datagram that consists of its header |
| `UdpRoundTrip.ProcessFrame` | src/ev_memcached.cpp:369-389 | a received datagram is a whole message if its total is 1; otherwise its request is merged with the id and the total of its own header |
| `UdpRoundTrip.CountIsLow` | src/ev_memcached.cpp:225-251 | a datagram that is only a header is never counted, so the request stays incomplete |
| `UdpRoundTrip.RebuiltIff` | src/ev_memcached.cpp:216-586 | what framing sends for a reply, delivered in any order among others, is rebuilt byte for byte if and only if no empty segment starts at a datagram boundary |
| `UdpRoundTrip.FrameAndRebuild` | src/ev_memcached.cpp:216-586 | the same with both programs run one after the other: the datagrams that construct_frames sends for one request of a batch go through merge_frames |
| `UdpBatch.ArrivedFrames` | src/ev_memcached.cpp:227-233 | the frames of a request in a batch of several are its own datagrams, each at most once |
| `UdpBatch.KeptSame` | src/ev_memcached.cpp:335-355 | earlier requests of the batch do not change what is kept of a later one |
| `UdpBatch.BatchStep` | src/ev_memcached.cpp:359-413 | a datagram that is still there is the first one of its request, which is rebuilt if all of it has arrived and kept otherwise; its datagrams leave the batch, all others stay |
| `UdpBatch.LookAtMessage` | src/ev_memcached.cpp:371-411 | one round of the loop: the datagram is passed over, its request is kept, or one message is delivered |
| `UdpBatch.ProcessBatch` | src/ev_memcached.cpp:359-413 | the loop ends for every batch of datagrams of several requests in any order, some of them missing, and delivers and keeps what DeliveredOnceIff and KeptIff describe |
| `UdpBatch.DeliveredOnceIff` | src/ev_memcached.cpp:359-413 | exactly one message is delivered for every request, the request byte for byte, if all its datagrams have arrived, and none otherwise |
| `UdpBatch.OnlyRequests` | src/ev_memcached.cpp:359-413 | nothing but those requests is delivered |
| `UdpBatch.KeptIff` | src/ev_memcached.cpp:312-358 | a frame of an incomplete request is still kept after the batch if and only if no incomplete request that came later has a frame with its number or no such number at all |
| `UdpKept.GluedIsRejoinIff` | src/ev_memcached.cpp:286-300 | frames of the same sizes are concatenated to the same bytes if and only if each of them adds the same |
| `UdpKept.OwnFramesIff` | src/ev_memcached.cpp:275-285 | when a request is rebuilt from frames of the batch and kept ones of the right sizes, the result is its own frames joined if and only if every kept frame adds what the frame of the request would have added |
| `UdpKept.LateFrame` | src/ev_memcached.cpp:302 | the second frame in one batch and the first in the next, without a slot behind the batch: the array is overrun |
| `UdpKept.StaleFrame` | src/ev_memcached.cpp:256-310 | three batches: a request is rebuilt from a kept frame, and then the first frame of a new request with the same id is taken for all of it and joined with the old payload |
| `TransactionQueue.OneOwnerPerKey` | src/redis_transaction.cpp:299-303 | every key of the list has exactly one owning slot, and all its slots point at it |
| `TransactionQueue.OwnerComesFirst` | src/redis_transaction.cpp:313-324 | a duplicate comes after the owner it points at, so the lock walk has acquired the owner before |
| `TransactionQueue.AddedKeyIsOwned` | src/redis_transaction.cpp:295-304 | one more key in the last message keeps every slot pointing at the first slot of its key |
| `TransactionQueue.RedisMultiExec.GetDupKctx` | src/redis_transaction.cpp:312-324 | finds the first slot of a key in the whole list, or that there is none |
| `TransactionQueue.RedisMultiExec.AddKey` | src/redis_transaction.cpp:294-304 | the filter (include/raids/redis_transaction.h:76-82) never hides a duplicate: the new slot owns its key if and only if the key is new |
| `TransactionQueue.RedisMultiExec.AddMessage` | src/redis_transaction.cpp:266-305 | appends a message with these keys and leaves the earlier messages alone |
| `TransactionQueue.RedisMultiExec.MultiQueued` | src/redis_transaction.cpp:251-310 | queues a command with its keys up to the first missing argument; it is refused, but stays queued, if an argument is missing or their number is not the expected one |
| `TransactionQueue.RedisMultiExec.ExecMulti` | src/redis_transaction.cpp:358-407 | the watched keys become the first message; a second MULTI is refused and changes nothing in the list |
| `TransactionQueue.RedisMultiExec.Receive` | src/redis_exec.cpp:470-488 | a command between MULTI and EXEC: one that is not known or has too few arguments aborts the transaction, any other one is appended with the effect it was given, and refused if its keys are not as many as expected, without aborting |
| `TransactionQueue.RedisMultiExec.ExecExec` | src/redis_transaction.cpp:158-218 | EXEC runs all commands in the list, unless it is aborted or a watched key was modified; it runs only commands answered with QUEUED if and only if it runs none or no command in the list was refused |
| `TransactionQueue.RefusedExample` | src/redis_exec.cpp:485-486 | MSET with the last value missing is refused and EXEC runs it |
| `TransactionLocks.AcquireStep` | src/redis_transaction.cpp:110-123 | at an owning slot the key is not yet held by the transaction, at a duplicate it is; going on keeps held exactly the keys passed |
| `TransactionLocks.ReleaseStep` | src/redis_transaction.cpp:135-139 | going back over an owning slot releases a key that no earlier slot has, so held are again exactly the keys passed |
| `TransactionLocks.KeyLocks.MultiTryLock` | src/redis_transaction.cpp:103-126 | acquires each distinct key once, or stops at a key of another client holding exactly the keys before it |
| `TransactionLocks.KeyLocks.MultiReleaseLock` | src/redis_transaction.cpp:128-146 | from wherever the walk stopped, releases exactly what was acquired |
| `TransactionLocks.KeyLocks.TryOnce` | src/redis_transaction.cpp:166-168 | an attempt succeeds if and only if no key is held by anybody; a failed one leaves no trace |
| `TransactionRuns.TxUndisturbed` | src/redis_transaction.cpp:148-249 | a step of another client that respects the locks changes nothing that a transaction relies on |
| `TransactionRuns.StepKeepsInv` | src/redis_transaction.cpp:13-249 | every enabled step of every client keeps the invariant: locks held are exactly the keys passed, watches are as recorded, the values are those of the commands run so far |
| `TransactionRuns.AcquireStepInv` | src/redis_transaction.cpp:103-126 | the lock walk keeps it |
| `TransactionRuns.ReleaseStepInv` | src/redis_transaction.cpp:128-146 | backing off and releasing keep it |
| `TransactionRuns.CheckStep` | src/redis_transaction.cpp:172-196 | the watch check keeps it |
| `TransactionRuns.RunStep` | src/redis_transaction.cpp:208-245 | running a command keeps it, for the transaction and for all others |
| `TransactionRuns.CommandKeysHeld` | src/redis_transaction.cpp:208-245 | every key of a command that runs is locked by its transaction |
| `TransactionRuns.RunAllLocal` | src/redis_transaction.cpp:208-245 | the queued commands read and write the keys of the transaction only |
| `TransactionRuns.RunAllApplies` | src/redis_transaction.cpp:208-245 | the loop from the i-th command on runs them one after the other, each from what the one before has left |
| `TransactionRuns.CommitRuns` | src/redis_transaction.cpp:208-249 | whatever other clients have done meanwhile, running the commands at commit leaves on the keys of the transaction what running them on what it saw at the check leaves, and nothing changes on other keys |
| `TransactionRuns.CommitEffect` | src/redis_transaction.cpp:148-249 | committing applies the commands queued after MULTI, one after the other, each once, to what is committed at that moment; one command gives its own keys what its effect makes of their values, and leaves all others alone |
| `TransactionRuns.StepEffect` | src/redis_transaction.cpp:148-249 | every step commits one whole transaction in this sense, or one write of a client outside of transactions, or nothing |
| `TransactionRuns.InitialInv` | src/redis_transaction.cpp:350-356 | the invariant holds at the start |
| `TransactionRuns.QuiescentStore` | src/redis_transaction.cpp:246-249 | when no transaction is running the values in the store are what is committed |
| `TransactionRuns.NothingLeftLocked` | src/redis_transaction.cpp:13-24 | a transaction that is over or not yet executing holds no lock |
| `TransactionRuns.LeavesNothingLocked` | src/redis_transaction.cpp:13-24 | after DISCARD, UNWATCH and the end of EXEC the client holds no lock |
| `TransactionRuns.NoSelfConflict` | src/redis_transaction.cpp:113-122 | the lock walk never waits for a key that the transaction itself holds |
| `TransactionRuns.WatchOkIff` | src/redis_transaction.cpp:181-192 | the comparison of serials succeeds if and only if the key is in the state that WATCH read |
| `TransactionRuns.WatchedKeysHeld` | src/redis_transaction.cpp:391-404 | every watched key is locked when the check is made |
| `TransactionRuns.WatchCheckIff` | src/redis_transaction.cpp:172-196 | the commands run if and only if nothing is watched, or every watched key, locked, is in the state that WATCH saw; TransactionWatch says what this means for the steps in between |
| `TransactionWatch.StepOnKey` | src/redis_transaction.cpp:181-192 | a step that does not write a key leaves its entry alone; one that does removes it or gives it a serial it has never had |
| `TransactionWatch.Gone` | src/redis_transaction.cpp:181-192 | over every run, a serial that a key no longer has never comes back |
| `TransactionWatch.CarriesIff` | src/redis_transaction.cpp:181-192 | over every run, a key has the serial it had before if and only if no step has written it |
| `TransactionWatch.WatchKept` | src/redis_transaction.cpp:421-451 | the record of a watch stays until the transaction is unwatched, discarded or over |
| `TransactionWatch.WatchAcceptsIff` | src/redis_transaction.cpp:172-196 | over every run from WATCH to the check: the key is accepted if and only if it existed and no step has written it, or it did not exist and does not exist at the check |
| `TransactionWatch.OnlyCheckStarts` | src/redis_transaction.cpp:172-197 | no command runs before a check that accepts all watched keys |
| `TransactionWatch.CommandsRunUnwritten` | src/redis_transaction.cpp:148-249 | over every run from WATCH to a command of the transaction: there was a check in between, up to which a key that existed had not been written |
| `TransactionWatch.AbsentKeyExample` | src/redis_transaction.cpp:188-191 | a whole run in which an absent key is watched, created and deleted by another client, and the transaction executes all the same |
| `TransactionHistory.ListIsQueued` | src/redis_transaction.cpp:251-303 | in every run the list of a transaction is what its client has sent since MULTI, in that order, behind the message of its watched keys if there are any, and nothing else |
| `TransactionHistory.ActionEffect` | src/redis_transaction.cpp:148-249 | in every interleaving of every number of clients, a commit runs exactly the commands that its client has queued since its last MULTI, in order, each once, on what is committed at that moment |
| `TransactionHistory.RunsAreSerial` | src/redis_transaction.cpp:148-249 | so for every action of a run: what is committed is what the single writes and the transactions leave when each is executed alone, at one point, and nothing else changes it |
| `TransactionHistory.AppliedOnce` | src/redis_transaction.cpp:208-245 | running given commands one after the other on given values has only one outcome |
| `TransactionHistory.ToldIfCommitted` | src/redis_transaction.cpp:172-249 | in every run EXEC ends with results if and only if the transaction has been committed |
| `Scheduler.CountStep` | src/redis_exec.cpp:981-1046 | a visit to a key that is not done keeps the account of keys done and replies |
| `Scheduler.CountsEachKeyOnce` | src/redis_exec.cpp:671-1046 | for every order of visits each key is counted once when it is done, all others are stopped after an error, and the one reply comes with the end |
| `Scheduler.EndedMeans` | src/redis_exec.cpp:981-1046 | a command that has no key left to visit is complete or was ended by one of its keys |
| `Scheduler.NeverWaitingIsPatient` | src/redis_exec.cpp:247-272 | a command whose keys never wait is run to its end |
| `Scheduler.VisitCounts` | src/redis_exec.cpp:966-983 | a visit uses up waiting, or finishes a key, or changes nothing |
| `Scheduler.StillReady` | src/redis_exec.cpp:966-971 | a key that can go on still can after others have waited |
| `Scheduler.Skipped` | src/redis_exec.cpp:267-270 | as many keys in a row as there are, all done, mean that the command has ended |
| `Scheduler.Visited` | src/redis_exec.cpp:259-266 | each round brings the end nearer if a waiting key waits for other keys only |
| `Scheduler.RedisExec.constructor` | src/redis_exec.cpp:229-245 | keys set up ready to be visited |
| `Scheduler.RedisExec.ExecKeyContinue` | src/redis_exec.cpp:671-1046 | one visit, and whether it was the last; a key already done is only counted |
| `Scheduler.RedisExec.ExecRunToCompletion` | src/redis_exec.cpp:247-272 | terminates for every command whose keys wait for each other only, after visits in turn, with every key accounted for and the command complete or ended |
| `RedisReplies.StateIsTold` | src/redis_exec.cpp:1095-1117 | what a client reads when a command ends in a state with a reply of its own: +OK, the null string, the null list, the numbers 0, 1 and -1, the empty list, the empty string, +QUEUED |
| `RedisReplies.RestIsTold` | src/redis_exec.cpp:1098-1147 | an error is read for the error states, and nothing at all for the states that have sent data or send none |
| `RedisReplies.NumberIsTold` | src/redis_exec.cpp:1056-1072 | the number of one key, or the sum over two; AnswerDel has any number of keys |
| `RedisReplies.EndIsTold` | src/redis_exec.cpp:981-1046 | a command that has ended has sent nothing, or exactly one value that a client can read |
| `RedisReplies.DecimalReadBack` | src/redis_exec.cpp:1074-1093 | every number, negative ones included, is read back from its digits |
| `RedisReplies.BulkReadBack` | src/redis_exec.cpp:129-153 | a string of any bytes is read back, and exactly its text is consumed |
| `RedisReplies.ListReadBack` | src/redis_exec.cpp:199-227 | a list of strings and nils is read back item by item |
| `RedisReplies.ReplyReadBack` | src/redis_exec.cpp:18-53 | every reply is read as what it is, whatever follows it, and exactly its text is consumed |
| `RedisReplies.RepliesReadBack` | src/redis_exec.cpp:18-53 | a stream of replies is read as those replies, in order, and nothing is left |
| `RedisReplies.ArrayStringResult` | src/redis_exec.cpp:199-227 | the loop over the saved parts writes the text of the list of what was saved |
| `KeyCommands.RenameObeys` | src/redis_key.cpp:290-373 | both commands keep the rules of the scheduler |
| `KeyCommands.OldNameIsReady` | src/redis_key.cpp:325-335 | the old name waits only once |
| `KeyCommands.RenameIsPatient` | src/redis_key.cpp:290-373 | the two keys never wait for each other forever |
| `KeyCommands.RenameRun` | src/redis_key.cpp:290-373 | the visits of a run are the old name, the new one, and the old one again |
| `KeyCommands.RenamedMeans` | src/redis_key.cpp:290-373 | what the last visit leaves, case by case, a missing source included |
| `KeyCommands.RenameEnds` | src/redis_key.cpp:290-373 | every run ends with the new name bound to value and type of the old one, the old one gone, everything else as it was, and one reply; a missing or empty source, or with RENAMENX an existing new name, changes nothing and has one other reply; with equal names the key is lost |
| `KeyCommands.RenameKeys` | src/redis_key.cpp:290-373 | the command under the scheduler terminates with that result |
| `KeyCommands.RenameMovesIff` | src/redis_key.cpp:290-353 | whatever the store, RENAME moves the key if and only if it exists, its value is not empty and the names differ |
| `KeyCommands.RenameNxMovesIff` | src/redis_key.cpp:355-373 | whatever the store, RENAMENX moves the key if and only if it exists, its value is not empty and there is no new key, and otherwise changes nothing |
| `KeyCommands.DelStep` | src/redis_key.cpp:17-31 | a visit deletes one more name and counts it if it was there |
| `KeyCommands.DelKeeps` | src/redis_key.cpp:17-31 | for every order of visits as many keys are missing as have been counted |
| `KeyCommands.DelEnds` | src/redis_key.cpp:17-31 | for any number of names, with repetitions, and every order of visits: the names are gone, all other keys are as before, and the one reply is the number of names that were there, each counted once |
| `KeyCommands.DelKeys` | src/redis_key.cpp:17-31 | the command under the scheduler terminates with that result |
| `RedisReplies.AnswerDel` | src/redis_key.cpp:17-31 | and a client reads that number |
| `StringCommands.MGetKeeps` | src/redis_string.cpp:879-903 | whatever keys have been visited, each has saved its own value and the store is unchanged |
| `StringCommands.MGetInOrder` | src/redis_exec.cpp:199-227 | for every order in which the keys are visited there is one reply with as many items as names; the i-th item is a string if and only if the i-th name has that string in the store, and nil otherwise |
| `StringCommands.MGetKeys` | src/redis_string.cpp:879-903 | the command under the scheduler terminates with that reply |
| `RedisReplies.AnswerMGet` | src/redis_string.cpp:879-903 | and a client reads, in the order of the names, the string of each name or nil |
| `StringCommands.GetEnds` | src/redis_string.cpp:624-644 | every run of GET is one visit, with one reply: the value, nil if there is no such key, an error if it is no string; the store is unchanged |
| `StringCommands.GetKey` | src/redis_string.cpp:624-644 | the command under the scheduler terminates with that reply |
| `RedisReplies.AnswerGet` | src/redis_string.cpp:624-644 | and a client reads the value, nil or the error |
| `StringCommands.SetFirstMeans` | src/redis_string.cpp:1024-1059 | setting the values one after the other gives each name its last value and touches no other key |
| `StringCommands.SeekStep` | src/redis_string.cpp:914-921 | a visit in the first round looks up one more name, or ends the command when the name exists |
| `StringCommands.WriteStep` | src/redis_string.cpp:920-921 | a visit in the second round sets one more value, or ends the command when the value is missing |
| `StringCommands.MSetNxRun` | src/redis_string.cpp:911-922 | all names are looked up before the first value is set |
| `StringCommands.MSetNxEnds` | src/redis_string.cpp:911-922 | every run changes nothing if a name exists, and otherwise sets the values one after the other, with the reply 1 or, if one is missing, an error |
| `StringCommands.MSetNxIsPatient` | src/redis_string.cpp:911-922 | the keys never wait for each other forever |
| `StringCommands.MSetNxKeys` | src/redis_string.cpp:911-922 | the command under the scheduler terminates with that result |
| `StringCommands.AllOrNothingIff` | src/redis_string.cpp:911-922 | all or none of the keys are created if and only if a name exists already, or no value is missing, or all are |
| `Sha1.MixIsF` | src/ev_http.cpp:1563-1567 | the mixing expressions of the five round macros are the functions of section 5 of RFC 3174 |
| `Sha1.SwapLoads` | src/ev_http.cpp:1548-1550 | swapping a word loaded in little-endian order gives the big-endian word |
| `Sha1.RolesReturn` | src/ev_http.cpp:1587-1606 | after five rounds every register has its first role again |
| `Sha1.RotatedRound` | src/ev_http.cpp:1563-1567 | a round in place, seen through the rotated names, is the round of section 6.1 of RFC 3174 |
| `Sha1.StoredIsW` | src/ev_http.cpp:1559-1560 | slot i mod 16 of the schedule holds the most recent word with that index |
| `Sha1.ScheduleStep` | src/ev_http.cpp:1559-1560 | updating one slot of the 16-word schedule gives word i of the 80-word form |
| `Sha1.SHA1Transform` | src/ev_http.cpp:1570-1613 | the block function is that of section 6.1 of RFC 3174, for every state and block |
| `Sha1.OneRound` | src/ev_http.cpp:1563-1567 | one of the 80 rounds, with its schedule word |
| `Sha1Meaning.RotationMeans` | src/ev_http.cpp:1544 | for 1, 5, 8, 24 and 30 bits, the rotation multiplies by the power of two and adds what has left the word at the top |
| `Sha1Meaning.ConstantsAreRoots` | src/ev_http.cpp:1563-1567 | the constant of every round is the integer part of 2^30 times the square root of 2, 3, 5 or 10 |
| `Sha1Meaning.BigEndianMeans` | src/ev_http.cpp:1548-1550 | a loaded word is its four bytes read in base 256, the first one highest |
| `Sha1Stream.FoldBlock` | src/ev_http.cpp:1637-1644 | one more block at the end extends the fold by one compression |
| `Sha1Stream.CountAdds` | src/ev_http.cpp:1632-1635 | the two count words hold the number of bits after the addition with carry |
| `Sha1Stream.CountLow` | src/ev_http.cpp:1636 | the fill of the buffer is read from the low count word |
| `Sha1Stream.NextBlock` | src/ev_http.cpp:1640-1642 | a block taken straight from the data extends the fold |
| `Sha1Stream.FirstBlock` | src/ev_http.cpp:1638-1639 | the buffered bytes and the first of the data make the next block |
| `Sha1Stream.LeftOver` | src/ev_http.cpp:1643-1646 | the bytes after the last whole block are exactly what the buffer then holds |
| `Sha1Stream.PadGoesOn` | src/ev_http.cpp:1662-1665 | padding stops after exactly the zeros that section 4 of RFC 3174 asks for |
| `Sha1Stream.SHA1_CTX.constructor` | src/ev_http.cpp:1614-1625 | the initial values of the standard |
| `Sha1Stream.SHA1_CTX.Update` | src/ev_http.cpp:1626-1647 | the context stands for the old data followed by the new, for lengths below 2^32 - 64 |
| `Sha1Stream.SHA1_CTX.Absorb` | src/ev_http.cpp:1637-1646 | all whole blocks are in the state and the rest is in the buffer |
| `Sha1Stream.SHA1_CTX.Store` | src/ev_http.cpp:1638-1646 | the copy into the buffer |
| `Sha1Stream.SHA1_CTX.Final` | src/ev_http.cpp:1648-1674 | the digest of the padded data of section 4 of RFC 3174 |
| `Sha1Stream.SHA1` | src/ev_http.cpp:1677-1692 | the digest of a buffer |
| `Sha1Stream.SHA1Pieces` | src/ev_http.cpp:1614-1674 | any split of the data into updates gives the digest of the whole |
| `Sha1Meaning.DigestMeans` | src/ev_http.cpp:1667-1670 | the digest, read in base 256, is the five registers |
| `Sha1Meaning.LengthMeans` | src/ev_http.cpp:1656-1659 | the eight bytes of the length are its digits in base 256, the highest one first |
| `Sha1Meaning.InitMeans` | src/ev_http.cpp:1619-1623 | the bytes of the initial registers count up and down in hexadecimal digits |
| `Sha1Meaning.EachRound` | src/ev_http.cpp:1587-1606 | the first registers of all 80 rounds of the block of "abc" |
| `Sha1Meaning.AbcDigest` | src/ev_http.cpp:1570-1674 | the digest of "abc" is the one published in section 7.3 of RFC 3174 |
| `Sha1Meaning.Sha1OfAbc` | src/ev_http.cpp:1677-1692 | and it is what the program returns |
| `MemcachedMsg.ParseMcargs` | src/memcached_exec.cpp:302-335 | cuts a line into its words, however many spaces are between them |
| `MemcachedMsg.UnpackText` | src/memcached_exec.cpp:337-489 | the loops over lines and bytes decode the first command, after empty lines, and terminate |
| `MemcachedMsg.UnpackLine` | src/memcached_exec.cpp:425-489 | the part after the first line that is not empty: keyword, arguments, block, and its line end |
| `MemcachedRequests.KeywordOf` | src/memcached_exec.cpp:447-468 | each of the 24 commands is told from the others by the first four letters of its name, in upper or lower case |
| `MemcachedRequests.WordsTaken` | src/memcached_exec.cpp:594-729 | words that say something are taken for it: key, flags, time, length, serial number, amount and noreply, each in its field |
| `MemcachedRequests.AcceptedIff` | src/memcached_exec.cpp:594-729 | the words after a command are accepted if and only if they say something that the command can mean |
| `MemcachedRequests.RefusedBecause` | src/memcached_exec.cpp:594-637 | why the words of a storing command are refused: their number, a malformed number, or one that does not fit its field |
| `MemcachedRequests.WrittenIsWellFormed` | src/memcached_exec.cpp:425-489 | what a client writes for a request is a well-formed command whose message says what was meant |
| `MemcachedRequests.CompleteCommand` | src/memcached_exec.cpp:425-489 | a complete command at the front of a buffer is decoded, whatever follows it, and exactly its bytes are consumed |
| `MemcachedRequests.RequestReadBack` | src/memcached_exec.cpp:337-489 | for every request, name in any letters, and whatever follows: the decoded message has all fields as the client meant them |
| `MemcachedRequests.DecodeRequest` | src/memcached_exec.cpp:337-489 | so do the loops of the decoder |
| `MemcachedRequests.BinaryIsTold` | src/memcached_exec.cpp:354-356 | a first byte of 0x80, and no other one, tells the binary protocol from text |
| `MemcachedStream.LineThere` | src/memcached_exec.cpp:409-432 | a complete line is taken without its line end, whatever follows it |
| `MemcachedStream.LeadThere` | src/memcached_exec.cpp:409-424 | a line end left over from a block is skipped as an empty line |
| `MemcachedStream.NoCommandYet` | src/memcached_exec.cpp:409-411 | while the line is not complete nothing is decoded |
| `MemcachedStream.LineEndThere` | src/memcached_exec.cpp:481-487 | after a block, as much of its line end is taken as has arrived, and what is left of it will be skipped |
| `MemcachedStream.CommandThere` | src/memcached_exec.cpp:337-489 | a buffer that begins with a command, cut anywhere, yields that command with its data, or nothing yet |
| `MemcachedStream.StreamStep` | src/ev_memcached.cpp:155-168 | the same for a buffer that holds any part of a stream |
| `MemcachedStream.DrainsStream` | src/ev_memcached.cpp:147-193 | the loop takes commands from the front of the stream in order: all of them, when it goes on with what follows, or as many as have arrived |
| `MemcachedStream.ReachesTail` | src/ev_memcached.cpp:147-193 | however a stream that begins with well-formed commands is cut, they are decoded, and decoding goes on with exactly what comes after them |
| `MemcachedStream.QuitEnds` | src/ev_memcached.cpp:183-187 | QUIT is decoded and ends the decoding, whatever is sent after it |
| `MemcachedStream.FirstCommandStays` | src/memcached_exec.cpp:337-489 | more bytes behind it never change the command at the front of a buffer, whatever the bytes |
| `MemcachedStream.CutsDoNotMatter` | src/ev_memcached.cpp:147-193 | for every stream of well-formed commands, with any bytes in the blocks, and every cutting into reads, the decoded commands are those of the stream up to the first QUIT, which anything may follow |
| `MemcachedStream.EvMemcached.ProcessLoop` | src/ev_memcached.cpp:147-193 | hands over all complete commands up to QUIT and keeps the rest, or drops it after an error |
| `MemcachedStream.EvMemcached.Receive` | src/ev_memcached.cpp:147-193 | a read followed by the loop |
| `MemcachedStream.EvMemcached.Serve` | src/ev_memcached.cpp:147-193 | a connection that receives a stream in any pieces decodes its commands, up to QUIT |
| `MemcachedRequests.TextsAreStream` | src/ev_memcached.cpp:147-193 | the text of requests, one after the other, is a stream of well-formed commands |
| `MemcachedRequests.ServeRequests` | src/ev_memcached.cpp:147-193 | a connection that receives the text of any requests, cut into reads anywhere, decodes what was meant by each, in order, up to the first QUIT |
| `MemcachedErrors.OneRead` | src/ev_memcached.cpp:156-168 | when everything arrives in one read, the commands before a line that does not parse are decoded and the rest is dropped |
| `MemcachedErrors.BadDrops` | src/ev_memcached.cpp:156-168 | however such a line arrives, once it is complete decoding resumes at some place behind it |
| `MemcachedErrors.OnlyCommandsBefore` | src/ev_memcached.cpp:156-168 | if no command begins anywhere behind it, exactly the commands before it are decoded, however the stream is cut |
| `MemcachedErrors.IndependentIff` | src/ev_memcached.cpp:147-193 | a stream with a line that does not parse is decoded the same way for all cuttings if and only if no command begins anywhere behind that line, be it in the middle of another line or of data |
| `MemcachedErrors.CommandsAreHarmful` | src/ev_memcached.cpp:156-168 | so the cutting matters whenever a well-formed command comes after such a line |
| `MemcachedErrors.TwoBadLinesExample` | src/ev_memcached.cpp:156-168 | and it can matter when only lines that do not parse come after it, as the last part of one may be a command |
| `MemcachedValues.FormatValue` | src/memcached_exec.cpp:1655-1683 | writes the item that UnpackReply reads back |
| `MemcachedValues.MultiGetSend` | src/memcached_exec.cpp:1641-1653 | the items of the keys that were found, in the order of the keys, and the end |
| `MemcachedValues.ReadsLine` | src/memcached_exec.cpp:523-562 | the line of a value is taken for one and its words are the fields that were written |
| `MemcachedValues.ItemReadBack` | src/memcached_exec.cpp:514-572 | an item is read back with key, flags, data and serial number, for any data, and exactly its bytes are consumed |
| `MemcachedValues.ItemNotComplete` | src/memcached_exec.cpp:514-572 | no proper part of an item is taken for a reply |
| `MemcachedValues.RepliesReadBack` | src/memcached_exec.cpp:1641-1683 | a reply to several keys is read back as the keys that were found, in the order of the request, then the end; all bytes are consumed |
| `MemcachedResults.ResultReadBack` | src/memcached_exec.cpp:265-301 | each of the 19 results that are one line is read as that result, whatever follows its line, and exactly its line is consumed |
| `MemcachedResults.NumberReadBack` | src/memcached_exec.cpp:265-301 | the number that answers INCR and DECR is read as that number |
| `LruMap.OrderOfLastUse` | console/xterm.js:7797-7851 | after any sequence of calls the list is ordered by the time of last use |
| `LruMap.LRUMap.ListedByLastUse` | console/xterm.js:7797-7851 | the list of the class is in order of last use, over all calls of get and set made so far |
| `LruMap.LRUMap.constructor` | console/xterm.js:7750-7757 | an empty map |
| `LruMap.LRUMap.Prealloc` | console/xterm.js:7786-7796 | fills the pool with unused nodes; the content stays |
| `LruMap.LRUMap.UnlinkNode` | console/xterm.js:7758-7773 | takes one node out of the list, whether first, last or between, and keeps the links of all others |
| `LruMap.LRUMap.AppendNode` | console/xterm.js:7774-7785 | puts a node at the end |
| `LruMap.LRUMap.MoveToEnd` | console/xterm.js:7797-7805 | both together: only the order changes |
| `LruMap.LRUMap.Get` | console/xterm.js:7797-7805 | returns the value and makes its key the most recently used; a missing key changes nothing |
| `LruMap.LRUMap.PeekValue` | console/xterm.js:7806-7812 | returns the value without use |
| `LruMap.LRUMap.Peek` | console/xterm.js:7813-7816 | returns the value of the key that was used least recently |
| `LruMap.LRUMap.Set` | console/xterm.js:7817-7851 | binds the key as most recently used, evicting the least recently used one when the map is full; never more than capacity |
| `LruMap.LRUMap.SetEvicting` | console/xterm.js:7824-7831 | reuses the node of the evicted key |
| `LruMap.LRUMap.SetNew` | console/xterm.js:7832-7849 | takes a node from the pool or a new one |
| `GlyphCache.SameKeyIff` | console/xterm.js:7578-7580 | two glyphs have the same key if and only if the low 11 bits of the character, the colours and the style agree, where an inverted colour counts as all ones and hides what is packed above it |
| `GlyphCache.UnmistakableIff` | console/xterm.js:7578-7580 | the key of a glyph stands for no other glyph that is ever cached if and only if its colours are not inverted and its character is below 256 or, modulo 2048, that of no cached one; blanks and control characters, which have width 0, never are |
| `GlyphCache.InvertedExample` | console/xterm.js:7578-7580 | an inverted A and an inverted B of the same style have the same key |
| `GlyphCache.WideExample` | console/xterm.js:7578-7580 | U+3042 has the key of a B |
| `GlyphCache.ShowsAnother` | console/xterm.js:7614-7638 | every glyph that is drawn, not blank and not unmistakable comes out as another one that the terminal draws, if that was drawn before |
| `GlyphCache.SlotsFill` | console/xterm.js:7625-7631 | the texture slots of the cached glyphs are exactly 0 to size - 1 |
| `GlyphCache.UseKeepsSlots` | console/xterm.js:7618-7623 | a hit keeps slots distinct, each with a glyph of its entry's key |
| `GlyphCache.PutKeepsSlots` | console/xterm.js:7624-7633 | a miss does too: the slot drawn to is new, or that of the glyph that is evicted |
| `GlyphCache.DynamicCharAtlas.constructor` | console/xterm.js:7598-7604 | an empty cache |
| `GlyphCache.DynamicCharAtlas.Draw` | console/xterm.js:7614-7638 | what is copied to the screen is a cached glyph with the key of the one asked for, and that one itself if it is unmistakable or new to the cache; it is drawn exactly if blank, its key cached, or cachable within the limit of the frame |
| `MergeRanges.InsertedIsUnion` | console/xterm.js:6372-6375 | a range spliced into a gap adds exactly its points and keeps the list sorted and disjoint |
| `MergeRanges.JoinedIsUnion` | console/xterm.js:6376-6401 | replacing the ranges that the new one meets by one joint range covers exactly the union, for any number of them |
| `MergeRanges.BeforeRange` | console/xterm.js:6371-6384 | each branch outside the new range returns the union or goes on with what the walk relies on |
| `MergeRanges.InsideRange` | console/xterm.js:6385-6398 | the same inside the new range, with the splice and the step back of the index |
| `MergeRanges.AfterAll` | console/xterm.js:6400-6405 | the same at the end of the list |
| `MergeRanges.Ranges.MergeRanges` | console/xterm.js:6367-6407 | for sorted disjoint ranges and any non-empty new one the list stays sorted and disjoint and covers the old points and the new ones |

## Left out

- UdpRoundTrip.SpinsIff: assumes that nothing of the request was kept from an earlier batch; with kept frames the exact condition is that of UdpMerge.EvMemcachedMerge.MergeFrames, in terms of the sequence number the loop reaches.
- UdpKept.OwnFramesIff: kept frames of other sizes than those of the request are not covered; the bytes are then shifted and could agree by chance.
- UdpBatch.ProcessBatch: executing a delivered message is not modelled; what is stated of the loop is about batches of datagrams without duplicates, as framing sends them, and nothing kept before under the same ids.
- UdpMerge.EvMemcachedMerge.KeepFrames: memory for kept frames is always available, also for a total of 0, where the source's realloc frees the array.
- UdpFraming.MemcachedUdpFraming.ConstructFrames: allocations succeed, the layout of the stream is consistent (each reply starts with a header of 8 bytes, as both callers write it), and byte counts stay below 2^32; the destination addresses copied into message headers are not modelled.
- VarTable.VarHT.Add: keys and values are values, not pointers into a message buffer; the table stays below 2^32 slots, so the probe index never loses bits, and the count of used slots never wraps.
- TransactionQueue.RedisMultiExec.MultiQueued: the expected number of keys and the places of the keys are given, not computed from the command table; that the source writes more contexts than it has allocated for when there are more places than expected is not modelled.
- TransactionHistory.RunsAreSerial: a queued command is a function of the values of its own keys, and duplicates act on the owner's value; the copying of key states between duplicates (src/redis_transaction.cpp:73-100) depends on flags that are not part of this repository. Key expiry is not modelled. Clients that read without acquiring a key, as WATCH does, can see values before they are committed.
- TransactionWatch.WatchAcceptsIff: what a client itself does between WATCH and MULTI is represented as steps of another client.
- TransactionLocks.KeyLocks.MultiTryLock: acquiring has the outcomes acquired and busy only.
- Scheduler.RedisExec.ExecRunToCompletion: blocking commands, keyspace events, muted replies and the repetition of a read whose key changed meanwhile are not modelled; a visit stands for its last repetition.
- KeyCommands.DelEnds: no other client interferes, keys do not expire, and deleting a key that is there succeeds.
- KeyCommands.RenameEnds: saving the value, resizing and validating succeed, no other client interferes, and keys do not expire; in a transaction the keys are fetched differently and these commands are not modelled there.
- StringCommands.MSetNxEnds: the keys are those found in the arguments; with a missing value the source's array of key contexts is one short of them (src/redis_exec.cpp:407-418), which is not modelled.
- StringCommands.MSetNxKeys: the same store behind the array.
- StringCommands.AllOrNothingIff: the same store behind the array.
- StringCommands.MGetInOrder: the saved parts are values; RedisReplies.ArrayStringResult has their text. Allocations succeed, no other client interferes, and keys do not expire.
- StringCommands.GetEnds: the same holds for GET.
- RedisReplies.StateIsTold: the text of an error after its sign is a parameter without line ends; in the source it repeats the name of the command. Printing numbers is modelled, as its code is not in the repository; sums are not cut to 64 bits.
- MemcachedMsg.UnpackText: the binary protocol is told apart but not decoded, fields that a command does not set are 0 although the source leaves what the message held before; parsing numbers is a parameter, as its code is not in the repository.
- MemcachedRequests.RequestReadBack: printing and parsing numbers are parameters that undo each other, keys are words without control characters, and an LRU without words is not a request, as its name alone is too short for a keyword.
- MemcachedRequests.RefusedBecause: of the commands that store nothing only AcceptedIff says when they are refused.
- MemcachedStream.EvMemcached.ProcessLoop: executing a command is not modelled, only that it is handed over; at a binary command the model stops where the source decodes it.
- MemcachedErrors.IndependentIff: commands of the binary protocol behind the refused line are not seen, as they are not decoded.
- MemcachedValues.RepliesReadBack: printing and parsing numbers are parameters that undo each other.
- MemcachedResults.ResultReadBack: the words after a result are skipped, except that the source keeps those of STAT and VERSION, and marks which results are errors.
- Sha1.SHA1Transform: the 80 unrolled macro calls are a loop over the same macro bodies with the rotated names computed; memory order is little-endian.
- Sha1Meaning.RotationMeans: the powers of two and the quotient are computed in 64 bits, where nothing overflows.
- Sha1Stream.SHA1: data of 2^32 - 64 bytes or more, where the wrapper's loop and the index arithmetic do not work; wiping the context.
- GlyphCache.DynamicCharAtlas.Draw: of the cells of width 0, which are never drawn, only control characters are told apart; drawing is the assignment of a glyph to a slot; the text of a cell whose number is below 256 is that character. The capacity is at least 1.
- MergeRanges.Ranges.MergeRanges: ranges are values, so that the caller's array elements are changed in place is not visible.
- MD5 and HTTP digest authentication (src/http_auth.cpp), whose streaming context is a twin of the SHA-1 one.
- WebSocket framing of the output (src/ev_http.cpp:648-664, 726-733 and 788-917).
- `HtReqArgs::template_size` and `template_copy` (src/ev_http_client.cpp), a size pass and a copy pass.
- The memcached scheduler (src/memcached_exec.cpp:1263-1385), a twin of the Redis one.
- Sockets, event loop, TLS, the shared-memory store, geo and HyperLogLog numerics, scripts, and the rest of the terminal.
