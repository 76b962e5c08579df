# netty-cpp: models and proofs

This project models seven parts of the netty-cpp library in Dafny and proves what they keep.

- **Memory pool** (`SlotMath`, `FreeLists`, `SlotPages`, `PoolState`, `PoolRuns`, `BulkRetention`, `BulkRegistry`,
  `BulkLookup`, `PoolEffects`, `MemPool`): the slab allocator with its Tiny, Small, Big and Bulk classes. A value model
  of one slot and of the whole pool carries the invariant over every run, and says what each step does to free objects,
  pages and heap; the class `MemPool` has the loops, maps and counters of the source, and its methods take the steps of
  the value model.
- **Message pipeline** (`Codec`, `Buffer`, `Wire`, `WireLemmas`, `Sender`, `Receiver`, `Pipeline`): encoding, `Send`, a
  byte stream, and the four-state `Recv`, over sockets that answer with any mixture of short transfers, EAGAIN, end of
  stream and errors. `Recv` refines a one-shot parser; end to end, what is delivered is a prefix of what was queued.
- **Connect handshake** (`Handshake`, `HandshakeRuns`): the nested `Recv` and `handshake` calls of one end with their
  falling measure, and two ends over first-in first-out channels.
- **Connection manager** (`WorkerManager`, `ManagerRuns`): the three maps of `UniqueWorkerManager`, and who releases a
  handler.
- **Event loop** (`EventLoop`, `EventWorkers`): `worker_loop` and its producers as atomic steps, and the loop as code
  under interference. The rules for the producers are shown to be exact.
- **MurmurHash3** (`BitWords`, `WordValues`, `MurmurMix`, `Murmur32`, `Murmur128`): the x86_32 and x64_128 variants,
  their no-collision theorems, from step-by-step invertibility on words of any width, and known answers.
- **Blocking queue and thread pool** (`BlockingQueue`, `ThreadPool`, `ThreadPoolCode`), and **message ids**
  (`MessageIds`).

`Words` holds the 32-bit arithmetic the pool uses. `dafny verify dfyconfig.toml` checks everything.

## How it is modelled

- Code that works in place is a class or a method with loops, proved against a specification function or relation;
  what must hold over runs is proved about those. Concurrent code is a step model: one step per locked section, notify,
  queue swap or driver call. `EventWorkers` and `ThreadPoolCode` then run the source's loops with other threads' steps
  in between, given as a script that only takes effect where the step model allows it.
- The system allocator is a parameter: an offered address is accepted when it is non-null and apart from everything
  live. Sockets are scripts of answers. `unordered_map::begin()` is an arbitrary choice. Clocks and logging are absent.
- A member's "states" cell says what its contract promises. Methods that change state are proved against the old state.

## Where the code differs from what one would expect

- A bulk slot of exactly 1 MiB is allocated one object at a time (`<` at common/mem-pool.cc:196) but its pages are
  compared with four objects when they come back (`>` at common/mem-pool.cc:334), so its free pages are never released:
  `BulkRetention.RetentionIff`.
- Above 1 MiB every refill resets the slot's entry in the registry of bulk pages (common/mem-pool.cc:201), and put uses
  the entry unchecked (common/mem-pool.cc:335-340). Two objects of 2 MiB returned newest first: the first return erases
  the entry, the second goes through `end()`. `BulkRegistry.ReturnDefinedIff` says exactly when a return is defined,
  `BulkRegistry.NewestLastSuffices` how a client stays there, `BulkRegistry.NewestFirstFails` gives the failing run. The
  runs of `PoolRuns.RunKeeps` are those in which every return is defined.
- A bulk request that finds its own slot empty may be served from a slot up to twice as large. Taking that slot's last
  object goes wrong. In the backward scan common/mem-pool.cc:519 erases the slot from the ordered index, and line 520
  erases from the hash index the key the reverse iterator stands at by then, the next smaller one; in the other branch
  line 534 reads through an erased iterator. At 40, 100, 60, 60 and 60 pages of 4 KiB the free objects of 40 pages are
  lost and the next request for 100 pages reads an object that is not there. `BulkLookup.AgreesIff` says exactly when a
  request is safe, `BulkLookup.SafeCountsIff` which page counts a client may mix, `BulkLookup.ErasesWrong` and
  `BulkLookup.CloseCountsDrain` give the failing runs. The runs of `PoolRuns.RunKeeps` end before such a request.
- Small and big slots cover every request only for thresholds aligned to the footstep: `PoolState.SlotsCoverIff`.
- A request within one page of 2^32 rounds to 0: `SlotMath.RoundUpIsLeast`.
- A frame of length 0 passes header decoding and then meets the memory pool's assertion: outcome `Aborted` of
  `Receiver.MessageReceiver.Recv`.
- A partial read during the handshake makes `Initialize` wait forever: `Handshake.InitializeCompletes`.
- `on_finish` takes out whichever handler has the peers of the finished one, but releases the finished one
  (nb-socket-service.cc:174-179). If the user disconnects a handler and one with the same peers registers before the
  first one's end is handled, the first is released twice and the second is lost: `ManagerRuns.LateEndEvicts`, with the
  exact condition in `WorkerManager.FinishSafeIff` and `ManagerRuns.FinishBalancedIff`.
- Between the verdict of `m_onLogicConnect` and the server's last answer another thread may queue a message, which then
  goes first, and the client reads its first two bytes as the status: `HandshakeRuns.PostOvertakes`.
- A server whose last handshake send fails after `m_onLogicConnect` agreed is deleted at server-event-handler.cc:96 while
  the manager still has it: `Handshake.FailsRegisteredIff`. Its own end is never handled, so with distinct live peers only
  a disconnect of its peer takes it out: `ManagerRuns.EarliestWins`.
- A read/write event may be queued, and a release requested, only in certain phases of the loop:
  `EventLoop.RulesAreExact` gives them.

## Model

| member | source | states |
|---|---|---|
| `SlotMath.RoundUpIsLeast` | common/mem-pool.h:190-200 | for every 32-bit request and exponent 1 to 31 the shift-and-mask round-up is the least multiple of 2^e at or above the request exactly when that multiple fits a word; otherwise it has wrapped to 0 |
| `SlotMath.GenExpandSlotPageSize` | common/mem-pool.h:206-214 | the page size computed step by step, with 32-bit wrap, equals the specification function |
| `SlotMath.ExpandSizeIsLeast` | common/mem-pool.h:206-214 | without overflow the expansion size is the least multiple of the system page that covers factor objects |
| `SlotMath.ExpandSizeExact` | common/mem-pool.h:206-214 | a page-multiple object needs no rounding: the page holds exactly factor objects |
| `PoolState.SlotsCoverIff` | common/mem-pool.cc:68-84 | every small and big request finds a slot the constructor created exactly when the thresholds are aligned to their footsteps |
| `PoolState.SmallKeyValid` | common/mem-pool.cc:143-166 | under a valid configuration a small or big request is rounded to a slot that exists and whose size covers it by less than one footstep |
| `PoolState.BulkNeedValid` | common/mem-pool.cc:187-190 | a bulk request is rounded to a slot index whose page-multiple size covers it |
| `PoolState.GeoFacts` | common/mem-pool.cc:171-176 | per slot: object size, page bytes, and that the count put compares a page with equals the number of objects the page was split into, except for the bulk slot of exactly 1 MiB |
| `FreeLists.FullListHoldsAll` | common/mem-pool.cc:262-263 | pigeonhole: a repetition-free list of page-many pieces of a page holds every piece of it |
| `SlotPages.FullPageHasNothingOut` | common/mem-pool.cc:259-273 | a page whose free list is full has no outstanding object, so releasing it frees nothing in use |
| `SlotPages.RefillKeeps` | common/mem-pool.cc:411-424 | a refill with an accepted new page keeps the split of every page between its free list and the outstanding objects, and the exact counter |
| `SlotPages.TakeKeeps` | common/mem-pool.cc:426-440 | taking the first object of any page keeps the split; an emptied list leaves no entry behind |
| `SlotPages.PushKeeps` | common/mem-pool.cc:252-259 | returning an outstanding object keeps the split and the counter |
| `SlotPages.DropKeeps` | common/mem-pool.cc:262-270 | releasing a full page keeps the split of all others and lowers the counter by exactly one page |
| `SlotPages.GetKeeps` | common/mem-pool.cc:126-142 | one Get on a slot keeps the slot invariant for any choice of page; what it hands out was not outstanding |
| `SlotPages.PutKeeps` | common/mem-pool.cc:252-273 | one put on a slot keeps the slot invariant, whichever full page is released |
| `SlotPages.GetBounded` | common/mem-pool.cc:126-142 | Get keeps the retention bound: fewer free objects than resident + one page, or no entirely free page |
| `SlotPages.PutBounded` | common/mem-pool.cc:259-273 | put restores the retention bound after every return |
| `SlotPages.CounterExact` | common/mem-pool.cc:126-142 | with a page resident, the stored counter is the total length of the free lists, which lets a refill assign it |
| `SlotPages.AllReturnedBound` | common/mem-pool.cc:259-273 | once everything is returned a slot keeps fewer than resident + one page objects |
| `PoolRuns.GetStepKeeps` | common/mem-pool.cc:119-229 | from any state that has it, for any request and any allocator answer, Get keeps the whole-pool invariant, and the two bulk indices listing the same slots, if and only if it does not take the last free object of a bulk slot other than the exact one; then it keeps retention too; always the object is new and its size covers the request |
| `PoolRuns.DrainingGet` | common/mem-pool.cc:516-536 | a Get that takes the last free object of a larger slot leaves that slot in the hash index without an object and out of the ordered one, and erases the next smaller slot with all its free objects from the hash index only |
| `PoolRuns.PutStepKeeps` | common/mem-pool.cc:249-376 | put of an outstanding object, where it is defined, keeps the whole-pool invariant and retention, and every other outstanding object stays on a live page |
| `PoolEffects.PutStepEffect` | common/mem-pool.cc:249-376 | put of an object up to 1 MiB, class by class: a page is given back exactly when the slot reaches its resident count plus one page and has a full one, and at least the resident count remains; else the object is the last of its page's list and nothing else changes; above 1 MiB its page goes; no other slot changes |
| `PoolEffects.GetStepEffect` | common/mem-pool.cc:119-229 | Get that drains no other slot takes the first object of a page while the slot has one, and otherwise allocates one page, hands out its first object and keeps the others; no other slot changes |
| `PoolEffects.ChoosesSlot` | common/mem-pool.cc:119-229 | every object handed out is of the slot the size demands: tiny, the request rounded up to 32 bytes or to pages, or for bulk the exact slot, else the largest listed one in (need, 2 need] when a smaller one is listed, the smallest one when all are larger, and the exact one when none is in range |
| `PoolEffects.NoneIsRefused` | common/mem-pool.cc:119-229 | nothing is handed out only if that slot has nothing free and the system refuses its page |
| `PoolEffects.PageBytesAre` | common/mem-pool.cc:166-198 | a page is one system page for tiny objects, the least number of system pages for 32 small or big objects, four bulk objects below 1 MiB and one from there on |
| `PoolRuns.SuitableComplete` | common/mem-pool.cc:442-538 | bulk lookup finds a slot exactly when a free index lies in [need, 2 need]; it prefers the exact one and never leaves the range |
| `PoolRuns.ServingSlot` | common/mem-pool.cc:119-229 | every request is served by an existing slot whose object size covers it |
| `PoolRuns.InitInv` | common/mem-pool.cc:42-85 | what the constructor leaves satisfies the invariant, whatever the tiny counter holds |
| `PoolRuns.RunKeeps` | common/mem-pool.cc:119-376 | in every run of Get and Put, each put defined when it is made and no Get taking the last free object of a larger bulk slot, the invariant and retention hold at every point |
| `PoolRuns.OutstandingApart` | common/mem-pool.cc:119-376 | in every such run two different outstanding objects occupy disjoint bytes inside pages that were not released |
| `PoolRuns.AllReturned` | common/mem-pool.cc:259-374 | in every such run, whenever nothing of a slot is outstanding, whatever else is, the slot keeps fewer than resident + one page objects; the bulk slot of exactly 1 MiB is the one exception |
| `BulkRetention.LimitSlotGrows` | common/mem-pool.cc:195-209 | the bulk slot of exactly 1 MiB allocates one-object pages that never pass the full-page test: some run leaves any number of free objects in it |
| `BulkRetention.RetentionIff` | common/mem-pool.cc:334-372 | for every valid configuration a slot keeps the retention bound in every run if and only if it is not the bulk slot of exactly 1 MiB of a configuration that serves requests of 1 MiB from it |
| `BulkRegistry.GetEntry` | common/mem-pool.cc:194-209 | a refill attempt leaves exactly the page it got, or nothing, in the registry entry of its slot; any other Get leaves the entry alone |
| `BulkRegistry.DirectPutEntry` | common/mem-pool.cc:335-340 | returning an object above the limit takes its page out of the entry the last attempt left, and the entry out of the registry when it is empty |
| `BulkRegistry.ReturnDefinedIff` | common/mem-pool.cc:334-343 | at the end of every run, returning an outstanding object above 1 MiB finds a registry entry if and only if the object of its slot's last refill attempt is still out, or that attempt was refused and nothing of the slot came back since |
| `BulkRegistry.NewestLastSuffices` | common/mem-pool.cc:201-209 | a client whose requests for the slot were not refused, and that returns the newest object of the slot last, can return every object of it |
| `BulkRegistry.NewestFirstFails` | common/mem-pool.cc:335-340 | for every size above 1 MiB: after two requests, returning the newest first leaves the other outstanding and its return undefined |
| `BulkLookup.AgreesIff` | common/mem-pool.cc:442-538 | at the end of every run, for every request and every allocator answer: Get is defined if and only if it does not take, by the forward search, the last free object of a larger slot; it is defined and leaves both indices in agreement if and only if it takes no such object at all |
| `BulkLookup.SafeCountsIff` | common/mem-pool.cc:476-536 | a client that requests bulk objects only of certain page counts never meets a draining request, in any run, if and only if every two of the counts are more than a factor of 2 apart or the larger one is above 1 MiB |
| `BulkLookup.CloseCountsDrain` | common/mem-pool.cc:476-536 | for any two page counts within a factor of 2, the larger one up to 1 MiB, a run of requests for these counts after which the next request is undefined |
| `BulkLookup.ErasesWrong` | common/mem-pool.cc:504-524 | for any three page counts a, n, b with a below n and b at most twice n: four requests after which a third one for n tears the indices apart, loses the free objects of a, and leaves every later request for b undefined |
| `BulkLookup.FortyHundredSixty` | common/mem-pool.cc:504-524 | the same at 40, 100 and 60 pages of 4 KiB |
| `BulkLookup.SuitableExists` | common/mem-pool.cc:442-502 | the lookup specification is met by some answer for every set of free slots |
| `MemPool.KeyRoundTrip` | common/mem-pool.cc:249-283 | the type and size stored in a MemObject lead put back to the slot the object came from |
| `MemPool.SplitMemPage` | common/mem-pool.cc:378-386 | the loop yields exactly the pieces of the page, in order |
| `MemPool.GetFreeObjFromSlotPage` | common/mem-pool.cc:426-440 | any page may be taken; its first object is returned and an emptied entry is erased; no page leaves everything as it was |
| `MemPool.FindFullPage` | common/mem-pool.cc:261-272 | the search returns a page whose list is full, and none only when no page is full |
| `MemPool.PutOnFreeList` | common/mem-pool.cc:253-273 | the list work shared by the four branches of put: the object goes to the back of its page's list; while the free objects stay below the resident count plus one page nothing is given back; what is given back is one full page, and leaves at least the resident count |
| `MemPool.FindSuitableSlot` | common/mem-pool.cc:442-502 | the exact hit in the hash index; else, with a key at or below the need, the largest key of the ordered index in (need, 2 need]; with all keys above the need, the smallest one if it is at most twice the need; for any two indices |
| `MemPool.LastTaken` | common/mem-pool.cc:515-522 | the test for an emptied record succeeds exactly if one free object was left |
| `MemPool.MemPool.TakeBulk` | common/mem-pool.cc:447-464 | the exact hit takes the first object and erases an emptied record from both indices |
| `MemPool.MemPool.TakeOrdered` | common/mem-pool.cc:510-536 | any other hit takes the first object; an emptied slot leaves the ordered index, and the hash index loses the next smaller key, as the reverse iterator has it |
| `MemPool.CreateSlots` | common/mem-pool.cc:68-84 | the constructor loops create slots 1 to count, empty |
| `PoolRuns.BulkIndicesAgree` | common/mem-pool.cc:187-222 | in every such run the hash index and the ordered index list the same bulk slots, each under its own index; no listed slot is empty or above 1 MiB, and each counter is exact |
| `PoolRuns.BulkSizeBounded` | common/mem-pool.cc:187-220 | a bulk request gets an object between the rounded request and twice it, and nothing exactly when no free slot is in range and the system allocator refuses the page of the exact slot |
| `MemPool.MemPool.constructor` | common/mem-pool.cc:49-85 | the constructor establishes the invariant |
| `MemPool.MemPool.AllocPageObjs` | common/mem-pool.cc:411-424 | a page is recorded, split and listed, or nothing changes |
| `MemPool.MemPool.GetOnSlot` | common/mem-pool.cc:166-186 | refill when empty, then take: the step the specification of Get describes |
| `MemPool.MemPool.GetSlotObj` | common/mem-pool.cc:143-186 | the small and big branch of Get |
| `MemPool.MemPool.GetBulk` | common/mem-pool.cc:187-222 | the bulk branch of Get where its lookup is defined, the wrong erase included: lookup, single or expanded refill with the registry entry started again, second lookup |
| `MemPool.MemPool.GetMemObject` | common/mem-pool.cc:388-402 | a recycled wrapper is refreshed, or a new one made; no other wrapper changes |
| `MemPool.MemPool.Get` | common/mem-pool.cc:119-229 | the whole of Get, where its lookup is defined: a wrapper nobody else holds, of the slot the size demands, the largest in range or the smallest above included; a page is allocated only when that slot has nothing free; null only when the system refuses it; the pool stays valid if and only if the request does not take the last free object of a larger bulk slot |
| `MemPool.MemPool.PutTiny` | common/mem-pool.cc:251-275 | the tiny branch of put takes the specified step |
| `MemPool.MemPool.PutSmall` | common/mem-pool.cc:276-303 | the small branch of put takes the specified step |
| `MemPool.MemPool.PutBig` | common/mem-pool.cc:304-330 | the big branch of put takes the specified step |
| `MemPool.MemPool.DropBulk` | common/mem-pool.cc:334-343 | an object above the 1 MiB limit whose slot has a registry entry gives its page back at once; the entry as stored loses the page and goes when it is empty |
| `MemPool.MemPool.KeepBulk` | common/mem-pool.cc:345-372 | the bulk branch of put up to the limit keeps both indices in step and takes a released page out of the registry as stored |
| `MemPool.MemPool.Put` | common/mem-pool.cc:231-240 | Put of a held wrapper, above 1 MiB only where the registry entry is there: below the resident count plus one page it adds exactly one free object and keeps heap and pages; a page goes exactly when the count is reached and a page is full, and at least the resident count remains; the invariant is kept and the wrapper recycled; null changes nothing |
| `Codec.WriteThenRead` | common/codec-utils.cc:10-124 | reading back what was written returns the value, for every value of every width |
| `Codec.ReadThenWrite` | common/codec-utils.cc:10-124 | writing back what was read returns the bytes, for every byte string |
| `Codec.LittleWriteUInt16` | common/codec-utils.cc:10-14 | writes the two network-order bytes and touches nothing else |
| `Codec.LittleWriteUInt32` | common/codec-utils.cc:16-24 | writes the four network-order bytes and touches nothing else |
| `Codec.LittleWriteUInt64` | common/codec-utils.cc:26-42 | writes the eight network-order bytes and touches nothing else |
| `Codec.LittleReadUInt16` | common/codec-utils.cc:44-51 | the shifts and ors compute the number with these network-order bytes |
| `Codec.LittleReadUInt32` | common/codec-utils.cc:53-64 | the same for four bytes, without losing a bit to the word size |
| `Codec.LittleReadUInt64` | common/codec-utils.cc:66-85 | the same for eight bytes |
| `Codec.MemoryIsNetworkOrder` | common/codec-utils.cc:87-92 | the i-th byte of a word in big-endian memory is its i-th network-order byte |
| `Codec.LoadIsValue` | common/codec-utils.cc:114-124 | the word a big-endian host loads is the one number whose memory image the bytes are, and it is the network-order value |
| `Codec.BigWriteUInt16` | common/codec-utils.cc:89-92 | the big-endian codec writes the same bytes as the little-endian one on its host |
| `Codec.BigWriteUInt32` | common/codec-utils.cc:94-99 | the same for four bytes |
| `Codec.BigWriteUInt64` | common/codec-utils.cc:101-110 | the same for eight bytes |
| `Codec.BigReadUInt16` | common/codec-utils.cc:114-116 | the big-endian codec reads the same value as the little-endian one on its host |
| `Codec.BigReadUInt32` | common/codec-utils.cc:118-120 | the same for four bytes |
| `Codec.BigReadUInt64` | common/codec-utils.cc:122-124 | the same for eight bytes |
| `Buffers.Buffer.BZero` | common/buffer.h:59-64 | the cursors are null, nothing is available, and every byte of the storage is zero |
| `Buffers.Buffer.MoveHeadBack` | common/buffer.h:70-77 | with both cursors set, the head moves by n and the buffer stays available exactly while the head is not past the tail; a move by 0 makes it unavailable |
| `Buffers.Buffer.MoveTailBack` | common/buffer.h:83-90 | the tail moves on, or starts n bytes into the storage |
| `Buffers.Buffer.SetPos` | common/buffer.h:127-130 | the head is set and availability recomputed |
| `Wire.DecodeEncoded` | net/snd-message.cc:67-86 | every header with the magic number and a length up to 64 MiB decodes to itself; every other header is refused |
| `Wire.EncodeDecoded` | net/rcv-message.cc:14-49 | a header the receiver accepts is the encoding of what it read |
| `Wire.HeaderLayout` | net/snd-message.cc:67-86 | the three words of a header in their places: magic, id, length, each most significant byte first |
| `Wire.FrameLayout` | net/snd-message.cc:43-86 | a frame byte by byte: de ad be ef, the four bytes of the id, the four bytes of the payload length, most significant first, then the payload |
| `Wire.DecodeLayout` | net/rcv-message.cc:14-49 | a header is accepted exactly for de ad be ef and a length up to 0x4000000 in bytes 8 to 11; its id is read from bytes 4 to 7 |
| `WireLemmas.FrontOfFrame` | net/snd-message.cc:43-65 | a frame in front of any stream is recognised as its message |
| `WireLemmas.FrontIsFrame` | net/rcv-message.cc:14-49 | what is recognised is the frame of a sendable message |
| `WireLemmas.ParseFrames` | net/net-protocol-stacks/nonblocking/socket/network-api/posix/tcp/net-stack-worker.cc:156-203 | parsing the frames of any sendable messages followed by anything yields those messages and then the parse of the rest |
| `WireLemmas.ParseConserves` | net/net-protocol-stacks/nonblocking/socket/network-api/posix/tcp/net-stack-worker.cc:156-203 | parsing loses no byte: the stream is the frames found plus the rest, and the rest holds no further message |
| `WireLemmas.ParseAppend` | net/net-protocol-stacks/nonblocking/socket/network-api/posix/tcp/net-stack-worker.cc:156-203 | feeding a stream in two pieces, cut anywhere, gives the parse of the whole |
| `WireLemmas.ParsePrefix` | net/net-protocol-stacks/nonblocking/socket/network-api/posix/tcp/net-stack-worker.cc:156-203 | every prefix of a stream of sendable frames parses without complaint to a prefix of the messages |
| `WireLemmas.FramesUnique` | net/snd-message.cc:43-65 | frames are uniquely decodable: equal streams come from equal message sequences |
| `Sender.EncodeHeader` | net/snd-message.cc:67-86 | magic, id and length stand at offsets 0, 4 and 8, most significant byte first, and the head stands behind them |
| `Sender.Encode` | net/snd-message.cc:43-65 | null (the exception) exactly for an empty payload or one above 64 MiB; else a fresh buffer, all of it still to send: de ad be ef, the id, the payload length, each most significant byte first, and the payload |
| `Sender.MessageSender.Push` | net/net-protocol-stacks/nonblocking/socket/network-api/net-stack-msg-worker.cc:67-69 | a message goes to the end of the queue |
| `Sender.MessageSender.WriteOnce` | net/net-protocol-stacks/nonblocking/socket/network-api/posix/tcp/net-stack-worker.cc:214-234 | one write moves exactly the bytes the socket took; end of stream or an error drops the rest of the frame |
| `Sender.MessageSender.TakeNext` | net/net-protocol-stacks/nonblocking/socket/network-api/posix/tcp/net-stack-worker.cc:235-243 | the next message is encoded, or the queue is empty, or Encode threw and exactly that message is lost |
| `Sender.MessageSender.Send` | net/net-protocol-stacks/nonblocking/socket/network-api/posix/tcp/net-stack-worker.cc:205-248 | over any short writes and EAGAIN: bytes written before plus backlog before equal bytes written plus dropped plus backlog now; nothing is dropped when Send returns true; idle means no backlog; each outcome is the one the socket gave |
| `Receiver.ReadSocket.Read` | net/net-protocol-stacks/nonblocking/socket/network-api/posix/tcp/net-stack-worker.cc:164-194 | precondition of every read: at least one byte, never past the end of the buffer; the caller proves it in all four states |
| `Receiver.DecodeMsgHeader` | net/rcv-message.cc:14-49 | accepted exactly for de ad be ef and a length up to 64 MiB; the id comes from bytes 4 to 7 and the length from bytes 8 to 11, most significant first |
| `Receiver.MessageReceiver.AfterHeader` | net/net-protocol-stacks/nonblocking/socket/network-api/posix/tcp/net-stack-worker.cc:32-61 | full header: next state, refusal otherwise; partial header: kept and interrupted; closed, EAGAIN and error told apart |
| `Receiver.MessageReceiver.AfterPayload` | net/net-protocol-stacks/nonblocking/socket/network-api/posix/tcp/net-stack-worker.cc:63-98 | full payload: exactly one message delivered; partial payload: kept and interrupted |
| `Receiver.MessageReceiver.RecvHeader` | net/net-protocol-stacks/nonblocking/socket/network-api/posix/tcp/net-stack-worker.cc:162-179 | both header states read into the right place and keep every byte accounted for |
| `Receiver.MessageReceiver.RecvPayload` | net/net-protocol-stacks/nonblocking/socket/network-api/posix/tcp/net-stack-worker.cc:180-198 | both payload states likewise; a zero-length payload stops at the memory pool assertion |
| `Receiver.MessageReceiver.Recv` | net/net-protocol-stacks/nonblocking/socket/network-api/posix/tcp/net-stack-worker.cc:156-203 | over all calls so far and any fragmentation, the messages delivered and the bytes kept are those of the one-shot parser on all bytes read; Recv returns early only for EAGAIN, a short read or the one message asked for |
| `Pipeline.StepKeeps` | net/net-protocol-stacks/nonblocking/socket/network-api/posix/tcp/net-stack-worker.cc:156-248 | every queueing, Send and Recv keeps: written + lost + backlog are the frames queued, read is a prefix of written and parsed as the one-shot parser does |
| `Pipeline.DeliveredIsPrefix` | net/net-protocol-stacks/nonblocking/socket/network-api/posix/tcp/net-stack-worker.cc:156-248 | in every run of both ends the messages delivered are a prefix, in order and byte for byte, of those queued; nothing is refused; and they are all of them exactly when all bytes have crossed |
| `Pipeline.PushStep` | net/net-protocol-stacks/nonblocking/socket/network-api/net-stack-msg-worker.cc:41-57 | queueing in the sender class is the model step |
| `Pipeline.SendStep` | net/net-protocol-stacks/nonblocking/socket/network-api/posix/tcp/net-stack-worker.cc:205-248 | Send of the sender class is the model step |
| `Pipeline.RecvStep` | net/net-protocol-stacks/nonblocking/socket/network-api/posix/tcp/net-stack-worker.cc:156-203 | Recv of the receiver class is the model step, when the socket hands out what was written |
| `Handshake.PortRoundTrip` | net/net-protocol-stacks/nonblocking/socket/network-api/posix/tcp/connect-messages/connect-request-message.h:17-27 | all 65536 logic ports survive the int16 parameter, the uint16 cast and the wire, in exactly the two bytes the server insists on |
| `Handshake.StatusRoundTrip` | net/net-protocol-stacks/nonblocking/socket/network-api/posix/tcp/connect-messages/connect-response-message.h:17-35 | the status survives the wire in front of any text |
| `Handshake.RequestBytes` | net/net-protocol-stacks/nonblocking/socket/network-api/posix/tcp/connect-messages/connect-request-message.h:17-27 | the request is the port in two bytes, most significant first |
| `Handshake.ResponseBytes` | net/net-protocol-stacks/nonblocking/socket/network-api/posix/tcp/connect-messages/connect-response-message.h:17-35 | OK is sent as 00 00 and ERROR as 00 01, in front of the text |
| `Handshake.ClientSends` | net/net-protocol-stacks/nonblocking/socket/network-api/posix/tcp/net-stack-worker.cc:258-305 | the client answers 00 00 exactly to a response that says OK, and nothing else |
| `Handshake.ServerSends` | net/net-protocol-stacks/nonblocking/socket/network-api/posix/tcp/net-stack-worker.cc:306-375 | the server answers 00 00 to a request of two bytes and 00 01 to any other, and after the next message 00 00 or 00 01 as m_onLogicConnect decided |
| `Handshake.Completes` | net/net-protocol-stacks/nonblocking/socket/network-api/posix/tcp/net-stack-worker.cc:156-203 | the nested calls end with a failed first read, or with the completed flag set unless a read they used stopped inside a message |
| `Handshake.InitializeCompletes` | net/net-protocol-stacks/nonblocking/socket/network-api/posix/tcp/net-stack-worker.cc:129-154 | Initialize waits forever exactly when its sending succeeded and a read it used was partial; it returns true exactly when Connected |
| `Handshake.ClientSucceedsIff` | net/net-protocol-stacks/nonblocking/socket/network-api/posix/tcp/net-stack-worker.cc:260-308 | the client succeeds exactly when both answers say OK, its sends succeed and m_onLogicConnect agrees |
| `Handshake.ServerSucceedsIff` | net/net-protocol-stacks/nonblocking/socket/network-api/posix/tcp/net-stack-worker.cc:309-375 | the server succeeds exactly for a two-byte request, any acknowledgement, agreement and successful sends |
| `Handshake.FailsRegisteredIff` | net/net-protocol-stacks/nonblocking/socket/network-api/posix/tcp/net-stack-worker.cc:351-375 | an end fails although m_onLogicConnect took its handler exactly at a server whose last send fails; whoever succeeds was taken |
| `Handshake.Worker.Handshake` | net/net-protocol-stacks/nonblocking/socket/network-api/posix/tcp/net-stack-worker.cc:254-389 | the switch with its nested Recv computes the specified reaction, with a measure on the connection state that falls at every nesting |
| `Handshake.Worker.Recv` | net/net-protocol-stacks/nonblocking/socket/network-api/posix/tcp/net-stack-worker.cc:156-203 | Recv(true) during the handshake computes the specified result |
| `Handshake.Worker.Initialize` | net/net-protocol-stacks/nonblocking/socket/network-api/posix/tcp/net-stack-worker.cc:129-154 | Initialize computes the specified end and outcome, and exactly what is sent: the request of a client first, then the answers |
| `HandshakeRuns.StepKeeps` | net/net-protocol-stacks/nonblocking/socket/network-api/posix/tcp/net-stack-worker.cc:254-389 | every step of either end, failed sends that may slip through and early application messages included, keeps the joint invariant |
| `HandshakeRuns.Agreement` | net/net-protocol-stacks/nonblocking/socket/network-api/posix/tcp/net-stack-worker.cc:254-389 | in every two-party run a connected client means the server's m_onLogicConnect agreed and the server recorded the client's own logic port; a server never records another port nor connects without agreeing |
| `HandshakeRuns.PathsOnly` | net/net-protocol-stacks/nonblocking/socket/network-api/posix/tcp/net-stack-worker.cc:254-389 | states advance one edge at a time along each role's path; ports and verdicts are never taken back |
| `HandshakeRuns.ServerAlone` | net/net-protocol-stacks/nonblocking/socket/network-api/posix/tcp/net-stack-worker.cc:294-375 | a concrete run: the server connected although the client declined, so agreement is one-way |
| `HandshakeRuns.DecideThenAnswer` | net/net-protocol-stacks/nonblocking/socket/network-api/posix/tcp/net-stack-worker.cc:351-375 | with nothing in between, the verdict and the answer that follows are the one step of the server |
| `HandshakeRuns.PostOvertakes` | net/net-protocol-stacks/nonblocking/socket/network-api/posix/tcp/net-stack-worker.cc:351-375 | for every application message queued between verdict and answer: the client takes its first two bytes for the status, and connects exactly if they read OK, while the server connects |
| `WorkerManager.UniqueWorkerManager.PutWorkerEventHandler` | net/net-protocol-stacks/msg-worker-managers/unique-worker-manager.cc:37-53 | the three maps after a put, and its answer |
| `WorkerManager.UniqueWorkerManager.RemoveByPeers` | net/net-protocol-stacks/msg-worker-managers/unique-worker-manager.cc:55-69 | the maps after a removal by both peers; the third map keeps its entry |
| `WorkerManager.UniqueWorkerManager.RemoveByLogic` | net/net-protocol-stacks/msg-worker-managers/unique-worker-manager.cc:71-84 | the maps after a removal by logic peer |
| `WorkerManager.NBSocketService.OnLogicConnect` | net/net-protocol-stacks/nonblocking/nb-socket-service.cc:156-161 | registration, refused by a stopped service |
| `WorkerManager.NBSocketService.Disconnect` | net/net-protocol-stacks/nonblocking/nb-socket-service.cc:88-107 | removes and releases the handler of that peer; refuses other protocols and a stopped service |
| `WorkerManager.NBSocketService.OnFinish` | net/net-protocol-stacks/nonblocking/nb-socket-service.cc:163-180 | removes by both peers and, if a handler came out, releases the one that finished |
| `WorkerManager.PutKeepsIff` | net/net-protocol-stacks/msg-worker-managers/unique-worker-manager.cc:37-53 | a put keeps the bijection exactly when it is rejected or the handler shares neither real peer nor address with a registered one; rejection changes nothing |
| `WorkerManager.FinishSafeIff` | net/net-protocol-stacks/nonblocking/nb-socket-service.cc:163-180 | on_finish leaves all other connections alone exactly when no other registered handler has the same real peer; then it takes out its own handler or nothing; the third map stays as it is |
| `WorkerManager.DisconnectSafe` | net/net-protocol-stacks/msg-worker-managers/unique-worker-manager.cc:71-84 | Disconnect takes out exactly the handler of that logic peer, with its entries in all three maps, and keeps the bijection |
| `ManagerRuns.RunKeeps` | net/net-protocol-stacks/msg-worker-managers/unique-worker-manager.cc:37-84 | in every run with distinct live real peers the maps stay in bijection, and every successful put is matched by at most one release: exactly one once the handler is out |
| `ManagerRuns.EarliestWins` | net/net-protocol-stacks/msg-worker-managers/unique-worker-manager.cc:37-53 | a registered handler stays until its own end or a disconnect of its peer, and every other connection for that peer is turned away |
| `ManagerRuns.FinishBalancedIff` | net/net-protocol-stacks/nonblocking/nb-socket-service.cc:163-180 | the end of a handler keeps the bijection and the balance of puts and releases if and only if no other registered handler has its real peer |
| `ManagerRuns.LateEndEvicts` | net/net-protocol-stacks/nonblocking/nb-socket-service.cc:163-180 | a concrete run for any two handlers with the same peers, one registered after the disconnect of the other: the late end of the first releases it twice and takes the second out of the maps unreleased |
| `EventLoop.StepKeeps` | net/net-protocol-stacks/nonblocking/socket/network-api/posix/event-manager.cc:103-139 | every step of loop and producers keeps the invariant and touches no deleted handler |
| `EventLoop.HandlersOutliveTheirEvents` | net/net-protocol-stacks/nonblocking/socket/network-api/posix/event-manager.cc:103-139 | in every interleaving no handler is dispatched to, or put into or out of the driver, after it was deleted |
| `EventLoop.DeletedOnce` | net/net-protocol-stacks/nonblocking/socket/network-api/posix/event-manager.cc:128-131 | in every interleaving no handler is deleted twice |
| `EventLoop.PassIsComplete` | net/net-protocol-stacks/nonblocking/socket/network-api/posix/event-manager.cc:103-139 | back at the wait, every release taken is carried out, and every event the driver reported and every read/write event taken is worked off in order, skipped only for a released handler |
| `EventLoop.RulesAreExact` | net/net-protocol-stacks/nonblocking/socket/network-api/posix/event-manager.cc:103-139 | queueing an event or a release is safe exactly when the producer's rule allows it: otherwise the loop alone comes to touch a deleted handler |
| `EventLoop.NeverAlone` | net/net-protocol-stacks/nonblocking/socket/network-api/posix/event-manager.cc:103-139 | from a state with the invariant no sequence of loop steps touches a deleted handler |
| `EventLoop.Doom` | net/net-protocol-stacks/nonblocking/socket/network-api/posix/event-manager.cc:103-139 | after a step that breaks a rule, a sequence of loop steps that touches a deleted handler |
| `EventWorkers.EventWorker.AddExternalEpAddEvent` | net/net-protocol-stacks/nonblocking/socket/event-drivers/event-worker.h:58-66 | appends to the add queue, as the model step |
| `EventWorkers.EventWorker.AddExternalRWOpEvent` | net/net-protocol-stacks/nonblocking/socket/event-drivers/event-worker.h:45-48 | appends to the read/write queue, as the model step |
| `EventWorkers.EventWorker.AddExternalEpDelEvent` | net/net-protocol-stacks/nonblocking/socket/event-drivers/event-worker.h:80-83 | inserts into the delete set, as the model step |
| `EventWorkers.EventWorker.GetExternalEpDelEvents` | net/net-protocol-stacks/nonblocking/socket/event-drivers/event-worker.h:85-91 | swaps the delete set out |
| `EventWorkers.EventWorker.GetExternalRWOpEvents` | net/net-protocol-stacks/nonblocking/socket/event-drivers/event-worker.h:50-56 | swaps the read/write queue out |
| `EventWorkers.EventWorker.GetExternalEpAddEvents` | net/net-protocol-stacks/nonblocking/socket/event-drivers/event-worker.h:68-74 | swaps the add queue out |
| `EventWorkers.EventWorker.HandleInternals` | net/net-protocol-stacks/nonblocking/socket/network-api/posix/event-manager.cc:113-119 | dispatches exactly the reported events but those of pending handlers, in order, each to a live handler, under interference |
| `EventWorkers.EventWorker.HandleExternals` | net/net-protocol-stacks/nonblocking/socket/network-api/posix/event-manager.cc:121-126 | likewise for all read/write events taken |
| `EventWorkers.EventWorker.DeleteAll` | net/net-protocol-stacks/nonblocking/socket/network-api/posix/event-manager.cc:128-131 | deletes exactly the pending handlers, each still there |
| `EventWorkers.EventWorker.LoopPass` | net/net-protocol-stacks/nonblocking/socket/network-api/posix/event-manager.cc:103-139 | one pass of the loop under any interference: what was released before it is deleted; process_event is called on exactly the reported events of watched handlers and then the queued read/write events, in order, but those of handlers it deletes; what was added before it is watched |
| `EventWorkers.LiveInOrder` | net/net-protocol-stacks/nonblocking/socket/network-api/posix/event-manager.cc:113-127 | the skipping of pending handlers keeps the order of events: of two lists one after the other it dispatches those of the first, then those of the second |
| `BitWords.TimesInjective` | common/hash-algorithms.cc:92-94 | multiplication by an odd constant is one-to-one on words of any width |
| `BitWords.RotlParts` | common/hash-algorithms.cc:21-29 | rotation as two shifts and an or: the low bits on top of the high bits, still a word |
| `BitWords.RotlInjective` | common/hash-algorithms.cc:21-29 | rotation is one-to-one |
| `BitWords.FoldInjective` | common/hash-algorithms.cc:47-51 | h ^= h >> k is one-to-one for every k > 0 |
| `BitWords.PlusInjective` | common/hash-algorithms.cc:98-98 | adding a constant is one-to-one |
| `MurmurMix.ScrambleInjective` | common/hash-algorithms.cc:92-94 | multiply, rotate, multiply is one-to-one |
| `MurmurMix.FinalMixInjective` | common/hash-algorithms.cc:45-68 | fmix32 and fmix64 are one-to-one |
| `MurmurMix.LoadInjective` | common/hash-algorithms.cc:40-40 | different bytes load as different words, on hosts of either byte order |
| `MurmurMix.Case` | common/hash-algorithms.cc:108-114 | one case of the fall-through adds its byte below those already there |
| `Murmur32.MurmurHash3_x86_32` | common/hash-algorithms.cc:71-124 | the loop over negative indices, the fall-through and the finalisation compute the specified hash; the empty key, "abc" and "hello" have their known hashes |
| `Murmur32.KnownAnswers` | common/hash-algorithms.cc:71-124 | 0x514e28b7 for the empty key and seed 1, 0xb3dd93fa for "abc" and 0x248bfa47 for "hello" with seed 0; 0x84c85fd5 for "hello" on a big-endian host: these fix constants, rotations, byte order and the place of the length |
| `WordValues.XorDigits` | common/hash-algorithms.cc:33-42 | exclusive or of concrete words, four hexadecimal digits at a time, from arithmetic on the digits |
| `Murmur32.Fmix32` | common/hash-algorithms.cc:45-54 | the five lines compute the final mix |
| `Murmur32.TailWord` | common/hash-algorithms.cc:106-114 | the fall-through assembles the tail word |
| `Murmur32.StepInjective` | common/hash-algorithms.cc:88-99 | equal states after a block: the states before agree exactly when the blocks do |
| `Murmur32.StaysApart` | common/hash-algorithms.cc:88-99 | two states that differ never meet again over equal blocks |
| `Murmur32.HashInjective` | common/hash-algorithms.cc:71-124 | equal hashes of equally long keys: the states before the tail agree exactly when the tails do |
| `Murmur32.NoCollision` | common/hash-algorithms.cc:71-124 | for every seed, length and host, keys that differ in one 4-byte block, or only in the tail, have different hashes |
| `Murmur32.SeedsNeverCollide` | common/hash-algorithms.cc:71-124 | one key under two seeds has different hashes |
| `Murmur32.PaddingShows` | common/hash-algorithms.cc:119-121 | the length counts: for every key, seed and host, zero bytes appended within the last word change the hash |
| `Murmur32.ZerosApart` | common/hash-algorithms.cc:119-121 | keys of fewer than four zero bytes and different lengths have different hashes |
| `Murmur128.MurmurHash3_x64_128` | common/hash-algorithms.cc:234-312 | the loop, the fifteen cases and the finalisation compute the specified hash, with its values for the empty key, "hello" and the alphabet |
| `Murmur128.KnownAnswers` | common/hash-algorithms.cc:234-312 | the hashes of the empty key with seed 1, of "hello", and of the 26 letters (one block and a tail that reaches the second half) |
| `Murmur128.MixBlock` | common/hash-algorithms.cc:252-264 | one round of the block loop |
| `Murmur128.MixTail` | common/hash-algorithms.cc:269-294 | the switch: k2 mixed before the cases of k1 |
| `Murmur128.Finalise` | common/hash-algorithms.cc:297-312 | the finalisation |
| `Murmur128.StepInjective` | common/hash-algorithms.cc:252-264 | equal states after a 16-byte block: the states before agree exactly when the blocks do |
| `Murmur128.FinishInjective` | common/hash-algorithms.cc:297-312 | the finalisation is one-to-one for a given length |
| `Murmur128.NoCollision` | common/hash-algorithms.cc:234-312 | for every seed, length and host, keys that differ in one 16-byte block, or only in the tail, have different hashes |
| `Murmur128.SeedsNeverCollide` | common/hash-algorithms.cc:234-312 | one key under two seeds has different hashes |
| `Murmur128.PaddingShows` | common/hash-algorithms.cc:296-310 | the length counts: for every key, seed and host, zero bytes appended within the last block change the hash |
| `BlockingQueues.StepKeeps` | common/blocking-queue.h:43-55 | every locked section, notify, wake-up and re-check keeps: nothing lost or reordered, and each item covered by a notify to come or a woken consumer while somebody sleeps |
| `BlockingQueues.NoLostWakeUp` | common/blocking-queue.h:109-118 | in every interleaving, spurious wake-ups included, a sleeping consumer and a non-empty queue mean a notify or a woken consumer is on its way; items leave in the order they came |
| `ThreadPools.PoolRunKeeps` | common/thread-pool.cc:61-78 | in every run each popped task is held, run once or dropped, and only a stopping pool drops an action |
| `ThreadPools.NobodyIsStuck` | common/thread-pool.cc:21-34 | while the pool stops and a thread has not left, some step other than a spurious wake-up can be made |
| `ThreadPools.RankFalls` | common/thread-pool.cc:21-34 | while the pool stops every step but a spurious wake-up lowers the rank, which a spurious one raises by one at most |
| `ThreadPools.ShutdownCompletes` | common/thread-pool.cc:21-34 | from the stop flag on, the productive steps of any run are bounded by the rank and the spurious wake-ups, and a run comes to rest only with every thread gone |
| `ThreadPools.NothingBegins` | common/thread-pool.cc:62-75 | once the pool is being stopped no action is begun |
| `ThreadPoolCode.ThreadPool.Pop` | common/blocking-queue.h:43-55 | the wait loop under any interference returns the task it popped; without one the thread is still inside |
| `ThreadPoolCode.ThreadPool.Proc` | common/thread-pool.cc:61-78 | a worker leaves only a stopping pool |
| `ThreadPoolCode.ThreadPool.Shutdown` | common/thread-pool.cc:21-29 | the destructor sets the flag and pushes one empty task per thread, under any interference |
| `MessageIds.IdSource.GetNewId` | net/snd-message.cc:89-117 | the id is one more than the last one, and 1 after 0xfffffffe; so the n-th id is ((n - 1) mod (2^32 - 2)) + 1 |
| `MessageIds.NthInRange` | net/snd-message.cc:104-116 | 0 and UINT32_MAX never appear; the first 2^32 - 2 ids count from 1 |
| `MessageIds.IdsRepeatIff` | net/snd-message.cc:89-117 | two ids are equal exactly when they are a multiple of 2^32 - 2 calls apart, so any 2^32 - 2 consecutive ids are distinct |

## Left out

- MemPool.MemPool.Put: above 1 MiB it requires the slot's registry entry, as the code does without checking; what happens without one is undefined and not modelled. The pages of a bulk slot that were not released are a ghost set beside the registry.
- MemPool.FindSuitableSlot: the float factor 2.0 is taken as 2, which is exact for the indices that occur.
- PoolRuns.RunKeeps: a run ends before a Get that drains a larger slot; what Put does once the two indices disagree is not modelled.
- Receiver.MessageReceiver.Recv: covers the connected state; during the handshake `Handshake.Worker.Recv` takes whole messages. Memory for payloads always comes; an EAGAIN before the first payload byte allocates again without giving back, which does not affect framing.
- Sender.MessageSender.Send: a payload length is the length of the byte sequence; the `GetDerivePayloadLength` and `EncodeDerive` of user message classes are taken to agree.
- Pipeline.DeliveredIsPrefix: the queue holds messages Encode accepts; one it rejects ends in the exception, with exactly that message lost, as `Sender.MessageSender.Send` states.
- Handshake.Worker.Handshake: a read yields a whole message, fails, or stops inside one; what a partial read leaves in the buffers of the nested calls is not modelled. A one-byte payload makes the 16-bit read take the byte behind it, which is a parameter.
- HandshakeRuns.Agreement: agreement in the other direction does not hold, see `HandshakeRuns.ServerAlone`.
- ManagerRuns.RunKeeps: assumes live handlers have distinct real peers, without which it fails: `ManagerRuns.FinishBalancedIff`, `ManagerRuns.LateEndEvicts`.
- EventLoop.RulesAreExact: a handler is added to one worker once; the rules for events and releases are exact, the rule for adds is sufficient.
- EventWorkers.EventWorker.LoopPass: event masks, the read-then-write order inside one dispatch, `Wakeup` and the round-robin choice of a worker (whose index is read outside its lock at event-manager.cc:97) are not modelled.
- BlockingQueues.NoLostWakeUp: the queue without a size limit, as used here; with a limit producers and consumers share one condition variable with `notify_one`.
- ThreadPools.ShutdownCompletes: tasks end, and the scheduler makes some possible step; nobody adds tasks to a pool under destruction.
- MessageIds.IdSource.GetNewId: the default 32-bit ids; the 64-bit and the time-stamped variants are not modelled.
- Murmur32.NoCollision: keys are shorter than 2^31 bytes, the range of `int len`; alignment of the block reads is not modelled. Keys that differ in more than one place can collide.
- The destructor of the memory pool, which frees only the bulk pages the registry still lists, `DumpDebugInfo`, wrap-around of counters, and the locks themselves: one operation on a class runs under its lock.
- WorkerManager.NBSocketService.Stop: sets the flag; joining the event workers and dropping the manager, whose destructor deletes the remaining handlers, are not modelled.
- A handler that the manager knows but no event worker owns yet: `Release` then queues no delete, at abstract-file-event-handler.h:43-51.
- `SendMessage`'s decision to wake the worker, which reads the queue size apart from the push. On an empty queue it uses the handler's event worker (net-stack-msg-worker.cc:41-57), which is null from the agreement of `m_onLogicConnect` until `AddEvent` (event-manager.cc:98); so it is defined exactly if the queue was not empty, the push is refused, or the handler has been handed to a worker. This condition is not part of the model.
- Headers of 16 and 20 bytes, MurmurHash3_x86_128, the timer, reference counts above one, `WaitAll` and its timed variants.
- Socket, epoll, pipe and accept calls, and the UDP, DPDK and RDMA placeholders.
