# Shuttlesock, modelled and verified

Shuttlesock runs a server as a master process, a manager process and worker threads that share
a slab of memory, send each other messages through rings of 256 slots, and copy Lua values
between their interpreters. This project models its most intricate parts in Dafny and proves
what they are for. It stands alone: `dafny verify dfyconfig.toml` checks everything.

Each part is imperative where the original is, with the fields, loops and branches of the
original, proved against specification functions; the properties over sequences of operations
are lemmas about these functions.

| part | files | what is proved |
|---|---|---|
| shared-memory slab | Bits, PageLists, PageRuns, PageClasses, SlabBlocks, SlabModel, SlabSteps, SlabLayout, SlabPool | three encodings of blocks over coalescing page runs refine an abstract set of live blocks; requests get the least block that fits and fail exactly when nothing can serve them; freeing everything restores the fresh pool |
| Lua graph copying | LuaHeap, GxModel, GxCopy, GxTheorems | copies are isomorphic to their sources, for cycles, sharing and several copies in a session; when they are not |
| Lua messages | LuaPackModel, LuaPack, LuaUnpack, LuaRoundTrip | packing and unpacking gives back the same graph, exactly when its integers fit |
| ring of slots, atomic steps | IpcRing, IpcRingSafety, IpcRingRuns, IpcRingRewind, IpcRingStuck | safety for all interleavings under a guard on rewinds; a rewind can lose a message exactly when that guard fails; the ring can get stuck exactly when a sender finds it full and is not alone |
| queues and the manager as proxy | IpcQueue, IpcOrder, IpcDelivery, IpcChannel | end-to-end order between all pairs of processes; every message can still arrive |
| chunked decoding | Chunked, ChunkedDecoder, ChunkedRoundTrip, ChunkedGrammar | independence of how input is cut, decoding in place, round trip; exactly what is completed, incomplete and rejected (section 4.1 of RFC 7230) |
| HTTP requests | HttpGrammar, HttpRendering, HttpRoundTrip, HttpStability, HttpOpen, HttpComplete, HttpParser | what is accepted is exactly what can be written out from its pieces; stability under more input, resumed scanning (sections 3.1.1, 3.2 and 3.5 of RFC 7230) |
| memory pool | ArenaModel, Arena | accounting, disjointness, going back to levels |
| events and shutdown | Events, Shutdown, ShutdownWaits | order of listeners, who waits for whom, and when a stopping manager can stop |

What was found on the way, each with its exact condition:

- a failed Lua copy stays cached, and the next copy of the same object succeeds with a hole in it
  (GxTheorems.CopyAgain, with GxTheorems.HoleCopied);
- the reader rewinds the ring without looking at senders at work; a message can then be lost exactly
  if something released is unread or a sender holds an index or may still be granted one
  (IpcRingRewind.RewindLosesIff, with a run in IpcRingRewind.UnguardedRewindLosesMessage);
- even with safe rewinds an index can be left that is never written, and a reader that waits for it
  for ever: never as long as every sender sees at most 255 indices unread (IpcRingStuck.CalmRun) and
  never with a single sender (IpcRingStuck.LoneNeverStuck), but always possible once one of several
  senders sees more (IpcRingStuck.OverrunCanStick);
- integers beyond a C int change on their way between Lua states (LuaRoundTrip.RoundTripIff, with LuaRoundTrip.LargeIntegerChanges);
- a worker that was never initialized, has stopped already, or cannot be sent to for lack of memory
  keeps the manager from telling the workers after it to stop, and then the manager and the master
  wait for ever (ShutdownWaits.CanStopIff, with runs in ShutdownWaits.SkippedWorkerHangs,
  StoppedWorkerHangs and FailedSendHangs);
- freeing the address of a block that holds a page's bitmap breaks the pool (SlabPool.Pool.Free, with
  SlabPool.BreakPool);
- the fallback blocks of a memory pool are not given back by a level marked before the first of
  them (Arena.Pool.DrainToLevel, with Arena.FallbackStays).

## Model

| member | source | states |
|---|---|---|
| SlabModel.LiveDisjoint | src/shared_slab.c:220-454 | Two different blocks that are handed out share no byte, whatever their sizes and encodings. |
| SlabModel.LiveInPages | src/shared_slab.c:220-454 | Every block handed out lies inside the pages of the pool. |
| SlabModel.LiveSparesBitmap | src/shared_slab.c:371-408 | No block handed out overlaps the bitmap that a page of small blocks keeps in its own first blocks. |
| SlabModel.PieceAligned | src/shared_slab.c:220-454 | A block of a size class starts at a multiple of the block size, counted from the first page. |
| SlabModel.StartDetermines | src/shared_slab.c:498-711 | The address of a block handed out tells its page and its place in the page, so freeing by address is unambiguous. |
| SlabModel.FreeListCountsFreePages | src/shared_slab.c:714-847 | Every free page is on exactly one run of the free list, and only free pages are; the lengths of the runs add up to their number. |
| SlabModel.WindowIffRun | src/shared_slab.c:715-767 | n contiguous free pages exist somewhere if and only if some run on the free list has at least n pages; no two runs are adjacent, so none is missed. |
| SlabModel.NothingLiveMeansPristine | src/shared_slab.c:498-711 | When nothing is handed out, whatever the history, the pool is one free run of all its pages, all size class lists are empty, and the sums behind `used`, `total` and `pfree` are back where they began. |
| SlabModel.ClassFits | src/shared_slab.c:245-253 | The least shift for a request of at most half a page is one the pool has a list for. |
| SlabModel.ClassSize | src/shared_slab.c:245-253 | The blocks of the class of a request are the least power of two from 8 on that it fits. |
| SlabModel.PagesForFit | src/shared_slab.c:230-235 | Dividing by the page size and adding a page for a remainder gives the one number of pages that fits a request without a whole page to spare. |
| SlabModel.PerPageCounts | src/shared_slab.c:408-435 | A page adds to `total` as many blocks as it can hand out. |
| PageRuns.TakenKeepsCore | src/shared_slab.c:718-757 | Handing out the front of a run keeps the page invariant: disjoint, coalesced runs, tail back-pointers where a neighbour can look them up, and linked lists that agree with the page records. |
| PageRuns.MergeKeepsCore | src/shared_slab.c:792-832 | Joining two adjacent free runs keeps the page invariant, with the joined run not yet on the free list. |
| PageRuns.AttachKeepsCore | src/shared_slab.c:835-846 | Putting a coalesced run at the front of the free list restores the whole page invariant. |
| PageRuns.DetachRun | src/shared_slab.c:776-782 | Releasing handed-out pages turns them into a free run that is on no list yet; everything else keeps the page invariant. |
| PageRuns.DetachChunked | src/shared_slab.c:784-788 | Releasing a page of blocks that is on its size class list takes it off that list, and only that list changes. |
| PageRuns.LeftRunRecord | src/shared_slab.c:811-820 | The page before a run being released tells where the run on the left begins: through the back-pointer in its tail if it is not the head itself. |
| PageClasses.UnlistKeepsCore | src/shared_slab.c:286-301 | A page that has become full leaves its size class list. |
| PageClasses.RelistKeepsCore | src/shared_slab.c:537-545 | A full page of which a block is freed returns to the front of its size class list. |
| PageClasses.CutKeepsCore | src/shared_slab.c:390-438 | A page freshly cut into blocks becomes the only page of its size class list. |
| SlabBlocks.WriteBlockOk | src/shared_slab.c:263-366 | Setting or clearing the bit of one block changes the encoded set of blocks by exactly that block, in each of the three encodings. |
| SlabBlocks.LooksFullMeans | src/shared_slab.c:286-350 | The test for a full page holds exactly when every block of the page is taken. |
| SlabBlocks.LooksEmptyMeans | src/shared_slab.c:547-646 | The test for an empty page, past the bits of the bitmap itself, holds exactly when no block of the page is taken. |
| SlabBlocks.FreshBlocksOk | src/shared_slab.c:371-438 | The first words of a page cut into blocks encode exactly the block handed out and, for small blocks, those under the bitmap. |
| SlabBlocks.SearchResult | src/shared_slab.c:263-354 | The search over the words of a listed page ends at the first free block of that page. |
| SlabBlocks.BitmapFits | src/shared_slab.c:374-388 | The blocks set aside for the bitmap of a page of small blocks hold it. |
| SlabBlocks.ReservedLeast | src/shared_slab.c:374-388 | No block more is set aside than the bitmap needs, and none where the bitmap is in the page record. |
| SlabSteps.GivePoolOk | src/shared_slab.c:533-652 | Freeing a block of a page that keeps others keeps the invariant of the whole pool, and lists the page exactly if it is not full. |
| SlabSteps.ListedIffFreeBlock | src/shared_slab.c:263-366 | A size class list is non-empty exactly if some page of the class has a free block; so the branch for a listed page without one is never reached. |
| SlabPool.Pool.FindRun | src/shared_slab.c:715-767 | First fit: finds the first run on the free list that is long enough, or shows that no window of that many free pages exists. |
| SlabPool.Pool.AllocPages | src/shared_slab.c:714-767 | Pages of the first long enough run are handed out if and only if there is a window of them; they were free, nothing else changes, and `pfree` falls by their number. |
| SlabPool.Pool.FreePages | src/shared_slab.c:770-847 | Released pages become free, joined with free neighbours on both sides, and nothing else changes hands; `pfree` grows by their number. |
| SlabPool.Pool.ShiftOf | src/shared_slab.c:245-253 | The loop over halves computes the least shift whose power of two is at least the size. |
| SlabPool.Pool.FindBlock | src/shared_slab.c:263-354 | Finds the first free block of a listed page, in each of the three encodings. |
| SlabPool.Pool.IsFull | src/shared_slab.c:263-366 | After taking a block of a page whose earlier words are full, looking on from there decides whether the page is full. |
| SlabPool.Pool.IsEmpty | src/shared_slab.c:547-652 | After freeing a block, the words past the bits of the bitmap decide whether the page is empty. |
| SlabPool.Pool.AllocBlock | src/shared_slab.c:245-446 | A size class request fails exactly when no page of the class has a free block and no page is free. |
| SlabPool.Pool.Alloc | src/shared_slab.c:220-454 | A request up to half a page gets a block of the least power of two from 8 on that it fits, a larger one the fewest whole pages; it fails exactly when no such block and no page to cut, or no window of so many free pages, exists; else exactly one block becomes live, at the address returned; request and failure counts follow; the pool invariant, with the statistics and the number of free pages, is kept. |
| SlabPool.Pool.Free | src/shared_slab.c:498-711 | Frees if and only if the address starts a live block, and then exactly that block dies, or holds a bitmap; otherwise nothing changes. The pool invariant is kept if and only if the address is not that of a block that holds a bitmap: then a bit of the bitmap is cleared, `used` falls, and no state of the pool fits any more. |
| SlabPool.BreakPool | src/shared_slab.c:512-570 | It happens in any pool with a free page: a small block is asked for, and the start of its page freed. |
| SlabLayout.LayoutOk | src/shared_slab.c:155-191 | The memory of a pool is divided into list heads, statistics, page records and aligned pages that do not overlap and fit; there are as many records as fit with their pages, the first page begins as early as it can, and a page is given up only for alignment. |
| SlabPool.Pool.constructor | src/shared_slab.c:138-197 | A fresh pool in given memory has the pages of that division, satisfies the invariant, and has nothing live and all pages free. |
| GxModel.EntriesAdd | src/lua_utils.c:1018-1032 | Copying a key and its value and storing them adds exactly the image of that entry, since distinct keys have distinct images. |
| GxModel.IsImageStable | src/lua_utils.c:912-955 | A finished copy stays the image of its source when more objects are copied. |
| GxModel.IncompleteIsNoImage | src/lua_utils.c:993-1118 | A copy that lacks an entry, its metatable or an upvalue can never be the image of its source, whatever else gets copied. |
| GxCopy.Session.CopyAny | src/lua_utils.c:1167-1218 | Copies any value graph, cycles and sharing included, and terminates; every finished copy is the image of its source under one injective map; earlier destination objects are untouched; the globals tables stand for each other; it fails only for values that reach something uncopyable, and never for what is cached. |
| GxCopy.Session.CopyTable | src/lua_utils.c:993-1038 | Registers the new table before filling it; a failure leaves it cached with the images of some of its entries and nothing else. |
| GxCopy.Session.CopyEntry | src/lua_utils.c:1022-1034 | Copies a key and then its value; the entry is set only when both are copied, and a failure at either leaves the entries set before. |
| GxCopy.Session.CopyMetatable | src/lua_utils.c:954-991 | Completes a table that has its entries: with the metatable copied it is the image of its source. |
| GxCopy.Session.CopyFunction | src/lua_utils.c:1056-1118 | Registers the loaded function before copying its upvalues, which are set only once all are copied; after a failure it is cached as loaded: the globals table its first upvalue and nil the others. |
| GxCopy.Session.CopyUpvalues | src/lua_utils.c:1041-1054 | Copies upvalues in order; all of them are images, or the function is left as it was loaded and is incomplete. |
| GxTheorems.FaithfulUnlessBroken | src/lua_utils.c:993-1118 | Between copies, a cached copy is an image exactly if its filling was not cut short. |
| GxTheorems.CopyReaches | src/lua_utils.c:1167-1218 | Whatever a copied value reaches is copied, and the copy reaches its image in as many steps. |
| GxTheorems.ReachedIsImage | src/lua_utils.c:1167-1218 | Whatever a copy reaches is the image of something its source reaches in as many steps: nothing is made up. |
| GxTheorems.Copy | src/lua_utils.c:1279-1295 | A session without broken copies copies a value if and only if it reaches nothing uncopyable other than through the globals table, and then everything so reached is copied faithfully. |
| GxTheorems.CopyAgain | src/lua_utils.c:912-932 | The stated promise fails after an error: a second copy of the same object reports success and hands out the incomplete copy. It is faithful if and only if the first copy succeeded, which holds exactly if nothing uncopyable is reached. |
| GxTheorems.HoleCopied | src/lua_utils.c:912-932 | It happens with a table that holds one coroutine: the second copy is an empty table. |
| IpcRing.InitialOk | src/ipc.c:383-411 | An empty ring with any number of idle senders satisfies the invariant. |
| IpcRingSafety.StepKeeps | src/ipc.c:383-439 | Every atomic operation of every sender and of the reader keeps the invariant; a rewind does under a guard, which is necessary (IpcRingRewind.RewindSafeIff). |
| IpcRingSafety.GrantKeeps | src/ipc.c:383-407 | An index that passes both looks at the flag and the distance test was granted to nobody before, and its slot is free. |
| IpcRingSafety.RewindKeeps | src/ipc.c:596-597 | A guarded rewind keeps the invariant and makes the reserve counter equal to the release counter; the assertion itself is a later step. |
| IpcRingSafety.RunSafe | src/ipc.c:572-602 | The invariant holds over whole runs whose rewinds are guarded, for any interleaving of any number of senders. |
| IpcRingSafety.RunDelivers | src/ipc.c:572-602 | In these runs, whatever the interleaving: the j-th message delivered is the one its sender was granted index j for, so messages are consumed in index order, each once. |
| IpcRingSafety.StepOverwritesNothing | src/ipc.c:409-438 | No operation, rewinds being guarded, changes a slot that was written and is unread, or grants an index a second time; only the reader passing on the next message delivers, and it is the one granted there. |
| IpcRingRewind.RewindLosesIff | src/ipc.c:596-600 | After a rewind, all later ones being guarded, some index can be granted again while the message in it is unread, if and only if something released was unread at the rewind or some sender held an index or might still be granted the one it had. So the guard is exact: the senders at work matter exactly as long as they can still be granted an index. |
| IpcRingRewind.RewindSafeIff | src/ipc.c:596-600 | Rewinding keeps the invariant of the ring if and only if the same guard holds. |
| IpcRingRewind.AssertionIff | src/ipc.c:596-598 | The assertion after a guarded rewind holds if and only if no sender adds to the reserve counter between the rewind and the load of that counter. |
| IpcRingRewind.AssertionCounts | src/ipc.c:596-598 | After any rewind, guarded or not, the assertion holds if and only if what had been read and what was added to the reserve counter before its load make up what had been and is released. |
| IpcRingRewind.UnguardedRewindLosesMessage | src/ipc.c:596-600 | From the empty ring there is a run of two senders to such a rewind, after which an index is granted twice and the unread message in its slot is overwritten. |
| IpcRingStuck.CalmRun | src/ipc.c:383-407 | As long as no sender finds more than 255 indices unread, no guard is needed: the flag is never set, no index is given up, the reader never rewinds, the ring is never stuck, and everything is delivered as granted, in order. |
| IpcRingStuck.OverrunCanStick | src/ipc.c:392-400 | As soon as a sender does find more than 255 unread, the flag not being set, and there is another sender, the ring can get stuck for good, with every rewind safe, from whatever state it was in. |
| IpcRingStuck.LoneNeverStuck | src/ipc.c:383-407 | A single sender never gets the ring stuck, full or not, if rewinds are guarded. |
| IpcRingStuck.GuardedRingGetsStuck | src/ipc.c:383-407 | From the empty ring there is a run of two senders, with every rewind safe, that ends stuck. |
| IpcRingStuck.StuckForever | src/ipc.c:580-595 | Once the next index to read is one nobody is at work on while a later one is granted, nothing is delivered any more, rewinds being guarded. |
| IpcRingStuck.SpinsForever | src/ipc.c:580-595 | With the reader inside its loop, nothing is asked of rewinds: it never comes to one. |
| IpcRingStuck.FindsNext | src/ipc.c:580-585 | In any state: a reader told that something is released finds its next message, unless a sender is at work on that index or the ring is stuck. |
| IpcOrder.StepKeeps | src/ipc.c:441-506 | Every send, receive, retry and stop keeps, for every pair of processes, the messages delivered and under way equal in order to those accepted and not dropped. |
| IpcOrder.OrderKept | src/ipc.c:441-602 | Over whole runs from the start: nothing is lost, duplicated or reordered between any two processes, directly or through the manager, and a process with messages waiting has its retry timer armed. |
| IpcOrder.JourneyOk | src/ipc.c:441-506 | What is under way between two processes is what was accepted, each message once, in the order of acceptance. |
| IpcOrder.ForwardJourney | src/ipc_commands.c:107-114 | Sending on, at the first hop or by the manager, puts a message behind all of its pair that are ahead of it and touches no other pair. |
| IpcOrder.FlushKeeps | src/ipc.c:556-570 | The retry callback sends waiting messages first to last and stops at the first that fails; the order is kept. |
| IpcOrder.FlushSends | src/ipc.c:556-570 | A retry sends the first so many of the waiting messages, in order, each into the ring of its next hop, which had room; and either none is left, or the ring of the next one did not accept it, is marked full, and the timer is armed. |
| IpcDelivery.AllArrive | src/ipc.c:480-602 | Every message arrives if processes go on reading and retrying: from wherever they are there is such a run, after which every accepted message that was not dropped is delivered, in order between any two processes, and nothing more is dropped. |
| IpcOrder.StopKeeps | src/ipc.c:332-342 | Stopping drops exactly the messages that were waiting. |
| IpcOrder.RefuseKeeps | src/ipc_commands.c:107-114 | A message the manager cannot send on is dropped, and only that one. |
| IpcChannel.Ring.ReserveWriteIndex | src/ipc.c:383-407 | With operations that do not interleave: an index is given exactly if the ring is not marked full and has room; the flag is set exactly if it had none. |
| IpcChannel.Ring.SendDirect | src/ipc.c:409-438 | The slot array works as a queue of at most 256 messages: one is queued exactly if the ring is not marked full and has room, and otherwise the ring is marked full. |
| IpcChannel.Ring.Take | src/ipc.c:580-595 | The reader takes the oldest message, with the code and pointer its sender wrote: its own code, or, through the manager, one code at the manager and another at the receiver; it never finds an empty slot. |
| IpcChannel.Ring.Drained | src/ipc.c:596-600 | An emptied ring accepts again, with reserve and release counters equal. |
| IpcChannel.Network.Forward | src/ipc.c:498-506 | Into the ring of the next hop only if nothing waits and the receiver has started; if the ring does not accept it is marked full, and the message goes behind all that waits, if there is memory, with the timer armed. |
| IpcChannel.Network.Send | src/ipc.c:480-506 | Sends directly only when nothing waits and the receiver has started; else queues; refused only when it cannot queue. |
| IpcChannel.Network.Receive | src/ipc.c:572-595 | Takes the oldest message of a ring; the manager sends proxied ones on or drops them. |
| IpcChannel.Network.Retry | src/ipc.c:556-570 | The loop over waiting messages sends as many as the rings take, in order, and does what the order and delivery theorems take a retry to do. |
| IpcChannel.Network.Stop | src/ipc.c:332-342 | The cancel loop cancels what waits, first to last, and disarms the timer. |
| LuaPack.Packer.PackField | src/modules/lua_bridge/api/ipc_lua_api.c:23-175 | Packs any graph of tables and plain values, shared and cyclic ones included, and terminates; an error is raised only if something unsendable is reached. |
| LuaPack.Packer.PackTable | src/modules/lua_bridge/api/ipc_lua_api.c:85-159 | A table is remembered before it is filled, and each entry ends up with the fields of its key and value at one index. |
| LuaUnpack.Unpacker.UnpackField | src/modules/lua_bridge/api/ipc_lua_api.c:177-239 | Unpacks any complete packed data and terminates; every packed table becomes one new table and earlier objects are untouched. |
| LuaUnpack.Unpacker.UnpackTable | src/modules/lua_bridge/api/ipc_lua_api.c:205-233 | A table is remembered before it is filled, entry by entry in packed order. |
| LuaRoundTrip.BuiltIsImage | src/modules/lua_bridge/api/ipc_lua_api.c:219-231 | Setting the packed entries one after the other builds exactly the image of the entries that were packed. |
| LuaRoundTrip.RoundTripIff | src/modules/lua_bridge/api/ipc_lua_api.c:23-239 | The receiver gets a graph isomorphic to the one sent, sharing and cycles included, if and only if every integer in it, keys included, fits a C int. |
| LuaRoundTrip.PackedSendable | src/modules/lua_bridge/api/ipc_lua_api.c:161-174 | A value that was packed reaches no function, coroutine or full userdata. |
| LuaRoundTrip.Transfer | src/modules/lua_bridge/api/ipc_lua_api.c:241-314 | Packing and unpacking succeeds exactly for sendable graphs, with the round trip as above; a value that is no table arrives as it is, an integer cut to 32 bits. |
| LuaRoundTrip.LargeIntegerChanges | src/modules/lua_bridge/api/ipc_lua_api.c:23-239 | The integer 2^31, sent by itself, does not arrive. |
| Chunked.RunSplit | thirdparty/picohttpparser/picohttpparser.c:543-656 | Feeding the input in two pieces gives, for every cut, the same decoded bytes, state, result and bytes left over as feeding it at once. |
| Chunked.RunOk | thirdparty/picohttpparser/picohttpparser.c:551-569 | Whatever the input, the size stays below 16 to the number of its digits and below 2^64, so the accumulator never wraps. |
| Chunked.RunRest | thirdparty/picohttpparser/picohttpparser.c:543-656 | An incomplete result has taken all input; otherwise what is left is the end of the input. |
| ChunkedDecoder.ChunkedDecoder.Decode | thirdparty/picohttpparser/picohttpparser.c:543-656 | The loop terminates and rewrites the buffer in place into the decoded bytes followed by the bytes not taken, with the result code and state of the byte-by-byte decoder, leaving memory behind the input alone. |
| ChunkedDecoder.ChunkedDecoder.CopyData | thirdparty/picohttpparser/picohttpparser.c:586-605 | Moves the chunk data there is to its place, never ahead of the reading position. |
| ChunkedDecoder.ChunkedDecoder.ReadSize | thirdparty/picohttpparser/picohttpparser.c:550-572 | Reads digits until something else, without taking it. |
| ChunkedRoundTrip.RoundTrip | thirdparty/picohttpparser/picohttpparser.c:543-656 | Decoding an encoding of chunks, with sizes in digits of either case, anything else on their lines, any number of carriage returns, with trailers or without, and anything after it, gives the concatenated data and leaves exactly what comes after. |
| ChunkedRoundTrip.ListRoundTrip | thirdparty/picohttpparser/picohttpparser.c:530-656 | Every list of non-empty pieces shorter than 2^64 bytes has an encoding, with sizes in upper-case or lower-case hexadecimal, and decoding it gives the pieces one after the other. |
| ChunkedRoundTrip.DigitsDecode | thirdparty/picohttpparser/picohttpparser.c:530-541 | The sixteen digits of either case are decoded to their positions, and no other byte is taken for a digit. |
| ChunkedGrammar.CompleteIff | thirdparty/picohttpparser/picohttpparser.c:543-656 | The decoder completes exactly the inputs that begin with an encoding, and gives its data and what follows it. |
| ChunkedGrammar.BadIff | thirdparty/picohttpparser/picohttpparser.c:543-656 | It rejects exactly the inputs that no further bytes would complete; what it calls incomplete is the beginning of an encoding. |
| HttpStability.ParseStable | thirdparty/picohttpparser/picohttpparser.c:341-426 | If parsing x succeeds or fails, parsing any extension of x does the same, with the same fields. |
| HttpStability.PrefixIncomplete | thirdparty/picohttpparser/picohttpparser.c:341-426 | Every prefix of an accepted request that lacks a part of it is incomplete; every other one is accepted alike. |
| HttpStability.HeadersStable | thirdparty/picohttpparser/picohttpparser.c:288-339 | The same for a block of headers, from any position. |
| HttpComplete.ResumeIsFresh | thirdparty/picohttpparser/picohttpparser.c:197-223 | A scan resumed three bytes before the end of an incomplete one has the outcome and the end of a scan from the first byte. |
| HttpComplete.AcceptedIsComplete | thirdparty/picohttpparser/picohttpparser.c:197-399 | The end of an accepted request is where the scan for an empty line ends. |
| HttpComplete.ResumedAccepts | thirdparty/picohttpparser/picohttpparser.c:401-426 | A request accepted when parsed at once is accepted, with the same fields, after an earlier call that saw a part of it. |
| HttpComplete.CallsAccept | thirdparty/picohttpparser/picohttpparser.c:401-426 | After any calls with growing input that came back incomplete, each told the length before, an acceptable request is incomplete while a part of it lacks and is then accepted with the fields it has when parsed at once. |
| HttpComplete.ResumedRejects | thirdparty/picohttpparser/picohttpparser.c:401-426 | What is rejected after any such calls, no further input would have made acceptable. |
| HttpRendering.TokenChars | thirdparty/picohttpparser/picohttpparser.c:96-103 | The table of token characters has the letters, digits and marks of section 3.2.6 of RFC 7230, and no others. |
| HttpRoundTrip.HeadParses | thirdparty/picohttpparser/picohttpparser.c:341-393 | A request head written out from method, path, minor version and headers, with any white space and line ends the parser allows, parses at its end, and the input at the places reported gives the pieces back. |
| HttpRoundTrip.ParsedIsHead | thirdparty/picohttpparser/picohttpparser.c:341-393 | Whatever parses is a request head written out from the pieces reported. |
| HttpRoundTrip.AcceptedIff | thirdparty/picohttpparser/picohttpparser.c:341-393 | A request is accepted if and only if it begins with such a head of at most as many headers as there is room for. |
| HttpOpen.MoreIff | thirdparty/picohttpparser/picohttpparser.c:341-393 | The parser asks for more exactly if more input can change its answer. |
| HttpParser.GetTokenToEol | thirdparty/picohttpparser/picohttpparser.c:134-195 | The scan by eights gives what a scan byte by byte gives. |
| HttpParser.ParseToken | thirdparty/picohttpparser/picohttpparser.c:246-271 | Walks to the stop byte over token characters. |
| HttpParser.IsComplete | thirdparty/picohttpparser/picohttpparser.c:197-223 | The loop with its counter of line ends is the scan for an empty line. |
| HttpParser.ParseHeaders | thirdparty/picohttpparser/picohttpparser.c:288-339 | Fills the header array with the headers up to the empty line, within its capacity. |
| HttpParser.PhrParse | thirdparty/picohttpparser/picohttpparser.c:401-426 | The whole call gives the outcome of the grammar, with the headers in the array; what is accepted is a request head, and method, path, version and headers reported are its pieces. |
| ArenaModel.AllocatedOk | src/pool.c:230-251 | Whichever way an allocation is served, allocations stay disjoint and inside their pages or blocks, aligned ones aligned, and nothing allocated before is touched. |
| ArenaModel.FreshFits | src/pool.c:206-228 | A request that fits an empty page fits the page just added, so the assertion after adding it holds. |
| ArenaModel.FitsIff | src/pool.c:177-204 | A request fits the last page exactly if there is a place for it behind what is taken, at a word boundary if it has to be aligned. |
| ArenaModel.ServedSo | src/pool.c:206-251 | A request that fits behind the last one adds neither page nor block; else one that fits a page adds a page and no block, if there is memory for it; only then the fallback is asked; the counters grow by what was taken. |
| ArenaModel.SpaceAddsUp | src/pool.c:27-74 | Used, free, wasted and reserved bytes add up to the page size times the number of pages. |
| Arena.Pool.AddPage | src/pool.c:35-74 | Adds a page; the counters stay those of the pages. |
| Arena.Pool.RemoveLastPage | src/pool.c:76-100 | Removes the last page; what is left on the one before is free again. |
| Arena.Pool.Palloc | src/pool.c:230-251 | Serves from the current page, a new page or the fallback, in that order, fails only if there is memory for none, records the place it returns, and only grows the pool. |
| Arena.Pool.MarkLevel | src/pool.c:253-271 | Remembers the pool as it is after the record of the level was itself allocated. |
| Arena.Pool.DrainToLevel | src/pool.c:273-324 | Restores the page chain, the position in it, the counters and the allocations of the mark; lower levels stay usable. The pool is exactly as it was at the mark if and only if the fallback list was not empty at the mark or is empty before the call. |
| Arena.FallbackStays | src/pool.c:283-289 | It is not for any request too large for a page, made after a mark in a fresh pool: its block stays. |
| Arena.Pool.DrainAll | src/pool.c:279-287 | Draining to level zero gives everything back. |
| Events.ResumedOk | src/event.c:155-259 | However the listeners pause, delay or cancel and however often the event is resumed, each call is the one due, and the event is resumed where it is due or over. |
| Events.Neighbours | src/event.c:284-314 | A call is followed by the next listener, after a delay by the same one, after a cancel by none. |
| Events.NoneSkipped | src/event.c:155-259 | Every listener before the last one called has been called. |
| Events.OverMeansAll | src/event.c:155-259 | An event that is over and not cancelled has called every listener. |
| Events.FiredCalls | src/event.c:155-259 | One firing calls no listeners but those from the given one on, in order; all of them if and only if none interrupts, and none after one that does. |
| Events.Event.Fire | src/event.c:155-259 | The loop over listeners stops at the first interrupt; it reports that the event finished exactly if none of the calls was interrupted, and then every listener was called. |
| Events.Event.Publish | src/event.c:261-263 | Publishing fires from the first listener on, and reports exactly if no listener interrupted, all having been called. |
| Events.Event.Resume | src/event.c:394-431 | Resuming goes on from the recorded listener, and reports exactly if none interrupted since, all the others having been called. |
| Shutdown.StopSafe | src/modules/core/core.c:51-121 | From the start, whatever happens: the manager leaves its loop only when every worker in range is dead, the master only when the manager is dead, each stop event is published at most once, the assertions on runstates in the listener and at the end of a worker hold, and every runstate only moves forward. |
| Shutdown.StepKeeps | src/shuttlesock.c:332-718 | Every step of every process keeps an invariant that ties runstates to places in the program; with it the writes of a runstate that do not look at the old one never go back. |
| ShutdownWaits.ToldForGood | src/modules/core/core.c:51-84 | Who was not told then is never told. |
| ShutdownWaits.WaitsForUntold | src/modules/core/core.c:51-84 | A worker that was not told, and that nothing else stops, goes on as it was in every run; the manager waits for it for ever, and the master for the manager as long as its process lives. |
| ShutdownWaits.CanLeaveIff | src/modules/core/core.c:51-84 | A stopping manager can leave its loop, workers stopping only when told, if and only if every worker was told or is on its way out. |
| ShutdownWaits.CanStopIff | src/ipc.c:508-516 | The same, seen from where it begins: exactly the workers are told that get the message, being in reach and there being room or memory for it, as do all before them; and the manager can leave if and only if each worker is so told or is on its way out. |
| ShutdownWaits.ToldMissesWorkers | src/ipc.c:508-516 | A worker that does not get the message keeps itself and all after it from being told, and if one of these is at work the manager can never stop. |
| ShutdownWaits.SkippedWorkerHangs | src/shuttlesock.c:662-700 | It happens from the start: a worker that could not be initialized stays in range, and the manager can never stop. |
| ShutdownWaits.StoppedWorkerHangs | src/shuttlesock.c:703-718 | And so it does when a worker has stopped before the manager is to stop. |
| ShutdownWaits.FailedSendHangs | src/ipc.c:441-446 | And when all workers run, but there is no memory to queue the message to the first. |
| ShutdownWaits.MasterStopsIff | src/modules/core/core.c:87-112 | A stopping master can come to its end by itself if and only if the process of the manager is gone, or the manager has failed. |
| Shutdown.Reachable | src/ipc.c:480-490 | Messages go to processes that are starting, running or stopping, since the numbers of the other states are lower than that of a starting one. |
| Shutdown.Manager.SendWorkers | src/ipc.c:508-516 | The loop over workers stops sending at the first that is out of reach or to which the message can neither be sent nor queued. |
| Shutdown.Manager.TryStop | src/modules/core/core.c:51-84 | The first stop listener marks stopped workers dead and lets the event go on exactly if all are dead. |

## Left out

- The slab has 64-bit words, 8-byte smallest blocks and pages of 2^12 to 2^16 bytes. Addresses are offsets from the first page. Mutex, junk filling, log messages and `ngx_slab_calloc` are not modelled.
- SlabPool.Pool.Free: addresses behind the last page are taken as far as their page record would still lie before the first page; such a record is zero, and the code reports it. Beyond that the code would read the first page as a record.
- SlabPool.Pool.Alloc: counts requests and failures in 32 bits, as the code does; the counters `used`, `total` and `pfree` are unbounded, which differs only with 2^32 blocks or pages.
- SlabPool.Pool.constructor: asks for memory in which one aligned page fits; the code would start a free run of no pages. It does not write the tail pointer of the first run, as the code does not; the invariant asks for tail pointers only where a page follows the run.
- Words are natural numbers below 2^64 and shifts are written as division and remainder by powers of two; memory is one word list for each page.
- Lua copying leaves out loaded packages, `__gxcopy_*` hooks, userdata that can be copied, and C functions; the source heap does not change within a session. Lua itself (stacks, references, garbage collection) is one map from object numbers to objects. A function holds the values of its upvalues: functions that share an upvalue in the source have their own ones in the copy, as in the code.
- GxTheorems.CopyAgain: the copy the session promises is not given after a failure; this member says exactly when.
- Metatables are not sent with packed data, as in the code. Failed allocations while packing, the response and clean-up of Lua messages, and data freed in shared memory are not modelled.
- LuaUnpack.Unpacker.UnpackField: says nothing of the Lua stack; the code reserves slots for four values and none for deeper tables, so unpacking deeply nested tables needs more than it reserves.
- LuaPack.Packer.PackField: says nothing of the Lua stack either.
- LuaRoundTrip.Transfer: integers beyond a C int arrive truncated, as in the code; the round trip says exactly when it holds.
- The atomic ring assumes sequentially consistent operations and codes that are not the nil code; counters are unbounded where the code has 64 bits. Delivery to a handler is one step with the increment of the read counter.
- IpcRingSafety.StepKeeps: assumes the guard on rewinds, which the code does not have; without it the statement is false, and IpcRingRewind.RewindLosesIff says exactly when.
- IpcRingSafety.RewindKeeps: assumes the same guard.
- IpcRingSafety.RunSafe: assumes the same guard, for the same reason.
- IpcRingSafety.RunDelivers: assumes the same guard; IpcRingStuck.CalmRun has the same for runs in which it is not needed.
- IpcRingSafety.StepOverwritesNothing: assumes the same guard.
- IpcRingRewind.AssertionIff: assumes the same guard for the rewind before the assertion; IpcRingRewind.AssertionCounts does not.
- IpcRingStuck.LoneNeverStuck: assumes the same guard.
- IpcRingStuck.StuckForever: assumes the same guard, since an unsafe rewind can grant the missing index; IpcRingStuck.SpinsForever does without it.
- IpcOrder.OrderKept: each send, receive, retry and stop is one step; interleaving inside them is the subject of the atomic ring.
- IpcDelivery.AllArrive: says that there is a run that delivers everything, with receivers that have started and memory for the manager; that processes get their turns is left to the system.
- Event notices, sockets for file descriptors, timers, fork and threads appear only as the steps they lead to. Lost wake-ups are not modelled.
- The SSE 4.2 variants of the HTTP scanner and the response parser are not modelled; lengths are unbounded.
- Where the documentation of the chunked decoder speaks of an error, the bytes behind the decoded ones are still those not taken; the model says so as the code does it.
- The pool is modelled with space tracking on, without valgrind and sanitizer layouts; pages and blocks have numbers for addresses, and memory may run out at any allocation.
- Arena.Pool.constructor: a page size smaller than the page header is not allowed; the code would let its counters wrap.
- Arena.Pool.Palloc: a request of zero bytes from a pool without pages is not allowed; the code would follow a null pointer.
- Arena.Pool.DrainToLevel: only levels not above the last one drained to, since the code does not lower its number of levels.
- Events: each pause or delay is resumed once; a second interruption within the same call of a listener is not modelled, nor the Lua side of listening.
- Shutdown leaves out worker threads that cannot be created, after which the manager fails, processes stopped by modules outside of their loops, the death of the master, and the stop listeners of other modules beyond their right to delay. A message told to a worker arrives at any time.
- Not modelled at all: Lua module and configuration loading, the resolver, logging, server sockets, io and io_uring, string buffers, instrings, lazy atomics.
