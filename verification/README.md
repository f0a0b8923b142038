# Smart calculator: verified model of the client

A Dafny 4.11 model of the parts of the smart calculator that carry its logic, with proofs about
every input and every run. `dafny verify dfyconfig.toml` checks all of it.

| files | what they model |
|---|---|
| `PoolModel`, `MemoryPool` | the memory pool: its operations on values, and the pointer code proved against them |
| `PoolRuns`, `PoolTheorems`, `PoolLeaks` | whole runs of the pool: how far a search goes, which pieces share bytes, what destroy leaves |
| `OrderProtocol`, `OrderLocks`, `OrderSafety`, `OrderFrames`, `OrderRuns`, `OrderInputs`, `OrderDecisions`, `OrderFlow`, `OrderMessages`, `OrderExamples` | the balance, display and control threads, interleaved step by step |
| `Bytes` (with `Sequences`), `ByteOrder`, `Rio`, `WebSocket` | byte order, short and interrupted I/O, WebSocket frames against a parser written from RFC 6455 |
| `Base64` | the Base64 codec against RFC 4648 |
| `Scale` | nearest-neighbour scaling |
| `Hx711` | the scale's driver and the loop that tares it |

Common conventions. `uintptr_t`, `size_t` and `int` are 32 bits wide, as on the ARM board, and their
wrap-around is written out wherever a result can leave the range. The host is little-endian. What the
outside world decides (the address `malloc` returns, a camera frame, a scale sample, a classifier reply,
a database answer, how far a system call gets) is a parameter or an input, and every theorem is about
all of them. Where the code does not meet the property one would expect, the code is modelled as it is,
a lemma gives an input that shows it, and another says exactly when the property holds:

* The pool's fit test wraps when a free pointer has passed its block's end: `EscapeHappens`, exactly when a request
  is served outside its block in `FitIsSoundIff`, and exactly when a run's first escape comes in `EscapesIff`. With
  aligned block ends there is none (`AlignedEndsKeepPieces`). A call that escapes can return a live large region:
  `EscapeHitsLarge`.
* Even without an escape a call of the pool may return memory that is already in use, because the call that adds a
  block does not advance the block's free pointer: `SharingHappens`, and, as long as no request escapes, exactly when
  in `ReturnsUnsharedMemoryIff` (per call), `SharingIsExactly` (per pair) and `AllPiecesApartIff` (per run).
* A pool size within 28 bytes of 2^32 wraps malloc's argument, and the pool serves its first request all the same:
  `HugePoolHappens`, exactly when that lies in malloc's region in `FirstRequestInsideIff`.
* `scale_rgb24` multiplies in 32 bits: `CoordWraps`, exactly when in `CoordExactIff` (per coordinate) and
  `ScalesAllIff` (per image). It does not use every source pixel, even when it does not shrink: `CodeMissesColumn`,
  exactly when it does in `CodeUsesAllIff`. Scaling to multiples and back does not restore every image:
  `CodeLosesColumn`, exactly when it does in `CodeRestoresAllIff`.
* `getPocketDataSize` reads the long length forms from the wrong place: `LongSizeIsWrong`, exactly when it is
  right in `SizeFieldIff`.
* A header write may be short without the code noticing: `ShortHeaderHappens`. What a successful send put on the
  wire parses back exactly when every header was taken whole: `SentStreamParsesIff` and the contract of `SendAll`.
* Re-encoding a decoded Base64 string gives it back exactly for canonical strings: `NotCanonicalHappens`,
  `EncodeDecodeIff`. The decoder reads behind the terminator of some strings: `ReadsBeyondHappens`, exactly when in
  `ReadsInsideIff`.
* The driver's difference is an `int`: `DifferenceWraps`, exactly when it is right in `TickedIsRightIff`.
* Class and price are stored under two separate locks, so the shared data, and the display's snapshot of it, can
  hold a new class with an old price: `StalePriceHappens`, exactly when in `PriceInForceIff` and
  `SnapshotIsOneState`, which read it off the replies.
* The display builds its message from a weight and a price it reads again without the lock, so a message can show
  the wrong price even if the snapshot had the right one: `WrongMessageHappens`, exactly when in `MessagePriceIff`;
  `MessagesAreSound` says what every message is made of.

The comment in `memory_pool.h` says that a large region is linked to the current block; the code links it to
the head of the pool, and the model follows the code.

## Model

| member | source | states |
|---|---|---|
| PoolModel.FirstFit | smartCalculatorClient/memory_pool.c:102-111 | the search stops at the first block, from current on, whose unsigned room is enough; all earlier ones are too small |
| PoolModel.FindSlot | smartCalculatorClient/memory_pool.c:121-129 | the search of the large list stops at the first node with the given pointer |
| PoolModel.OwnsAfterAlloc | smartCalculatorClient/memory_pool.c:95-115 | after any allocation every pointer of the pool is a live heap region of its own |
| PoolModel.OwnsAfterFree | smartCalculatorClient/memory_pool.c:117-131 | giving a region back keeps that, and only frees a live region |
| MemoryPool.MemoryPoolCreate | smartCalculatorClient/memory_pool.c:8-21 | the pointer code builds the one-block pool of the model, in 32-bit arithmetic, in the region malloc gave; the pool owns its memory if header and size do not wrap |
| MemoryPool.ChargeAndScan | smartCalculatorClient/memory_pool.c:60-64 | reading only live blocks, the scan charges every block from current to the last but one and ends at the block the model names |
| MemoryPool.MemoryPoolAllocBlock | smartCalculatorClient/memory_pool.c:46-70 | the new block is linked behind the head, current moves as in the model, and the aligned start is returned with the free pointer not advanced |
| MemoryPool.MemoryPoolAllocLarge | smartCalculatorClient/memory_pool.c:71-94 | reuses the first empty one of four slots or pushes a node, exactly as the model |
| MemoryPool.SearchRoom | smartCalculatorClient/memory_pool.c:102-111 | reading only live blocks, the pointer loop ends at the block the model's search names, or at null when it names none |
| MemoryPool.MemoryPoolAlloc | smartCalculatorClient/memory_pool.c:95-115 | on a pool that owns its memory, new pool, new heap and returned pointer are those of the model on every route, only live memory is read, and the pool owns its memory again; a request larger than the pool returns a new region of its size that can be given back |
| MemoryPool.MemoryPoolLargFree | smartCalculatorClient/memory_pool.c:117-131 | empties the first node with that pointer, frees it, returns 0; otherwise changes nothing and returns -1; only live nodes are read and the pool still owns its memory |
| MemoryPool.DestroyLarge | smartCalculatorClient/memory_pool.c:28-35 | the first loop frees region and node of each list entry in order, reading only live nodes |
| MemoryPool.DestroyBlocks | smartCalculatorClient/memory_pool.c:37-42 | the second loop frees the blocks in chain order, reading only live blocks |
| MemoryPool.MemoryPoolDestroy | smartCalculatorClient/memory_pool.c:22-45 | terminates, frees exactly the pool's addresses in order; every field read and every free is of a live address |
| MemoryPool.FreesAreOwnedOnce | smartCalculatorClient/memory_pool.c:22-45 | the freed addresses are the blocks, the large nodes and the live large regions, each once |
| PoolLeaks.DestroyRestoresHeap | smartCalculatorClient/memory_pool.c:8-45 | create, any run, destroy: all frees are of distinct live addresses and the heap is the one before create |
| PoolRuns.ChainAfterAddBlock | smartCalculatorClient/memory_pool.c:46-70 | adding a block keeps the closed form of chain order, current and failure counters |
| PoolRuns.InvAfterRun | smartCalculatorClient/memory_pool.c:46-131 | the invariant of heap, chain, counters, slots and pieces holds after every run |
| PoolTheorems.SearchIsShort | smartCalculatorClient/memory_pool.c:60-67 | in every run a search visits one to seven blocks; current leaves the head exactly with the seventh added block and is the oldest one from the eighth on |
| PoolTheorems.SearchShrinks | smartCalculatorClient/memory_pool.c:60-67 | once current has left the head, every later search list is a suffix of the present one |
| PoolTheorems.AlignedEndsKeepPieces | smartCalculatorClient/memory_pool.c:95-115 | in a run whose block ends are aligned no request is served outside its block |
| PoolTheorems.PieceInside | smartCalculatorClient/memory_pool.c:95-115 | while no request escaped, each piece handed out in a run is 4-aligned and inside its block |
| PoolTheorems.EscapesIff | smartCalculatorClient/memory_pool.c:104-109 | a call is the first of a run to be served outside its block exactly if a block with an aligned free pointer outside serves it |
| PoolTheorems.SharingIsExactly | smartCalculatorClient/memory_pool.c:46-115 | while no request escaped: of two pieces of a run, the later shares bytes with the earlier exactly if the earlier is the one that came with the block, both are of that block, and the later is not empty |
| PoolTheorems.AllPiecesApartIff | smartCalculatorClient/memory_pool.c:46-115 | while no request escaped: all pieces of a run are disjoint exactly if every piece cut from an added block's free space is empty |
| PoolTheorems.LargeRequestServed | smartCalculatorClient/memory_pool.c:71-114 | in any run a request larger than the pool was created with returns a region that is new, of that size, 4-aligned, in a live node of the list and can be given back |
| PoolTheorems.LargeIsApart | smartCalculatorClient/memory_pool.c:71-94 | a live large region is 4-aligned, in one node only, disjoint from all other live large regions and, while no request escaped, from all pieces |
| PoolTheorems.ReturnsUnsharedMemoryIff | smartCalculatorClient/memory_pool.c:95-115 | while no request escaped, this one included: a call returns memory nobody uses exactly if it is empty, or the first block with room is the head, or none has room, or it is a large request |
| PoolTheorems.SharingHappens | smartCalculatorClient/memory_pool.c:65-69 | a run of three calls in which two pieces are the same four bytes |
| PoolTheorems.FitIsSoundIff | smartCalculatorClient/memory_pool.c:104-105 | in any run, a request that passes the fit test is served inside its block exactly if the aligned free pointer lies between the block's header and its end |
| PoolTheorems.EscapeHitsLarge | smartCalculatorClient/memory_pool.c:102-111 | a run in which no request escaped and the next one, served by the head, returns a live large region |
| PoolTheorems.FirstRequestInsideIff | smartCalculatorClient/memory_pool.c:8-21 | the first request of a new pool is served from its block, and lies in the region malloc gave exactly if size plus header does not wrap |
| PoolTheorems.HugePoolHappens | smartCalculatorClient/memory_pool.c:11-16 | for a pool of 2^32 - 1 bytes malloc is asked for 27, and the first byte is served behind them |
| PoolTheorems.EscapeHappens | smartCalculatorClient/memory_pool.c:104-109 | a five-byte pool whose second request is served behind the block |
| PoolTheorems.MultiplesKeepEndsAligned | smartCalculatorClient/memory_pool.c:53-56 | requests that are multiples of four keep every block end aligned |
| PoolTheorems.SlotsBalance | smartCalculatorClient/memory_pool.c:71-131 | non-empty slots are large allocations minus successful frees, in every run |
| PoolTheorems.ListGrowsIff | smartCalculatorClient/memory_pool.c:79-92 | a node is added exactly by a large request that finds none of the first four nodes empty |
| PoolTheorems.FreeWorksIff | smartCalculatorClient/memory_pool.c:117-131 | a non-null free succeeds exactly for live large regions, ends that region and changes nothing else |
| OrderLocks.StepMoves | smartCalculatorClient/client.c:162-222 | each step takes the one lock it asks for while holding none, gives back the one it holds, or leaves the locks alone |
| OrderLocks.StepKeepsAgreement | smartCalculatorClient/client.c:162-297 | every lock always says what the program points of the threads say |
| OrderLocks.NoDeadlock | smartCalculatorClient/client.c:162-198 | a thread that cannot step waits for a lock whose holder can, or for the outside world; some thread can always step |
| OrderLocks.SectionsEnd | smartCalculatorClient/client.c:162-297 | inside a critical section each own step brings the release nearer and other threads do not move it away |
| OrderSafety.StepKeepsSales | smartCalculatorClient/client.c:170-223 | class, price and weight in force, the locals copied from them and all orders stay consistent under every step |
| OrderSafety.StepKeepsLedger | smartCalculatorClient/client.c:184-198 | every step keeps the account of accept requests balanced |
| OrderFrames.StepKeepsFrames | smartCalculatorClient/client.c:233-240 | under byte-wise copying and scaling the bytes scaled so far always belong to one whole frame |
| OrderRuns.OrdersAreSound | smartCalculatorClient/client.c:170-222 | in every run each order has a class other than 255 that a classifier reply gave, a weight above 0.005 that the scale gave (or the initial one), the table price of its class, and a later reply than the order before |
| OrderRuns.AcceptLedger | smartCalculatorClient/client.c:184-198 | in every state accepts received are orders, drops, merged, pending in the flag, taken, and in the control thread's hands; orders never exceed accepts |
| OrderRuns.ImagesAreWhole | smartCalculatorClient/client.c:233-240 | every image sent is (a prefix of) one whole frame or the initial buffer, scaled; frames never go backwards |
| OrderRuns.PassesAreSound | smartCalculatorClient/client.c:139-179 | a pass stores ten samples before the test, fewer only when the scale has none; a light load resets class, price and weight before any other thread can look |
| OrderInputs.LogsAreInputs | smartCalculatorClient/client.c:144-270 | in every run, read off the events alone: complete frames are the initial buffer and the camera's images, weights stored the initial one and the scale's samples, replies the types the classifier sent, images sent as long as their writes, accepts received the requests, all in order |
| OrderDecisions.WeightDecides | smartCalculatorClient/client.c:170-179 | a pass goes on exactly if the weight is above 0.005 |
| OrderDecisions.SeenFlagsAreSettled | smartCalculatorClient/client.c:184-223 | in every run, as often as the flag was read set there is an order or a drop, but for the request being handled |
| OrderDecisions.RequestsAreDecided | smartCalculatorClient/client.c:192-222 | in every run a step inserts an order only for a taken request, and exactly of the class, weight and price in force; it drops one only if the class in force is 255; a taken request ends one way or the other unless the process exits |
| OrderDecisions.RequestsAreHandedOver | smartCalculatorClient/client.c:310-338 | a request handed over leaves the flag set and counts as merged exactly if it was set; nothing else sets it or merges |
| OrderDecisions.OrderDataChangesBy | smartCalculatorClient/client.c:144-295 | in every run the class changes only by a reply, a light load or its order, the price only to the table's or by a light load, the weight only by a sample or a light load |
| OrderDecisions.StoresHoldTheirLock | smartCalculatorClient/client.c:144-297 | a step that changes flag, order data or frame holds that field's lock for writing |
| OrderFlow.NothingIsPassedOver | smartCalculatorClient/client.c:137-297 | in every run each load found leads to one image sent or a dropped request, and each complete frame to one message or a failed encoding, but for those in hand |
| OrderFlow.FaultsEnd | smartCalculatorClient/client.c:147-262 | which faults end the process, and how the connection's threads end |
| OrderFlow.EmptyReads | smartCalculatorClient/client.c:147-162 | a read that would block is repeated and not counted, one without content ends the samples |
| OrderLocks.LockGrantedIff | smartCalculatorClient/client.c:162-198 | a lock call goes through exactly if no other thread holds the lock, or the call and all holders only read |
| OrderExamples.ImageHappens | smartCalculatorClient/client.c:233-240 | a run in which the image of a camera event reaches the classifier |
| OrderExamples.OrderHappens | smartCalculatorClient/client.c:184-216 | a run in which an accept request becomes an order of the class, weight and price in force |
| OrderMessages.StepKeepsShow | smartCalculatorClient/webserver.c:73-101 | every store adds a state of the order data and only a store does; the message being built and all messages sent are made of such states |
| OrderMessages.PriceInForceIff | smartCalculatorClient/client.c:269-295 | in every state the price in force is the table price of the reply priced last, or zero at the start and after a reset; outside the gap between the two stores that reply gave the class and the price is right, inside the gap it is an older one and the price is right exactly if the class of that reply costs the same (or none was priced and the class costs nothing) |
| OrderMessages.SnapshotIsOneState | smartCalculatorClient/webserver.c:73-77 | the snapshot under the read lock is one state of weight, price (both truncated) and class; its price is right outside the gap, and inside it exactly if the reply priced last is of a class with the same price as an int |
| OrderMessages.MessagesAreSound | smartCalculatorClient/webserver.c:73-101 | class, weight and price of every message come from states of the order data, the latter two not older than the first; with no store between the reads they are one state |
| OrderMessages.MessagePriceIff | smartCalculatorClient/webserver.c:98 | a message with a class shows the table price of that class exactly if the reply priced last before the price was read has that price, or if none was since the start or a reset and the price is zero |
| OrderExamples.StalePriceHappens | smartCalculatorClient/client.c:269-295 | a run in which the snapshot holds class 2 with price 0 although the table says 5 |
| OrderExamples.WrongMessageHappens | smartCalculatorClient/webserver.c:73-101 | a run in which the snapshot's state has class 2 with price 5, as in the table, and the message built from it shows class 2 with price 0 |
| OrderRuns.LocksAreSafe | smartCalculatorClient/client.c:162-198 | in every run a writer excludes all other holders of its lock and no live state is a deadlock |
| ByteOrder.Htonll | smartCalculatorClient/common.c:363-375 | storing the result puts the eight bytes of the argument into memory in network order |
| ByteOrder.Ntohll | smartCalculatorClient/common.c:378-391 | undoes htonll |
| ByteOrder.OrderOfBytes | smartCalculatorClient/common.c:363-391 | which byte weighs most in network order and in the host's memory |
| ByteOrder.SwapTwice | smartCalculatorClient/common.c:363-391 | swapping byte order twice is the identity, for any width |
| Rio.RioWriten | smartCalculatorClient/common.c:28-46 | for any script of short counts and errors the wire gets a prefix of the buffer, all of it exactly when n is returned |
| Rio.WriteFailsIff | smartCalculatorClient/common.c:33-45 | a write fails exactly if, before n bytes are moved, a call fails with another error than EINTR or moves nothing while errno is another |
| Rio.ReadFailsIff | smartCalculatorClient/common.c:11-25 | a read fails exactly if a call that is reached fails with another error than EINTR |
| Rio.HarmlessWritesAll | smartCalculatorClient/common.c:33-44 | short and interrupted calls alone never stop a write |
| Rio.HarmlessReadsAll | smartCalculatorClient/common.c:11-25 | short and interrupted calls alone never stop a read before the file ends |
| Rio.RioReadn | smartCalculatorClient/common.c:6-27 | the buffer gets a prefix of the file; without an error fewer than n bytes mean its end |
| Rio.Carry | smartCalculatorClient/common.c:6-46 | what rio_writen sends, rio_readn receives, exactly when neither reports an error, so always when calls are only short or interrupted |
| WebSocket.SendWebSocketHeader | smartCalculatorClient/websocketprotocl.c:72-101 | the wire gets the first bytes of the header for that length, as many as the one write call takes; false exactly when that call fails |
| WebSocket.FrameParsesIff | smartCalculatorClient/websocketprotocl.c:72-101 | the parser of section 5.2 of RFC 6455 reads header and payload back, shortest length form included, exactly if the reserved bits are clear and the length is below 2^63 |
| WebSocket.StreamParses | smartCalculatorClient/websocketprotocl.c:72-101 | a stream of such frames parses back to exactly the list of payloads |
| WebSocket.SentStreamParsesIff | smartCalculatorClient/webserver.c:107-114 | what a successful send put on the wire parses back to exactly the payloads if and only if the kernel took each header in one write |
| WebSocket.ShortNeverParses | smartCalculatorClient/websocketprotocl.c:72-101 | fewer bytes than the stream of some payloads never parse to them, since no other encoding of a frame is shorter |
| WebSocket.ShortHeaderHappens | smartCalculatorClient/websocketprotocl.c:94-95 | one byte of the header is taken, the send reports success, and the stream does not parse |
| WebSocket.SendAll | smartCalculatorClient/webserver.c:107-114 | result and bytes on the wire are those of the model for any script of the kernel; after success the stream parses back to the payloads exactly when the kernel delivered whole headers and payloads |
| WebSocket.MiddleHeaderBytes | smartCalculatorClient/websocketprotocl.c:77-93 | the header bytes for 126, 256 and 65535 |
| WebSocket.LongHeaderBytes | smartCalculatorClient/websocketprotocl.c:77-93 | the header bytes for 65536 |
| WebSocket.HelloParses | smartCalculatorClient/websocketprotocl.c:41-70 | the masked "Hello" of section 5.7 of RFC 6455 |
| WebSocket.MaskTwice | smartCalculatorClient/websocketprotocl.c:41-56 | masking is its own inverse for any payload and key |
| WebSocket.TransformData | smartCalculatorClient/websocketprotocl.c:41-56 | writes byte i of the payload xored with byte i mod 4 of the key, as in section 5.3, and nothing else |
| WebSocket.GetPocketData | smartCalculatorClient/websocketprotocl.c:58-70 | -1 exactly for unmasked and close frames; for 7-bit lengths the payload the parser of section 5.2 finds |
| WebSocket.ClientFrameParses | smartCalculatorClient/websocketprotocl.c:58-70 | a client's masked frame with a 7-bit length parses back to its payload |
| WebSocket.SizeFieldIff | smartCalculatorClient/websocketprotocl.c:5-20 | the size the code reads is the one of section 5.2 exactly for 7-bit lengths and the 16-bit length 0xFEFE |
| WebSocket.LongSizeIsWrong | smartCalculatorClient/websocketprotocl.c:12-13 | a frame of 200 bytes whose size is read as 65024 |
| Base64.LetterOfTable | smartCalculatorClient/common.c:277 | letters and values are those of the table, position by position |
| Base64.IsLetterIff | smartCalculatorClient/common.c:277 | the letters are exactly the characters of the table |
| Base64.EncodedExamples | smartCalculatorClient/common.c:284-313 | "+w==", "/w==" and "FPuc" for three inputs |
| Base64.LookUp | smartCalculatorClient/common.c:325-329 | the search loop leaves the letter's value, 0xFF for any other character |
| Base64.Base64Encode | smartCalculatorClient/common.c:279-316 | writes the encoding and its terminator, 4*ceil(n/3) characters, and nothing else |
| Base64.Base64Decode | smartCalculatorClient/common.c:317-360 | from any memory in which the decoder's reads stay, writes the decoded bytes and returns their number |
| Base64.ReadsInsideIff | smartCalculatorClient/common.c:317-360 | whatever lies behind the string, the decoder stays inside it and its terminator exactly for readable strings, and then decodes just the string |
| Base64.ReadsBeyondHappens | smartCalculatorClient/common.c:323-347 | of the string "AB" a fourth character is read |
| Base64.DecodeEncode | smartCalculatorClient/common.c:279-360 | decoding an encoding gives the bytes back, for any number of bytes |
| Base64.EncodeDecodeIff | smartCalculatorClient/common.c:317-360 | encoding a decoded string gives the string back exactly if it is canonical (sections 4 and 3.5 of RFC 4648) |
| Base64.NotCanonicalHappens | smartCalculatorClient/common.c:349-358 | "QR==" is decoded like "QQ==", so it does not come back |
| Base64.DecodeInjective | smartCalculatorClient/common.c:317-360 | two canonical strings that decode alike are equal |
| Base64.EncodedRegroups | smartCalculatorClient/common.c:284-313 | the letters carry the bits of the input in groups of six, filled up with zero bits |
| Base64.EncodedLength | smartCalculatorClient/common.c:284-313 | the encoding has 4*ceil(n/3) characters |
| Base64.EncodedPads | smartCalculatorClient/common.c:291-307 | of which 2, 1 or 0 are pads for n mod 3 = 1, 2, 0 |
| Base64.RoundTrip | smartCalculatorClient/common.c:279-360 | encoding into a buffer and decoding it again is the identity |
| Scale.ScaleRgb24 | smartCalculatorClient/jpeg_util.c:174-203 | for any sizes stays inside both buffers and writes nothing else; images that fit into memory get the bytes of 32-bit coordinates, which are the scaled image when the products fit |
| Scale.ScalesAllIff | smartCalculatorClient/jpeg_util.c:185-200 | the code scales every image right exactly if (nw-1)*ow and (nh-1)*oh are below 2^32 |
| Scale.ScaledPixel | smartCalculatorClient/jpeg_util.c:188-198 | pixel (x, y) of the intended image is pixel (floor(x*ow/nw), floor(y*oh/nh)) of the source |
| Scale.CodeScaledPixel | smartCalculatorClient/jpeg_util.c:188-198 | pixel (x, y) of what the code computes is the source's pixel at the quotients of the 32-bit products |
| Scale.CodeBytes | smartCalculatorClient/jpeg_util.c:188-198 | the same by byte positions in the two buffers |
| Scale.CoordIsFloor | smartCalculatorClient/jpeg_util.c:188-189 | the intended coordinate is the quotient rounded down |
| Scale.CoordExactIff | smartCalculatorClient/jpeg_util.c:188-189 | the 32-bit coordinate is the intended one exactly while its product is below 2^32 |
| Scale.CoordWraps | smartCalculatorClient/jpeg_util.c:188 | scaling a width of 65536 to 65537 reads the last column from column 0 |
| Scale.AllUsedIff | smartCalculatorClient/jpeg_util.c:188-189 | the intended scaling uses every source coordinate exactly when the size does not shrink |
| Scale.CodeUsesAllIff | smartCalculatorClient/jpeg_util.c:188-189 | the code uses every source coordinate exactly when the size does not shrink and (dst - dst/src)*src, the product for the first destination of the last one, is below 2^32 |
| Scale.CodeMissesColumn | smartCalculatorClient/jpeg_util.c:188 | scaling 65537 to itself leaves a source column unused |
| Scale.RestoresAllIff | smartCalculatorClient/jpeg_util.c:185-200 | the intended scaling to another size and back restores every image exactly if both sizes are multiples of the original ones |
| Scale.CodeRestoresAllIff | smartCalculatorClient/jpeg_util.c:185-200 | the code scales to v*u and back without loss, for every w*h image, exactly if v and u are multiples of w and h and (w-1)*v and (h-1)*u are below 2^32 |
| Scale.CodeLosesColumn | smartCalculatorClient/jpeg_util.c:188 | for 65537 by 1 and the same size, multiples that fit into memory, the intended scaling restores every image and the code does not |
| Hx711.Driver.ReadHx711Data | hx711_module/mini210_hx711.c:53-84 | the pulse loop and the xor leave the reading of the 24 bits in weight |
| Hx711.Reading | hx711_module/mini210_hx711.c:65-78 | the reading is the two's complement value of the bits plus 2^23, within 24 bits |
| Hx711.ReadingsInNumbers | hx711_module/mini210_hx711.c:65-78 | the first bit is the sign and the last weighs one |
| Hx711.ReadingIsMonotone | hx711_module/mini210_hx711.c:65-78 | readings are ordered as the signed values are and determine the bits |
| Hx711.FlipTopIsXor | hx711_module/mini210_hx711.c:78 | the arithmetic form of the flip is the 32-bit xor with 0x800000 |
| Hx711.Driver.Timer | hx711_module/mini210_hx711.c:85-101 | a tick delivers raw - baise if that is at least 1000 and 0 otherwise, exactly while the difference is an int |
| Hx711.TickedIsRightIff | hx711_module/mini210_hx711.c:92-96 | the delivered weight is the intended one exactly while the difference is an int; otherwise it is 0 |
| Hx711.DifferenceWraps | hx711_module/mini210_hx711.c:92 | the bits of the heaviest load, against the least base, deliver 0 |
| Hx711.Driver.Ioctl | hx711_module/mini210_hx711.c:137-149 | command 1 raises the base, 0 lowers it, others do nothing |
| Hx711.Driver.Mini210Hx711Read | hx711_module/mini210_hx711.c:120-135 | with ticks and signals anywhere, for any count and either blocking mode: what is returned, which tick's weight is copied, and whether an event is left |
| Hx711.ReadWeight | hx711_module/mini210_hx711.c:120-135 | the read of the tare loop returns a weight measured with the current base or the one before the last ioctl |
| Hx711.TareLoop | smartCalculatorClient_ui/pthreadbalance.cpp:14-28 | terminates for any readings and ticks with a bound on its ioctls; a steady load at 1000 or more above the base ends 400 to 999 above it for any ticks, and 700 to 999 above it after exactly the number of ioctls stated if there is a tick before each read |

## Left out

- client.c and webserver.c threads: each thread is a sequence of steps on values, so that any interleaving can be a run; the fields are not updated in place.
- weight scaling: the constants 0.00294 and 0.00248 and float rounding are not modelled; a sample is a real number of kilograms and `weight*base != 0.0` is `weight != 0`.
- atof and float prices: a price is a real number from the table.
- the text of the display's message: only class, weight and price are modelled, not the name, the image and the JSON around them.
- several display clients: the display thread serves one WebSocket connection after the other, as the source does; its HTTP handling is not modelled.
- MemoryPoolCreate: assumes that malloc succeeds, as the assert in the source does, and gives at least one byte (a size of 2^32 - 28 asks for none); what the header overwrites when it does not fit the region (FirstRequestInsideIff) is not modelled, runs start from pools whose size does not wrap, and the other operations also assume that malloc succeeds.
- Base64Encode: the int counters are unbounded, so inputs of more than about 1.6 * 10^9 bytes are not modelled as the source behaves; a negative length is not modelled.
- EncodeQuantum: collects the four characters before it stores them; the source stores each at once.
- FlipTop: is arithmetic; FlipTopIsXor ties it to the machine operation.
- RioReadn: a read of zero bytes before the end of the file is taken as one byte, since the kernel only returns 0 there at the end.
- ReadHx711Data: the wait for the chip and the delays are not modelled.
- ReadWeight: the kernel's copy to the loop's own variable is taken not to fault, since that memory is the caller's own stack; Mini210Hx711Read covers the fault, the other blocking mode and other counts.
- rio_read, rio_readlineb and rio_readnb: rio_read copies from the start of its buffer on each call, so there is no buffered-read contract to state.
- sendPocketData: stores one byte of a swapped length; no caller in the modelled loops uses it.
- JPEG, SHA-1, camera, MySQL, sockets, timers, semaphores, HTTP and the user interface: foreign code or string and widget handling.
- the copies of these files under smartCalculatorClient_ui: they repeat the modelled functions.
