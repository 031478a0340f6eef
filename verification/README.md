# ArdubotOS kernel, link and display models

This project models the parts of ArdubotOS whose correctness is hardest to see from the code, and proves what each of
them is for. Every component has two layers: functions that describe one step or one result, with the theorems about
whole runs; and classes and methods that update arrays and fields in place as the C and Python code does, proved
against those functions.

| files | component |
|---|---|
| `Bits`, `Lists`, `HeapModel`, `HeapSums`, `HeapOps`, `HeapMalloc`, `HeapRuns`, `Pool` | the TLSF allocator: tiling of the pool, free index, conservation, and low-water mark over every run |
| `Basics` | integer limits and Option, used by the others |
| `Bytes`, `Crc16`, `LinkFrame`, `LinkStream`, `StreamErrors` | frames and stream parsing: round trips, error detection, chunking, resynchronisation |
| `GcmBits`, `Gcm`, `GcmCtr`, `LinkSession`, `LinkNonce`, `LinkHello` | AES-GCM against NIST SP 800-38D, sealed sessions over a lossy channel, the handshake |
| `Bresenham`, `Display` | the line loop against the exact line, rectangles, dirty rows |
| `SchedModel`, `SchedInv`, `SchedSteps`, `SchedIff`, `SchedTick`, `SchedRuns`, `SchedEffects`, `SchedSleep`, `SchedInit`, `SchedMisuse`, `Scheduler` | the cooperative scheduler: partition of the slots over its lists, priorities, waking |
| `TimerModel`, `TimerList` | the sorted timer list and the loop that drains it |
| `Crc32`, `CrcCheck`, `ModuleImage`, `ImageErrors`, `Ota` | table-driven CRC-32, module images, firmware writing in pieces |
| `GovModel`, `GovRules`, `Frequencies`, `Governor` | the power governor as a state machine, and its pick from the frequency table |

Pointers are integers with -1 for null, and the link fields of structs are maps from node to links, so pointer code is
modelled write by write. Widths matter in several places and are written out: size_t and pointers of 32 or 64 bits
and bucket indices of a truncated size in the allocator, 16-bit rectangle corners, 32-bit tick and load counters,
64-bit timer expiry.

Some properties one would expect do not hold for all inputs. Each of these has an if-and-only-if theorem with a
condition the caller can test beforehand:

- `HeapRuns.MallocHonestIff`: a request beyond 32 bits, or close to the end of size_t, can be given a block that is too
  short.
- `HeapMalloc.MallocKeepsIff`, `HeapRuns.SafeIff`: a request close to the end of size_t can make malloc overwrite the
  header of the block it hands out.
- `LinkFrame.StraddleEscapesIff`: two adjacent wrong bytes on both sides of the payload's end can escape the checksum.
- `Display.RectExactIff`: a rectangle whose far corner passes 32767 is not drawn.
- `SchedIff.DeleteIff`, `SuspendIff`, `ResumeIff`, `StepIff` and, over runs, `SchedRuns.RunGoodIff`: the calls that break
  the scheduler's lists. `SchedMisuse` has a run from start-up for each.
- `SchedSleep.OnTimeIff`, `SchedRuns.SleepThenTickless`: sleeps across the counter wrap end at once, one of no ticks at the
  last value of the counter lasts for 2^32 ticks, and tickless idle can pass a fresh sleeper.
- `ImageErrors.ChangeEscapesIff`: a change of four adjacent bytes across an end of an image's checksum can escape it.
- `GovRules.FullIs`: a window of more than 42949672 busy steps can be taken for one that is not full.
- `TimerModel.TerminatesIff`, `DelayKeptIff`: a timer with period zero never lets the loop end; a one-shot timer is due
  as soon as it is started, whatever delay it was created with.
- `Frequencies.OrderIff`, `RefusalHarmlessIff`: two-entry frequency tables; refused tables.

Inputs from outside are arguments: the AES block cipher is any function on blocks, the storage driver's verdict, the
sensor's readings, the callback's verdict on a frame, the clock, and whether a stack or the memory of a loaded module
could be had.

## Model

| member | source | states |
|---|---|---|
| `Bits.FlsIsLog2` | kernel/alloc.c:35-57 | the branching bit search is the floor of the base-two logarithm on every 32-bit number |
| `HeapModel.AlignUp` | kernel/alloc.c:31-31 | the least multiple of 4 that is not below its argument |
| `Lists.PushLinked` | kernel/alloc.c:85-94 | putting a node in front of a list that is linked both ways gives a list linked both ways |
| `Lists.BypassLinked` | kernel/alloc.c:96-107 | unlinking any node leaves exactly the other nodes, linked both ways, with the right head |
| `Lists.GraftLinked` | kernel/alloc.c:109-134 | putting a node in behind another keeps the chain linked both ways |
| `HeapModel.ChainOrder` | kernel/alloc.c:109-134 | in a tiled pool a block further along starts at or past the end of every earlier one |
| `HeapModel.InsertFreeWF` | kernel/alloc.c:85-94 | listing a held block keeps the whole heap well formed: tiling, and each free block on the one list of its bucket |
| `HeapModel.RemoveFreeWF` | kernel/alloc.c:96-107 | unlisting a free block keeps the heap well formed |
| `HeapModel.SplitWF` | kernel/alloc.c:109-134 | cutting a held block in two keeps the heap well formed |
| `HeapModel.SplitFresh` | kernel/alloc.c:115-118 | the header a split writes lies where no other block has its header |
| `HeapModel.JoinWF` | kernel/alloc.c:136-159 | joining two held neighbours keeps the heap well formed |
| `HeapSums.InsertFreeSize` | kernel/alloc.c:375-387 | listing a block adds its size and header to the walked free size |
| `HeapSums.RemoveFreeSize` | kernel/alloc.c:375-387 | unlisting a block takes its size and header off the walked free size |
| `HeapSums.SplitFreeSize` | kernel/alloc.c:109-134 | cutting a held block leaves the walked free size alone |
| `HeapSums.JoinFreeSize` | kernel/alloc.c:136-159 | joining held blocks leaves the walked free size alone |
| `HeapSums.SplitUsed` | kernel/alloc.c:109-134 | cutting a held block leaves the bytes of used blocks alone |
| `HeapSums.JoinUsed` | kernel/alloc.c:136-159 | joining held blocks leaves the bytes of used blocks alone |
| `HeapOps.PastBucketFits` | kernel/alloc.c:59-75 | a block from any bucket past the start bucket is larger than the request, so it may be taken unchecked |
| `HeapOps.SearchCorrect` | kernel/alloc.c:194-210 | the bucket search finds a free block that is large enough exactly when there is one, for needs of 32 bits |
| `HeapOps.SearchFirst` | kernel/alloc.c:197-210 | the block taken is the first of the start bucket that is large enough, or else the head of the lowest larger bucket that is not empty |
| `HeapOps.CarveMid` | kernel/alloc.c:109-134 | splitting the block just taken accounts for every byte and leaves no two free neighbours |
| `HeapOps.AbsorbMid` | kernel/alloc.c:136-159 | taking in a free neighbour accounts for every byte |
| `HeapOps.AllocateSteady` | kernel/alloc.c:194-227 | handing out a block of any rounded size keeps tiling, free index, no two free neighbours, and used plus walked free bytes equal to the total |
| `HeapMalloc.MallocExact` | kernel/alloc.c:190-228 | in 32-bit and in 64-bit size_t: as long as the rounded size and a header fit, malloc is the one of unbounded numbers |
| `HeapMalloc.MallocKeepsIff` | kernel/alloc.c:109-228 | for every request: the memory malloc leaves can be read as a heap with that invariant exactly when the sum of size and header does not run over size_t, or the block then found is missing or too short to be cut |
| `HeapMalloc.TornHeader` | kernel/alloc.c:109-134 | otherwise, wherever the pool lies in memory, the new header is written over the own header of the block, and the size the block is left with reaches past the end of the pool |
| `HeapOps.FreeSteps` | kernel/alloc.c:358-373 | every intermediate state of free is well formed, and the merged block has no free neighbour |
| `HeapOps.FreeSteady` | kernel/alloc.c:358-373 | free keeps the same invariant and lowers the used count by exactly the block with its header, or by nothing for a pointer that is not live |
| `HeapRuns.SafeIff` | kernel/alloc.c:194-215 | a request keeps the invariant of every heap exactly when its rounded size and a header fit size_t |
| `HeapRuns.TornHeap` | kernel/alloc.c:109-134 | the inputs that fail: for every request that does not fit, a pool of one block that malloc leaves without the invariant |
| `HeapRuns.Run` | kernel/alloc.c:190-228 | every run of frees of any pointers and of mallocs that do not tear a block, wrapped requests included, in any order, keeps the invariant |
| `HeapRuns.SafeRun` | kernel/alloc.c:190-228 | every run in which all sizes fit size_t with a header is such a run, from any heap |
| `HeapRuns.MallocAdds` | kernel/alloc.c:190-228 | a malloc that does not tear its block adds it to the used ones and leaves every other used block where and as it was |
| `HeapRuns.FreeRemoves` | kernel/alloc.c:358-373 | free takes exactly its block out of the used ones; any other pointer changes nothing |
| `HeapRuns.CreateSteady` | kernel/alloc.c:161-186 | a new pool satisfies the invariant, is all free, and has no used block |
| `HeapRuns.LivePayloads` | kernel/alloc.c:109-228 | in every reachable state payloads are inside the pool, 4-aligned, and disjoint from every other block |
| `HeapRuns.MallocComplete` | kernel/alloc.c:194-227 | for 32-bit requests malloc returns NULL exactly when no free block has the aligned size plus a header, and never gives less than asked |
| `HeapRuns.MallocHonestIff` | kernel/alloc.c:59-75 | for all requests, wrapped ones included: malloc gives a block that is long enough, or NULL when there is none, exactly when the need fits 32 bits, or fits size_t and all buckets past that of the truncated need are empty, or wraps and no free block has what is left of it |
| `HeapRuns.LargestRequest` | kernel/alloc.c:31-31 | the input that fails in size_t: a request of all its bits rounds to nothing and is given a block of 60 bytes |
| `HeapRuns.WideRequestShort` | kernel/alloc.c:59-75 | the input that fails: a request of 2^32 bytes is given a 64-byte block |
| `HeapRuns.AllFreed` | kernel/alloc.c:358-373 | when no block is used the pool is one free block over all of it, on the right list |
| `HeapRuns.FreeAll` | kernel/alloc.c:358-373 | freeing all live blocks, in any order, leaves one free block spanning the pool |
| `HeapRuns.MinFreeIsLowWater` | kernel/alloc.c:217-221 | over every such run, min_free is the least free size of any state, and some state reached it |
| `Pool.Pool.Index` | kernel/alloc.c:59-75 | the index arithmetic is the bucket of the narrowed size |
| `Pool.Pool.BlockInsertFree` | kernel/alloc.c:85-94 | the pointer writes do what listing the block does to the abstract heap |
| `Pool.Pool.BlockRemoveFree` | kernel/alloc.c:96-107 | the pointer writes do what unlisting the block does |
| `Pool.Pool.BlockSplit` | kernel/alloc.c:109-134 | the header writes do what carving does; nothing is cut when the rest would be too small |
| `Pool.Pool.BlockMerge` | kernel/alloc.c:136-159 | the pointer writes join the block with its free neighbours, the previous one first |
| `Pool.Pool.FindFit` | kernel/alloc.c:197-210 | the two loops over the buckets compute the search |
| `Pool.Pool.ScanBucket` | kernel/alloc.c:204-208 | the scan of the start bucket finds its first block that is large enough |
| `Pool.Pool.PoolFreeSize` | kernel/alloc.c:375-387 | the walk over all lists sums the free blocks with their headers |
| `Pool.Pool.Malloc` | kernel/alloc.c:190-228 | the method takes the pool to the heap and pointer the abstract malloc gives, or stops at the write that tears the block and reports its place and size |
| `Pool.Pool.Free` | kernel/alloc.c:358-373 | the method takes the pool to the heap the abstract free gives |
| `Pool.TlsfCreate` | kernel/alloc.c:161-186 | refuses null memory and pools too small for one block; otherwise the pool is the fresh heap |
| `Crc16.LinkCrc16` | link/link_frame.c:5-20 | the nested loops compute the byte-wise fold of the register |
| `Crc16.RunConcat` | link/link_frame.c:5-20 | the register after a concatenation is that after its parts in turn |
| `Crc16.RunLinear` | link/link_frame.c:5-20 | the checksum is linear over GF(2) in register and data together |
| `Crc16.RunOneToOne` | link/link_frame.c:5-20 | for fixed data the register is mapped one to one |
| `Crc16.ShortErrorDetected` | link/link_frame.c:5-20 | inputs that differ in one byte or two adjacent bytes have different checksums |
| `CrcCheck.CheckValue16` | link/link_frame.c:5-20 | the checksum of the digits 1 to 9 is 0x29B1, the check value of CRC-16/CCITT-FALSE |
| `LinkFrame.Encode` | link/link_frame.c:22-48 | writes header, payload and checksum, or refuses an over-long payload or short buffer and writes nothing |
| `LinkFrame.LinkFrameDecode` | link/link_frame.c:50-81 | returns the frame and the bytes used exactly when magic, length and checksum are right; else -1 and the frame as it was |
| `LinkFrame.WireLayout` | link/link_frame.c:22-48 | byte by byte where the encoding puts magic, fields, payload and checksum, low bytes first, and that version 0 goes out as 1 |
| `LinkFrame.RoundTrip` | link/link_frame.c:22-81 | decoding undoes encoding whatever follows the frame, up to version 0 becoming 1 and a zeroed payload tail |
| `LinkFrame.DecodeSound` | link/link_frame.c:50-81 | nothing else is accepted: accepted bytes are the encoding of what they decode to |
| `LinkFrame.CorruptionRejected` | link/link_frame.c:57-70 | an encoded frame hit in one byte or two adjacent ones before the length field, in the payload or in the checksum is rejected |
| `LinkFrame.RaisedLengthRejected` | link/link_frame.c:57-70 | an encoded frame hit anywhere so that its length field names more than was sent is rejected |
| `LinkFrame.StraddleEscapesIff` | link/link_frame.c:57-70 | errors in the last payload byte and the low checksum byte together escape exactly when the checksum maps one to the other |
| `LinkFrame.StraddleGap` | link/link_frame.c:57-70 | such a pair of errors exists for every frame with a payload |
| `LinkStream.ParseSplit` | scripts/link_codec.py:154-179 | parsing a prefix and then its leftovers with the rest is parsing the whole |
| `LinkStream.RestWaits` | scripts/link_codec.py:154-179 | the leftovers hold nothing that could be acted on |
| `LinkStream.ChunkingIrrelevant` | scripts/link_codec.py:148-179 | however a byte stream is cut into pushes, the same frames come out and the same bytes stay behind |
| `LinkStream.GarbageSkipped` | scripts/link_codec.py:154-179 | garbage without the magic pair in front of a frame changes nothing |
| `LinkStream.Resync` | link/link_frame.c:22-81 | garbage without the magic, then any frames: exactly those frames come out, in order, with nothing left, each decoding to its original |
| `LinkStream.FrameStream.Push` | scripts/link_codec.py:154-179 | the loop returns the frames of the parse and keeps its leftovers |
| `LinkStream.FrameStream.Advance` | scripts/link_codec.py:158-178 | one turn waits, drops one byte, or hands out the frame in front, as the parse does |
| `LinkStream.FindMagic` | link/link_frame.c:165-168 | the scan stops at the first magic pair, or at the last byte |
| `LinkStream.BoundedStream.Append` | link/link_frame.c:178-184 | a byte is added; a full buffer loses its oldest byte |
| `LinkStream.BoundedStream.Fill` | link/link_frame.c:178-184 | the filling loop keeps the last 251 bytes of contents and input |
| `LinkStream.BoundedStream.Push` | link/link_frame.c:170-225 | delivers the frames of the bounded parse, stops at a refused frame, and keeps the right bytes |
| `LinkStream.DeliverAccepting` | link/link_frame.c:170-225 | with a callback that takes every frame, delivery is parsing |
| `LinkStream.BoundedAgrees` | link/link_frame.c:170-225 | a push that fits the buffer, with every frame taken, does what the unbounded parser does |
| `LinkStream.FitRunAgrees` | link/link_frame.c:170-225 | over every run of pushes that each find room, with every frame taken, the bounded parser does what the unbounded one does |
| `LinkStream.FitRunWhole` | link/link_frame.c:170-225 | so the frames and leftovers are those of the whole stream, however it is cut into such pushes |
| `LinkStream.ByteFed` | link/link_frame.c:170-225 | fed a byte at a time the bounded parser finds in every stream what the unbounded one finds in the whole |
| `LinkStream.ByteFedResync` | link/link_frame.c:165-225 | so fed, garbage and then frames give exactly the frames |
| `LinkStream.OverflowLosesFrame` | link/link_frame.c:178-184 | one byte too many in one push can cost a frame |
| `StreamErrors.NextIff` | link/link_frame.c:186-224 | a frame is handed out exactly when the buffer starts with a right one, and a byte is dropped only where none can start, whatever follows |
| `StreamErrors.ParseSound` | scripts/link_codec.py:154-179 | every frame that comes out, of any bytes, has the right magic and checksum and exactly the length its header names |
| `StreamErrors.BoundedSound` | link/link_frame.c:170-225 | so does every frame the callback is given, over every run of pushes, overflows and refusals included |
| `StreamErrors.HitNeverFound` | link/link_frame.c:212-217 | a frame hit in one byte or two adjacent ones, where that is always noticed, comes out of no stream |
| `StreamErrors.HitSkipped` | scripts/link_codec.py:154-179 | frames, a hit frame without a further magic pair, frames: exactly the intact ones come out |
| `StreamErrors.HitSkippedBounded` | link/link_frame.c:170-225 | the same of the bounded parser, however the stream is cut into pushes that find room |
| `StreamErrors.RefusalConserves` | link/link_frame.c:218-224 | a refused frame is the first one not taken and stays in front; frames taken and frames still to come are all frames of the buffer |
| `LinkHello.TlvPut` | link/link_frame.c:83-100 | appends tag, length and value, or refuses and changes nothing; a count at the end of size_t wraps, and the front of the field is then written in front of the buffer |
| `LinkHello.TlvGet` | link/link_frame.c:138-163 | the loop finds the first field under the tag, if it fits the caller's buffer |
| `LinkHello.GetPutAll` | link/link_frame.c:83-163 | reading back any list of written fields gives the first value under the tag |
| `LinkHello.HelloRead` | link/link_session.c:33-55 | a Hello read back carries version, key id and session number |
| `LinkHello.HelloBytes` | link/link_session.c:33-55 | the ten bytes of a Hello |
| `LinkHello.AcceptIff` | link/link_session.c:57-95 | a frame of written fields opens a session exactly when it is a plain Hello with the right version, the own key id and a session number, which the host takes unless it is zero; otherwise nothing changes |
| `LinkHello.Handshake` | link/link_session.c:33-95 | two Hello frames leave both ends open, with one session number and counters at zero, ready to talk |
| `LinkHello.LinkEnd.Accept` | link/link_session.c:57-95 | the method updates the fields as the abstract handshake step does |
| `LinkHello.LinkEnd.Seal` | link/link_session.c:107-142 | writes the sealed frame and counts up, or refuses and writes nothing; a buffer that is too short spends the counter |
| `LinkHello.LinkEnd.Open` | link/link_session.c:144-186 | returns the plain frame and moves the receive counter, or refuses and keeps it; a wrong tag leaves the output frame cleared, any other refusal as it was |
| `LinkSession.SealIff` | link/link_session.c:107-142 | a counter is spent exactly when the session is open and the text has at most 216 bytes; a frame comes out exactly when it also fits the buffer |
| `LinkSession.OpenIff` | link/link_session.c:144-186 | a frame is accepted exactly when the session is open, the flag set, the counter ahead and the last 16 bytes its tag; the plain frame is then the same header without the flag, with the text unmasked |
| `LinkSession.AadOneToOne` | link/link_session.c:97-105 | the authenticated bytes determine version, flags, channel, message id, length and counter |
| `LinkSession.OpenMonotone` | link/link_session.c:144-186 | the receive counter rises on acceptance and stays on refusal, whatever the frame |
| `LinkSession.SealOpen` | link/link_session.c:107-186 | seal, encode, decode, open is the identity on channel, message id and every plaintext of at most 216 bytes |
| `LinkSession.ReplayRefused` | link/link_session.c:144-186 | a frame of the peer whose counter is not ahead is refused and changes nothing |
| `LinkSession.RunInv` | link/link_session.c:107-186 | sent frames, their counters, accepted plaintexts and both ends stay in step over every interleaving of seals, into buffers of any size, and deliveries |
| `LinkSession.InOrderOnce` | link/link_session.c:107-186 | both ends send, and buffers that are too short spend counters: whatever the channel drops, repeats or reorders, what each end accepts is an in-order, duplicate-free subsequence of what the other put on the wire |
| `LinkSession.FreshAccepted` | link/link_session.c:144-186 | in both directions, a frame delivered before any later one is accepted |
| `LinkNonce.NonceParts` | link/link_session.c:17-31 | direction, key id, session number and the whole 64-bit counter can be read off a nonce |
| `LinkNonce.NonceOneToOne` | link/link_session.c:17-31 | nonces are one to one |
| `LinkNonce.SealUses` | link/link_session.c:107-142 | what seal puts out is masked and tagged under the nonce of its direction and the next counter |
| `LinkNonce.NoncesDistinct` | link/link_session.c:107-142 | over every run of both ends no nonce is used twice, frames that found no room included |
| `LinkNonce.WiresDistinct` | link/link_session.c:107-142 | in every reachable state no two frames on the wires of both directions were sealed under the same nonce |
| `LinkNonce.BlocksApart` | link/link_crypto.c:226-269 | counter blocks of different nonces, or of different places under one, differ, and none is the zero block |
| `LinkNonce.MaskedWith` | link/link_crypto.c:226-243 | byte k of a text is masked with counter block k / 16 + 1 of its nonce; the tag has block 0 |
| `LinkNonce.BlocksOnce` | link/link_session.c:107-142 | so within a session no input of the block cipher comes up twice: not among all counter blocks of all messages, nor with the block of the hash key |
| `GcmBits.MulDistributes` | link/link_crypto.c:148-164 | the block product of section 6.3 of NIST SP 800-38D is linear in both operands |
| `GcmBits.MulCommutes` | link/link_crypto.c:148-164 | the product commutes and 100...0 is its one |
| `GcmBits.ReducesTo` | link/link_crypto.c:136-146 | the power 128 of the unknown is 1 + x + x^2 + x^7 |
| `Gcm.XorBlock` | link/link_crypto.c:129-134 | the loop is the bitwise sum of two blocks |
| `Gcm.ShiftRightBlock` | link/link_crypto.c:136-146 | the byte loop is one step of V in section 6.3: shift right, and add R when a one falls out |
| `Gcm.GcmMul` | link/link_crypto.c:148-164 | the byte and bit loops compute the block product |
| `Gcm.GhashUpdate` | link/link_crypto.c:166-184 | the loop hashes the data block by block, the last one padded with zeros |
| `Gcm.GhashConcat` | link/link_crypto.c:166-184 | hashing in pieces is hashing the whole when the first piece is whole blocks |
| `Gcm.GhashPadded` | link/link_crypto.c:166-184 | padding the last block beforehand makes no difference |
| `Gcm.PutBe64` | link/link_crypto.c:186-192 | writes the number in eight bytes, high byte first |
| `Gcm.TagInPieces` | link/link_crypto.c:204-224 | the three hash calls together hash the one padded string of section 7.1 |
| `Gcm.GcmTag` | link/link_crypto.c:204-224 | computes the tag of section 7.1 |
| `Gcm.LengthsAre` | link/link_crypto.c:212-218 | the lengths block holds both lengths in bits, that of the additional data first |
| `Gcm.TagOfTwo` | link/link_crypto.c:204-224 | the tag of one block of each kind, spelled out as three products and the encrypted J0 |
| `Gcm.TagOfNothing` | link/link_crypto.c:204-224 | the tag of nothing is the encrypted J0 |
| `GcmCtr.CarryAdds` | link/link_crypto.c:194-202 | the carry from byte to byte adds one, modulo the size of the field |
| `GcmCtr.Inc32` | link/link_crypto.c:194-202 | the carry loop adds one to the last word modulo 2^32 and leaves the other twelve bytes |
| `GcmCtr.CountersDistinct` | link/link_crypto.c:226-243 | all counter blocks of one message, and its J0, are distinct |
| `GcmCtr.CtrXor` | link/link_crypto.c:226-243 | whole blocks and a partial one are masked with the key stream |
| `GcmCtr.CtrInvolutive` | link/link_crypto.c:226-243 | counter mode undoes itself, for every length |
| `GcmCtr.AesGcmEncrypt` | link/link_crypto.c:245-269 | ciphertext and tag are those of section 7.1 |
| `GcmCtr.TagsDiffer` | link/link_crypto.c:293-295 | the accumulated difference is zero exactly when the tags are equal |
| `GcmCtr.AesGcmDecrypt` | link/link_crypto.c:271-304 | refuses a wrong tag before anything is decrypted; otherwise gives the plaintext of section 7.2 |
| `GcmCtr.DecryptEncrypt` | link/link_crypto.c:245-304 | decryption gives back what was encrypted, for every length |
| `Bresenham.RoundIff` | hal/display_fb.c:79-106 | a number is the rounding of a quotient exactly when it is at most half a unit off |
| `Bresenham.HalfPixel` | hal/display_fb.c:79-106 | every plotted point deviates from the exact line by half a pixel at most, on the minor axis |
| `Bresenham.NextMinor` | hal/display_fb.c:97-104 | the minor axis advances exactly when the half-pixel bound asks for it |
| `Bresenham.LineInBox` | hal/display_fb.c:79-106 | the line stays in the box of its ends, starts at one, and is at the other after exactly max(dx, dy) steps |
| `Display.ErrStep` | hal/display_fb.c:97-104 | the error term decides both axes as the rounding does and stays in step |
| `Display.NextPoint` | hal/display_fb.c:97-104 | the two tests of the loop move to the next point of the exact line |
| `Display.FrameBuffer.constructor` | hal/display_fb.c:5-15 | a new buffer has the given pixels and nothing dirty |
| `Display.FrameBuffer.MarkRows` | hal/display_fb.c:17-33 | the dirty span grows to the hull; an empty range changes nothing |
| `Display.FrameBuffer.DrawPixel` | hal/display_fb.c:35-41 | sets one pixel and marks its row; off-screen points change nothing |
| `Display.FrameBuffer.FillRect` | hal/display_fb.c:43-77 | fills exactly the clipped box and marks its rows |
| `Display.FrameBuffer.DrawLine` | hal/display_fb.c:79-106 | the unbounded loop ends, and plots and marks exactly the points of the rounded line |
| `Display.FrameBuffer.DirtyRows` | hal/display_fb.c:108-119 | reports the first dirty row and the number of rows, or nothing |
| `Display.FrameBuffer.ClearDirty` | hal/display_fb.c:121-128 | nothing is dirty afterwards |
| `Display.MarkHull` | hal/display_fb.c:17-33 | the span stays the hull of all rows marked |
| `Display.RectExactIff` | hal/display_fb.c:52-65 | the code fills the visible part of the rectangle exactly when its far corner fits 16 bits, or nothing is visible |
| `Display.RectLost` | hal/display_fb.c:52-65 | the input that fails: a visible rectangle that is not drawn because its right edge passes column 32767 |
| `Display.DirtyExact` | hal/display_fb.c:17-128 | after any drawing since the last clear, every changed pixel is in a dirty row and the span is the hull of the rows touched |
| `Display.VisibleIff` | hal/display_fb.c:52-65 | a point of the screen is in the clipped box exactly when it is in the rectangle |
| `Display.FilledPixel` | hal/display_fb.c:43-77 | every pixel of a filled box has the colour and every other one is as it was |
| `Display.PlottedPixel` | hal/display_fb.c:35-106 | every visible point of a line has the colour and every other pixel is as it was |
| `Lists.BypassOther` | kernel/scheduler.c:49-59 | unlinking from one list leaves every disjoint list as it was |
| `SchedInv.RemoveSpells` | kernel/scheduler.c:49-59 | removing a slot from one of the seven lists leaves all of them acyclic, with correct back links, and disjoint |
| `SchedInv.AddSpells` | kernel/scheduler.c:40-47 | adding an unlisted slot to a list leaves all of them acyclic, with correct back links, and disjoint |
| `SchedSteps.PickFacts` | kernel/scheduler.c:66-73 | the picked slot is ready, not idle, first on its list, and no ready slot has a higher priority; none is picked exactly when all such lists are empty |
| `SchedSteps.YieldKeeps` | kernel/scheduler.c:339-371 | yield keeps the partition and at most one running slot besides main |
| `SchedSteps.SleepKeeps` | kernel/scheduler.c:373-402 | sleep keeps the invariant |
| `SchedSteps.FinishKeeps` | kernel/scheduler.c:217-226 | the end of an entry function keeps the invariant |
| `SchedSteps.CreateKeeps` | kernel/scheduler.c:228-302 | create keeps the invariant, also when the stack or the context cannot be set up |
| `SchedIff.DeleteIff` | kernel/scheduler.c:304-337 | delete keeps the invariant exactly when the slot is not free already (but for an unused one further down the free list) and is not the suspended main |
| `SchedIff.SuspendIff` | kernel/scheduler.c:404-450 | suspend keeps the invariant exactly when it is not given the unused slot next in line |
| `SchedIff.ResumeIff` | kernel/scheduler.c:454-466 | resume keeps the invariant exactly when it is not given the suspended main |
| `SchedIff.StepIff` | kernel/scheduler.c:188-215 | step keeps the invariant exactly when main calls it or nothing is dispatched |
| `SchedInv.ChainIs` | kernel/scheduler.c:491-500 | following the next pointers of a well linked list gives that list |
| `SchedTick.NextWakeMin` | kernel/scheduler.c:567-577 | the loop computes the least wake time, or the start value |
| `SchedTick.TickExact` | kernel/scheduler.c:486-520 | a tick makes exactly the blocked slots with wake_time reached ready, changes nothing else, and records the least wake time of those left |
| `SchedRuns.KeepsIff` | kernel/scheduler.c:188-520 | each operation keeps the invariant exactly when it is used legally |
| `SchedRuns.RunKeeps` | kernel/scheduler.c:188-520 | after every legal run, legality being a test of the state before each call, each slot is on the list its state and priority name or, when unused, on the free list, main and the running slot on none, and one slot besides main runs at most |
| `SchedRuns.RunGoodIff` | kernel/scheduler.c:188-520 | a run from a good state passes through good states only exactly when it is legal |
| `SchedRuns.Dispatch` | kernel/scheduler.c:188-215 | step runs a slot of maximal priority among the ready ones, never the idle one, changes no other, and does so exactly when there is one |
| `SchedRuns.YieldHandsOver` | kernel/scheduler.c:350-367 | yield makes the caller ready and hands over to the best of the others, or to main |
| `SchedRuns.CreateEffect` | kernel/scheduler.c:228-302 | create succeeds exactly when a slot is free and the priority in range; the slot becomes ready, first on its list, or goes back, and no other record changes |
| `SchedRuns.CreateDelete` | kernel/scheduler.c:228-337 | deleting what was just created frees the same slot and leaves every other record alone |
| `SchedRuns.SuspendResume` | kernel/scheduler.c:404-466 | resuming undoes suspending; a sleeper comes back ready at once |
| `SchedRuns.DeleteEffect` | kernel/scheduler.c:304-337 | a deleted slot is terminated and next in line; refused calls change nothing, and no other record changes |
| `SchedEffects.SelfSuspend` | kernel/scheduler.c:404-450 | a task that suspends itself is Suspended, and the best waiting task runs, or main when there is none; no other record changes |
| `SchedEffects.SelfSuspended` | kernel/scheduler.c:404-450 | so any task but main is left Suspended, with nothing else in its record changed |
| `SchedEffects.ResumeEffect` | kernel/scheduler.c:454-466 | a suspended slot becomes ready, first on its list; any other is left alone |
| `SchedEffects.SelfResumed` | kernel/scheduler.c:404-466 | a task that suspended itself and is resumed is as it was, but ready and first on its list |
| `SchedEffects.SuspendedRun` | kernel/scheduler.c:188-520 | over every legal run a suspended task stays as it is until it is resumed or deleted |
| `SchedEffects.SuspendIgnored` | kernel/scheduler.c:404-450 | suspending another slot does nothing exactly when it is neither ready nor blocked |
| `SchedEffects.FinishEffect` | kernel/scheduler.c:217-226 | a task whose entry returns is Terminated, on no list, and main runs; resuming it does nothing |
| `SchedEffects.YieldEffect` | kernel/scheduler.c:339-371 | a task that yields is ready, first on its list, and hands over to the best waiting task or main; no other record changes |
| `SchedEffects.MainYields` | kernel/scheduler.c:339-371 | main, yielding, makes the best waiting task run; without one nothing happens |
| `SchedEffects.SleepEffect` | kernel/scheduler.c:386-401 | a task that sleeps is blocked, first on the blocked list, main runs, and no other record changes |
| `SchedEffects.StartEffect` | kernel/scheduler.c:173-186 | the first start makes the best waiting task run; a second one does nothing |
| `SchedEffects.TicklessIff` | kernel/scheduler.c:618-650 | tickless idle moves the counter, and nothing else, exactly when it is on and another wake-up is recorded |
| `SchedRuns.SleeperStep` | kernel/scheduler.c:373-520 | only a tick that reaches its wake time touches a sleeping slot that no call is aimed at |
| `SchedRuns.SleeperRun` | kernel/scheduler.c:373-520 | over every legal run such a slot stays asleep until the first tick whose count reaches wake_time, and is ready on that tick |
| `SchedRuns.SleepRecords` | kernel/scheduler.c:386-401 | the caller of sleep is blocked until the given number of ticks later |
| `SchedSleep.OnTimeIff` | kernel/scheduler.c:373-520 | in every legal run that leaves the sleeper alone: a sleep of n ticks lasts to the nth tick and ends on it exactly when the sum with the counter fits 32 bits or the counter is at its last value; one of no ticks ends on the next tick exactly when the counter is not at its last value |
| `SchedSleep.MissedRound` | kernel/scheduler.c:386-401 | a sleep of no ticks at the last value of the counter lasts for 2^32 ticks, in every such run |
| `SchedMisuse.ZeroSleepRun` | kernel/scheduler.c:386-401 | the input that fails, from start-up: 2^32 - 1 ticks, then a sleep of no ticks, which the next tick does not end |
| `SchedSleep.CutShort` | kernel/scheduler.c:390-390 | otherwise the very next tick wakes the sleeper |
| `SchedMisuse.SleepRun` | kernel/scheduler.c:390-390 | the input that fails, from start-up: six ticks before the wrap, a sleep of ten ticks is over on the next tick |
| `SchedRuns.RunTimed` | kernel/scheduler.c:567-650 | over every legal run the recorded wake-up is never in the past, so tickless idle never turns the counter back |
| `SchedRuns.TicklessAfterTick` | kernel/scheduler.c:618-650 | right after a tick, tickless idle jumps to the earliest wake time and past none |
| `SchedRuns.SleepThenTickless` | kernel/scheduler.c:618-650 | after a sleep that no tick has seen, tickless idle passes its wake time exactly when a later wake-up is recorded |
| `SchedMisuse.TicklessRun` | kernel/scheduler.c:618-650 | the input that fails, from start-up: with a wake-up at 100 recorded, a sleep that ends at 11 is passed over |
| `SchedInit.InitGood` | kernel/scheduler.c:110-171 | scheduler_init establishes the invariant |
| `SchedMisuse.NextFree` | kernel/scheduler.c:304-450 | deleting the next free slot breaks the lists in every state that has one; so does suspending it while it is in its first state |
| `SchedMisuse.FreshSlot` | kernel/scheduler.c:304-450 | the input that fails: right after start-up, deleting or suspending slot 5 |
| `SchedMisuse.MainResumed` | kernel/scheduler.c:404-466 | resuming main breaks the lists whenever it suspended itself with another slot ready |
| `SchedMisuse.ResumeRun` | kernel/scheduler.c:404-466 | the input that fails, from start-up: create, main suspends itself, main is resumed |
| `SchedMisuse.StepTwice` | kernel/scheduler.c:188-215 | a dispatched slot that steps with another one ready leaves two running, in every such state |
| `SchedMisuse.StepRun` | kernel/scheduler.c:188-215 | the input that fails, from start-up: two are created, the scheduler starts, and the first calls step |
| `Scheduler.Scheduler.constructor` | kernel/scheduler.c:110-171 | the constructor reaches the state that SchedInit.InitGood is about |
| `Scheduler.Scheduler.Add` | kernel/scheduler.c:40-47 | the pointer writes amount to the insertion that SchedInv.AddSpells is about |
| `Scheduler.Scheduler.Remove` | kernel/scheduler.c:49-59 | the pointer writes amount to the removal that SchedInv.RemoveSpells is about |
| `Scheduler.Scheduler.Highest` | kernel/scheduler.c:66-73 | the loop over the priorities finds the slot that SchedSteps.PickFacts is about |
| `Scheduler.Scheduler.SwitchTo` | kernel/scheduler.c:84-94 | refines the switch used by every dispatching step |
| `Scheduler.Scheduler.DoStep` | kernel/scheduler.c:188-215 | refines the step of SchedRuns.Dispatch; refuses before the start |
| `Scheduler.Scheduler.DoStart` | kernel/scheduler.c:173-186 | refines the first step; refuses a second start |
| `Scheduler.Scheduler.DoCreate` | kernel/scheduler.c:228-302 | refines the step of SchedRuns.CreateEffect and returns the slot it takes, for every outcome |
| `Scheduler.Scheduler.DoDelete` | kernel/scheduler.c:304-337 | refines the step of SchedIff.DeleteIff; refuses null, the current slot and running slots |
| `Scheduler.Scheduler.DoYield` | kernel/scheduler.c:339-371 | refines the step of SchedRuns.YieldHandsOver |
| `Scheduler.Scheduler.DoSleep` | kernel/scheduler.c:386-401 | refines the step of SchedRuns.SleepRecords |
| `Scheduler.Scheduler.DoSuspend` | kernel/scheduler.c:404-450 | refines the step of SchedIff.SuspendIff |
| `Scheduler.Scheduler.DoResume` | kernel/scheduler.c:454-466 | refines the step of SchedIff.ResumeIff |
| `Scheduler.Scheduler.DoFinish` | kernel/scheduler.c:217-226 | refines the step of SchedSteps.FinishKeeps |
| `Scheduler.Scheduler.WakeBlocked` | kernel/scheduler.c:491-500 | the loop that unlinks while it walks visits every blocked slot once, in order |
| `Scheduler.Scheduler.UpdateNextWake` | kernel/scheduler.c:567-577 | the walk records the least wake time |
| `Scheduler.Scheduler.DoTick` | kernel/scheduler.c:486-520 | refines the step of SchedTick.TickExact and keeps the invariant |
| `Scheduler.Scheduler.DoTickless` | kernel/scheduler.c:618-650 | refines the jump of SchedRuns.TicklessAfterTick |
| `TimerModel.InsertSorted` | kernel/os_time.c:95-102 | insertion keeps the list sorted and adds exactly its timer |
| `TimerModel.InsertPlace` | kernel/os_time.c:95-102 | the timer goes behind all that expire no later, so ties keep the order of insertion |
| `TimerModel.DelayKeptIff` | kernel/os_time.c:104-114 | a started timer waits for its delay exactly when it is periodic or the delay is zero |
| `TimerModel.OneShotAtOnce` | kernel/os_time.c:104-161 | the inputs that fail: a one-shot timer of any positive delay is due, and fires, the moment it is started |
| `TimerModel.DrainFires` | kernel/os_time.c:142-161 | processing fires every due timer exactly once, in list order, and leaves the others with the periodic ones put back |
| `TimerModel.DrainFuture` | kernel/os_time.c:142-161 | what is left is sorted and lies in the future |
| `TimerModel.DrainLeaves` | kernel/os_time.c:142-161 | the timers left are those that were not due, unchanged, and the fired periodic ones with expiry now plus period, in 64 bits |
| `TimerModel.TerminatesIff` | kernel/os_time.c:142-161 | the loop ends exactly when no due periodic timer would be due again at once |
| `TimerModel.ZeroPeriodLoops` | kernel/os_time.c:142-161 | the input that fails: one periodic timer of period zero keeps the loop busy for good |
| `TimerModel.PositivePeriod` | kernel/os_time.c:142-161 | positive periods whose sum with the clock fits 64 bits meet that condition |
| `TimerList.TimerQueue.ListInsert` | kernel/os_time.c:95-102 | the pointer walk and writes do what insertion does to the sequence |
| `TimerList.TimerQueue.Create` | kernel/os_time.c:79-93 | fills in the timer and leaves the list alone |
| `TimerList.TimerQueue.Start` | kernel/os_time.c:104-114 | refuses a running timer; otherwise the list gains exactly it and stays sorted |
| `TimerList.TimerQueue.Stop` | kernel/os_time.c:116-133 | refuses a timer that is not running; otherwise the list loses exactly it |
| `TimerList.TimerQueue.Process` | kernel/os_time.c:142-161 | fires what the abstract loop fires and leaves its list; the list holds exactly the active timers |
| `Crc32.UpdateConcat` | drivers/module.c:23-31 | the checksum of a concatenation is that of its parts in turn |
| `Crc32.TableStep` | drivers/module.c:27-29 | one table look-up does what eight shifts of the bitwise definition do |
| `Crc32.EntryBits` | drivers/module.c:14-18 | the bit loop computes a table entry |
| `Crc32.Table.Init` | drivers/module.c:11-21 | the table holds the entry of every byte; a second call changes nothing |
| `Crc32.Table.UpdateWith` | drivers/module.c:23-31 | the table-driven loop computes the bitwise checksum of section 8 of RFC 1952 |
| `Crc32.ShortErrorDetected` | drivers/module.c:23-31 | inputs that differ within four adjacent bytes have different checksums |
| `CrcCheck.CheckValue32` | drivers/module.c:23-31 | the checksum of the digits 1 to 9 is 0xCBF43926, the check value of CRC-32 |
| `ModuleImage.CreateModule` | drivers/module.c:180-237 | refuses too many symbols or dependencies; otherwise the bytes are header, manifest and code with the checksum filled in |
| `ModuleImage.VerifyCrc` | drivers/module.c:112-135 | two chunks over a zeroed copy decide whether the whole image with a zeroed field has the stored checksum |
| `ModuleImage.LoadModule` | drivers/module.c:43-101 | the checks in order, then the tables cut out of the image; a read behind its end is reported as a fault, and a table without memory is left out |
| `ModuleImage.ImageIntact` | drivers/module.c:112-237 | every created image passes the check |
| `ModuleImage.LoadImage` | drivers/module.c:43-237 | loading what was created gives back the same symbols and dependencies |
| `ModuleImage.LoadIff` | drivers/module.c:43-76 | an image is not refused exactly when there is memory, it has 100 bytes, starts with the bytes of magic and version, and is intact |
| `ModuleImage.ChangedRefused` | drivers/module.c:43-237 | a created image changed within four adjacent bytes, not across an end of its checksum, is refused |
| `ModuleImage.ImageLayout` | drivers/module.c:180-237 | by offset: magic, version, size, name, release, symbols, dependencies and code of a created image |
| `ModuleImage.PaddedIs` | drivers/module.c:200-201 | a string field holds the string as far as it fits before a last null, and nulls behind it |
| `ModuleImage.ShortChangeRejected` | drivers/module.c:112-135 | changing an intact image within four adjacent bytes is noticed, unless they lie across an end of the checksum field |
| `ImageErrors.ChangeEscapesIff` | drivers/module.c:112-135 | any change of an intact image escapes exactly when the error in the checksum field is what the other errors alone leave in an empty register |
| `ImageErrors.FrontEscapesIff` | drivers/module.c:112-135 | a change across the front of the field escapes exactly when its part in front, followed by zeros up to the end of the image, gives its part in the field |
| `ImageErrors.RearEscapesIff` | drivers/module.c:112-135 | a change across the rear of the field likewise |
| `ImageErrors.StruckEscapes` | drivers/module.c:112-135 | the inputs that fail: in every intact image of 100 bytes, four adjacent bytes that can change unnoticed |
| `ModuleImage.StampedIntact` | drivers/module.c:112-135 | any header with a zeroed field becomes intact by storing its checksum there |
| `ModuleImage.OutsideTable` | drivers/module.c:79-98 | the input that fails: an intact image of 100 bytes with a symbol table behind its end |
| `Ota.Begin` | fs/ota.c:78-97 | refuses a partition out of range; otherwise nothing is written yet |
| `Ota.Clip` | fs/ota.c:102-104 | a piece is cut to what still fits the expected size |
| `Ota.StoreReads` | fs/ota.c:106-107 | stored bytes can be read back and no other cell changes |
| `Ota.WriteExtends` | fs/ota.c:99-117 | an accepted piece extends the stored image and its checksum; a refused one changes nothing |
| `Ota.ImageWritten` | fs/ota.c:99-117 | after any calls, failing ones included, flash, count and checksum are those of the accepted bytes cut at the expected size |
| `Ota.ChunkingIrrelevant` | fs/ota.c:99-117 | two ways of cutting up the same bytes leave the same state |
| `Ota.Handle.WritePiece` | fs/ota.c:99-117 | the method updates the fields as the abstract write does, and returns the bytes taken or -1 |
| `GovModel.ChooseKeeps` | kernel/power_governor.c:131-187 | one choice stays under the ceiling, obeys the latch, enters COOL only by it, and keeps a hold at BALANCED at most until a quiet window |
| `GovModel.RunKeeps` | kernel/power_governor.c:131-309 | the invariant of level, latch, hold and streaks holds after every run of calls |
| `GovModel.WindowCloses` | kernel/power_governor.c:189-219 | after every run: the new level is under the ceiling of that window; the latch forces COOL, is set only by 70 or more and cleared only by 60 or less; COOL is entered only by the latch; light sleep is allowed only when idle and low |
| `GovModel.HoldLasts` | kernel/power_governor.c:143-153 | a hold lasts through every run without a quiet or hot window, with the level at BALANCED at most |
| `GovModel.Decays` | kernel/power_governor.c:155-162 | k levels above ECONOMY decay within 3k quiet windows that are not hot |
| `GovRules.LatchIff` | kernel/power_governor.c:197-204 | after every run, on the readings: a closing window leaves the latch set exactly when it was set and the first reading is not 60 or less, or the second is 70 or more |
| `GovRules.BusyWindow` | kernel/power_governor.c:131-187 | after every run, a busy window that is not hot: a hold stays; the third heavy window in a row holds one level under the ceiling; any other raises a lower level by exactly one |
| `GovRules.QuietWindow` | kernel/power_governor.c:131-187 | after every run, a quiet window that is not hot ends a hold, and the third in a row lowers a level above ECONOMY by exactly one |
| `GovRules.HotWindow` | kernel/power_governor.c:131-187 | a hot window goes to COOL, ends a hold and leaves the streaks alone |
| `GovRules.HeldFromThird` | kernel/power_governor.c:131-187 | over every run of heavy windows the level is held from the third on, and not before |
| `GovRules.LightSleepIff` | kernel/power_governor.c:209-213 | light sleep is allowed exactly when nothing is runnable, the level is low, and the next wake-up is known and 50 ms away |
| `GovRules.WindowInput` | kernel/power_governor.c:110-120 | a window's counts are those of its steps in 32 bits, and its demand is the largest of the foreground's and of those its busy steps came with |
| `GovRules.BeginsFresh` | kernel/power_governor.c:215-219 | the reset and every closing window leave counts and demand of the next window empty |
| `GovRules.WindowStarts` | kernel/power_governor.c:297-309 | a closing tick begins the next window; no other call moves its start |
| `GovRules.ClosesIff` | kernel/power_governor.c:304-306 | a window closes on the first tick at or past 100 ms from its start, also across a wrap of the 32-bit clock |
| `GovRules.FullIs` | kernel/power_governor.c:190-193 | full means eighty percent busy, of counts and products in 32 bits |
| `GovRules.FullIff` | kernel/power_governor.c:190-193 | so it is eighty percent busy as long as a hundred times the busy steps fits 32 bits |
| `GovRules.FullLost` | kernel/power_governor.c:190-193 | the input that fails: 42949673 busy steps and no idle one |
| `Governor.Governor.constructor` | kernel/power_governor.c:221-232 | the reset state satisfies the invariant |
| `Governor.Governor.NoteIdleStep` | kernel/power_governor.c:267-270 | counts an idle step, in 32 bits |
| `Governor.Governor.NoteBusyStep` | kernel/power_governor.c:272-287 | counts a busy step and keeps the largest demand of the window |
| `Governor.Governor.SetForegroundDemand` | kernel/power_governor.c:234-239 | records the demand; one that is unset or out of range becomes normal |
| `Governor.Governor.Choose` | kernel/power_governor.c:131-187 | the branches update the fields as the abstract choice does |
| `Governor.Governor.Close` | kernel/power_governor.c:189-219 | the window is closed, and the clock set to the pick of the new level |
| `Governor.Governor.TickWindow` | kernel/power_governor.c:297-309 | a window closes, and the clock is set, on the first tick and whenever 100 ms have passed, across a wrap of the clock; otherwise nothing changes |
| `Frequencies.FreqForLevel` | kernel/power_governor.c:45-81 | the exchange sort puts the table in descending order, and the pick is the entry at the place of the level |
| `Frequencies.Pull` | kernel/power_governor.c:55-62 | the inner loop brings the largest remaining entry forward and permutes the table only |
| `Frequencies.OneOrder` | kernel/power_governor.c:54-63 | entries in descending order can be arranged in one way only |
| `Frequencies.PickInTable` | kernel/power_governor.c:65-80 | the pick is an entry of the table |
| `Frequencies.PickedPlace` | kernel/power_governor.c:65-80 | by the number of faster entries: PERFORMANCE takes the fastest, COOL the slowest, ECONOMY the one before it, BALANCED the one in the middle |
| `Frequencies.ClockedPlace` | kernel/power_governor.c:97-104 | applying a level sets the clock to the entry of its place, whatever it was; an empty table leaves it |
| `Frequencies.OrderIff` | kernel/power_governor.c:65-80 | a higher level never picks a lower frequency exactly when the table does not hold two different entries alone |
| `Frequencies.TwoEntries` | kernel/power_governor.c:65-80 | the input that fails: from two entries ECONOMY picks the faster one and BALANCED the slower |
| `Frequencies.Power.SetAvailable` | kernel/power.c:206-218 | accepts 1 to 8 entries without a zero; a refused list has replaced the entries before its zero, and the table callers see stays exactly when that is harmless |
| `Frequencies.RefusalHarmless` | kernel/power.c:206-218 | a refused list leaves a table as it was exactly when each entry before its zero repeats the one in its place, as far as the table goes |
| `Frequencies.RefusalHarmlessIff` | kernel/power.c:206-218 | a refused list leaves every table an accepted one can have left as it was exactly when its first entry is the zero |
| `Frequencies.FirstReplaced` | kernel/power.c:206-218 | the inputs that fail: any other refused list replaces the first entry of a table that starts differently |
| `Frequencies.Power.GetAvailable` | kernel/power.c:220-228 | the first entries of the table, as many as fit |
| `Frequencies.Power.SetCpuFreq` | kernel/power.c:191-200 | accepts exactly the entries of the table |
| `Frequencies.Power.ApplyLevel` | kernel/power_governor.c:97-104 | the pick is always accepted; an empty table or a zero pick leaves the clock alone |

## Left out

- `tlsf_memalign` and `tlsf_realloc`: they do not keep the accounting that the other calls keep.
- The bytes of allocated payloads: only headers and free-list links are modelled; the header size is a parameter.
- The width of `size_t` in `ModuleImage` and `Ota`: sizes are unbounded there.
- Pool.TlsfCreate: of pools under 4 GiB; the bucket of a block of more is that of its truncated size.
- HeapRuns.FreeRemoves: for pointers to payloads and for pointers behind no header; payload bytes that spell the header of a used block are taken for one by the code.
- Pool.Pool.Free: the same.
- LinkNonce.BlocksOnce: within one session; a device that gives out a session number again under the same key is not modelled.
- GovRules.FullIff: one way; where the product runs over, `GovRules.FullIs` says what is compared.
- AES itself: key expansion and the round functions are not modelled, and nothing is said about cryptographic strength or forged frames.
- The Python codec apart from its parser: framing and sessions are modelled from the C code, which has the same layout.
- setjmp, longjmp, private stacks and fibers: a context switch is the change of the current slot, of states and of lists; what code runs next is not modelled.
- Scheduler.Scheduler.DoSleep: for slots other than main; main does not sleep but loops over ticks and steps, which appear in runs as those ticks and steps.
- Fairness of yield: the ready lists are last in, first out, so two of three equal slots can alternate.
- scheduler_enter_idle, deep sleep, the lock counters and the names and stacks of slots: they do not touch the lists.
- The effect of timer and stream callbacks on the structure that calls them: callbacks leave the timer list alone and only accept or refuse a frame.
- TimerList.TimerQueue.Process: when the loop ends; `TimerModel.TerminatesIff` says exactly when it does.
- TimerList.TimerQueue.Create: of a timer that is not running; on a running one the code would cut the list.
- ModuleImage.CreateModule: does not model a failing allocation.
- ModuleImage.LoadModule: does not model what is read behind the end of an image.
- LinkHello.TlvPut: the bytes it puts in front of the buffer after a run-over are counted, not modelled.
- Pool.Pool.Malloc: ends at the write that tears a block; `HeapMalloc.TornHeader` says where it goes. What later calls make of the overwritten header is not modelled.
- The struct layouts of module images on other targets: 100, 40 and 49 bytes, little-endian, as on the supported hosts.
- OTA metadata, boot selection and rollback, signatures: they work on a storage handle that is never set.
- Brightness, actuators other than the frequency table, and the running totals of the governor.
- Null arguments that are refused at once, apart from task pointers and the frame buffer's pixels.
- UI, widgets, drivers, HAL, registries, configuration, file systems, build and web scripts: they are input and output or simple tables.
