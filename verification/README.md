# PDMA driver, LTE turbo encoder and Xen back end: a verified model

This project models the parts of the repository where several functions, threads or machines have to agree,
and proves what they promise one another. Every `.dfy` file is checked together:
`dafny verify dfyconfig.toml`.

## What is modelled

**The encoder and its framing** (`mwandr/tool.c`, `tool.h`, `encode.c`; 3GPP TS 36.212, sections 5.1.3.2.1 to
5.1.3.2.3). `NumberTheory`, `Counting` and `Qpp` decide exactly when a quadratic polynomial permutes a block.
`Table` holds the 188 rows with a certificate for each. `Interleaver` classifies every byte count the lookup
accepts, and with `WordTable` and `SignTable` says for each of them whether 32-bit arithmetic is exact, signed or unsigned, and what
it costs where not. `ByteStreams`, `Rsc` and `Frame` say what a frame is and that
it can be read back three ways. `FrameCode` characterises the frame without the functions that build it. `FrameBuilder` has the loops that fill it, each proved to compute it.
`DeviceLength` has the length register and the return length derived from the frame length.

**The DMA driver** (`pdma-v1.1-src/pdma-dev.c`). `PdmaLists` has the list operations with the statistics calls
made beside them. `PdmaProtocol` is the step machine: any number of reader and writer threads (with the block
each holds between its two critical sections), the completion interrupt, and the stop and start ioctls.
`PdmaControl` says where ioctls and calls end. `PdmaConservation`, `PdmaInvariants` and `PdmaOrder` show what each step keeps. `PdmaTheorems`, `PdmaWrites` and
`PdmaStats` draw the conclusions for every reachable state; `PdmaHistories` says which histories the statistics can
record, and `PdmaTornReport` has the report read word by word while they change. `PdmaSleep` adds who sleeps and which wake_ups are due, and `PdmaForgotten` what becomes of a sleeper
without one. `PdmaDriver` has the same operations as classes whose fields
change in place, each method proved to compute the machine's function.

**The task queue** (`ire/Net_Dom0/xen_queue.c`, `data.c`). `XenQueue` is the linked ring in the heap;
`Dispatcher` is the single consumer with its producers, sleeps and wakeups, and `NativeQueue` its queue in memory.

**The ring service** (`ire/backup_con/dom0_141223_blocksz/data.c`). `XenRing` has the index arithmetic of Xen's
public header `io/ring.h`; the header itself is not part of the repository, so its macros are written out from
their published definition. `XenBackend` is the step machine of one frontend, its ring and the service thread, and
`XenPromises` its theorems; `XenGuard` drops every assumption on the frontend, and `XenProgress` says what the thread gets done. `XenService`, `RingPass` and `XenLoop` have the loop itself, over an array in which
responses overwrite requests. `RefCount` has the shared open and DMA counts.

**Command-line numbers** (`pdma-v1.1-src/tools/pdma-lib.c`): `MemParse`.

`Words` has the machine word sizes and the few facts of arithmetic the other modules share.

## What the environment is taken to do

- The device never reports more completions than there are blocks in its FIFO.
- One control ioctl runs at a time.
- A start reaches the list initialisation only after some stop since the last start returned 0. The driver does not
  enforce this: it ignores the result at `pdma-v1.1-src/pdma-dev.c:400-402`. `PdmaConservation.InitPartitionIff`
  says exactly when initialisation is safe, and `PdmaTheorems.StartAfterFailedStop` gives a run where it is not.
- Memory is sequentially consistent; the barriers in the source are what makes that fair.
- A frontend publishes no more requests than the ring has room for (`XenBackend` and `XenPromises` only).

## Findings

- `getfindex` accepts every byte count from 5 to 768 but only 188 of them are in the standard's table. Of the others
  exactly four (162, 243, 343 and 486 bytes) are still permuted; the others are not
  (`Interleaver.PermutesClassification`).
- In `mwandr/tool.c` the index overflows `int` for 390 of those byte counts, 50 of the legal sizes among them, the
  smallest 1696 bits (`Interleaver.SignedRange` has the list). C leaves that undefined; on a machine whose `int` wraps,
  for every one of the 390 the first index to overflow is read before the array (`Interleaver.OverflowReadsBefore`). In
  `kerptest/mwandr/tool.c` the unsigned index wraps for 20 legal sizes, the smallest 3584 bits, and for every one of
  them two positions collide, so that data is lost (`Interleaver.UnsignedRange`, `Interleaver.UnsignedPermutesIff`).
- `mwandr/encode.c` shifts its length left by 19 in an `int`, which is defined only below 512 bytes
  (`DeviceLength.ShiftDefinedIff`); read as an unsigned word the length fits below 1024 (`DeviceLength.RegisterExactIff`).
- A surplus close or stop from one frontend hides a later open or start of another (`RefCount.SurplusReleaseHides`),
  exactly once the surplus has reached what the others hold (`RefCount.InUseExactly`).
- The overflow guard of the service loop never fires, whatever a frontend writes: it compares the back end's own two
  indices. A frontend that publishes more than the ring holds is answered up to its req_prod all the same
  (`XenGuard.GuardIsDead`, `XenGuard.PassIgnoresRingSize`).
- A failed copy puts its block back without waking anybody. If it goes back to an empty list while another reader or
  writer sleeps on it and no wake_up is due, that one stays asleep beside a block it could take; nothing else does this
  (`PdmaSleep.MoveStrandsIff`). Unless somebody else takes a block, a signal comes or DMA is stopped, nothing can
  wake it any more exactly if every block is available or about to be put back likewise (`PdmaForgotten.ForgottenIff`,
  `PdmaForgotten.ReaderForgotten`).
- `pdma_get_stat` reads total, count and extreme one by one without the lock, so a value may be in the total before it is
  counted or compared. For each of the four tracked quantities, each pool and each three moments of reading,
  `PdmaTornReport` says exactly when the report can be wrong in a reachable state:
  - The mean of the read FIFO can leave the capacity while at most 63 values are counted (`PdmaTornReport.ReadFifoAnyPool`;
    fewer in a pool below 128 blocks), and the worst is 254 blocks, 198 percent (`PdmaTornReport.TornMeanReachable`).
  - The means of the write FIFO and the write backlog never leave theirs, nor does that of the read backlog in a pool of
    three blocks or more. In a pool of one or two it does, at the second value only (`PdmaTornReport.MeanWithinIff`).
  - A mean can pass the maximum read at the first two values counted only (`PdmaTornReport.MeanBelowHighestIff`), and fall
    below the minimum at any time (`PdmaTornReport.MeanAboveLowestIff`).
  - With a start between the reads there is no bound (`PdmaTornReport.MeanAcrossStart`).
- A request thread stopped while idle uses the null it popped (`Dispatcher.StopPopsNothing`).
- `get_send_len` of anything shorter than the shortest frame is 2^27 (`DeviceLength.SendLengthWraps`).

## Model

| member | source | states |
|---|---|---|
| `Table.LookupInBounds` | mwandr/tool.c:23-38 | the table is indexed in bounds exactly for 5 to 768 bytes |
| `Table.LookupRoundsDown` | mwandr/tool.c:23-38 | the lookup gives the largest row not above the byte count, exact precisely on the 188 legal sizes |
| `Table.RowCertificates` | mwandr/tool.h:7-195 | every row has an inverse of f1 modulo K and a power of f2 divisible by K |
| `WordTable.SignedBound` | mwandr/tool.c:13-16 | for each of the 764 byte counts accepted, whether the largest index expression is below 2^31 |
| `WordTable.UnsignedBound` | kerptest/mwandr/tool.c:13-16 | and whether it is below 2^32 |
| `WordTable.WrappingClashes` | kerptest/mwandr/tool.c:13-16 | wherever it is not, two positions of the block get the same unsigned index |
| `Table.FailsBetweenRows` | mwandr/tool.c:23-38 | between rows, some prime of the byte count does not divide the row's f2, with five exceptions |
| `Qpp.CollisionIff` | mwandr/tool.c:15 | two positions get the same index iff K divides the factored difference |
| `Qpp.CriterionPermutes` | mwandr/tool.c:14-20 | for every K, if gcd(f1, K) = 1 and every prime of K divides f2 then the interleaver permutes [0, K) |
| `Qpp.PermutesIff` | mwandr/tool.c:14-20 | and for every K divisible by 4, as whole bytes make it, that condition is necessary too |
| `Interleaver.LegalPermutes` | mwandr/tool.h:7-195 | the row chosen for each legal size makes the interleaver a permutation |
| `Interleaver.LuckyPermutes` | mwandr/tool.c:23-38 | so does the row chosen for 162, 243, 343 and 486 bytes |
| `Interleaver.PermutesClassification` | mwandr/tool.c:23-38 | of all byte counts the lookup accepts, exactly the legal ones and those four are permuted |
| `Interleaver.InterleaveRoundTrip` | mwandr/tool.c:12-21 | deinterleaving and interleaving undo each other on every permuted block |
| `Interleaver.FitsBelowIff` | mwandr/tool.c:13-16 | no index of the block reaches a limit iff the last one does not |
| `Interleaver.WrapOnce` | kerptest/mwandr/tool.c:13-16 | wrapping every operation equals wrapping the whole polynomial once |
| `Interleaver.WrapExactIff` | kerptest/mwandr/tool.c:13-16 | while one step stays below 2^32, the unsigned index is right at every position iff nothing wraps or K divides 2^32 |
| `Interleaver.SignedRange` | mwandr/tool.c:13-16 | exactly which of the accepted byte counts never overflow int: of the legal ones, all to 1664 bits and 26 above |
| `Interleaver.UnsignedRange` | kerptest/mwandr/tool.c:13-16 | exactly which never wrap an unsigned int: of the legal ones, all but 20 |
| `Interleaver.UnsignedPermutesIff` | kerptest/mwandr/tool.c:12-21 | for every byte count accepted, the unsigned loop permutes the block iff the polynomial does and nothing wraps |
| `Interleaver.UnsignedClassification` | kerptest/mwandr/tool.c:12-38 | that is 168 legal sizes and the four others that are permuted |
| `Interleaver.InterleaveSigned` | mwandr/tool.c:12-21 | where no index overflows, the int loop writes the interleaved block and nothing else, each operation in range |
| `Interleaver.SignedWrapOnce` | mwandr/tool.c:13-16 | where int wraps, wrapping every operation equals wrapping the polynomial once |
| `Interleaver.SignedInsideIff` | mwandr/tool.c:12-21 | on such a machine the loop reads at no negative index iff nothing overflows, and then at the right ones |
| `Interleaver.OverflowReadsBefore` | mwandr/tool.c:13-16 | for each of the other 390 byte counts, the first index to leave int is read before the array |
| `Interleaver.InterleaveUnsigned` | kerptest/mwandr/tool.c:12-21 | the unsigned loop writes the wrapped reading always, the interleaved block where the arithmetic is exact |
| `ByteStreams.PackInvertsUnpack` | mwandr/tool.c:123-133 | packing most significant bit first undoes the bit expansion |
| `ByteStreams.UnpackInto` | mwandr/tool.c:123-133 | the double loop writes exactly the bits of the bytes, one per byte |
| `Rsc.TailEmptiesRegister` | mwandr/tool.c:52-65 | three further inputs empty the register iff they are the tail bits the loop writes |
| `Rsc.OutputSatisfiesCode` | mwandr/tool.c:52-65 | parity satisfies g0 z = g1 x with g0 = 1+D^2+D^3, g1 = 1+D+D^3 at every position |
| `Rsc.CodeEquationIff` | mwandr/tool.c:52-65 | and a stream is the parity iff it satisfies that equation everywhere |
| `Rsc.EncoderLinear` | mwandr/tool.c:52-65 | tails and parities of an xor are the xors of tails and parities |
| `Rsc.RecoverInvertsOutput` | mwandr/tool.c:52-65 | running the recurrence backwards recovers the register and all inputs from parity alone |
| `Rsc.OutputInvertsRecover` | mwandr/tool.c:52-65 | every parity stream comes from exactly the input so recovered |
| `Rsc.DataFromParity` | mwandr/tool.c:52-65 | the data is recovered from the terminated parity and from its first K bits alone |
| `Rsc.Encode` | mwandr/tool.c:40-66 | the register-variable loop writes the tail bits after the data and the parity of data and tail |
| `Frame.TailReadsBack` | mwandr/tool.c:205-221 | the last four groups, read in order, are input and parity alternating for the first encoder and then for the second |
| `Frame.SlotReadsStream` | mwandr/encode.c:141-155 | thresholding slot j of the finished frame gives back stream j |
| `Frame.SwapIsInvolution` | mwandr/encode.c:148-155 | the 8-byte swap undoes itself |
| `Frame.SystematicRoundTrip` | mwandr/encode.c:141-155 | slot 0 packs to the original bytes, for every byte string |
| `Frame.FirstParityRoundTrip` | mwandr/encode.c:141-155 | so does slot 1 after running the encoder backwards |
| `Frame.SecondParityRoundTrip` | mwandr/encode.c:141-155 | so does slot 2 after undoing the interleaver too, wherever it permutes |
| `Frame.LegalRoundTrips` | mwandr/tool.c:158-221 | for every legal length the frame, with the index taken exactly, gives the original bytes in all three readings |
| `FrameCode.FrameIff` | mwandr/tool.c:158-221 | a byte sequence is the frame of the bytes iff its code bits are the data, a parity that satisfies the code equation at every index, and the same of the interleaved data, both with tails that end in the zero state, and all else is padding and marker |
| `FrameCode.UnpackIs` | mwandr/tool.c:123-133 | bit j of a byte is the one under mask 0x80 >> j |
| `Frame.FrameInjective` | mwandr/encode.c:128-155 | equal frames come from equal bytes, whatever the interleaver parameters |
| `Frame.MarkerUnique` | mwandr/encode.c:141-155 | 0x81 stands at one place only, on padding, and padding never looks like a one |
| `FrameBuilder.LayOut` | mwandr/tool.c:197-221 | the moving-pointer code writes the layout and leaves every padding slot as it was |
| `FrameBuilder.EncodeStreams` | mwandr/tool.c:164-188 | interleave and the two encoder calls leave the data and the interleaved data with tails that end in the zero state, each with the parity that satisfies the code equation |
| `FrameBuilder.LookUp` | mwandr/tool.c:158-161 | the row the lookup picks for any byte count, with which the int loop stays in range iff the byte count is listed as safe |
| `FrameBuilder.MapSymbols` | mwandr/encode.c:141-145 | the loop maps bits to soft symbols and sets the end marker |
| `FrameBuilder.SwapGroups` | mwandr/encode.c:148-155 | the nested loops reverse each group of eight |
| `FrameBuilder.BlockCount` | mwandr/encode.c:99-102 | the least number of blocks that hold the frame |
| `FrameBuilder.BuildFrame` | mwandr/encode.c:87-155 | lookup and loops together give the frame as FrameIff characterises it and zero padding to whole blocks, and for legal sizes a frame that reads back three ways |
| `FrameBuilder.WriteBlocks` | mwandr/encode.c:184-195 | the blocks sent concatenate to a prefix of the buffer, to all of it exactly when no write falls short |
| `DeviceLength.RegistersAgree` | ire/Net_Dom0/data.c:353 | the back end's register value equals the encoder's own |
| `DeviceLength.RegisterRoundsDown` | ire/Net_Dom0/data.c:353 | for any length the register gets its whole bytes of code bits |
| `DeviceLength.EncodedLengthIsFrames` | mwandr/encode.c:90-93 | the encoded length is that of every frame |
| `DeviceLength.RegisterExactIff` | mwandr/encode.c:90-96 | the shifted length, as an unsigned word, loses no bits iff there are fewer than 1024 bytes |
| `DeviceLength.ShiftDefinedIff` | mwandr/encode.c:113-117 | the shift itself stays within int iff there are fewer than 512 |
| `DeviceLength.SendLengthOfFrame` | ire/Net_Dom0/data.c:962-970 | for a frame of n bytes, 2n rounded up to a multiple of eight |
| `DeviceLength.SendLengthRoundsDown` | ire/Net_Dom0/data.c:962-970 | lengths between two frames give the answer of the shorter |
| `DeviceLength.SendLengthWraps` | ire/Net_Dom0/data.c:962-970 | below 32 bytes the answer is 2^27 |
| `DeviceLength.SendLengthBoundedIff` | ire/Net_Dom0/data.c:962-970 | for every length: the answer is within a thirty-second of it, rounded up to eight, iff the length is at least 32 |
| `PdmaLists.RdRefillMoves` | pdma-v1.1-src/pdma-dev.c:114-124 | the submit loop moves exactly the first blocks that fit, in order |
| `PdmaLists.RdRefillExhausts` | pdma-v1.1-src/pdma-dev.c:114-124 | it ends with nothing free or the FIFO full |
| `PdmaLists.WtRefillMoves` | pdma-v1.1-src/pdma-dev.c:138-147 | the same for pending writes |
| `PdmaLists.RdInterruptMoves` | pdma-v1.1-src/pdma-dev.c:689-699 | completions join the pending tail in FIFO order and freed room is refilled |
| `PdmaLists.WtInterruptMoves` | pdma-v1.1-src/pdma-dev.c:701-711 | completions are freed in FIFO order and pending writes take their room |
| `PdmaConservation.StepConserves` | pdma-v1.1-src/pdma-dev.c:171-361 | no step but list initialisation changes how many places a block is in |
| `PdmaConservation.InitPartitionIff` | pdma-v1.1-src/pdma-dev.c:849-881 | after initialisation the blocks are partitioned iff no thread holds one |
| `PdmaInvariants.StepKeepsCounted` | pdma-v1.1-src/pdma-dev.c:317-325 | FIFO counts equal list lengths within 128, and writes wait only while the FIFO is full |
| `PdmaInvariants.StepKeepsRwCounted` | pdma-v1.1-src/pdma-dev.c:178-257 | rw_cnt stays the number of threads inside read or write |
| `PdmaInvariants.StepKeepsQuiesced` | pdma-v1.1-src/pdma-dev.c:363-394 | after a stop that returned 0 no thread comes to hold a block |
| `PdmaInvariants.StepKeepsRefillOwed` | pdma-v1.1-src/pdma-dev.c:219-254 | free read blocks with FIFO room always have a submitter on its way |
| `PdmaOrder.StepKeepsWriteOrder` | pdma-v1.1-src/pdma-dev.c:310-326 | each step keeps committed = retired ++ submitted ++ pending |
| `PdmaOrder.StepConservesReads` | pdma-v1.1-src/pdma-dev.c:200-222 | each step keeps every payload's completions = deliveries + in flight + pending |
| `PdmaOrder.StepKeepsReadOrder` | pdma-v1.1-src/pdma-dev.c:200-222 | with one reader each step keeps completed = delivered ++ in flight ++ pending |
| `PdmaTheorems.StepKeepsInv` | pdma-v1.1-src/pdma-dev.c:171-412 | every legal step keeps the whole invariant |
| `PdmaTheorems.ReachableInv` | pdma-v1.1-src/pdma-dev.c:883-895 | the invariant holds in every state reachable from initialisation |
| `PdmaTheorems.BlockInOnePlace` | pdma-v1.1-src/pdma-dev.c:171-361 | in every reachable state each block of a pool is in exactly one place, and no other block anywhere |
| `PdmaTheorems.HeldExclusively` | pdma-v1.1-src/pdma-dev.c:205-219 | a block held by a thread is held by no other and is on no list |
| `PdmaTheorems.WriteFifo` | pdma-v1.1-src/pdma-dev.c:310-326 | committed writes are those retired, submitted and pending, in that order; a direct submit never overtakes |
| `PdmaWrites.CommitsWhatWasWritten` | pdma-v1.1-src/pdma-dev.c:300-326 | the payload committed is the data the writer copied in, whatever anybody else does between copy and commit |
| `PdmaTheorems.RefillNeverLost` | pdma-v1.1-src/pdma-dev.c:219-254 | while DMA runs, free read blocks and FIFO room mean some thread or the start will submit |
| `PdmaTheorems.OrphansComeAndGo` | pdma-v1.1-src/pdma-dev.c:310-316 | orphans arise only from a commit that finds DMA stopped, exist only while it is, and a start recovers all |
| `PdmaTheorems.StopQuiesces` | pdma-v1.1-src/pdma-dev.c:363-394 | when a stop returns 0 all threads are outside, and until the next initialisation no list, memory or history changes |
| `PdmaControl.StopEndsThere` | pdma-v1.1-src/pdma-dev.c:363-394 | after a STOP nothing is initialised and DMA stays off until another START, over every run |
| `PdmaControl.StopOutcome` | pdma-v1.1-src/pdma-dev.c:363-394 | a stop polls only after a reset that worked, succeeds iff it reads rw_cnt zero, and returns to the START that made it or out of the ioctl |
| `PdmaControl.StartGoesOn` | pdma-v1.1-src/pdma-dev.c:396-409 | a START reaches the lists whatever its stop returned |
| `PdmaControl.StartResetsFirst` | pdma-v1.1-src/pdma-dev.c:400-402 | a START while DMA is on reaches the lists only after a reset of the device |
| `PdmaControl.IoctlBegins` | pdma-v1.1-src/pdma-dev.c:363-402 | a STOP, or a START while DMA is on, begins a stop with DMA off; a START while it is off needs none |
| `PdmaControl.CheckOutcome` | pdma-v1.1-src/pdma-dev.c:184-193 | a call goes past its tests iff DMA is on and its size is right |
| `PdmaControl.TryOutcome` | pdma-v1.1-src/pdma-dev.c:200-231 | a call gets the head of its list, or with nothing on it sleeps, or returns if it must not block |
| `PdmaControl.WakeOutcome` | pdma-v1.1-src/pdma-dev.c:232-250 | a signal or a stop ends a sleeping call with nothing, otherwise it gets the head of its list or sleeps again |
| `PdmaControl.NonblockingNeverSleeps` | pdma-v1.1-src/pdma-dev.c:228-231 | over every run a caller that asks not to block never sleeps |
| `PdmaControl.CallsCanMove` | pdma-v1.1-src/pdma-dev.c:171-361 | no call is ever stuck, and both outcomes of each test, copy and sleep are possible |
| `PdmaTheorems.SingleReaderOrder` | pdma-v1.1-src/pdma-dev.c:200-222 | with one reader at a time deliveries are a prefix of completions, failed copies included |
| `PdmaTheorems.DeliveredWereCompleted` | pdma-v1.1-src/pdma-dev.c:200-222 | with any number of readers nothing is delivered that was not completed, nor more often |
| `PdmaTheorems.LateTakeReachable` | pdma-v1.1-src/pdma-dev.c:180-209 | a reader past its first check does take a pending block after DMA is disabled |
| `PdmaTheorems.StartAfterFailedStop` | pdma-v1.1-src/pdma-dev.c:400-409 | a start whose stop timed out puts a block a writer still holds on the free list |
| `PdmaSleep.MoveStrandsIff` | pdma-v1.1-src/pdma-dev.c:211-214 | a move leaves a sleeper with a block to take and no wake_up due iff it is a put-back to an empty list past a sleeper with no wake_up due |
| `PdmaSleep.MoveKeepsRestful` | pdma-v1.1-src/pdma-dev.c:232-250 | no other step, sleep, wake_up or signal does, in either direction |
| `PdmaSleep.WokenUnlessStranded` | pdma-v1.1-src/pdma-dev.c:714-720 | so in every run, unless such a put-back came since the last start, a thread asleep with a block it could take has a wake_up coming |
| `PdmaForgotten.SettledCompletesNothing` | pdma-v1.1-src/pdma-dev.c:673-712 | while every block is available or about to be put back, no interrupt completes anything |
| `PdmaForgotten.StepKeepsSettled` | pdma-v1.1-src/pdma-dev.c:171-361 | and that stays so under every step except a thread taking a block or a start |
| `PdmaForgotten.ForgottenIff` | pdma-v1.1-src/pdma-dev.c:210-217 | a sleeper with no wake_up due can be woken without outside help iff some block is neither available nor about to be put back |
| `PdmaForgotten.StaysForgotten` | pdma-v1.1-src/pdma-dev.c:210-217 | otherwise it is still asleep after any moves that are no outside help |
| `PdmaForgotten.ReaderForgotten` | pdma-v1.1-src/pdma-dev.c:210-217 | a run in which a failed copy leaves another reader so |
| `PdmaStats.TalliesFollowLog` | pdma-v1.1-src/pdma-dev.c:1176-1250 | updating total, count and extreme is summarising the history with one more value |
| `PdmaStats.ListsFitPool` | pdma-v1.1-src/pdma-dev.c:849-881 | the three lists together never exceed the pool |
| `PdmaStats.ReachableStats` | pdma-v1.1-src/pdma-dev.c:1134-1268 | in every reachable state counters equal list lengths, tallies summarise histories within range, and three of the four rise by at most one from value to value |
| `PdmaHistories.HistoriesIff` | pdma-v1.1-src/pdma-dev.c:1176-1250 | the histories of the write FIFO and of both backlogs that reachable states have are exactly the rising ones within the pool |
| `PdmaHistories.RdFifoHistory` | pdma-v1.1-src/pdma-dev.c:1196-1210 | a run that finds the read FIFO one short of full any number of times |
| `PdmaStats.PercentRange` | pdma-v1.1-src/pdma-dev.c:440-451 | each percentage is at most 100 and zero iff its count is, even where 32 bits wrap |
| `PdmaStats.PercentIs` | pdma-v1.1-src/pdma-dev.c:440-451 | below wrap-around a percentage is the exact one rounded down, but one for anything between nothing and one percent |
| `PdmaStats.PercentMonotone` | pdma-v1.1-src/pdma-dev.c:440-451 | without wrap-around percentages keep the order of counts |
| `PdmaStats.HighGaugeOrdered` | pdma-v1.1-src/pdma-dev.c:464-475 | a maximum bounds the mean and the current value, as counts and as percentages |
| `PdmaStats.LowGaugeOrdered` | pdma-v1.1-src/pdma-dev.c:429-451 | a minimum is at most the mean, as counts and as percentages |
| `PdmaStats.ReportSound` | pdma-v1.1-src/pdma-dev.c:416-524 | in every reachable state the six counts of the report are list lengths, and each of its four gauges shows the extreme, mean and level of its own history as percentages, the extreme bounding the others |
| `PdmaStats.AverageIs` | pdma-v1.1-src/pdma-dev.c:434-438 | the mean is the exact one rounded down, and the level before anything is recorded |
| `PdmaStats.CountsOrdered` | pdma-v1.1-src/pdma-dev.c:1134-1268 | in every reachable state, for any pool, each minimum is at most its mean and each maximum at least its mean and current value |
| `PdmaTornReport.WordsSummarise` | pdma-v1.1-src/pdma-dev.c:1176-1250 | after any number of accesses total, count and extreme summarise three prefixes of the history, each at most one value shorter than the last |
| `PdmaTornReport.WordsEndAsTally` | pdma-v1.1-src/pdma-dev.c:1176-1250 | after all of them they are the tally of the whole history |
| `PdmaTornReport.MeanWithinIff` | pdma-v1.1-src/pdma-dev.c:416-524 | for each quantity, pool and moments: the mean is within the capacity in all reachable states iff not read between the two updates of a value that the count cannot outweigh |
| `PdmaTornReport.ReadFifoAnyPool` | pdma-v1.1-src/pdma-dev.c:429-438 | in some pool the mean of the read FIFO can leave the capacity iff so read with at most 63 values counted |
| `PdmaTornReport.MeanBelowHighestIff` | pdma-v1.1-src/pdma-dev.c:453-463 | the mean is at most the maximum read in all reachable states iff every value in the total was counted and compared, or three were counted, or two and only one update was missing |
| `PdmaTornReport.MeanAboveLowestIff` | pdma-v1.1-src/pdma-dev.c:429-438 | the minimum read is at most the mean in all reachable states iff every value counted was in the total and compared, or the minimum is still zero, or the pool has at most one block |
| `PdmaTornReport.TornMeanBound` | pdma-v1.1-src/pdma-dev.c:429-438 | for any moments the mean is at most twice the largest value that can be recorded |
| `PdmaTornReport.ReachableReads` | pdma-v1.1-src/pdma-dev.c:416-524 | in every reachable state, for any moments since the last start: extremes within capacity and their percentages at most 100, and the same of means except where MeanWithinIff says otherwise |
| `PdmaTornReport.TornMeanReachable` | pdma-v1.1-src/pdma-dev.c:1203-1205 | a reachable state and moments at which the mean of the read FIFO is 254 blocks, 198 percent, the most there is |
| `PdmaTornReport.MeanAcrossStart` | pdma-v1.1-src/pdma-dev.c:1146-1162 | a run with a start between the reads of total and count, after which the mean exceeds any given bound |
| `PdmaDriver.ReadSide.TryToSubmit` | pdma-v1.1-src/pdma-dev.c:100-127 | the in-place loop computes the refill function, or nothing while DMA is off |
| `PdmaDriver.ReadSide.Completed` | pdma-v1.1-src/pdma-dev.c:689-699 | the interrupt's read loop and refill compute the interrupt function |
| `PdmaDriver.ReadSide.Take` | pdma-v1.1-src/pdma-dev.c:201-209 | the head of the pending list is handed out, or nothing changes |
| `PdmaDriver.ReadSide.PutBack` | pdma-v1.1-src/pdma-dev.c:211-214 | the next take gives the same block back and leaves all but the backlog record as it was, which its tally still summarises |
| `PdmaDriver.ReadSide.Release` | pdma-v1.1-src/pdma-dev.c:219-222 | the submission that follows takes the block after every one freed before it, if the FIFO has room |
| `PdmaDriver.ReadSide.ListInit` | pdma-v1.1-src/pdma-dev.c:849-872 | every read block is free, in order, with counters and histories reset |
| `PdmaDriver.ReadSide.StatSubmitDec` | pdma-v1.1-src/pdma-dev.c:1196-1210 | the tally goes on summarising the recorded levels, and its minimum is at most the new level |
| `PdmaDriver.ReadSide.StatPendingInc` | pdma-v1.1-src/pdma-dev.c:1176-1189 | the tally goes on summarising the recorded backlogs, and its maximum is at least the new one |
| `PdmaDriver.WriteSide.TryToSubmit` | pdma-v1.1-src/pdma-dev.c:129-148 | the in-place loop computes the refill function, or nothing while DMA is off |
| `PdmaDriver.WriteSide.Completed` | pdma-v1.1-src/pdma-dev.c:701-711 | the interrupt's write loop and refill compute the interrupt function |
| `PdmaDriver.WriteSide.Take` | pdma-v1.1-src/pdma-dev.c:292-300 | the head of the free list is handed out, or nothing changes |
| `PdmaDriver.WriteSide.PutBack` | pdma-v1.1-src/pdma-dev.c:302-305 | the next take gives the same block back and leaves everything as it was |
| `PdmaDriver.WriteSide.Commit` | pdma-v1.1-src/pdma-dev.c:310-326 | refused while DMA is off, otherwise submitted if there is room and pending if not |
| `PdmaDriver.WriteSide.ListInit` | pdma-v1.1-src/pdma-dev.c:858-880 | every write block is free, in order, with counters and histories reset |
| `PdmaDriver.WriteSide.StatSubmitInc` | pdma-v1.1-src/pdma-dev.c:1223-1236 | the tally goes on summarising the recorded levels, and its maximum is at least the new one |
| `PdmaDriver.WriteSide.StatPendingInc` | pdma-v1.1-src/pdma-dev.c:1237-1250 | the tally goes on summarising the recorded backlogs, and its maximum is at least the new one |
| `PdmaDriver.Pdma.constructor` | pdma-v1.1-src/pdma-dev.c:883-895 | DMA off and all blocks free |
| `PdmaDriver.Pdma.IntrNotify` | pdma-v1.1-src/pdma-dev.c:673-712 | both directions complete and refill while DMA is on, neither changes while it is off |
| `PdmaDriver.Pdma.Stop` | pdma-v1.1-src/pdma-dev.c:363-394 | DMA is off, and the result is 0 iff the reset works and rw_cnt reads zero within the polls allowed |
| `PdmaDriver.Pdma.EnableDma` | pdma-v1.1-src/pdma-dev.c:406-409 | under the lock, fresh lists and DMA on, nothing submitted yet |
| `PdmaDriver.Pdma.SubmitReads` | pdma-v1.1-src/pdma-dev.c:411 | after the lock was dropped, what is free by then is submitted until none is left or the FIFO is full |
| `PdmaDriver.Pdma.GetStat` | pdma-v1.1-src/pdma-dev.c:416-524 | the report ReportSound speaks of |
| `XenQueue.RingUnique` | ire/Net_Dom0/xen_queue.h:4-9 | the links alone determine the sequence a ring holds |
| `XenQueue.Element.constructor` | ire/Net_Dom0/xen_queue.c:4-14 | the element heads an empty queue |
| `XenQueue.Push` | ire/Net_Dom0/xen_queue.c:17-23 | the element becomes the last, whatever its links held |
| `XenQueue.Pop` | ire/Net_Dom0/xen_queue.c:26-37 | null iff empty, otherwise the first element, unlinked, and the rest in order |
| `XenQueue.IsEmpty` | ire/Net_Dom0/xen_queue.c:40-42 | whether the ring holds no element |
| `XenQueue.Front` | ire/Net_Dom0/xen_queue.c:45-52 | the first element, left in place, or null iff empty |
| `NativeQueue.TaskQueue.Enqueue` | ire/Net_Dom0/data.c:660-669 | the linked push appends the task to the queue the machine speaks of |
| `NativeQueue.TaskQueue.Dequeue` | ire/Net_Dom0/data.c:801-805 | the linked pop and container_of take its first task, or nothing from an empty queue |
| `Dispatcher.StepKeepsInv` | ire/Net_Dom0/data.c:791-817 | every step keeps order, safe pops and wakeups |
| `Dispatcher.ServedInPushOrder` | ire/Net_Dom0/data.c:791-817 | over every run, served, in hand and queued together are the push log |
| `Dispatcher.PopNullOnlyOnStop` | ire/Net_Dom0/data.c:798-805 | the pop gives nothing iff the queue is empty, and that takes a requested stop |
| `Dispatcher.StopPopsNothing` | ire/Net_Dom0/data.c:798-807 | a run in which a stop makes it pop nothing |
| `Dispatcher.NeverSleepsOnWork` | ire/Net_Dom0/data.c:798-800 | asleep with work means some producer has its wake_up still to do |
| `Dispatcher.TestOutcome` | ire/Net_Dom0/data.c:798-800 | testing its condition the thread sleeps iff there is no task and no stop, and otherwise pops |
| `Dispatcher.ServesQueue` | ire/Net_Dom0/data.c:791-817 | left alone it serves the queue in order to the end |
| `Dispatcher.EverythingServed` | ire/Net_Dom0/data.c:791-817 | so from every reachable state it comes to have served everything pushed |
| `Dispatcher.AnyPushes` | ire/Net_Dom0/data.c:660-669 | any sequence of tasks can be pushed |
| `Dispatcher.Wakes` | ire/Net_Dom0/data.c:660-669 | a wake_up or a stop starts a sleeping thread and nothing else does |
| `XenRing.SlotIsRemainder` | ire/backup_con/dom0_141223_blocksz/data.c:279 | the slot of an index is its low bits |
| `XenRing.WrapKeepsSlot` | ire/backup_con/dom0_141223_blocksz/data.c:279-280 | wrapping a free-running index at 2^32 does not change its slot |
| `XenRing.SlotsDiffer` | ire/backup_con/dom0_141223_blocksz/data.c:279 | indices less than a ring apart have different slots |
| `XenRing.UnconsumedExact` | ire/backup_con/dom0_141223_blocksz/data.c:338 | in lock-step the work count of the final check is the number of requests left |
| `XenRing.UnconsumedIs` | ire/backup_con/dom0_141223_blocksz/data.c:338 | in general it is that or the room left for responses, whichever is less |
| `XenRing.OverflowIff` | ire/backup_con/dom0_141223_blocksz/data.c:263 | the guard is true iff as many requests are consumed and not answered as the ring has slots |
| `XenRing.NotifyIff` | ire/backup_con/dom0_141223_blocksz/data.c:235 | a push notifies iff the event index lies among the indices it publishes |
| `XenPromises.FillAt` | ire/backup_con/dom0_141223_blocksz/data.c:258-259 | publishing writes the new requests and leaves the rest of the window alone |
| `XenPromises.StepKeepsInv` | ire/backup_con/dom0_141223_blocksz/data.c:247-367 | every step of frontend, interrupt and service thread keeps the invariant |
| `XenPromises.GuardNeverFires` | ire/backup_con/dom0_141223_blocksz/data.c:263-265 | at every loop head rsp_prod_pvt equals req_cons and the overflow guard is false |
| `XenGuard.GuardIsDead` | ire/backup_con/dom0_141223_blocksz/data.c:263-265 | the same with nothing assumed of the frontend, which may rewrite the whole shared page between any two steps |
| `XenGuard.OnlyTheGoalEndsThePass` | ire/backup_con/dom0_141223_blocksz/data.c:263-276 | so a pass goes on until req_cons reaches the req_prod it read, unless stopped or out of pool entries |
| `XenGuard.PassIgnoresRingSize` | ire/backup_con/dom0_141223_blocksz/data.c:263-323 | it answers that many requests even where the ring has fewer slots |
| `XenGuard.OverPublishing` | ire/backup_con/dom0_141223_blocksz/data.c:258-263 | and some frontend brings about a pass of 2^32 - 1 |
| `XenPromises.ResponsesMatchRequests` | ire/backup_con/dom0_141223_blocksz/data.c:220-318 | responses come in request order with the request's id and operation; the status is one higher for open, write and close, for an ioctl iff the device reported no error, and the original otherwise |
| `XenPromises.DeviceAnswers` | ire/backup_con/dom0_141223_blocksz/data.c:300-303 | the report so meant is the one the device gave when the request was executed |
| `XenPromises.FrontendReadsResponses` | ire/backup_con/dom0_141223_blocksz/data.c:233-235 | the frontend reads exactly the responses made, in order |
| `XenPromises.SleepReachable` | ire/backup_con/dom0_141223_blocksz/data.c:347-353 | a new ring's thread goes to sleep with its event index armed |
| `XenPromises.NoLostWakeup` | ire/backup_con/dom0_141223_blocksz/data.c:328-367 | asleep with no wakeup under way, every request is answered and any next push raises an event |
| `XenPromises.PushInFlightNotifies` | ire/backup_con/dom0_141223_blocksz/data.c:328-367 | asleep during a push, either all is answered or the push's own test raises an event |
| `XenProgress.ServesAndSleeps` | ire/backup_con/dom0_141223_blocksz/data.c:328-367 | woken and left alone, the thread answers everything published, with the device's answers, and goes back to sleep |
| `XenProgress.StopEnds` | ire/backup_con/dom0_141223_blocksz/data.c:347-367 | told to stop, it leaves its outer loop from any state within twenty steps of its own |
| `XenProgress.StopTakesEffect` | ire/backup_con/dom0_141223_blocksz/data.c:347-367 | and it can be told to in every reachable state |
| `XenProgress.OnlyStopEnds` | ire/backup_con/dom0_141223_blocksz/data.c:347-367 | and over every run only a stop makes it |
| `XenProgress.SleepsUntilEvent` | ire/backup_con/dom0_141223_blocksz/data.c:351-353 | asleep it takes no step until an event interrupt or a stop, over every run |
| `XenProgress.EventWakes` | ire/backup_con/dom0_141223_blocksz/data.c:86-100 | and an event interrupt lets it go on |
| `XenProgress.FrontendCan` | ire/backup_con/dom0_141223_blocksz/data.c:258-259 | the frontend can publish exactly what fits the ring and read exactly what is answered |
| `RefCount.CallsAlternate` | ire/backup_con/dom0_141223_blocksz/data.c:288-312 | device calls alternate and the device is in use iff the count is positive, whatever the frontends do |
| `RefCount.CountIsTotal` | ire/backup_con/dom0_141223_blocksz/data.c:288-312 | the count is the sum of what the frontends hold |
| `RefCount.InUseIffHeld` | ire/backup_con/dom0_141223_blocksz/data.c:288-312 | with balanced frontends the device is in use iff some frontend holds it |
| `RefCount.InUseExactly` | ire/backup_con/dom0_141223_blocksz/data.c:288-312 | for any frontends, in use iff held is true exactly while nobody holds it or the surplus releases are fewer than what is held |
| `RefCount.InUseIsHeld` | ire/backup_con/dom0_141223_blocksz/data.c:288-312 | a device in use is held by someone even without balance |
| `RefCount.DisciplinedBalanced` | ire/backup_con/dom0_141223_blocksz/data.c:305-309 | frontends that release only what they hold are balanced |
| `RefCount.SurplusReleaseHides` | ire/backup_con/dom0_141223_blocksz/data.c:305-309 | the smallest case where it is not: one surplus release leaves the device closed for the next frontend that opens it |
| `XenService.Device.Ioctl` | ire/backup_con/dom0_141223_blocksz/data.c:133-218 | the device is called for the first start and the last stop only, and an error needs a call |
| `XenService.FailsIffCalled` | ire/backup_con/dom0_141223_blocksz/data.c:133-218 | an ioctl fails iff it reaches the device, which a repeated start or early stop does not, and the device errs |
| `XenService.Device.Execute` | ire/backup_con/dom0_141223_blocksz/data.c:287-318 | each operation's effect on counts, device calls and log; open, write and close never fail, unknown operations always, an ioctl iff the device is reached and reports an error |
| `XenService.HistoryConsistent` | ire/backup_con/dom0_141223_blocksz/data.c:286-322 | along any history counts and calls stay those of the requests in the log |
| `XenService.DeviceUse` | ire/backup_con/dom0_141223_blocksz/data.c:288-312 | open and close alternate, start and stop alternate, and each is on iff its count is positive |
| `XenService.OpenIffHeld` | ire/backup_con/dom0_141223_blocksz/data.c:288-312 | with balanced frontends the device is open iff one of them has it open |
| `XenService.DmaIffHeld` | ire/backup_con/dom0_141223_blocksz/data.c:139-163 | with balanced frontends DMA runs iff one of them has started it |
| `XenService.OpenExactly` | ire/backup_con/dom0_141223_blocksz/data.c:288-312 | for any frontends, exactly when open iff held is true of the device |
| `XenService.DmaExactly` | ire/backup_con/dom0_141223_blocksz/data.c:139-163 | and exactly when running iff held is true of DMA |
| `RingPass.ProducedInPlace` | ire/backup_con/dom0_141223_blocksz/data.c:263-323 | after at most one lap each slot holds what was produced from its own old element |
| `XenLoop.Pool.Alloc` | ire/backup_con/dom0_141223_blocksz/data.c:53-66 | the head of the free list, which is then nobody else's to be given, or nothing from an empty list |
| `XenLoop.Pool.Free` | ire/backup_con/dom0_141223_blocksz/data.c:72-83 | the entry can be given out again, no entry is on the list twice, and waiters are woken iff there was none |
| `XenLoop.Ring.Consume` | ire/backup_con/dom0_141223_blocksz/data.c:279-280 | the slot of the next request, with the index advanced |
| `XenLoop.Ring.MakeResponse` | ire/backup_con/dom0_141223_blocksz/data.c:220-245 | the response replaces the request it answers and no other slot; notify as the macro says |
| `XenLoop.ResponseMeaning` | ire/backup_con/dom0_141223_blocksz/data.c:227-229 | a response keeps id and operation, and its status tells success from failure |
| `XenLoop.ServedInPlace` | ire/backup_con/dom0_141223_blocksz/data.c:263-323 | after a pass each request served is answered in its own slot with the outcome the device's state implies |
| `XenLoop.ServedLeavesRest` | ire/backup_con/dom0_141223_blocksz/data.c:263-323 | other requests and unread responses are untouched |
| `XenLoop.ServedConsistent` | ire/backup_con/dom0_141223_blocksz/data.c:263-323 | the device executed exactly the requests served, in order, and its counts and calls agree |
| `XenLoop.GuardFalse` | ire/backup_con/dom0_141223_blocksz/data.c:263-265 | in lock-step the guard is false and unequal indices mean a request is there |
| `XenLoop.DoCharIoOp` | ire/backup_con/dom0_141223_blocksz/data.c:247-326 | a pass serves every request published unless stopped or without a pool entry, stops early for no other reason, reports the rest as more to do, and leaves the pool whole; each request served is answered in its own slot, other slots are untouched, and the device executes just those, in order and as written |
| `MemParse.StrToUll` | pdma-v1.1-src/tools/pdma-lib.c:64-87 | the value of the longest run of digits in the guessed base, modulo 2^64, and where it ends |
| `MemParse.Parse` | pdma-v1.1-src/tools/pdma-lib.c:102-127 | that value times 1024 once, twice or three times by the suffix, modulo 2^64 |
| `MemParse.DigitsDenote` | pdma-v1.1-src/tools/pdma-lib.c:74-82 | the printed digits of a number denote it |
| `MemParse.ParseUndoesPrint` | pdma-v1.1-src/tools/pdma-lib.c:46-127 | in bases 8, 10 and 16, parsing a printed number gives it back times its suffix |
| `MemParse.ReadsAsIff` | pdma-v1.1-src/tools/pdma-lib.c:46-87 | exactly what may follow a printed number for it to be read as itself |
| `MemParse.SuffixMeans` | pdma-v1.1-src/tools/pdma-lib.c:106-122 | K is 2^10, M 2^20 and G 2^30, in either case, and nothing else is a suffix |
| `MemParse.DigitMeans` | pdma-v1.1-src/tools/pdma-lib.c:74-82 | a character is a digit of value d iff it is the d-th hexadecimal digit in either case |
| `MemParse.BaseMeans` | pdma-v1.1-src/tools/pdma-lib.c:46-62 | base 16 for 0x in either case before a hexadecimal digit, 8 for another leading 0, 10 for anything else |

## Left out

- Reading and writing files, argument handling, printing and timing in `getoutput`, `getfilesize`, `main` and the tools.
- PCI access and device registers: the device is an environment that consumes and fills submitted blocks in order.
- The reinitialisation after a PCIe error (`pdma-v1.1-src/pdma-dev.c:990-1012`), pool allocation and registration.
- Interleaver.InterleaveSigned: requires that no index overflows int, because C leaves signed overflow undefined. That holds for 138 of the 188 legal sizes, listed by Interleaver.SignedRange; for the others there is no defined behaviour to model, only what a wrapping machine would read (Interleaver.OverflowReadsBefore).
- FrameBuilder.EncodeStreams: has the same requirement, because it calls the interleaver.
- FrameBuilder.BuildFrame: has the same requirement; the frame itself (`Frame`) is defined and read back for all lengths.
- The one-second limit of `pdma_dma_stop` in `PdmaProtocol`: there the stop may give up at any poll that finds a thread inside. `PdmaDriver.Pdma.Stop` counts the polls.
- PdmaDriver.Pdma.constructor: rw_cnt and the wait queues are not fields of the class; they are in `PdmaProtocol` and `PdmaSleep`.
- The order of deliveries under several readers after failed copies: the code does not keep it. Only the single-reader order and the payload counts are stated.
- PdmaStats.ReportSound: the report is taken in one step and totals are unbounded. Reading the words one by one is `PdmaTornReport`, for totals, counts and extremes; the 64-bit totals wrap eventually.
- PdmaDriver.Pdma.GetStat: likewise reads all its fields at one moment.
- The read FIFO warnings (`pdma-v1.1-src/pdma-dev.c:64-98`), which only print.
- `xen_queue_length` (`ire/Net_Dom0/xen_queue.c:55-69`): its loop never advances, so it does not end for two or more elements.
- What serving a task does (sockets, mapped pages, device reads) and the client end's remote and submit queues.
- The two-thread write hand-over of `ire/Dom0/data.c`, which releases its mutex and goes on without it.
- The back end's notification of the frontend is computed by XenLoop.Ring.MakeResponse; that a sleeping frontend is woken is not stated.
- XenBackend models one frontend with its own thread; other threads appear as an allocation that may fail.
- XenLoop.DoCharIoOp: one pass with no frontend acting meanwhile; `XenBackend` and `XenGuard` let it act at any time.
- The ioctl parameters a response carries back, and `filp_open` failing: the code ignores its result.
- Xenbus state changes, grant mapping, module loading.
- `reverse` in the encoder's tools: a table of 256 values.
- The later driver versions and older snapshots, which print more or repeat these files.
