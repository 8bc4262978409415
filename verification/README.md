# Verification of Kernova-TEE

A Dafny model of the parts of Kernova-TEE that hold state, run loops or do arithmetic, and proofs of what
they guarantee. `dafny verify dfyconfig.toml` checks everything.

The modules build on each other in the way the program does.

* **Marshalling kernels and integrity hash.** `Words` has the 64-bit operations and their inverses, `Folds`
  the theory of a step folded over data, `IntegrityHash` the four lanes and the finalizer. `WordIntegers`
  (with `Counting`) proves that words are integers modulo 2^64, and `HashReference` that the hash is one
  written over integers alone. `FlatMemory` says
  what a copy by blocks does to one flat memory whose ranges may overlap, `MemoryBus` is that memory with a
  record of every access, `SimdPacker` and `HashKernel` are the assembly loops over it.
* **Trace engine.** `TraceLog` is the bounded log for one caller; `ConcurrentLog` and
  `ConcurrentLogTheorems` are the same routine run by any number of loggers whose memory operations
  interleave; `LogReference` and `FailureReport` say what the slots and counters hold in numbers.
  `RegionIntegrity` and `TraceEngine` are the baseline table and the region checks, `Watchpoints`
  the watchpoint table.
* **Linux driver.** `ByteWrites` and `Vmcb` are the control block, `ControlBlockBytes` its description by
  addresses and numbers, `SvmContext` and `Ioctl` the context, the
  pages, the registers and the dispatcher on values, `DriverRuns` what holds over all sequences of calls, `DriverReference`
  what the calls answer and leave in registers and pages in the numbers and bytes of the interface, and
  `SvmDriver` the driver as objects and pages that are updated in place, proved against the value level.
* **Userspace.** `Backend`, `BackendRuns` and `KernelBackend` are the kernel driver backend together with the
  driver, `Hypervisor`, `HypervisorRuns` and `HypervisorInit` the bring-up of hardware virtualization, `Enclave`
  and `EnclaveRuns` the enclave on top of the copy kernels, `Monitor` the integrity monitor.

What the program cannot decide itself is an input of the model and arbitrary: allocation results, faults of
copies from and to user space, the contents of VM_CR, the module parameter at each moment it is read, the
control block, guest page and host save area as VMRUN leaves them, whether the device can be opened, the
environment variables, the result of `check_avx512_support`, and the time stamp counter.

Assumptions: all driver calls run on one processor, and nobody else writes EFER or VM_HSAVE_PA (the registers
are per processor, and the code does not pin itself to one); the page allocator returns neither the null page
nor a page that is still allocated; VMRUN writes no memory but the three pages of the context (the guest that
is prepared executes two nops and a hlt); the backend is the driver's only client; the direction flag is clear;
the static buffers of the trace engine do not overlap. A call in a run whose allocator answer is impossible is
skipped.

## Where the text and its comments differ

The model follows the text.

* `simd_pack_512bit` returns what remains after its 64-byte vectors, not the total; and if something remains
  it jumps into `simd_pack_256bit` with one frame pointer too many on the stack, so that the final `ret` takes
  the frame pointer for its return address. `PackData` therefore returns to its caller with AVX-512 only for
  multiples of 64, with 0 in RAX; otherwise its result is `Lost`, with the bytes copied.
* Invalid arguments of `simd_unpack_data` fall through into the exit for size 0: the result is 0.
* `mov eax, -1` clears the upper half of RAX, so no 64-bit result is negative. The tests for a negative result
  in `send_data` and `receive_data` never succeed.
* The copy kernels move upwards in blocks. Over overlapping ranges with the destination inside the source they
  are not a memmove; `KernelIsMemmoveIff` gives the exact condition.
* The shipped baselines have null addresses: the hash is refused and the check always passes
  (`ShippedChecksAlwaysPass`). The detection theorems are about entries with a recorded hash.
* Lane 3 of the hash is not invertible (`Lane3HasNoInverse`), so the single-byte theorem is about lanes 0 to 2.
* `trace_log_event` checks the index and increments it in separate steps. Concurrent calls can be handed the
  same slot; `SlotSharedIffOverlap` and `HoleIffOverlap` say exactly when.
* Whether an event is critical is decided by its type, not by a severity; `rdtsc` gives the low half of the
  counter only.
* A CREATE_VM that gets a page for the control block but none for the guest leaves the physical address of the
  freed page in the context; no other failing call but RUN_VM leaves anything (`FailureLeavesNoTraceIff`,
  `StaleAddressExample`). RUN_VM reports a fault after the guest has run exactly if its answer cannot be copied
  out (`FailedRunIff`).
* `hardware_virtualization_validated` is never cleared: not by `hypervisor_shutdown`, and not by a bring-up that
  ends before it asks for the status. After a validated bring-up, a shutdown and a bring-up without strict mode
  that fails, the flag is still set although the context is destroyed (`FlagCanBeStale`, `FlagOutlivesMachine`).
  `FlagMeans` gives the exact condition.

## Model

| member | source | states |
|---|---|---|
| Words.MulPrimeUndone | service-api/service-cpp/src/marshall/simd_packer.asm:477 | multiplying by the prime 0x100000001b3 modulo 2^64 is undone by the named constant, both ways |
| Words.XorShiftUndone | service-api/service-cpp/src/marshall/simd_packer.asm:557-559 | the shift-xor of the finalizer is its own inverse |
| Words.RotationsUndone | service-api/service-cpp/src/marshall/simd_packer.asm:490-510 | each of the four rotations is undone by the opposite one |
| Words.LittleEndianRoundTrip | service-kernel/linux/amd_svm/amd_svm.c:75-83 | a stored quadword is loaded unchanged |
| WordIntegers.WordInt | service-api/service-cpp/src/marshall/simd_packer.asm:477-510 | a number below 2^64 as a word and back is itself |
| WordIntegers.AddInt | service-api/service-cpp/src/marshall/simd_packer.asm:486-509 | addition of words is addition modulo 2^64 |
| WordIntegers.TimesInt | service-api/service-cpp/src/marshall/simd_packer.asm:477-509 | multiplication of words is multiplication modulo 2^64 |
| WordIntegers.LittleEndianInt | service-api/service-cpp/src/marshall/simd_packer.asm:516-531 | the stored bytes of a word are the digits of its number in base 256, lowest first |
| WordIntegers.LoadedBytes | service-kernel/linux/amd_svm/amd_svm.c:75-83 | eight bytes that are loaded as a word are stored back unchanged |
| IntegrityHash.Step0Undone | service-api/service-cpp/src/marshall/simd_packer.asm:486-490 | a step of lane 0 can be undone from the new state, the byte and the index, and every state is reached |
| IntegrityHash.Step1Undone | service-api/service-cpp/src/marshall/simd_packer.asm:492-497 | the same for lane 1 |
| IntegrityHash.Step2Undone | service-api/service-cpp/src/marshall/simd_packer.asm:499-504 | the same for lane 2 |
| IntegrityHash.LanesRevealByte | service-api/service-cpp/src/marshall/simd_packer.asm:484-510 | for a fixed state and index, a step of any of the four lanes is injective in the byte |
| IntegrityHash.Fmix64Undone | service-api/service-cpp/src/marshall/simd_packer.asm:556-570 | the finalizer is a bijection on 64-bit words, with its inverse |
| IntegrityHash.SingleByteTamperDetected | service-api/service-cpp/src/marshall/simd_packer.asm:469-531 | for every length, two buffers that differ in exactly one byte differ in each of the output lanes 0, 1 and 2 |
| IntegrityHash.SuffixDecidedAtCut | service-api/service-cpp/src/marshall/simd_packer.asm:480-531 | two buffers of one length that agree from index k on have equal outputs in lanes 0 to 2 if and only if their lane states at k are equal |
| IntegrityHash.SeedRecovered | service-api/service-cpp/src/marshall/simd_packer.asm:469-531 | an explicit backward loop recovers the seeds of lanes 0 to 2 from the output and the data |
| IntegrityHash.LastByteTamperDetectedByLane3 | service-api/service-cpp/src/marshall/simd_packer.asm:506-510 | lane 3 detects a change of the last byte |
| IntegrityHash.Lane3MergesStates | service-api/service-cpp/src/marshall/simd_packer.asm:506-510 | states of lane 3 that differ in the top bit alone become equal with the next byte, whatever the data |
| IntegrityHash.Lane3HasNoInverse | service-api/service-cpp/src/marshall/simd_packer.asm:506-510 | no function undoes a step of lane 3 |
| IntegrityHash.LaneBytesInjective | service-api/service-cpp/src/marshall/simd_packer.asm:516-531 | the 32 stored bytes determine the four lanes |
| HashKernel.HashBlocks | service-api/service-cpp/src/marshall/simd_packer.asm:448-580 | the call is refused with -1 in EAX, without an access, exactly for a null output or a null buffer of nonzero size; otherwise the 32 bytes at the output are the digest of the data as it was, nothing else changes, and only data is read |
| HashReference.HashBlocksStores | service-api/service-cpp/src/marshall/simd_packer.asm:469-554 | those 32 bytes, read as four little-endian numbers: for a nonnull buffer of any size below 2^64 the four numbers of the integer hash `RefDigest`, for a null buffer the four constants |
| HashReference.DigestIsReference | service-api/service-cpp/src/marshall/simd_packer.asm:469-570 | the hash over machine words is `RefDigest`: seeds, multipliers and shifts as literals, sums and products modulo 2^64, rotations as x * 2^r mod 2^64 + x / 2^(64-r), exclusive or digit by digit |
| HashReference.Step0Int | service-api/service-cpp/src/marshall/simd_packer.asm:486-490 | a step of lane 0 over integers: exclusive or with byte plus index, times 0x100000001b3, rotated by 13 |
| HashReference.Step1Int | service-api/service-cpp/src/marshall/simd_packer.asm:492-497 | lane 1: plus (256 * index xor byte), times the prime, rotated by 29 |
| HashReference.Step2Int | service-api/service-cpp/src/marshall/simd_packer.asm:499-504 | lane 2: exclusive or with 2^32 * byte and the index, times the prime, rotated by 37 |
| HashReference.Step3Int | service-api/service-cpp/src/marshall/simd_packer.asm:506-510 | lane 3: exclusive or with the prime times (byte plus index, xor the state), rotated by 43 |
| HashReference.FinishInt | service-api/service-cpp/src/marshall/simd_packer.asm:556-570 | the finalizer over integers with its two multipliers, where the shift is a division by 2^33 |
| HashReference.SeedsInt | service-api/service-cpp/src/marshall/simd_packer.asm:469-476 | the four seeds over integers: the first constant xor the size, the second xor size * 2^17 mod 2^64, and two constants |
| HashReference.SeedsDiffer | service-api/service-cpp/src/marshall/simd_packer.asm:473 | the seeds of lane 0 for two sizes differ by exactly the exclusive or of the sizes, so no two sizes below 2^64 share one |
| HashReference.SeedsOfNothing | service-api/service-cpp/src/marshall/simd_packer.asm:469-476 | the four seeds for size 0 as literals |
| HashReference.StoredForNothing | service-api/service-cpp/src/marshall/simd_packer.asm:544-554 | the 32 bytes for a null buffer of size 0, as four numbers |
| HashReference.XorIsInt | service-api/service-cpp/src/marshall/simd_packer.asm:473-509 | exclusive or of words is exclusive or of their binary digits |
| HashKernel.AbsorbAll | service-api/service-cpp/src/marshall/simd_packer.asm:480-513 | the loop folds each lane's step over the data, whatever the steps are |
| FlatMemory.CopyBlocksIsMoveIff | service-api/service-cpp/src/marshall/simd_packer.asm:112-161 | a copy by ascending blocks is a memmove on every memory if and only if the destination does not start inside the source or one block carries the whole copy |
| FlatMemory.ForwardCopyIsMove | service-api/service-cpp/src/marshall/simd_packer.asm:112-161 | if the destination does not start inside the source, moving the blocks one after the other leaves the original source bytes and changes nothing else |
| FlatMemory.FirstBlockRepeats | service-api/service-cpp/src/marshall/simd_packer.asm:112-161 | otherwise cells of the first block are repeated at the distance of the two ranges |
| MemoryBus.VectorsAreAligned | service-api/service-cpp/src/marshall/simd_packer.asm:327-357 | of the accesses of a copy, exactly the 32-byte ones of the aligned loop have aligned operands |
| MemoryBus.Memory.RepMovsb | service-api/service-cpp/src/marshall/simd_packer.asm:372-379 | the byte tail makes exactly one load and one store per byte, upwards, within both ranges |
| SimdPacker.VectorLoop | service-api/service-cpp/src/marshall/simd_packer.asm:327-357 | the loop terminates, moves as many vectors as fit with exactly the accesses of its form (aligned or not), stays within both ranges, and every aligned operand is a multiple of 32 |
| SimdPacker.Pack256 | service-api/service-cpp/src/marshall/simd_packer.asm:102-170 | 32-byte vectors, one 16-byte vector if it fits, then bytes; returns the size to the caller's address |
| SimdPacker.Pack512 | service-api/service-cpp/src/marshall/simd_packer.asm:177-212 | 64-byte vectors and the smaller ones for the rest; its return takes the return address exactly if nothing remains |
| SimdPacker.PackData | service-api/service-cpp/src/marshall/simd_packer.asm:33-95 | refused for null pointers or sizes from 2^63 on, nothing for size 0, else all bytes are copied within the ranges; the result, and when control does not come back |
| SimdPacker.UnpackData | service-api/service-cpp/src/marshall/simd_packer.asm:222-296 | the same for unpacking, where invalid arguments yield 0 |
| SimdPacker.SecureMemcpy | service-api/service-cpp/src/marshall/simd_packer.asm:305-379 | copies every size by exactly the accesses of its plan, where every 32-byte operand is aligned if and only if both addresses are multiples of 32, and returns the size |
| SimdPacker.KernelMoves | service-api/service-cpp/src/marshall/simd_packer.asm:102-379 | each kernel leaves exactly the original source bytes at the destination if the destination does not start inside the source |
| SimdPacker.KernelIsMemmoveIff | service-api/service-cpp/src/marshall/simd_packer.asm:102-379 | and is a memmove on every memory if and only if that holds or the size is one that a single vector carries |
| SimdPacker.ZeroMemory | service-api/service-cpp/src/marshall/simd_packer.asm:387-439 | exactly the buffer becomes zero and the size is returned; a null buffer or size 0 leaves RAX alone |
| TraceLog.EventLog.Reset | service-api/service-cpp/src/monitor/trace_engine.asm:52-61 | the log becomes the empty log |
| TraceLog.EventLog.LogEvent | service-api/service-cpp/src/monitor/trace_engine.asm:86-146 | one step of the log; succeeds exactly while there is a free slot |
| TraceLog.LogIsHistoryPrefix | service-api/service-cpp/src/monitor/trace_engine.asm:99-134 | after any calls since `trace_init` the slots hold exactly the first 1024 in order with the type cut to a byte, the counters equal their number, and the critical count counts accepted events whose full type is 2 |
| TraceLog.FullLogRejects | service-api/service-cpp/src/monitor/trace_engine.asm:99-102 | a call succeeds if and only if fewer than 1024 came before it, and one that fails changes nothing |
| LogReference.StepInNumbers | service-api/service-cpp/src/monitor/trace_engine.asm:99-134 | one call in numbers: below index 1024 the slot at the index gets the low 32 bits of the counter, the type modulo 256 and the data, no other slot changes, both counters go up by 1 and the critical count for type 2 only; from 1024 on nothing changes |
| LogReference.LogInNumbers | service-api/service-cpp/src/monitor/trace_engine.asm:99-134 | after any calls the first min(n, 1024) slots hold the calls in this sense in order, all others are zero, and the counters are that number and the number of calls of type 2 among them |
| LogReference.SerialLogInNumbers | service-api/service-cpp/src/monitor/trace_engine.asm:86-146 | the same for any number of concurrent loggers once no call is under way, if no two checks overlapped |
| FailureReport.FailureLogged | service-api/service-cpp/src/monitor/trace_engine.asm:185-208 | a failed integrity check is logged with type 5 and data 1, 2 or 3, and is not critical |
| ConcurrentLog.StepKeepsSafe | service-api/service-cpp/src/monitor/trace_engine.asm:99-124 | every memory operation by any logger keeps all slot stores inside the table and the bound on the write index |
| ConcurrentLog.StepConserves | service-api/service-cpp/src/monitor/trace_engine.asm:99-134 | and the balance of the counters with the loggers under way |
| ConcurrentLog.CheckKeepsOrder | service-api/service-cpp/src/monitor/trace_engine.asm:99-102 | a check while nobody is in flight hands out the next slot, a check while somebody is hands out the same slot again |
| ConcurrentLog.ReachableInv | service-api/service-cpp/src/monitor/trace_engine.asm:86-146 | the whole invariant holds in every interleaving of any number of loggers |
| ConcurrentLogTheorems.StoresStayInTable | service-api/service-cpp/src/monitor/trace_engine.asm:99-124 | stores land in slots 0 to 1023, the write index plus the loggers in flight is at most 1023 + N, and finished calls stored below the write index |
| ConcurrentLogTheorems.CountsAreConserved | service-api/service-cpp/src/monitor/trace_engine.asm:120-134 | write index minus event count is the number of loggers between the two increments; once no call is under way both equal the number of calls that returned 0, even if slots were shared |
| ConcurrentLogTheorems.SlotSharedIffOverlap | service-api/service-cpp/src/monitor/trace_engine.asm:99-121 | two calls are handed one slot if and only if a check fell between another call's check and its index increment |
| ConcurrentLogTheorems.SerialRunsRefineSequentialLog | service-api/service-cpp/src/monitor/trace_engine.asm:86-146 | without such an overlap the concurrent log ends up as the sequential one |
| ConcurrentLogTheorems.HoleIffOverlap | service-api/service-cpp/src/monitor/trace_engine.asm:99-121 | with no call under way, some slot below the write index was never handed out if and only if two checks overlapped, and such a slot is still empty |
| ConcurrentLogTheorems.BoundIsReached | service-api/service-cpp/src/monitor/trace_engine.asm:99-121 | for every N some run of N loggers drives the write index to 1023 + N |
| Watchpoints.WatchpointTable.Set | service-api/service-cpp/src/monitor/trace_engine.asm:297-360 | one step of the table, and when it succeeds |
| Watchpoints.TableHoldsFirstFour | service-api/service-cpp/src/monitor/trace_engine.asm:297-360 | over every run from load, with `trace_init` anywhere in between, the occupied slots are a prefix without gaps: the first four requests with nonzero address and size 1, 2, 4 or 8, in order |
| Watchpoints.SucceedsIffSlotLeft | service-api/service-cpp/src/monitor/trace_engine.asm:307-354 | a request succeeds if and only if its size is 1, 2, 4 or 8 and fewer than four such requests came before; an occupied slot is never overwritten |
| RegionIntegrity.VerdictComparesHashes | service-api/service-cpp/src/monitor/trace_engine.asm:257-280 | for a recorded entry the check returns 1 if and only if the hash of the region equals the recorded one |
| RegionIntegrity.RegionTamperDetected | service-api/service-cpp/src/monitor/trace_engine.asm:224-288 | the check returns 1 while the region is unchanged and 0 once exactly one byte has changed |
| RegionIntegrity.ChangedByteReported | service-api/service-cpp/src/monitor/trace_engine.asm:160-209 | with three recorded regions, a single changed byte anywhere is reported as the first region it lies in, or not at all |
| RegionIntegrity.ShippedChecksAlwaysPass | service-api/service-cpp/src/monitor/trace_engine.asm:152-217 | as shipped, every check passes and changes nothing: from load, after any sequence of `trace_init`, checks and stores outside the engine's own buffers |
| RegionIntegrity.RecordingArmsAll | service-api/service-cpp/src/monitor/trace_engine.asm:257-280 | recording the hashes of three regions one after the other meets the hypotheses of the detection theorems, whatever memory holds |
| RegionIntegrity.ArmedExample | service-api/service-cpp/src/monitor/trace_engine.asm:475-480 | such regions and such a memory exist |
| TraceEngine.HashDetectsOneByte | service-api/service-cpp/src/marshall/simd_packer.asm:448-580 | the integrity hash has the property that the region theorems need |
| TraceEngine.CompareMemory | service-api/service-cpp/src/monitor/trace_engine.asm:434-457 | accumulating all differences decides exact equality |
| TraceEngine.Engine.CheckRegion | service-api/service-cpp/src/monitor/trace_engine.asm:224-288 | first match, hash and comparison compute the verdict and leave the memory it says |
| TraceEngine.Engine.CheckIntegrity | service-api/service-cpp/src/monitor/trace_engine.asm:152-217 | three checks one after the other; the first failure is logged with its number and counted, also when the log is full |
| TraceEngine.Engine.Init | service-api/service-cpp/src/monitor/trace_engine.asm:46-78 | empty log, zero counters, three entries without address, and only the first hash zeroed |
| TraceEngine.SingleChangeReported | service-api/service-cpp/src/monitor/trace_engine.asm:152-217 | the two region theorems for the integrity hash itself: recorded regions pass unchanged, and a single changed byte is reported |
| Monitor.IntegrityMonitor.Init | service-api/service-cpp/src/main.cpp:203-219 | tracing is on and the engine is set up |
| Monitor.IntegrityMonitor.CheckIntegrity | service-api/service-cpp/src/main.cpp:221-234 | -1 if tracing is off; otherwise -2 and one more violation exactly if a region check failed |
| ByteWrites.ReadsBack | service-kernel/linux/amd_svm/amd_svm.c:65-94 | each of a list of writes that do not disagree reads back what it wrote |
| ByteWrites.UncoveredByte | service-kernel/linux/amd_svm/amd_svm.c:65-94 | a byte that no write covers keeps its value |
| ByteWrites.OrderIrrelevant | service-kernel/linux/amd_svm/amd_svm.c:65-94 | pairwise disjoint writes give the same page in any order |
| Vmcb.FieldsAreDisjoint | service-kernel/linux/amd_svm/amd_svm.c:128-159 | no two fields of the control block overlap |
| Vmcb.FieldReadsBack | service-kernel/linux/amd_svm/amd_svm.c:128-159 | every field reads back what was written for it |
| Vmcb.OtherBytesAreZero | service-kernel/linux/amd_svm/amd_svm.c:132-158 | all other bytes of the 4096 are 0 |
| Vmcb.GuestAddresses | service-kernel/linux/amd_svm/amd_svm.c:155-158 | RIP is the guest page, RSP its end less 16, the next RIP three bytes in |
| Vmcb.PrepareVmcb | service-kernel/linux/amd_svm/amd_svm.c:128-159 | the calls in the order of the code produce that page |
| ControlBlockBytes.ImageIsControlBlock | service-kernel/linux/amd_svm/amd_svm.c:128-159 | that page by literal addresses: ten segments from 0x400 with selector 0, their attributes, limit 0xffff and base 0; the intercept, ASID, TLB and next-RIP fields; the ten registers; every other byte 0 |
| ControlBlockBytes.ControlBlockIff | service-kernel/linux/amd_svm/amd_svm.c:128-159 | a page satisfies this description if and only if it is the page that is prepared |
| Vmcb.PrepareGuestPage | service-kernel/linux/amd_svm/amd_svm.c:118-126 | two nops, and hlt from there to the end of the page |
| SvmContext.InitKeepsInv | service-kernel/linux/amd_svm/amd_svm.c:178-215 | INIT keeps the driver invariant: flags and pointers agree, allocated pages are the base pages and the distinct pages held, registers are the saved values with SVM enabled |
| DriverReference.RegistersAfterRun | service-kernel/linux/amd_svm/amd_svm.c:202-209 | after every run, while initialized: bit 12 of EFER is set, all its other bits are those of the machine before, and VM_HSAVE_PA is 4096 times a live page; otherwise both registers are as before |
| DriverReference.DisabledIffBit4 | service-kernel/linux/amd_svm/amd_svm.c:189-193 | INIT is refused by VM_CR exactly if its bit 4 is 1 |
| SvmContext.CreateKeepsInv | service-kernel/linux/amd_svm/amd_svm.c:217-252 | so does CREATE, with any allocation failing |
| SvmContext.RunKeepsInv | service-kernel/linux/amd_svm/amd_svm.c:254-300 | so does RUN, whatever the processor leaves in the control block |
| DriverReference.ExitFieldsIn | service-kernel/linux/amd_svm/amd_svm.c:286-288 | exit code and the two infos are the quadwords at 0x70, 0x78 and 0x80 of the control block |
| DriverReference.RunRecordsExit | service-kernel/linux/amd_svm/amd_svm.c:277-299 | a successful RUN_VM returns and records these three quadwords of the page that VMRUN left, and the exit counts as valid if and only if one of the bytes at 0x70 to 0x77 is not 0 |
| DriverReference.ValidIffCodeLeft | service-kernel/linux/amd_svm/amd_svm.c:161-169 | over every run: a valid exit is reported if and only if the last VMRUN since the last destroy left such a byte |
| SvmContext.DestroyRestores | service-kernel/linux/amd_svm/amd_svm.c:302-316 | DESTROY gives back every page and both registers as they were, and is idempotent |
| DriverRuns.CallKeepsInv | service-kernel/linux/kernova_main.c:70-150 | every ioctl call keeps the invariant, with any fault or failure |
| DriverReference.CallAnswers | service-kernel/linux/kernova_main.c:70-150 | the return value of every call in every state the driver can be in, as a number: -14, -25, -19, -95, -22, -12, -1 or 0 and exactly when; and status, state and exit that RUN_VM copies out |
| DriverReference.AddressesAfterRun | service-kernel/linux/amd_svm/amd_svm.c:96-108 | after every run a created machine is at 4096 times the numbers of two distinct live pages that were not allocated before |
| DriverReference.CreatedPages | service-kernel/linux/amd_svm/amd_svm.c:217-252 | a successful CREATE_VM leaves in its pages the control block of a guest at 4096 times the number of the other page, and there two nops and hlt |
| DriverRuns.ReachableInv | service-kernel/linux/kernova_main.c:70-150 | the invariant holds after every sequence of calls since the module was loaded |
| DriverRuns.DestroyAfterAnyRun | service-kernel/linux/kernova_main.c:138-141 | destroying after any run restores the machine before the module was loaded; again changes nothing |
| DriverRuns.FailureLeavesNoTraceIff | service-kernel/linux/kernova_main.c:81-146 | a call other than RUN_VM that fails changes pages, registers or context if and only if CREATE_VM got its first page and not its second and the address differs from the one recorded; then it changes that address and nothing else |
| DriverRuns.FailedRunIff | service-kernel/linux/kernova_main.c:122-136 | RUN_VM fails although the guest ran if and only if the answer cannot be copied out; without running it changes nothing |
| DriverRuns.StaleAddressExample | service-kernel/linux/amd_svm/amd_svm.c:229-242 | a run of two calls that leaves the address of a free page |
| DriverRuns.CreationReusesPages | service-kernel/linux/amd_svm/amd_svm.c:229-246 | creating again takes no pages and prepares the two that are held anew |
| DriverRuns.CapsAgreeAfterCall | service-kernel/linux/kernova_main.c:60-148 | after every call with the right magic, on every exit, the snapshot is what the processor, the context and the last sample of the parameter give |
| DriverRuns.CapsNeverStale | service-kernel/linux/kernova_main.c:60-148 | after every run the snapshot describes the present context |
| DriverReference.CapsDescribe | service-kernel/linux/kernova_main.c:18-68 | each field of the snapshot by number: ABI 0x10000, backend flags 1, 2, 3 or 4, state 1, 2 or 3, revision and ASID count from the low byte of EAX and from EBX of the leaf if it is there |
| DriverRuns.VmrunIsGated | service-kernel/linux/amd_svm/amd_svm.c:265-283 | over every run VMRUN is executed only on an initialized backend, at the address of a live page, with the parameter set and the privilege requested; the page is the control block of a machine prepared before and not destroyed since, exactly as prepared for the first VMRUN and exactly as the VMRUN before left it for the others |
| DriverRuns.CreatedIffHistory | service-kernel/linux/amd_svm/amd_svm.c:217-316 | a machine exists if and only if something was prepared and the last event is no destruction |
| DriverRuns.ValidExitWasReturned | service-kernel/linux/amd_svm/amd_svm.c:166-169 | if a valid exit is reported, a VMRUN since the last destroy returned that nonzero code |
| SvmDriver.PageTable.AllocPage | service-kernel/linux/amd_svm/amd_svm.c:96-108 | the granted page is added, zeroed, and no other page changes |
| SvmDriver.PageTable.FreePage | service-kernel/linux/amd_svm/amd_svm.c:110-116 | exactly the page is removed; a null pointer is left alone |
| SvmDriver.PageTable.Vmrun | service-kernel/linux/amd_svm/amd_svm.c:277-284 | control block, guest page and host save area become what VMRUN leaves, and no other page changes |
| SvmDriver.PageTable.ReadExit | service-kernel/linux/amd_svm/amd_svm.c:286-288 | the exit fields are those of the bytes of the control block, at the offsets of `ExitFieldsIn` |
| SvmDriver.Driver.RefreshCaps | service-kernel/linux/kernova_main.c:60-68 | the field-by-field computation gives the specified capabilities |
| SvmDriver.Driver.InitSvm | service-kernel/linux/amd_svm/amd_svm.c:178-215 | refines the INIT step; its answers are those of `CallAnswers`, its registers those of `RegistersAfterRun` |
| SvmDriver.Driver.CreateMachine | service-kernel/linux/amd_svm/amd_svm.c:217-252 | refines the CREATE step, filling both pages in place |
| SvmDriver.Driver.RunMachine | service-kernel/linux/amd_svm/amd_svm.c:254-300 | refines the RUN step; its answers are those of `CallAnswers`, the exit is that of `RunRecordsExit` |
| SvmDriver.Driver.DestroyMachine | service-kernel/linux/amd_svm/amd_svm.c:302-316 | refines the DESTROY step |
| SvmDriver.Driver.HandleIoctl | service-kernel/linux/kernova_main.c:70-150 | refines the whole call: new state of context, snapshot, pages and registers, and the answer |
| Backend.AlwaysAgree | service-api/service-cpp/src/virtualization/hypervisor_backend.cpp:113-202 | after every sequence of backend operations the flags agree with the driver: configured means the machine is created, initialized that the driver is, and each implies the next down to an open device |
| Backend.ShutdownRestores | service-api/service-cpp/src/virtualization/hypervisor_backend.cpp:194-202 | shutdown closes the backend and restores the machine |
| BackendRuns.AlwaysFaithful | service-api/service-cpp/src/virtualization/hypervisor_backend.cpp:73-202 | the driver is always where the ioctl calls issued by the backend bring it |
| BackendRuns.VmrunComesFromLaunch | service-api/service-cpp/src/virtualization/hypervisor_backend.cpp:169-192 | every VMRUN in the history was executed by one launch, with the hardware enabled, of a backend that was open, initialized and configured, through the driver's own gate, on a control block prepared before, not destroyed since, and left alone in between but by other VMRUNs |
| BackendRuns.ValidatedIffNonzeroExit | service-api/service-cpp/src/virtualization/hypervisor_backend.cpp:82-111 | `hardware_validated` is true if and only if the device is open, the answer arrives, and the last VMRUN since the last destroy returned a nonzero code |
| BackendRuns.ValidatedMeansLaunched | service-api/service-cpp/src/virtualization/hypervisor_backend.cpp:82-111 | then some enabled launch executed it and no shutdown came since |
| BackendRuns.ShutdownAfterAnyRun | service-api/service-cpp/src/virtualization/hypervisor_backend.cpp:194-202 | shutdown after any operations returns both sides to their initial state |
| BackendRuns.InitReports | service-api/service-cpp/src/virtualization/hypervisor_backend.cpp:113-143 | which code `init` returns, in terms of the device, the faults, the processor, VM_CR and the allocation |
| BackendRuns.SetupReports | service-api/service-cpp/src/virtualization/hypervisor_backend.cpp:145-167 | which code `setup_guest` returns, in the same terms |
| BackendRuns.LaunchReports | service-api/service-cpp/src/virtualization/hypervisor_backend.cpp:169-192 | exactly when a launch returns 0 and exactly when it returns -2, every other failure returns -1; and which exit is recorded afterwards |
| KernelBackend.KernelDriverBackend.Init | service-api/service-cpp/src/virtualization/hypervisor_backend.cpp:113-143 | refines the operation and keeps the agreement |
| KernelBackend.KernelDriverBackend.SetupGuest | service-api/service-cpp/src/virtualization/hypervisor_backend.cpp:145-167 | refines the operation and keeps the agreement |
| KernelBackend.KernelDriverBackend.Launch | service-api/service-cpp/src/virtualization/hypervisor_backend.cpp:169-192 | refines the operation and keeps the agreement |
| KernelBackend.KernelDriverBackend.GetStatus | service-api/service-cpp/src/virtualization/hypervisor_backend.cpp:82-111 | refines the operation and keeps the agreement |
| KernelBackend.KernelDriverBackend.Shutdown | service-api/service-cpp/src/virtualization/hypervisor_backend.cpp:194-202 | refines the operation and keeps the agreement |
| Hypervisor.BringUpDecides | service-api/service-cpp/src/main.cpp:375-402 | from any state and any earlier flag: the code of a bring-up, and the flag afterwards, in terms of what the calls depend on. A bring-up that ends early leaves the flag; any other sets it if and only if a nonzero exit is recorded and the answer arrives |
| Hypervisor.StatusReports | service-api/service-cpp/src/virtualization/hypervisor_backend.cpp:82-111 | availability is the open device; support and validation also need the answer, and SVM or VMX, or a nonzero exit code |
| Hypervisor.FlagCanBeStale | service-api/service-cpp/src/main.cpp:375-380 | after a shutdown, a bring-up without strict mode whose first query faults returns 0 and leaves the flag set without an exit or a machine |
| HypervisorRuns.ValidatedMeansVmrun | service-api/service-cpp/src/main.cpp:375-399 | after any backend operations, hardware that counts as validated after a bring-up did so before and the bring-up ended early, or a prepared machine executed a VMRUN with a nonzero exit and was not destroyed since |
| HypervisorRuns.FlagDecidedByLastAsked | service-api/service-cpp/src/main.cpp:345-457 | over every run of bring-ups and shutdowns the flag is set if and only if the last bring-up that asked was answered and a nonzero exit was recorded then; all sessions since make no difference |
| HypervisorRuns.FlagMeans | service-api/service-cpp/src/main.cpp:345-457 | if the flag is set, the VMRUN behind it is in the history, and its machine has been destroyed since if and only if a later shutdown closed the open backend |
| HypervisorRuns.FlagOutlivesMachine | service-api/service-cpp/src/main.cpp:345-457 | a run of three sessions after which the flag is set and the machine is destroyed |
| HypervisorInit.HypervisorState.Start | service-api/service-cpp/src/main.cpp:364-403 | refines the bring-up: codes -3, -4 and -5 in strict mode only, and the validated flag |
| Enclave.ContentsAreHistory | service-api/service-cpp/src/main.cpp:139-169 | byte k of the enclave is the byte that the latest message longer than k has k places before its end, or 0 |
| Enclave.ReverseInPlace | service-api/service-cpp/src/main.cpp:164-166 | the swap loop reverses exactly the message |
| Enclave.EnclaveBuffer.Init | service-api/service-cpp/src/main.cpp:114-129 | the enclave is active and zero if memory was allocated, else -1 and memory is untouched |
| Enclave.EnclaveBuffer.Cleanup | service-api/service-cpp/src/main.cpp:132-136 | every byte of the enclave is wiped before its memory is given back |
| Enclave.EnclaveBuffer.SendData | service-api/service-cpp/src/main.cpp:139-169 | the codes; an accepted message is packed and reversed and its size counted; with AVX-512 and a size that is not a multiple of 64 the call does not return |
| Enclave.EnclaveBuffer.ReceiveData | service-api/service-cpp/src/main.cpp:172-194 | the codes; otherwise the prefix of the enclave is unpacked |
| EnclaveRuns.RunHoldsHistory | service-api/service-cpp/src/main.cpp:113-194 | after every sequence of accepted sends, receives and stores elsewhere the enclave holds what its messages left |
| EnclaveRuns.ReceivedByte | service-api/service-cpp/src/main.cpp:172-194 | each received byte is the byte of the history that `ContentsAreHistory` names |
| EnclaveRuns.EchoReverses | service-api/service-cpp/src/main.cpp:299-334 | a message sent and received arrives reversed |
| EnclaveRuns.EchoTwiceRestoresMessage | service-api/service-cpp/src/main.cpp:139-194 | sent and received twice, the message itself arrives |

## Left out

- The Intel VMX assembly, the VMCS set-up, the interrupt and entry code and the boot configuration: they
  depend on the semantics of privileged instructions.
- The other backends (userspace, Intel VMX, AMD userspace context), `select_backend`, the CPU feature
  detection, the names and modes that `status` reports, and the descriptor encoders: constants, copied fields
  and bit packing.
- `trace_get_statistics`, `vmcall_handler` and the self-tests of `main.cpp`: calls of what is modelled here.
- Whether the processor would enter the guest: the control block is a layout, not a checked configuration.
- Hash quality beyond a single changed byte, and prefetching.
- Concurrent driver calls: each call holds the driver's mutex, so a run is a sequence of calls. Partial copies
  to user space are faults without a struct.
- The log's slots, counters and watchpoints and the fields of the baseline entries are arrays and fields of
  their own; only regions, baseline hashes and the hash buffer lie in the flat memory. Counters do not wrap.
- The context, the capabilities and the answer of a call are single values in `SvmDriver`: assigning a field
  replaces the value. The calls of the `vmcb_write_` helpers are a list that a loop makes.
- The name of the driver and the reserved fields of the capabilities, module registration, and unloading,
  which destroys the context like DESTROY_VM does.
- A bring-up for which the device cannot be opened: it selects another backend, and is skipped in the runs of
  `HypervisorRuns`.
- Enclave.EnclaveBuffer.Init: calling it on an active enclave when memory is exhausted leaves a null enclave active in
  the program; the contract then no longer promises a valid enclave.
