# PSCMM cache, PM tables, PGRAPH context layout, NVC0 PFIFO and the IB ring helpers

A Dafny model of the sequential core of the pscnv / nouveau experimental
driver code:

- **The PSCMM VRAM cache** (`attic/nouveau/nouveau_pscmm.c`). Buffer
  objects are placed as whole runs of page-sized blocks. A modified CAR
  (Clock with Adaptive Replacement) policy works on whole buffers:
  - resident lists T1 / T2 and ghost lists B1 / B2;
  - a `no_evicted` list of pinned buffers;
  - the block counters and the adaptive target `p`;
  - an abstract allocator (a free-block set with a lowest-aligned first-fit
    search) standing in for `drm_mm`.

  Module `Pscmm` gives the policy as functions on a value-level `State` and
  proves the cache invariant `Inv` preserved by every transition. Class
  `PscmmCache.Cache` holds the same fields as the driver's `dev_priv`. Its
  single-step methods are proved to update them exactly as the matching
  function says. The eviction loop is proved to end in the last state of
  the one `Finished` trace of `Pscmm.Step` from its start. The search and
  allocation methods (GetNewSpace, EvictSomething, FindMemSpace,
  AllocVram) are specified by the invariant and the properties of the run
  they return, not by one function. Module `Fence` models the sequence-number arithmetic and
  the request list. Module `PscmmObject` models the alignment check and the
  M2MF copy offsets.
- **VBIOS power-management tables** (`pscnv/vbios/vbios_pm.c`): the
  temperature, voltage and PM-mode parsers over the BIOS image bytes, as
  methods on class `VbiosPm.Bios`.
- **Power management** (`pscnv/nouveau_pm.c`, `pscnv/pscnv_pm.c`):
  - PLL field extraction and frequency arithmetic (module `Pll`);
  - the voltage-ID encode/decode pair of register 0xe104;
  - the sysfs temperature setters;
  - the status-line helpers;
  - pscnv's PLL reprogramming and PM-mode switch.
- **The NV50 PGRAPH context-value layout** (`pscnv/nv50_grctx.c`): the
  `dd_emit` and `xf_emit` writers, the MMIO data block bookkeeping, the
  eight-strand xfer layout and the chipset gate of `nv50_grctx_init`.
- **NVC0 PFIFO** (`pscnv/nvc0_fifo.c`):
  - the double-buffered playlist builder;
  - channel kill;
  - channel set-up (control page and RAMFC);
  - fault decoding and the interrupt handler's unit loops.
- **The IB ring helpers of the 9039 test** (`test/9039.c`): the method
  header encoder and the push / fire helpers over the `pb` and `ib` arrays,
  which the test maps onto one buffer.

Register reads, the BIOS image and the outcome of allocations are
parameters. Register writes are fields of the classes, or recorded as
lists of writes.

## Model

| member | source | states |
|---|---|---|
| BlockSpace.Search | attic/nouveau/nouveau_pscmm.c:186-190 | The allocator search returns the lowest aligned start whose `bnum` blocks are free and inside the space. It returns None exactly when no such start exists. |
| BlockSpace.FitNeedsFreeBlocks | attic/nouveau/nouveau_pscmm.c:222-228 | A run of n free blocks exists only when at least n blocks are free. So when bnum exceeds free_block_num no run can exist, and find_mem_space goes straight to eviction. |
| Pscmm.Examinee | attic/nouveau/nouveau_pscmm.c:124-142 | The examined buffer is the T1 head when T1_num >= max(1, p) (or T2 is empty), else the T2 head. It is a resident T1/T2 buffer holding an allocation. |
| Pscmm.StepFacts | attic/nouveau/nouveau_pscmm.c:123-162 | One pass of the eviction loop takes the examined head as victim exactly when its reference bit is clear. A victim moves to the ghost list of the list it came from, with its blocks freed. A referenced T1 head moves to T2 and a referenced T2 head is requeued. p, the pinned list and every other buffer are untouched. |
| Pscmm.StepInv | attic/nouveau/nouveau_pscmm.c:123-162 | One pass of the eviction loop keeps the cache invariant: lists agree with tags, counters are their lists' block sums, p is in [0, total], and free plus T1, T2 and pinned blocks make up the whole space. |
| Pscmm.StepEvicted | attic/nouveau/nouveau_pscmm.c:123-162 | One pass never grows T1 and T2 together, and every block leaving the T1/T2 counters is added to free_block_num. |
| Pscmm.EvictedTrans | attic/nouveau/nouveau_pscmm.c:120-165 | The eviction guarantee composes over repeated passes of the loop. |
| Pscmm.EvictT1Counters | attic/nouveau/nouveau_pscmm.c:130-133 | Moving the T1 head to B1 moves its nblock from T1_num to B1_num and keeps every counter equal to its list's block sum. |
| Pscmm.EvictT2Counters | attic/nouveau/nouveau_pscmm.c:147-150 | Moving the T2 head to B2 moves its nblock from T2_num to B2_num and keeps every counter equal to its list's block sum. |
| Pscmm.EvictHeadSpace | attic/nouveau/nouveau_pscmm.c:158-162 | Evicting a resident head returns exactly its nblock blocks to the allocator and keeps ownership consistent. |
| Pscmm.ReleaseSpace | attic/nouveau/nouveau_pscmm.c:271-278 | nouveau_free_blocks: returning a buffer's run to the allocator grows the free set by its nblock and keeps the allocator consistent. |
| Pscmm.ReserveSpace | attic/nouveau/nouveau_pscmm.c:186-190 | Handing a free run to a non-resident buffer shrinks the free set by its nblock and records the buffer as owner of those blocks. |
| Pscmm.ResidentHeads | attic/nouveau/nouveau_pscmm.c:125-142 | Under the invariant the heads of T1 and T2 are buffers of those lists that hold an allocation. |
| Pscmm.DemoteInv | attic/nouveau/nouveau_pscmm.c:136-139 | Moving a referenced T1 head to the T2 tail (counters T1 to T2) keeps the invariant. |
| Pscmm.RequeueInv | attic/nouveau/nouveau_pscmm.c:152-154 | Requeueing a referenced T2 head keeps the invariant and lowers the number of referenced T2 buffers by one. |
| Pscmm.EvictT1Inv | attic/nouveau/nouveau_pscmm.c:125-133 | Evicting the T1 head to B1 keeps the invariant. |
| Pscmm.EvictT2Inv | attic/nouveau/nouveau_pscmm.c:142-150 | Evicting the T2 head to B2 keeps the invariant. |
| Pscmm.UpdateDirectoryDrops | attic/nouveau/nouveau_pscmm.c:94-106 | A ghost requester leaves the directory alone. Otherwise the directory either stays, or loses the B1 head (when B1_num + T1_num >= total), or loses the B2 head (when that fails and all four counters sum to >= 2 * total). At most one entry goes. |
| Pscmm.UpdateDirectoryFacts | attic/nouveau/nouveau_pscmm.c:90-107 | Trimming the directory keeps the invariant and touches only the ghost lists, their counters and the dropped entry's tag. |
| Pscmm.DropB1Inv | attic/nouveau/nouveau_pscmm.c:97-99 | Dropping the B1 head (B1_num less its nblock) keeps the invariant. |
| Pscmm.DropB2Inv | attic/nouveau/nouveau_pscmm.c:103-105 | Dropping the B2 head (B2_num less its nblock) keeps the invariant. |
| Pscmm.Ratio | attic/nouveau/nouveau_pscmm.c:241 | The adaptation step max(1, a / b) is at least 1. For a >= b > 0 it is the quotient: r * b <= a < (r + 1) * b. Below 2b (or with no divisor) it is 1. |
| Pscmm.AdaptUp | attic/nouveau/nouveau_pscmm.c:241 | A B1 hit moves p up, strictly unless p is already total, and never past total_block_num. |
| Pscmm.AdaptDown | attic/nouveau/nouveau_pscmm.c:251 | A B2 hit moves p down, strictly unless p is already 0, and never below 0. |
| Pscmm.AdmitNewInv | attic/nouveau/nouveau_pscmm.c:234-238 | A new buffer joining the T1 tail with T1_num += bnum keeps the invariant. |
| Pscmm.AdmitB1Inv | attic/nouveau/nouveau_pscmm.c:239-247 | A B1 hit moving to the T2 tail, with nblock moved from B1_num to T2_num and p grown, keeps the invariant. |
| Pscmm.AdmitB2Inv | attic/nouveau/nouveau_pscmm.c:249-257 | A B2 hit moving to the T2 tail, with nblock moved from B2_num to T2_num and p shrunk, keeps the invariant. |
| Pscmm.AdmitInv | attic/nouveau/nouveau_pscmm.c:234-259 | Admission of any non-resident buffer on a free run keeps the invariant, with free_block_num reduced by bnum. |
| Pscmm.AdmitFacts | attic/nouveau/nouveau_pscmm.c:234-259 | After admission a new buffer is on T1 with bo_ref 0 and p kept. A B1 hit is on T2 with bo_ref 0 and p not lower. A B2 hit is on T2 with bo_ref 0 and p not higher. Every other buffer is unchanged. |
| Pscmm.PinT1Inv | attic/nouveau/nouveau_pscmm.c:759-771 | Pinning a T1 buffer (to the no_evicted tail, T1_num less its nblock) keeps the invariant. |
| Pscmm.PinT2Inv | attic/nouveau/nouveau_pscmm.c:759-771 | Pinning a T2 buffer (to the no_evicted tail, T2_num less its nblock) keeps the invariant. |
| Pscmm.UnpinT1Inv | attic/nouveau/nouveau_pscmm.c:773-787 | Releasing a pinned buffer that came from T1 keeps the invariant. |
| Pscmm.UnpinT2Inv | attic/nouveau/nouveau_pscmm.c:773-787 | Releasing a pinned buffer that came from T2 keeps the invariant. |
| Pscmm.PinInv | attic/nouveau/nouveau_pscmm.c:759-771 | Pinning any buffer of T1 or T2 keeps the invariant. |
| Pscmm.PinFacts | attic/nouveau/nouveau_pscmm.c:762-763 | Pinning changes only the pinned buffer's record: it becomes no_evicted and remembers its list in old_type. p, the allocator and every other record stay. |
| Pscmm.PinThenUnpin | attic/nouveau/nouveau_pscmm.c:759-787 | Pinning then releasing a buffer puts it back on the tail of the list it came from, with bo_ref 1. Every counter, the pinned list, the ghost lists, p and the allocator are as before. |
| Pscmm.RegisterInv | attic/nouveau/nouveau_pscmm.c:447-458 | A new buffer object on no list keeps the invariant. |
| Pscmm.PlaceInv | attic/nouveau/nouveau_pscmm.c:234-263 | Admission followed by optional pinning keeps the invariant and touches no other buffer. |
| Pscmm.PlaceFacts | attic/nouveau/nouveau_pscmm.c:234-263 | The placed buffer owns its run with a clear reference bit. It is on T1 when new and on T2 after a ghost hit, or pinned (remembering that list) when asked. p grows on a B1 hit, shrinks on a B2 hit and is kept otherwise. |
| Pscmm.PlaceFound | attic/nouveau/nouveau_pscmm.c:207-265 | A search that ends with a run, followed by placement, meets what find_mem_space promises. A search without one leaves the buffer unplaced with T1 and T2 emptied. |
| Pscmm.PassTo | attic/nouveau/nouveau_pscmm.c:124-162 | A loop pass that runs Step on the trace's last state, adding the victim's blocks and noting that a victim was found, extends the trace. |
| Pscmm.FinishedUnique | attic/nouveau/nouveau_pscmm.c:120-165 | From one start there is only one finished trace: the eviction loop's outcome is determined by the fields it starts from. |
| Pscmm.AllocVramAsWrittenDrifts | attic/nouveau/nouveau_pscmm.c:454-458 | As written (nblock still 0 while pinning, set to bnum afterwards), a pinned allocation of bnum > 0 blocks leaves T1_num bnum above the blocks on T1, breaking the invariant. |
| Pscmm.AllocVramPlaced | attic/nouveau/nouveau_pscmm.c:447-458 | With nblock set before placement, the allocation keeps the invariant, and T1_num grows by bnum exactly when the buffer is not pinned. |
| PscmmCache.Cache.constructor | attic/nouveau/nouveau_pscmm.c:207-219 | An empty cache over total blocks, all free, p = 0, satisfying the invariant. |
| PscmmCache.Cache.EvictT1Head | attic/nouveau/nouveau_pscmm.c:125-133 | The fields after the T1 head is evicted are exactly Pscmm.EvictHead of the old fields. |
| PscmmCache.Cache.EvictT2Head | attic/nouveau/nouveau_pscmm.c:142-150 | The fields after the T2 head is evicted are exactly Pscmm.EvictHead of the old fields. |
| PscmmCache.Cache.DemoteT1Head | attic/nouveau/nouveau_pscmm.c:136-139 | The fields after a referenced T1 head moves to T2 are exactly Pscmm.Demote of the old fields. |
| PscmmCache.Cache.RequeueT2Head | attic/nouveau/nouveau_pscmm.c:152-154 | The fields after a referenced T2 head is requeued are exactly Pscmm.Requeue of the old fields. |
| PscmmCache.Cache.ExamineHead | attic/nouveau/nouveau_pscmm.c:124-162 | One loop pass updates the fields as Pscmm.Step and reports the victim and its nblock, keeping the invariant. |
| PscmmCache.Cache.EvictLoop | attic/nouveau/nouveau_pscmm.c:120-165 | The eviction loop keeps the invariant and the eviction guarantee. Its passes form a Finished trace of Pscmm.Step from the old fields, and the new fields are that trace's last state; it succeeds exactly when that state has found a victim and freed `need` blocks. It fails only with T1 and T2 empty, and it cannot fail when T1 and T2 held a buffer and `need` blocks. |
| PscmmCache.Cache.DropB1Head | attic/nouveau/nouveau_pscmm.c:97-99 | The fields after list_del of the B1 head are Pscmm.DropHead of the old fields. |
| PscmmCache.Cache.DropB2Head | attic/nouveau/nouveau_pscmm.c:103-105 | The fields after list_del of the B2 head are Pscmm.DropHead of the old fields. |
| PscmmCache.Cache.UpdateDirectory | attic/nouveau/nouveau_pscmm.c:90-107 | The fields after the directory trim are Pscmm.UpdateDirectory of the old fields. |
| PscmmCache.Cache.GetNewSpace | attic/nouveau/nouveau_pscmm.c:174-204 | When an aligned free run exists, its lowest start is returned and nothing changes. Otherwise eviction runs. Either way the result is an aligned free run (or none, with T1 and T2 empty) and the invariant holds. |
| PscmmCache.Cache.EvictSomething | attic/nouveau/nouveau_pscmm.c:111-168 | Eviction followed by a fresh search yields an aligned free run or none (T1 and T2 then empty), keeping the invariant. |
| PscmmCache.Cache.Admit | attic/nouveau/nouveau_pscmm.c:234-259 | The fields after admission are exactly Pscmm.Admit of the old fields. |
| PscmmCache.Cache.AdmitNew | attic/nouveau/nouveau_pscmm.c:234-238 | A new buffer's admission updates the fields as Pscmm.Admit. |
| PscmmCache.Cache.AdmitFromB1 | attic/nouveau/nouveau_pscmm.c:239-247 | A B1 hit's admission updates the fields as Pscmm.Admit. |
| PscmmCache.Cache.AdmitFromB2 | attic/nouveau/nouveau_pscmm.c:249-257 | A B2 hit's admission updates the fields as Pscmm.Admit. |
| PscmmCache.Cache.SetNoEvicted | attic/nouveau/nouveau_pscmm.c:759-771 | The fields after pinning are exactly Pscmm.Pin of the old fields. |
| PscmmCache.Cache.SetNormal | attic/nouveau/nouveau_pscmm.c:773-787 | The fields after release are exactly Pscmm.Unpin of the old fields. |
| PscmmCache.Cache.FindMemSpace | attic/nouveau/nouveau_pscmm.c:207-265 | find_mem_space keeps the invariant and pinned buffers untouched. A run found is aligned, owned by the buffer, with the list, bo_ref and p outcome of PlaceFacts. With enough free blocks and an aligned free run, the search succeeds directly. |
| PscmmCache.Cache.Place | attic/nouveau/nouveau_pscmm.c:234-263 | The fields after admission and optional pinning are exactly Pscmm.Place of the old fields, keeping the invariant. |
| PscmmCache.Cache.Register | attic/nouveau/nouveau_pscmm.c:447-458 | A fresh buffer id on no list with bnum blocks, as Pscmm.Register says, keeping the invariant. |
| PscmmCache.Cache.AllocVram | attic/nouveau/nouveau_pscmm.c:439-463 | The new buffer has size / PAGE_SIZE blocks. With space it is on T1 (or pinned, remembering T1) owning its run, with p kept. Without space it is on no list and T1 and T2 are empty. nblock is set before the search (the corrected order, see Findings). |
| PscmmObject.CheckAlign | attic/nouveau/nouveau_pscmm.c:1010-1015 | 0 becomes PAGE_SIZE. A value that is not a multiple of PAGE_SIZE is -EINVAL. |
| PscmmObject.CheckAlignIdempotent | attic/nouveau/nouveau_pscmm.c:346-350 | An alignment that passed the check passes it again unchanged. |
| PscmmObject.CheckAlignDefault | attic/nouveau/nouveau_pscmm.c:346-347 | A zero alignment means one page. |
| PscmmObject.CopyOffsetIgnoresBase | attic/nouveau/nouveau_pscmm.c:594-599 | The copy offset as written is 0 for every buffer base except the two that wrap to 0. |
| PscmmObject.CopyOffsetCounterexample | attic/nouveau/nouveau_pscmm.c:594-599 | A buffer at 0x1000 copied by a foreign channel reads from 0 as written, not from its own offset in the window. |
| PscmmObject.CopyOffset | attic/nouveau/nouveau_pscmm.c:594-599 | The intended offset is the buffer's own offset, moved into the channel's window unless the copy runs on the driver's channel. |
| PscmmObject.CopyOffsetInjective | attic/nouveau/nouveau_pscmm.c:594-599 | With the intended offset, two buffers at different offsets are copied from different addresses. |
| Fence.Wrap32 | attic/nouveau/nouveau_pscmm.c:959 | The uint32_t result lies in [0, 2^32) and differs from its argument by a multiple of 2^32. |
| Fence.Int32 | attic/nouveau/nouveau_pscmm.c:848 | The int32_t reading of a word is in [-2^31, 2^31) and agrees with the word modulo 2^32. |
| Fence.SeqnoPassed | attic/nouveau/nouveau_pscmm.c:846-849 | seq1 has passed seq2 exactly when (int32_t)(seq1 - seq2) >= 0, that is, when seq1 is fewer than 2^31 steps ahead of seq2 around the circle. |
| Fence.SeqnoAhead | attic/nouveau/nouveau_pscmm.c:846-849 | A number k < 2^31 steps ahead of b has passed b. For k > 0, b has not passed it. |
| Fence.SeqnoTotal | attic/nouveau/nouveau_pscmm.c:846-849 | Of two different numbers exactly one has passed the other, except exactly half the circle apart. |
| Fence.NextSeqno | attic/nouveau/nouveau_pscmm.c:958-961 | The counter step is never 0: it is n + 1 modulo 2^32 with 0 skipped. |
| Fence.NextSeqnoLater | attic/nouveau/nouveau_pscmm.c:958-961 | The number handed out next has passed the one just handed out, and differs from it. |
| Fence.PassedPrefix | attic/nouveau/nouveau_pscmm.c:900-915 | The number of leading requests hw has passed: all of them have passed, and the next one (if any) has not. |
| Fence.DropRenderedSpec | attic/nouveau/nouveau_pscmm.c:867-884 | Retiring one request removes exactly the leading run of active buffers rendered with its number and keeps the rest in order. |
| Fence.RetireAllSuffix | attic/nouveau/nouveau_pscmm.c:900-915 | Retiring requests only ever removes buffers from the front of the active list. |
| Fence.RetireIdempotent | attic/nouveau/nouveau_pscmm.c:900-915 | After retiring with hw, retiring again with the same hw retires nothing. |
| Fence.RetireAllPassed | attic/nouveau/nouveau_pscmm.c:900-915 | A hardware number that has passed every pending request retires all of them. |
| Fence.Channel.constructor | attic/nouveau/nouveau_pscmm.c:942-982 | A channel with the given next_seqno, no requests and an empty active list. |
| Fence.Channel.AddRequest | attic/nouveau/nouveau_pscmm.c:942-982 | On a successful allocation, returns next_seqno, advances it by NextSeqno and appends the request. On a failed allocation, returns 0 and changes nothing. |
| Fence.Channel.RetireRequest | attic/nouveau/nouveau_pscmm.c:862-886 | The active list becomes DropRendered of the old one; the requests and the counter stay. |
| Fence.Channel.RetireRequests | attic/nouveau/nouveau_pscmm.c:892-916 | The requests lose exactly the leading ones hw has passed, in FIFO order. The active list is retired by each of them in turn. |
| VbiosPm.Rd8 | pscnv/vbios/vbios_pm.c:96-100 | A byte inside the image is that byte of the image. |
| VbiosPm.Rom16 | pscnv/vbios/vbios_pm.c:100 | The 16-bit word is in [0, 2^16). |
| VbiosPm.Rom16Bytes | pscnv/vbios/vbios_pm.c:100 | The little-endian 16-bit word: its low byte at off, its high byte at off + 1. |
| VbiosPm.SensorDefaults | pscnv/vbios/vbios_pm.c:33-86 | temp_constant becomes 0. From NV40 on, the chipset's divisors are set and non-zero. Older cards keep their previous fractions. |
| VbiosPm.LimitField | pscnv/vbios/vbios_pm.c:109-117 | A limit field is a byte. |
| VbiosPm.ConstantField | pscnv/vbios/vbios_pm.c:103-106 | temp_constant of a 0x01 entry is below 128, and 0 whenever value & 0x8f is not 0. |
| VbiosPm.ApplyTemp | pscnv/vbios/vbios_pm.c:102-136 | A 0x04 / 0x07 / 0x08 entry sets critical / throttling / fan_boost to its limit field and leaves the other limits alone. Unknown tags change nothing. |
| VbiosPm.CapTemps | pscnv/vbios/vbios_pm.c:139-144 | The limits are capped at 120, 110 and 100; the sensor setup stays. |
| VbiosPm.ParseTemps | pscnv/vbios/vbios_pm.c:12-147 | The parse fails with -EINVAL exactly when the entry size is not 3, before any entry is read. |
| VbiosPm.ApplyTempsRange | pscnv/vbios/vbios_pm.c:93-137 | While entries are applied, each limit is a byte field or its default. |
| VbiosPm.ParseTempsBounds | pscnv/vbios/vbios_pm.c:88-146 | After a successful parse, critical <= 120, throttling <= 110 and fan_boost <= 100. |
| VbiosPm.CriticalDefault | pscnv/vbios/vbios_pm.c:88-110 | Without a 0x04 entry, the critical limit keeps its default. |
| VbiosPm.CriticalLastWins | pscnv/vbios/vbios_pm.c:93-110 | The last 0x04 entry decides the critical limit. |
| VbiosPm.VoltHeaderOf | pscnv/vbios/vbios_pm.c:155-175 | Version 0x10 / 0x12: header length 5 and fields at +1, +2, +4. Version 0x20 / 0x30: fields at +1, +2, +3, +5. Any other version is None. |
| VbiosPm.VoltEntryAt | pscnv/vbios/vbios_pm.c:196-203 | A version 0x30 index is shifted right by 2, so it is below 64. |
| VbiosPm.VoltEntryPtrNext | pscnv/vbios/vbios_pm.c:204 | Advancing the uint16_t entry pointer by entry_size reaches the next entry. |
| VbiosPm.VoltTableSpec | pscnv/vbios/vbios_pm.c:194-205 | The table read has count entries, and entry i is the one at tbl + header_length + i * entry_size. |
| VbiosPm.ModeHeaderOf | pscnv/vbios/vbios_pm.c:213-278 | A header exists exactly for table version 0x12 / 0x13 / 0x15 (at +1) on a BIOS below major version 0x60, and for a version in [0x21, 0x35] (at +0) from 0x60 on. The count is the byte at +2. |
| VbiosPm.ModeAt | pscnv/vbios/vbios_pm.c:236-308 | A decoded mode carries the entry's id byte, and every version with a branch in the driver decodes one. |
| VbiosPm.ModeStep | pscnv/vbios/vbios_pm.c:309-319 | One pass writes only the slot at the cursor and advances the cursor by at most one. |
| VbiosPm.ModesAfter | pscnv/vbios/vbios_pm.c:235-321 | After n entries the cursor is at most n and the slot array keeps its length. |
| VbiosPm.ValidModes | pscnv/vbios/vbios_pm.c:309-319 | At most n modes, all with a valid id for the table's version. |
| VbiosPm.ModesCompacted | pscnv/vbios/vbios_pm.c:235-321 | The final mode count is the number of entries with a valid id, and the slots before it hold exactly those modes in table order. |
| VbiosPm.DecodeModes | pscnv/vbios/vbios_pm.c:235-321 | The mode loop leaves the slots and the write cursor exactly as ModesAfter gives them for all of the header's entries, so by ModesCompacted the valid modes come first, in table order. |
| VbiosPm.Bios.constructor | pscnv/vbios/vbios_pm.c:328-358 | A BIOS image with its version and the three table pointers. |
| VbiosPm.Bios.ParseTemperatures | pscnv/vbios/vbios_pm.c:12-147 | The temperature state becomes ParseTemps of the old one on success, and stays unchanged with -EINVAL otherwise. The other tables stay. |
| VbiosPm.Bios.ParseVoltages | pscnv/vbios/vbios_pm.c:150-208 | An unsupported version is -EINVAL with voltage_entry_count 0 and the table unchanged. Otherwise the header's count and mask are stored. entry_size < 2, or a failed allocation of a non-empty table, is -EINVAL. An empty table is 0 with nothing read. Otherwise the result is 0 and the voltages are VoltTable of count entries. |
| VbiosPm.Bios.ParsePmModes | pscnv/vbios/vbios_pm.c:211-325 | An unsupported version is -EINVAL with nothing changed. Otherwise the slots and mode_info_count are ModesAfter of the whole table. |
| VbiosPm.Bios.ParsePmTable | pscnv/vbios/vbios_pm.c:328-358 | Each table with a non-zero pointer is parsed and a zero pointer leaves its state alone; the result is always 0. A failed temperature parse keeps the old thresholds. A voltage table's header sets the count and mask, and its entries are read when the entry size, count and allocation allow. An unsupported mode table leaves the modes alone. |
| Pll.LowHalf | pscnv/nouveau_pm.c:26-27 | reg1's low 16 bits are n * 256 + m. |
| Pll.ParseClockRegs | pscnv/nouveau_pm.c:23-28 | m and n are bytes and p is below 8, reg1's low 16 bits are exactly n * 256 + m, and p is bits 16..18 of reg0. |
| Pll.Divided | pscnv/nouveau_pm.c:40 | The quotient of the wrapped product n * refclk by m, rounded down: x * m <= the product < (x + 1) * m. |
| Pll.Frequency | pscnv/nouveau_pm.c:31-41 | (n * refclk / m) >> p in uint32_t arithmetic; m must not be 0. |
| Pll.FrequencyClosedForm | pscnv/nouveau_pm.c:31-41 | Without wrap-around the frequency is refclk * n / (m * 2^p), rounded down. |
| NouveauPm.VidDecode | pscnv/nouveau_pm.c:187-217 | The VID read from the register is one of 0..7 or the unknown index 0xfe; VidRoundTrip ties it to the encoder. |
| NouveauPm.VidCode | pscnv/nouveau_pm.c:263-296 | A code exists exactly for k in 0..7; any other k is the -EINVAL default case. |
| NouveauPm.VidRoundTrip | pscnv/nouveau_pm.c:187-297 | Writing VID k with (reg & 0x666fffff) \| (code << 20) and reading it back gives k. |
| NouveauPm.VidWriteKeeps | pscnv/nouveau_pm.c:297 | A voltage write keeps every bit of the register under 0x666fffff. |
| NouveauPm.FieldRestore | pscnv/nouveau_pm.c:297 | Writing back the code a register holds rebuilds the register exactly. |
| NouveauPm.VidWriteCurrent | pscnv/nouveau_pm.c:187-297 | Rewriting the VID the register already holds leaves it as it was. |
| NouveauPm.First | pscnv/nouveau_pm.c:220-222 | The index of the first entry with the wanted key, or None when there is none. |
| NouveauPm.CurrentVoltage | pscnv/nouveau_pm.c:174-232 | Before NV50 the result is -EINVAL. A result other than -EINVAL is the voltage of the first entry whose index is the register's VID. From NV50 on, such an entry guarantees a result other than -EINVAL. |
| NouveauPm.SetVoltageEffect | pscnv/nouveau_pm.c:238-305 | The result is 0 or -EINVAL, and the register changes only with result 0, to a write of some VID 0..7. Before NV50, or for a new non-zero voltage no entry has, the result is -EINVAL with the register unchanged. From NV50 on, a voltage of 0 or the one already running returns 0 with nothing written. Otherwise the first entry with the voltage decides: its index & mask is written as the VID when below 8, else -EINVAL with the register unchanged. |
| NouveauPm.SetVoltageKeeps | pscnv/nouveau_pm.c:297 | set_voltage changes no bit of 0xe104 outside the VID field. |
| NouveauPm.SetThenGet | pscnv/nouveau_pm.c:174-305 | On NV50+, after a successful set of a voltage from a table with distinct voltages and distinct VIDs, get_voltage reads it back. |
| NouveauPm.IsCurrentModeAsWritten | pscnv/nouveau_pm.c:349-358 | As written, a core clock above the mode's is never marked current. |
| NouveauPm.IsCurrentMode | pscnv/nouveau_pm.c:349-358 | Intended: current when the clocks differ by less than 1% of the mode's clock in either direction. |
| NouveauPm.IsCurrentModeAgrees | pscnv/nouveau_pm.c:349-358 | As written and intended agree whenever the core clock is at most the mode's. |
| NouveauPm.IsCurrentModeCounterexample | pscnv/nouveau_pm.c:354-357 | A 500000 kHz mode at 500100 kHz is not marked as written but is as intended. |
| NouveauPm.PmModeToString | pscnv/nouveau_pm.c:361-376 | Nothing for an id >= mode_info_count. Otherwise the line of mode id, in MHz, marked exactly when the mode is current. |
| NouveauPm.VoltageToString | pscnv/nouveau_pm.c:379-394 | Nothing for an id >= voltage_entry_count. Otherwise the entry's line in mV, marked exactly when it is the running voltage. |
| NouveauPm.CurrentLineMarked | pscnv/nouveau_pm.c:379-394 | With distinct VIDs, the line of the entry whose VID the register holds is the marked one. |
| NouveauPm.Device.constructor | pscnv/nouveau_pm.c:174-305 | The register, the voltage table, the mask and the limits as given. |
| NouveauPm.Device.GetVoltage | pscnv/nouveau_pm.c:174-232 | The table scan returns CurrentVoltage and changes nothing. |
| NouveauPm.Device.SetVoltage | pscnv/nouveau_pm.c:238-305 | The return value and the new register are those of SetVoltageEffect; nothing else changes. |
| NouveauPm.Device.SetCriticalTemperature | pscnv/nouveau_pm.c:512-536 | A parsed value is clamped to [90, 120] and stored; the byte count is returned either way. |
| NouveauPm.Device.SetThrottlingTemperature | pscnv/nouveau_pm.c:553-577 | A parsed value is clamped to [60, 115] and stored; the byte count is returned. |
| NouveauPm.Device.SetFanBoostTemperature | pscnv/nouveau_pm.c:594-618 | A parsed value is clamped to [30, 100] and stored; the byte count is returned. |
| PscnvPm.CalculateFrequency | pscnv/pscnv_pm.c:26-36 | The PLL frequency divided by 1000, rounded down. |
| PscnvPm.ClockN | pscnv/pscnv_pm.c:49 | n is the quotient of the shifted wanted clock (wrapped to 32 bits) by refclk / m, rounded down. |
| PscnvPm.NewReg1Fields | pscnv/pscnv_pm.c:52-53 | For n < 256 the new reg1 keeps every bit outside 8..15, and its n field reads back as n. |
| PscnvPm.NewReg1KeepsM | pscnv/pscnv_pm.c:52-53 | The m field (bits 0..7) survives any n. |
| PscnvPm.NewReg1Spills | pscnv/pscnv_pm.c:52-53 | n = 256 is not masked and lands in bit 16. |
| PscnvPm.Reprogram | pscnv/pscnv_pm.c:39-71 | Only reg1 of the PLL changes; every other register and the key set stay. |
| PscnvPm.ReprogramKeepsM | pscnv/pscnv_pm.c:52-53 | The new reg1 keeps the m field of the old one. |
| PscnvPm.ReprogramSetsN | pscnv/pscnv_pm.c:49-53 | When the computed n is below 256, the new reg1 keeps every bit outside 8..15 and its n field reads back as n. |
| PscnvPm.ModeGuardSpec | pscnv/pscnv_pm.c:220-222 | The intended guard admits exactly the mode indexes 0 .. count-1, all of which the guard as written admits too. |
| PscnvPm.ModeGuardCounterexample | pscnv/pscnv_pm.c:220-222 | A first byte ' ' gives profile -16, which the guard as written accepts. |
| PscnvPm.IsCurrentCounterexample | pscnv/pscnv_pm.c:157 | A 500000 kHz mode at a 500 MHz core is not marked as written but is as intended. |
| PscnvPm.IsCurrentAsWrittenRare | pscnv/pscnv_pm.c:157 | As written, a mode of a whole number of MHz is marked only when the core reads 1000 MHz or more. |
| PscnvPm.Device.constructor | pscnv/pscnv_pm.c:39-135 | The registers, reference clocks and modes as given. |
| PscnvPm.Device.ClockOf | pscnv/pscnv_pm.c:74-81 | The clock in MHz is the PLL frequency / 1000, rounded down: r * 1000 <= frequency < (r + 1) * 1000. It needs only the registers and m != 0, since it divides only by m. |
| PscnvPm.Device.PmModeToString | pscnv/pscnv_pm.c:145-160 | Nothing for an id >= mode_info_count, whatever the PLL registers hold. Otherwise mode id's line, marked exactly when its clock matches the core clock in MHz. |
| PscnvPm.Device.ClockTo | pscnv/pscnv_pm.c:39-71 | The registers become Reprogram of the old ones and the result is 0. |
| PscnvPm.Device.SetPmMode | pscnv/pscnv_pm.c:212-233 | A digit naming a mode reprograms the core, shader and memory PLLs in that order. Any other input changes nothing and needs no PLL to be ready. count is returned. |
| Grctx.Total | pscnv/nv50_grctx.c:768-774 | A list's advance is at least the count of its last emit. |
| Grctx.MaxLenSpec | pscnv/nv50_grctx.c:1185-1186 | size is at least every strand's length, and some strand has exactly that length. |
| Grctx.Align64 | pscnv/nv50_grctx.c:1174 | (x + 0x3f) & ~0x3f is a multiple of 64 in [x, x + 64). |
| Grctx.Align64Least | pscnv/nv50_grctx.c:1174 | It is the least multiple of 64 at or above x, and it leaves multiples of 64 alone. |
| Grctx.MmioDataReg | pscnv/nv50_grctx.c:1091-1094 | 0x404800 exactly for 0xa0 < chipset < 0xaa, else 0x405400. |
| Grctx.Grctx.constructor | pscnv/nv50_grctx.c:174-276 | A context in the given mode over the given data at the given position. |
| Grctx.Grctx.DdEmit | pscnv/nv50_grctx.c:768-774 | The position advances by num. In VALS mode a non-zero val is written to exactly pos .. pos + num - 1, and nothing else changes. |
| Grctx.Grctx.XfEmit | pscnv/nv50_grctx.c:1140-1146 | The position advances by 8 * num. In VALS mode a non-zero val is written to exactly pos + 8i for i < num, and nothing else changes. |
| Grctx.Grctx.MmioDdata | pscnv/nv50_grctx.c:777-1095 | The position ends where it started. The count passed to cp_ctx is the total advance of the emits, and the register is MmioDataReg. Nothing outside the block changes. |
| Grctx.Grctx.EmitStrand | pscnv/nv50_grctx.c:1179-1186 | A strand's emits advance by 8 per block, and each slot they write is a whole number of blocks after the strand's start. |
| Grctx.Grctx.PlaceStrand | pscnv/nv50_grctx.c:1179-1186 | Strand k starts at offset + k and writes only slots congruent to k modulo 8 inside its blocks. |
| Grctx.Grctx.ConstructXfer | pscnv/nv50_grctx.c:1166-1397 | offset = Align64(pos), size = the longest strand in blocks, the final position is Align64(offset + 8 * size), and ctxvals_base is set for xfer1. Only slots of the area are written, each in its own strand's residue class. |
| Grctx.Grctx.Init | pscnv/nv50_grctx.c:174-276 | An unlisted chipset gives -ENOSYS with nothing changed. Otherwise the two xfer areas follow, and 0x400 words of padding end the image. The entry position stands for the one after construct_mmio, whose cp_ctx calls are not modelled. |
| Grctx.TotalMono | pscnv/nv50_grctx.c:1179-1186 | A prefix of the emits advances no further than the whole list. |
| Grctx.StrandSlot | pscnv/nv50_grctx.c:1179-1186 | A slot of strand k is in residue class k and inside the area's size * 8 words. |
| Nvc0Fifo.SplitJoin | pscnv/nvc0_fifo.c:233-234 | The low and high 32-bit halves of a 64-bit address give back the address. |
| Nvc0Fifo.LowestBitSpec | pscnv/nvc0_fifo.c:356 | LowestBit is a set bit with no set bit below it. |
| Nvc0Fifo.Ffs | pscnv/nvc0_fifo.c:356 | ffs is 0 for 0, else one more than the index of the lowest set bit. |
| Nvc0Fifo.ClearLowest | pscnv/nvc0_fifo.c:357 | units & ~(1 << i) for the lowest set bit i is units & (units - 1). |
| Nvc0Fifo.ClearLowestBits | pscnv/nvc0_fifo.c:357 | Clearing the lowest bit keeps exactly the other set bits, all of them above it. |
| Nvc0Fifo.SetBitsMembers | pscnv/nvc0_fifo.c:355-359 | The loop visits exactly the set bits of the mask. |
| Nvc0Fifo.SetBitsIncreasing | pscnv/nvc0_fifo.c:355-359 | The set bits are visited lowest first, each once. |
| Nvc0Fifo.EnabledBelow | pscnv/nvc0_fifo.c:165-171 | The enabled channels below n, all below n. |
| Nvc0Fifo.EnabledBelowSpec | pscnv/nvc0_fifo.c:165-171 | A channel is listed exactly when its status word has bit 0, and the list is strictly increasing. |
| Nvc0Fifo.CountWordFields | pscnv/nvc0_fifo.c:175 | The entry count reads back from the low 20 bits of 0x1f00000 \| count, below the fixed 0x1f. |
| Nvc0Fifo.Disable | pscnv/nvc0_fifo.c:191-192 | chan_kill's status write clears bit 0 and keeps every other bit. |
| Nvc0Fifo.KillDelists | pscnv/nvc0_fifo.c:191-198 | After the write, channel cid is no longer enabled, and every other channel's enable bit is as before. |
| Nvc0Fifo.InitEnables | pscnv/nvc0_fifo.c:254 | The status chan_init_ib writes has the enabled bit. |
| Nvc0Fifo.IbHighWordDecode | pscnv/nvc0_fifo.c:237-238 | For an IB address below 2^48 and ib_order <= 29, word 0x4c gives back the high half and the order. |
| Nvc0Fifo.RamfcDecode | pscnv/nvc0_fifo.c:233-250 | The RAMFC gives back the control-page address (0x08 / 0x0c), the IB start and order (0x48 / 0x4c) and the sub-channel mask (0x94). |
| Nvc0Fifo.PgfUnitStr | pscnv/nvc0_fifo.c:263-275 | The fallback name is given exactly for units other than 0, 3, 4, 5 and 7. |
| Nvc0Fifo.PgfUnitStrInjective | pscnv/nvc0_fifo.c:263-275 | Distinct known units have distinct names, none of them the fallback. |
| Nvc0Fifo.PgfCauseStr | pscnv/nvc0_fifo.c:277-290 | The fallback name is given exactly when the low four bits are not one of the causes 0, 1, 2, 3, 5, 6. |
| Nvc0Fifo.PgfCauseStrSpec | pscnv/nvc0_fifo.c:277-290 | Only the low 4 bits matter, and distinct known causes have distinct names. |
| Nvc0Fifo.DecodePageFault | pscnv/nvc0_fifo.c:292-305 | The address's high and low halves are the unit's 0x2808 and 0x2804 registers. The channel field is shifted left by 12, so its low 12 bits are clear. The write flag is bit 7 of the flags. |
| Nvc0Fifo.DecodeMethod | pscnv/nvc0_fifo.c:309-315 | cid is below 128, sub and mode below 8, and mthd a multiple of 4 below 0x4000. |
| Nvc0Fifo.DecodeMethodRoundTrip | pscnv/nvc0_fifo.c:313-315 | The decoded fields are exactly bits 2..13, 16..18 and 21..23, and an address built from valid fields decodes back to them. |
| Nvc0Fifo.SubfifoStatusPartition | pscnv/nvc0_fifo.c:317-332 | The two known bits and the unknown rest partition the status. |
| Nvc0Fifo.SubfifoAcks | pscnv/nvc0_fifo.c:317-328 | A unit acknowledges exactly the known bits set in its status, each after resetting the method register. |
| Nvc0Fifo.SubfifoMasks | pscnv/nvc0_fifo.c:329-332 | The unit's interrupt enable is written once, clearing exactly the unknown status bits, and only when there are some. |
| Nvc0Fifo.AllSubfifoWrites | pscnv/nvc0_fifo.c:367-371 | All sub-FIFO writes go to the sub-FIFO register blocks. |
| Nvc0Fifo.TakeLowest | pscnv/nvc0_fifo.c:356-357 | The set bits of the mask are i followed by the set bits of the new mask, so i is the lowest and the new mask is the rest. |
| Nvc0Fifo.PageFaultUnits | pscnv/nvc0_fifo.c:352-359 | The loop reports one fault per set bit of the mask, lowest first. |
| Nvc0Fifo.SubfifoUnits | pscnv/nvc0_fifo.c:365-371 | The loop handles each set bit's unit once, lowest first. |
| Nvc0Fifo.WriteIf | pscnv/nvc0_fifo.c:345-392 | A guarded write appears exactly when its condition holds. |
| Nvc0Fifo.ClearAbsent | pscnv/nvc0_fifo.c:348-373 | Clearing a bit that is not pending changes nothing. |
| Nvc0Fifo.ClearKeeps | pscnv/nvc0_fifo.c:348-373 | Acknowledging one source leaves the tests for the later sources as they were. |
| Nvc0Fifo.IrqAcksUnfold | pscnv/nvc0_fifo.c:345-392 | The acknowledgements build up one interrupt source at a time, in the handler's order. |
| Nvc0Fifo.IrqAcksSpec | pscnv/nvc0_fifo.c:343-392 | Bit 0, the page-fault mask and the sub-FIFO mask are acknowledged exactly when pending and enabled. 0x2140 is written once, with the unhandled bits cleared, exactly when some are left. |
| Nvc0Fifo.IrqAcksRegs | pscnv/nvc0_fifo.c:343-392 | The handler's own writes go only to the PFIFO interrupt registers. |
| Nvc0Fifo.IrqHandler | pscnv/nvc0_fifo.c:335-395 | The fault reports, the sub-FIFO writes and the interrupt-register writes of the handler on the given register values, as specified by PageFaults, AllSubfifoWrites and IrqAcks. |
| Nvc0Fifo.PageFaultStage | pscnv/nvc0_fifo.c:351-362 | A pending bit 28 gives a report per faulting unit, acknowledges the mask and clears bit 28. Otherwise it does nothing. |
| Nvc0Fifo.SubfifoStage | pscnv/nvc0_fifo.c:364-374 | A pending bit 29 handles each faulting sub-FIFO, acknowledges the mask and clears bit 29. Otherwise it does nothing. |
| Nvc0Fifo.IbPacketDisables | pscnv/nvc0_fifo.c:376-392 | A pending bit 8 is never acknowledged: it ends up disabled in 0x2140. |
| Nvc0Fifo.CtlIndex | pscnv/nvc0_fifo.c:204-205 | Byte ofst of channel cid's control page is word cid * 0x400 + ofst / 4. |
| Nvc0Fifo.RamfcImageSpec | pscnv/nvc0_fifo.c:228-250 | Over a zeroed block, the image holds the set-up word at each RAMFC word and leaves the rest of the object alone. |
| Nvc0Fifo.ZeroRamfc | pscnv/nvc0_fifo.c:228-229 | The first 0x40 words of the object become 0; the rest stay. |
| Nvc0Fifo.SetupRamfc | pscnv/nvc0_fifo.c:228-250 | The object holds the RAMFC image over a zeroed block. |
| Nvc0Fifo.EntryStep | pscnv/nvc0_fifo.c:167-169 | Storing (cid, 0x4) just past the entries of a list appends cid to the list and keeps the later words. |
| Nvc0Fifo.StoreEntry | pscnv/nvc0_fifo.c:167-169 | The two stores of one entry write cid and 0x4 at pos and pos + 4 and nothing else. |
| Nvc0Fifo.FillPlaylist | pscnv/nvc0_fifo.c:165-171 | One entry (cid, 0x4) per enabled channel in cid order. pos ends at 8 bytes per entry, and the words past the entries keep their contents. |
| Nvc0Fifo.Pfifo.constructor | pscnv/nvc0_fifo.c:157-180 | Fresh playlists and control area, playlist 0 current, the channel registers as given. |
| Nvc0Fifo.Pfifo.PlaylistUpdate | pscnv/nvc0_fifo.c:157-180 | The other buffer becomes current and holds the enabled channels in cid order. 0x2270 / 0x2274 point at it with the count. The other buffer is left alone. |
| Nvc0Fifo.Pfifo.ChanKill | pscnv/nvc0_fifo.c:182-202 | Bit 0 of the channel's status is cleared, cid is written to 0x2634, and the rebuilt playlist no longer lists it. |
| Nvc0Fifo.Pfifo.ChanWr32 | pscnv/nvc0_fifo.c:204-205 | Exactly the word of byte ofst of channel cid's control page changes. |
| Nvc0Fifo.Pfifo.ClearCtlRange | pscnv/nvc0_fifo.c:221-224 | The words lo .. hi of the page become 0; nothing else changes. |
| Nvc0Fifo.Pfifo.ClearCtl | pscnv/nvc0_fifo.c:221-226 | Words 0x40..0x50, 0x58..0x60, 0x88 and 0x8c of the channel's page become 0. |
| Nvc0Fifo.Pfifo.ChanInitIb | pscnv/nvc0_fifo.c:207-261 | ib_order > 29 gives -EINVAL with nothing written. Otherwise the control words are cleared, the RAMFC is set up, the instance register points at the object and the status enables the channel. The rebuilt playlist then lists the channel. The object past the RAMFC and the killed channel stay, the playlist buffers swap, and the other buffer keeps the old current list. |
| Ring.HeaderDecode | test/9039.c:129-137 | For c < 8, s < 2^12 and m a multiple of 4 below 2^15, the kind, c, s and m read back from their bit fields. |
| Ring.HeaderKinds | test/9039.c:131-136 | BEGIN_RING and CONST_RING headers differ exactly in bit 30. |
| Ring.EntryDecode | test/9039.c:165-166 | For a 40-bit address and a size below 2^24, the IB entry gives back the address and the size. |
| Ring.ChainSnoc | test/9039.c:156-182 | A fired run that starts where the previous ones end extends the chain of runs. |
| Ring.ChainCovers | test/9039.c:156-182 | The fired runs cover every pushed word from the first push to pb_base exactly once, in order. |
| Ring.EntriesSnoc | test/9039.c:165-173 | Writing the entry of a new run just past the existing ones records it as entry ib_pos. |
| Ring.ByteSizeZero | test/9039.c:157-163 | The byte count 4 * n in uint32_t is 0 only for n == 0, for n below 2^29. |
| Ring.InvPush | test/9039.c:139-142 | A push that leaves the IB entries alone keeps the ring invariant. |
| Ring.InvSubmit | test/9039.c:165-182 | Submitting the pending run as the next entry keeps the ring invariant with pb_base caught up. |
| Ring.Ring.constructor | test/9039.c:201-216 | Pushing starts at word base, with no IB entry; pb and ib may be one buffer. |
| Ring.Ring.Push | test/9039.c:131-141 | The pushed words gain exactly w at the end, and the invariant is kept. |
| Ring.Ring.BeginRing | test/9039.c:129-132 | The pushed words gain the incrementing header of (c, m, s). |
| Ring.Ring.ConstRing | test/9039.c:134-137 | The pushed words gain the non-incrementing header of (c, m, s). |
| Ring.Ring.OutRing | test/9039.c:139-142 | The pushed words gain d. |
| Ring.Ring.Pending | test/9039.c:156-157 | The pending run is pb_base .. pb_pos, and its entry locates it at ib_virt + 4 * pb_base with byte size 4 * (pb_pos - pb_base). |
| Ring.Ring.FireRing | test/9039.c:154-183 | With nothing pushed since the last fire, nothing changes. Otherwise the run becomes IB entry ib_pos, ib_pos grows by one, the put register holds it and pb_base = pb_pos. The pushed words stay. |
| Ring.Ring.Submit | test/9039.c:165-182 | The next IB entry gets the run's address and size, the put register the new count and pb_base catches up. The invariant is kept. |
| Ring.Ring.Advance | test/9039.c:173-182 | ++ib_pos, the put register set to it, pb_base = pb_pos; the run joins the chain. |
| Ring.Ring.SetEntry | test/9039.c:165-166 | Exactly the two words of entry n change, and the pushed words stay when pb and ib are one buffer. |
| Common.Clamp | pscnv/nouveau_pm.c:527-533 | The stored value is v pulled into [lo, hi]. |

## Left out

- Concurrency: spinlocks, interrupts racing the handlers, and the memory barriers (`mfence`, `bar_flush`) are not modelled. Every operation runs alone.
- Logging (`NV_INFO`, `NV_ERROR`, `DRM_ERROR`, `printf`), `snprintf` formatting, `usleep` and `msleep`: they have no effect on the modelled state.
- PSCMM ioctls, user-page copying, `ioremap`/`do_mmap`, AGP binding, GEM handles and the M2MF ring emission: plumbing over kernel APIs that are not part of this model.
- `drm_mm` is modelled as a free-block set with a lowest-aligned first-fit search; its internals and fragmentation behaviour are not part of this model.
- The active-list helpers `nouveau_pscmm_move_active_list` and `remove_active_list` are modelled only through the active list of `Fence.Channel`. The GEM reference counting is left out.
- PscmmCache.Cache.EvictLoop: models the evidently intended loop (one victim per pass, stop once `bnum` blocks are freed, fail when T1 and T2 are empty), not the code as written, where `while(found)` inverts the exit and `num` is never incremented.
- PscmmCache.Cache.RequeueT2Head: requeues the examined T2 head and clears its reference bit, where the code (nouveau_pscmm.c:153) moves the requester `nvbo` and never clears the bit.
- PscmmCache.Cache.ExamineHead: examines T1 also when T2 is empty, which completes the rule at nouveau_pscmm.c:124 (the code would take the head of an empty list).
- Pscmm.Ratio: a zero divisor (B1_num or B2_num of 0 at nouveau_pscmm.c:241, 251) is read as a step of 1; the code divides by zero there.
- Pscmm.UpdateDirectory: an empty ghost list is not trimmed, and a dropped ghost becomes unlisted; the code takes the first entry of a possibly empty list and leaves the type of a deleted node as it was.
- Fence.Channel.RetireRequest: takes the first active buffer. The code computes the entry from the list head itself (nouveau_pscmm.c:870-874), which is not a buffer.
- Fence.Channel.AddRequest: the BEGIN_RING / OUT_RING / FIRE_RING emission of the sequence number and the jiffies stamp are not modelled.
- The retire work handler (disabled in the code) and the software copy stub are not modelled.
- The `cp_*` and `gr_def` microcode macros of nv50_grctx.c and the per-gene emit sequences are not modelled. Each strand is a given list of emit counts and values, and the units register is a parameter.
- Grctx.Grctx.MmioDdata: the effect of the `cp_ctx` call is returned as its register and count; the microcode it emits is not modelled.
- Temperature-sensor register setup, ACPI and sysfs registration, `setPLL`, and the pscnv clock setters beyond `pscnv_pm_clock_to` are left out.
- Pll.Frequency: the frequency is stated in `int` arithmetic with explicit wrap of n * refclk. It is not proved equal to the bit-vector form, which was too costly for the solver.
- PscnvPm.ReprogramSetsN: an n of 256 or more spills into the bits above 15 (NewReg1Spills). The model keeps that behaviour, and ReprogramSetsN states the field round trip only for n < 256.
- PscnvPm.ClockN: requires m > 0 and refclk / m > 0 (Ready). The code divides by `refclk/m` at pscnv_pm.c:49 without a check, so m == 0 or refclk < m is a division by zero there.
- PscnvPm.Device.SetPmMode: applies the intended guard 0 <= profile < mode_info_count (ModeGuard). As written (pscnv_pm.c:220-222) a negative profile passes and reads `pm_modes[profile]` before the array; that out-of-bounds read is not modelled (see Findings).
- PscnvPm.Device.SetPmMode: the mode clocks it passes to pscnv_pm_clock_to are kHz for table versions 0x21 and up (`ROM16 * 1000`, vbios_pm.c:289-303), while pscnv_pm_clock_to multiplies its argument by 1000 as MHz (pscnv_pm.c:49). The model reproduces this unit mismatch as written and proves nothing about the clock that results.
- VbiosPm.Rd8: a read outside the BIOS image gives 0. The code reads past its buffer there, which is undefined.
- PscmmCache.Cache.FindMemSpace: when no run is found, the model leaves the buffer unplaced. The code (nouveau_pscmm.c:234-259) still puts it on T1 or T2 and does `free_block_num -= bnum`, counting blocks it does not own.
- VbiosPm.ModeAt: table versions 0x26..0x2f and 0x31..0x34 are accepted by the header check but have no decode branch. In the code they leave the slot as it was, and the model writes nothing.
- VbiosPm.Bios.ParsePmModes: requires the mode array to have room for the header's count; the driver does not check this.
- PscnvPm.Device.PmModeToString: uses the intended marker (see Findings), not the one as written.
- NouveauPm.PmModeToString: uses the intended marker (see Findings), not the one as written.
- FIFO init and takedown register programming, `nv_wait` polling, `ioremap`, the 0x227c warning check of playlist_update and the 0x1110 kickoff check of chan_kill are not modelled.
- Nvc0Fifo.Pfifo.ChanInitIb: `pb_handle` and `flags` are unused by the code and ignored here.
- Nvc0Fifo.IrqHandler: register reads are a snapshot function `rd`, so values do not change during the handler. The interleaving of the handler's own writes with the sub-FIFO unit writes is not recorded, only each sequence in order.
- In test/9039.c, everything outside the ring helpers is not modelled: `main`'s device and mmap set-up, `OUT_RINGf`'s float type-punning, `clflush`/`mfence`, `usleep`, the 0x88 register read and `printf`.
- Ring.HeaderDecode: C's signed `int` shifts of c and s are undefined for out-of-range values. The model takes them as 32-bit words and proves the round trip for in-range fields only.
- Ring.Ring.Push: the buffers are bounded below 2^29 words, so the `int` products `pb_base * 4` and `(pb_pos - pb_base) * 4` never overflow. The uint32_t truncation of `virt` and of `size << 8` is written out with bit-vector helpers (Bits64, Bits32) that are not proved equal to reduction modulo 2^k.

## Findings

| source | as written | input that shows it | evidently intended | confidence | as-written member | corrected member |
|---|---|---|---|---|---|---|
| attic/nouveau/nouveau_pscmm.c:594-599 | `start + (chan == dev_priv->channel) ? 0 : base`: `+` binds tighter than `?:`, so the offset is 0 for nearly every buffer | a buffer at VRAM offset 0x1000 copied by a channel other than the driver's: the copy reads offset 0 | `start + ((chan == dev_priv->channel) ? 0 : base)` | high; not executed | PscmmObject.CopyOffsetCounterexample | PscmmObject.CopyOffsetInjective |
| attic/nouveau/nouveau_pscmm.c:454-458 | `nblock = bnum` is set only after find_mem_space, which adds bnum to T1_num and then, with `no_evicted`, pins the buffer and subtracts its nblock, still 0 | any pinned allocation of bnum > 0 blocks, e.g. 2 blocks in an empty 2-block cache: T1_num becomes 2 with T1 empty | nblock is set before placement, so pinning subtracts bnum | high; not executed | Pscmm.AllocVramAsWrittenDrifts | Pscmm.AllocVramPlaced |
| pscnv/nouveau_pm.c:349-358 | `clock_diff` is unsigned, so `clock_diff>0?clock_diff:-clock_diff` never negates, and a core clock above the mode's wraps to a huge difference | mode coreclk 500000, current clock 500100: not marked current | the absolute difference is below 1% of the mode's clock | high; not executed | NouveauPm.IsCurrentModeCounterexample | NouveauPm.IsCurrentModeAgrees |
| pscnv/pscnv_pm.c:220-222 | `profile = buf[0]-'0'` is a signed int compared only against the upper bound | writing " " gives profile -16, which passes the guard and indexes pm_modes[-16] | 0 <= profile < mode_info_count | medium (assumes mode_info_count is a byte-wide field, as vbios_pm.c:228 fills it from one byte); not executed | PscnvPm.ModeGuardCounterexample | PscnvPm.ModeGuardSpec |
| pscnv/pscnv_pm.c:157 | the mode's coreclk, stored in kHz by the VBIOS parser, is compared with pscnv_get_core_clocks in MHz | a 500000 kHz mode on a core at 500 MHz is not marked | coreclk / 1000 == the core clock in MHz | high; not executed | PscnvPm.IsCurrentCounterexample | PscnvPm.Device.PmModeToString |
