# Memory-Subsystem-Simulator core, modelled in Dafny

The simulator resolves memory accesses through a two-level cache and a
two-level TLB. This project models the set-associative lookup and
replacement logic at the heart of it:

- **The unified L2 cache** of `l2cache.c` (module `L2`).
  - Geometry: 32 sets of 16 ways with 64-byte blocks.
  - Every line is READ_WRITE except the ways of the last set, which are
    write-protected.
  - Each way has a 4-bit FIFO countdown counter.
  - A search returns or overwrites the 32-byte half of a block that holds
    the addressed byte.
  - An update places the fetched block in the first invalid way, or else
    in the FIFO victim.
  - The model is a class over two `array2` tables that its methods update
    in place, as the C does.
- **The L1 way-halting cache** declared in `cache.h` (module `L1`).
  - Geometry: 16 sets of 4 ways with 32-byte blocks.
  - Tags: the 12-bit main tag is stored in the entry. The 4-bit halt tag
    is stored in a per-way halt-tag array.
  - Before the full tag comparison, a way-halting filter halts every way
    whose halt tag already rules out a hit.
  - Each set has LRU counters.
  - Write-back: a dirty line displaced by an update is handed back to be
    written to L2.
  - Search answers a data byte or one of the four status codes 256..259.
- **The two-level TLB** declared in `tlb.h` (module `Tlb`).
  - The L1 TLB has 2 sets × 8 ways and uses random replacement.
  - The L2 TLB has 8 sets × 4 ways and keeps a 4×4 LRU square matrix per
    set. The victim is the first all-zero row.
  - Flushing keeps shared pages.
  - An entry displaced from the L1 TLB is pushed into the L2 TLB.
- **Shared parts** (modules `Common` and `Config`).
  - The geometry macros of both headers.
  - The status-code encoding.
  - The C's `>>`, `<<` and `|`, written over natural numbers.
    `|` is proved equal to `+` on disjoint bits, which makes every
    address rebuild `(tag << n) | (set << m) | offset` a provable round
    trip.

`cache.h` and `tlb.h` declare the L1-cache and TLB operations without
their bodies. The model gives each operation the behaviour that its
declaration and comment state. Where an operation needs a rule the
headers do not spell out, the model uses the rule that the declared data
structure exists to implement, and proves the properties that justify it:
- The L1 LRU counter update is the standard counter LRU. The lemma
  `L1.TouchIsTheOnlyLruUpdate` shows that it is the only update that keeps
  the counters a recency ranking.
- The L2 TLB matrix update sets the used way's row and clears its column.
  The lemmas `Tlb.TouchedOrders` and `Tlb.ZeroRowIsOldest` show that the
  zero row is then a least recently used way.

## Model

| member | source | states |
|---|---|---|
| Common.BitOrDisjoint | l2cache.c:159 | or-ing a value below 2^k into a value shifted left by k is addition, so `(tag << n) \| low` loses no bits |
| Config.L1CacheGeometry | cache.h:6-14 | 32-byte blocks need 5 offset bits and 16 sets need 4 index bits; 12 main-tag + 4 halt-tag + 4 index + 5 offset bits make the 25-bit physical address; capacity is 4×16×32 = 2 KB |
| Config.L2CacheGeometry | cache.h:20-27 | 64-byte blocks need 6 offset bits and 32 sets need 5 index bits; 14 + 5 + 6 = 25 bits; capacity is 16×32×64 = 32 KB; the 4-bit FIFO counter counts the 16 ways, and its initial value `(1 << 4) - 1` is the number of ways minus one |
| Config.TlbGeometry | tlb.h:4-14 | 2 and 8 sets need 1 and 3 index bits; 22 + 1 and 20 + 3 tag and index bits make the 23-bit page number; page number + 9 offset bits = 32-bit virtual address; 16-bit frame + 9 offset bits = 25-bit physical address; MAX_FRAME_NUMBER = 2^16 − 1 |
| Config.StatusCodesDistinct | cache.h:55-66 | the four status codes are pairwise distinct and none equals a data-byte value 0..255 |
| Config.ReplyRoundTrip | cache.h:55-66 | every reply, data byte or status, is recovered from the `unsigned int` the search returns for it |
| L2.Offset | l2cache.c:53 | the byte offset lies within the 64-byte block |
| L2.SetIndex | l2cache.c:54 | the set index names one of the 32 sets |
| L2.TagOf | l2cache.c:55 | the tag is the number of the 2 KB region holding the address: tag·2048 ≤ pa < tag·2048 + 2048, and it fits the 14-bit `tag` field |
| L2.BlockAddress | l2cache.c:159 | the rebuilt address of a line's block is a block-aligned 25-bit physical address |
| L2.BlockAddressValue | l2cache.c:159 | the rebuilt block address `(tag << 11) \| (set << 6)` is tag·2048 + set·64 |
| L2.AddressRoundTrip | l2cache.c:53-55 | `(tag << 11) \| (set << 6) \| offset` rebuilds every 25-bit physical address from its decomposition |
| L2.BlockAddressDecomposes | l2cache.c:159 | the address rebuilt for a resident line is a 25-bit address that decomposes back into that line's tag and set, with offset 0 |
| L2.WindowStart | l2cache.c:57 | the 32-byte window starts at 0 or 32, holds the addressed byte and lies inside the 64-byte block |
| L2.AsWrittenWindowOverruns | l2cache.c:57 | as written, `offset \| 32` puts byte 0 in the upper half and gives offset 33 for byte 1, so the copy reaches index 64 |
| L2.CopyWindow | l2cache.c:66-70 | the read loop returns exactly the 32 bytes of the block from the window start on |
| L2.WriteWindow | l2cache.c:80-84 | the write loop puts the payload into the window and leaves every byte outside it unchanged |
| L2.Decrement | l2cache.c:186 | `fifo_bits--` on a 4-bit field counts down by one and wraps from 0 to 15 |
| L2.AsWrittenWriteWithoutHit | l2cache.c:63-93 | as written, a write to a set of empty writable ways lands in way 0 although no way holds the tag |
| L2.FirstInvalid | l2cache.c:131-133 | the first way that is not valid, every way before it being valid; the number of ways if all are valid |
| L2.AsWrittenUpdateOverwritesWayZero | l2cache.c:128-175 | as written, placing a block in way 1 also overwrites a resident way 0, so two ways change |
| L2.Cache.constructor | l2cache.c:7-35 | every line starts invalid; every line is READ_WRITE except the 16 ways of set 31, which are READ_ONLY; every FIFO counter starts at 15 |
| L2.Cache.FindLine | l2cache.c:60-63 | the first way of the set that is valid and holds the tag; no way before it does; the number of ways when none does |
| L2.Cache.FirstInvalidWay | l2cache.c:131-145 | the first invalid way of the set; the number of ways when all are valid |
| L2.Cache.GetFifoReplacement | l2cache.c:190-198 | the lowest way of the set whose FIFO counter is 0 |
| L2.Cache.UpdateFifo | l2cache.c:181-189 | the counter of every valid way of the set counts down by one with 4-bit wrap-around; invalid ways and other sets keep their counters |
| L2.Cache.Search | l2cache.c:40-103 | miss exactly when no valid way of the address's set holds its tag, and a miss changes nothing; a read hit returns the 32-byte half holding the byte and refreshes the FIFO counters; a write hit on a writable line rewrites only that half of that one line and succeeds; a write to a read-only line is an exception that changes nothing; every write to set 31 fails; write bits never change |
| L2.Cache.Update | l2cache.c:110-177 | the fetched block, the tag and VALID go into exactly one way: the first invalid way, else the lowest way whose FIFO counter is 0, whose block is returned with its rebuilt address; every other line, every write bit and every counter is unchanged |
| L2.Cache.UpdateThenRead | l2cache.c:40-177 | after a miss, filling the address's block and then reading the address hits the new line and returns the half of the fetched block that holds the addressed byte |
| L2.Cache.AsWrittenFillsStarveFifo | l2cache.c:110-198 | as written, sixteen fills of one set from initialisation with no hit leave every way valid and every counter at 15, so no way has counter 0 for a seventeenth fill |
| L1.Offset | cache.h:9-12 | the byte offset lies within the 32-byte block |
| L1.SetIndex | cache.h:8-11 | the set index names one of the 16 sets |
| L1.TagOf | cache.h:11-14 | the 16-bit tag is the number of the 512-byte region holding the address: tag·512 ≤ pa < tag·512 + 512 |
| L1.MainTagOf | cache.h:13-14 | the 12-bit main tag is the tag without its halt bits: main·16 ≤ tag < main·16 + 16, i.e. the 8 KB region holding the address |
| L1.HaltTagOf | cache.h:13 | the 4-bit halt tag is what the tag has below its main tag: tag = main·16 + halt |
| L1.JoinTag | cache.h:13-14 | joining a main tag and a halt tag gives the 16-bit tag main·16 + halt |
| L1.BlockAddress | cache.h:11-14 | the address rebuilt from a line's main tag, halt tag and set is a block-aligned 25-bit physical address |
| L1.TagSplit | cache.h:13-14 | main tag and halt tag joined give the address's tag, and a way whose joined tag equals the address's tag has the address's halt tag, so it is never halted |
| L1.BlockAddressValue | cache.h:11-14 | the rebuilt block address is (main·16 + halt)·512 + set·32 |
| L1.FieldsValue | cache.h:11-14 | an address is tag·512 + set·32 + offset, and its tag is main·16 + halt |
| L1.AddressRoundTrip | cache.h:11-14 | main tag, halt tag, set index and offset rebuild every 25-bit physical address |
| L1.BlockAddressDecomposes | cache.h:73-75 | the write-back address of a dirty line is a 25-bit address that decomposes back into that line's main tag, halt tag and set |
| L1.AsWrittenMainTagAliases | cache.h:72 | with the 11-bit `main_tag_bits` field, the addresses 0 and 2^24 lie in different blocks yet have the same set, halt tag and stored main tag |
| L1.TagsIdentifyBlock | cache.h:14 | with the full 12-bit main tag, two addresses with equal set, halt tag and main tag lie in the same 32-byte block |
| L1.TouchKeepsRanking | cache.h:83 | a hit keeps the set's counters a permutation of 0..3, gives the hit way rank 3, and keeps the relative order of the other ways |
| L1.TouchIsTheOnlyLruUpdate | cache.h:131-132 | any ranking update that makes the hit way most recent and keeps the other ways' order is the counter update of the model |
| L1.RankingHasVictim | cache.h:134-135 | every set whose counters form a ranking has a way with counter 0 |
| L1.Victim | cache.h:134-135 | the least recently used way, the one with counter 0 |
| L1.LruScenario | cache.h:131-135 | from the initial ranking, hits in ways 2, 0, 1, 3, 0 make way 2 the victim |
| L1.Cache.constructor | cache.h:118-119 | every line invalid and clean, every way ACTIVE, the counters of each set at their initial ranking 0..3 |
| L1.Cache.WayHalting | cache.h:124-126 | for the accessed set, a way is HALTED exactly when its stored halt tag differs from the address's halt tag |
| L1.Cache.FindActive | cache.h:121-122 | the first ACTIVE way that is valid with the address's main tag; no way before it qualifies |
| L1.Cache.UpdateLruCounter | cache.h:131-132 | the hit set's counters become the ranking update for the hit way; other sets keep their counters; the ranking invariant is kept |
| L1.Cache.GetLruWay | cache.h:134-135 | the way of the set whose counter is 0 |
| L1.Cache.Search | cache.h:121-126 | a predetermined miss exactly when the filter halts every way; a miss of either kind exactly when no way holds the address, and a miss changes no line and no counter; a read hit returns the addressed byte; a write hit on a writable line stores the byte and marks the line dirty; both refresh the LRU ranking; a write to a read-only line is an exception that changes nothing |
| L1.Cache.FirstInvalidWay | cache.h:128-129 | the first invalid way of the set; the number of ways when all are valid |
| L1.Cache.Update | cache.h:128-135 | the block goes valid and clean, with the address's main and halt tags, into the first invalid way, else into the way with counter 0; a dirty displaced line is handed back with its rebuilt address for the write to L2, and a clean one is not; nothing else changes, the LRU counters included |
| L1.Cache.UpdateThenRead | cache.h:121-135 | after a miss, filling the address's block and then reading the address hits the new line and returns the fetched block's byte at the address's offset |
| Tlb.L1SetIndex | tlb.h:8-9 | the L1 TLB set index names one of the 2 sets |
| Tlb.L2SetIndex | tlb.h:13-14 | the L2 TLB set index names one of the 8 sets |
| Tlb.L1TagOf | tlb.h:29-30 | the 22-bit L1 tag is the page number without its set bit: tag·2 ≤ page < tag·2 + 2 |
| Tlb.L2TagOf | tlb.h:39-40 | the 20-bit L2 tag is the page number without its three set bits: tag·8 ≤ page < tag·8 + 8 |
| Tlb.L1Page | tlb.h:29-30 | the page rebuilt from an L1 tag and set is the 23-bit page number tag·2 + set |
| Tlb.PageRoundTrip | tlb.h:29-30 | at both levels, `(tag << bits) \| set` rebuilds the page number from its split |
| Tlb.L1PageDecomposes | tlb.h:81-82 | the page rebuilt from an evicted L1 entry splits back into that entry's tag and set |
| Tlb.Find | tlb.h:75-79 | at either level, a frame is found exactly when a valid entry of the set holds the tag, and it is that entry's frame |
| Tlb.FlushKeepsShared | tlb.h:90-94 | at either level, after a flush, a lookup finds a page exactly when a shared valid entry held it, and it returns that entry's frame |
| Tlb.FlushScenario | tlb.h:90-91 | with a private page p1 and a shared page p2, after a flush p1 misses and p2 still translates to its frame |
| Tlb.TouchedOrders | tlb.h:60 | setting the used way's row and clearing its column keeps the matrix equal to "i was used after j" |
| Tlb.ZeroRowIsOldest | tlb.h:87-88 | a row is all zeros exactly when its way was used no later than any other way |
| Tlb.ZeroRowExists | tlb.h:87-88 | every matrix that records use order has an all-zero row |
| Tlb.ZeroRowUnique | tlb.h:87-88 | once the ways have distinct use times, there is only one all-zero row |
| Tlb.MatrixScenario | tlb.h:60 | from the all-zero matrix, uses of ways 2, 0, 1, 3, 0 leave row 2 as the only zero row |
| Tlb.FirstZeroRow | tlb.h:87-88 | the first row whose bits are all 0; no earlier row is all zeros |
| Tlb.FindFirst | tlb.h:84-85 | an entry just installed is the one a lookup finds, unless an earlier way already holds the page |
| Tlb.L2Tlb.constructor | tlb.h:72-73 | every entry invalid and every matrix bit 0 |
| Tlb.L2Tlb.Search | tlb.h:78-79 | a miss exactly when no valid entry of the page's set holds its tag; a hit returns the frame of such an entry |
| Tlb.L2Tlb.GetLruEntryIndex | tlb.h:87-88 | the first all-zero row of the set's matrix, which is a least recently used way |
| Tlb.L2Tlb.Touch | tlb.h:60 | the used way's row is set and its column cleared; other sets' matrices are unchanged |
| Tlb.L2Tlb.FirstInvalidWay | tlb.h:84-85 | the first invalid way of the set; the number of ways when all are valid |
| Tlb.L2Tlb.Update | tlb.h:84-85 | the translation is installed valid in exactly one way: the first invalid way, else the first zero-row way (least recently used); that way becomes the most recently used; the page then translates to the new frame unless an earlier way already holds it; nothing else changes |
| Tlb.L2Tlb.Flush | tlb.h:93-94 | every entry that is not shared is invalidated; shared entries and the matrices are unchanged |
| Tlb.L1Tlb.constructor | tlb.h:69-70 | every entry invalid |
| Tlb.L1Tlb.Search | tlb.h:75-76 | a miss exactly when no valid entry of the page's set holds its tag; a hit returns the frame of such an entry |
| Tlb.L1Tlb.FirstInvalidWay | tlb.h:81-82 | the first invalid way of the set; the number of ways when all are valid |
| Tlb.L1Tlb.Update | tlb.h:81-85 | the translation is installed valid in the first invalid way, else in the randomly drawn way; a displaced entry is pushed into the L2 TLB under its rebuilt page; no other L1 entry changes, and the L2 TLB is untouched when nothing is displaced |
| Tlb.L1Tlb.Flush | tlb.h:90-91 | every entry that is not shared is invalidated; shared entries are unchanged |

## Left out

- Printing (`print_L1_cache`, `print_L2_cache`, `print_L1_tlb`, `print_L2_tlb`) is diagnostic output only and is not modelled. `calc_exp` (cache.h:141) is replaced by the `Pow2` function.
- Memory allocation (`malloc`) becomes object construction.
- Tags and data that the C leaves uninitialised start at zero. The initial halt tags of the L1 cache are 0.
- Main memory is not part of this model. The write-through to main memory is a TODO in l2cache.c:86-87 and 165-166. The L2 update returns the displaced block and its address instead.
- Source code that does not compile is read as follows:
  - l2cache.c:63 compares an undeclared `main_tag` with a field the L2 entry does not have. It is read as a comparison of the entry's `tag` with the address's tag.
  - l2cache.c:96 reads an `l1_cache` that is not in scope. It is read as the L2 line's write bit.
  - l2cache.c:70 assigns a byte to the `data` pointer. It is read as copying the byte into the result.
  - l2cache.c:84 stores the pointer `write_data` itself into every byte of the window. It is read as storing the payload's byte `j` at window position `j`.
  - l2cache.c:73 and l2cache.c:90 pass the hit way `i` as a third argument to the FIFO update, which l2cache.c:181 defines with two parameters. The model drops the argument: the update counts down every valid way of the set, the hit way included, as the definition's loop does.
  - The FIFO helpers are called `update_L2_FIFO_counter` and `get_L2_FIFO_way_entry` at their call sites and `update_fifo_l2_cache` and `get_FIFO_replacement` at their definitions. They also reach the lines through `set_array`/`set_entries` and `fifo_bits`. The model has one helper of each kind, over the per-way counters.
  - cache.h:108 declares one 4-bit `fifo_bits` per set. l2cache.c:26 uses one counter per way (`fifo_counter[j]`), and so does the model.
- The C code differs from its comments in two places, and the model follows the code:
  - l2cache.c:25 says the FIFO counters start at 0, but the code sets them to 15.
  - The update comments speak of LRU and write-back, but the code neither resets nor decrements any FIFO counter when it fills a way.
- L2.Cache.GetFifoReplacement: requires that some counter of the set is 0. The C falls off the end of the function otherwise, with no defined result.
- L2.Cache.Update: requires a zero counter when the set is full, for the same reason. The C does not keep this true: no fill resets a counter, and L2.Cache.AsWrittenFillsStarveFifo shows sixteen fills of one set leaving no zero counter. The source does not show which counter scheme was meant, so the model states no corrected one.
- L2.Cache.Search: a read hit returns the 32 bytes of the window and a write hit stores 32 payload bytes into it, under the readings of l2cache.c:70 and l2cache.c:84 above. Freeing the returned buffer is left to the caller and is not modelled.
- L1.Cache.Search: the read returns, and the write stores, the single byte at the address's offset. The C signature returns one `unsigned int` and takes one `write_data` value, so the model does not return a whole block.
- L1.Cache.WayHalting: takes the set index as an extra parameter. The C declaration (cache.h:126) passes only the halt tag, but the comparison needs the accessed set.
- L1.Cache.constructor: makes the lines of a DATA cache READ_WRITE and those of an INSTRUCTION cache READ_ONLY. The header states no initial permission; this choice is an assumption.
- L1.Cache.Update: chooses the victim with the LRU counters, as `get_L1_LRU_way_entry` provides, although the comment at cache.h:128 says "random replacement". The C signature takes the L2 cache; the model hands the dirty block back instead of writing it into L2 itself.
- L1.Cache.UpdateLruCounter: the header does not spell out the counter rule. The model uses the standard counter LRU and proves that it is the only update consistent with a recency ranking. The 8-bit counter width `NUM_L1_LRU_COUNTER_BITS` (cache.h:16) plays no part, because the ranks stay below 4.
- Tlb.L2Tlb.Touch: tlb.h states only the matrix's meaning and the zero-row victim rule. The update rule (set the row, clear the column) is the classic one, and its correctness is proved, not assumed.
- Tlb.L2Tlb.Search: does not change the LRU matrix. The header does not say that a search counts as a use, so only installing an entry does.
- Tlb.L1Tlb.Update: the random way is a parameter drawn by the caller. The effect on the L2 TLB is stated only as "the L2 TLB now holds the pushed translation in some way of its set". Its full effect is the contract of Tlb.L2Tlb.Update, which the method calls.
- The TLB searches return an optional frame number. The value the C returns on a miss is not shown in tlb.h.
- The page-table walker, the driver that generates accesses, and concurrency are outside the core.

## Findings

| source | as written | input that shows it | evidently intended | confidence | as-written member | corrected member |
|---|---|---|---|---|---|---|
| l2cache.c:57 | the window start is `offset \| (1 << 5)` | offset 0 gives start 32, the wrong half; offset 1 gives start 33, so the 32-byte copy reaches index 64 of a 64-byte block | the window starts at 0 or 32 and holds the addressed byte | not executed | L2.AsWrittenWindowOverruns | L2.WindowStart |
| l2cache.c:80 | the write branch is the `else` of the tag match, so it writes into a way that does not hold the tag | a write to any set of empty writable ways, such as every set after initialisation except the last, writes way 0 | a write happens only on a tag hit | not executed | L2.AsWrittenWriteWithoutHit | L2.Cache.Search |
| l2cache.c:169-175 | after placing the block in the first invalid way, the unconditional fill also writes way `FIFO_way`, which is still 0 | way 0 valid with another block and way 1 invalid: both way 1 and way 0 receive the new block, and way 0's block is lost | the update writes exactly one way | not executed | L2.AsWrittenUpdateOverwritesWayZero | L2.Cache.Update |
| cache.h:72 | `main_tag_bits` is 11 bits wide, but the main tag has 12 bits (cache.h:14) | physical addresses 0 and 0x1000000 have the same set, the same halt tag and the same stored 11-bit main tag, so a line of one hits for the other | the entry keeps the full 12-bit main tag | not executed | L1.AsWrittenMainTagAliases | L1.TagsIdentifyBlock |
