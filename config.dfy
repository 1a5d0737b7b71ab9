/** The macros of cache.h and tlb.h: the geometry of every level of the memory
    hierarchy, the flag values, and the access-status codes that the L1 cache
    returns in place of a data byte. */
module Config {
  import opened Common

  // L1 cache: 2 KB, 4-way set associative, way halting (cache.h)
  const L1_CACHE_WAYS: nat := 4
  const L1_CACHE_SETS: nat := 16
  const L1_CACHE_BLOCK_SIZE: nat := 32
  const L1_CACHE_SET_INDEX_BITS: nat := 4
  const L1_CACHE_OFFSET_BITS: nat := 5
  const L1_CACHE_HALT_TAG_BITS: nat := 4
  const L1_CACHE_MAIN_TAG_BITS: nat := 12

  // L2 cache: 32 KB, 16-way set associative, unified (cache.h)
  const L2_CACHE_WAYS: nat := 16
  const L2_CACHE_SETS: nat := 32
  const L2_CACHE_BLOCK_SIZE: nat := 64
  const L2_CACHE_SET_INDEX_BITS: nat := 5
  const L2_CACHE_OFFSET_BITS: nat := 6
  const L2_CACHE_TAG_BITS: nat := 14
  /** Width of the per-way FIFO countdown counter: log2 of the number of ways. */
  const L2_FIFO_COUNTER_BITS: nat := 4

  /** Physical addresses are 25 bits wide: a 16-bit frame number and a 9-bit
      page offset (tlb.h). */
  const PHYSICAL_ADDRESS_BITS: nat := 25
  const PAGE_OFFSET_BITS: nat := 9
  const VIRTUAL_ADDRESS_BITS: nat := 32
  /** A virtual address minus its page offset. */
  const PAGE_NUMBER_BITS: nat := 23
  const FRAME_NUMBER_BITS: nat := 16
  const MAX_FRAME_NUMBER: nat := 65535

  // L1 TLB: 8-way, 2 sets; L2 TLB: 4-way, 8 sets (tlb.h)
  const L1_TLB_WAYS: nat := 8
  const L1_TLB_SETS: nat := 2
  const L1_TLB_SET_INDEX_BITS: nat := 1
  const L1_TLB_TAG_BITS: nat := 22
  const L2_TLB_WAYS: nat := 4
  const L2_TLB_SETS: nat := 8
  const L2_TLB_SET_INDEX_BITS: nat := 3
  const L2_TLB_TAG_BITS: nat := 20

  type PhysicalAddress = a: nat | a < 0x200_0000
  type PageNumber = p: nat | p < 0x80_0000
  type FrameNumber = f: nat | f <= MAX_FRAME_NUMBER

  /** Block size and set count of the L1 cache are the powers of two its offset
      and index widths select, and the four address fields (main tag, halt tag,
      set index, offset) fill the 25-bit physical address exactly. */
  lemma L1CacheGeometry()
    ensures Pow2(L1_CACHE_OFFSET_BITS) == L1_CACHE_BLOCK_SIZE
    ensures Pow2(L1_CACHE_SET_INDEX_BITS) == L1_CACHE_SETS
    ensures L1_CACHE_MAIN_TAG_BITS + L1_CACHE_HALT_TAG_BITS + L1_CACHE_SET_INDEX_BITS
            + L1_CACHE_OFFSET_BITS == PHYSICAL_ADDRESS_BITS
    ensures L1_CACHE_WAYS * L1_CACHE_SETS * L1_CACHE_BLOCK_SIZE == 2 * 1024
  {
    Pow2Values();
  }

  /** The same for the L2 cache: 6 offset bits, 5 index bits and a 14-bit tag
      make 25 bits; the 4-bit FIFO counter counts the 16 ways, and its
      initial value `(1 << 4) - 1` is the number of ways minus one. */
  lemma L2CacheGeometry()
    ensures Pow2(L2_CACHE_OFFSET_BITS) == L2_CACHE_BLOCK_SIZE
    ensures Pow2(L2_CACHE_SET_INDEX_BITS) == L2_CACHE_SETS
    ensures L2_CACHE_TAG_BITS + L2_CACHE_SET_INDEX_BITS + L2_CACHE_OFFSET_BITS
            == PHYSICAL_ADDRESS_BITS
    ensures L2_CACHE_WAYS * L2_CACHE_SETS * L2_CACHE_BLOCK_SIZE == 32 * 1024
    ensures Pow2(L2_FIFO_COUNTER_BITS) == L2_CACHE_WAYS
    ensures Pow2(L2_FIFO_COUNTER_BITS) - 1 == L2_CACHE_WAYS - 1
  {
    Pow2Values();
  }

  /** Page numbers split into tag and set index with no bit to spare at both
      TLB levels, frame numbers fill 16 bits, and page number plus offset is
      the 32-bit virtual address while frame number plus offset is the 25-bit
      physical address. */
  lemma TlbGeometry()
    ensures Pow2(L1_TLB_SET_INDEX_BITS) == L1_TLB_SETS
    ensures Pow2(L2_TLB_SET_INDEX_BITS) == L2_TLB_SETS
    ensures L1_TLB_TAG_BITS + L1_TLB_SET_INDEX_BITS == PAGE_NUMBER_BITS
    ensures L2_TLB_TAG_BITS + L2_TLB_SET_INDEX_BITS == PAGE_NUMBER_BITS
    ensures PAGE_NUMBER_BITS + PAGE_OFFSET_BITS == VIRTUAL_ADDRESS_BITS
    ensures FRAME_NUMBER_BITS + PAGE_OFFSET_BITS == PHYSICAL_ADDRESS_BITS
    ensures MAX_FRAME_NUMBER == Pow2(FRAME_NUMBER_BITS) - 1
  {
    Pow2Values();
  }

  /** The four access-status codes of the L1 cache. */
  datatype AccessStatus = WriteSuccessful | WriteProtectionException | Miss | MissPredetermined

  /** The numeric value of a status (L1_CACHE_WRITE_SUCCESSFUL ...). */
  function StatusCode(status: AccessStatus): nat
  {
    match status
    case WriteSuccessful => 256
    case WriteProtectionException => 257
    case Miss => 258
    case MissPredetermined => 259
  }

  /** What `search_L1_cache` answers: a data byte on a read hit, a status otherwise. */
  datatype Reply = DataByte(value: Byte) | Status(status: AccessStatus)

  /** The `unsigned int` the C returns for a reply: data bytes keep their value,
      statuses use their codes above 255. */
  function EncodeReply(reply: Reply): nat
  {
    match reply
    case DataByte(b) => b
    case Status(status) => StatusCode(status)
  }

  /** Reads a returned `unsigned int` back; values above 259 mean nothing. */
  function DecodeReply(code: nat): Option<Reply>
  {
    if code < 256 then Some(DataByte(code))
    else if code == 256 then Some(Status(WriteSuccessful))
    else if code == 257 then Some(Status(WriteProtectionException))
    else if code == 258 then Some(Status(Miss))
    else if code == 259 then Some(Status(MissPredetermined))
    else None
  }

  /** The status codes are pairwise distinct and none is a data byte. */
  lemma StatusCodesDistinct(s1: AccessStatus, s2: AccessStatus, b: Byte)
    ensures s1 != s2 ==> StatusCode(s1) != StatusCode(s2)
    ensures StatusCode(s1) != b
  {
  }

  /** Hence the sentinel encoding loses nothing: every reply is recovered from
      the number the C returns for it. */
  lemma ReplyRoundTrip(reply: Reply)
    ensures DecodeReply(EncodeReply(reply)) == Some(reply)
  {
  }
}
