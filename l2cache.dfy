/** The unified L2 cache of l2cache.c: 32 sets of 16 ways holding 64-byte
    blocks, one 4-bit FIFO countdown counter per way, and a last set that is
    write-protected. The table is updated in place, as in the C. */
module L2 {
  import opened Common
  import opened Config

  /** The 14-bit `tag` bit-field of an entry. */
  type Tag = t: nat | t < 0x4000

  /** A 4-bit unsigned FIFO countdown counter. */
  type Counter = c: nat | c < 16

  /** The 64-byte data block of an entry. */
  type Block = b: seq<Byte> | |b| == L2_CACHE_BLOCK_SIZE witness Zeros(64)

  /** A 32-byte L1-sized half of a block: what a read returns and a write supplies. */
  type HalfBlock = b: seq<Byte> | |b| == L1_CACHE_BLOCK_SIZE witness Zeros(32)

  /** One `L2_cache_entry`. */
  datatype Line = Line(tag: Tag, valid: bool, writable: bool, data: Block)

  /** READ_ACCESS, or WRITE_ACCESS with the 32 bytes to write. */
  datatype Access = Read | Write(payload: HalfBlock)

  /** The outcome of a search. The C returns the 32 read bytes, the caller's
      write buffer (non-NULL) after a write, and NULL both for a miss and for a
      write-protection exception; `IsNull` recovers that collapse. */
  datatype Response = ReadHit(bytes: HalfBlock) | WriteSuccessful | WriteProtectionException | Miss

  predicate IsNull(r: Response)
  {
    r.WriteProtectionException? || r.Miss?
  }

  /** The block an update displaces from a full set, with the address it is
      rebuilt at, handed on for the write to main memory. */
  datatype Eviction = Eviction(address: nat, data: Block)

  // ---------------------------------------------------------------------------
  // Address decomposition

  function Offset(pa: PhysicalAddress): (offset: nat)
    ensures offset < L2_CACHE_BLOCK_SIZE
  {
    pa % L2_CACHE_BLOCK_SIZE
  }

  function SetIndex(pa: PhysicalAddress): (setIndex: nat)
    ensures setIndex < L2_CACHE_SETS
  {
    ShiftRight(pa, L2_CACHE_OFFSET_BITS) % L2_CACHE_SETS
  }

  /** The tag: the number of the 2 KB region (one block per set) that holds
      the address. */
  function TagOf(pa: PhysicalAddress): (tag: Tag)
    ensures tag * 2048 <= pa < tag * 2048 + 2048
  {
    Pow2Values();
    ShiftRight(pa, L2_CACHE_SET_INDEX_BITS + L2_CACHE_OFFSET_BITS)
  }

  /** The address of the first byte of the block with this tag in this set:
      `(tag << 11) | (setIndex << 6)`. It is a block-aligned physical address. */
  function BlockAddress(tag: Tag, setIndex: nat): (address: nat)
    requires setIndex < L2_CACHE_SETS
    ensures address < 0x200_0000 && address % L2_CACHE_BLOCK_SIZE == 0
  {
    Pow2Values();
    BitOrDisjoint(tag, setIndex * 64, 11);
    BitOr(ShiftLeft(tag, L2_CACHE_SET_INDEX_BITS + L2_CACHE_OFFSET_BITS),
          ShiftLeft(setIndex, L2_CACHE_OFFSET_BITS))
  }

  /** The block address of a tag and set, with its value as a sum. */
  lemma BlockAddressValue(tag: Tag, setIndex: nat)
    requires setIndex < L2_CACHE_SETS
    ensures BlockAddress(tag, setIndex) == tag * 2048 + setIndex * 64
    ensures BlockAddress(tag, setIndex) == ShiftLeft(tag * 32 + setIndex, L2_CACHE_OFFSET_BITS)
  {
    Pow2Values();
    BitOrDisjoint(tag, setIndex * 64, 11);
  }

  /** Tag, set index and offset rebuild the address they were taken from. */
  lemma AddressRoundTrip(pa: PhysicalAddress)
    ensures BitOr(BlockAddress(TagOf(pa), SetIndex(pa)), Offset(pa)) == pa
  {
    Pow2Values();
    var tag: nat, setIndex: nat, offset: nat := TagOf(pa), SetIndex(pa), Offset(pa);
    var low := pa % 2048;
    DivModUnique(pa, 2048, tag, low);
    DivModUnique(pa, 64, tag * 32 + low / 64, low % 64);
    DivModUnique(pa / 64, 32, tag, low / 64);
    assert setIndex == low / 64 && offset == low % 64;
    BlockAddressValue(tag, setIndex);
    BitOrDisjoint(tag * 32 + setIndex, offset, 6);
  }

  /** The address rebuilt for a resident line lies in the physical address
      space and decomposes back into that line's tag and set. */
  lemma BlockAddressDecomposes(tag: Tag, setIndex: nat)
    requires setIndex < L2_CACHE_SETS
    ensures BlockAddress(tag, setIndex) < 0x200_0000
    ensures var pa: PhysicalAddress := BlockAddress(tag, setIndex);
            TagOf(pa) == tag && SetIndex(pa) == setIndex && Offset(pa) == 0
  {
    Pow2Values();
    BlockAddressValue(tag, setIndex);
    var pa := tag * 2048 + setIndex * 64;
    assert pa / 64 == tag * 32 + setIndex;
    assert pa / 2048 == tag;
  }

  // ---------------------------------------------------------------------------
  // The 32-byte window of a 64-byte block

  /** The first byte of the half of the block that holds byte `offset`: the
      block offset of a read or a write, which is 0 or 32. */
  function WindowStart(offset: nat): (start: nat)
    requires offset < L2_CACHE_BLOCK_SIZE
    ensures start == 0 || start == L1_CACHE_BLOCK_SIZE
    ensures start <= offset < start + L1_CACHE_BLOCK_SIZE
    ensures start + L1_CACHE_BLOCK_SIZE <= L2_CACHE_BLOCK_SIZE
  {
    if offset < L1_CACHE_BLOCK_SIZE then 0 else L1_CACHE_BLOCK_SIZE
  }

  /** The block offset as written in the source: `offset | (1 << 5)`. */
  function AsWrittenBlockOffset(offset: nat): nat
  {
    BitOr(offset, ShiftLeft(1, L1_CACHE_OFFSET_BITS))
  }

  /** As written, byte 0 selects the upper half, and byte 1 gives block offset
      33, so the 32-byte copy reaches index 64 of a 64-byte block. */
  lemma AsWrittenWindowOverruns()
    ensures AsWrittenBlockOffset(0) == 32 != WindowStart(0)
    ensures AsWrittenBlockOffset(1) == 33
    ensures AsWrittenBlockOffset(1) + L1_CACHE_BLOCK_SIZE - 1 >= L2_CACHE_BLOCK_SIZE
  {
    Pow2Values();
  }

  /** The read loop: copy the 32 bytes that start at `start`. */
  method CopyWindow(data: Block, start: nat) returns (out: HalfBlock)
    requires start + L1_CACHE_BLOCK_SIZE <= L2_CACHE_BLOCK_SIZE
    ensures out == data[start..start + L1_CACHE_BLOCK_SIZE]
  {
    var buffer: seq<Byte> := [];
    for j := 0 to L1_CACHE_BLOCK_SIZE
      invariant buffer == data[start..start + j]
    {
      buffer := buffer + [data[start + j]];
    }
    out := buffer;
  }

  /** The write loop: overwrite the 32 bytes that start at `start` with
      `payload`; every byte outside that window keeps its value. */
  method WriteWindow(data: Block, start: nat, payload: HalfBlock) returns (updated: Block)
    requires start + L1_CACHE_BLOCK_SIZE <= L2_CACHE_BLOCK_SIZE
    ensures forall k :: 0 <= k < L2_CACHE_BLOCK_SIZE ==>
              updated[k] == if start <= k < start + L1_CACHE_BLOCK_SIZE then payload[k - start] else data[k]
  {
    updated := data;
    for j := 0 to L1_CACHE_BLOCK_SIZE
      invariant |updated| == L2_CACHE_BLOCK_SIZE
      invariant forall k :: 0 <= k < L2_CACHE_BLOCK_SIZE ==>
                  updated[k] == if start <= k < start + j then payload[k - start] else data[k]
    {
      updated := updated[start + j := payload[j]];
    }
  }

  // ---------------------------------------------------------------------------
  // FIFO countdown

  /** `fifo_bits--` on a 4-bit unsigned field: 0 wraps round to 15. */
  function Decrement(c: Counter): (r: Counter)
    ensures c > 0 ==> r == c - 1
    ensures c == 0 ==> r == L2_CACHE_WAYS - 1
  {
    (c + L2_CACHE_WAYS - 1) % L2_CACHE_WAYS
  }

  predicate Hit(line: Line, tag: nat)
  {
    line.valid && line.tag == tag
  }

  // ---------------------------------------------------------------------------
  // Defects of the source, modelled as written

  /** What the write branch of the search loop does as written: it is the
      `else` of the tag match, so the first way that does NOT hit is written
      when writable (`Some(way)`), and a non-hitting read-only way ends the
      search with NULL (`None`); ways that hit are skipped. */
  function AsWrittenWriteWay(ways: seq<Line>, tag: nat): Option<nat>
    decreases |ways|
  {
    if ways == [] then None
    else if Hit(ways[0], tag) then
      match AsWrittenWriteWay(ways[1..], tag)
      case None => None
      case Some(w) => Some(w + 1)
    else if ways[0].writable then Some(0)
    else None
  }

  /** As written, a write to a set of empty writable ways (every set but the
      last after initialisation) lands in way 0 although no way holds the tag. */
  lemma AsWrittenWriteWithoutHit(tag: nat)
    ensures var empty := seq(L2_CACHE_WAYS, _ => Line(0, false, true, Zeros(64)));
            (forall w :: 0 <= w < L2_CACHE_WAYS ==> !Hit(empty[w], tag)) &&
            AsWrittenWriteWay(empty, tag) == Some(0)
  {
  }

  /** What the update does as written: the placement loop writes the first
      invalid way, and the unconditional block after it then writes way
      `FIFO_way` too, which is still 0 after a placement. */
  function AsWrittenUpdate(ways: seq<Line>, fifoVictim: nat, incoming: Line): seq<Line>
    requires fifoVictim < |ways|
  {
    var i := FirstInvalid(ways);
    var placed := if i < |ways| then ways[i := incoming] else ways;
    var fifoWay := if i < |ways| then 0 else fifoVictim;
    placed[fifoWay := incoming]
  }

  /** The first way that is not valid, or the number of ways if all are. */
  function FirstInvalid(ways: seq<Line>): (i: nat)
    ensures i <= |ways|
    ensures i < |ways| ==> !ways[i].valid
    ensures forall w :: 0 <= w < i ==> ways[w].valid
  {
    if ways == [] || !ways[0].valid then 0 else 1 + FirstInvalid(ways[1..])
  }

  /** As written, filling way 1 of a set whose way 0 is resident also
      overwrites way 0: two ways change and the resident block is lost. */
  lemma AsWrittenUpdateOverwritesWayZero(resident: Line, incoming: Line)
    requires resident.valid && resident != incoming
    ensures var ways := [resident] + seq(L2_CACHE_WAYS - 1, _ => Line(0, false, true, Zeros(64)));
            var after := AsWrittenUpdate(ways, 0, incoming);
            after[1] == incoming && after[0] == incoming != ways[0]
  {
    var ways := [resident] + seq(L2_CACHE_WAYS - 1, _ => Line(0, false, true, Zeros(64)));
    assert !ways[1].valid;
    assert FirstInvalid(ways) == 1;
  }

  // ---------------------------------------------------------------------------
  // The cache

  class Cache {
    /** `l2_cache_sets[set].l2_cache_entry[way]`, indexed [set, way]. */
    var lines: array2<Line>
    /** `l2_cache_sets[set].fifo_counter[way]`, indexed [set, way]. */
    var fifo: array2<Counter>

    /** Every way of the last set is READ_ONLY and every other way READ_WRITE;
        no operation changes a write bit after initialisation. */
    ghost predicate WriteProtection()
      reads this, lines
      requires lines.Length0 == L2_CACHE_SETS && lines.Length1 == L2_CACHE_WAYS
    {
      forall s, w :: 0 <= s < L2_CACHE_SETS && 0 <= w < L2_CACHE_WAYS ==>
        lines[s, w].writable == (s != L2_CACHE_SETS - 1)
    }

    ghost predicate Valid()
      reads this, lines
    {
      lines.Length0 == L2_CACHE_SETS && lines.Length1 == L2_CACHE_WAYS &&
      fifo.Length0 == L2_CACHE_SETS && fifo.Length1 == L2_CACHE_WAYS &&
      WriteProtection()
    }

    /** `initialize_L2_cache`: every line invalid, every line READ_WRITE except
        the ways of the last set, which are READ_ONLY, and every FIFO counter
        at `(1 << 4) - 1`, the number of ways minus one. The C leaves tags and
        data uninitialised; the model starts them at zero. */
    constructor ()
      ensures Valid() && fresh(lines) && fresh(fifo)
      ensures forall s, w :: 0 <= s < L2_CACHE_SETS && 0 <= w < L2_CACHE_WAYS ==>
                !lines[s, w].valid && fifo[s, w] == L2_CACHE_WAYS - 1 &&
                lines[s, w].writable == (s != L2_CACHE_SETS - 1)
    {
      var table := new Line[L2_CACHE_SETS, L2_CACHE_WAYS]((_, _) => Line(0, false, false, Zeros(64)));
      var counters := new Counter[L2_CACHE_SETS, L2_CACHE_WAYS]((_, _) => 0);
      for i := 0 to L2_CACHE_SETS
        invariant forall s, w :: 0 <= s < i && 0 <= w < L2_CACHE_WAYS ==>
                    !table[s, w].valid && table[s, w].writable && counters[s, w] == L2_CACHE_WAYS - 1
      {
        for j := 0 to L2_CACHE_WAYS
          invariant forall s, w :: 0 <= s < i && 0 <= w < L2_CACHE_WAYS ==>
                      !table[s, w].valid && table[s, w].writable && counters[s, w] == L2_CACHE_WAYS - 1
          invariant forall w :: 0 <= w < j ==>
                      !table[i, w].valid && table[i, w].writable && counters[i, w] == L2_CACHE_WAYS - 1
        {
          table[i, j] := table[i, j].(valid := false, writable := true);
          counters[i, j] := L2_CACHE_WAYS - 1;
        }
      }
      for j := 0 to L2_CACHE_WAYS
        invariant forall s, w :: 0 <= s < L2_CACHE_SETS && 0 <= w < L2_CACHE_WAYS ==>
                    !table[s, w].valid && counters[s, w] == L2_CACHE_WAYS - 1 &&
                    table[s, w].writable == (s != L2_CACHE_SETS - 1 || j <= w)
      {
        table[L2_CACHE_SETS - 1, j] := table[L2_CACHE_SETS - 1, j].(writable := false);
      }
      lines, fifo := table, counters;
    }

    /** The search loop: the first way of set `setIndex` holding a valid line with
        `tag`, or the number of ways when there is none. */
    method FindLine(setIndex: nat, tag: nat) returns (way: nat)
      requires Valid() && setIndex < L2_CACHE_SETS
      ensures way <= L2_CACHE_WAYS
      ensures way < L2_CACHE_WAYS ==> Hit(lines[setIndex, way], tag)
      ensures forall w :: 0 <= w < way ==> !Hit(lines[setIndex, w], tag)
    {
      way := 0;
      while way < L2_CACHE_WAYS && !Hit(lines[setIndex, way], tag)
        invariant way <= L2_CACHE_WAYS
        invariant forall w :: 0 <= w < way ==> !Hit(lines[setIndex, w], tag)
      {
        way := way + 1;
      }
    }

    /** The placement loop: the first invalid way of set `setIndex`, or the number of
        ways when every way is valid. */
    method FirstInvalidWay(setIndex: nat) returns (way: nat)
      requires Valid() && setIndex < L2_CACHE_SETS
      ensures way <= L2_CACHE_WAYS
      ensures way < L2_CACHE_WAYS ==> !lines[setIndex, way].valid
      ensures forall w :: 0 <= w < way ==> lines[setIndex, w].valid
    {
      way := 0;
      while way < L2_CACHE_WAYS && lines[setIndex, way].valid
        invariant way <= L2_CACHE_WAYS
        invariant forall w :: 0 <= w < way ==> lines[setIndex, w].valid
      {
        way := way + 1;
      }
    }

    /** `get_FIFO_replacement`: the lowest way whose counter has reached 0. The
        C falls off its end when no counter is 0, so such a way must exist. */
    method GetFifoReplacement(setIndex: nat) returns (way: nat)
      requires Valid() && setIndex < L2_CACHE_SETS
      requires exists w :: 0 <= w < L2_CACHE_WAYS && fifo[setIndex, w] == 0
      ensures way < L2_CACHE_WAYS && fifo[setIndex, way] == 0
      ensures forall w :: 0 <= w < way ==> fifo[setIndex, w] != 0
    {
      way := 0;
      while fifo[setIndex, way] != 0
        invariant way < L2_CACHE_WAYS
        invariant forall w :: 0 <= w < way ==> fifo[setIndex, w] != 0
        invariant exists w :: way <= w < L2_CACHE_WAYS && fifo[setIndex, w] == 0
        decreases L2_CACHE_WAYS - way
      {
        way := way + 1;
      }
    }

    /** `update_fifo_l2_cache`: the counter of every valid way of set `setIndex` counts
        down by one (4-bit wrap-around); invalid ways and other sets keep theirs. */
    method UpdateFifo(setIndex: nat)
      requires Valid() && setIndex < L2_CACHE_SETS
      modifies fifo
      ensures Valid()
      ensures forall s, w :: 0 <= s < L2_CACHE_SETS && 0 <= w < L2_CACHE_WAYS ==>
                fifo[s, w] == if s == setIndex && lines[s, w].valid then Decrement(old(fifo[s, w])) else old(fifo[s, w])
    {
      for i := 0 to L2_CACHE_WAYS
        invariant forall s, w :: 0 <= s < L2_CACHE_SETS && 0 <= w < L2_CACHE_WAYS ==>
                    fifo[s, w] == if s == setIndex && w < i && lines[s, w].valid
                                  then Decrement(old(fifo[s, w])) else old(fifo[s, w])
      {
        if lines[setIndex, i].valid {
          fifo[setIndex, i] := Decrement(fifo[setIndex, i]);
        }
      }
    }

    /** `search_L2_cache`. A hit is the first way of the address's set that is
        valid and holds its tag; nothing is a hit otherwise, and a miss changes
        nothing. A read hit returns the 32-byte half of the block that holds the
        addressed byte and refreshes the set's FIFO counters. A write hit on a
        writable line overwrites exactly that half, refreshes the counters and
        succeeds; on a read-only line it is a write-protection exception that
        changes nothing. Every write to the last set fails. */
    method Search(pa: PhysicalAddress, access: Access) returns (r: Response)
      requires Valid()
      modifies lines, fifo
      ensures Valid()
      ensures r.Miss? <==> forall w :: 0 <= w < L2_CACHE_WAYS ==> !old(Hit(lines[SetIndex(pa), w], TagOf(pa)))
      ensures r.Miss? ==> unchanged(lines) && unchanged(fifo)
      ensures access.Write? && SetIndex(pa) == L2_CACHE_SETS - 1 ==> IsNull(r) && unchanged(lines)
      ensures forall way :: (0 <= way < L2_CACHE_WAYS && old(Hit(lines[SetIndex(pa), way], TagOf(pa))) &&
                (forall w :: 0 <= w < way ==> !old(Hit(lines[SetIndex(pa), w], TagOf(pa))))) ==>
                var setIndex, start := SetIndex(pa), WindowStart(Offset(pa));
                var line := old(lines[setIndex, way]);
                if access.Write? && !line.writable then
                  r == Response.WriteProtectionException && unchanged(lines) && unchanged(fifo)
                else
                  (forall s, w :: 0 <= s < L2_CACHE_SETS && 0 <= w < L2_CACHE_WAYS ==>
                     fifo[s, w] == if s == setIndex && lines[s, w].valid then Decrement(old(fifo[s, w])) else old(fifo[s, w])) &&
                  match access
                  case Read =>
                    r == ReadHit(line.data[start..start + L1_CACHE_BLOCK_SIZE]) && unchanged(lines)
                  case Write(payload) =>
                    r == Response.WriteSuccessful &&
                    lines[setIndex, way].tag == line.tag && lines[setIndex, way].valid &&
                    lines[setIndex, way].writable == line.writable &&
                    (forall k :: 0 <= k < L2_CACHE_BLOCK_SIZE ==>
                       lines[setIndex, way].data[k] ==
                         if start <= k < start + L1_CACHE_BLOCK_SIZE then payload[k - start] else line.data[k]) &&
                    (forall s, w :: 0 <= s < L2_CACHE_SETS && 0 <= w < L2_CACHE_WAYS && (s, w) != (setIndex, way) ==>
                       lines[s, w] == old(lines[s, w]))
    {
      var setIndex, tag, offset := SetIndex(pa), TagOf(pa), Offset(pa);
      var start := WindowStart(offset);
      var way := FindLine(setIndex, tag);
      if way == L2_CACHE_WAYS {
        return Response.Miss;
      }
      match access
      case Read =>
        var bytes := CopyWindow(lines[setIndex, way].data, start);
        UpdateFifo(setIndex);
        r := ReadHit(bytes);
      case Write(payload) =>
        if !lines[setIndex, way].writable {
          return Response.WriteProtectionException;
        }
        var data := WriteWindow(lines[setIndex, way].data, start, payload);
        lines[setIndex, way] := lines[setIndex, way].(data := data);
        UpdateFifo(setIndex);
        r := Response.WriteSuccessful;
    }

    /** `update_L2_cache`: the fetched block goes, with the address's tag and
        VALID, into exactly one way of the address's set: the first invalid way
        if there is one, else the FIFO victim (the lowest way whose counter is
        0). Every other way of every set, every write bit and every FIFO
        counter are unchanged. A block displaced from a full set is returned
        with its rebuilt address, for the write to main memory. */
    method Update(fetched: Block, pa: PhysicalAddress) returns (way: nat, evicted: Option<Eviction>)
      requires Valid()
      requires (forall w :: 0 <= w < L2_CACHE_WAYS ==> lines[SetIndex(pa), w].valid) ==>
               exists w :: 0 <= w < L2_CACHE_WAYS && fifo[SetIndex(pa), w] == 0
      modifies lines
      ensures Valid()
      ensures way < L2_CACHE_WAYS
      ensures var setIndex := SetIndex(pa);
              if exists w :: 0 <= w < L2_CACHE_WAYS && !old(lines[setIndex, w].valid) then
                !old(lines[setIndex, way].valid) && (forall w :: 0 <= w < way ==> old(lines[setIndex, w].valid)) &&
                evicted == None
              else
                fifo[setIndex, way] == 0 && (forall w :: 0 <= w < way ==> fifo[setIndex, w] != 0) &&
                evicted == Some(Eviction(BlockAddress(old(lines[setIndex, way].tag), setIndex), old(lines[setIndex, way].data)))
      ensures lines[SetIndex(pa), way] == Line(TagOf(pa), true, old(lines[SetIndex(pa), way].writable), fetched)
      ensures forall s, w :: 0 <= s < L2_CACHE_SETS && 0 <= w < L2_CACHE_WAYS && (s, w) != (SetIndex(pa), way) ==>
                lines[s, w] == old(lines[s, w])
    {
      var setIndex, tag := SetIndex(pa), TagOf(pa);
      way := FirstInvalidWay(setIndex);
      evicted := None;
      if way == L2_CACHE_WAYS {
        way := GetFifoReplacement(setIndex);
        var victim := lines[setIndex, way];
        evicted := Some(Eviction(BlockAddress(victim.tag, setIndex), victim.data));
      }
      lines[setIndex, way] := Line(tag, true, lines[setIndex, way].writable, fetched);
    }

    /** As written, no fill ever resets a FIFO counter: from initialisation,
        sixteen fills of set 0 with no hit in between leave every way valid
        and every counter at 15. No way then has counter 0, so a seventeenth
        fill of the set would need a FIFO victim that `get_FIFO_replacement`
        cannot find; `Update` and `GetFifoReplacement` require one. */
    static method AsWrittenFillsStarveFifo() returns (cache: Cache)
      ensures cache.Valid()
      ensures forall w :: 0 <= w < L2_CACHE_WAYS ==> cache.lines[0, w].valid && cache.fifo[0, w] == L2_CACHE_WAYS - 1
      ensures !exists w :: 0 <= w < L2_CACHE_WAYS && cache.fifo[0, w] == 0
    {
      cache := new Cache();
      Pow2Values();
      for i := 0 to L2_CACHE_WAYS
        invariant cache.Valid() && fresh(cache.lines)
        invariant forall w :: 0 <= w < L2_CACHE_WAYS ==>
                    (cache.lines[0, w].valid <==> w < i) && cache.fifo[0, w] == L2_CACHE_WAYS - 1
      {
        // Block i of set 0: tag i, set index 0, offset 0.
        var pa: PhysicalAddress := i * 2048;
        DivModUnique(pa, 64, i * 32, 0);
        DivModUnique(i * 32, 32, i, 0);
        assert SetIndex(pa) == 0;
        assert !cache.lines[0, i].valid;
        var way, evicted := cache.Update(Zeros(64), pa);
      }
    }

    /** A miss followed by the fill and a read of the same address: once the
        fetched block is in, the read hits it and returns the half of the
        fetched block that holds the addressed byte. */
    method UpdateThenRead(fetched: Block, pa: PhysicalAddress) returns (r: Response)
      requires Valid()
      requires forall w :: 0 <= w < L2_CACHE_WAYS ==> !Hit(lines[SetIndex(pa), w], TagOf(pa))
      requires (forall w :: 0 <= w < L2_CACHE_WAYS ==> lines[SetIndex(pa), w].valid) ==>
               exists w :: 0 <= w < L2_CACHE_WAYS && fifo[SetIndex(pa), w] == 0
      modifies lines, fifo
      ensures Valid()
      ensures var start := WindowStart(Offset(pa));
              r == ReadHit(fetched[start..start + L1_CACHE_BLOCK_SIZE])
    {
      var setIndex := SetIndex(pa);
      var way, evicted := Update(fetched, pa);
      assert forall w :: 0 <= w < way ==> !Hit(lines[setIndex, w], TagOf(pa));
      r := Search(pa, Read);
    }
  }
}
