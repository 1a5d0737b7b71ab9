/** The L1 way-halting cache declared in cache.h: 16 sets of 4 ways holding
    32-byte blocks, a halt-tag array that keeps the low 4 bits of every way's
    tag, a per-access way status (ACTIVE or HALTED), per-set LRU counters and
    write-back of dirty lines. cache.h declares these operations without their
    bodies; the model gives each the behaviour its declaration and comment
    state, with the standard counter-LRU rule (a hit makes its way most
    recent, ways that were more recent than it move down one rank). */
module L1 {
  import opened Common
  import opened Config

  /** The 16-bit tag of a 25-bit address: main tag and halt tag together. */
  type Tag = t: nat | t < 0x1_0000
  /** The 12 high bits of the tag, kept in the entry. */
  type MainTag = t: nat | t < 0x1000
  /** The 4 low bits of the tag, kept in the halt-tag array. */
  type HaltTag = t: nat | t < 16
  /** The 32-byte data block of an entry. */
  type Block = b: seq<Byte> | |b| == L1_CACHE_BLOCK_SIZE witness Zeros(32)

  // ---------------------------------------------------------------------------
  // Address decomposition

  function Offset(pa: PhysicalAddress): (offset: nat)
    ensures offset < L1_CACHE_BLOCK_SIZE
  {
    pa % L1_CACHE_BLOCK_SIZE
  }

  function SetIndex(pa: PhysicalAddress): (setIndex: nat)
    ensures setIndex < L1_CACHE_SETS
  {
    ShiftRight(pa, L1_CACHE_OFFSET_BITS) % L1_CACHE_SETS
  }

  /** The tag: the number of the 512-byte region (one block per set) that
      holds the address. */
  function TagOf(pa: PhysicalAddress): (tag: Tag)
    ensures tag * 512 <= pa < tag * 512 + 512
  {
    Pow2Values();
    ShiftRight(pa, L1_CACHE_SET_INDEX_BITS + L1_CACHE_OFFSET_BITS)
  }

  /** The main tag: the tag without its halt bits, which is the number of the
      8 KB region that holds the address. */
  function MainTagOf(pa: PhysicalAddress): (main: MainTag)
    ensures main * 16 <= TagOf(pa) < main * 16 + 16
    ensures main * 8192 <= pa < main * 8192 + 8192
  {
    Pow2Values();
    ShiftRight(TagOf(pa), L1_CACHE_HALT_TAG_BITS)
  }

  /** The halt tag: the last (least significant) 4 bits of the tag, all that
      the tag has below its main tag. */
  function HaltTagOf(pa: PhysicalAddress): (halt: HaltTag)
    ensures TagOf(pa) == MainTagOf(pa) * 16 + halt
  {
    Pow2Values();
    TagOf(pa) % Pow2(L1_CACHE_HALT_TAG_BITS)
  }

  /** The full tag a way holds: its main tag with its halt tag below it. */
  function JoinTag(main: MainTag, halt: HaltTag): (tag: Tag)
    ensures tag == main * 16 + halt
  {
    Pow2Values();
    BitOrDisjoint(main, halt, 4);
    BitOr(ShiftLeft(main, L1_CACHE_HALT_TAG_BITS), halt)
  }

  /** Main tag and halt tag are exactly the two parts of a full tag: joining
      them gives the address's tag, and a way whose joined tag equals the
      address's tag has the address's halt tag. That is why the halting filter
      never halts a way that holds the address. */
  lemma {:induction false} TagSplit(pa: PhysicalAddress, main: MainTag, halt: HaltTag)
    ensures JoinTag(MainTagOf(pa), HaltTagOf(pa)) == TagOf(pa)
    ensures JoinTag(main, halt) == TagOf(pa) <==> main == MainTagOf(pa) && halt == HaltTagOf(pa)
  {
    Pow2Values();
    BitOrDisjoint(main, halt, 4);
    BitOrDisjoint(MainTagOf(pa), HaltTagOf(pa), 4);
    if JoinTag(main, halt) == TagOf(pa) {
      DivModUnique(TagOf(pa), 16, main, halt);
    }
  }

  /** The address of the first byte of a block: `(tag << 9) | (set << 5)`. */
  function BlockAddress(main: MainTag, halt: HaltTag, setIndex: nat): (address: nat)
    requires setIndex < L1_CACHE_SETS
    ensures address < 0x200_0000 && address % L1_CACHE_BLOCK_SIZE == 0
  {
    Pow2Values();
    var tag := JoinTag(main, halt);
    BitOrDisjoint(tag, setIndex * 32, 9);
    DivModUnique(tag * 512 + setIndex * 32, 32, tag * 16 + setIndex, 0);
    BitOr(ShiftLeft(JoinTag(main, halt), L1_CACHE_SET_INDEX_BITS + L1_CACHE_OFFSET_BITS),
          ShiftLeft(setIndex, L1_CACHE_OFFSET_BITS))
  }

  lemma BlockAddressValue(main: MainTag, halt: HaltTag, setIndex: nat)
    requires setIndex < L1_CACHE_SETS
    ensures JoinTag(main, halt) == main * 16 + halt
    ensures BlockAddress(main, halt, setIndex) == (main * 16 + halt) * 512 + setIndex * 32
  {
    Pow2Values();
    BitOrDisjoint(main, halt, 4);
    BitOrDisjoint(main * 16 + halt, setIndex * 32, 9);
  }

  /** The four fields of an address, as numbers: `pa` is its tag times 512
      plus its set index times 32 plus its offset, and the tag is its main tag
      times 16 plus its halt tag. */
  lemma FieldsValue(pa: PhysicalAddress)
    ensures pa == TagOf(pa) * 512 + SetIndex(pa) * 32 + Offset(pa)
    ensures TagOf(pa) == MainTagOf(pa) * 16 + HaltTagOf(pa)
  {
    Pow2Values();
    var tag: nat := TagOf(pa);
    var low := pa % 512;
    DivModUnique(pa, 512, tag, low);
    DivModUnique(pa, 32, tag * 16 + low / 32, low % 32);
    DivModUnique(pa / 32, 16, tag, low / 32);
    assert SetIndex(pa) == low / 32 && Offset(pa) == low % 32;
  }

  /** Main tag, halt tag, set index and offset rebuild the address. */
  lemma AddressRoundTrip(pa: PhysicalAddress)
    ensures BitOr(BlockAddress(MainTagOf(pa), HaltTagOf(pa), SetIndex(pa)), Offset(pa)) == pa
  {
    Pow2Values();
    FieldsValue(pa);
    BlockAddressValue(MainTagOf(pa), HaltTagOf(pa), SetIndex(pa));
    BitOrDisjoint(TagOf(pa) * 16 + SetIndex(pa), Offset(pa), 5);
  }

  /** The address written back for a dirty line lies in the physical address
      space and maps back to that line's set, main tag and halt tag. */
  lemma BlockAddressDecomposes(main: MainTag, halt: HaltTag, setIndex: nat)
    requires setIndex < L1_CACHE_SETS
    ensures BlockAddress(main, halt, setIndex) < 0x200_0000
    ensures var pa: PhysicalAddress := BlockAddress(main, halt, setIndex);
            MainTagOf(pa) == main && HaltTagOf(pa) == halt && SetIndex(pa) == setIndex && Offset(pa) == 0
  {
    Pow2Values();
    BlockAddressValue(main, halt, setIndex);
    var tag := main * 16 + halt;
    var pa := tag * 512 + setIndex * 32;
    DivModUnique(pa, 512, tag, setIndex * 32);
    DivModUnique(pa, 32, tag * 16 + setIndex, 0);
    DivModUnique(tag * 16 + setIndex, 16, tag, setIndex);
    DivModUnique(tag, 16, main, halt);
  }

  /** The entry's `main_tag_bits` field is declared 11 bits wide, so it keeps
      only the low 11 bits of the 12-bit main tag. */
  function AsWrittenStoredMainTag(main: MainTag): nat
  {
    main % Pow2(11)
  }

  /** As written, the addresses 0 and 2^24 fall in the same set with the same
      halt tag and the same stored 11-bit main tag: one would hit on the
      other's line. */
  lemma AsWrittenMainTagAliases()
    ensures var a: PhysicalAddress, b: PhysicalAddress := 0, 0x100_0000;
            a / L1_CACHE_BLOCK_SIZE != b / L1_CACHE_BLOCK_SIZE &&
            SetIndex(a) == SetIndex(b) && HaltTagOf(a) == HaltTagOf(b) &&
            AsWrittenStoredMainTag(MainTagOf(a)) == AsWrittenStoredMainTag(MainTagOf(b))
  {
    Pow2Values();
    var b: PhysicalAddress := 0x100_0000;
    assert TagOf(b) == 0x8000;
    assert MainTagOf(b) == 0x800;
  }

  /** With the full 12-bit main tag, set index, halt tag and main tag
      identify the block: two addresses that agree on all three lie in the
      same 32-byte block. */
  lemma TagsIdentifyBlock(a: PhysicalAddress, b: PhysicalAddress)
    requires SetIndex(a) == SetIndex(b) && HaltTagOf(a) == HaltTagOf(b) && MainTagOf(a) == MainTagOf(b)
    ensures a / L1_CACHE_BLOCK_SIZE == b / L1_CACHE_BLOCK_SIZE
  {
    FieldsValue(a);
    FieldsValue(b);
    var block := TagOf(a) * 16 + SetIndex(a);
    DivModUnique(a, 32, block, Offset(a));
    DivModUnique(b, 32, block, Offset(b));
  }

  // ---------------------------------------------------------------------------
  // LRU counters

  /** The counters of one set rank its ways: each below the number of ways,
      no two equal, so they are a permutation of 0..3 (0 = least recent). */
  predicate IsRanking(c: seq<nat>)
  {
    |c| == L1_CACHE_WAYS &&
    (forall i :: 0 <= i < L1_CACHE_WAYS ==> c[i] < L1_CACHE_WAYS) &&
    (forall i, j :: 0 <= i < j < L1_CACHE_WAYS ==> c[i] != c[j])
  }

  /** The counters after a hit in `way`. */
  function Touch(c: seq<nat>, way: nat): seq<nat>
    requires |c| == L1_CACHE_WAYS && way < L1_CACHE_WAYS
  {
    seq(L1_CACHE_WAYS, i requires 0 <= i < L1_CACHE_WAYS =>
      if i == way then L1_CACHE_WAYS - 1 else if c[i] > c[way] then c[i] - 1 else c[i])
  }

  /** A hit keeps the counters a ranking, makes its way the most recent, and
      keeps the relative order of all other ways. */
  lemma TouchKeepsRanking(c: seq<nat>, way: nat)
    requires IsRanking(c) && way < L1_CACHE_WAYS
    ensures IsRanking(Touch(c, way))
    ensures Touch(c, way)[way] == L1_CACHE_WAYS - 1
    ensures forall i, j :: 0 <= i < L1_CACHE_WAYS && 0 <= j < L1_CACHE_WAYS && i != way && j != way ==>
              (c[i] < c[j] <==> Touch(c, way)[i] < Touch(c, way)[j])
  {
    var t := Touch(c, way);
    forall i, j | 0 <= i < j < L1_CACHE_WAYS
      ensures t[i] != t[j]
    {
      if i == way || j == way {
        var other := if i == way then j else i;
        assert c[other] != c[way];
        assert c[other] < L1_CACHE_WAYS;
      }
    }
  }

  /** The counter rule is the only one consistent with counters that rank
      recency: any ranking that makes `way` the most recent and keeps the
      relative order of the other ways is the one `Touch` computes. */
  lemma TouchIsTheOnlyLruUpdate(c: seq<nat>, way: nat, r: seq<nat>)
    requires IsRanking(c) && IsRanking(r) && way < L1_CACHE_WAYS
    requires r[way] == L1_CACHE_WAYS - 1
    requires forall i, j :: 0 <= i < L1_CACHE_WAYS && 0 <= j < L1_CACHE_WAYS && i != way && j != way ==>
               (c[i] < c[j] <==> r[i] < r[j])
    ensures r == Touch(c, way)
  {
    TouchKeepsRanking(c, way);
    var t := Touch(c, way);
    // the three other ways: both r and t rank them 0..2 in the order of c
    var a, b, d := if way == 0 then 1 else 0, if way <= 1 then 2 else 1, if way <= 2 then 3 else 2;
    assert {a, b, d, way} == {0, 1, 2, 3};
    assert r[a] < 3 && r[b] < 3 && r[d] < 3 && t[a] < 3 && t[b] < 3 && t[d] < 3;
    assert r[a] != r[b] && r[a] != r[d] && r[b] != r[d];
    assert t[a] != t[b] && t[a] != t[d] && t[b] != t[d];
    assert (r[a] < r[b] <==> t[a] < t[b]) && (r[a] < r[d] <==> t[a] < t[d]) && (r[b] < r[d] <==> t[b] < t[d]);
    assert r[a] == t[a] && r[b] == t[b] && r[d] == t[d];
  }

  /** Every ranking has a least recent way, the one whose counter is 0. */
  lemma RankingHasVictim(c: seq<nat>)
    requires IsRanking(c)
    ensures exists i :: 0 <= i < L1_CACHE_WAYS && c[i] == 0
  {
    assert c[0] != c[1] && c[0] != c[2] && c[0] != c[3];
    assert c[1] != c[2] && c[1] != c[3] && c[2] != c[3];
    assert c[0] < 4 && c[1] < 4 && c[2] < 4 && c[3] < 4;
  }

  /** The least recent way of a ranking, the one whose counter is 0. */
  function Victim(c: seq<nat>): (way: nat)
    requires IsRanking(c)
    ensures way < L1_CACHE_WAYS && c[way] == 0
  {
    RankingHasVictim(c);
    if c[0] == 0 then 0 else if c[1] == 0 then 1 else if c[2] == 0 then 2 else 3
  }

  /** From the initial ranking, hits in ways 2, 0, 1, 3, 0 leave way 2 the
      least recently used, so it and not way 3 is evicted next. */
  lemma LruScenario()
    ensures var c := Touch(Touch(Touch(Touch(Touch([0, 1, 2, 3], 2), 0), 1), 3), 0);
            IsRanking(c) && Victim(c) == 2
  {
  }

  // ---------------------------------------------------------------------------
  // The cache

  /** One `L1_cache_entry`. */
  datatype Line = Line(mainTag: MainTag, valid: bool, dirty: bool, writable: bool, data: Block)

  datatype WayStatus = Active | Halted

  /** INSTRUCTION or DATA, the argument of `initialize_L1_cache`. */
  datatype Kind = Instruction | Data

  /** READ_ACCESS, or WRITE_ACCESS with the byte to write. */
  datatype Access = Read | Write(value: Byte)

  /** A dirty block displaced by an update, with the address it belongs at,
      for the write into the L2 cache. */
  datatype WriteBack = WriteBack(address: nat, data: Block)

  class Cache {
    const kind: Kind
    /** `l1_cache_sets[set].l1_cache_entry[way]`, indexed [set, way]. */
    var lines: array2<Line>
    /** `l1_cache_sets[set].lru_counter[way]`, indexed [set, way]. */
    var lru: array2<nat>
    /** `halt_tag_array[way].halt_tags_per_way[set]`, indexed [way, set]. */
    var haltTags: array2<HaltTag>
    /** `way_status[way]`. */
    var wayStatus: array<WayStatus>

    ghost predicate Shaped()
      reads this
    {
      lines.Length0 == L1_CACHE_SETS && lines.Length1 == L1_CACHE_WAYS &&
      lru.Length0 == L1_CACHE_SETS && lru.Length1 == L1_CACHE_WAYS &&
      haltTags.Length0 == L1_CACHE_WAYS && haltTags.Length1 == L1_CACHE_SETS &&
      wayStatus.Length == L1_CACHE_WAYS
    }

    /** The LRU counters of one set, as a sequence. */
    ghost function LruRow(setIndex: nat): seq<nat>
      reads this, lru
      requires Shaped() && setIndex < L1_CACHE_SETS
    {
      seq(L1_CACHE_WAYS, w requires 0 <= w < L1_CACHE_WAYS && setIndex < lru.Length0 && w < lru.Length1 reads this, lru => lru[setIndex, w])
    }

    /** The object invariant: every set's counters rank its ways, a dirty
        line is a valid writable line, and write permission is that of the
        cache's kind (data lines READ_WRITE, instruction lines READ_ONLY). */
    ghost predicate Valid()
      reads this, lines, lru
    {
      Shaped() &&
      (forall s :: 0 <= s < L1_CACHE_SETS ==> IsRanking(LruRow(s))) &&
      (forall s, w :: 0 <= s < L1_CACHE_SETS && 0 <= w < L1_CACHE_WAYS ==>
         (lines[s, w].dirty ==> lines[s, w].valid && lines[s, w].writable) &&
         lines[s, w].writable == (kind == Data))
    }

    /** Way `way` of set `setIndex` holds the block of `pa`: it is valid and
        its main tag and halt tag are the address's. */
    ghost predicate Holds(setIndex: nat, way: nat, pa: PhysicalAddress)
      reads this, lines, haltTags
      requires Shaped() && setIndex < L1_CACHE_SETS && way < L1_CACHE_WAYS
    {
      lines[setIndex, way].valid && lines[setIndex, way].mainTag == MainTagOf(pa) &&
      haltTags[way, setIndex] == HaltTagOf(pa)
    }

    /** `initialize_L1_cache`: every line invalid and clean, every way ACTIVE,
        and the counters of every set at their initial ranking (way w has rank w). */
    constructor (kind: Kind)
      ensures Valid() && fresh(lines) && fresh(lru) && fresh(haltTags) && fresh(wayStatus)
      ensures this.kind == kind
      ensures forall s, w :: 0 <= s < L1_CACHE_SETS && 0 <= w < L1_CACHE_WAYS ==>
                !lines[s, w].valid && !lines[s, w].dirty && lru[s, w] == w
      ensures forall w :: 0 <= w < L1_CACHE_WAYS ==> wayStatus[w] == Active
    {
      this.kind := kind;
      var table := new Line[L1_CACHE_SETS, L1_CACHE_WAYS]((_, _) => Line(0, false, false, kind == Data, Zeros(32)));
      var counters := new nat[L1_CACHE_SETS, L1_CACHE_WAYS]((_, w) => w);
      haltTags := new HaltTag[L1_CACHE_WAYS, L1_CACHE_SETS]((_, _) => 0);
      wayStatus := new WayStatus[L1_CACHE_WAYS](_ => Active);
      lines, lru := table, counters;
      new;
      assert forall s :: 0 <= s < L1_CACHE_SETS ==> LruRow(s) == [0, 1, 2, 3];
    }

    /** `L1_cache_way_halting_function`: for the set being accessed, every
        way whose stored halt tag differs from the address's halt tag is
        HALTED (a predetermined miss) and every other way is ACTIVE. The C
        declaration passes no set index; the comparison needs one. */
    method WayHalting(halt: HaltTag, setIndex: nat)
      requires Valid() && setIndex < L1_CACHE_SETS
      modifies wayStatus
      ensures Valid()
      ensures forall w :: 0 <= w < L1_CACHE_WAYS ==>
                wayStatus[w] == if haltTags[w, setIndex] == halt then Active else Halted
    {
      for w := 0 to L1_CACHE_WAYS
        invariant forall v :: 0 <= v < w ==>
                    wayStatus[v] == if haltTags[v, setIndex] == halt then Active else Halted
      {
        wayStatus[w] := if haltTags[w, setIndex] == halt then Active else Halted;
      }
    }

    /** The full comparison over the ACTIVE ways only: the first one that is
        valid with main tag `main`, or the number of ways. */
    method FindActive(setIndex: nat, main: MainTag) returns (way: nat)
      requires Valid() && setIndex < L1_CACHE_SETS
      ensures way <= L1_CACHE_WAYS
      ensures way < L1_CACHE_WAYS ==>
                wayStatus[way] == Active && lines[setIndex, way].valid && lines[setIndex, way].mainTag == main
      ensures forall w :: 0 <= w < way ==>
                !(wayStatus[w] == Active && lines[setIndex, w].valid && lines[setIndex, w].mainTag == main)
    {
      way := 0;
      while way < L1_CACHE_WAYS &&
            !(wayStatus[way] == Active && lines[setIndex, way].valid && lines[setIndex, way].mainTag == main)
        invariant way <= L1_CACHE_WAYS
        invariant forall w :: 0 <= w < way ==>
                    !(wayStatus[w] == Active && lines[setIndex, w].valid && lines[setIndex, w].mainTag == main)
      {
        way := way + 1;
      }
    }

    /** `update_L1_LRU_counter`: the counters of set `setIndex` after a hit in
        `way`; other sets keep theirs. */
    method UpdateLruCounter(setIndex: nat, way: nat)
      requires Valid() && setIndex < L1_CACHE_SETS && way < L1_CACHE_WAYS
      modifies lru
      ensures Valid()
      ensures LruRow(setIndex) == Touch(old(LruRow(setIndex)), way)
      ensures forall s, w :: 0 <= s < L1_CACHE_SETS && 0 <= w < L1_CACHE_WAYS && s != setIndex ==>
                lru[s, w] == old(lru[s, w])
    {
      ghost var before := LruRow(setIndex);
      TouchKeepsRanking(before, way);
      var pivot := lru[setIndex, way];
      for j := 0 to L1_CACHE_WAYS
        invariant forall s, w :: 0 <= s < L1_CACHE_SETS && 0 <= w < L1_CACHE_WAYS ==>
                    lru[s, w] == if s == setIndex && w < j && old(lru[s, w]) > pivot
                                 then old(lru[s, w]) - 1 else old(lru[s, w])
      {
        if lru[setIndex, j] > pivot {
          lru[setIndex, j] := lru[setIndex, j] - 1;
        }
      }
      lru[setIndex, way] := L1_CACHE_WAYS - 1;
      assert LruRow(setIndex) == Touch(before, way);
      forall s | 0 <= s < L1_CACHE_SETS
        ensures IsRanking(LruRow(s))
      {
        if s != setIndex {
          assert LruRow(s) == old(LruRow(s));
        }
      }
    }

    /** `get_L1_LRU_way_entry`: the way whose counter is 0, the least
        recently used one. */
    method GetLruWay(setIndex: nat) returns (way: nat)
      requires Valid() && setIndex < L1_CACHE_SETS
      ensures way < L1_CACHE_WAYS && lru[setIndex, way] == 0
      ensures way == Victim(LruRow(setIndex))
    {
      RankingHasVictim(LruRow(setIndex));
      assert exists w :: 0 <= w < L1_CACHE_WAYS && lru[setIndex, w] == 0;
      way := 0;
      while lru[setIndex, way] != 0
        invariant way < L1_CACHE_WAYS
        invariant exists w :: way <= w < L1_CACHE_WAYS && lru[setIndex, w] == 0
        decreases L1_CACHE_WAYS - way
      {
        way := way + 1;
      }
      assert LruRow(setIndex)[way] == 0;
    }

    /** `search_L1_cache`. The halting filter runs first; when it halts every
        way the access is a predetermined miss. Otherwise the first ACTIVE way
        that is valid with the address's main tag is the hit, and since no way
        holding the address is ever halted, the result is a miss exactly when
        no way holds the address; a miss changes no line and no counter. A
        read hit returns the addressed byte, a write hit on a writable line
        stores the byte and marks the line dirty, and both refresh the set's
        LRU counters; a write to a read-only line is a write-protection
        exception and changes nothing. */
    method Search(pa: PhysicalAddress, access: Access) returns (reply: Reply)
      requires Valid()
      modifies lines, lru, wayStatus
      ensures Valid()
      ensures forall w :: 0 <= w < L1_CACHE_WAYS ==>
                wayStatus[w] == if haltTags[w, SetIndex(pa)] == HaltTagOf(pa) then Active else Halted
      ensures reply == Status(MissPredetermined) <==>
                forall w :: 0 <= w < L1_CACHE_WAYS ==> haltTags[w, SetIndex(pa)] != HaltTagOf(pa)
      ensures reply == Status(MissPredetermined) || reply == Status(Miss) <==>
                forall w :: 0 <= w < L1_CACHE_WAYS ==> !old(Holds(SetIndex(pa), w, pa))
      ensures reply == Status(MissPredetermined) || reply == Status(Miss) ==> unchanged(lines) && unchanged(lru)
      ensures forall way :: (0 <= way < L1_CACHE_WAYS && old(Holds(SetIndex(pa), way, pa)) &&
                (forall w :: 0 <= w < way ==> !old(Holds(SetIndex(pa), w, pa)))) ==>
                var setIndex := SetIndex(pa);
                var line := old(lines[setIndex, way]);
                if access.Write? && !line.writable then
                  reply == Status(WriteProtectionException) && unchanged(lines) && unchanged(lru)
                else
                  LruRow(setIndex) == Touch(old(LruRow(setIndex)), way) &&
                  (forall s, w :: 0 <= s < L1_CACHE_SETS && 0 <= w < L1_CACHE_WAYS && s != setIndex ==>
                     lru[s, w] == old(lru[s, w])) &&
                  match access
                  case Read =>
                    reply == DataByte(line.data[Offset(pa)]) && unchanged(lines)
                  case Write(value) =>
                    reply == Status(WriteSuccessful) &&
                    lines[setIndex, way] == line.(dirty := true, data := line.data[Offset(pa) := value]) &&
                    (forall s, w :: 0 <= s < L1_CACHE_SETS && 0 <= w < L1_CACHE_WAYS && (s, w) != (setIndex, way) ==>
                       lines[s, w] == old(lines[s, w]))
    {
      var setIndex, halt, main, offset := SetIndex(pa), HaltTagOf(pa), MainTagOf(pa), Offset(pa);
      WayHalting(halt, setIndex);
      var way := FindActive(setIndex, main);
      assert forall w :: 0 <= w < L1_CACHE_WAYS ==>
               (old(Holds(setIndex, w, pa)) <==> wayStatus[w] == Active && lines[setIndex, w].valid && lines[setIndex, w].mainTag == main);
      if way == L1_CACHE_WAYS {
        if forall w :: 0 <= w < L1_CACHE_WAYS ==> wayStatus[w] == Halted {
          return Status(MissPredetermined);
        }
        return Status(Miss);
      }
      var line := lines[setIndex, way];
      match access
      case Read =>
        UpdateLruCounter(setIndex, way);
        reply := DataByte(line.data[offset]);
      case Write(value) =>
        if !line.writable {
          return Status(WriteProtectionException);
        }
        lines[setIndex, way] := line.(dirty := true, data := line.data[offset := value]);
        UpdateLruCounter(setIndex, way);
        reply := Status(WriteSuccessful);
    }

    /** The placement loop: the first invalid way of the set, or the number
        of ways when all are valid. */
    method FirstInvalidWay(setIndex: nat) returns (way: nat)
      requires Valid() && setIndex < L1_CACHE_SETS
      ensures way <= L1_CACHE_WAYS
      ensures way < L1_CACHE_WAYS ==> !lines[setIndex, way].valid
      ensures forall w :: 0 <= w < way ==> lines[setIndex, w].valid
    {
      way := 0;
      while way < L1_CACHE_WAYS && lines[setIndex, way].valid
        invariant way <= L1_CACHE_WAYS
        invariant forall w :: 0 <= w < way ==> lines[setIndex, w].valid
      {
        way := way + 1;
      }
    }

    /** `update_L1_cache`: the block fetched from L2 goes into the first
        invalid way of the address's set, or else into the least recently used
        way. A displaced dirty line is handed back, with its rebuilt address,
        to be written to L2 before it is lost; a clean or invalid one is not.
        The new line is valid and clean with the address's main tag, and its
        halt tag is recorded. Nothing else changes, the LRU counters included. */
    method Update(block: Block, pa: PhysicalAddress) returns (way: nat, writeBack: Option<WriteBack>)
      requires Valid()
      modifies lines, haltTags
      ensures Valid()
      ensures way < L1_CACHE_WAYS
      ensures var setIndex := SetIndex(pa);
              var victim := old(lines[setIndex, way]);
              (if exists w :: 0 <= w < L1_CACHE_WAYS && !old(lines[setIndex, w].valid) then
                 !victim.valid && forall w :: 0 <= w < way ==> old(lines[setIndex, w].valid)
               else
                 lru[setIndex, way] == 0) &&
              writeBack == if victim.valid && victim.dirty
                           then Some(WriteBack(BlockAddress(victim.mainTag, old(haltTags[way, setIndex]), setIndex), victim.data))
                           else None
      ensures lines[SetIndex(pa), way] ==
                Line(MainTagOf(pa), true, false, old(lines[SetIndex(pa), way].writable), block)
      ensures haltTags[way, SetIndex(pa)] == HaltTagOf(pa)
      ensures forall s, w :: 0 <= s < L1_CACHE_SETS && 0 <= w < L1_CACHE_WAYS && (s, w) != (SetIndex(pa), way) ==>
                lines[s, w] == old(lines[s, w]) && haltTags[w, s] == old(haltTags[w, s])
    {
      var setIndex := SetIndex(pa);
      way := FirstInvalidWay(setIndex);
      if way == L1_CACHE_WAYS {
        way := GetLruWay(setIndex);
      }
      var victim := lines[setIndex, way];
      writeBack := None;
      if victim.valid && victim.dirty {
        writeBack := Some(WriteBack(BlockAddress(victim.mainTag, haltTags[way, setIndex], setIndex), victim.data));
      }
      lines[setIndex, way] := Line(MainTagOf(pa), true, false, victim.writable, block);
      haltTags[way, setIndex] := HaltTagOf(pa);
      assert forall s :: 0 <= s < L1_CACHE_SETS ==> LruRow(s) == old(LruRow(s));
    }

    /** A miss followed by the fill and a read of the same address: once the
        fetched block is in, the read hits it and returns its byte at the
        address's offset. */
    method UpdateThenRead(block: Block, pa: PhysicalAddress) returns (reply: Reply)
      requires Valid()
      requires forall w :: 0 <= w < L1_CACHE_WAYS ==> !Holds(SetIndex(pa), w, pa)
      modifies lines, lru, haltTags, wayStatus
      ensures Valid()
      ensures reply == DataByte(block[Offset(pa)])
    {
      var setIndex := SetIndex(pa);
      var way, writeBack := Update(block, pa);
      // The fill changes only the chosen way, so no other way starts to hold pa.
      forall w | 0 <= w < L1_CACHE_WAYS && w != way
        ensures !Holds(setIndex, w, pa)
      {
        assert !old(Holds(setIndex, w, pa));
        assert lines[setIndex, w] == old(lines[setIndex, w]) && haltTags[w, setIndex] == old(haltTags[w, setIndex]);
      }
      assert Holds(setIndex, way, pa);
      reply := Search(pa, Read);
    }
  }
}
