/** The two-level TLB declared in tlb.h. The L1 TLB has 2 sets of 8 ways and
    replaces a random way; the L2 TLB has 8 sets of 4 ways and keeps, per set,
    a 4x4 LRU square matrix whose first all-zero row names the victim. Pages
    marked shared survive a flush. tlb.h declares these operations without
    their bodies; the model gives each the behaviour its declaration and
    comment state, and for the matrix the classic update (row of the
    accessed way set, its column cleared). */
module Tlb {
  import opened Common
  import opened Config

  /** `page_tag_entry:22` of an L1 TLB entry. */
  type L1Tag = t: nat | t < 0x40_0000
  /** `page_tag_entry:20` of an L2 TLB entry. */
  type L2Tag = t: nat | t < 0x10_0000

  /** A TLB entry; `Tag` is the tag width of its level (L1Tag or L2Tag). */
  datatype Entry<Tag> = Entry(pageTag: Tag, frame: FrameNumber, valid: bool, shared: bool)

  // ---------------------------------------------------------------------------
  // Page-number split: the low bits select the set, the high bits are the tag

  function L1SetIndex(page: PageNumber): (setIndex: nat)
    ensures setIndex < L1_TLB_SETS
  {
    page % L1_TLB_SETS
  }

  /** The L1 tag: the page number without its set bit. */
  function L1TagOf(page: PageNumber): (tag: L1Tag)
    ensures tag * 2 <= page < tag * 2 + 2
  {
    Pow2Values();
    ShiftRight(page, L1_TLB_SET_INDEX_BITS)
  }

  /** The page number of an L1 entry: `(tag << 1) | set`. */
  function L1Page(tag: L1Tag, setIndex: nat): (page: PageNumber)
    requires setIndex < L1_TLB_SETS
    ensures page == tag * 2 + setIndex
  {
    Pow2Values();
    BitOrDisjoint(tag, setIndex, L1_TLB_SET_INDEX_BITS);
    BitOr(ShiftLeft(tag, L1_TLB_SET_INDEX_BITS), setIndex)
  }

  function L2SetIndex(page: PageNumber): (setIndex: nat)
    ensures setIndex < L2_TLB_SETS
  {
    page % L2_TLB_SETS
  }

  /** The L2 tag: the page number without its three set bits. */
  function L2TagOf(page: PageNumber): (tag: L2Tag)
    ensures tag * 8 <= page < tag * 8 + 8
  {
    Pow2Values();
    ShiftRight(page, L2_TLB_SET_INDEX_BITS)
  }

  /** Tag and set index give back the page number at both levels. */
  lemma PageRoundTrip(page: PageNumber)
    ensures L1Page(L1TagOf(page), L1SetIndex(page)) == page
    ensures BitOr(ShiftLeft(L2TagOf(page), L2_TLB_SET_INDEX_BITS), L2SetIndex(page)) == page
  {
    Pow2Values();
    BitOrDisjoint(L1TagOf(page), L1SetIndex(page), 1);
    BitOrDisjoint(L2TagOf(page), L2SetIndex(page), 3);
  }

  /** The page number rebuilt from an L1 entry is a 23-bit page number that
      splits back into that entry's tag and set; the page an evicted L1 entry
      hands to the L2 TLB is therefore the page it translated. */
  lemma L1PageDecomposes(tag: L1Tag, setIndex: nat)
    requires setIndex < L1_TLB_SETS
    ensures L1TagOf(L1Page(tag, setIndex)) == tag && L1SetIndex(L1Page(tag, setIndex)) == setIndex
  {
    Pow2Values();
    BitOrDisjoint(tag, setIndex, 1);
    DivModUnique(tag * 2 + setIndex, 2, tag, setIndex);
  }

  // ---------------------------------------------------------------------------
  // Lookup and flush of one set, as sequences

  /** The frame of the first valid entry of `row` whose tag is `tag`. */
  function Find<Tag(==)>(row: seq<Entry<Tag>>, tag: Tag): (r: Option<FrameNumber>)
    ensures r.None? <==> forall i :: 0 <= i < |row| ==> !(row[i].valid && row[i].pageTag == tag)
    ensures r.Some? ==> exists i :: 0 <= i < |row| && row[i].valid && row[i].pageTag == tag && row[i].frame == r.value
  {
    if row == [] then None
    else if row[0].valid && row[0].pageTag == tag then Some(row[0].frame)
    else
      var r := Find(row[1..], tag);
      assert forall i :: 1 <= i < |row| ==> row[i] == row[1..][i - 1];
      r
  }

  /** One entry after a flush: a shared entry is left as it is, any other
      is invalidated. */
  function Flushed<Tag>(e: Entry<Tag>): Entry<Tag>
  {
    if e.shared then e else e.(valid := false)
  }

  /** After a flush a lookup finds a page exactly when a shared entry held
      it; the frame found is that of one of those shared entries. */
  lemma FlushKeepsShared<Tag>(row: seq<Entry<Tag>>, tag: Tag)
    ensures var flushed := seq(|row|, i requires 0 <= i < |row| => Flushed(row[i]));
            (Find(flushed, tag).Some? <==>
               exists i :: 0 <= i < |row| && row[i].valid && row[i].shared && row[i].pageTag == tag) &&
            (Find(flushed, tag).Some? ==>
               exists i :: 0 <= i < |row| && row[i].valid && row[i].shared && row[i].pageTag == tag &&
                           row[i].frame == Find(flushed, tag).value)
  {
    var flushed := seq(|row|, i requires 0 <= i < |row| => Flushed(row[i]));
    if Find(flushed, tag).Some? {
      var i :| 0 <= i < |row| && flushed[i].valid && flushed[i].pageTag == tag && flushed[i].frame == Find(flushed, tag).value;
      assert row[i].shared;
    }
    if exists i :: 0 <= i < |row| && row[i].valid && row[i].shared && row[i].pageTag == tag {
      var i :| 0 <= i < |row| && row[i].valid && row[i].shared && row[i].pageTag == tag;
      assert flushed[i].valid && flushed[i].pageTag == tag;
    }
  }

  /** A set holding a private page p1 and a shared page p2: after a flush
      p1 misses and p2 still translates to its frame. */
  lemma FlushScenario(p1: L1Tag, f1: FrameNumber, p2: L1Tag, f2: FrameNumber)
    requires p1 != p2
    ensures var row := [Entry(p1, f1, true, false), Entry(p2, f2, true, true)];
            var flushed := seq(|row|, i requires 0 <= i < |row| => Flushed(row[i]));
            Find(flushed, p1).None? && Find(flushed, p2) == Some(f2)
  {
    var row := [Entry(p1, f1, true, false), Entry(p2, f2, true, true)];
    FlushKeepsShared(row, p1);
    FlushKeepsShared(row, p2);
  }

  // ---------------------------------------------------------------------------
  // The LRU square matrix of one L2 TLB set

  /** `lru_square_matrix` of one set: m[i][j] is 1 when way i was used more
      recently than way j. */
  type Matrix = m: seq<seq<bool>> | |m| == L2_TLB_WAYS && forall i :: 0 <= i < |m| ==> |m[i]| == L2_TLB_WAYS
    witness [[false, false, false, false], [false, false, false, false],
             [false, false, false, false], [false, false, false, false]]

  /** The matrix after a use of way `way`: its row set, then its column cleared. */
  function Touched(m: Matrix, way: nat): (r: Matrix)
    requires way < L2_TLB_WAYS
  {
    seq(L2_TLB_WAYS, i requires 0 <= i < L2_TLB_WAYS =>
      seq(L2_TLB_WAYS, j requires 0 <= j < L2_TLB_WAYS => j != way && (i == way || m[i][j])))
  }

  predicate IsZeroRow(m: Matrix, i: nat)
    requires i < L2_TLB_WAYS
  {
    forall j :: 0 <= j < L2_TLB_WAYS ==> !m[i][j]
  }

  /** `m` records the order of the times at which the ways were last used:
      way i's bit over way j is set exactly when i was used later. */
  ghost predicate Orders(m: Matrix, stamps: seq<nat>)
  {
    |stamps| == L2_TLB_WAYS &&
    forall i, j :: 0 <= i < L2_TLB_WAYS && 0 <= j < L2_TLB_WAYS ==> m[i][j] == (stamps[i] > stamps[j])
  }

  /** Using a way at a time later than every earlier use keeps the matrix
      faithful to the use times. */
  lemma TouchedOrders(m: Matrix, stamps: seq<nat>, way: nat, now: nat)
    requires Orders(m, stamps) && way < L2_TLB_WAYS
    requires forall i :: 0 <= i < L2_TLB_WAYS ==> stamps[i] < now
    ensures Orders(Touched(m, way), stamps[way := now])
  {
  }

  /** A row is all zeros exactly when its way was used no later than any
      other: the zero row is a least recently used way. */
  lemma ZeroRowIsOldest(m: Matrix, stamps: seq<nat>, i: nat)
    requires Orders(m, stamps) && i < L2_TLB_WAYS
    ensures IsZeroRow(m, i) <==> forall j :: 0 <= j < L2_TLB_WAYS ==> stamps[i] <= stamps[j]
  {
    if IsZeroRow(m, i) {
      forall j | 0 <= j < L2_TLB_WAYS
        ensures stamps[i] <= stamps[j]
      {
        assert !m[i][j];
      }
    }
    if forall j :: 0 <= j < L2_TLB_WAYS ==> stamps[i] <= stamps[j] {
      forall j | 0 <= j < L2_TLB_WAYS
        ensures !m[i][j]
      {
        assert stamps[i] <= stamps[j];
      }
    }
  }

  /** The way used longest ago has a zero row, so a victim always exists. */
  lemma ZeroRowExists(m: Matrix, stamps: seq<nat>)
    requires Orders(m, stamps)
    ensures exists i :: 0 <= i < L2_TLB_WAYS && IsZeroRow(m, i)
  {
    var oldest := 0;
    for k := 1 to L2_TLB_WAYS
      invariant oldest < L2_TLB_WAYS
      invariant forall j :: 0 <= j < k ==> stamps[oldest] <= stamps[j]
    {
      if stamps[k] < stamps[oldest] {
        oldest := k;
      }
    }
    ZeroRowIsOldest(m, stamps, oldest);
  }

  /** Once the ways have distinct use times, as they have after every way
      has been used, the zero row is unique: the victim is exactly the least
      recently used way. */
  lemma ZeroRowUnique(m: Matrix, stamps: seq<nat>, i: nat, k: nat)
    requires Orders(m, stamps) && i < L2_TLB_WAYS && k < L2_TLB_WAYS
    requires forall a, b :: 0 <= a < b < L2_TLB_WAYS ==> stamps[a] != stamps[b]
    requires IsZeroRow(m, i) && IsZeroRow(m, k)
    ensures i == k
  {
    ZeroRowIsOldest(m, stamps, i);
    ZeroRowIsOldest(m, stamps, k);
    assert stamps[i] == stamps[k];
  }

  /** From the initial all-zero matrix, uses of ways 2, 0, 1, 3, 0 leave
      row 2 the only zero row: way 2, the least recently used, is the victim. */
  lemma MatrixScenario()
    ensures var m := Touched(Touched(Touched(Touched(Touched(
                       [[false, false, false, false], [false, false, false, false],
                        [false, false, false, false], [false, false, false, false]], 2), 0), 1), 3), 0);
            IsZeroRow(m, 2) && forall i :: 0 <= i < L2_TLB_WAYS && i != 2 ==> !IsZeroRow(m, i)
  {
    var m0: Matrix := [[false, false, false, false], [false, false, false, false],
                       [false, false, false, false], [false, false, false, false]];
    var m1 := Touched(m0, 2);
    assert Orders(m0, [0, 0, 0, 0]);
    TouchedOrders(m0, [0, 0, 0, 0], 2, 1);
    assert [0, 0, 0, 0][2 := 1] == [0, 0, 1, 0];
    var m2 := Touched(m1, 0);
    TouchedOrders(m1, [0, 0, 1, 0], 0, 2);
    assert [0, 0, 1, 0][0 := 2] == [2, 0, 1, 0];
    var m3 := Touched(m2, 1);
    TouchedOrders(m2, [2, 0, 1, 0], 1, 3);
    assert [2, 0, 1, 0][1 := 3] == [2, 3, 1, 0];
    var m4 := Touched(m3, 3);
    TouchedOrders(m3, [2, 3, 1, 0], 3, 4);
    assert [2, 3, 1, 0][3 := 4] == [2, 3, 1, 4];
    var m5 := Touched(m4, 0);
    TouchedOrders(m4, [2, 3, 1, 4], 0, 5);
    var stamps := [5, 3, 1, 4];
    assert stamps == [2, 3, 1, 4][0 := 5];
    forall i | 0 <= i < L2_TLB_WAYS
      ensures IsZeroRow(m5, i) <==> i == 2
    {
      ZeroRowIsOldest(m5, stamps, i);
      if i != 2 {
        assert stamps[i] > stamps[2];
      }
    }
  }

  /** The first way whose row is all zeros. */
  function FirstZeroRow(m: Matrix, stamps: seq<nat>): (way: nat)
    requires Orders(m, stamps)
    ensures way < L2_TLB_WAYS && IsZeroRow(m, way)
    ensures forall i :: 0 <= i < way ==> !IsZeroRow(m, i)
  {
    ZeroRowExists(m, stamps);
    if IsZeroRow(m, 0) then 0 else if IsZeroRow(m, 1) then 1 else if IsZeroRow(m, 2) then 2 else 3
  }

  // ---------------------------------------------------------------------------
  // The L2 TLB

  class L2Tlb {
    /** `l2_tlb_sets[set].l2_tlb_entry[way]`, indexed [set, way]. */
    var entries: array2<Entry<L2Tag>>
    /** `l2_tlb_sets[set].lru_square_matrix[i][j]`, indexed [set, i, j]. */
    var lru: array3<bool>
    /** Per set and way, the time of the way's last use (0: never used). */
    ghost var stamps: seq<seq<nat>>
    /** The next use time. */
    ghost var clock: nat

    ghost predicate Shaped()
      reads this
    {
      entries.Length0 == L2_TLB_SETS && entries.Length1 == L2_TLB_WAYS &&
      lru.Length0 == L2_TLB_SETS && lru.Length1 == L2_TLB_WAYS && lru.Length2 == L2_TLB_WAYS
    }

    /** The LRU matrix of one set, as a value. */
    ghost function MatrixOf(setIndex: nat): Matrix
      reads this, lru
      requires Shaped() && setIndex < L2_TLB_SETS
    {
      seq(L2_TLB_WAYS, i requires 0 <= i < L2_TLB_WAYS && Shaped() reads this, lru =>
        seq(L2_TLB_WAYS, j requires 0 <= j < L2_TLB_WAYS && Shaped() reads this, lru => lru[setIndex, i, j]))
    }

    /** Every set's matrix records the order of its ways' last uses. */
    ghost predicate Valid()
      reads this, lru
    {
      Shaped() && |stamps| == L2_TLB_SETS &&
      forall s :: 0 <= s < L2_TLB_SETS ==>
        Orders(MatrixOf(s), stamps[s]) &&
        forall w :: 0 <= w < L2_TLB_WAYS ==> stamps[s][w] < clock
    }

    function Row(setIndex: nat): seq<Entry<L2Tag>>
      reads this, entries
      requires Shaped() && setIndex < L2_TLB_SETS
    {
      seq(L2_TLB_WAYS, w requires 0 <= w < L2_TLB_WAYS && setIndex < entries.Length0 && w < entries.Length1
                         reads this, entries => entries[setIndex, w])
    }

    /** `initialize_L2_TLB`: every entry invalid and every matrix bit 0. */
    constructor ()
      ensures Valid() && fresh(entries) && fresh(lru)
      ensures forall s, w :: 0 <= s < L2_TLB_SETS && 0 <= w < L2_TLB_WAYS ==> !entries[s, w].valid
      ensures forall s, i, j :: 0 <= s < L2_TLB_SETS && 0 <= i < L2_TLB_WAYS && 0 <= j < L2_TLB_WAYS ==> !lru[s, i, j]
    {
      entries := new Entry<L2Tag>[L2_TLB_SETS, L2_TLB_WAYS]((_, _) => Entry(0, 0, false, false));
      lru := new bool[L2_TLB_SETS, L2_TLB_WAYS, L2_TLB_WAYS]((_, _, _) => false);
      stamps := seq(L2_TLB_SETS, _ => [0, 0, 0, 0]);
      clock := 1;
    }

    /** `search_L2_TLB`: the frame of a valid entry of the page's set whose
        tag is the page's tag, or a miss when there is none. */
    function Search(page: PageNumber): (r: Option<FrameNumber>)
      reads this, entries
      requires Shaped()
      ensures r.None? <==> forall w :: 0 <= w < L2_TLB_WAYS ==>
                !(entries[L2SetIndex(page), w].valid && entries[L2SetIndex(page), w].pageTag == L2TagOf(page))
      ensures r.Some? ==>
                (exists w :: 0 <= w < L2_TLB_WAYS &&
                   entries[L2SetIndex(page), w].valid && entries[L2SetIndex(page), w].pageTag == L2TagOf(page) &&
                   entries[L2SetIndex(page), w].frame == r.value)
    {
      var row := Row(L2SetIndex(page));
      assert forall w :: 0 <= w < L2_TLB_WAYS ==> row[w] == entries[L2SetIndex(page), w];
      Find(row, L2TagOf(page))
    }

    /** `get_LRU_entry_index`: the index of the first row of the set's matrix
        whose bits are all 0. One always exists. */
    method GetLruEntryIndex(setIndex: nat) returns (way: nat)
      requires Valid() && setIndex < L2_TLB_SETS
      ensures way == FirstZeroRow(MatrixOf(setIndex), stamps[setIndex])
      ensures forall w :: 0 <= w < L2_TLB_WAYS ==> stamps[setIndex][way] <= stamps[setIndex][w]
    {
      ghost var m := MatrixOf(setIndex);
      ghost var victim := FirstZeroRow(m, stamps[setIndex]);
      way := 0;
      while true
        invariant way <= victim
        invariant forall i :: 0 <= i < way ==> !IsZeroRow(m, i)
        decreases victim - way
      {
        var j := 0;
        while j < L2_TLB_WAYS && !lru[setIndex, way, j]
          invariant j <= L2_TLB_WAYS
          invariant forall k :: 0 <= k < j ==> !m[way][k]
        {
          j := j + 1;
        }
        if j == L2_TLB_WAYS {
          break;
        }
        assert m[way][j];
        way := way + 1;
      }
      ZeroRowIsOldest(m, stamps[setIndex], way);
    }

    /** Records a use of `way` in set `setIndex`: the way's row is set and its
        column cleared, so it is now more recent than every other way. */
    method Touch(setIndex: nat, way: nat)
      requires Valid() && setIndex < L2_TLB_SETS && way < L2_TLB_WAYS
      modifies this, lru
      ensures Valid() && entries == old(entries) && lru == old(lru)
      ensures MatrixOf(setIndex) == Touched(old(MatrixOf(setIndex)), way)
      ensures forall s, i, j :: 0 <= s < L2_TLB_SETS && 0 <= i < L2_TLB_WAYS && 0 <= j < L2_TLB_WAYS && s != setIndex ==>
                lru[s, i, j] == old(lru[s, i, j])
      ensures |stamps| == |old(stamps)| && stamps[setIndex] == old(stamps[setIndex])[way := old(clock)]
      ensures forall s :: 0 <= s < |stamps| && s != setIndex ==> stamps[s] == old(stamps[s])
      ensures clock == old(clock) + 1
    {
      ghost var m := MatrixOf(setIndex);
      TouchedOrders(m, stamps[setIndex], way, clock);
      ghost var row: seq<nat> := stamps[setIndex][way := clock];
      stamps := stamps[setIndex := row];
      clock := clock + 1;
      for j := 0 to L2_TLB_WAYS
        invariant lru == old(lru) && entries == old(entries) && stamps == old(stamps)[setIndex := row]
        invariant clock == old(clock) + 1
        invariant forall s, i, k :: 0 <= s < L2_TLB_SETS && 0 <= i < L2_TLB_WAYS && 0 <= k < L2_TLB_WAYS ==>
                    lru[s, i, k] == if s == setIndex && i == way && k < j then true else old(lru[s, i, k])
      {
        lru[setIndex, way, j] := true;
      }
      for i := 0 to L2_TLB_WAYS
        invariant lru == old(lru) && entries == old(entries) && stamps == old(stamps)[setIndex := row]
        invariant clock == old(clock) + 1
        invariant forall s, r, k :: 0 <= s < L2_TLB_SETS && 0 <= r < L2_TLB_WAYS && 0 <= k < L2_TLB_WAYS ==>
                    lru[s, r, k] == if s == setIndex && k == way && r < i then false
                                    else if s == setIndex && r == way then true
                                    else old(lru[s, r, k])
      {
        lru[setIndex, i, way] := false;
      }
      forall s | 0 <= s < L2_TLB_SETS
        ensures MatrixOf(s) == if s == setIndex then Touched(m, way) else old(MatrixOf(s))
      {
        forall i | 0 <= i < L2_TLB_WAYS
          ensures MatrixOf(s)[i] == (if s == setIndex then Touched(m, way) else old(MatrixOf(s)))[i]
        {
        }
      }
    }

    /** The first invalid way of a set, or the number of ways. */
    method FirstInvalidWay(setIndex: nat) returns (way: nat)
      requires Shaped() && setIndex < L2_TLB_SETS
      ensures way <= L2_TLB_WAYS
      ensures way < L2_TLB_WAYS ==> !entries[setIndex, way].valid
      ensures forall w :: 0 <= w < way ==> entries[setIndex, w].valid
    {
      way := 0;
      while way < L2_TLB_WAYS && entries[setIndex, way].valid
        invariant way <= L2_TLB_WAYS
        invariant forall w :: 0 <= w < way ==> entries[setIndex, w].valid
      {
        way := way + 1;
      }
    }

    /** `update_L2_TLB`: the translation goes into the first invalid way of
        the page's set, or else into the way the LRU matrix names, which is a
        least recently used one. It becomes the most recently used way; no
        other entry and no other set's matrix changes. */
    method Update(page: PageNumber, frame: FrameNumber, shared: bool) returns (way: nat)
      requires Valid()
      modifies this, entries, lru
      ensures Valid() && entries == old(entries) && lru == old(lru)
      ensures way < L2_TLB_WAYS
      ensures var setIndex := L2SetIndex(page);
              if exists w :: 0 <= w < L2_TLB_WAYS && !old(entries[setIndex, w].valid) then
                !old(entries[setIndex, way].valid) && forall w :: 0 <= w < way ==> old(entries[setIndex, w].valid)
              else
                way == FirstZeroRow(old(MatrixOf(setIndex)), old(stamps[setIndex])) &&
                forall w :: 0 <= w < L2_TLB_WAYS ==> old(stamps[setIndex][way]) <= old(stamps[setIndex][w])
      ensures entries[L2SetIndex(page), way] == Entry(L2TagOf(page), frame, true, shared)
      ensures forall s, w :: 0 <= s < L2_TLB_SETS && 0 <= w < L2_TLB_WAYS && (s, w) != (L2SetIndex(page), way) ==>
                entries[s, w] == old(entries[s, w])
      ensures MatrixOf(L2SetIndex(page)) == Touched(old(MatrixOf(L2SetIndex(page))), way)
      ensures forall s, i, j :: 0 <= s < L2_TLB_SETS && 0 <= i < L2_TLB_WAYS && 0 <= j < L2_TLB_WAYS && s != L2SetIndex(page) ==>
                lru[s, i, j] == old(lru[s, i, j])
      ensures Search(page) == Some(frame) ||
              (exists w :: 0 <= w < way &&
                 entries[L2SetIndex(page), w].valid && entries[L2SetIndex(page), w].pageTag == L2TagOf(page))
    {
      var setIndex := L2SetIndex(page);
      way := FirstInvalidWay(setIndex);
      if way == L2_TLB_WAYS {
        way := GetLruEntryIndex(setIndex);
      }
      entries[setIndex, way] := Entry(L2TagOf(page), frame, true, shared);
      forall s | 0 <= s < L2_TLB_SETS
        ensures MatrixOf(s) == old(MatrixOf(s))
      {
      }
      Touch(setIndex, way);
      ghost var row := Row(setIndex);
      assert forall w :: 0 <= w < L2_TLB_WAYS ==> row[w] == entries[setIndex, w];
      FindFirst(row, L2TagOf(page), way);
    }

    /** `flush_L2_TLB`: every entry whose page is not shared is invalidated;
        shared entries and the LRU matrices are left as they are. */
    method Flush()
      requires Valid()
      modifies entries
      ensures Valid()
      ensures forall s, w :: 0 <= s < L2_TLB_SETS && 0 <= w < L2_TLB_WAYS ==>
                entries[s, w] == Flushed(old(entries[s, w]))
    {
      for s := 0 to L2_TLB_SETS
        invariant forall t, w :: 0 <= t < L2_TLB_SETS && 0 <= w < L2_TLB_WAYS ==>
                    entries[t, w] == if t < s then Flushed(old(entries[t, w])) else old(entries[t, w])
      {
        for w := 0 to L2_TLB_WAYS
          invariant forall t, v :: 0 <= t < L2_TLB_SETS && 0 <= v < L2_TLB_WAYS ==>
                      entries[t, v] == if t < s || (t == s && v < w) then Flushed(old(entries[t, v])) else old(entries[t, v])
        {
          if !entries[s, w].shared {
            entries[s, w] := entries[s, w].(valid := false);
          }
        }
      }
    }
  }

  /** If `row[way]` is a valid entry for `tag`, the lookup finds its frame
      unless an earlier way also holds `tag`. */
  lemma {:induction false} FindFirst<Tag>(row: seq<Entry<Tag>>, tag: Tag, way: nat)
    requires way < |row| && row[way].valid && row[way].pageTag == tag
    ensures Find(row, tag) == Some(row[way].frame) ||
            exists w :: 0 <= w < way && row[w].valid && row[w].pageTag == tag
  {
    if way > 0 && !(row[0].valid && row[0].pageTag == tag) {
      FindFirst(row[1..], tag, way - 1);
      if exists w :: 0 <= w < way - 1 && row[1..][w].valid && row[1..][w].pageTag == tag {
        var w :| 0 <= w < way - 1 && row[1..][w].valid && row[1..][w].pageTag == tag;
        assert row[w + 1] == row[1..][w];
      }
    }
  }

  // ---------------------------------------------------------------------------
  // The L1 TLB

  class L1Tlb {
    /** `l1_tlb_sets[set].l1_tlb_entry[way]`, indexed [set, way]. */
    var entries: array2<Entry<L1Tag>>

    ghost predicate Valid()
      reads this
    {
      entries.Length0 == L1_TLB_SETS && entries.Length1 == L1_TLB_WAYS
    }

    function Row(setIndex: nat): seq<Entry<L1Tag>>
      reads this, entries
      requires Valid() && setIndex < L1_TLB_SETS
    {
      seq(L1_TLB_WAYS, w requires 0 <= w < L1_TLB_WAYS && setIndex < entries.Length0 && w < entries.Length1
                         reads this, entries => entries[setIndex, w])
    }

    /** `initialize_L1_TLB`: every entry invalid. */
    constructor ()
      ensures Valid() && fresh(entries)
      ensures forall s, w :: 0 <= s < L1_TLB_SETS && 0 <= w < L1_TLB_WAYS ==> !entries[s, w].valid
    {
      entries := new Entry<L1Tag>[L1_TLB_SETS, L1_TLB_WAYS]((_, _) => Entry(0, 0, false, false));
    }

    /** `search_L1_TLB`: the frame of a valid entry of the page's set whose
        tag is the page's tag, or a miss when there is none. */
    function Search(page: PageNumber): (r: Option<FrameNumber>)
      reads this, entries
      requires Valid()
      ensures r.None? <==> forall w :: 0 <= w < L1_TLB_WAYS ==>
                !(entries[L1SetIndex(page), w].valid && entries[L1SetIndex(page), w].pageTag == L1TagOf(page))
      ensures r.Some? ==>
                (exists w :: 0 <= w < L1_TLB_WAYS &&
                   entries[L1SetIndex(page), w].valid && entries[L1SetIndex(page), w].pageTag == L1TagOf(page) &&
                   entries[L1SetIndex(page), w].frame == r.value)
    {
      var row := Row(L1SetIndex(page));
      assert forall w :: 0 <= w < L1_TLB_WAYS ==> row[w] == entries[L1SetIndex(page), w];
      Find(row, L1TagOf(page))
    }

    method FirstInvalidWay(setIndex: nat) returns (way: nat)
      requires Valid() && setIndex < L1_TLB_SETS
      ensures way <= L1_TLB_WAYS
      ensures way < L1_TLB_WAYS ==> !entries[setIndex, way].valid
      ensures forall w :: 0 <= w < way ==> entries[setIndex, w].valid
    {
      way := 0;
      while way < L1_TLB_WAYS && entries[setIndex, way].valid
        invariant way <= L1_TLB_WAYS
        invariant forall w :: 0 <= w < way ==> entries[setIndex, w].valid
      {
        way := way + 1;
      }
    }

    /** `update_L1_TLB`: the translation goes into the first invalid way of
        the page's set; when every way is valid it replaces the way
        `randomWay`, drawn by the caller, and the translation that way held
        (its page rebuilt from tag and set) is handed to `update_L2_TLB`. No
        other L1 entry changes, and the L2 TLB changes only by that push. */
    method Update(l2: L2Tlb, page: PageNumber, frame: FrameNumber, shared: bool, randomWay: nat)
      returns (way: nat, evicted: Option<Entry<L1Tag>>)
      requires Valid() && l2.Valid() && randomWay < L1_TLB_WAYS
      modifies entries, l2, l2.entries, l2.lru
      ensures Valid() && l2.Valid() && l2.entries == old(l2.entries) && l2.lru == old(l2.lru)
      ensures way < L1_TLB_WAYS
      ensures var setIndex := L1SetIndex(page);
              if exists w :: 0 <= w < L1_TLB_WAYS && !old(entries[setIndex, w].valid) then
                !old(entries[setIndex, way].valid) && (forall w :: 0 <= w < way ==> old(entries[setIndex, w].valid)) &&
                evicted.None?
              else
                way == randomWay && evicted == Some(old(entries[setIndex, way]))
      ensures entries[L1SetIndex(page), way] == Entry(L1TagOf(page), frame, true, shared)
      ensures forall s, w :: 0 <= s < L1_TLB_SETS && 0 <= w < L1_TLB_WAYS && (s, w) != (L1SetIndex(page), way) ==>
                entries[s, w] == old(entries[s, w])
      ensures evicted.None? ==> unchanged(l2, l2.entries, l2.lru)
      ensures evicted.Some? ==>
                var moved := L1Page(evicted.value.pageTag, L1SetIndex(page));
                L1TagOf(moved) == evicted.value.pageTag && L1SetIndex(moved) == L1SetIndex(page) &&
                exists w :: 0 <= w < L2_TLB_WAYS &&
                  l2.entries[L2SetIndex(moved), w] == Entry(L2TagOf(moved), evicted.value.frame, true, evicted.value.shared)
    {
      var setIndex := L1SetIndex(page);
      way := FirstInvalidWay(setIndex);
      evicted := None;
      if way == L1_TLB_WAYS {
        way := randomWay;
        var victim := entries[setIndex, way];
        evicted := Some(victim);
        L1PageDecomposes(victim.pageTag, setIndex);
        var moved := L1Page(victim.pageTag, setIndex);
        var l2Way := l2.Update(moved, victim.frame, victim.shared);
      }
      entries[setIndex, way] := Entry(L1TagOf(page), frame, true, shared);
    }

    /** `flush_L1_TLB`: every entry whose page is not shared is invalidated;
        shared entries are left as they are. */
    method Flush()
      requires Valid()
      modifies entries
      ensures Valid()
      ensures forall s, w :: 0 <= s < L1_TLB_SETS && 0 <= w < L1_TLB_WAYS ==>
                entries[s, w] == Flushed(old(entries[s, w]))
    {
      for s := 0 to L1_TLB_SETS
        invariant forall t, w :: 0 <= t < L1_TLB_SETS && 0 <= w < L1_TLB_WAYS ==>
                    entries[t, w] == if t < s then Flushed(old(entries[t, w])) else old(entries[t, w])
      {
        for w := 0 to L1_TLB_WAYS
          invariant forall t, v :: 0 <= t < L1_TLB_SETS && 0 <= v < L1_TLB_WAYS ==>
                      entries[t, v] == if t < s || (t == s && v < w) then Flushed(old(entries[t, v])) else old(entries[t, v])
        {
          if !entries[s, w].shared {
            entries[s, w] := entries[s, w].(valid := false);
          }
        }
      }
    }
  }
}
