/** Searching for a free chunk: where an unsorted chunk goes, and which binned chunk fits best. */
module MallocSearch {
  import opened BitWords
  import opened MallocSizes
  import opened MallocShape
  import opened MallocTags
  import opened MallocLists
  import opened MallocRelease

  /** The tag of a free chunk is its size with PREV_INUSE set. */
  lemma FreeReads(m: Mem, sh: Shape, segs: Segs, top: int, v: Views, a: int)
    requires HeapOk(m, sh, segs, top) && Viewed(sh, v) && a in v.frees
    ensures Head(m, a) == v.frees[a] + 1 && ChunkSize(m, a) == v.frees[a]
    ensures Aligned(v.frees[a]) && v.frees[a] >= 16 && a > 0 && a !in v.lives
  {
    assert ViewAt(sh, v, a) && ChunkAt(sh, segs, a);
    ChunkSizeReads(m, sh, segs, a);
    FreeHasInusePredecessor(m, sh, segs, a);
  }

  lemma LiveReads(m: Mem, sh: Shape, segs: Segs, top: int, v: Views, a: int)
    requires HeapOk(m, sh, segs, top) && Viewed(sh, v) && a in v.lives
    ensures ChunkSize(m, a) == v.lives[a]
    ensures Aligned(v.lives[a]) && v.lives[a] >= 16 && a > 0 && Aligned(a) && a !in v.fasts
  {
    assert ViewAt(sh, v, a) && ChunkAt(sh, segs, a);
    ChunkSizeReads(m, sh, segs, a);
  }

  /* ---------- moving a chunk from the unsorted list to its bin ---------- */

  /** In a small bin all chunks have the same size. */
  lemma SmallBinSize(fr: Sizes, bins: seq<List>, i: int, a: int)
    requires BinsOk(fr, bins) && 2 <= i < 32 && a in bins[i]
    requires forall a | a in fr :: Aligned(fr[a])
    ensures a in fr && fr[a] == 8 * i
  {
    assert OnList(fr, bins, i, a) && Listed(fr, bins, a);
    BinIndexRange(fr[a]);
  }

  function BinnedAt(bins: seq<List>, p: int, i: int, k: int): seq<List>
    requires 0 <= i < |bins| && 0 <= k <= |Without(bins, p)[i]|
  {
    InsertAt(Without(bins, p), i, k, p)
  }

  lemma BinKeeps(fr: Sizes, bins: seq<List>, binmap: seq<nat>, p: int, k: int)
    requires BinsOk(fr, bins) && BinmapOk(bins, binmap) && p in fr && fr[p] >= 16
    requires BinOf(fr[p]) < 96 && Place(fr - {p}, Without(bins, p)[BinOf(fr[p])], k, fr[p])
    ensures BinsOk(fr, BinnedAt(bins, p, BinOf(fr[p]), k))
    ensures BinmapOk(BinnedAt(bins, p, BinOf(fr[p]), k), MarkBin(binmap, BinOf(fr[p])))
  {
    var i, b := BinOf(fr[p]), Without(bins, p);
    BinOfRange(fr[p]);
    UnlinkKeeps(fr, bins, p);
    UnlinkBinmap(bins, binmap, p);
    InsertKeeps(fr - {p}, b, p, fr[p], k);
    assert (fr - {p})[p := fr[p]] == fr;
    MarkBinKeeps(b, binmap, i, b[i][..k] + [p] + b[i][k..]);
  }

  /** Binning the last unsorted chunk removes it from the unsorted list and disturbs no bin but its own. */
  lemma BinEffect(fr: Sizes, bins: seq<List>, p: int, k: int)
    requires BinsOk(fr, bins) && bins[1] != [] && p == bins[1][|bins[1]| - 1]
    requires p in fr && 2 <= BinOf(fr[p]) < 96 && 0 <= k <= |Without(bins, p)[BinOf(fr[p])]|
    ensures var b := BinnedAt(bins, p, BinOf(fr[p]), k);
            && |b| == 96 && b[1] == bins[1][..|bins[1]| - 1]
            && (forall j | 2 <= j < 96 && j != BinOf(fr[p]) :: b[j] == bins[j])
  {
    PopIsUnlink(fr, bins, 1);
  }

  lemma BinState(m: Mem, sh: Shape, segs: Segs, top: int, v: Views,
                 fast: seq<List>, bins: seq<List>, binmap: seq<nat>, flags: Flags, p: int, k: int)
    requires StateOk(m, sh, segs, top, v, fast, bins, binmap, flags)
    requires |bins| == 96 && |binmap| == 4 && p in v.frees && v.frees[p] >= 16
    requires BinOf(v.frees[p]) < 96 && Place(v.frees - {p}, Without(bins, p)[BinOf(v.frees[p])], k, v.frees[p])
    ensures StateOk(m, sh, segs, top, v, fast, BinnedAt(bins, p, BinOf(v.frees[p]), k),
                    MarkBin(binmap, BinOf(v.frees[p])), flags)
  {
    hide HeapOk, BinsOk, BinmapOk, FastOk, FlagsOk, Viewed, BinnedAt;
    BinKeeps(v.frees, bins, binmap, p, k);
  }

  /* ---------- scanning the binmap ---------- */

  /** idx2bit, and 0 once the bit has been shifted out of the word. */
  function BitAt(block: nat, i: nat): nat
    requires 32 * block <= i
  {
    if i < 32 * block + 32 then Pow2(i - 32 * block) else 0
  }

  /** 32-bit x << 1 */
  function Shl1(x: nat): nat {
    2 * x % WORD_LIMIT
  }

  lemma ShiftBit(block: nat, i: nat)
    requires 32 * block <= i < 32 * block + 32
    ensures Shl1(BitAt(block, i)) == BitAt(block, i + 1)
  {
    WordPowers();
    var k := i - 32 * block;
    assert Pow2(k + 1) == 2 * Pow2(k);
    if k < 31 {
      Pow2Monotone(k + 1, 31);
      assert 2 * Pow2(31) == Pow2(32);
    }
  }

  lemma BitAtStart(block: nat)
    ensures BitAt(block, 32 * block) == 1
  {
  }

  lemma BinmapLengths(bins: seq<List>, binmap: seq<nat>)
    requires BinmapOk(bins, binmap)
    ensures |bins| == 96 && |binmap| == 4
  {
  }

  /** A clear bit means an empty bin. */
  lemma ClearMeansEmpty(bins: seq<List>, binmap: seq<nat>, block: nat, k: nat)
    requires BinmapOk(bins, binmap) && block < 4 && k < 32 && Bit(binmap[block], k) == 0
    ensures 2 <= 32 * block + k < 96 ==> bins[32 * block + k] == []
  {
    BlockIndex(block, k);
    hide Bit, Pow2;
    assert MarkedAt(bins, binmap, 32 * block + k);
  }

  lemma BlockIndex(block: nat, k: nat)
    requires k < 32
    ensures (32 * block + k) / 32 == block && (32 * block + k) % 32 == k
  {
  }

  /** No bit of the word is left at or above the current one. */
  lemma RestOfBlockEmpty(bins: seq<List>, binmap: seq<nat>, block: nat, i: nat)
    requires BinmapOk(bins, binmap) && block < 4 && 32 * block <= i
    requires BitAt(block, i) > binmap[block] || BitAt(block, i) == 0
    ensures forall j | 2 <= i <= j < 32 * block + 32 && j < 96 :: bins[j] == []
  {
    forall j | 2 <= i <= j < 32 * block + 32 && j < 96
      ensures bins[j] == []
    {
      NoHighBits(binmap[block], i - 32 * block, j - 32 * block);
      ClearMeansEmpty(bins, binmap, block, j - 32 * block);
    }
  }

  lemma ZeroWordEmpty(bins: seq<List>, binmap: seq<nat>, block: nat)
    requires BinmapOk(bins, binmap) && block < 4 && binmap[block] == 0
    ensures forall j | 2 <= j < 96 && 32 * block <= j < 32 * block + 32 :: bins[j] == []
  {
    forall j | 2 <= j < 96 && 32 * block <= j < 32 * block + 32
      ensures bins[j] == []
    {
      BitsOfZero(j - 32 * block);
      ClearMeansEmpty(bins, binmap, block, j - 32 * block);
    }
  }

  /** A word not below the current bit has a set bit at or above it. */
  lemma SetBitAbove(bins: seq<List>, binmap: seq<nat>, block: nat, i: nat) returns (k: nat)
    requires BinmapOk(bins, binmap) && block < 4 && 32 * block <= i
    requires 0 < BitAt(block, i) <= binmap[block]
    ensures i - 32 * block <= k < 32 && Bit(binmap[block], k) == 1 && block < 3
  {
    k := SomeHighBit(binmap[block], i - 32 * block);
    if k >= 32 {
      NoHighBits(binmap[block], 32, k);
    }
  }

  lemma ClearBitEmpty(bins: seq<List>, binmap: seq<nat>, block: nat, i: nat, k: nat)
    requires BinmapOk(bins, binmap) && block < 4 && 32 * block <= i <= 32 * block + k && k < 32
    requires Bit(binmap[block], k) == 1 && And(binmap[block], BitAt(block, i)) == 0
    ensures i < 32 * block + k
    ensures 2 <= i < 96 ==> bins[i] == []
  {
    AndPow2(binmap[block], i - 32 * block);
    ClearMeansEmpty(bins, binmap, block, i - 32 * block);
  }

  lemma ClearBitKeeps(bins: seq<List>, binmap: seq<nat>, block: nat, i: nat)
    requires BinmapOk(bins, binmap) && block < 3 && 32 * block <= i < 32 * block + 32 && 2 <= i && bins[i] == []
    ensures BinmapOk(bins, binmap[block := AndNot(binmap[block], BitAt(block, i))])
  {
    assert i / 32 == block && i % 32 == i - 32 * block;
    ClearBinKeeps(bins, binmap, i);
  }

  /* ---------- best fit ---------- */

  /** No free chunk that holds nb bytes is smaller than p. */
  ghost predicate BestFit(fr: Sizes, nb: int, p: int) {
    p in fr && nb <= fr[p] && (forall a | a in fr && nb <= fr[a] :: fr[p] <= fr[a])
  }

  ghost predicate NoFit(fr: Sizes, nb: int) {
    forall a | a in fr :: fr[a] < nb
  }

  /** The last fitting chunk of one list, which no chunk of that list beats. */
  ghost predicate BestOfList(fr: Sizes, s: List, nb: int, p: int) {
    p in s && p in fr && nb <= fr[p] && (forall a | a in s && nb <= SizeOf(fr, a) :: fr[p] <= SizeOf(fr, a))
  }

  /** Chunk k of the list is the last one that holds nb bytes. */
  ghost predicate LastFittingAt(fr: Sizes, s: List, nb: int, p: int, k: int) {
    0 <= k < |s| && s[k] == p && forall j | k < j < |s| :: SizeOf(fr, s[j]) < nb
  }

  ghost predicate LastFitting(fr: Sizes, s: List, nb: int, p: int) {
    exists k :: LastFittingAt(fr, s, nb, p, k)
  }

  ghost predicate LastFittingOfBin(fr: Sizes, bins: seq<List>, nb: int, p: int) {
    exists i :: 0 <= i < |bins| && LastFitting(fr, bins[i], nb, p)
  }

  /** Every chunk in a bin below that of nb is too small, and one in its own bin may be. */
  lemma FitIsBinnedHigh(fr: Sizes, bins: seq<List>, nb: nat, a: int)
    requires BinsOk(fr, bins) && bins[1] == [] && nb >= 16 && a in fr && nb <= fr[a]
    ensures BinIndex(nb) <= BinOf(fr[a]) < 96 && a in bins[BinOf(fr[a])]
  {
    assert Listed(fr, bins, a);
    BinIndexMonotone(nb, fr[a]);
    BinOfRange(fr[a]);
  }

  /** A fitting chunk of the bin of nb beats every chunk of a higher bin. */
  lemma OwnBinFitsBest(fr: Sizes, bins: seq<List>, nb: nat, p: int)
    requires BinsOk(fr, bins) && bins[1] == [] && nb >= 16 && BinIndex(nb) < 96
    requires BestOfList(fr, bins[BinIndex(nb)], nb, p)
    ensures BestFit(fr, nb, p)
  {
    BinIndexRange(nb);
    forall a | a in fr && nb <= fr[a]
      ensures fr[p] <= fr[a]
    {
      FitIsBinnedHigh(fr, bins, nb, a);
      assert OnList(fr, bins, BinIndex(nb), p);
      if fr[a] < fr[p] {
        BinIndexMonotone(fr[a], fr[p]);
      }
    }
  }

  /** If the bin of nb has nothing that fits, the last chunk of the lowest non-empty higher bin fits best. */
  lemma HigherBinFitsBest(fr: Sizes, bins: seq<List>, nb: nat, i: nat)
    requires BinsOk(fr, bins) && bins[1] == [] && nb >= 16
    requires BinIndex(nb) < i < 96 && bins[i] != []
    requires forall j | BinIndex(nb) < j < i :: bins[j] == []
    requires forall a | a in bins[BinIndex(nb)] :: SizeOf(fr, a) < nb
    ensures BestFit(fr, nb, bins[i][|bins[i]| - 1])
  {
    var n := |bins[i]| - 1;
    var p := bins[i][n];
    BinIndexRange(nb);
    assert OnList(fr, bins, i, p) && BinAt(fr, bins, i) && Listed(fr, bins, p);
    if fr[p] < nb {
      BinIndexMonotone(fr[p], nb);
    }
    forall a | a in fr && nb <= fr[a]
      ensures fr[p] <= fr[a]
    {
      FitIsBinnedHigh(fr, bins, nb, a);
      if BinOf(fr[a]) == i {
        var k :| 0 <= k < |bins[i]| && bins[i][k] == a;
        assert SizeOf(fr, bins[i][k]) >= SizeOf(fr, bins[i][n]);
      } else if fr[a] < fr[p] {
        BinIndexMonotone(fr[a], fr[p]);
      }
    }
  }

  lemma NothingFits(fr: Sizes, bins: seq<List>, nb: nat)
    requires BinsOk(fr, bins) && bins[1] == [] && nb >= 16 && BinIndex(nb) < 96
    requires forall j | BinIndex(nb) < j < 96 :: bins[j] == []
    requires forall a | a in bins[BinIndex(nb)] :: SizeOf(fr, a) < nb
    ensures NoFit(fr, nb)
  {
    forall a | a in fr
      ensures fr[a] < nb
    {
      if nb <= fr[a] {
        FitIsBinnedHigh(fr, bins, nb, a);
      }
    }
  }

  /* ---------- the searches ---------- */

  /** Where a chunk of the given size goes in the list s, which is ordered by size. The tags compared
      have PREV_INUSE set. */
  method FindPlace(m: Mem, s: List, size: nat, ghost fr: Sizes) returns (k: int)
    requires Sorted(fr, s) && (forall a | a in s :: Head(m, a) == SizeOf(fr, a) + 1)
    requires size < 256 ==> forall a | a in s :: SizeOf(fr, a) == size
    ensures Place(fr, s, k, size)
    ensures size < MIN_LARGE_SIZE || s == [] ==> k == 0
    ensures size >= MIN_LARGE_SIZE && s != [] ==>
              if size <= SizeOf(fr, s[|s| - 1]) then k == |s| else forall j | 0 <= j < k :: SizeOf(fr, s[j]) > size
  {
    k := 0;
    if size >= MIN_LARGE_SIZE && s != [] {
      var last := |s| - 1;
      if size < Head(m, s[last]) {
        k := last + 1;
      } else {
        while size + 1 < Head(m, s[k])
          invariant 0 <= k <= last
          invariant forall j | 0 <= j < k :: SizeOf(fr, s[j]) > size
          decreases last - k
        {
          k := k + 1;
        }
      }
    }
  }

  /** Skips binmap words that are zero. */
  method NextBlock(bins: seq<List>, binmap: seq<nat>, from: nat) returns (block: nat)
    requires BinmapOk(bins, binmap) && 1 <= from
    ensures from <= block && (block < 3 ==> binmap[block] != 0)
    ensures forall j | 32 * from <= j < 32 * block && j < 96 :: bins[j] == []
  {
    block := from;
    while block < 3 && binmap[block] == 0
      invariant from <= block
      invariant forall j | 32 * from <= j < 32 * block && j < 96 :: bins[j] == []
    {
      ZeroWordEmpty(bins, binmap, block);
      block := block + 1;
    }
  }

  /** The scan of the binmap for the lowest non-empty bin above idx; bits of bins found empty are
      cleared on the way. Returns 0 if there is none. */
  method NextBin(bins: seq<List>, binmap: seq<nat>, idx: nat) returns (i: nat, binmap': seq<nat>)
    requires BinmapOk(bins, binmap) && 2 <= idx < 96
    ensures BinmapOk(bins, binmap')
    ensures i != 0 ==> idx < i < 96 && bins[i] != [] && forall j | idx < j < i :: bins[j] == []
    ensures i == 0 ==> forall j | idx < j < 96 :: bins[j] == []
  {
    hide BinmapOk, Bit, Pow2, And, AndNot, Shl1, BitAt;
    BinmapLengths(bins, binmap);
    i, binmap' := idx + 1, binmap;
    var block := i / 32;
    var word := binmap[block];
    var bit := BitAt(block, i);
    while true
      invariant BinmapOk(bins, binmap') && |binmap'| == 4 && block <= 3 && word == binmap'[block]
      invariant idx < i <= 96 && 32 * block <= i <= 32 * block + 32 && bit == BitAt(block, i)
      invariant forall j | idx < j < i :: bins[j] == []
      decreases 96 - i
    {
      if bit > word || bit == 0 {
        RestOfBlockEmpty(bins, binmap', block, i);
        block := NextBlock(bins, binmap', block + 1);
        if block >= 3 {
          i := 0;
          return;
        }
        word, i, bit := binmap'[block], 32 * block, 1;
        BitAtStart(block);
      }
      ghost var k := SetBitAbove(bins, binmap', block, i);
      while And(word, bit) == 0
        invariant 32 * block <= i <= 32 * block + k && bit == BitAt(block, i) && idx < i
        invariant forall j | idx < j < i :: bins[j] == []
        decreases 32 * block + k - i
      {
        ClearBitEmpty(bins, binmap', block, i, k);
        ShiftBit(block, i);
        i, bit := i + 1, Shl1(bit);
      }
      if bins[i] != [] {
        return;
      }
      ClearBitKeeps(bins, binmap', block, i);
      ShiftBit(block, i);
      word := AndNot(word, bit);
      binmap' := binmap'[block := word];
      i, bit := i + 1, Shl1(bit);
    }
  }

  /** The scan of one bin, smallest chunk first, for a chunk that holds nb bytes. Returns 0 if there is none. */
  method LastFit(m: Mem, s: List, nb: nat, ghost fr: Sizes) returns (p: int)
    requires Sorted(fr, s) && forall a | a in s :: a in fr && ChunkSize(m, a) == fr[a] && a != 0
    ensures p != 0 ==> BestOfList(fr, s, nb, p) && LastFitting(fr, s, nb, p)
    ensures p == 0 ==> forall a | a in s :: SizeOf(fr, a) < nb
  {
    var k := |s|;
    while k > 0
      invariant 0 <= k <= |s|
      invariant forall j | k <= j < |s| :: SizeOf(fr, s[j]) < nb
    {
      k := k - 1;
      if ChunkSize(m, s[k]) >= nb {
        assert LastFittingAt(fr, s, nb, s[k], k);
        return s[k];
      }
    }
    p := 0;
  }

  /** Once the unsorted list is empty, the search returns the smallest chunk that fits, and fails only if
      no free chunk does. */
  method Choose(m: Mem, bins: seq<List>, binmap: seq<nat>, nb: nat, ghost fr: Sizes) returns (p: int, binmap': seq<nat>)
    requires BinsOk(fr, bins) && BinmapOk(bins, binmap) && forall a | a in fr :: ChunkSize(m, a) == fr[a] && a != 0
    requires nb >= 16 && bins[1] == [] && (nb < 256 ==> bins[nb / 8] == [])
    ensures BinmapOk(bins, binmap')
    ensures p != 0 ==> BestFit(fr, nb, p) && LastFittingOfBin(fr, bins, nb, p)
    ensures p == 0 ==> NoFit(fr, nb)
  {
    var idx := BinIndex(nb);
    BinIndexRange(nb);
    assert BinAt(fr, bins, idx);
    forall a | a in bins[idx] ensures a in fr { assert OnList(fr, bins, idx, a); }
    hide BinsOk, BinmapOk, BinIndex, ChunkSize;
    p, binmap' := 0, binmap;
    if nb >= MIN_LARGE_SIZE {
      p := LastFit(m, bins[idx], nb, fr);
      if p != 0 {
        OwnBinFitsBest(fr, bins, nb, p);
        return;
      }
    }
    var i;
    i, binmap' := NextBin(bins, binmap, idx);
    if i != 0 {
      HigherBinFitsBest(fr, bins, nb, i);
      p := bins[i][|bins[i]| - 1];
      assert LastFittingAt(fr, bins[i], nb, p, |bins[i]| - 1);
    } else {
      NothingFits(fr, bins, nb);
    }
  }
}
