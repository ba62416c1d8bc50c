/** Allocation: the layout, tags and lists after a chunk, or the front of one, is handed out. */
module MallocTake {
  import opened MallocSizes
  import opened MallocShape
  import opened MallocTags
  import opened MallocLists
  import opened MallocRelease

  /* ---------- heap lemmas ---------- */

  /** A free chunk, or several consecutive chunks, become one live block. */
  lemma FuseLiveKeeps(m: Mem, m': Mem, sh: Shape, segs: Segs, top: int, lo: int, hi: int)
    requires HeapOk(m, sh, segs, top)
    requires CanFuse(sh, segs, lo, hi, Live) && FuseWrites(m, m', lo, hi, Live)
    requires !(lo <= top < hi)
    ensures HeapOk(m', Fuse(sh, lo, hi, Live), segs, top)
    ensures forall c | c in sh && !(lo <= c < hi) :: SameWords(m, m', c, sh[c].size)
  {
    FuseKeeps(sh, segs, lo, hi, Live);
    FuseTags(m, m', sh, segs, lo, hi, Live);
    FuseCoalesced(m, sh, segs, lo, hi, Live);
    forall c | c in sh && !(lo <= c < hi)
      ensures SameWords(m, m', c, sh[c].size)
    {
      LocalWritesSpareBlocks(m, m', sh, segs, lo, hi, c);
    }
  }

  lemma SplitCoalesced(sh: Shape, segs: Segs, a: int, n: int, k2: Kind)
    requires WellFormed(sh, segs) && Coalesced(sh)
    requires CanSplit(sh, a, n, Live, k2) && (k2.Free? ==> sh[a].kind.Free?) && a + n !in sh
    ensures Coalesced(Split(sh, a, n, Live, k2))
  {
    var t := Split(sh, a, n, Live, k2);
    forall x ensures CoalescedAt(t, x) {
      assert CoalescedAt(sh, x) && CoalescedAt(sh, a);
      if x in sh && x != a && sh[x].kind.Free? {
        assert NextAt(sh, x);
        assert ChunkAt(sh, segs, x) && Apart(sh, x, a) && Apart(sh, a, x);
      }
    }
  }

  lemma SplitHeap(m: Mem, m': Mem, sh: Shape, segs: Segs, top: int, a: int, n: int, k2: Kind)
    requires HeapOk(m, sh, segs, top)
    requires CanSplit(sh, a, n, Live, k2) && !k2.Fast? && SplitWrites(m, m', a, n, a + sh[a].size, k2)
    requires (k2.Free? ==> sh[a].kind.Free?) && (k2.Top? ==> a == top) && (k2.Live? ==> a != top)
    ensures a + n !in sh
    ensures HeapOk(m', Split(sh, a, n, Live, k2), segs, if k2.Top? then a + n else top)
    ensures forall c | c in sh && c != a :: SameWords(m, m', c, sh[c].size)
  {
    SplitKeeps(sh, segs, a, n, Live, k2);
    SplitTags(m, m', sh, segs, a, n, k2);
    SplitCoalesced(sh, segs, a, n, k2);
    assert ChunkAt(sh, segs, a);
    forall c | c in sh && c != a
      ensures SameWords(m, m', c, sh[c].size)
    {
      assert Apart(sh, a, c);
      LocalWritesSpareBlocks(m, m', sh, segs, a, a + sh[a].size, c);
    }
  }

  lemma BlocksKeptExcept(m: Mem, m': Mem, sh: Shape, v: Views, lo: int, hi: int)
    requires Viewed(sh, v)
    requires forall c | c in sh && !(lo <= c < hi) :: SameWords(m, m', c, sh[c].size)
    requires forall c | c in sh && lo <= c < hi :: !sh[c].kind.Live?
    ensures BlocksKept(m, m', v.lives)
  {
    forall c | c in v.lives
      ensures SameWords(m, m', c, v.lives[c])
    {
      assert ViewAt(sh, v, c);
    }
  }

  /* ---------- a whole free chunk is handed out ---------- */

  /** set_inuse_bit_at_offset */
  function SetInuse(m: Mem, next: int): Mem {
    m[next + 4 := Head(m, next) - PrevInuseBit(m, next) + 1]
  }

  function TakenViews(v: Views, p: int, size: int): Views {
    Views(v.lives[p := size], v.fasts, v.frees - {p})
  }

  lemma TakeWholeState(m: Mem, sh: Shape, segs: Segs, top: int, v: Views,
                       fast: seq<List>, bins: seq<List>, binmap: seq<nat>, flags: Flags, p: int)
    requires StateOk(m, sh, segs, top, v, fast, bins, binmap, flags) && p in v.frees
    ensures p in sh && ChunkSize(m, p) == v.frees[p] && p !in v.lives
    ensures var size := ChunkSize(m, p);
            var m' := SetInuse(m, p + size);
            && StateOk(m', Fuse(sh, p, p + size, Live), segs, top, TakenViews(v, p, size),
                       fast, Without(bins, p), binmap, flags)
            && BlocksKept(m, m', v.lives)
  {
    assert ViewAt(sh, v, p);
    ChunkSizeReads(m, sh, segs, p);
    var size := sh[p].size;
    assert ChunkAt(sh, segs, p) && NextAt(sh, p);
    WholeTake(m, sh, segs, top, v, p);
    UnlinkKeeps(v.frees, bins, p);
    UnlinkBinmap(bins, binmap, p);
  }

  lemma WholeTake(m: Mem, sh: Shape, segs: Segs, top: int, v: Views, p: int)
    requires HeapOk(m, sh, segs, top) && Viewed(sh, v)
    requires p in sh && sh[p].kind.Free? && p + sh[p].size in sh
    ensures var t, m', v' := Fuse(sh, p, p + sh[p].size, Live), SetInuse(m, p + sh[p].size),
                             TakenViews(v, p, sh[p].size);
            && HeapOk(m', t, segs, top) && Viewed(t, v') && BlocksKept(m, m', v.lives)
  {
    var hi := p + sh[p].size;
    var t, m', v' := Fuse(sh, p, hi, Live), SetInuse(m, hi), TakenViews(v, p, sh[p].size);
    assert ChunkAt(sh, segs, p) && NextAt(sh, p);
    ChunkSizeReads(m, sh, segs, p);
    forall a | a in sh && p <= a < hi ensures a == p {
      NothingInside(sh, segs, p, a);
    }
    FuseLiveKeeps(m, m', sh, segs, top, p, hi);
    forall a ensures ViewAt(t, v', a) { assert ViewAt(sh, v, a); }
    BlocksKeptExcept(m, m', sh, v, p, hi);
  }

  /* ---------- the front of a free chunk is handed out ---------- */

  /** Heads of both parts and the foot of the remainder. */
  function CutWrites(m: Mem, p: int, n: int, size: int): Mem {
    m[p + 4 := n + 1][p + n + 4 := size - n + 1][p + size := size - n]
  }

  function CutViews(v: Views, p: int, n: int, size: int): Views {
    Views(v.lives[p := n], v.fasts, (v.frees - {p})[p + n := size - n])
  }

  /** The remainder becomes the only chunk on the unsorted list. */
  function CutBins(bins: seq<List>, p: int, n: int): seq<List>
    requires |bins| == 96
  {
    Without(bins, p)[1 := [p + n]]
  }

  lemma TakeFrontState(m: Mem, sh: Shape, segs: Segs, top: int, v: Views,
                       fast: seq<List>, bins: seq<List>, binmap: seq<nat>, flags: Flags, p: int, n: int)
    requires StateOk(m, sh, segs, top, v, fast, bins, binmap, flags) && p in v.frees
    requires Aligned(n) && 16 <= n && v.frees[p] - n >= 16
    requires |bins| == 96 && Without(bins, p)[1] == []
    ensures p in sh && ChunkSize(m, p) == v.frees[p] && p !in v.lives
    ensures var size := ChunkSize(m, p);
            var m' := CutWrites(m, p, n, size);
            && StateOk(m', Split(sh, p, n, Live, Free), segs, top, CutViews(v, p, n, size),
                       fast, CutBins(bins, p, n), binmap, flags)
            && BlocksKept(m, m', v.lives)
  {
    assert ViewAt(sh, v, p) && ViewAt(sh, v, p + n);
    ChunkSizeReads(m, sh, segs, p);
    FrontTake(m, sh, segs, top, v, p, n);
    UnlinkKeeps(v.frees, bins, p);
    UnlinkBinmap(bins, binmap, p);
    var b := Without(bins, p);
    PushKeeps(v.frees - {p}, b, p + n, v.frees[p] - n);
    assert [p + n] + b[1] == [p + n];
    UnsortedBinmap(b, binmap, [p + n]);
    FlagsAfterCut(v, segs, top, flags, p, n);
  }

  lemma FlagsAfterCut(v: Views, segs: Segs, top: int, flags: Flags, p: int, n: int)
    requires FlagsOk(v, segs, top, flags) && p in v.frees
    ensures FlagsOk(CutViews(v, p, n, v.frees[p]), segs, top, flags)
  {
  }

  lemma FrontTake(m: Mem, sh: Shape, segs: Segs, top: int, v: Views, p: int, n: int)
    requires HeapOk(m, sh, segs, top) && Viewed(sh, v)
    requires p in sh && sh[p].kind.Free? && Aligned(n) && 16 <= n <= sh[p].size - 16
    ensures p + n !in sh
    ensures var t, m', v' := Split(sh, p, n, Live, Free), CutWrites(m, p, n, sh[p].size), CutViews(v, p, n, sh[p].size);
            && HeapOk(m', t, segs, top) && Viewed(t, v') && BlocksKept(m, m', v.lives)
  {
    var t, m', v' := Split(sh, p, n, Live, Free), CutWrites(m, p, n, sh[p].size), CutViews(v, p, n, sh[p].size);
    FreeHasInusePredecessor(m, sh, segs, p);
    assert FootAt(m, sh, p);
    SplitHeap(m, m', sh, segs, top, p, n, Free);
    forall a ensures ViewAt(t, v', a) { assert ViewAt(sh, v, a) && ViewAt(sh, v, p); }
    BlocksKeptExcept(m, m', sh, v, p, p + 1);
  }

  /* ---------- the front of top is handed out ---------- */

  function TopWrites(m: Mem, top: int, n: int, size: int): Mem {
    m[top + 4 := n + 1][top + n + 4 := size - n + 1]
  }

  lemma TakeTopState(m: Mem, sh: Shape, segs: Segs, top: int, v: Views,
                     fast: seq<List>, bins: seq<List>, binmap: seq<nat>, flags: Flags, n: int)
    requires StateOk(m, sh, segs, top, v, fast, bins, binmap, flags)
    requires top != 0 && Aligned(n) && 16 <= n && ChunkSize(m, top) >= n + 16
    ensures top in sh && top !in v.lives
    ensures var size := ChunkSize(m, top);
            var m' := TopWrites(m, top, n, size);
            && StateOk(m', Split(sh, top, n, Live, Top), segs, top + n, v.(lives := v.lives[top := n]),
                       fast, bins, binmap, flags)
            && BlocksKept(m, m', v.lives)
  {
    assert ViewAt(sh, v, top) && ChunkAt(sh, segs, top);
    ChunkSizeReads(m, sh, segs, top);
    TopTake(m, sh, segs, top, v, n);
  }

  lemma TopTake(m: Mem, sh: Shape, segs: Segs, top: int, v: Views, n: int)
    requires HeapOk(m, sh, segs, top) && Viewed(sh, v)
    requires top in sh && sh[top].kind.Top? && Aligned(n) && 16 <= n <= sh[top].size - 16
    ensures var t, m', v' := Split(sh, top, n, Live, Top), TopWrites(m, top, n, sh[top].size),
                             v.(lives := v.lives[top := n]);
            && HeapOk(m', t, segs, top + n) && Viewed(t, v') && BlocksKept(m, m', v.lives)
  {
    var t, m', v' := Split(sh, top, n, Live, Top), TopWrites(m, top, n, sh[top].size), v.(lives := v.lives[top := n]);
    FreeHasInusePredecessor(m, sh, segs, top);
    SplitHeap(m, m', sh, segs, top, top, n, Top);
    forall a ensures ViewAt(t, v', a) { assert ViewAt(sh, v, a); }
    BlocksKeptExcept(m, m', sh, v, top, top + 1);
  }

  /* ---------- fastbins ---------- */

  lemma FastTakeState(m: Mem, sh: Shape, segs: Segs, top: int, v: Views,
                      fast: seq<List>, bins: seq<List>, binmap: seq<nat>, flags: Flags, i: int)
    requires StateOk(m, sh, segs, top, v, fast, bins, binmap, flags)
    requires 0 <= i < 10 && |fast| == 10 && fast[i] != []
    ensures var p := fast[i][0];
            && flags.anyChunks && p in sh && sh[p].kind.Fast? && p in v.fasts && v.fasts[p] == 8 * (i + 2)
            && p !in v.lives
            && StateOk(m, Retag(sh, p, Live), segs, top, Views(v.lives[p := v.fasts[p]], v.fasts - {p}, v.frees),
                       fast[i := fast[i][1..]], bins, binmap, flags)
  {
    var p := fast[i][0];
    FastPopKeeps(v.fasts, fast, i);
    assert ViewAt(sh, v, p);
    var v' := Views(v.lives[p := v.fasts[p]], v.fasts - {p}, v.frees);
    RetagHeap(m, sh, segs, top, p, Live);
    var t := Retag(sh, p, Live);
    forall a ensures ViewAt(t, v', a) { assert ViewAt(sh, v, a); }
  }

  lemma FastPutState(m: Mem, sh: Shape, segs: Segs, top: int, v: Views,
                     fast: seq<List>, bins: seq<List>, binmap: seq<nat>, flags: Flags, p: int)
    requires StateOk(m, sh, segs, top, v, fast, bins, binmap, flags)
    requires p in v.lives && v.lives[p] <= 72
    ensures p in sh && sh[p].kind.Live? && |fast| == 10 && 0 <= FastbinIndex(v.lives[p]) < 10 && flags.initialized
    ensures var i := FastbinIndex(v.lives[p]);
            StateOk(m, Retag(sh, p, Fast), segs, top, Views(v.lives - {p}, v.fasts[p := v.lives[p]], v.frees),
                    fast[i := [p] + fast[i]], bins, binmap, Flags(true, true, true, flags.contiguous))
  {
    assert ViewAt(sh, v, p) && ChunkAt(sh, segs, p);
    FastPushKeeps(v.fasts, fast, p, v.lives[p]);
    var v' := Views(v.lives - {p}, v.fasts[p := v.lives[p]], v.frees);
    RetagHeap(m, sh, segs, top, p, Fast);
    var t := Retag(sh, p, Fast);
    forall a ensures ViewAt(t, v', a) { assert ViewAt(sh, v, a); }
  }

  lemma RetagHeap(m: Mem, sh: Shape, segs: Segs, top: int, p: int, k: Kind)
    requires HeapOk(m, sh, segs, top) && p in sh
    requires (sh[p].kind.Live? && k.Fast?) || (sh[p].kind.Fast? && k.Live?)
    ensures HeapOk(m, Retag(sh, p, k), segs, top)
  {
    assert ChunkAt(sh, segs, p);
    RetagKeeps(sh, segs, p, k);
    RetagTags(m, sh, p, k);
    var t := Retag(sh, p, k);
    forall a ensures CoalescedAt(t, a) { assert CoalescedAt(sh, a); }
  }
}
