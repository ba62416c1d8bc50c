/** The invariant of the allocator, and coalescing: the layout, tags and lists after a block is given back. */
module MallocRelease {
  import opened MallocShape
  import opened MallocTags
  import opened MallocLists

  /** Layout and tags agree, free space is coalesced and top is unique. */
  ghost predicate HeapOk(m: Mem, sh: Shape, segs: Segs, top: int) {
    && WellFormed(sh, segs)
    && Tagged(m, sh)
    && Coalesced(sh)
    && OneTop(sh, top)
  }

  /** The flag bits kept in max_fast, whether malloc_init_state ran, and MORECORE_CONTIGUOUS_BIT. */
  datatype Flags = Flags(initialized: bool, anyChunks: bool, fastChunks: bool, contiguous: bool)

  /** What the flags promise: no fast chunks, no freed chunks at all, no memory yet. */
  ghost predicate FlagsOk(v: Views, segs: Segs, top: int, flags: Flags) {
    && (flags.fastChunks ==> flags.anyChunks)
    && (!flags.fastChunks ==> v.fasts == map[])
    && (!flags.anyChunks ==> v.frees == map[])
    && (flags.anyChunks ==> flags.initialized)
    && (flags.contiguous || !flags.initialized ==> top == 0)
    && (top == 0 ==> segs == map[])
  }

  /** The whole invariant of the allocator. */
  ghost predicate StateOk(m: Mem, sh: Shape, segs: Segs, top: int, v: Views,
                          fast: seq<List>, bins: seq<List>, binmap: seq<nat>, flags: Flags) {
    && HeapOk(m, sh, segs, top)
    && Viewed(sh, v)
    && BinsOk(v.frees, bins)
    && FastOk(v.fasts, fast)
    && BinmapOk(bins, binmap)
    && FlagsOk(v, segs, top, flags)
  }

  /* ---------- fusing a block with its neighbours ---------- */

  /** From lo to hi there are only p, free chunks and, if the result is to be top, top. */
  ghost predicate Span(sh: Shape, lo: int, p: int, hi: int, k: Kind) {
    forall a | a in sh && lo <= a < hi :: a == p || sh[a].kind.Free? || (k.Top? && sh[a].kind.Top?)
  }

  /** Fusing p with its free neighbours takes p from the user and its neighbours from the lists. */
  function FusedViews(v: Views, lo: int, p: int, next: int, hi: int, k: Kind): Views {
    var frees := v.frees - {lo} - {next};
    Views(v.lives - {p}, v.fasts, if k.Free? then frees[lo := hi - lo] else frees)
  }

  lemma FuseViews(sh: Shape, v: Views, lo: int, p: int, next: int, hi: int, k: Kind)
    requires Viewed(sh, v)
    requires lo in sh && p in sh && lo <= p < hi && sh[p].kind.Live? && (k.Free? || k.Top?)
    requires forall a | a in sh && lo <= a < hi ::
               a == p || (sh[a].kind.Free? && (a == lo || a == next)) || sh[a].kind.Top?
    requires next in sh && sh[next].kind.Free? ==> lo < next < hi
    ensures Viewed(Fuse(sh, lo, hi, k), FusedViews(v, lo, p, next, hi, k))
  {
    var t, v' := Fuse(sh, lo, hi, k), FusedViews(v, lo, p, next, hi, k);
    forall a ensures ViewAt(t, v', a) {
      assert ViewAt(sh, v, a);
    }
  }

  lemma FuseOneTop(sh: Shape, segs: Segs, top: int, lo: int, p: int, hi: int, k: Kind)
    requires WellFormed(sh, segs) && OneTop(sh, top)
    requires lo in sh && p in sh && lo <= p < hi && Span(sh, lo, p, hi, k) && sh[p].kind.Live?
    requires k.Free? || (k.Top? && lo <= top < hi)
    ensures OneTop(Fuse(sh, lo, hi, k), if k.Top? then lo else top)
  {
    assert ChunkAt(sh, segs, lo);
  }

  lemma FuseCoalesced(m: Mem, sh: Shape, segs: Segs, lo: int, hi: int, k: Kind)
    requires WellFormed(sh, segs) && Tagged(m, sh) && Coalesced(sh)
    requires CanFuse(sh, segs, lo, hi, k) && (k.Free? ==> PrevInuseBit(m, lo) == 1)
    requires k.Top? ==> PrevInuseBit(m, lo) == 1
    requires k.Free? ==> !sh[hi].kind.Free? && !sh[hi].kind.Top?
    ensures Coalesced(Fuse(sh, lo, hi, k))
  {
    var t := Fuse(sh, lo, hi, k);
    forall a ensures CoalescedAt(t, a) {
      assert CoalescedAt(sh, a) && FootAt(m, sh, a);
      if a in t && a != lo && t[a].kind.Free? {
        assert Apart(sh, a, lo) && ChunkAt(sh, segs, a);
      }
    }
  }

  /** What giving back the block p leaves behind, for the span [lo, hi) and its new kind k. */
  lemma ReleaseKeeps(m: Mem, m': Mem, sh: Shape, segs: Segs, top: int, lo: int, p: int, hi: int, k: Kind)
    requires HeapOk(m, sh, segs, top)
    requires p in sh && sh[p].kind.Live? && lo <= p < hi
    requires CanFuse(sh, segs, lo, hi, k) && FuseWrites(m, m', lo, hi, k)
    requires PrevInuseBit(m, lo) == 1
    requires Span(sh, lo, p, hi, k)
    requires k.Free? ==> !sh[hi].kind.Free? && !sh[hi].kind.Top?
    requires k.Top? ==> lo <= top < hi
    requires k.Free? || k.Top?
    ensures HeapOk(m', Fuse(sh, lo, hi, k), segs, if k.Top? then lo else top)
    ensures forall c | c in sh && sh[c].kind.Live? && c != p :: SameWords(m, m', c, sh[c].size)
  {
    FuseKeeps(sh, segs, lo, hi, k);
    FuseTags(m, m', sh, segs, lo, hi, k);
    FuseCoalesced(m, sh, segs, lo, hi, k);
    FuseOneTop(sh, segs, top, lo, p, hi, k);
    forall c | c in sh && sh[c].kind.Live? && c != p
      ensures SameWords(m, m', c, sh[c].size)
    {
      LocalWritesSpareBlocks(m, m', sh, segs, lo, hi, c);
    }
  }

  lemma KeptByView(m: Mem, m': Mem, sh: Shape, v: Views, p: int)
    requires Viewed(sh, v)
    requires forall c | c in sh && sh[c].kind.Live? && c != p :: SameWords(m, m', c, sh[c].size)
    ensures BlocksKept(m, m', v.lives - {p})
  {
    forall c | c in v.lives - {p}
      ensures SameWords(m, m', c, v.lives[c])
    {
      assert ViewAt(sh, v, c);
    }
  }

  /** Nothing starts strictly inside a chunk. */
  lemma NothingInside(sh: Shape, segs: Segs, a: int, x: int)
    requires WellFormed(sh, segs) && a in sh && x in sh
    ensures !(a < x < a + sh[a].size)
  {
    assert Apart(sh, a, x);
  }

  /* ---------- finding the neighbours ---------- */

  /** lo is where the merged chunk starts: at p, or at the free chunk before it. */
  ghost predicate BackTo(m: Mem, sh: Shape, lo: int, p: int)
    requires p in sh
  {
    && PrevInuseBit(m, lo) == 1
    && (lo == p || (lo in sh && lo < p && sh[lo].kind.Free? && lo + sh[lo].size == p && sh[lo].base == sh[p].base))
  }

  /** Where the chunk that p becomes part of starts, read off the tags. */
  function LowEnd(m: Mem, p: int): int {
    if PrevInuseBit(m, p) == 0 then p - Rd(m, p) else p
  }

  /** Where it ends. */
  function HighEnd(m: Mem, top: int, p: int): int {
    var next := p + ChunkSize(m, p);
    var end := next + ChunkSize(m, next);
    if next == top || PrevInuseBit(m, end) == 0 then end else next
  }

  /** The tags lead to the true neighbours of p. */
  lemma NeighboursFromTags(m: Mem, sh: Shape, segs: Segs, top: int, p: int)
    requires HeapOk(m, sh, segs, top) && p in sh && sh[p].kind.Live?
    ensures var lo, hi, next := LowEnd(m, p), HighEnd(m, top, p), p + sh[p].size;
            && lo in sh && BackTo(m, sh, lo, p) && (lo != p <==> sh[lo].kind.Free?)
            && ChunkSize(m, p) == sh[p].size
            && next in sh && ChunkSize(m, next) == TagSize(sh[next]) && lo != next
            && (next == top ==> hi == top + sh[top].size)
            && (next != top ==> hi == if sh[next].kind.Free? then next + sh[next].size else next)
            && (hi != next <==> next == top || sh[next].kind.Free?)
  {
    var next := p + sh[p].size;
    assert NextAt(sh, p) && ChunkAt(sh, segs, p) && ChunkAt(sh, segs, next);
    ChunkSizeReads(m, sh, segs, p);
    ChunkSizeReads(m, sh, segs, next);
    if PrevInuseBit(m, p) == 0 {
      PreviousChunk(m, sh, segs, p);
    }
    if next != top {
      InuseOfNext(m, sh, segs, next);
    }
  }

  /* ---------- the result goes on the unsorted list ---------- */

  /** The words written when p, with its free neighbours, becomes the free chunk [lo, hi). */
  function ListWrites(m: Mem, lo: int, next: int, nextsize: int, hi: int): Mem {
    m[next + 4 := nextsize][lo + 4 := hi - lo + 1][hi := hi - lo]
  }

  ghost predicate ListCase(m: Mem, sh: Shape, segs: Segs, top: int, lo: int, p: int, hi: int) {
    && HeapOk(m, sh, segs, top)
    && p in sh && sh[p].kind.Live? && BackTo(m, sh, lo, p)
    && var next := p + sh[p].size;
       next in sh && next != top && hi == if sh[next].kind.Free? then next + sh[next].size else next
  }

  lemma ReleaseToList(m: Mem, sh: Shape, segs: Segs, top: int, v: Views, lo: int, p: int, hi: int)
    requires ListCase(m, sh, segs, top, lo, p, hi) && Viewed(sh, v)
    ensures lo in sh && hi - lo >= 16
    ensures var next := p + sh[p].size;
            var m', t, v' := ListWrites(m, lo, next, TagSize(sh[next]), hi), Fuse(sh, lo, hi, Free),
                             FusedViews(v, lo, p, next, hi, Free);
            && HeapOk(m', t, segs, top) && Viewed(t, v')
            && BlocksKept(m, m', v'.lives)
  {
    var next := p + sh[p].size;
    var m' := ListWrites(m, lo, next, TagSize(sh[next]), hi);
    ListSpan(m, sh, segs, top, lo, p, hi);
    ListTagWrites(m, sh, segs, top, lo, p, hi);
    ReleaseKeeps(m, m', sh, segs, top, lo, p, hi, Free);
    FuseViews(sh, v, lo, p, next, hi, Free);
    KeptByView(m, m', sh, v, p);
  }

  lemma ListSpan(m: Mem, sh: Shape, segs: Segs, top: int, lo: int, p: int, hi: int)
    requires ListCase(m, sh, segs, top, lo, p, hi)
    ensures CanFuse(sh, segs, lo, hi, Free) && lo <= p < hi && hi in sh
    ensures !sh[hi].kind.Free? && !sh[hi].kind.Top?
    ensures Span(sh, lo, p, hi, Free)
    ensures var next := p + sh[p].size;
            && (forall a | a in sh && lo <= a < hi :: a == p || (sh[a].kind.Free? && (a == lo || a == next)))
            && (sh[next].kind.Free? ==> lo < next < hi)
  {
    var next := p + sh[p].size;
    assert ChunkAt(sh, segs, p) && NextAt(sh, p) && ChunkAt(sh, segs, next) && NextAt(sh, next);
    assert CoalescedAt(sh, next);
    forall a | a in sh && lo <= a < hi
      ensures a == lo || a == p || (a == next && sh[next].kind.Free?)
    {
      NothingInside(sh, segs, lo, a);
      NothingInside(sh, segs, p, a);
      NothingInside(sh, segs, next, a);
    }
  }

  lemma ListTagWrites(m: Mem, sh: Shape, segs: Segs, top: int, lo: int, p: int, hi: int)
    requires ListCase(m, sh, segs, top, lo, p, hi)
    ensures var next := p + sh[p].size;
            FuseWrites(m, ListWrites(m, lo, next, TagSize(sh[next]), hi), lo, hi, Free)
  {
    var next := p + sh[p].size;
    assert ChunkAt(sh, segs, p) && ChunkAt(sh, segs, next) && FootAt(m, sh, next);
    ChunkSizeReads(m, sh, segs, next);
  }

  /** The lists after p and its free neighbours became the free chunk [lo, hi). */
  function ReleasedBins(bins: seq<List>, lo: int, p: int, next: int, hi: int): seq<List>
    requires |bins| == 96
  {
    PushUnsorted(WithoutIf(WithoutIf(bins, lo != p, lo), hi != next, next), lo)
  }

  lemma ReleasedBinsKeep(fr: Sizes, bins: seq<List>, binmap: seq<nat>, lo: int, p: int, next: int, hi: int)
    requires BinsOk(fr, bins) && BinmapOk(bins, binmap)
    requires (lo != p <==> lo in fr) && (hi != next <==> next in fr) && lo != next && hi - lo >= 16
    ensures BinsOk((fr - {lo} - {next})[lo := hi - lo], ReleasedBins(bins, lo, p, next, hi))
    ensures BinmapOk(ReleasedBins(bins, lo, p, next, hi), binmap)
  {
    var b1 := WithoutIf(bins, lo != p, lo);
    UnlinkIfKeeps(fr, bins, binmap, lo != p, lo);
    UnlinkIfKeeps(fr - {lo}, b1, binmap, hi != next, next);
    var b2 := WithoutIf(b1, hi != next, next);
    PushKeeps(fr - {lo} - {next}, b2, lo, hi - lo);
    UnsortedBinmap(b2, binmap, [lo] + b2[1]);
  }

  /** The clauses of the invariant, taken apart and put together. */
  lemma StateParts(m: Mem, sh: Shape, segs: Segs, top: int, v: Views,
                   fast: seq<List>, bins: seq<List>, binmap: seq<nat>, flags: Flags)
    requires StateOk(m, sh, segs, top, v, fast, bins, binmap, flags)
    ensures HeapOk(m, sh, segs, top) && Viewed(sh, v) && BinsOk(v.frees, bins) && FastOk(v.fasts, fast)
    ensures BinmapOk(bins, binmap) && FlagsOk(v, segs, top, flags)
    ensures |bins| == 96 && |fast| == 10 && |binmap| == 4
  {
  }

  lemma Assemble(m: Mem, sh: Shape, segs: Segs, top: int, v: Views,
                 fast: seq<List>, bins: seq<List>, binmap: seq<nat>, flags: Flags)
    requires HeapOk(m, sh, segs, top) && Viewed(sh, v) && BinsOk(v.frees, bins) && FastOk(v.fasts, fast)
    requires BinmapOk(bins, binmap) && FlagsOk(v, segs, top, flags)
    ensures StateOk(m, sh, segs, top, v, fast, bins, binmap, flags)
  {
  }

  lemma FlagsAfterRelease(v: Views, segs: Segs, top: int, top': int, flags: Flags, lo: int, p: int, next: int,
                          hi: int, k: Kind)
    requires FlagsOk(v, segs, top, flags) && flags.anyChunks && (top != 0 <==> top' != 0)
    ensures FlagsOk(FusedViews(v, lo, p, next, hi, k), segs, top', flags)
  {
  }

  /** The neighbours of p, found through the tags, are on a list exactly when they are free. */
  lemma ListNeighbours(m: Mem, sh: Shape, segs: Segs, top: int, v: Views, p: int)
    requires HeapOk(m, sh, segs, top) && Viewed(sh, v)
    requires p in v.lives && p + ChunkSize(m, p) != top
    ensures var lo, hi, next := LowEnd(m, p), HighEnd(m, top, p), p + ChunkSize(m, p);
            && ListCase(m, sh, segs, top, lo, p, hi) && next == p + sh[p].size
            && ChunkSize(m, next) == TagSize(sh[next])
            && (lo != p <==> lo in v.frees) && (hi != next <==> next in v.frees) && lo != next
  {
    assert ViewAt(sh, v, p);
    NeighboursFromTags(m, sh, segs, top, p);
    hide HeapOk;
    var lo, next := LowEnd(m, p), p + sh[p].size;
    assert ViewAt(sh, v, lo) && ViewAt(sh, v, next);
  }

  lemma ReleaseListState(m: Mem, sh: Shape, segs: Segs, top: int, v: Views,
                         fast: seq<List>, bins: seq<List>, binmap: seq<nat>, flags: Flags, p: int)
    requires StateOk(m, sh, segs, top, v, fast, bins, binmap, flags) && flags.anyChunks
    requires p in v.lives && p + ChunkSize(m, p) != top
    ensures |bins| == 96 && LowEnd(m, p) in sh
    ensures var lo, hi, next := LowEnd(m, p), HighEnd(m, top, p), p + ChunkSize(m, p);
            var m', t, v' := ListWrites(m, lo, next, ChunkSize(m, next), hi), Fuse(sh, lo, hi, Free),
                             FusedViews(v, lo, p, next, hi, Free);
            && StateOk(m', t, segs, top, v', fast, ReleasedBins(bins, lo, p, next, hi), binmap, flags)
            && BlocksKept(m, m', v'.lives)
  {
    hide StateOk, HeapOk, BinsOk, BinmapOk, FastOk, FlagsOk, Viewed, BlocksKept;
    hide LowEnd, HighEnd, ChunkSize, TagSize, ReleasedBins, Fuse, ListWrites;
    StateParts(m, sh, segs, top, v, fast, bins, binmap, flags);
    var lo, hi, next := LowEnd(m, p), HighEnd(m, top, p), p + ChunkSize(m, p);
    ListNeighbours(m, sh, segs, top, v, p);
    FlagsAfterRelease(v, segs, top, top, flags, lo, p, next, hi, Free);
    ReleaseToList(m, sh, segs, top, v, lo, p, hi);
    ReleasedBinsKeep(v.frees, bins, binmap, lo, p, next, hi);
    Assemble(ListWrites(m, lo, next, ChunkSize(m, next), hi), Fuse(sh, lo, hi, Free), segs, top,
             FusedViews(v, lo, p, next, hi, Free), fast, ReleasedBins(bins, lo, p, next, hi), binmap, flags);
  }

  /* ---------- the result becomes top ---------- */

  ghost predicate TopCase(m: Mem, sh: Shape, segs: Segs, top: int, lo: int, p: int) {
    && HeapOk(m, sh, segs, top)
    && p in sh && sh[p].kind.Live? && BackTo(m, sh, lo, p)
    && p + sh[p].size == top && top in sh
  }

  /** Merging p, with the free chunk before it, into top. */
  lemma ReleaseToTop(m: Mem, sh: Shape, segs: Segs, top: int, v: Views, lo: int, p: int)
    requires TopCase(m, sh, segs, top, lo, p) && Viewed(sh, v)
    ensures lo in sh
    ensures var hi := top + sh[top].size;
            var m', t, v' := m[lo + 4 := hi - lo + 1], Fuse(sh, lo, hi, Top), FusedViews(v, lo, p, top, hi, Top);
            && HeapOk(m', t, segs, lo) && Viewed(t, v') && 0 < lo < top
            && BlocksKept(m, m', v'.lives)
            && v'.frees == v.frees - {lo}
  {
    var hi := top + sh[top].size;
    var m' := m[lo + 4 := hi - lo + 1];
    assert ChunkAt(sh, segs, lo);
    TopSpan(m, sh, segs, top, lo, p);
    ReleaseKeeps(m, m', sh, segs, top, lo, p, hi, Top);
    FuseViews(sh, v, lo, p, top, hi, Top);
    KeptByView(m, m', sh, v, p);
    assert v.frees - {lo} - {top} == v.frees - {lo} by {
      assert ViewAt(sh, v, top);
    }
  }

  lemma TopSpan(m: Mem, sh: Shape, segs: Segs, top: int, lo: int, p: int)
    requires TopCase(m, sh, segs, top, lo, p)
    ensures var hi := top + sh[top].size;
            && CanFuse(sh, segs, lo, hi, Top) && lo <= p < top < hi
            && Span(sh, lo, p, hi, Top)
            && (forall a | a in sh && lo <= a < hi :: a == p || (sh[a].kind.Free? && a == lo) || sh[a].kind.Top?)
  {
    var hi := top + sh[top].size;
    assert ChunkAt(sh, segs, lo) && ChunkAt(sh, segs, p) && NextAt(sh, p) && ChunkAt(sh, segs, top);
    forall a | a in sh && lo <= a < hi
      ensures a == lo || a == p || a == top
    {
      NothingInside(sh, segs, lo, a);
      NothingInside(sh, segs, p, a);
      NothingInside(sh, segs, top, a);
    }
  }

  lemma ReleaseTopState(m: Mem, sh: Shape, segs: Segs, top: int, v: Views,
                        fast: seq<List>, bins: seq<List>, binmap: seq<nat>, flags: Flags, p: int)
    requires StateOk(m, sh, segs, top, v, fast, bins, binmap, flags) && flags.anyChunks
    requires p in v.lives && p + ChunkSize(m, p) == top
    ensures LowEnd(m, p) in sh
    ensures var lo, hi := LowEnd(m, p), HighEnd(m, top, p);
            var m', t, v' := m[lo + 4 := hi - lo + 1], Fuse(sh, lo, hi, Top), FusedViews(v, lo, p, top, hi, Top);
            && StateOk(m', t, segs, lo, v', fast, WithoutIf(bins, lo != p, lo), binmap, flags)
            && BlocksKept(m, m', v'.lives)
  {
    hide StateOk, HeapOk, BinsOk, BinmapOk, FastOk, FlagsOk, Viewed, BlocksKept;
    hide LowEnd, HighEnd, ChunkSize, Fuse, WithoutIf;
    StateParts(m, sh, segs, top, v, fast, bins, binmap, flags);
    var lo, hi := LowEnd(m, p), HighEnd(m, top, p);
    TopNeighbours(m, sh, segs, top, v, p);
    ReleaseToTop(m, sh, segs, top, v, lo, p);
    UnlinkIfKeeps(v.frees, bins, binmap, lo != p, lo);
    FlagsAfterRelease(v, segs, top, lo, flags, lo, p, top, hi, Top);
    Assemble(m[lo + 4 := hi - lo + 1], Fuse(sh, lo, hi, Top), segs, lo,
             FusedViews(v, lo, p, top, hi, Top), fast, WithoutIf(bins, lo != p, lo), binmap, flags);
  }

  lemma TopNeighbours(m: Mem, sh: Shape, segs: Segs, top: int, v: Views, p: int)
    requires HeapOk(m, sh, segs, top) && Viewed(sh, v)
    requires p in v.lives && p + ChunkSize(m, p) == top
    ensures var lo := LowEnd(m, p);
            && lo in sh && TopCase(m, sh, segs, top, lo, p) && HighEnd(m, top, p) == top + sh[top].size
            && (lo != p <==> lo in v.frees)
  {
    assert ViewAt(sh, v, p);
    NeighboursFromTags(m, sh, segs, top, p);
    hide HeapOk;
    assert ViewAt(sh, v, LowEnd(m, p));
  }

  /* ---------- top never shrinks ---------- */

  lemma ReleaseKeepsTop(m: Mem, sh: Shape, segs: Segs, top: int, v: Views, p: int)
    requires HeapOk(m, sh, segs, top) && Viewed(sh, v) && p in v.lives
    ensures LowEnd(m, p) in sh
    ensures var lo, hi := LowEnd(m, p), HighEnd(m, top, p);
            && lo <= p < p + v.lives[p] <= hi
            && (if p + ChunkSize(m, p) != top then TopSize(Fuse(sh, lo, hi, Free), top) == TopSize(sh, top)
                else TopSize(Fuse(sh, lo, hi, Top), lo) == hi - lo >= TopSize(sh, top))
  {
    assert ViewAt(sh, v, p) && ChunkAt(sh, segs, p);
    NeighboursFromTags(m, sh, segs, top, p);
    var lo, hi := LowEnd(m, p), HighEnd(m, top, p);
    if p + ChunkSize(m, p) != top {
      ListNeighbours(m, sh, segs, top, v, p);
      ListSpan(m, sh, segs, top, lo, p, hi);
    } else {
      TopSpan(m, sh, segs, top, lo, p);
    }
  }
}
