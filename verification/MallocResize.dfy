/** New segments, and live blocks that are cut, grown or joined in place. */
module MallocResize {
  import opened MallocSizes
  import opened MallocShape
  import opened MallocTags
  import opened MallocLists
  import opened MallocRelease
  import opened MallocTake

  /* ---------- a new segment replaces top ---------- */

  /** What sYSMALLOc writes: the head of the new top, and fenceposts over the old one if there was one. */
  function SegmentWrites(m: Mem, top: int, brk: int, size: int): Mem {
    (if top == 0 then m else FenceWrites(m, top, ChunkSize(m, top)))[brk + 4 := size + 1]
  }

  function SegmentShape(sh: Shape, top: int, brk: int, size: int): Shape
    requires top != 0 ==> top in sh
  {
    Mapped(if top == 0 then sh else Fenced(sh, top), brk, size)
  }

  /** The part of the old top that can be used again. */
  function SegmentViews(v: Views, top: int, oldsize: int): Views {
    if top != 0 && oldsize >= 32 then v.(lives := v.lives[top := oldsize - 16]) else v
  }

  lemma NewSegmentState(m: Mem, sh: Shape, segs: Segs, top: int, v: Views,
                        fast: seq<List>, bins: seq<List>, binmap: seq<nat>, flags: Flags, brk: int, size: int)
    requires StateOk(m, sh, segs, top, v, fast, bins, binmap, flags) && flags.initialized
    requires FreshPages(segs, brk, size) && PageMultiple(size) && size >= 4096
    ensures top != 0 ==> top in sh && top !in v.lives
    ensures var m', oldsize := SegmentWrites(m, top, brk, size), if top == 0 then 0 else ChunkSize(m, top);
            && StateOk(m', SegmentShape(sh, top, brk, size), segs[brk := brk + size], brk,
                       SegmentViews(v, top, oldsize),
                       fast, bins, binmap, flags.(contiguous := false))
            && BlocksKept(m, m', v.lives)
  {
    if top == 0 {
      MappedHeap(m, sh, segs, v, brk, size);
    } else {
      assert ViewAt(sh, v, top);
      ChunkSizeReads(m, sh, segs, top);
      FreeHasInusePredecessor(m, sh, segs, top);
      var m1, t1, v1 := FenceWrites(m, top, sh[top].size), Fenced(sh, top), SegmentViews(v, top, sh[top].size);
      FencedHeap(m, sh, segs, top, v);
      MappedHeap(m1, t1, segs, v1, brk, size);
      BlocksKeptTrans(m, m1, m1[brk + 4 := size + 1], v.lives, v.lives);
    }
  }

  /** Layout and tags without a top. */
  ghost predicate Topless(m: Mem, sh: Shape, segs: Segs) {
    && WellFormed(sh, segs) && Tagged(m, sh) && Coalesced(sh)
    && (forall a | a in sh :: !sh[a].kind.Top?)
  }

  lemma FencedHeap(m: Mem, sh: Shape, segs: Segs, top: int, v: Views)
    requires HeapOk(m, sh, segs, top) && TopReady(m, sh, segs, top) && Viewed(sh, v)
    ensures var m', t, v' := FenceWrites(m, top, sh[top].size), Fenced(sh, top), SegmentViews(v, top, sh[top].size);
            && Topless(m', t, segs) && Viewed(t, v') && BlocksKept(m, m', v.lives)
            && forall c | c in v.lives :: c in v'.lives && v'.lives[c] == v.lives[c]
  {
    var s := sh[top].size;
    var m', t, v' := FenceWrites(m, top, s), Fenced(sh, top), SegmentViews(v, top, s);
    assert ViewAt(sh, v, top) && ChunkAt(sh, segs, top) && Apart(sh, top, top + s - 16);
    FencedKeeps(sh, segs, top);
    FenceTags(m, sh, segs, top);
    forall a ensures CoalescedAt(t, a) {
      assert CoalescedAt(sh, a) && NextAt(sh, a);
    }
    forall a ensures ViewAt(t, v', a) {
      assert ViewAt(sh, v, a);
    }
    forall c | c in v.lives
      ensures SameWords(m, m', c, v.lives[c])
    {
      assert ViewAt(sh, v, c) && ChunkAt(sh, segs, c) && Apart(sh, c, top) && Apart(sh, top, c);
    }
  }

  lemma MappedHeap(m: Mem, sh: Shape, segs: Segs, v: Views, brk: int, size: int)
    requires Topless(m, sh, segs) && Viewed(sh, v)
    requires FreshPages(segs, brk, size) && PageMultiple(size) && size >= 4096
    ensures var m', t := m[brk + 4 := size + 1], Mapped(sh, brk, size);
            && HeapOk(m', t, segs[brk := brk + size], brk) && Viewed(t, v) && BlocksKept(m, m', v.lives)
  {
    var m', t := m[brk + 4 := size + 1], Mapped(sh, brk, size);
    MappedKeeps(sh, segs, brk, size);
    MappedTags(m, sh, segs, brk, size);
    forall a ensures CoalescedAt(t, a) {
      assert CoalescedAt(sh, a) && NextAt(sh, a);
    }
    forall a ensures ViewAt(t, v, a) {
      assert ViewAt(sh, v, a);
    }
    forall c | c in v.lives
      ensures SameWords(m, m', c, v.lives[c])
    {
      assert ViewAt(sh, v, c) && ChunkAt(sh, segs, c);
      assert NextAt(sh, c);
      assert ChunkAt(sh, segs, c + sh[c].size);
    }
  }

  /* ---------- a live block is cut in two live blocks ---------- */

  /** The heads of both parts, with the tag behind them saying that they are in use. */
  function CutLiveViews(v: Views, p: int, n: int, size: int): Views {
    v.(lives := v.lives[p := n][p + n := size - n])
  }

  lemma CutLiveState(m: Mem, m': Mem, sh: Shape, segs: Segs, top: int, v: Views,
                     fast: seq<List>, bins: seq<List>, binmap: seq<nat>, flags: Flags, p: int, n: int)
    requires StateOk(m, sh, segs, top, v, fast, bins, binmap, flags) && p in v.lives
    requires Aligned(n) && 16 <= n <= v.lives[p] - 16
    requires SplitWrites(m, m', p, n, p + v.lives[p], Live) && SameWords(m, m', p, n)
    ensures p in sh && p + n !in v.lives
    ensures StateOk(m', Split(sh, p, n, Live, Live), segs, top, CutLiveViews(v, p, n, v.lives[p]), fast, bins, binmap,
                    flags)
    ensures BlocksKept(m, m', v.lives[p := n])
  {
    assert ViewAt(sh, v, p) && ViewAt(sh, v, p + n);
    assert ChunkAt(sh, segs, p) && Apart(sh, p, p + n);
    CutLive(m, m', sh, segs, top, v, p, n);
  }

  lemma CutLive(m: Mem, m': Mem, sh: Shape, segs: Segs, top: int, v: Views, p: int, n: int)
    requires HeapOk(m, sh, segs, top) && Viewed(sh, v)
    requires p in sh && sh[p].kind.Live? && Aligned(n) && 16 <= n <= sh[p].size - 16
    requires SplitWrites(m, m', p, n, p + sh[p].size, Live) && SameWords(m, m', p, n)
    ensures var t := Split(sh, p, n, Live, Live);
            && HeapOk(m', t, segs, top) && Viewed(t, CutLiveViews(v, p, n, sh[p].size))
            && BlocksKept(m, m', v.lives[p := n])
  {
    var t, v', held := Split(sh, p, n, Live, Live), CutLiveViews(v, p, n, sh[p].size), v.lives[p := n];
    SplitHeap(m, m', sh, segs, top, p, n, Live);
    forall a ensures ViewAt(t, v', a) { assert ViewAt(sh, v, a); }
    forall c | c in held
      ensures SameWords(m, m', c, held[c])
    {
      assert ViewAt(sh, v, c);
    }
  }

  /** Only the heads of the two parts differ. */
  ghost predicate CutWritten(m: Mem, m': Mem, p: int, n: int, size: int) {
    forall x ::
      Rd(m', x) == if x == p + 4 then n + PrevInuseBit(m, p) else if x == p + n + 4 then size - n + 1 else Rd(m, x)
  }

  /** Behind a live block the in-use bit is set already, so setting it again changes nothing. */
  lemma InuseAfterLive(m: Mem, sh: Shape, segs: Segs, top: int, v: Views, p: int)
    requires HeapOk(m, sh, segs, top) && Viewed(sh, v) && p in v.lives
    ensures PrevInuseBit(m, p + v.lives[p]) == 1
    ensures forall x :: Rd(SetInuse(m, p + v.lives[p]), x) == Rd(m, x)
  {
    assert ViewAt(sh, v, p) && FootAt(m, sh, p) && ChunkAt(sh, segs, p);
  }

  lemma CutSplits(m: Mem, m': Mem, sh: Shape, segs: Segs, top: int, v: Views, p: int, n: int)
    requires HeapOk(m, sh, segs, top) && Viewed(sh, v) && p in v.lives && 16 <= n <= v.lives[p] - 16
    requires CutWritten(m, m', p, n, v.lives[p])
    ensures SplitWrites(m, m', p, n, p + v.lives[p], Live) && SameWords(m, m', p, n)
  {
    InuseAfterLive(m, sh, segs, top, v, p);
  }

  /* ---------- a live block absorbs what follows it ---------- */

  /** set_head_size and set_inuse_bit_at_offset on the enlarged block. */
  function GrowWrites(m: Mem, p: int, size: int): Mem {
    SetInuse(m[p + 4 := size + PrevInuseBit(m, p)], p + size)
  }

  /** p takes in the free chunk, or the live block, that follows it. */
  lemma AbsorbNextState(m: Mem, sh: Shape, segs: Segs, top: int, v: Views,
                        fast: seq<List>, bins: seq<List>, binmap: seq<nat>, flags: Flags, p: int)
    requires StateOk(m, sh, segs, top, v, fast, bins, binmap, flags) && p in v.lives
    requires var next := p + v.lives[p]; next in v.frees || next in v.lives
    ensures var next := p + v.lives[p];
            var size := v.lives[p] + ChunkSize(m, next);
            var m' := GrowWrites(m, p, size);
            && p in sh && ChunkSize(m, p) == v.lives[p] && next != p
            && ChunkSize(m, next) == (if next in v.frees then v.frees[next] else v.lives[next])
            && StateOk(m', Fuse(sh, p, p + size, Live), segs, top,
                       Views((v.lives - {next})[p := size], v.fasts, v.frees - {next}),
                       fast, WithoutIf(bins, next in v.frees, next), binmap, flags)
            && BlocksKept(m, m', v.lives - {next})
  {
    hide StateOk, HeapOk, BinsOk, BinmapOk, FastOk, FlagsOk, Viewed, BlocksKept, ChunkSize, Fuse, GrowWrites, WithoutIf;
    StateParts(m, sh, segs, top, v, fast, bins, binmap, flags);
    var next := p + v.lives[p];
    AbsorbFacts(m, sh, segs, top, v, p, next);
    AbsorbNext(m, sh, segs, top, v, p, next);
    UnlinkIfKeeps(v.frees, bins, binmap, next in v.frees, next);
    var size := v.lives[p] + ChunkSize(m, next);
    FlagsWithFewerFrees(v, (v.lives - {next})[p := size], next, segs, top, flags);
    Assemble(GrowWrites(m, p, size), Fuse(sh, p, p + size, Live), segs, top,
             Views((v.lives - {next})[p := size], v.fasts, v.frees - {next}),
             fast, WithoutIf(bins, next in v.frees, next), binmap, flags);
  }

  lemma FlagsWithFewerFrees(v: Views, lives: map<int, int>, a: int, segs: Segs, top: int, flags: Flags)
    requires FlagsOk(v, segs, top, flags)
    ensures FlagsOk(Views(lives, v.fasts, v.frees - {a}), segs, top, flags)
  {
  }

  lemma AbsorbFacts(m: Mem, sh: Shape, segs: Segs, top: int, v: Views, p: int, next: int)
    requires HeapOk(m, sh, segs, top) && Viewed(sh, v) && p in v.lives && next == p + v.lives[p]
    requires next in v.frees || next in v.lives
    ensures p in sh && sh[p].kind.Live? && sh[p].size == v.lives[p] == ChunkSize(m, p) && next != p
    ensures next in sh && sh[next].size == ChunkSize(m, next)
    ensures sh[next].size == if next in v.frees then v.frees[next] else v.lives[next]
    ensures sh[next].kind.Free? || sh[next].kind.Live?
  {
    assert ViewAt(sh, v, p) && ViewAt(sh, v, next) && ChunkAt(sh, segs, p);
    ChunkSizeReads(m, sh, segs, p);
    ChunkSizeReads(m, sh, segs, next);
  }

  lemma AbsorbNext(m: Mem, sh: Shape, segs: Segs, top: int, v: Views, p: int, next: int)
    requires HeapOk(m, sh, segs, top) && Viewed(sh, v)
    requires p in sh && sh[p].kind.Live? && next == p + sh[p].size
    requires next in sh && (sh[next].kind.Free? || sh[next].kind.Live?)
    ensures var size := sh[p].size + sh[next].size;
            var m', t := GrowWrites(m, p, size), Fuse(sh, p, p + size, Live);
            && HeapOk(m', t, segs, top)
            && Viewed(t, Views((v.lives - {next})[p := size], v.fasts, v.frees - {next}))
            && BlocksKept(m, m', v.lives - {next})
  {
    var size := sh[p].size + sh[next].size;
    var hi := p + size;
    var m', t, v' := GrowWrites(m, p, size), Fuse(sh, p, hi, Live),
        Views((v.lives - {next})[p := size], v.fasts, v.frees - {next});
    assert ChunkAt(sh, segs, p) && NextAt(sh, p) && ChunkAt(sh, segs, next) && NextAt(sh, next);
    forall a | a in sh && p <= a < hi ensures a == p || a == next {
      NothingInside(sh, segs, p, a);
      NothingInside(sh, segs, next, a);
    }
    FuseLiveKeeps(m, m', sh, segs, top, p, hi);
    forall a ensures ViewAt(t, v', a) { assert ViewAt(sh, v, a); }
    forall c | c in v.lives - {next}
      ensures SameWords(m, m', c, v.lives[c])
    {
      assert ViewAt(sh, v, c);
    }
  }

  /** p, which borders top, is resized to n bytes at the expense of top. */
  function GrowTopWrites(m: Mem, p: int, n: int, total: int): Mem {
    m[p + 4 := n + PrevInuseBit(m, p)][p + n + 4 := total - n + 1]
  }

  function GrowTopShape(sh: Shape, p: int, n: int, end: int): Shape
    requires p in sh
  {
    Split(Fuse(sh, p, end, Top), p, n, Live, Top)
  }

  lemma GrowTopState(m: Mem, sh: Shape, segs: Segs, top: int, v: Views,
                     fast: seq<List>, bins: seq<List>, binmap: seq<nat>, flags: Flags, p: int, n: int)
    requires StateOk(m, sh, segs, top, v, fast, bins, binmap, flags) && p in v.lives
    requires p + v.lives[p] == top && Aligned(n) && v.lives[p] <= n
    requires v.lives[p] + ChunkSize(m, top) >= n + 16
    ensures var total := v.lives[p] + ChunkSize(m, top);
            var m' := GrowTopWrites(m, p, n, total);
            && p in sh && ChunkSize(m, p) == v.lives[p]
            && StateOk(m', GrowTopShape(sh, p, n, p + total), segs, p + n, v.(lives := v.lives[p := n]), fast, bins,
                       binmap, flags)
            && BlocksKept(m, m', v.lives)
  {
    assert ViewAt(sh, v, p) && ChunkAt(sh, segs, p) && NextAt(sh, p) && ChunkAt(sh, segs, top);
    ChunkSizeReads(m, sh, segs, p);
    ChunkSizeReads(m, sh, segs, top);
    GrowTop(m, sh, segs, top, v, p, n);
  }

  lemma GrowTop(m: Mem, sh: Shape, segs: Segs, top: int, v: Views, p: int, n: int)
    requires HeapOk(m, sh, segs, top) && Viewed(sh, v)
    requires p in sh && sh[p].kind.Live? && p + sh[p].size == top && top in sh
    requires Aligned(n) && sh[p].size <= n <= sh[p].size + sh[top].size - 16
    ensures var total := sh[p].size + sh[top].size;
            var m', t := GrowTopWrites(m, p, n, total), GrowTopShape(sh, p, n, p + total);
            && HeapOk(m', t, segs, p + n) && Viewed(t, v.(lives := v.lives[p := n])) && BlocksKept(m, m', v.lives)
  {
    var total := sh[p].size + sh[top].size;
    var end := p + total;
    var m', t, v' := GrowTopWrites(m, p, n, total), GrowTopShape(sh, p, n, end), v.(lives := v.lives[p := n]);
    assert ChunkAt(sh, segs, p) && NextAt(sh, p) && ChunkAt(sh, segs, top);
    forall a | a in sh && p <= a < end ensures a == p || a == top {
      NothingInside(sh, segs, p, a);
      NothingInside(sh, segs, top, a);
    }
    GrowTopTags(m, sh, segs, top, p, n);
    forall a ensures CoalescedAt(t, a) {
      assert CoalescedAt(sh, a) && NextAt(sh, a) && ChunkAt(sh, segs, a) && Apart(sh, a, p) && Apart(sh, p, a);
    }
    forall a ensures ViewAt(t, v', a) { assert ViewAt(sh, v, a); }
    forall c | c in v.lives
      ensures SameWords(m, m', c, v.lives[c])
    {
      assert ViewAt(sh, v, c) && Apart(sh, c, p) && Apart(sh, top, c);
    }
  }

  lemma GrowTopTags(m: Mem, sh: Shape, segs: Segs, top: int, p: int, n: int)
    requires WellFormed(sh, segs) && Tagged(m, sh)
    requires p in sh && sh[p].kind.Live? && p + sh[p].size == top && top in sh && sh[top].kind.Top?
    requires Aligned(n) && sh[p].size <= n <= sh[p].size + sh[top].size - 16
    ensures var total := sh[p].size + sh[top].size;
            var t := GrowTopShape(sh, p, n, p + total);
            WellFormed(t, segs) && Tagged(GrowTopWrites(m, p, n, total), t)
  {
    var total := sh[p].size + sh[top].size;
    var end := p + total;
    var m', m1, t1 := GrowTopWrites(m, p, n, total), m[p + 4 := total + PrevInuseBit(m, p)], Fuse(sh, p, end, Top);
    assert ChunkAt(sh, segs, p) && NextAt(sh, p) && ChunkAt(sh, segs, top);
    FuseKeeps(sh, segs, p, end, Top);
    FuseTags(m, m1, sh, segs, p, end, Top);
    FuseBits(m, m1, sh, segs, p, end, Top);
    SplitKeeps(t1, segs, p, n, Live, Top);
    assert SplitWrites(m1, m', p, n, end, Top);
    SplitTags(m1, m', t1, segs, p, n, Top);
  }

  /* ---------- the user writes into a block ---------- */

  lemma UserWritesState(m: Mem, m': Mem, sh: Shape, segs: Segs, top: int, v: Views,
                        fast: seq<List>, bins: seq<List>, binmap: seq<nat>, flags: Flags, c: int)
    requires StateOk(m, sh, segs, top, v, fast, bins, binmap, flags) && c in v.lives
    requires UserWrites(m, m', c, v.lives[c])
    ensures StateOk(m', sh, segs, top, v, fast, bins, binmap, flags)
    ensures BlocksKept(m, m', v.lives - {c})
  {
    assert ViewAt(sh, v, c);
    UserWritesTags(m, m', sh, segs, c);
    forall d | d in v.lives - {c}
      ensures SameWords(m, m', d, v.lives[d])
    {
      assert ViewAt(sh, v, d) && Apart(sh, c, d) && Apart(sh, d, c);
    }
  }

  /** Writing the fd and bk words of a chunk on a list or in a fastbin disturbs neither the invariant nor any block,
      so that keeping the pointers apart from the word memory loses nothing. */
  lemma LinkWritesState(m: Mem, m': Mem, sh: Shape, segs: Segs, top: int, v: Views,
                        fast: seq<List>, bins: seq<List>, binmap: seq<nat>, flags: Flags, c: int)
    requires StateOk(m, sh, segs, top, v, fast, bins, binmap, flags) && (c in v.frees || c in v.fasts)
    requires LinkWrites(m, m', c)
    ensures StateOk(m', sh, segs, top, v, fast, bins, binmap, flags)
    ensures BlocksKept(m, m', v.lives)
  {
    assert ViewAt(sh, v, c) && ChunkAt(sh, segs, c);
    LinkWritesTags(m, m', sh, segs, c);
    forall d | d in v.lives
      ensures SameWords(m, m', d, v.lives[d])
    {
      assert ViewAt(sh, v, d) && ChunkAt(sh, segs, d) && Apart(sh, c, d) && Apart(sh, d, c);
    }
  }

  /** The words copied, in order, from one place to another. */
  ghost predicate Copied(m: Mem, m': Mem, src: int, dst: int, n: nat) {
    && (forall k | 0 <= k < n :: Rd(m', dst + 4 * k) == Rd(m, src + 4 * k))
    && OnlyBetween(m, m', dst, dst + 4 * n)
  }

  /** The copy in rEALLOc: a loop for more than nine words, otherwise unrolled for the odd word counts
      that chunk sizes give. */
  method CopyWords(m: Mem, src: int, dst: int, n: nat) returns (m': Mem)
    requires 3 <= n && n % 2 == 1 && (src + 4 * n <= dst || dst + 4 * n <= src)
    ensures Copied(m, m', src, dst, n)
  {
    hide Copied, CopyOne;
    m' := m;
    CopiedNothing(m, src, dst);
    if n > 9 {
      var k := 0;
      while k < n
        invariant k <= n && Copied(m, m', src, dst, k)
      {
        CopyStep(m, m', src, dst, k, n);
        m' := CopyOne(m', src, dst, k);
        k := k + 1;
      }
    } else {
      CopyStep(m, m', src, dst, 0, n);
      m' := CopyOne(m', src, dst, 0);
      m' := CopyTwo(m, m', src, dst, 1, n);
      if n > 4 {
        m' := CopyTwo(m, m', src, dst, 3, n);
        if n > 6 {
          m' := CopyTwo(m, m', src, dst, 5, n);
          if n > 8 {
            m' := CopyTwo(m, m', src, dst, 7, n);
          }
        }
      }
    }
  }

  function CopyOne(m: Mem, src: int, dst: int, k: nat): Mem {
    m[dst + 4 * k := Rd(m, src + 4 * k)]
  }

  method CopyTwo(ghost m: Mem, m1: Mem, src: int, dst: int, k: nat, ghost n: nat) returns (m': Mem)
    requires Copied(m, m1, src, dst, k) && k + 2 <= n && (src + 4 * n <= dst || dst + 4 * n <= src)
    ensures Copied(m, m', src, dst, k + 2)
  {
    hide Copied, CopyOne;
    CopyStep(m, m1, src, dst, k, n);
    m' := CopyOne(m1, src, dst, k);
    CopyStep(m, m', src, dst, k + 1, n);
    m' := CopyOne(m', src, dst, k + 1);
  }

  lemma CopiedNothing(m: Mem, src: int, dst: int)
    ensures Copied(m, m, src, dst, 0)
  {
  }

  lemma CopyStep(m: Mem, m1: Mem, src: int, dst: int, k: nat, n: nat)
    requires Copied(m, m1, src, dst, k) && k < n && (src + 4 * n <= dst || dst + 4 * n <= src)
    ensures Copied(m, CopyOne(m1, src, dst, k), src, dst, k + 1)
  {
  }
}
