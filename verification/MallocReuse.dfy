/** What the allocator can hand out without asking the system: chunks in the fastbins, free chunks, and top. */
module MallocReuse {
  import opened MallocSizes
  import opened MallocShape
  import opened MallocTags
  import opened MallocLists
  import opened MallocRelease
  import opened MallocSearch
  import opened MallocResize

  datatype Pool = Pool(fasts: Sizes, frees: Sizes, top: int, topSize: int)

  ghost function PoolOf(v: Views, sh: Shape, top: int): Pool {
    Pool(v.fasts, v.frees, top, TopSize(sh, top))
  }

  /** The n bytes at a lie in the free chunk of the given size at at, or in top, leaving MINSIZE bytes of it. */
  ghost predicate Spot(q: Pool, a: int, n: int, at: int, size: int) {
    && at <= a
    && ((at in q.frees && q.frees[at] == size && a + n <= at + size)
        || (at == q.top && q.topSize == size > 0 && a + n + 16 <= at + size))
  }

  ghost predicate Spare(q: Pool, a: int, n: int) {
    exists at, size :: Spot(q, a, n, at, size)
  }

  ghost predicate Reusable(q: Pool, a: int, n: int) {
    (a in q.fasts && q.fasts[a] == n) || Spare(q, a, n)
  }

  ghost predicate TopGrown(q: Pool, q': Pool) {
    q.topSize > 0 ==> q'.top <= q.top && q'.top + q'.topSize == q.top + q.topSize
  }

  /** Nothing that could be handed out is lost. */
  ghost predicate NoneLost(q: Pool, q': Pool) {
    && (forall a | a in q.frees :: Spare(q', a, q.frees[a]))
    && (forall a | a in q.fasts :: Reusable(q', a, q.fasts[a]))
    && TopGrown(q, q')
  }

  /** Nothing in the pool can hold nb bytes. */
  ghost predicate Exhausted(q: Pool, nb: int) {
    NoFit(q.frees, nb) && NoFit(q.fasts, nb) && q.topSize < nb + 16
  }

  lemma SameNoneLost(q: Pool)
    ensures NoneLost(q, q)
  {
    forall a | a in q.frees
      ensures Spare(q, a, q.frees[a])
    {
      assert Spot(q, a, q.frees[a], a, q.frees[a]);
    }
  }

  /** What was in a free chunk or in top still is, in one that is no smaller. */
  lemma SpotGrows(q: Pool, q': Pool, a: int, n: int, at: int, size: int) returns (at': int, size': int)
    requires NoneLost(q, q') && Spot(q, a, n, at, size)
    ensures Spot(q', a, n, at', size') && size' >= size
  {
    if at in q.frees && q.frees[at] == size && a + n <= at + size {
      at', size' :| Spot(q', at, size, at', size');
    } else {
      at', size' := q'.top, q'.topSize;
    }
  }

  lemma StaysSpare(q: Pool, q': Pool, a: int, n: int)
    requires NoneLost(q, q') && Spare(q, a, n)
    ensures Spare(q', a, n)
  {
    var at, size :| Spot(q, a, n, at, size);
    at, size := SpotGrows(q, q', a, n, at, size);
  }

  lemma StaysReusable(q: Pool, q': Pool, a: int, n: int)
    requires NoneLost(q, q') && Reusable(q, a, n)
    ensures Reusable(q', a, n)
  {
    if a !in q.fasts || q.fasts[a] != n {
      StaysSpare(q, q', a, n);
    }
  }

  lemma NoneLostTrans(q: Pool, q1: Pool, q2: Pool)
    requires NoneLost(q, q1) && NoneLost(q1, q2)
    ensures NoneLost(q, q2)
  {
    forall a | a in q.frees
      ensures Spare(q2, a, q.frees[a])
    {
      StaysSpare(q1, q2, a, q.frees[a]);
    }
    forall a | a in q.fasts
      ensures Reusable(q2, a, q.fasts[a])
    {
      if a !in q1.fasts || q1.fasts[a] != q.fasts[a] {
        StaysSpare(q1, q2, a, q.fasts[a]);
      }
    }
  }

  /** The block of n bytes at a is in a free chunk or top of some size; from 128 KiB on, no fastbin holds anything. */
  ghost predicate DrainedIfLarge(q: Pool, fasts: Sizes, a: int, n: int) {
    exists at, size :: Spot(q, a, n, at, size) && q.fasts == (if size >= 0x2_0000 then map[] else fasts)
  }

  /** If nothing was lost and nothing can hold nb bytes now, nothing could before. */
  lemma ExhaustedBefore(q: Pool, q': Pool, nb: int)
    requires NoneLost(q, q') && Exhausted(q', nb) && nb >= 0
    ensures Exhausted(q, nb)
  {
    forall a | a in q.frees
      ensures q.frees[a] < nb
    {
      SpareIsSmall(q', a, q.frees[a], nb);
    }
    forall a | a in q.fasts
      ensures q.fasts[a] < nb
    {
      if a !in q'.fasts || q'.fasts[a] != q.fasts[a] {
        SpareIsSmall(q', a, q.fasts[a], nb);
      }
    }
  }

  lemma SpareIsSmall(q: Pool, a: int, n: int, nb: int)
    requires Spare(q, a, n) && Exhausted(q, nb)
    ensures n < nb
  {
    var at, size :| Spot(q, a, n, at, size);
  }

  /* ---------- which chunk a request gets ---------- */

  function Unsorted(bins: seq<List>): List {
    if |bins| > 1 then bins[1] else []
  }

  /** No chunk of the list has nb bytes. */
  ghost predicate NoneOfSize(fr: Sizes, s: List, nb: int) {
    forall a | a in s :: a in fr && fr[a] != nb
  }

  /** Chunk k of the unsorted list is the last one that fits exactly. */
  ghost predicate LastExactAt(fr: Sizes, unsorted: List, nb: int, p: int, k: int) {
    0 <= k < |unsorted| && unsorted[k] == p && p in fr && fr[p] == nb && NoneOfSize(fr, unsorted[k + 1..], nb)
  }

  ghost predicate LastExact(fr: Sizes, unsorted: List, nb: int, p: int) {
    exists k :: LastExactAt(fr, unsorted, nb, p, k)
  }

  /** A small request without exact fit splits the last remainder if that heads the unsorted list and is large
      enough. */
  ghost predicate SplitsRemainder(fr: Sizes, unsorted: List, remainder: int, nb: int) {
    nb < 256 && unsorted != [] && unsorted[0] == remainder && remainder in fr && fr[remainder] > nb + 16
  }

  /** The rule by which a free chunk is chosen. */
  ghost predicate Chosen(fr: Sizes, unsorted: List, remainder: int, nb: int, p: int) {
    && p != 0
    && if !NoneOfSize(fr, unsorted, nb) then LastExact(fr, unsorted, nb, p)
       else if SplitsRemainder(fr, unsorted, remainder, nb) then p == remainder
       else BestFit(fr, nb, p)
  }

  /** If some free chunk can hold the request one is chosen; otherwise top serves it if it can. */
  ghost predicate Decided(q: Pool, unsorted: List, remainder: int, nb: int, p: int) {
    if !NoFit(q.frees, nb) then Chosen(q.frees, unsorted, remainder, nb, p) else q.topSize >= nb + 16 ==> p == q.top
  }

  /** The same after the fastbins have been consolidated. */
  ghost predicate DecidedAfter(q: Pool, remainder: int, nb: int, p: int) {
    exists q', unsorted :: NoneLost(q, q') && q'.fasts == map[] && Decided(q', unsorted, remainder, nb, p)
  }

  /** The last chunk of the small bin for nb bytes. */
  ghost predicate SmallHit(bins: seq<List>, nb: int) {
    nb < 256 && 0 <= nb / 8 < |bins| && bins[nb / 8] != []
  }

  /** The rule for a request that no fastbin serves: the last chunk of its small bin; otherwise a free chunk or top,
      which a large request looks for after consolidating the fastbins. */
  ghost predicate Rule(q: Pool, bins: seq<List>, remainder: int, consolidates: bool, nb: int, p: int) {
    if SmallHit(bins, nb) then p == bins[nb / 8][|bins[nb / 8]| - 1]
    else if nb >= 256 && consolidates then DecidedAfter(q, remainder, nb, p)
    else Decided(q, Unsorted(bins), remainder, nb, p)
  }

  /** A chunk that was split leaves its rest as last remainder, alone on the unsorted list. */
  ghost predicate LeavesRemainder(fr: Sizes, lives: Sizes, bins: seq<List>, remainder: int, nb: int, p: int) {
    p in fr && p in lives && (fr[p] != nb ==> lives[p] == nb && remainder == p + nb && Unsorted(bins) == [p + nb])
  }

  lemma ChosenExact(fr: Sizes, unsorted: List, remainder: int, nb: int, k: int)
    requires 0 <= k < |unsorted| && unsorted[k] in fr && fr[unsorted[k]] == nb && unsorted[k] != 0
    requires NoneOfSize(fr, unsorted[k + 1..], nb)
    ensures Chosen(fr, unsorted, remainder, nb, unsorted[k])
  {
    assert LastExactAt(fr, unsorted, nb, unsorted[k], k);
  }

  lemma ChosenRemainder(fr: Sizes, unsorted: List, remainder: int, nb: int)
    requires SplitsRemainder(fr, unsorted, remainder, nb) && NoneOfSize(fr, unsorted[1..], nb) && remainder != 0
    ensures Chosen(fr, unsorted, remainder, nb, remainder)
  {
    assert unsorted == [remainder] + unsorted[1..];
  }

  lemma NoneInEmpty(fr: Sizes, nb: int)
    ensures NoneOfSize(fr, [], nb)
  {
  }

  lemma PassedOver(fr: Sizes, unsorted: List, nb: int, k: int)
    requires 0 <= k < |unsorted| && unsorted[k] in fr && fr[unsorted[k]] != nb
    requires NoneOfSize(fr, unsorted[k + 1..], nb)
    ensures NoneOfSize(fr, unsorted[k..], nb)
  {
    assert unsorted[k..] == [unsorted[k]] + unsorted[k + 1..];
  }

  lemma ChosenFits(fr: Sizes, unsorted: List, remainder: int, nb: int, p: int)
    requires Chosen(fr, unsorted, remainder, nb, p)
    ensures p in fr && fr[p] >= nb && !NoFit(fr, nb)
  {
  }

  /* ---------- releasing a block ---------- */

  /** Releasing block p loses nothing, and its bytes can be handed out again. */
  lemma ReleaseToListLosesNothing(m: Mem, sh: Shape, segs: Segs, top: int, v: Views, p: int)
    requires HeapOk(m, sh, segs, top) && Viewed(sh, v) && p in v.lives && p + ChunkSize(m, p) != top
    ensures LowEnd(m, p) in sh
    ensures var lo, hi, next := LowEnd(m, p), HighEnd(m, top, p), p + ChunkSize(m, p);
            var q' := PoolOf(FusedViews(v, lo, p, next, hi, Kind.Free), Fuse(sh, lo, hi, Kind.Free), top);
            NoneLost(PoolOf(v, sh, top), q') && Spot(q', p, v.lives[p], lo, hi - lo)
  {
    assert ViewAt(sh, v, p);
    NeighboursFromTags(m, sh, segs, top, p);
    ReleaseKeepsTop(m, sh, segs, top, v, p);
    var lo, hi, next := LowEnd(m, p), HighEnd(m, top, p), p + ChunkSize(m, p);
    assert ViewAt(sh, v, lo) && ViewAt(sh, v, next);
    hide LowEnd, HighEnd, ChunkSize, Fuse, TopSize, HeapOk;
    var q' := PoolOf(FusedViews(v, lo, p, next, hi, Kind.Free), Fuse(sh, lo, hi, Kind.Free), top);
    assert Spot(q', p, v.lives[p], lo, hi - lo);
    forall a | a in v.frees
      ensures Spare(q', a, v.frees[a])
    {
      if a == lo || a == next {
        assert Spot(q', a, v.frees[a], lo, hi - lo);
      } else {
        assert Spot(q', a, v.frees[a], a, v.frees[a]);
      }
    }
  }

  lemma ReleaseToTopLosesNothing(m: Mem, sh: Shape, segs: Segs, top: int, v: Views, p: int)
    requires HeapOk(m, sh, segs, top) && Viewed(sh, v) && p in v.lives && p + ChunkSize(m, p) == top
    ensures LowEnd(m, p) in sh
    ensures var lo, hi := LowEnd(m, p), HighEnd(m, top, p);
            var q' := PoolOf(FusedViews(v, lo, p, top, hi, Top), Fuse(sh, lo, hi, Top), lo);
            NoneLost(PoolOf(v, sh, top), q') && Spot(q', p, v.lives[p], lo, hi - lo)
  {
    assert ViewAt(sh, v, p) && ChunkAt(sh, segs, p) && ChunkAt(sh, segs, top);
    NeighboursFromTags(m, sh, segs, top, p);
    ReleaseKeepsTop(m, sh, segs, top, v, p);
    var lo, hi := LowEnd(m, p), HighEnd(m, top, p);
    assert ViewAt(sh, v, lo) && ViewAt(sh, v, top);
    assert sh[top].kind.Top? && sh[top].size >= 16 && v.lives[p] >= 16;
    assert TopSize(sh, top) == sh[top].size;
    hide LowEnd, HighEnd, ChunkSize, Fuse, TopSize, HeapOk;
    var q' := PoolOf(FusedViews(v, lo, p, top, hi, Top), Fuse(sh, lo, hi, Top), lo);
    assert Spot(q', p, v.lives[p], lo, hi - lo);
    forall a | a in v.frees
      ensures Spare(q', a, v.frees[a])
    {
      assert Spot(q', a, v.frees[a], if a == lo then lo else a, if a == lo then hi - lo else v.frees[a]);
    }
  }

  /** A chunk that left the fastbins and was released is not lost. */
  lemma FastReleased(q: Pool, q1: Pool, q': Pool, p: int, at: int, size: int)
    requires p in q.fasts && q1 == q.(fasts := q.fasts - {p}) && NoneLost(q1, q')
    requires Spot(q', p, q.fasts[p], at, size)
    ensures NoneLost(q, q')
  {
    forall a | a in q.fasts
      ensures Reusable(q', a, q.fasts[a])
    {
      assert a != p ==> a in q1.fasts;
    }
  }

  /** A block put on a fastbin can be handed out again. */
  lemma FastAdded(q: Pool, q': Pool, p: int, size: int)
    requires q' == q.(fasts := q.fasts[p := size]) && p !in q.fasts
    ensures NoneLost(q, q') && Reusable(q', p, size)
  {
    SameNoneLost(q);
    forall a | a in q.frees
      ensures Spare(q', a, q.frees[a])
    {
      assert Spot(q', a, q.frees[a], a, q.frees[a]);
    }
  }

  /** Cutting a live block does not touch the pool. */
  lemma CutKeepsPool(m: Mem, sh: Shape, segs: Segs, top: int, v: Views, p: int, n: int)
    requires HeapOk(m, sh, segs, top) && Viewed(sh, v) && p in v.lives && 16 <= n < v.lives[p]
    ensures p in sh && PoolOf(CutLiveViews(v, p, n, v.lives[p]), Split(sh, p, n, Live, Live), top) == PoolOf(v, sh, top)
  {
    assert ViewAt(sh, v, p) && Apart(sh, p, top);
    assert top in sh && sh[top].kind.Top? ==> top != p && top != p + n;
  }

  /** Without the old top, nothing is lost when a segment becomes the new one. */
  lemma NewTopLosesNothing(q: Pool, q': Pool)
    requires q'.fasts == q.fasts && q'.frees == q.frees
    ensures NoneLost(q.(topSize := 0), q')
  {
    forall a | a in q.frees
      ensures Spare(q', a, q.frees[a])
    {
      assert Spot(q', a, q.frees[a], a, q.frees[a]);
    }
  }

  /** Block r of rsize bytes was cut out of the block of the given size at p: what was in front of it, and behind nb of
      its bytes if that is more than MINSIZE, can be handed out again. */
  ghost predicate CutOut(q: Pool, p: int, size: int, r: int, rsize: int, nb: int) {
    && r >= p && (r > p ==> Reusable(q, p, r - p))
    && var rest := size - (r - p) - nb;
       (rest > 16 ==> rsize == nb && Reusable(q, r + nb, rest)) && (rest <= 16 ==> rsize == nb + rest)
  }

  lemma CutOutReusable(q: Pool, q': Pool, p: int, size: int, r: int, size': int, rsize: int, nb: int)
    requires NoneLost(q, q') && r >= p && size' == size - (r - p) && (r > p ==> Reusable(q, p, r - p))
    requires rsize == (if size' > nb + 16 then nb else size') && (size' > nb + 16 ==> Reusable(q', r + nb, size' - nb))
    ensures CutOut(q', p, size, r, rsize, nb)
  {
    if r > p {
      StaysReusable(q, q', p, r - p);
    }
  }

  /** The block of the given size at p is or can be made nb bytes long: it is that long; or top or a free chunk follows
      it and has the rest. */
  ghost predicate HasRoom(q: Pool, p: int, size: int, nb: int) {
    || size >= nb
    || (p + size == q.top && size + q.topSize >= nb + 16)
    || (p + size != q.top && p + size in q.frees && size + q.frees[p + size] >= nb)
  }

  /** A block that has room is resized in place, without a new segment; one that is moved, or cut by a chunk, gives
      back what it had. */
  ghost predicate Reused(q: Pool, q': Pool, p: int, size: int, r: int, nb: int, mapped: bool) {
    && (HasRoom(q, p, size, nb) ==> r == p && !mapped)
    && (r != 0 && r != p ==> Reusable(q', p, size))
    && (r == p && size - nb >= 16 ==> Reusable(q', p + nb, size - nb))
  }

  lemma NoRoom(q: Pool, p: int, size: int, nb: int)
    requires size < nb && (p + size == q.top ==> size + q.topSize < nb + 16)
    requires p + size != q.top && p + size in q.frees ==> size + q.frees[p + size] < nb
    ensures !HasRoom(q, p, size, nb)
  {
  }

  lemma ReusedGrown(q: Pool, q': Pool, p: int, size: int, nb: int)
    requires size < nb
    ensures Reused(q, q', p, size, p, nb, false)
  {
  }

  lemma ReusedMoved(q: Pool, q': Pool, p: int, size: int, r: int, nb: int, mapped: bool)
    requires !HasRoom(q, p, size, nb) && r != p && (r != 0 ==> Reusable(q', p, size))
    ensures Reused(q, q', p, size, r, nb, mapped)
  {
  }

  lemma ReusedInPlace(q: Pool, q': Pool, p: int, size: int, nb: int, mapped: bool)
    requires (mapped ==> !HasRoom(q, p, size, nb)) && (size - nb >= 16 ==> Reusable(q', p + nb, size - nb))
    ensures Reused(q, q', p, size, p, nb, mapped)
  {
  }
}
