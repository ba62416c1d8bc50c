/** The allocator state and its operations, working on tags and lists only; the shape is kept beside
    them as the reference every operation is proved against.
    A block is named by its chunk address p; the pointer the user holds is p + 8, and 0 stands for the null pointer. */
module MallocArena {
  import opened BitWords
  import opened MallocSizes
  import opened MallocShape
  import opened MallocTags
  import opened MallocLists
  import opened MallocRelease
  import opened MallocTake
  import opened MallocResize
  import opened MallocSearch
  import opened MallocConserve
  import opened MallocAlign
  import opened MallocLinks
  import opened MallocReuse

  /** The block p of at least nb bytes, and less than nb + MINSIZE, was added to the live blocks. */
  ghost predicate Served(lives: map<int, int>, lives': map<int, int>, p: int, nb: int) {
    p !in lives && p in lives' && lives' == lives[p := lives'[p]] && nb <= lives'[p] < nb + 16 && p != 0
  }

  /** The freed block p became the head of fastbin i. */
  ghost predicate Pushed(fast: seq<List>, fast': seq<List>, i: int, p: int) {
    0 <= i < |fast| && fast' == fast[i := [p] + fast[i]]
  }

  /** The head p of fastbin i was taken. */
  ghost predicate Popped(fast: seq<List>, fast': seq<List>, i: int, p: int) {
    0 <= i < |fast| && fast[i] != [] && p == fast[i][0] && fast' == fast[i := fast[i][1..]]
  }

  /** The fastbin for chunks of nb bytes is not empty. */
  ghost predicate HasFast(fast: seq<List>, nb: int) {
    nb <= MAX_FAST && 0 <= FastbinIndex(nb) < |fast| && fast[FastbinIndex(nb)] != []
  }

  /** Block p was cut from the front of the free chunk p, or is that chunk; the rest of it stays free. */
  ghost predicate TakenFrom(v: Views, v': Views, p: int) {
    && p in v.frees && p in v'.lives && v'.fasts == v.fasts
    && var rest := v.frees[p] - v'.lives[p];
       v'.frees == if rest == 0 then v.frees - {p} else (v.frees - {p})[p + v'.lives[p] := rest]
  }

  /** rEALLOc asks mALLOc for nb - MALLOC_ALIGN_MASK bytes, which can be more than a request may be. */
  predicate RetryOutOfRange(nb: int) {
    nb - ALIGN_MASK >= WORD_LIMIT - 2 * MINSIZE
  }

  /** Of a block moved from p to r, the words that fit in both sizes are kept. */
  ghost predicate WordsMoved(m: Mem, m': Mem, p: int, r: int, size: int, size': int) {
    forall k | 0 <= k && 4 * k < size - 4 && 4 * k < size' - 4 :: Rd(m', r + 8 + 4 * k) == Rd(m, p + 8 + 4 * k)
  }

  /** Block p was replaced by block r of at least nb bytes with the same contents, and every other block was left
      alone. */
  ghost predicate Resized(m: Mem, lives: map<int, int>, m': Mem, lives': map<int, int>, p: int, r: int, nb: int) {
    && p in lives && r in lives' && r != 0 && (r == p || r !in lives)
    && lives' == (lives - {p})[r := lives'[r]] && nb <= lives'[r] < nb + 16
    && BlocksKept(m, m', lives - {p})
    && WordsMoved(m, m', p, r, lives[p], lives'[r])
  }

  /** The size of a new segment for a request of nb bytes: nb + MINSIZE rounded up to pages in 32-bit
      arithmetic, and at least MMAP_AS_MORECORE_SIZE. */
  function SegmentSize(nb: nat): nat {
    var sum := (nb + 16 + 4095) % WORD_LIMIT;
    var size := sum - sum % 4096;
    if size < MMAP_AS_MORECORE_SIZE then MMAP_AS_MORECORE_SIZE else size
  }

  /** A size that passes the wrap-around check is the least whole number of pages that is large enough. */
  lemma SegmentSizeFits(nb: nat)
    requires nb + 16 < WORD_LIMIT && SegmentSize(nb) > nb
    ensures SegmentSize(nb) >= nb + 16 && PageMultiple(SegmentSize(nb)) && SegmentSize(nb) >= MMAP_AS_MORECORE_SIZE
    ensures forall s | PageMultiple(s) && s >= nb + 16 && s >= MMAP_AS_MORECORE_SIZE :: SegmentSize(nb) <= s
  {
    var sum := (nb + 16 + 4095) % WORD_LIMIT;
    assert nb + 16 + 4095 < WORD_LIMIT || sum == nb + 16 + 4095 - WORD_LIMIT;
  }

  /** mmap fails, or returns pages that overlap nothing in use. */
  predicate MmapAnswer(segs: Segs, brk: int, nb: nat) {
    brk == -1 || FreshPages(segs, brk, SegmentSize(nb))
  }

  /** No segment was mapped, or the one that a request of nb bytes asks for. */
  ghost predicate MapsAtMost(segs: Segs, segs': Segs, brk: int, nb: nat) {
    segs' == segs || (brk != -1 && brk !in segs && segs' == segs[brk := brk + SegmentSize(nb)])
  }

  lemma NoMapping(segs: Segs, brk: int, nb: nat)
    ensures MapsAtMost(segs, segs, brk, nb)
  {
  }

  /** What mEMALIGn asks mALLOc for, in 32-bit arithmetic. */
  function MemalignRequest(alignment: nat, bytes: nat): nat {
    if alignment <= 8 then bytes else (Request2Size(bytes) + RoundedAlignment(alignment) + MINSIZE) % WORD_LIMIT
  }

  /** The sum does not fit into 32 bits, which the code does not check. */
  predicate PaddingWraps(alignment: nat, bytes: nat) {
    alignment > 8 && Request2Size(bytes) + RoundedAlignment(alignment) + MINSIZE >= WORD_LIMIT
  }

  /** What mEMALIGn comes to: a block; the null pointer; a loop that does not end; or an aligned spot with no chunk's
      worth of the block behind it, where the code writes tags all the same and the model stops. */
  datatype Memaligned = Block(p: int) | Null | Endless | Broken

  class Arena {
    var mem: Mem
    var fast: seq<List>
    var bins: seq<List>
    var binmap: seq<nat>
    var top: int
    var lastRemainder: int
    var flags: Flags
    var sbrked: int
    var links: Links

    ghost var shape: Shape
    /** the mappings mmap has handed out */
    var segs: Segs
    ghost var views: Views

    /** Everything the do_check routines assert; sbrked_mem counts the bytes of the segments; and the fd and bk
        pointers form the unsorted list and the bins. */
    ghost predicate Valid()
      reads this
    {
      && StateOk(mem, shape, segs, top, views, fast, bins, binmap, flags)
      && sbrked == SegBytes(segs)
      && (flags.initialized ==> Linked(links, bins))
    }

    ghost function PoolNow(): Pool
      reads this
    {
      PoolOf(views, shape, top)
    }

    /** The allocator before its first use. */
    constructor ()
      ensures Valid() && views == Views(map[], map[], map[]) && segs == map[] && !flags.initialized
    {
      mem, top, lastRemainder, sbrked := map[], 0, 0, 0;
      fast, bins, binmap := seq(10, _ => []), seq(96, _ => []), [0, 0, 0, 0];
      flags := Flags(false, false, false, false);
      links := Links(map[], map[]);
      shape, segs, views := map[], map[], Views(map[], map[], map[]);
      new;
      EmptyState(flags);
    }

    /** malloc_init_state */
    method InitState()
      requires Valid() && !flags.initialized
      modifies this`bins, this`links, this`flags
      ensures Valid() && flags.initialized && !flags.fastChunks && !flags.anyChunks && !old(flags.anyChunks)
      ensures views.fasts == map[] && forall i | 0 <= i < |fast| :: fast[i] == []
    {
      InitialState(mem, shape, segs, top, views, fast, bins, binmap, flags);
      links := EmptyLinks(96);
      bins := seq(96, _ => []);
      flags := Flags(true, false, false, true);
    }

    /** Gives block p back: merges it with free neighbours on both sides and puts the result on the
        unsorted list, or merges it into top. Returns the size of the result, which is at address at. */
    method Release(p: int) returns (size: int, ghost at: int)
      requires Valid() && p in views.lives && flags.anyChunks
      modifies this`mem, this`bins, this`links, this`top, this`shape, this`views
      ensures Valid()
      ensures views.lives == old(views.lives) - {p} && views.fasts == old(views.fasts)
      ensures BlocksKept(old(mem), mem, views.lives)
      ensures TopSize(shape, top) >= old(TopSize(shape, top))
      ensures NoneLost(old(PoolNow()), PoolNow()) && Spot(PoolNow(), p, old(views.lives[p]), at, size)
    {
      hide StateOk, BlocksKept, Fuse, ReleasedBins, LowEnd, HighEnd, TopSize, ListWrites, WithoutIf;
      hide ChunkSize, SegBytes, BinsOk, FastOk, BinmapOk, FlagsOk, Linked, ReleasedLinks, UnlinkedIf, HeapOk;
      hide Viewed, FusedViews, NoneLost, Spot;
      StateParts(mem, shape, segs, top, views, fast, bins, binmap, flags);
      ReleaseKeepsTop(mem, shape, segs, top, views, p);
      InitializedByBlock(mem, shape, segs, top, views, fast, bins, binmap, flags, p);
      var lo, hi := LowEnd(mem, p), HighEnd(mem, top, p);
      var next := p + ChunkSize(mem, p);
      size, at := hi - lo, lo;
      FusedViewFacts(views, lo, p, next, hi, if next != top then Kind.Free else Top);
      if next != top {
        ReleaseListState(mem, shape, segs, top, views, fast, bins, binmap, flags, p);
        ReleaseToListLosesNothing(mem, shape, segs, top, views, p);
        ReleaseListLinks(mem, shape, segs, top, views, fast, bins, binmap, flags, links, p);
        shape, views := Fuse(shape, lo, hi, Kind.Free), FusedViews(views, lo, p, next, hi, Kind.Free);
        links, bins, mem := ReleasedLinks(links, lo, p, next, hi), ReleasedBins(bins, lo, p, next, hi),
                            ListWrites(mem, lo, next, ChunkSize(mem, next), hi);
      } else {
        ReleaseTopState(mem, shape, segs, top, views, fast, bins, binmap, flags, p);
        ReleaseToTopLosesNothing(mem, shape, segs, top, views, p);
        ReleaseTopLinks(mem, shape, segs, top, views, fast, bins, binmap, flags, links, p);
        shape, views := Fuse(shape, lo, hi, Top), FusedViews(views, lo, p, next, hi, Top);
        links, bins := UnlinkedIf(links, lo != p, lo), WithoutIf(bins, lo != p, lo);
        mem, top := mem[lo + 4 := hi - lo + 1], lo;
      }
    }

    /** malloc_consolidate: tears down the fastbins, or initializes the allocator on its first use. */
    method Consolidate()
      requires Valid()
      modifies this`mem, this`bins, this`links, this`fast, this`top, this`shape, this`views, this`flags
      ensures Valid() && flags.initialized
      ensures old(flags.initialized) ==> flags == old(flags).(fastChunks := false)
      ensures !flags.fastChunks && views.fasts == map[] && forall i | 0 <= i < |fast| :: fast[i] == []
      ensures flags.anyChunks == old(flags.anyChunks)
      ensures views.lives == old(views.lives)
      ensures BlocksKept(old(mem), mem, views.lives)
      ensures TopSize(shape, top) >= old(TopSize(shape, top))
      ensures NoneLost(old(PoolNow()), PoolNow())
    {
      hide StateOk, BlocksKept, Retag, TopSize, BinsOk, FastOk, BinmapOk, FlagsOk, Linked, HeapOk, Viewed;
      hide NoneLost;
      SameBlocksKept(mem, views.lives);
      SameNoneLost(PoolNow());
      if flags.initialized {
        StateParts(mem, shape, segs, top, views, fast, bins, binmap, flags);
        for i := 0 to 8
          invariant Valid() && flags == old(flags) && |fast| == 10
          invariant forall j | 0 <= j < i :: fast[j] == []
          invariant views.lives == old(views.lives) && BlocksKept(old(mem), mem, views.lives)
          invariant TopSize(shape, top) >= old(TopSize(shape, top)) && NoneLost(old(PoolNow()), PoolNow())
        {
          while fast[i] != []
            invariant Valid() && flags == old(flags) && |fast| == 10
            invariant forall j | 0 <= j < i :: fast[j] == []
            invariant views.lives == old(views.lives) && BlocksKept(old(mem), mem, views.lives)
            invariant TopSize(shape, top) >= old(TopSize(shape, top)) && NoneLost(old(PoolNow()), PoolNow())
            decreases |fast[i]|
          {
            ghost var m, q := mem, PoolNow();
            PopFastbin(i);
            NoneLostTrans(old(PoolNow()), q, PoolNow());
            BlocksKeptTrans(old(mem), m, mem, views.lives, views.lives);
          }
        }
        DrainedState(mem, shape, segs, top, views, fast, bins, binmap, flags);
        flags := flags.(fastChunks := false);
      } else {
        InitState();
      }
    }

    /** One round of the inner loop of malloc_consolidate. */
    method PopFastbin(i: nat)
      requires Valid() && i < 8 && |fast| == 10 && fast[i] != []
      modifies this`mem, this`bins, this`links, this`fast, this`top, this`shape, this`views
      ensures Valid() && fast == old(fast)[i := old(fast[i][1..])]
      ensures views.lives == old(views.lives)
      ensures BlocksKept(old(mem), mem, views.lives)
      ensures TopSize(shape, top) >= old(TopSize(shape, top)) && NoneLost(old(PoolNow()), PoolNow())
    {
      hide StateOk, BlocksKept, Retag, TopSize, BinsOk, FastOk, BinmapOk, FlagsOk, Linked, HeapOk, Viewed;
      hide NoneLost, Spot;
      var p := fast[i][0];
      FastTakeState(mem, shape, segs, top, views, fast, bins, binmap, flags, i);
      RetagKeepsTop(shape, top, p, Live);
      shape, views := Retag(shape, p, Live), Views(views.lives[p := views.fasts[p]], views.fasts - {p}, views.frees);
      fast := fast[i := fast[i][1..]];
      ghost var q := PoolNow();
      var size, at := Release(p);
      FastReleased(old(PoolNow()), q, PoolNow(), p, at, size);
      assert views.lives == old(views.lives);
    }

    /** fREe: small blocks go to a fastbin, others are coalesced. Trimming top is left out: with MORECORE failing it
        has no effect. */
    method Free(p: int)
      requires Valid() && (p == 0 || p in views.lives)
      modifies this`mem, this`bins, this`links, this`fast, this`top, this`shape, this`views, this`flags
      ensures Valid()
      ensures views.lives == old(views.lives) - {p}
      ensures BlocksKept(old(mem), mem, views.lives)
      ensures TopSize(shape, top) >= old(TopSize(shape, top))
      ensures flags.initialized == old(flags.initialized) && flags.contiguous == old(flags.contiguous)
      ensures p != 0 && old(views.lives[p]) <= 72 ==>
                && flags.anyChunks && flags.fastChunks && mem == old(mem) && bins == old(bins) && top == old(top)
                && views.fasts == old(views.fasts)[p := old(views.lives[p])]
                && Pushed(old(fast), fast, FastbinIndex(old(views.lives[p])), p)
      ensures NoneLost(old(PoolNow()), PoolNow()) && (p != 0 ==> Reusable(PoolNow(), p, old(views.lives[p])))
      ensures p != 0 && old(views.lives[p]) > 72 ==>
                DrainedIfLarge(PoolNow(), old(views.fasts), p, old(views.lives[p]))
    {
      hide StateOk, BlocksKept, Retag, TopSize, FastbinIndex, BinsOk, FastOk, BinmapOk, FlagsOk, Linked;
      hide HeapOk, Viewed, NoneLost, Spot;
      SameBlocksKept(mem, views.lives - {p});
      SameNoneLost(PoolNow());
      StateParts(mem, shape, segs, top, views, fast, bins, binmap, flags);
      NullIsNoBlock(mem, shape, segs, top, views);
      if p != 0 {
        LiveReads(mem, shape, segs, top, views, p);
        var size := ChunkSize(mem, p);
        if size <= MAX_FAST {
          FastPutState(mem, shape, segs, top, views, fast, bins, binmap, flags, p);
          RetagKeepsTop(shape, top, p, Fast);
          shape, views := Retag(shape, p, Fast),
              Views(views.lives - {p}, views.fasts[p := views.lives[p]], views.frees);
          flags := flags.(anyChunks := true, fastChunks := true);
          var i := FastbinIndex(size);
          fast := fast[i := [p] + fast[i]];
          FastAdded(old(PoolNow()), PoolNow(), p, size);
        } else {
          FreeLarge(p);
        }
      }
    }

    /** The part of fREe for blocks that do not go to a fastbin. A large result has the fastbins consolidated. */
    method FreeLarge(p: int)
      requires Valid() && p in views.lives
      modifies this`mem, this`bins, this`links, this`fast, this`top, this`shape, this`views, this`flags
      ensures Valid()
      ensures views.lives == old(views.lives) - {p}
      ensures BlocksKept(old(mem), mem, views.lives)
      ensures TopSize(shape, top) >= old(TopSize(shape, top))
      ensures flags.initialized == old(flags.initialized) && flags.contiguous == old(flags.contiguous)
      ensures NoneLost(old(PoolNow()), PoolNow())
      ensures DrainedIfLarge(PoolNow(), old(views.fasts), p, old(views.lives[p]))
    {
      hide StateOk, BlocksKept, TopSize, BinsOk, FastOk, BinmapOk, FlagsOk, Linked, HeapOk, Viewed;
      hide NoneLost, Spot;
      AnyChunksState(mem, shape, segs, top, views, fast, bins, binmap, flags, p);
      flags := flags.(anyChunks := true);
      var total, at := Release(p);
      FlagFacts(mem, shape, segs, top, views, fast, bins, binmap, flags);
      if total >= 131072 && flags.fastChunks {
        ghost var m, q := mem, PoolNow();
        Consolidate();
        BlocksKeptTrans(old(mem), m, mem, views.lives, views.lives);
        NoneLostTrans(old(PoolNow()), q, PoolNow());
        ghost var at', total' := SpotGrows(q, PoolNow(), p, old(views.lives[p]), at, total);
      }
    }

    /** The whole free chunk p is handed out. */
    method TakeWhole(p: int)
      requires Valid() && p in views.frees
      modifies this`mem, this`bins, this`links, this`shape, this`views
      ensures Valid()
      ensures p !in old(views.lives) && p != 0 && views.lives == old(views.lives)[p := old(views.frees[p])]
      ensures views.frees == old(views.frees) - {p} && views.fasts == old(views.fasts)
      ensures BlocksKept(old(mem), mem, old(views.lives))
    {
      hide StateOk, BlocksKept, Fuse, Without, SetInuse, BinsOk, FastOk, BinmapOk, FlagsOk, Linked, Unlinked;
      hide HeapOk, Viewed;
      StateParts(mem, shape, segs, top, views, fast, bins, binmap, flags);
      FreeReads(mem, shape, segs, top, views, p);
      InitializedByBlock(mem, shape, segs, top, views, fast, bins, binmap, flags, p);
      TakeWholeState(mem, shape, segs, top, views, fast, bins, binmap, flags, p);
      var size := ChunkSize(mem, p);
      shape, views := Fuse(shape, p, p + size, Live), TakenViews(views, p, size);
      mem := SetInuse(mem, p + size);
      TakeLists(old(views.frees), bins, links, p);
      links := Unlinked(links, p);
      bins := Without(bins, p);
    }

    /** The first nb bytes of the free chunk p are handed out; the rest becomes the only unsorted chunk. */
    method TakeFront(p: int, nb: nat)
      requires Valid() && p in views.frees && Aligned(nb) && 16 <= nb && views.frees[p] - nb >= 16
      requires |bins| == 96 && Without(bins, p)[1] == []
      modifies this`mem, this`bins, this`links, this`shape, this`views
      ensures Valid()
      ensures p !in old(views.lives) && p != 0 && views.lives == old(views.lives)[p := nb]
      ensures |bins| == 96 && bins[1] == [p + nb]
      ensures views.frees == (old(views.frees) - {p})[p + nb := old(views.frees[p]) - nb]
      ensures views.fasts == old(views.fasts)
      ensures BlocksKept(old(mem), mem, old(views.lives))
    {
      hide StateOk, BlocksKept, Split, Without, CutWrites, CutBins, BinsOk, FastOk, BinmapOk, FlagsOk, Linked;
      hide Unlinked, HeaderSet, HeapOk, Viewed;
      RemainderIsUnsorted(bins, p, nb);
      InitializedByBlock(mem, shape, segs, top, views, fast, bins, binmap, flags, p);
      CutLinks(mem, shape, segs, top, views, fast, bins, binmap, flags, links, p, nb);
      StateParts(mem, shape, segs, top, views, fast, bins, binmap, flags);
      FreeReads(mem, shape, segs, top, views, p);
      TakeFrontState(mem, shape, segs, top, views, fast, bins, binmap, flags, p, nb);
      var size := ChunkSize(mem, p);
      shape, views := Split(shape, p, nb, Live, Kind.Free), CutViews(views, p, nb, size);
      mem := CutWrites(mem, p, nb, size);
      links := HeaderSet(Unlinked(links, p), p + nb);
      bins := CutBins(bins, p, nb);
    }

    /** The first nb bytes of top are handed out. */
    method TakeTop(nb: nat) returns (p: int)
      requires Valid() && top != 0 && Aligned(nb) && 16 <= nb && ChunkSize(mem, top) >= nb + 16
      modifies this`mem, this`top, this`shape, this`views
      ensures Valid()
      ensures p == old(top) && p !in old(views.lives) && views.lives == old(views.lives)[p := nb]
      ensures top == p + nb && views.frees == old(views.frees) && views.fasts == old(views.fasts)
      ensures BlocksKept(old(mem), mem, old(views.lives))
    {
      hide StateOk, BlocksKept, Split, TopWrites, BinsOk, FastOk, BinmapOk, FlagsOk, Linked, HeapOk, Viewed;
      TakeTopState(mem, shape, segs, top, views, fast, bins, binmap, flags, nb);
      p := top;
      var size := ChunkSize(mem, p);
      shape, views := Split(shape, p, nb, Live, Top), views.(lives := views.lives[p := nb]);
      mem := TopWrites(mem, p, nb, size);
      top := p + nb;
    }

    /** The pass over the unsorted list: takes an exact fit, or splits the last remainder for a small
        request; every other chunk goes to its bin. Returns 0 once the unsorted list is empty. */
    method SortUnsorted(nb: nat) returns (p: int)
      requires Valid() && Aligned(nb) && 16 <= nb && |bins| == 96 && (nb < 256 ==> bins[nb / 8] == [])
      modifies this`mem, this`bins, this`links, this`binmap, this`lastRemainder, this`shape, this`views
      ensures Valid()
      ensures p != 0 ==> Served(old(views.lives), views.lives, p, nb)
      ensures p != 0 ==> Chosen(old(views.frees), old(bins[1]), old(lastRemainder), nb, p)
      ensures p != 0 ==> LeavesRemainder(old(views.frees), views.lives, bins, lastRemainder, nb, p)
      ensures p != 0 ==> TakenFrom(old(views), views, p)
      ensures p == 0 ==> views == old(views) && shape == old(shape) && mem == old(mem)
      ensures p == 0 ==> lastRemainder == old(lastRemainder)
      ensures p == 0 ==> |bins| == 96 && bins[1] == [] && (nb < 256 ==> bins[nb / 8] == [])
      ensures p == 0 ==>
                && NoneOfSize(old(views.frees), old(bins[1]), nb)
                && !SplitsRemainder(old(views.frees), old(bins[1]), old(lastRemainder), nb)
      ensures BlocksKept(old(mem), mem, old(views.lives))
    {
      hide StateOk, BlocksKept, Without, BinnedAt, Place, MarkBin, InsertAt, BinsOk, FastOk, BinmapOk;
      hide FlagsOk, Linked, HeapOk, Viewed, Chosen, NoneOfSize;
      SameBlocksKept(mem, views.lives);
      ghost var unsorted := bins[1];
      assert unsorted[|unsorted|..] == [];
      NoneInEmpty(views.frees, nb);
      while bins[1] != []
        invariant Valid() && views == old(views) && shape == old(shape) && mem == old(mem)
        invariant lastRemainder == old(lastRemainder)
        invariant |bins| == 96 && (nb < 256 ==> bins[nb / 8] == [])
        invariant |bins[1]| <= |unsorted| && bins[1] == unsorted[..|bins[1]|]
        invariant NoneOfSize(views.frees, unsorted[|bins[1]|..], nb)
        invariant bins[1] == [] ==> !SplitsRemainder(views.frees, unsorted, lastRemainder, nb)
        decreases |bins[1]|
      {
        var n := |bins[1]| - 1;
        var victim := bins[1][n];
        var size := ChunkSize(mem, victim);
        UnsortedVictim(mem, shape, segs, top, views, fast, bins, binmap, flags);
        if nb < 256 && n == 0 && victim == lastRemainder && size > nb + MINSIZE {
          assert bins[1][..0] == [];
          ChosenRemainder(views.frees, unsorted, victim, nb);
          TakeFront(victim, nb);
          lastRemainder := victim + nb;
          return victim;
        }
        if size == nb {
          ChosenExact(views.frees, unsorted, lastRemainder, nb, n);
          TakeWhole(victim);
          return victim;
        }
        PassedOver(views.frees, unsorted, nb, n);
        BinVictim(victim, size, nb);
      }
      assert unsorted[0..] == unsorted;
      p := 0;
    }

    /** Moves the last unsorted chunk to its bin, keeping the bin in order. */
    method BinVictim(victim: int, size: int, ghost nb: nat)
      requires Valid() && |bins| == 96 && bins[1] != [] && victim == bins[1][|bins[1]| - 1]
      requires size == ChunkSize(mem, victim) && size != nb && Aligned(nb) && 16 <= nb
                 && (nb < 256 ==> bins[nb / 8] == [])
      modifies this`bins, this`links, this`binmap
      ensures Valid() && |bins| == 96 && bins[1] == old(bins[1])[..|old(bins[1])| - 1]
      ensures nb < 256 ==> bins[nb / 8] == []
    {
      hide StateOk, Without, Place, MarkBin, InsertAt, BinsOk, FastOk, BinmapOk, FlagsOk, Linked, BinnedLinks;
      hide HeapOk, Viewed;
      StateParts(mem, shape, segs, top, views, fast, bins, binmap, flags);
      UnsortedVictim(mem, shape, segs, top, views, fast, bins, binmap, flags);
      var b := bins[1 := bins[1][..|bins[1]| - 1]];
      var i := BinIndex(size);
      ReadyToBin(mem, shape, segs, top, views, fast, bins, binmap, flags, victim);
      var k := FindPlace(mem, b[i], size, views.frees - {victim});
      BinState(mem, shape, segs, top, views, fast, bins, binmap, flags, victim, k);
      BinVictimEffect(mem, shape, segs, top, views, fast, bins, binmap, flags, k, nb);
      InitializedByBlock(mem, shape, segs, top, views, fast, bins, binmap, flags, victim);
      PlaceBounds(views.frees - {victim}, b[i], k, size);
      BinLists(views.frees, bins, links, victim, i, k);
      links := BinnedLinks(links, bins, victim, i, k);
      bins := InsertAt(b, i, k, victim);
      binmap := MarkBin(binmap, i);
    }

    /** Takes the best fitting binned chunk, splitting it if the rest is a chunk of its own. */
    method TakeBest(nb: nat) returns (p: int)
      requires Valid() && Aligned(nb) && 16 <= nb && |bins| == 96 && bins[1] == [] && (nb < 256 ==> bins[nb / 8] == [])
      modifies this`mem, this`bins, this`links, this`binmap, this`lastRemainder, this`shape, this`views
      ensures Valid()
      ensures p != 0 ==> Served(old(views.lives), views.lives, p, nb) && BestFit(old(views.frees), nb, p)
      ensures p != 0 ==> TakenFrom(old(views), views, p) && LastFittingOfBin(old(views.frees), old(bins), nb, p)
      ensures p == 0 ==> views == old(views) && shape == old(shape) && mem == old(mem) && NoFit(views.frees, nb)
      ensures p != 0 && old(views.frees)[p] - nb >= 16 ==>
                |bins| == 96 && bins[1] == [p + nb] && (nb < 256 ==> lastRemainder == p + nb)
      ensures BlocksKept(old(mem), mem, old(views.lives))
    {
      hide StateOk, BlocksKept, Without, BinsOk, BinmapOk, FastOk, FlagsOk, Linked, HeapOk, Viewed;
      hide LastFittingOfBin;
      SameBlocksKept(mem, views.lives);
      ReadyToChoose(mem, shape, segs, top, views, fast, bins, binmap, flags);
      ghost var binmap0 := binmap;
      p, binmap := Choose(mem, bins, binmap, nb, views.frees);
      BinmapState(mem, shape, segs, top, views, fast, bins, binmap0, binmap, flags);
      if p != 0 {
        var size := ChunkSize(mem, p);
        if size - nb < MINSIZE {
          TakeWhole(p);
        } else {
          WithoutUnsorted(bins, p);
          TakeFront(p, nb);
          if nb < MIN_LARGE_SIZE {
            lastRemainder := p + nb;
          }
        }
      }
    }

    /** The end of mALLOc: splits top, or turns to the system. */
    method UseTop(nb: nat, brk: int) returns (p: int)
      requires Valid() && flags.initialized && Aligned(nb) && 16 <= nb && nb + 16 < WORD_LIMIT
      requires flags.fastChunks ==> nb < MIN_LARGE_SIZE
      requires MmapAnswer(segs, brk, nb)
      modifies this
      ensures Valid() && flags.initialized
      ensures p != 0 ==> Served(old(views.lives), views.lives, p, nb)
      ensures p == 0 ==> views.lives == old(views.lives) && (brk == -1 || SegmentSize(nb) <= nb)
      ensures BlocksKept(old(mem), mem, old(views.lives))
      ensures old(TopSize(shape, top)) >= nb + 16 ==> p == old(top) && views.lives[p] == nb && segs == old(segs)
      ensures (p == 0 || segs != old(segs)) && NoFit(old(views.frees), nb) ==> Exhausted(old(PoolNow()), nb)
      ensures MapsAtMost(old(segs), segs, brk, nb)
      decreases flags.fastChunks, 1
    {
      hide StateOk, BlocksKept, TopSize, ChunkSize, FreshPages, BinsOk, FastOk, BinmapOk, FlagsOk, Linked;
      hide HeapOk, Viewed;
      TopReads(mem, shape, segs, top, views, fast, bins, binmap, flags);
      if top != 0 && ChunkSize(mem, top) >= nb + MINSIZE {
        p := TakeTop(nb);
      } else {
        p := Sysmalloc(nb, brk);
      }
    }

    /** mALLOc: brk is what mmap answers if it is asked for a new segment, -1 for a failure. */
    method Malloc(bytes: nat, brk: int) returns (p: int)
      requires Valid() && MmapAnswer(segs, brk, Request2Size(bytes))
      modifies this
      ensures Valid()
      ensures p != 0 ==> Served(old(views.lives), views.lives, p, Request2Size(bytes)) && !RequestOutOfRange(bytes)
      ensures p == 0 ==> views.lives == old(views.lives)
      ensures p == 0 ==>
                RequestOutOfRange(bytes) || brk == -1 || SegmentSize(Request2Size(bytes)) <= Request2Size(bytes)
      ensures BlocksKept(old(mem), mem, old(views.lives))
      ensures old(flags.initialized) ==> flags.initialized
      ensures old(flags.anyChunks) && !RequestOutOfRange(bytes) && HasFast(old(fast), Request2Size(bytes)) ==>
                && Popped(old(fast), fast, FastbinIndex(Request2Size(bytes)), p)
                && views.lives == old(views.lives)[p := Request2Size(bytes)] && mem == old(mem)
      ensures old(flags.anyChunks) && !RequestOutOfRange(bytes) && !HasFast(old(fast), Request2Size(bytes)) ==>
                Rule(old(PoolNow()), old(bins), old(lastRemainder), old(flags.fastChunks), Request2Size(bytes), p)
      ensures !RequestOutOfRange(bytes) && (p == 0 || segs != old(segs)) ==>
                Exhausted(old(PoolNow()), Request2Size(bytes))
      ensures MapsAtMost(old(segs), segs, brk, Request2Size(bytes))
      decreases flags.fastChunks, 4
    {
      hide StateOk, BlocksKept, Without, TopSize, FreshPages, Request2Size, FastbinIndex, BinIndex;
      hide SegmentSize, BinsOk, FastOk, BinmapOk, FlagsOk, Linked, HeapOk, Viewed, NoneLost, Exhausted, Rule;
      SameBlocksKept(mem, views.lives);
      if RequestOutOfRange(bytes) {
        return 0;
      }
      var nb := Request2Size(bytes);
      Request2SizeIsLeast(bytes);
      FlagFacts(mem, shape, segs, top, views, fast, bins, binmap, flags);
      ghost var lives := views.lives;
      SameNoneLost(PoolNow());
      if !flags.anyChunks {
        if !flags.initialized {
          Consolidate();
        }
        FlagFacts(mem, shape, segs, top, views, fast, bins, binmap, flags);
        ghost var m, q := mem, PoolNow();
        p := UseTop(nb, brk);
        BlocksKeptTrans(old(mem), m, mem, lives, lives);
        if p == 0 || segs != old(segs) {
          ExhaustedBefore(old(PoolNow()), q, nb);
        }
        return;
      }
      StateParts(mem, shape, segs, top, views, fast, bins, binmap, flags);
      if nb <= MAX_FAST {
        FastIndexOf(nb);
        if fast[FastbinIndex(nb)] != [] {
          p := TakeFast(FastbinIndex(nb));
          return;
        }
      }
      p := MallocBinned(nb, brk);
    }

    /** The part of mALLOc behind the fastbins. */
    method MallocBinned(nb: nat, brk: int) returns (p: int)
      requires Valid() && flags.initialized && Aligned(nb) && 16 <= nb && nb + 16 < WORD_LIMIT
      requires MmapAnswer(segs, brk, nb)
      modifies this
      ensures Valid() && flags.initialized
      ensures p != 0 ==> Served(old(views.lives), views.lives, p, nb)
      ensures p == 0 ==> views.lives == old(views.lives) && (brk == -1 || SegmentSize(nb) <= nb)
      ensures BlocksKept(old(mem), mem, old(views.lives))
      ensures Rule(old(PoolNow()), old(bins), old(lastRemainder), old(flags.fastChunks), nb, p)
      ensures (p == 0 || segs != old(segs) ==> Exhausted(old(PoolNow()), nb)) && MapsAtMost(old(segs), segs, brk, nb)
      decreases flags.fastChunks, 3
    {
      hide StateOk, BlocksKept, Without, TopSize, FreshPages, BinIndex, SegmentSize, BinsOk, FastOk, BinmapOk;
      hide FlagsOk, Linked, HeapOk, Viewed, NoneLost, Decided, Exhausted;
      SameBlocksKept(mem, views.lives);
      ghost var lives, remainder := views.lives, lastRemainder;
      StateParts(mem, shape, segs, top, views, fast, bins, binmap, flags);
      FlagFacts(mem, shape, segs, top, views, fast, bins, binmap, flags);
      SameNoneLost(PoolNow());
      if nb < MIN_LARGE_SIZE {
        if bins[nb / 8] != [] {
          SmallVictim(mem, shape, segs, top, views, fast, bins, binmap, flags, nb / 8);
          p := bins[nb / 8][|bins[nb / 8]| - 1];
          TakeWhole(p);
          return;
        }
      } else if flags.fastChunks {
        Consolidate();
      }
      ghost var m, q, unsorted := mem, PoolNow(), Unsorted(bins);
      StateParts(mem, shape, segs, top, views, fast, bins, binmap, flags);
      p := Search(nb, brk);
      BlocksKeptTrans(old(mem), m, mem, lives, lives);
      if p == 0 || segs != old(segs) {
        ExhaustedBefore(old(PoolNow()), q, nb);
      }
    }

    /** The second half of mALLOc: the unsorted list, then the bins, then top. */
    method Search(nb: nat, brk: int) returns (p: int)
      requires Valid() && flags.initialized && Aligned(nb) && 16 <= nb && nb + 16 < WORD_LIMIT
      requires flags.fastChunks ==> nb < MIN_LARGE_SIZE
      requires |bins| == 96 && (nb < 256 ==> bins[nb / 8] == []) && MmapAnswer(segs, brk, nb)
      modifies this
      ensures Valid() && flags.initialized
      ensures p != 0 ==> Served(old(views.lives), views.lives, p, nb)
      ensures p == 0 ==> views.lives == old(views.lives) && (brk == -1 || SegmentSize(nb) <= nb)
      ensures BlocksKept(old(mem), mem, old(views.lives))
      ensures Decided(old(PoolNow()), old(bins[1]), old(lastRemainder), nb, p)
      ensures !NoFit(old(views.frees), nb) ==> TakenFrom(old(views), views, p) && top == old(top)
      ensures (p == 0 || segs != old(segs) ==> Exhausted(old(PoolNow()), nb)) && MapsAtMost(old(segs), segs, brk, nb)
      decreases flags.fastChunks, 2
    {
      hide StateOk, BlocksKept, Without, TopSize, FreshPages, SegmentSize, BinsOk, FastOk, BinmapOk, FlagsOk;
      hide Linked, HeapOk, Viewed;
      ghost var lives := views.lives;
      p := SortUnsorted(nb);
      if p != 0 {
        ChosenFits(old(views.frees), old(bins[1]), old(lastRemainder), nb, p);
      } else {
        ghost var m := mem;
        p := TakeBest(nb);
        BlocksKeptTrans(old(mem), m, mem, lives, lives);
        if p == 0 {
          m := mem;
          p := UseTop(nb, brk);
          BlocksKeptTrans(old(mem), m, mem, lives, lives);
        }
      }
    }

    /** The block at the head of fastbin i is handed out again. */
    method TakeFast(i: nat) returns (p: int)
      requires Valid() && i < 8 && |fast| == 10 && fast[i] != []
      modifies this`fast, this`shape, this`views
      ensures Valid()
      ensures p !in old(views.lives) && p != 0 && views.lives == old(views.lives)[p := 8 * (i + 2)]
      ensures p == old(fast[i][0]) && fast == old(fast)[i := old(fast[i])[1..]]
    {
      hide StateOk, Retag, BinsOk, FastOk, BinmapOk, FlagsOk, Linked, HeapOk, Viewed;
      p := fast[i][0];
      FastTakeState(mem, shape, segs, top, views, fast, bins, binmap, flags, i);
      StateParts(mem, shape, segs, top, views, fast, bins, binmap, flags);
      shape, views := Retag(shape, p, Live), Views(views.lives[p := views.fasts[p]], views.fasts - {p}, views.frees);
      fast := fast[i := fast[i][1..]];
      StateParts(mem, shape, segs, top, views, fast, bins, binmap, flags);
      NullIsNoBlock(mem, shape, segs, top, views);
    }

    /** Last in, first out: a small block that is freed is what the next request for its size gets. */
    method FreeThenMalloc(p: int, bytes: nat, brk: int) returns (q: int)
      requires Valid() && p in views.lives && views.lives[p] <= 72 && Request2Size(bytes) == views.lives[p]
      requires !RequestOutOfRange(bytes) && MmapAnswer(segs, brk, Request2Size(bytes))
      modifies this
      ensures Valid()
      ensures q == p && views.lives == old(views.lives) && fast == old(fast) && mem == old(mem)
    {
      hide StateOk, BlocksKept, TopSize, FreshPages, Request2Size, FastbinIndex, BinsOk, FastOk, BinmapOk;
      hide FlagsOk, Linked, HeapOk, Viewed;
      StateParts(mem, shape, segs, top, views, fast, bins, binmap, flags);
      NullIsNoBlock(mem, shape, segs, top, views);
      Free(p);
      ghost var i := FastbinIndex(Request2Size(bytes));
      q := Malloc(bytes, brk);
      assert fast[i] == old(fast[i]);
    }

    /** sYSMALLOc: consolidates and retries if that may help; otherwise maps a new segment, fences off
        the old top and frees what is left of it. */
    method Sysmalloc(nb: nat, brk: int) returns (p: int)
      requires Valid() && flags.initialized && Aligned(nb) && 16 <= nb && nb + 16 < WORD_LIMIT
      requires flags.fastChunks ==> nb < MIN_LARGE_SIZE
      requires MmapAnswer(segs, brk, nb) && TopSize(shape, top) < nb + MINSIZE
      modifies this
      ensures Valid() && flags.initialized
      ensures p != 0 ==> Served(old(views.lives), views.lives, p, nb)
      ensures p == 0 ==> views.lives == old(views.lives) && (brk == -1 || SegmentSize(nb) <= nb)
      ensures BlocksKept(old(mem), mem, old(views.lives))
      ensures (p == 0 || segs != old(segs)) && NoFit(old(views.frees), nb) ==> Exhausted(old(PoolNow()), nb)
      ensures MapsAtMost(old(segs), segs, brk, nb)
      decreases flags.fastChunks, 0
    {
      hide StateOk, BlocksKept, TopSize, FreshPages, SegmentSize, Request2Size, BinsOk, FastOk, BinmapOk;
      hide FlagsOk, Linked, HeapOk, Viewed;
      SameBlocksKept(mem, views.lives);
      ghost var lives := views.lives;
      FlagFacts(mem, shape, segs, top, views, fast, bins, binmap, flags);
      if flags.fastChunks {
        Consolidate();
        ghost var m, q := mem, PoolNow();
        RetryRequestsSameSize(nb);
        OutOfRangeRetry(nb);
        p := Malloc(nb - ALIGN_MASK, brk);
        if p == 0 || segs != old(segs) {
          ExhaustedBefore(old(PoolNow()), q, nb);
        }
        BlocksKeptTrans(old(mem), m, mem, lives, lives);
        return;
      }
      var size := SegmentSize(nb);
      if size <= nb || brk == -1 {
        return 0;
      }
      SegmentSizeFits(nb);
      NewSegment(size, brk);
      ghost var m := mem;
      TopReads(mem, shape, segs, top, views, fast, bins, binmap, flags);
      p := TakeTop(nb);
      BlocksKeptTrans(old(mem), m, mem, lives, lives);
    }

    /** The part of sYSMALLOc between a successful mmap and the allocation from the new top. */
    method NewSegment(size: nat, brk: int)
      requires Valid() && flags.initialized && FreshPages(segs, brk, size) && PageMultiple(size) && size >= 4096
      modifies this
      ensures Valid() && flags.initialized && segs == old(segs)[brk := brk + size] && brk !in old(segs)
      ensures views.lives == old(views.lives) && BlocksKept(old(mem), mem, views.lives)
      ensures TopSize(shape, top) >= size && top != 0
      ensures NoneLost(old(PoolNow()).(topSize := 0), PoolNow())
      ensures old(TopSize(shape, top)) >= 32 ==> Reusable(PoolNow(), old(top), old(TopSize(shape, top)) - 16)
    {
      hide NoneLost, Reusable, Exhausted;
      hide StateOk, BlocksKept, TopSize, SegBytes, HeapOk, Viewed, FreshPages;
      hide ChunkSize, BinsOk, FastOk, BinmapOk, FlagsOk, Linked;
      var oldTop := top;
      ghost var lives := views.lives;
      var oldSize := MapSegment(size, brk);
      NewTopLosesNothing(old(PoolNow()), PoolNow());
      if oldSize >= 32 {
        ghost var m, q := mem, PoolNow();
        StateParts(mem, shape, segs, top, views, fast, bins, binmap, flags);
        NullIsNoBlock(mem, shape, segs, top, views);
        Free(oldTop);
        NoneLostTrans(old(PoolNow()).(topSize := 0), q, PoolNow());
        assert views.lives == lives;
        BlocksKeptTrans(old(mem), m, mem, lives, lives);
      }
      TopNonzero(mem, shape, segs, top, views, fast, bins, binmap, flags);
    }

    /** The new top, and the fenceposts over the old one, whose size is returned. */
    method MapSegment(size: nat, brk: int) returns (oldSize: int)
      requires Valid() && flags.initialized && FreshPages(segs, brk, size) && PageMultiple(size) && size >= 4096
      modifies this`mem, this`shape, this`segs, this`views, this`sbrked, this`flags, this`top
      ensures Valid() && flags.initialized && segs == old(segs)[brk := brk + size] && brk !in old(segs)
      ensures oldSize >= 32 ==>
                old(top) !in old(views.lives) && views.lives == old(views.lives)[old(top) := oldSize - 16]
      ensures oldSize < 32 ==> views.lives == old(views.lives)
      ensures TopSize(shape, top) == size && BlocksKept(old(mem), mem, old(views.lives))
      ensures oldSize == old(TopSize(shape, top)) && views.fasts == old(views.fasts) && views.frees == old(views.frees)
    {
      hide StateOk, BlocksKept, TopSize, SegmentShape, SegmentWrites, SegBytes, HeapOk, Viewed, FreshPages;
      hide ChunkSize, BinsOk, FastOk, BinmapOk, FlagsOk, Linked, SegmentViews;
      oldSize := if top == 0 then 0 else ChunkSize(mem, top);
      NewSegmentState(mem, shape, segs, top, views, fast, bins, binmap, flags, brk, size);
      StateParts(mem, shape, segs, top, views, fast, bins, binmap, flags);
      SegmentTop(mem, shape, segs, top, brk, size);
      SegBytesMapped(segs, brk, brk + size);
      SegmentViewFacts(views, top, oldSize);
      mem, shape := SegmentWrites(mem, top, brk, size), SegmentShape(shape, top, brk, size);
      segs, views := segs[brk := brk + size], SegmentViews(views, top, oldSize);
      sbrked, flags, top := sbrked + size, flags.(contiguous := false), brk;
    }

    /** The live block p is cut after n bytes; m' is the memory with both heads written. */
    ghost method Cut(m': Mem, p: int, n: nat)
      requires Valid() && p in views.lives && Aligned(n) && 16 <= n <= views.lives[p] - 16
      requires CutWritten(mem, m', p, n, views.lives[p])
      modifies this`shape, this`views
      ensures StateOk(m', shape, segs, top, views, fast, bins, binmap, flags) && sbrked == SegBytes(segs)
      ensures p + n !in old(views.lives)
      ensures views.lives == old(views.lives)[p := n][p + n := old(views.lives[p]) - n]
      ensures BlocksKept(mem, m', old(views.lives)[p := n]) && PoolNow() == old(PoolNow())
    {
      hide StateOk, BlocksKept, Split, CutWritten, SplitWrites, SegBytes, BinsOk, FastOk, BinmapOk, FlagsOk;
      hide Linked, HeapOk, Viewed;
      StateParts(mem, shape, segs, top, views, fast, bins, binmap, flags);
      CutKeepsPool(mem, shape, segs, top, views, p, n);
      CutSplits(mem, m', shape, segs, top, views, p, n);
      CutLiveState(mem, m', shape, segs, top, views, fast, bins, binmap, flags, p, n);
      shape, views := Split(shape, p, n, Live, Live), CutLiveViews(views, p, n, views.lives[p]);
    }

    /** The last part of rEALLOc: frees what block p has beyond nb bytes if that is a chunk of its own. */
    method Trim(p: int, nb: nat)
      requires Valid() && p in views.lives && Aligned(nb) && 16 <= nb <= views.lives[p]
      modifies this`mem, this`bins, this`links, this`fast, this`top, this`shape, this`views, this`flags
      ensures Valid() && p in views.lives
      ensures views.lives == old(views.lives)[p := views.lives[p]]
      ensures nb <= views.lives[p] < nb + 16 && views.lives[p] <= old(views.lives[p])
      ensures BlocksKept(old(mem), mem, views.lives) && NoneLost(old(PoolNow()), PoolNow())
      ensures old(views.lives[p]) - nb >= 16 ==>
                views.lives[p] == nb && Reusable(PoolNow(), p + nb, old(views.lives[p]) - nb)
    {
      hide NoneLost, Reusable;
      SameNoneLost(PoolNow());
      hide StateOk, BlocksKept, TopSize, SegBytes, BinsOk, FastOk, BinmapOk, FlagsOk, Linked, HeapOk, Viewed;
      StateParts(mem, shape, segs, top, views, fast, bins, binmap, flags);
      LiveReads(mem, shape, segs, top, views, p);
      InuseAfterLive(mem, shape, segs, top, views, p);
      var size := ChunkSize(mem, p);
      var rest := p + nb;
      SameBlocksKept(mem, views.lives);
      if size - nb >= MINSIZE {
        var m' := SetInuse(mem[p + 4 := nb + PrevInuseBit(mem, p)][rest + 4 := size - nb + 1], rest + (size - nb));
        Cut(m', p, nb);
        mem := m';
        assert views.lives - {rest} == old(views.lives)[p := nb];
        Free(rest);
        BlocksKeptTrans(old(mem), m', mem, views.lives, views.lives);
      }
    }

    /** Block p takes in the free chunk, which is unlinked, or the fresh block behind it. */
    method Absorb(p: int, unlink: bool)
      requires Valid() && p in views.lives
      requires var next := p + views.lives[p];
               if unlink then next in views.frees else next in views.lives && next !in views.frees
      modifies this`mem, this`bins, this`links, this`shape, this`views
      ensures Valid()
      ensures var next := p + old(views.lives[p]);
              var more := if unlink then old(views.frees)[next] else old(views.lives)[next];
              && next != p && views.lives == (old(views.lives) - {next})[p := old(views.lives[p]) + more]
              && views.frees == old(views.frees) - {next} && views.fasts == old(views.fasts)
              && BlocksKept(old(mem), mem, old(views.lives) - {next})
    {
      hide StateOk, BlocksKept, Fuse, WithoutIf, GrowWrites, BinsOk, FastOk, BinmapOk, FlagsOk, Linked;
      hide UnlinkedIf, HeapOk, Viewed;
      AbsorbNextState(mem, shape, segs, top, views, fast, bins, binmap, flags, p);
      var oldsize := ChunkSize(mem, p);
      var next := p + oldsize;
      var size := oldsize + ChunkSize(mem, next);
      StateParts(mem, shape, segs, top, views, fast, bins, binmap, flags);
      InitializedByBlock(mem, shape, segs, top, views, fast, bins, binmap, flags, p);
      UnlinkFree(views.frees, bins, links, unlink, next);
      links := UnlinkedIf(links, unlink, next);
      bins := WithoutIf(bins, unlink, next);
      mem := GrowWrites(mem, p, size);
      shape := Fuse(shape, p, p + size, Live);
      views := Views((views.lives - {next})[p := size], views.fasts, views.frees - {next});
    }

    /** Block p, which borders top, is extended to nb bytes. */
    method GrowIntoTop(p: int, nb: nat)
      requires Valid() && p in views.lives && p + views.lives[p] == top && Aligned(nb) && views.lives[p] <= nb
      requires views.lives[p] + ChunkSize(mem, top) >= nb + 16
      modifies this`mem, this`top, this`shape, this`views
      ensures Valid() && views == old(views).(lives := old(views.lives)[p := nb]) && top == p + nb
      ensures BlocksKept(old(mem), mem, old(views.lives))
    {
      hide StateOk, BlocksKept, GrowTopShape, GrowTopWrites, BinsOk, FastOk, BinmapOk, FlagsOk, Linked;
      hide HeapOk, Viewed;
      GrowTopState(mem, shape, segs, top, views, fast, bins, binmap, flags, p, nb);
      var total := ChunkSize(mem, p) + ChunkSize(mem, top);
      mem := GrowTopWrites(mem, p, nb, total);
      shape, views := GrowTopShape(shape, p, nb, p + total), views.(lives := views.lives[p := nb]);
      top := p + nb;
    }

    /** rEALLOc: brk is what mmap answers if it is asked for a new segment. */
    method Realloc(p: int, bytes: nat, brk: int) returns (r: int)
      requires Valid() && (p == 0 || p in views.lives) && MmapAnswer(segs, brk, Request2Size(bytes))
      modifies this
      ensures Valid()
      ensures r != 0 && p == 0 ==> Served(old(views.lives), views.lives, r, Request2Size(bytes))
      ensures r != 0 && p != 0 ==> Resized(old(mem), old(views.lives), mem, views.lives, p, r, Request2Size(bytes))
      ensures r == 0 ==> views.lives == old(views.lives)
      ensures r == 0 || p == 0 ==> BlocksKept(old(mem), mem, old(views.lives))
      ensures r == 0 ==>
                RequestOutOfRange(bytes) || brk == -1 || SegmentSize(Request2Size(bytes)) <= Request2Size(bytes)
      ensures RequestOutOfRange(bytes) ==> r == 0
      ensures p != 0 && !RequestOutOfRange(bytes) ==>
                Reused(old(PoolNow()), PoolNow(), p, old(views.lives[p]), r, Request2Size(bytes), segs != old(segs))
      ensures !RequestOutOfRange(bytes) && (r == 0 || segs != old(segs)) ==>
                Exhausted(old(PoolNow()), Request2Size(bytes)) || RetryOutOfRange(Request2Size(bytes))
      ensures MapsAtMost(old(segs), segs, brk, Request2Size(bytes))
    {
      hide Reused, Exhausted, Rule, RetryOutOfRange, Popped, HasFast;
      hide StateOk, BlocksKept, Request2Size, SegmentSize, FreshPages, Resized, ChunkSize, BinsOk, FastOk;
      hide BinmapOk, FlagsOk, Linked, HeapOk, Viewed;
      SameBlocksKept(mem, views.lives);
      if p == 0 {
        r := Malloc(bytes, brk);
      } else if RequestOutOfRange(bytes) {
        r := 0;
      } else {
        Request2SizeIsLeast(bytes);
        r := Resize(p, Request2Size(bytes), brk);
      }
    }

    /** The part of rEALLOc behind the checks. */
    method Resize(p: int, nb: nat, brk: int) returns (r: int)
      requires Valid() && p in views.lives && Aligned(nb) && 16 <= nb && nb + 16 < WORD_LIMIT
      requires MmapAnswer(segs, brk, nb)
      modifies this
      ensures Valid()
      ensures r != 0 ==> Resized(old(mem), old(views.lives), mem, views.lives, p, r, nb)
      ensures r == 0 ==> views.lives == old(views.lives) && BlocksKept(old(mem), mem, old(views.lives))
      ensures r == 0 ==> brk == -1 || SegmentSize(nb) <= nb
      ensures Reused(old(PoolNow()), PoolNow(), p, old(views.lives[p]), r, nb, segs != old(segs))
      ensures r == 0 || segs != old(segs) ==> Exhausted(old(PoolNow()), nb) || RetryOutOfRange(nb)
      ensures MapsAtMost(old(segs), segs, brk, nb)
    {
      hide NoneLost, Reusable, Exhausted, RetryOutOfRange, Reused, HasRoom, MapsAtMost;
      NoMapping(segs, brk, nb);
      hide StateOk, BlocksKept, SegmentSize, FreshPages, Resized, ChunkSize, BinsOk, FastOk;
      hide BinmapOk, FlagsOk, Linked, HeapOk, Viewed;
      StateParts(mem, shape, segs, top, views, fast, bins, binmap, flags);
      LiveReads(mem, shape, segs, top, views, p);
      NextOfLive(mem, shape, segs, top, views, p);
      TopReads(mem, shape, segs, top, views, fast, bins, binmap, flags);
      SameBlocksKept(mem, views.lives);
      var oldsize := ChunkSize(mem, p);
      if oldsize < nb {
        var next := p + oldsize;
        if next in views.frees {
          FreeReads(mem, shape, segs, top, views, next);
        }
        if next == top && oldsize + ChunkSize(mem, next) >= nb + MINSIZE {
          GrowIntoTop(p, nb);
          GrownInPlace(old(mem), old(views.lives), mem, views.lives, p, nb);
          ReusedGrown(old(PoolNow()), PoolNow(), p, oldsize, nb);
          return p;
        } else if next != top && PrevInuseBit(mem, next + ChunkSize(mem, next)) == 0
            && oldsize + ChunkSize(mem, next) >= nb {
          assert views.lives - {next} == views.lives;
          Absorb(p, true);
        } else {
          NoRoom(PoolNow(), p, oldsize, nb);
          r := Relocate(p, nb, brk);
          if r != p {
            ReusedMoved(old(PoolNow()), PoolNow(), p, oldsize, r, nb, segs != old(segs));
            return;
          }
        }
      }
      SplitBelow(p, nb, old(mem), old(views.lives), old(PoolNow()), segs != old(segs));
      r := p;
    }

    /** The end of rEALLOc for a block that stays where it is, and has grown or not. */
    method SplitBelow(p: int, nb: nat, ghost mem0: Mem, ghost lives0: map<int, int>, ghost pool0: Pool, ghost mapped: bool)
      requires Valid() && p in views.lives && Aligned(nb) && 16 <= nb <= views.lives[p] && p != 0
      requires p in lives0 && views.lives == lives0[p := views.lives[p]] && BlocksKept(mem0, mem, lives0)
      requires lives0[p] - nb >= 16 ==> views.lives[p] == lives0[p]
      requires mapped ==> !HasRoom(pool0, p, lives0[p], nb)
      modifies this`mem, this`bins, this`links, this`fast, this`top, this`shape, this`views, this`flags
      ensures Valid() && Resized(mem0, lives0, mem, views.lives, p, p, nb)
      ensures Reused(pool0, PoolNow(), p, lives0[p], p, nb, mapped)
    {
      hide NoneLost, Reusable, Reused, HasRoom, StateOk, BlocksKept, Resized, BinsOk, FastOk, BinmapOk, FlagsOk;
      hide Linked, HeapOk, Viewed;
      ghost var m := mem;
      ghost var lives := views.lives;
      Trim(p, nb);
      TrimmedInPlace(mem0, lives0, m, lives, mem, views.lives, p, nb);
      ReusedInPlace(pool0, PoolNow(), p, lives0[p], nb, mapped);
    }

    /** The allocate, copy, free path of rEALLOc. The result is p if the new block turned out to be the
        one behind p, which p then takes in. */
    method Relocate(p: int, nb: nat, brk: int) returns (r: int)
      requires Valid() && p in views.lives && Aligned(nb) && views.lives[p] < nb && nb + 16 < WORD_LIMIT
      requires MmapAnswer(segs, brk, nb)
      modifies this
      ensures Valid()
      ensures r == 0 ==> views.lives == old(views.lives) && BlocksKept(old(mem), mem, old(views.lives))
      ensures r == 0 ==> brk == -1 || SegmentSize(nb) <= nb
      ensures r == p ==>
                p in views.lives && views.lives == old(views.lives)[p := views.lives[p]] && views.lives[p] >= nb
      ensures r == p ==> BlocksKept(old(mem), mem, old(views.lives))
      ensures r != 0 && r != p ==> Resized(old(mem), old(views.lives), mem, views.lives, p, r, nb)
      ensures r != 0 && r != p ==> Reusable(PoolNow(), p, old(views.lives[p]))
      ensures r == 0 || segs != old(segs) ==> Exhausted(old(PoolNow()), nb) || RetryOutOfRange(nb)
      ensures MapsAtMost(old(segs), segs, brk, nb)
    {
      hide NoneLost, Reusable, Exhausted, Rule;
      hide StateOk, BlocksKept, Request2Size, FreshPages, Resized, ChunkSize, SegmentSize, BinsOk, FastOk;
      hide BinmapOk, FlagsOk, Linked, HeapOk, Viewed, Copied, UserWrites, HasFast, Popped, Pushed;
      StateParts(mem, shape, segs, top, views, fast, bins, binmap, flags);
      LiveReads(mem, shape, segs, top, views, p);
      var oldsize := ChunkSize(mem, p);
      RetryRequestsSameSize(nb);
      OutOfRangeRetry(nb);
      r := Malloc(nb - ALIGN_MASK, brk);
      if r == 0 {
        return;
      }
      StateParts(mem, shape, segs, top, views, fast, bins, binmap, flags);
      LiveBlocksApart(mem, shape, segs, top, views, p, r);
      ghost var m1 := mem;
      ghost var lives1 := views.lives;
      if r == p + oldsize {
        LiveIsNotFree(mem, shape, segs, top, views, r);
        Absorb(p, false);
        assert lives1 - {r} == old(views.lives);
        BlocksKeptTrans(old(mem), m1, mem, old(views.lives), old(views.lives));
        r := p;
        assert views.lives == old(views.lives)[p := views.lives[p]];
      } else {
        mem := CopyWords(mem, p + 8, r + 8, (oldsize - 4) / 4);
        CopyStaysInside(m1, mem, p + 8, r, oldsize, lives1[r]);
        UserWritesState(m1, mem, shape, segs, top, views, fast, bins, binmap, flags, r);
        ghost var m2 := mem;
        Free(p);
        Relocated(old(mem), m1, m2, mem, old(views.lives), lives1, views.lives, p, r, nb);
      }
    }

    /** A store by the user: the word at x of block p becomes w. */
    method Store(p: int, x: int, w: int)
      requires Valid() && p in views.lives && p + 8 <= x < p + views.lives[p] + 4
      modifies this`mem
      ensures Valid() && mem == old(mem)[x := w]
      ensures BlocksKept(old(mem), mem, views.lives - {p})
    {
      hide StateOk, BlocksKept, BinsOk, FastOk, BinmapOk, FlagsOk, Linked, HeapOk, Viewed;
      UserWritesState(mem, mem[x := w], shape, segs, top, views, fast, bins, binmap, flags, p);
      mem := mem[x := w];
    }

    /** mEMALIGn, for every 32-bit alignment and every request: brk is what mmap answers if it is asked. */
    method Memalign(alignment: nat, bytes: nat, brk: int) returns (r: Memaligned)
      requires Valid() && alignment < WORD_LIMIT
                 && MmapAnswer(segs, brk, Request2Size(MemalignRequest(alignment, bytes)))
      modifies this
      ensures Valid()
      ensures r.Endless? <==> alignment > 0x8000_0000
      ensures r.Broken? ==> PaddingWraps(alignment, bytes)
      ensures RequestOutOfRange(bytes) ==> r.Null? || r.Endless?
      ensures r.Block? ==>
                && r.p !in old(views.lives) && r.p in views.lives
                && views.lives == old(views.lives)[r.p := views.lives[r.p]]
      ensures r.Block? ==> (Request2Size(bytes) <= views.lives[r.p] <==> !PaddingWraps(alignment, bytes))
      ensures r.Block? ==> r.p != 0 && views.lives[r.p] <= Request2Size(bytes) + 16
      ensures r.Block? && alignment > 8 ==> Multiple(RoundedAlignment(alignment), r.p + 8)
      ensures r.Null? || r.Endless? ==> views.lives == old(views.lives)
      ensures r.Null? ==>
                var request := MemalignRequest(alignment, bytes);
                || RequestOutOfRange(bytes) || RequestOutOfRange(request) || brk == -1
                || SegmentSize(Request2Size(request)) <= Request2Size(request)
      ensures r.Null? ==>
                var request := MemalignRequest(alignment, bytes);
                || RequestOutOfRange(bytes) || RequestOutOfRange(request)
                || Exhausted(old(PoolNow()), Request2Size(request))
      ensures MapsAtMost(old(segs), segs, brk, Request2Size(MemalignRequest(alignment, bytes)))
      ensures BlocksKept(old(mem), mem, old(views.lives))
    {
      hide StateOk, BlocksKept, Request2Size, FreshPages, SegmentSize, RoundedAlignment, TopSize, ChunkSize;
      hide NoneLost, Reusable, Exhausted, Rule, Popped, HasFast, Pow2, IsAlignment, Multiple;
      hide BinsOk, FastOk, BinmapOk, FlagsOk, Linked, HeapOk, Viewed;
      hide AlignedSpot;
      SameBlocksKept(mem, views.lives);
      if alignment <= 8 {
        var p := Malloc(bytes, brk);
        return if p == 0 then Null else Block(p);
      }
      var rounding := RoundAlignment(alignment);
      if rounding.Endless? {
        return Memaligned.Endless;
      }
      if RequestOutOfRange(bytes) {
        return Null;
      }
      var al, nb := rounding.al, Request2Size(bytes);
      Request2SizeIsLeast(bytes);
      var p := Malloc((nb + al + MINSIZE) % WORD_LIMIT, brk);
      if p == 0 {
        return Null;
      }
      PaddedBlock(nb, al, views.lives[p]);
      r := AlignBlock(p, nb, al, old(mem), old(views.lives));
    }

    /** The rest of mEMALIGn, once a block has been obtained. */
    method AlignBlock(p: int, nb: nat, al: nat, ghost mem0: Mem, ghost lives: map<int, int>) returns (r: Memaligned)
      requires Valid() && p in views.lives && p !in lives && views.lives == lives[p := views.lives[p]]
      requires Aligned(nb) && nb >= 16 && IsAlignment(al) && al >= 16 && BlocksKept(mem0, mem, lives)
      modifies this`mem, this`bins, this`links, this`fast, this`top, this`shape, this`views, this`flags
      ensures Valid() && (r.Block? || r.Broken?)
      ensures r.Block? ==>
                r.p !in lives && r.p in views.lives && views.lives == lives[r.p := views.lives[r.p]] && r.p != 0
      ensures r.Block? ==> views.lives[r.p] <= old(views.lives[p]) && views.lives[r.p] <= nb + 16
      ensures old(views.lives[p]) >= nb + al + 20 ==> r.Block? && views.lives[r.p] >= nb
      ensures r.Block? ==> Multiple(al, r.p + 8)
      ensures r.Block? ==> CutOut(PoolNow(), p, old(views.lives[p]), r.p, views.lives[r.p], nb)
      ensures BlocksKept(mem0, mem, lives) && NoneLost(old(PoolNow()), PoolNow())
    {
      hide NoneLost, Reusable, CutOut;
      hide StateOk, BlocksKept, TopSize, Pow2, IsAlignment, Multiple, HeapOk, Viewed;
      hide BinsOk, FastOk, BinmapOk, FlagsOk, Linked;
      var q := AlignFront(p, al, mem0, lives);
      if q == 0 {
        return Broken;
      }
      ghost var m1, q1, size := mem, PoolNow(), views.lives[q];
      CutTail(q, nb);
      NoneLostTrans(old(PoolNow()), q1, PoolNow());
      CutOutReusable(q1, PoolNow(), p, old(views.lives[p]), q, size, views.lives[q], nb);
      BlocksKeptFewer(m1, mem, views.lives, lives);
      BlocksKeptTrans(mem0, m1, mem, lives, lives);
      r := Block(q);
    }

    /** Moves the start of block p to an aligned spot; 0 if less than a chunk is left behind that. */
    method AlignFront(p: int, al: nat, ghost mem0: Mem, ghost lives: map<int, int>) returns (q: int)
      requires Valid() && p in views.lives && p !in lives && views.lives == lives[p := views.lives[p]]
      requires IsAlignment(al) && al >= 16 && BlocksKept(mem0, mem, lives)
      modifies this`mem, this`bins, this`links, this`fast, this`top, this`shape, this`views, this`flags
      ensures Valid() && BlocksKept(mem0, mem, lives) && NoneLost(old(PoolNow()), PoolNow())
      ensures q != 0 ==> q in views.lives && q !in lives && views.lives == lives[q := views.lives[q]]
      ensures q != 0 ==> p <= q <= p + al + 8 && views.lives[q] == old(views.lives[p]) - (q - p)
      ensures q != 0 ==> Multiple(al, q + 8) && (q > p ==> Reusable(PoolNow(), p, q - p))
      ensures old(views.lives[p]) >= al + 24 ==> q != 0
    {
      hide NoneLost, Reusable;
      hide StateOk, BlocksKept, TopSize, ChunkSize, Pow2, IsAlignment, Multiple, AlignedSpot, HeapOk, Viewed;
      hide BinsOk, FastOk, BinmapOk, FlagsOk, Linked;
      SameNoneLost(PoolNow());
      StateParts(mem, shape, segs, top, views, fast, bins, binmap, flags);
      LiveReads(mem, shape, segs, top, views, p);
      LiveBounds(mem, shape, segs, top, views, p);
      if Multiple(al, p + 8) {
        return p;
      }
      if p + 8 + al > WORD_LIMIT {
        return 0;
      }
      SpotOfAlignment(p, al);
      if ChunkSize(mem, p) < AlignedSpot(p, al) - p + MINSIZE {
        return 0;
      }
      ghost var m, others := mem, views.lives - {p};
      q := CutLead(p, al);
      BlocksKeptFewer(m, mem, others, lives);
      BlocksKeptTrans(mem0, m, mem, lives, lives);
    }

    /** Gives back the part of block p in front of the aligned spot. */
    method CutLead(p: int, al: nat) returns (r: int)
      requires Valid() && p in views.lives && IsAlignment(al) && al >= 16 && p >= 0 && p + 8 + al <= WORD_LIMIT
      requires !Multiple(al, p + 8) && views.lives[p] >= AlignedSpot(p, al) - p + 16
      modifies this`mem, this`bins, this`links, this`fast, this`top, this`shape, this`views, this`flags
      ensures Valid() && r in views.lives && r != 0 && r !in old(views.lives)
      ensures 16 <= r - p <= al + 8 && Multiple(al, r + 8)
      ensures views.lives == (old(views.lives) - {p})[r := old(views.lives[p]) - (r - p)]
      ensures BlocksKept(old(mem), mem, old(views.lives) - {p})
      ensures NoneLost(old(PoolNow()), PoolNow()) && Reusable(PoolNow(), p, r - p)
    {
      hide NoneLost, Reusable;
      hide StateOk, BlocksKept, TopSize, SegBytes, ChunkSize, AlignedSpot, Pow2, IsAlignment, Multiple;
      hide BinsOk, FastOk, BinmapOk, FlagsOk, Linked, HeapOk, Viewed;
      hide PrevInuseBit, SetInuse, CutWritten, HeapOk, Viewed;
      StateParts(mem, shape, segs, top, views, fast, bins, binmap, flags);
      LiveReads(mem, shape, segs, top, views, p);
      SpotOfAlignment(p, al);
      r := AlignedSpot(p, al);
      var lead := r - p;
      var newsize := ChunkSize(mem, p) - lead;
      InuseAfterLive(mem, shape, segs, top, views, p);
      LeadWritten(mem, p, lead, newsize);
      var m' := SetInuse(mem[r + 4 := newsize + 1], r + newsize);
      m' := m'[p + 4 := lead + PrevInuseBit(m', p)];
      Cut(m', p, lead);
      ghost var lives1 := views.lives;
      mem := m';
      Free(p);
      assert views.lives == (old(views.lives) - {p})[r := newsize];
      KeptAroundCut(old(mem), m', mem, old(views.lives), lives1, views.lives, p, r, lead, newsize);
      StateParts(mem, shape, segs, top, views, fast, bins, binmap, flags);
      NullIsNoBlock(mem, shape, segs, top, views);
    }

    /** Gives back what block p has beyond nb bytes if that is more than MINSIZE. */
    method CutTail(p: int, nb: nat)
      requires Valid() && p in views.lives && Aligned(nb) && 16 <= nb
      modifies this`mem, this`bins, this`links, this`fast, this`top, this`shape, this`views, this`flags
      ensures Valid()
      ensures views.lives == old(views.lives)[p := if old(views.lives[p]) > nb + 16 then nb else old(views.lives[p])]
      ensures BlocksKept(old(mem), mem, views.lives) && NoneLost(old(PoolNow()), PoolNow())
      ensures old(views.lives[p]) > nb + 16 ==> Reusable(PoolNow(), p + nb, old(views.lives[p]) - nb)
    {
      hide NoneLost, Reusable;
      SameNoneLost(PoolNow());
      hide StateOk, BlocksKept, TopSize, SegBytes, ChunkSize, BinsOk, FastOk, BinmapOk, FlagsOk, Linked;
      hide HeapOk, Viewed;
      StateParts(mem, shape, segs, top, views, fast, bins, binmap, flags);
      LiveReads(mem, shape, segs, top, views, p);
      SameBlocksKept(mem, views.lives);
      var size := ChunkSize(mem, p);
      if size > nb + MINSIZE {
        var rest := p + nb;
        var m' := mem[rest + 4 := size - nb + 1];
        m' := m'[p + 4 := nb + PrevInuseBit(m', p)];
        Cut(m', p, nb);
        mem := m';
        assert views.lives - {rest} == old(views.lives)[p := nb];
        Free(rest);
        BlocksKeptTrans(old(mem), m', mem, views.lives, views.lives);
      }
    }
  }

  lemma EmptyState(flags: Flags)
    requires !flags.anyChunks && !flags.fastChunks
    ensures StateOk(map[], map[], map[], 0, Views(map[], map[], map[]), seq(10, _ => []), seq(96, _ => []),
                    [0, 0, 0, 0], flags)
  {
    hide Pow2, Bit;
  }

  lemma InitialState(m: Mem, sh: Shape, segs: Segs, top: int, v: Views,
                     fast: seq<List>, bins: seq<List>, binmap: seq<nat>, flags: Flags)
    requires StateOk(m, sh, segs, top, v, fast, bins, binmap, flags) && !flags.initialized
    ensures StateOk(m, sh, segs, top, v, fast, seq(96, _ => []), binmap, Flags(true, false, false, true))
    ensures !flags.anyChunks && v.fasts == map[] && forall i | 0 <= i < |fast| :: fast[i] == []
  {
    hide HeapOk, Viewed, Pow2, Bit;
    NoFastChunks(fast);
  }

  lemma SameBlocksKept(m: Mem, lives: map<int, int>)
    ensures BlocksKept(m, m, lives)
  {
  }

  lemma RetagKeepsTop(sh: Shape, top: int, p: int, k: Kind)
    requires p in sh && !sh[p].kind.Top? && !k.Top?
    ensures TopSize(Retag(sh, p, k), top) == TopSize(sh, top)
  {
  }

  lemma DrainedState(m: Mem, sh: Shape, segs: Segs, top: int, v: Views,
                     fast: seq<List>, bins: seq<List>, binmap: seq<nat>, flags: Flags)
    requires StateOk(m, sh, segs, top, v, fast, bins, binmap, flags)
    requires forall i | 0 <= i < 8 :: fast[i] == []
    ensures StateOk(m, sh, segs, top, v, fast, bins, binmap, flags.(fastChunks := false))
    ensures v.fasts == map[] && |fast| == 10 && forall i | 0 <= i < 10 :: fast[i] == []
  {
    FastDrained(v.fasts, fast);
  }

  lemma NullIsNoBlock(m: Mem, sh: Shape, segs: Segs, top: int, v: Views)
    requires HeapOk(m, sh, segs, top) && Viewed(sh, v)
    ensures 0 !in v.lives && v.lives - {0} == v.lives
  {
    assert ViewAt(sh, v, 0) && ChunkAt(sh, segs, 0);
  }

  lemma AnyChunksState(m: Mem, sh: Shape, segs: Segs, top: int, v: Views,
                       fast: seq<List>, bins: seq<List>, binmap: seq<nat>, flags: Flags, p: int)
    requires StateOk(m, sh, segs, top, v, fast, bins, binmap, flags) && p in v.lives
    ensures flags.initialized
    ensures StateOk(m, sh, segs, top, v, fast, bins, binmap, flags.(anyChunks := true))
  {
    assert ViewAt(sh, v, p);
  }

  /** The last unsorted chunk is free, and popping it is unlinking it. */
  lemma UnsortedVictim(m: Mem, sh: Shape, segs: Segs, top: int, v: Views,
                       fast: seq<List>, bins: seq<List>, binmap: seq<nat>, flags: Flags)
    requires StateOk(m, sh, segs, top, v, fast, bins, binmap, flags) && |bins| == 96 && bins[1] != []
    ensures var n := |bins[1]| - 1;
            var p := bins[1][n];
            && p in v.frees && ChunkSize(m, p) == v.frees[p] && v.frees[p] >= 16 && Aligned(v.frees[p]) && p > 0
            && bins[1 := bins[1][..n]] == Without(bins, p) && 2 <= BinOf(v.frees[p]) < 96
            && Without(bins, p)[1] == bins[1][..n]
  {
    PopIsUnlink(v.frees, bins, 1);
    var p := bins[1][|bins[1]| - 1];
    FreeReads(m, sh, segs, top, v, p);
    BinOfRange(v.frees[p]);
  }

  /** The bin the chunk p goes to is ordered, and its tags show the sizes. */
  lemma ReadyToBin(m: Mem, sh: Shape, segs: Segs, top: int, v: Views,
                   fast: seq<List>, bins: seq<List>, binmap: seq<nat>, flags: Flags, p: int)
    requires StateOk(m, sh, segs, top, v, fast, bins, binmap, flags) && p in v.frees && |bins| == 96
    requires 2 <= BinOf(v.frees[p]) < 96
    ensures var fr, s := v.frees - {p}, Without(bins, p)[BinOf(v.frees[p])];
            && Sorted(fr, s) && (forall a | a in s :: Head(m, a) == SizeOf(fr, a) + 1)
            && (v.frees[p] < 256 ==> forall a | a in s :: SizeOf(fr, a) == v.frees[p])
  {
    var i, fr, b := BinOf(v.frees[p]), v.frees - {p}, Without(bins, p);
    UnlinkKeeps(v.frees, bins, p);
    assert BinAt(fr, b, i);
    FreeReads(m, sh, segs, top, v, p);
    forall a | a in fr
      ensures Aligned(fr[a]) && Head(m, a) == fr[a] + 1
    {
      FreeReads(m, sh, segs, top, v, a);
    }
    forall a | a in b[i]
      ensures a in fr && (v.frees[p] < 256 ==> fr[a] == v.frees[p])
    {
      assert OnList(fr, b, i, a);
      if v.frees[p] < 256 {
        SmallBinSize(fr, b, i, a);
      }
    }
  }

  lemma BinVictimEffect(m: Mem, sh: Shape, segs: Segs, top: int, v: Views,
                        fast: seq<List>, bins: seq<List>, binmap: seq<nat>, flags: Flags, k: int, nb: nat)
    requires StateOk(m, sh, segs, top, v, fast, bins, binmap, flags) && |bins| == 96 && bins[1] != []
    requires Aligned(nb) && 16 <= nb && (nb < 256 ==> bins[nb / 8] == [])
    requires var p := bins[1][|bins[1]| - 1];
             && p in v.frees && v.frees[p] != nb && 2 <= BinOf(v.frees[p]) < 96
             && 0 <= k <= |Without(bins, p)[BinOf(v.frees[p])]|
    ensures var p := bins[1][|bins[1]| - 1];
            var b := BinnedAt(bins, p, BinOf(v.frees[p]), k);
            && |b| == 96 && b[1] == bins[1][..|bins[1]| - 1] && (nb < 256 ==> b[nb / 8] == [])
  {
    var p := bins[1][|bins[1]| - 1];
    PopIsUnlink(v.frees, bins, 1);
    BinEffect(v.frees, bins, p, k);
    FreeReads(m, sh, segs, top, v, p);
    BinIndexRange(v.frees[p]);
  }

  lemma BinmapState(m: Mem, sh: Shape, segs: Segs, top: int, v: Views,
                    fast: seq<List>, bins: seq<List>, binmap: seq<nat>, binmap': seq<nat>, flags: Flags)
    requires StateOk(m, sh, segs, top, v, fast, bins, binmap, flags) && BinmapOk(bins, binmap')
    ensures StateOk(m, sh, segs, top, v, fast, bins, binmap', flags)
  {
  }

  lemma ReadyToChoose(m: Mem, sh: Shape, segs: Segs, top: int, v: Views,
                      fast: seq<List>, bins: seq<List>, binmap: seq<nat>, flags: Flags)
    requires StateOk(m, sh, segs, top, v, fast, bins, binmap, flags)
    ensures BinsOk(v.frees, bins) && BinmapOk(bins, binmap)
    ensures forall a | a in v.frees :: ChunkSize(m, a) == v.frees[a] && a != 0
  {
    forall a | a in v.frees
      ensures ChunkSize(m, a) == v.frees[a] && a != 0
    {
      FreeReads(m, sh, segs, top, v, a);
    }
  }

  lemma RemainderIsUnsorted(bins: seq<List>, p: int, nb: nat)
    requires |bins| == 96
    ensures |CutBins(bins, p, nb)| == 96 && CutBins(bins, p, nb)[1] == [p + nb]
  {
  }

  lemma WithoutUnsorted(bins: seq<List>, p: int)
    requires |bins| == 96 && bins[1] == []
    ensures Without(bins, p)[1] == []
  {
  }

  /** The tag of top shows its size. */
  lemma TopReads(m: Mem, sh: Shape, segs: Segs, top: int, v: Views,
                 fast: seq<List>, bins: seq<List>, binmap: seq<nat>, flags: Flags)
    requires StateOk(m, sh, segs, top, v, fast, bins, binmap, flags)
    ensures TopSize(sh, top) == if top != 0 then ChunkSize(m, top) else 0
  {
    if top != 0 {
      ChunkSizeReads(m, sh, segs, top);
    }
  }

  lemma TopNonzero(m: Mem, sh: Shape, segs: Segs, top: int, v: Views,
                   fast: seq<List>, bins: seq<List>, binmap: seq<nat>, flags: Flags)
    requires StateOk(m, sh, segs, top, v, fast, bins, binmap, flags) && TopSize(sh, top) > 0
    ensures top != 0
  {
  }

  lemma SegmentTop(m: Mem, sh: Shape, segs: Segs, top: int, brk: int, size: int)
    requires HeapOk(m, sh, segs, top) && FreshPages(segs, brk, size)
    requires PageMultiple(size) && size >= 4096
    ensures top != 0 ==> top in sh
    ensures TopSize(SegmentShape(sh, top, brk, size), brk) == size && brk !in segs
    ensures TopSize(sh, top) == if top == 0 then 0 else ChunkSize(m, top)
  {
    if top != 0 {
      ChunkSizeReads(m, sh, segs, top);
    }
    MappedKeeps(sh, segs, brk, size);
  }

  lemma FlagFacts(m: Mem, sh: Shape, segs: Segs, top: int, v: Views,
                  fast: seq<List>, bins: seq<List>, binmap: seq<nat>, flags: Flags)
    requires StateOk(m, sh, segs, top, v, fast, bins, binmap, flags)
    ensures (flags.anyChunks ==> flags.initialized) && (flags.fastChunks ==> flags.anyChunks)
    ensures (!flags.fastChunks ==> v.fasts == map[]) && (!flags.anyChunks ==> v.frees == map[])
  {
  }

  /** The last chunk of a small bin fits exactly. */
  lemma SmallVictim(m: Mem, sh: Shape, segs: Segs, top: int, v: Views,
                    fast: seq<List>, bins: seq<List>, binmap: seq<nat>, flags: Flags, i: int)
    requires StateOk(m, sh, segs, top, v, fast, bins, binmap, flags) && |bins| == 96 && 2 <= i < 32 && bins[i] != []
    ensures var p := bins[i][|bins[i]| - 1]; p in v.frees && v.frees[p] == 8 * i
  {
    forall a | a in v.frees
      ensures Aligned(v.frees[a])
    {
      FreeReads(m, sh, segs, top, v, a);
    }
    SmallBinSize(v.frees, bins, i, bins[i][|bins[i]| - 1]);
  }

  /* ---------- realloc ---------- */

  lemma OutOfRangeRetry(nb: nat)
    requires 16 <= nb && nb + 16 < WORD_LIMIT
    ensures RequestOutOfRange(nb - ALIGN_MASK) ==> SegmentSize(nb) <= nb
  {
  }

  /** Live blocks do not overlap. */
  lemma LiveBlocksApart(m: Mem, sh: Shape, segs: Segs, top: int, v: Views, p: int, r: int)
    requires HeapOk(m, sh, segs, top) && Viewed(sh, v) && p in v.lives && r in v.lives && p != r
    ensures p + v.lives[p] <= r || r + v.lives[r] <= p
  {
    assert ViewAt(sh, v, p) && ViewAt(sh, v, r) && Apart(sh, p, r) && Apart(sh, r, p);
  }

  lemma LiveIsNotFree(m: Mem, sh: Shape, segs: Segs, top: int, v: Views, p: int)
    requires HeapOk(m, sh, segs, top) && Viewed(sh, v) && p in v.lives
    ensures p !in v.frees
  {
    assert ViewAt(sh, v, p);
  }

  /** The tags tell whether the chunk behind a live block is free. */
  lemma NextOfLive(m: Mem, sh: Shape, segs: Segs, top: int, v: Views, p: int)
    requires HeapOk(m, sh, segs, top) && Viewed(sh, v) && p in v.lives
    ensures var next := p + v.lives[p];
            next != top ==> (PrevInuseBit(m, next + ChunkSize(m, next)) == 0 <==> next in v.frees)
  {
    var next := p + v.lives[p];
    assert ViewAt(sh, v, p) && NextAt(sh, p) && ViewAt(sh, v, next);
    if next != top {
      InuseOfNext(m, sh, segs, next);
    }
  }

  lemma GrownInPlace(m: Mem, lives: map<int, int>, m': Mem, lives': map<int, int>, p: int, nb: int)
    requires p in lives && p != 0 && lives' == lives[p := nb] && BlocksKept(m, m', lives)
    ensures Resized(m, lives, m', lives', p, p, nb)
  {
    assert SameWords(m, m', p, lives[p]);
    assert lives[p := nb] == (lives - {p})[p := nb];
  }

  lemma TrimmedInPlace(m: Mem, lives: map<int, int>, m1: Mem, lives1: map<int, int>, m2: Mem, lives2: map<int, int>,
                       p: int, nb: int)
    requires p in lives && p != 0 && BlocksKept(m, m1, lives) && BlocksKept(m1, m2, lives2)
    requires p in lives1 && lives1 == lives[p := lives1[p]]
    requires p in lives2 && lives2 == lives1[p := lives2[p]] && nb <= lives2[p] < nb + 16
    ensures Resized(m, lives, m2, lives2, p, p, nb)
  {
    assert SameWords(m, m1, p, lives[p]) && SameWords(m1, m2, p, lives2[p]);
    assert lives2 == (lives - {p})[p := lives2[p]];
    forall c | c in lives - {p}
      ensures SameWords(m, m2, c, lives[c])
    {
      assert SameWords(m, m1, c, lives[c]) && SameWords(m1, m2, c, lives2[c]);
    }
  }

  lemma CopyStaysInside(m: Mem, m': Mem, src: int, r: int, oldsize: int, size: int)
    requires 16 <= oldsize <= size && oldsize % 8 == 0 && Copied(m, m', src, r + 8, (oldsize - 4) / 4)
    ensures UserWrites(m, m', r, size)
  {
    hide Copied;
    var n := (oldsize - 4) / 4;
    assert r + 8 + 4 * n <= r + size + 4;
    assert OnlyBetween(m, m', r + 8, r + 8 + 4 * n) by { CopiedBetween(m, m', src, r + 8, n); }
  }

  lemma CopiedBetween(m: Mem, m': Mem, src: int, dst: int, n: nat)
    requires Copied(m, m', src, dst, n)
    ensures OnlyBetween(m, m', dst, dst + 4 * n)
  {
    hide OnlyBetween;
  }

  lemma Relocated(m: Mem, m1: Mem, m2: Mem, m3: Mem, lives: map<int, int>, lives1: map<int, int>, lives3: map<int, int>,
                  p: int, r: int, nb: nat)
    requires p in lives && Served(lives, lives1, r, nb) && lives3 == lives1 - {p} && 16 <= lives[p] < nb
               && lives[p] % 8 == 0
    requires BlocksKept(m, m1, lives) && BlocksKept(m1, m2, lives1 - {r}) && BlocksKept(m2, m3, lives3)
    requires Copied(m1, m2, p + 8, r + 8, (lives[p] - 4) / 4)
    ensures Resized(m, lives, m3, lives3, p, r, nb)
  {
    var n := (lives[p] - 4) / 4;
    assert 4 * n == lives[p] - 4;
    assert lives3 == (lives - {p})[r := lives3[r]];
    assert SameWords(m, m1, p, lives[p]) && SameWords(m2, m3, r, lives3[r]);
    forall c | c in lives - {p}
      ensures SameWords(m, m3, c, lives[c])
    {
      assert SameWords(m, m1, c, lives[c]) && SameWords(m1, m2, c, (lives1 - {r})[c])
          && SameWords(m2, m3, c, lives3[c]);
    }
  }

  /* ---------- memalign ---------- */

  lemma LiveBounds(m: Mem, sh: Shape, segs: Segs, top: int, v: Views, p: int)
    requires HeapOk(m, sh, segs, top) && Viewed(sh, v) && p in v.lives
    ensures p + v.lives[p] <= WORD_LIMIT
  {
    assert ViewAt(sh, v, p) && ChunkAt(sh, segs, p) && SegAt(sh, segs, sh[p].base);
  }

  lemma LeadWritten(m: Mem, p: int, lead: int, rest: int)
    requires 16 <= lead && 16 <= rest && PrevInuseBit(m, p + lead + rest) == 1
    ensures var m1 := SetInuse(m[p + lead + 4 := rest + 1], p + lead + rest);
            CutWritten(m, m1[p + 4 := lead + PrevInuseBit(m1, p)], p, lead, lead + rest)
  {
  }

  lemma KeptAroundCut(m: Mem, m1: Mem, m2: Mem, lives: map<int, int>, lives1: map<int, int>, lives2: map<int, int>,
                      p: int, r: int, lead: int, rest: int)
    requires p in lives && r !in lives && r != p
    requires lives1 == lives[p := lead][r := rest] && lives2 == (lives - {p})[r := rest]
    requires BlocksKept(m, m1, lives[p := lead]) && BlocksKept(m1, m2, lives2)
    ensures BlocksKept(m, m2, lives - {p})
  {
    forall c | c in lives - {p}
      ensures SameWords(m, m2, c, lives[c])
    {
      assert SameWords(m, m1, c, lives[p := lead][c]) && SameWords(m1, m2, c, lives2[c]);
    }
  }

  /** Every byte counted by sbrked_mem is in exactly one chunk: live, fast, on a list, top, or fencepost waste. */
  lemma BytesAccounted(a: Arena)
    requires a.Valid()
    ensures a.sbrked == Total(a.views.lives) + Total(a.views.fasts) + Total(a.views.frees) + TopSize(a.shape, a.top)
                        + Waste(a.shape)
  {
    Conservation(a.shape, a.segs, a.top, a.views);
  }

  /** The block obtained for the padded request has room for nb bytes behind any aligned spot, unless the sum wrapped;
      then it does not even have nb bytes. */
  lemma PaddedBlock(nb: nat, al: nat, size: int)
    requires Aligned(nb) && nb >= MINSIZE && nb + MINSIZE < WORD_LIMIT && 16 <= al <= 0x8000_0000
    requires var request := (nb + al + MINSIZE) % WORD_LIMIT; Request2Size(request) <= size < Request2Size(request) + 16
    ensures nb + al + MINSIZE < WORD_LIMIT ==> size >= nb + al + 20
    ensures nb + al + MINSIZE >= WORD_LIMIT ==> size < nb
  {
    hide Request2Size;
    PaddedSum(nb, al);
    Request2SizeIsLeast((nb + al + MINSIZE) % WORD_LIMIT);
    assert nb + al + MINSIZE < WORD_LIMIT ==> (nb + al + MINSIZE) % WORD_LIMIT == nb + al + MINSIZE;
  }

  /* ---------- pointers ---------- */

  lemma SegmentViewFacts(v: Views, top: int, oldsize: int)
    ensures SegmentViews(v, top, oldsize).lives ==
              if top != 0 && oldsize >= 32 then v.lives[top := oldsize - 16] else v.lives
    ensures SegmentViews(v, top, oldsize).fasts == v.fasts && SegmentViews(v, top, oldsize).frees == v.frees
  {
  }

  lemma FusedViewFacts(v: Views, lo: int, p: int, next: int, hi: int, k: Kind)
    ensures var v' := FusedViews(v, lo, p, next, hi, k);
            v'.lives == v.lives - {p} && v'.fasts == v.fasts && (k.Free? ==> lo in v'.frees && v'.frees[lo] == hi - lo)
  {
  }

  lemma PlaceBounds(fr: Sizes, s: List, k: int, size: int)
    requires Place(fr, s, k, size)
    ensures 0 <= k <= |s|
  {
  }

  lemma InitializedByBlock(m: Mem, sh: Shape, segs: Segs, top: int, v: Views,
                           fast: seq<List>, bins: seq<List>, binmap: seq<nat>, flags: Flags, a: int)
    requires StateOk(m, sh, segs, top, v, fast, bins, binmap, flags) && (a in v.lives || a in v.frees)
    ensures flags.initialized
  {
    assert ViewAt(sh, v, a);
  }

  lemma ReleaseListLinks(m: Mem, sh: Shape, segs: Segs, top: int, v: Views,
                         fast: seq<List>, bins: seq<List>, binmap: seq<nat>, flags: Flags, l: Links, p: int)
    requires StateOk(m, sh, segs, top, v, fast, bins, binmap, flags) && Linked(l, bins)
    requires p in v.lives && p + ChunkSize(m, p) != top
    ensures var lo, hi, next := LowEnd(m, p), HighEnd(m, top, p), p + ChunkSize(m, p);
            |bins| == 96 && Linked(ReleasedLinks(l, lo, p, next, hi), ReleasedBins(bins, lo, p, next, hi))
  {
    StateParts(m, sh, segs, top, v, fast, bins, binmap, flags);
    ListNeighbours(m, sh, segs, top, v, p);
    var lo, hi, next := LowEnd(m, p), HighEnd(m, top, p), p + ChunkSize(m, p);
    LowEndPositive(m, sh, segs, top, v, p);
    hide StateOk, BinsOk, BinmapOk, Linked, LowEnd, HighEnd, ChunkSize, ReleasedLinks, ReleasedBins;
    ReleaseLists(v.frees, bins, binmap, l, lo, p, next, hi);
  }

  lemma LowEndPositive(m: Mem, sh: Shape, segs: Segs, top: int, v: Views, p: int)
    requires HeapOk(m, sh, segs, top) && Viewed(sh, v) && p in v.lives
    ensures LowEnd(m, p) > 0 && (LowEnd(m, p) != p ==> LowEnd(m, p) in v.frees)
  {
    assert ViewAt(sh, v, p);
    NeighboursFromTags(m, sh, segs, top, p);
    var lo := LowEnd(m, p);
    assert ChunkAt(sh, segs, lo) && ViewAt(sh, v, lo);
  }

  lemma ReleaseTopLinks(m: Mem, sh: Shape, segs: Segs, top: int, v: Views,
                        fast: seq<List>, bins: seq<List>, binmap: seq<nat>, flags: Flags, l: Links, p: int)
    requires StateOk(m, sh, segs, top, v, fast, bins, binmap, flags) && Linked(l, bins) && p in v.lives
    ensures var lo := LowEnd(m, p); Linked(UnlinkedIf(l, lo != p, lo), WithoutIf(bins, lo != p, lo))
  {
    StateParts(m, sh, segs, top, v, fast, bins, binmap, flags);
    LowEndPositive(m, sh, segs, top, v, p);
    hide StateOk, BinsOk, Linked, LowEnd, UnlinkedIf, WithoutIf;
    UnlinkFree(v.frees, bins, l, LowEnd(m, p) != p, LowEnd(m, p));
  }

  lemma CutLinks(m: Mem, sh: Shape, segs: Segs, top: int, v: Views,
                 fast: seq<List>, bins: seq<List>, binmap: seq<nat>, flags: Flags, l: Links, p: int, n: int)
    requires StateOk(m, sh, segs, top, v, fast, bins, binmap, flags) && Linked(l, bins)
    requires p in v.frees && 16 <= n <= v.frees[p] - 16 && |bins| == 96 && Without(bins, p)[1] == []
    ensures Linked(HeaderSet(Unlinked(l, p), p + n), CutBins(bins, p, n))
  {
    StateParts(m, sh, segs, top, v, fast, bins, binmap, flags);
    assert ViewAt(sh, v, p) && ViewAt(sh, v, p + n) && ChunkAt(sh, segs, p) && Apart(sh, p, p + n);
    hide StateOk, BinsOk, Linked, Without;
    CutLists(v.frees, bins, l, p, p + n);
  }
}
