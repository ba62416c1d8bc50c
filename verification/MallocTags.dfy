/** Boundary tags: the words in memory that describe the layout of the arena.
    The head of chunk a (its size and the PREV_INUSE bit) is the word at a + 4; the word at a itself is
    prev_size, which overlays the last usable word of the preceding chunk while that chunk is in use. */
module MallocTags {
  import opened MallocSizes
  import opened MallocShape

  /** word address -> word; words never written read as zero (fresh mappings are zero-filled) */
  type Mem = map<int, int>

  function Rd(m: Mem, x: int): int {
    if x in m then m[x] else 0
  }

  function Head(m: Mem, a: int): int {
    Rd(m, a + 4)
  }

  /** chunksize: mask off PREV_INUSE and IS_MMAPPED */
  function ChunkSize(m: Mem, a: int): int {
    Head(m, a) - Head(m, a) % 4
  }

  function PrevInuseBit(m: Mem, a: int): int {
    Head(m, a) % 2
  }

  /** A fencepost claims only SIZE_SZ bytes. */
  function TagSize(c: Chunk): int {
    if c.kind.Fence? then 4 else c.size
  }

  ghost predicate HeadAt(m: Mem, sh: Shape, a: int) {
    a in sh ==>
      && (Head(m, a) == TagSize(sh[a]) || Head(m, a) == TagSize(sh[a]) + 1)
      && (sh[a].kind.Fence? ==> Rd(m, a + 8) == 5)
  }

  /** The successor of a chunk records whether the chunk is in use and, if it is not, its size. */
  ghost predicate FootAt(m: Mem, sh: Shape, a: int) {
    a in sh && !IsEnd(sh[a].kind) ==>
      var n := a + sh[a].size;
      if sh[a].kind.Free? then PrevInuseBit(m, n) == 0 && Rd(m, n) == sh[a].size
      else PrevInuseBit(m, n) == 1
  }

  /** A clear PREV_INUSE bit leads, through prev_size, to a free chunk that ends where this one starts. */
  ghost predicate PrevAt(m: Mem, sh: Shape, b: int) {
    b in sh && PrevInuseBit(m, b) == 0 ==>
      var q := b - Rd(m, b);
      q in sh && sh[q].kind.Free? && sh[q].size == Rd(m, b)
  }

  ghost predicate Tagged(m: Mem, sh: Shape) {
    && (forall a :: HeadAt(m, sh, a))
    && (forall a :: FootAt(m, sh, a))
    && (forall b :: PrevAt(m, sh, b))
  }

  /** No word below lo + 4 or above hi + 4 changed. */
  ghost predicate Local(m: Mem, m': Mem, lo: int, hi: int) {
    forall x | x < lo + 4 || x > hi + 4 :: Rd(m', x) == Rd(m, x)
  }

  /** No word from hi on changed. */
  ghost predicate StaysBelow(m: Mem, m': Mem, hi: int) {
    forall x | x >= hi :: Rd(m', x) == Rd(m, x)
  }

  /** The words the user may store into keep their values. */
  ghost predicate SameWords(m: Mem, m': Mem, c: int, size: int) {
    forall x | c + 8 <= x < c + size + 4 :: Rd(m', x) == Rd(m, x)
  }

  ghost predicate BlocksKept(m: Mem, m': Mem, lives: map<int, int>) {
    forall c | c in lives :: SameWords(m, m', c, lives[c])
  }

  lemma BlocksKeptTrans(m0: Mem, m1: Mem, m2: Mem, l1: map<int, int>, l2: map<int, int>)
    requires BlocksKept(m0, m1, l1) && BlocksKept(m1, m2, l2)
    requires forall c | c in l2 :: c in l1 && l1[c] == l2[c]
    ensures BlocksKept(m0, m2, l2)
  {
    forall c | c in l2
      ensures SameWords(m0, m2, c, l2[c])
    {
      assert SameWords(m0, m1, c, l1[c]) && SameWords(m1, m2, c, l2[c]);
    }
  }

  lemma BlocksKeptFewer(m: Mem, m': Mem, more: map<int, int>, fewer: map<int, int>)
    requires BlocksKept(m, m', more)
    requires forall c | c in fewer :: c in more && more[c] == fewer[c]
    ensures BlocksKept(m, m', fewer)
  {
    forall c | c in fewer
      ensures SameWords(m, m', c, fewer[c])
    {
      assert SameWords(m, m', c, more[c]);
    }
  }

  /** A tag is a size with the PREV_INUSE bit or'ed in. */
  lemma TagBits(size: int, p: int)
    requires size % 4 == 0 && 0 <= p <= 1
    ensures (size + p) % 2 == p && (size + p) % 4 == p
  {
    var q := size / 4;
    assert size == 4 * q;
    FourTimes(q, p);
  }

  lemma FourTimes(q: int, p: int)
    requires 0 <= p <= 1
    ensures (4 * q + p) % 2 == p && (4 * q + p) % 4 == p
  {
    assert 4 * q + p == 2 * (2 * q) + p;
  }

  lemma SpanAligned(sh: Shape, segs: Segs, lo: int, hi: int, k: Kind)
    requires WellFormed(sh, segs) && CanFuse(sh, segs, lo, hi, k)
    ensures (hi - lo) % 4 == 0
  {
    assert ChunkAt(sh, segs, lo) && ChunkAt(sh, segs, hi) && SegAt(sh, segs, sh[lo].base);
    AlignedSums(hi, lo);
  }

  lemma ChunkSizeReads(m: Mem, sh: Shape, segs: Segs, a: int)
    requires WellFormed(sh, segs) && Tagged(m, sh) && a in sh
    ensures ChunkSize(m, a) == TagSize(sh[a])
    ensures Head(m, a) == TagSize(sh[a]) + PrevInuseBit(m, a)
  {
    assert HeadAt(m, sh, a) && ChunkAt(sh, segs, a);
  }

  /** In a coalesced arena a free chunk, and top, have an in-use predecessor. */
  lemma FreeHasInusePredecessor(m: Mem, sh: Shape, segs: Segs, a: int)
    requires WellFormed(sh, segs) && Tagged(m, sh) && Coalesced(sh)
    requires a in sh && (sh[a].kind.Free? || sh[a].kind.Top?)
    ensures PrevInuseBit(m, a) == 1
  {
    assert PrevAt(m, sh, a) && CoalescedAt(sh, a - Rd(m, a));
  }

  /** With PREV_INUSE clear, prev_size leads back to the free chunk this one follows. */
  lemma PreviousChunk(m: Mem, sh: Shape, segs: Segs, p: int)
    requires WellFormed(sh, segs) && Tagged(m, sh) && Coalesced(sh)
    requires p in sh && PrevInuseBit(m, p) == 0
    ensures var q := p - Rd(m, p);
            && q in sh && sh[q].kind.Free? && q + sh[q].size == p && q < p && sh[q].base == sh[p].base
            && PrevInuseBit(m, q) == 1
  {
    var q := p - Rd(m, p);
    assert PrevAt(m, sh, p);
    assert NextAt(sh, q) && ChunkAt(sh, segs, q);
    FreeHasInusePredecessor(m, sh, segs, q);
  }

  /** The in-use bit of chunk n is found past the size its head claims; a fencepost reads as in use. */
  lemma InuseOfNext(m: Mem, sh: Shape, segs: Segs, n: int)
    requires WellFormed(sh, segs) && Tagged(m, sh)
    requires n in sh && !sh[n].kind.Top?
    ensures PrevInuseBit(m, n + ChunkSize(m, n)) == if sh[n].kind.Free? then 0 else 1
  {
    ChunkSizeReads(m, sh, segs, n);
    assert FootAt(m, sh, n) && HeadAt(m, sh, n);
  }

  /** Writes confined to the bytes from lo to the tag at hi leave every block outside that span intact,
      even though tags and user data share words. */
  lemma LocalWritesSpareBlocks(m: Mem, m': Mem, sh: Shape, segs: Segs, lo: int, hi: int, c: int)
    requires WellFormed(sh, segs) && Local(m, m', lo, hi)
    requires lo in sh && c in sh && (c < lo || hi <= c)
    ensures SameWords(m, m', c, sh[c].size)
  {
    assert Apart(sh, c, lo);
  }

  /* ---------- tags after a change of shape ---------- */

  /** What must be written when the chunks from lo to hi become one chunk of kind k. */
  ghost predicate FuseWrites(m: Mem, m': Mem, lo: int, hi: int, k: Kind) {
    && Local(m, m', lo, hi)
    && Head(m', lo) == hi - lo + PrevInuseBit(m, lo)
    && (k.Free? ==> Rd(m', hi) == hi - lo && Head(m', hi) == Head(m, hi) - PrevInuseBit(m, hi))
    && (k.Live? ==> Head(m', hi) == Head(m, hi) - PrevInuseBit(m, hi) + 1)
    && (k.Top? ==> StaysBelow(m, m', hi))
  }

  lemma FuseTags(m: Mem, m': Mem, sh: Shape, segs: Segs, lo: int, hi: int, k: Kind)
    requires WellFormed(sh, segs) && Tagged(m, sh)
    requires CanFuse(sh, segs, lo, hi, k) && FuseWrites(m, m', lo, hi, k)
    ensures Tagged(m', Fuse(sh, lo, hi, k))
  {
    var t := Fuse(sh, lo, hi, k);
    forall a ensures HeadAt(m', t, a) { FuseHead(m, m', sh, segs, lo, hi, k, a); }
    forall a ensures FootAt(m', t, a) { FuseFoot(m, m', sh, segs, lo, hi, k, a); }
    forall b ensures PrevAt(m', t, b) { FusePrev(m, m', sh, segs, lo, hi, k, b); }
  }

  lemma FuseHead(m: Mem, m': Mem, sh: Shape, segs: Segs, lo: int, hi: int, k: Kind, a: int)
    requires WellFormed(sh, segs) && Tagged(m, sh)
    requires CanFuse(sh, segs, lo, hi, k) && FuseWrites(m, m', lo, hi, k)
    ensures HeadAt(m', Fuse(sh, lo, hi, k), a)
  {
    if a in sh && a != lo && !(lo < a < hi) {
      assert ChunkAt(sh, segs, a) && Apart(sh, a, lo) && Apart(sh, hi, a);
      if a == hi && !k.Top? {
        ChunkSizeReads(m, sh, segs, a);
      }
      assert HeadAt(m, sh, a);
    }
  }

  /** The PREV_INUSE bits at both ends of the fused chunk. */
  lemma FuseBits(m: Mem, m': Mem, sh: Shape, segs: Segs, lo: int, hi: int, k: Kind)
    requires WellFormed(sh, segs) && Tagged(m, sh)
    requires CanFuse(sh, segs, lo, hi, k) && FuseWrites(m, m', lo, hi, k)
    ensures PrevInuseBit(m', lo) == PrevInuseBit(m, lo)
    ensures k.Free? ==> PrevInuseBit(m', hi) == 0
    ensures k.Live? ==> PrevInuseBit(m', hi) == 1
  {
    SpanAligned(sh, segs, lo, hi, k);
    TagBits(hi - lo, PrevInuseBit(m, lo));
    if !k.Top? {
      ChunkSizeReads(m, sh, segs, hi);
      TagParity(sh, segs, hi);
    }
  }

  /** Tags outside the fused span do not change. */
  lemma FuseElsewhere(m: Mem, m': Mem, sh: Shape, segs: Segs, lo: int, hi: int, k: Kind, b: int)
    requires WellFormed(sh, segs)
    requires CanFuse(sh, segs, lo, hi, k) && FuseWrites(m, m', lo, hi, k)
    requires b in sh && (b < lo || b > hi || (b == hi && k.Top?))
    ensures Head(m', b) == Head(m, b) && Rd(m', b) == Rd(m, b)
  {
    assert ChunkAt(sh, segs, b) && ChunkAt(sh, segs, hi) && Apart(sh, b, lo) && Apart(sh, hi, b);
  }

  lemma FuseFoot(m: Mem, m': Mem, sh: Shape, segs: Segs, lo: int, hi: int, k: Kind, a: int)
    requires WellFormed(sh, segs) && Tagged(m, sh)
    requires CanFuse(sh, segs, lo, hi, k) && FuseWrites(m, m', lo, hi, k)
    ensures FootAt(m', Fuse(sh, lo, hi, k), a)
  {
    FuseBits(m, m', sh, segs, lo, hi, k);
    if a in sh && a != lo && !IsEnd(sh[a].kind) && !(lo < a < hi) {
      var n := a + sh[a].size;
      assert FootAt(m, sh, a) && ChunkAt(sh, segs, a) && NextAt(sh, a) && Apart(sh, a, lo);
      if n != lo {
        FuseElsewhere(m, m', sh, segs, lo, hi, k, n);
      }
    }
  }

  /** A free chunk never reaches the end of its segment. */
  lemma NotCutBySegmentEnd(sh: Shape, segs: Segs, c: int, q: int, e: int)
    requires WellFormed(sh, segs) && c in sh && q in sh && sh[q].kind.Free?
    requires sh[c].base in segs && e == segs[sh[c].base]
    ensures c <= q < e ==> q + sh[q].size < e
  {
    assert ChunkAt(sh, segs, q) && ChunkAt(sh, segs, c);
    assert SegsApart(segs, sh[q].base, sh[c].base) && SegsApart(segs, sh[c].base, sh[q].base);
  }

  lemma FusePrev(m: Mem, m': Mem, sh: Shape, segs: Segs, lo: int, hi: int, k: Kind, b: int)
    requires WellFormed(sh, segs) && Tagged(m, sh)
    requires CanFuse(sh, segs, lo, hi, k) && FuseWrites(m, m', lo, hi, k)
    ensures PrevAt(m', Fuse(sh, lo, hi, k), b)
  {
    FuseBits(m, m', sh, segs, lo, hi, k);
    if b in sh && (b <= lo || b > hi || (b == hi && k.Top?)) {
      if b != lo {
        FuseElsewhere(m, m', sh, segs, lo, hi, k, b);
      }
      assert PrevAt(m, sh, b) && ChunkAt(sh, segs, lo);
      if PrevInuseBit(m, b) == 0 {
        var q := b - Rd(m, b);
        assert Apart(sh, q, hi) && ChunkAt(sh, segs, q);
        if k.Top? {
          NotCutBySegmentEnd(sh, segs, lo, q, hi);
        }
      }
    }
  }

  /** The tag word of a chunk, with either value of the PREV_INUSE bit. */
  lemma TagParity(sh: Shape, segs: Segs, a: int)
    requires WellFormed(sh, segs) && a in sh
    ensures TagSize(sh[a]) % 2 == 0 && (TagSize(sh[a]) + 1) % 2 == 1
  {
    assert ChunkAt(sh, segs, a);
    AlignedSums(sh[a].size, 0);
    TagBits(TagSize(sh[a]), 0);
    TagBits(TagSize(sh[a]), 1);
  }

  /** What must be written when an in-use front of n bytes is cut off chunk a, whose end is at e. */
  ghost predicate SplitWrites(m: Mem, m': Mem, a: int, n: int, e: int, k2: Kind) {
    && Local(m, m', a, e)
    && Head(m', a) == n + PrevInuseBit(m, a)
    && Head(m', a + n) == e - (a + n) + 1
    && (k2.Free? ==> Rd(m', e) == e - (a + n) && Head(m', e) == Head(m, e) - PrevInuseBit(m, e))
    && (k2.Live? ==> Head(m', e) == Head(m, e) - PrevInuseBit(m, e) + 1)
    && (k2.Top? ==> StaysBelow(m, m', e))
  }

  lemma SplitTags(m: Mem, m': Mem, sh: Shape, segs: Segs, a: int, n: int, k2: Kind)
    requires WellFormed(sh, segs) && Tagged(m, sh)
    requires CanSplit(sh, a, n, Live, k2) && !k2.Fast?
    requires SplitWrites(m, m', a, n, a + sh[a].size, k2)
    ensures Tagged(m', Split(sh, a, n, Live, k2))
  {
    var t := Split(sh, a, n, Live, k2);
    SplitKeeps(sh, segs, a, n, Live, k2);
    forall c ensures HeadAt(m', t, c) { SplitHead(m, m', sh, segs, a, n, k2, c); }
    forall c ensures FootAt(m', t, c) { SplitFoot(m, m', sh, segs, a, n, k2, c); }
    forall b ensures PrevAt(m', t, b) { SplitPrev(m, m', sh, segs, a, n, k2, b); }
  }

  lemma SplitHead(m: Mem, m': Mem, sh: Shape, segs: Segs, a: int, n: int, k2: Kind, c: int)
    requires WellFormed(sh, segs) && Tagged(m, sh)
    requires CanSplit(sh, a, n, Live, k2) && !k2.Fast?
    requires a + n !in sh && SplitWrites(m, m', a, n, a + sh[a].size, k2)
    ensures HeadAt(m', Split(sh, a, n, Live, k2), c)
  {
    var e := a + sh[a].size;
    if c in sh && c != a {
      assert ChunkAt(sh, segs, a) && ChunkAt(sh, segs, c) && Apart(sh, c, a) && Apart(sh, a, c);
      if c == e && !k2.Top? {
        ChunkSizeReads(m, sh, segs, c);
      }
      assert HeadAt(m, sh, c);
    }
  }

  /** The PREV_INUSE bits after a split. */
  lemma SplitBits(m: Mem, m': Mem, sh: Shape, segs: Segs, a: int, n: int, k2: Kind)
    requires WellFormed(sh, segs) && Tagged(m, sh)
    requires CanSplit(sh, a, n, Live, k2) && !k2.Fast?
    requires SplitWrites(m, m', a, n, a + sh[a].size, k2)
    ensures PrevInuseBit(m', a) == PrevInuseBit(m, a)
    ensures PrevInuseBit(m', a + n) == 1
    ensures k2.Free? ==> PrevInuseBit(m', a + sh[a].size) == 0
    ensures k2.Live? ==> PrevInuseBit(m', a + sh[a].size) == 1
  {
    var e := a + sh[a].size;
    assert ChunkAt(sh, segs, a) && NextAt(sh, a);
    AlignedSums(n, 0);
    AlignedSums(sh[a].size, n);
    TagBits(n, PrevInuseBit(m, a));
    TagBits(sh[a].size - n, 1);
    if !k2.Top? {
      ChunkSizeReads(m, sh, segs, e);
      TagParity(sh, segs, e);
    }
  }

  /** Tags away from the chunk being split do not change. */
  lemma SplitElsewhere(m: Mem, m': Mem, sh: Shape, segs: Segs, a: int, n: int, k2: Kind, b: int)
    requires WellFormed(sh, segs) && CanSplit(sh, a, n, Live, k2)
    requires SplitWrites(m, m', a, n, a + sh[a].size, k2)
    requires b in sh && b != a && (b == a + sh[a].size ==> k2.Top?)
    ensures Head(m', b) == Head(m, b) && Rd(m', b) == Rd(m, b)
  {
    assert ChunkAt(sh, segs, a) && NextAt(sh, a) && ChunkAt(sh, segs, a + sh[a].size);
    assert ChunkAt(sh, segs, b) && Apart(sh, b, a) && Apart(sh, a, b) && Apart(sh, a + sh[a].size, b);
  }

  lemma SplitFoot(m: Mem, m': Mem, sh: Shape, segs: Segs, a: int, n: int, k2: Kind, c: int)
    requires WellFormed(sh, segs) && Tagged(m, sh)
    requires CanSplit(sh, a, n, Live, k2) && !k2.Fast?
    requires a + n !in sh && SplitWrites(m, m', a, n, a + sh[a].size, k2)
    ensures FootAt(m', Split(sh, a, n, Live, k2), c)
  {
    SplitBits(m, m', sh, segs, a, n, k2);
    if c in sh && c != a && !IsEnd(sh[c].kind) {
      var x := c + sh[c].size;
      assert FootAt(m, sh, c) && NextAt(sh, c) && Apart(sh, c, a) && Apart(sh, a, c) && ChunkAt(sh, segs, c);
      if x != a {
        SplitElsewhere(m, m', sh, segs, a, n, k2, x);
      }
    }
  }

  lemma SplitPrev(m: Mem, m': Mem, sh: Shape, segs: Segs, a: int, n: int, k2: Kind, b: int)
    requires WellFormed(sh, segs) && Tagged(m, sh)
    requires CanSplit(sh, a, n, Live, k2) && !k2.Fast?
    requires a + n !in sh && SplitWrites(m, m', a, n, a + sh[a].size, k2)
    ensures PrevAt(m', Split(sh, a, n, Live, k2), b)
  {
    SplitBits(m, m', sh, segs, a, n, k2);
    if b in sh && (b == a + sh[a].size ==> k2.Top?) {
      if b != a {
        SplitElsewhere(m, m', sh, segs, a, n, k2, b);
      }
      assert PrevAt(m, sh, b);
      if PrevInuseBit(m, b) == 0 {
        assert b - Rd(m, b) != a && b - Rd(m, b) != a + n;
      }
    }
  }

  /** Moving a block between the user and a fastbin changes no tag. */
  lemma RetagTags(m: Mem, sh: Shape, a: int, k: Kind)
    requires Tagged(m, sh) && a in sh
    requires (sh[a].kind.Live? && k.Fast?) || (sh[a].kind.Fast? && k.Live?)
    ensures Tagged(m, Retag(sh, a, k))
  {
    var t := Retag(sh, a, k);
    forall c ensures HeadAt(m, t, c) { assert HeadAt(m, sh, c); }
    forall c ensures FootAt(m, t, c) { assert FootAt(m, sh, c); }
    forall b ensures PrevAt(m, t, b) { assert PrevAt(m, sh, b); }
  }

  /** What sYSMALLOc writes over an old top of s bytes: a shrunk head and two fenceposts. */
  function FenceWrites(m: Mem, top: int, s: int): Mem {
    m[top + 4 := s - 16 + 1][top + s - 16 + 4 := 5][top + s - 16 + 8 := 5]
  }

  ghost predicate TopReady(m: Mem, sh: Shape, segs: Segs, top: int) {
    WellFormed(sh, segs) && Tagged(m, sh) && top in sh && sh[top].kind.Top? && PrevInuseBit(m, top) == 1
  }

  lemma FenceTags(m: Mem, sh: Shape, segs: Segs, top: int)
    requires TopReady(m, sh, segs, top)
    ensures Tagged(FenceWrites(m, top, sh[top].size), Fenced(sh, top))
  {
    var t, m' := Fenced(sh, top), FenceWrites(m, top, sh[top].size);
    forall c ensures HeadAt(m', t, c) { FenceHead(m, sh, segs, top, c); }
    forall c ensures FootAt(m', t, c) { FenceFoot(m, sh, segs, top, c); }
    forall b ensures PrevAt(m', t, b) { FencePrev(m, sh, segs, top, b); }
  }

  lemma FenceElsewhere(m: Mem, sh: Shape, segs: Segs, top: int, c: int)
    requires TopReady(m, sh, segs, top)
    requires c in sh && c != top
    ensures var t := Fenced(sh, top); c in t && t[c] == sh[c]
    ensures var m' := FenceWrites(m, top, sh[top].size);
            Head(m', c) == Head(m, c) && Rd(m', c + 8) == Rd(m, c + 8) && Rd(m', c) == Rd(m, c)
  {
    var s := sh[top].size;
    assert ChunkAt(sh, segs, top) && ChunkAt(sh, segs, c);
    assert Apart(sh, c, top) && Apart(sh, top, c) && Apart(sh, top, top + s - 16);
    assert c + 8 < top + 4 || c > top + s - 16 + 8;
  }

  lemma FenceBits(m: Mem, sh: Shape, segs: Segs, top: int)
    requires TopReady(m, sh, segs, top)
    ensures var s := sh[top].size; var m' := FenceWrites(m, top, s);
            PrevInuseBit(m', top) == 1 && PrevInuseBit(m', top + s - 16) == 1
  {
    assert ChunkAt(sh, segs, top);
    TagBits(sh[top].size - 16, 1);
  }

  lemma FenceHead(m: Mem, sh: Shape, segs: Segs, top: int, c: int)
    requires TopReady(m, sh, segs, top)
    ensures HeadAt(FenceWrites(m, top, sh[top].size), Fenced(sh, top), c)
  {
    assert ChunkAt(sh, segs, top);
    if c in sh && c != top {
      FenceElsewhere(m, sh, segs, top, c);
      assert HeadAt(m, sh, c);
    }
  }

  lemma FenceFoot(m: Mem, sh: Shape, segs: Segs, top: int, c: int)
    requires TopReady(m, sh, segs, top)
    ensures FootAt(FenceWrites(m, top, sh[top].size), Fenced(sh, top), c)
  {
    FenceBits(m, sh, segs, top);
    if c in sh && c != top {
      FenceElsewhere(m, sh, segs, top, c);
      if !IsEnd(sh[c].kind) {
        assert FootAt(m, sh, c) && NextAt(sh, c);
        var n := c + sh[c].size;
        if n != top {
          FenceElsewhere(m, sh, segs, top, n);
        }
      }
    }
  }

  lemma FencePrev(m: Mem, sh: Shape, segs: Segs, top: int, b: int)
    requires TopReady(m, sh, segs, top)
    ensures PrevAt(FenceWrites(m, top, sh[top].size), Fenced(sh, top), b)
  {
    FenceBits(m, sh, segs, top);
    if b in sh && b != top {
      FenceElsewhere(m, sh, segs, top, b);
      assert PrevAt(m, sh, b);
      if PrevInuseBit(m, b) == 0 {
        FenceElsewhere(m, sh, segs, top, b - Rd(m, b));
      }
    }
  }

  lemma MappedTags(m: Mem, sh: Shape, segs: Segs, brk: int, size: int)
    requires WellFormed(sh, segs) && Tagged(m, sh)
    requires FreshPages(segs, brk, size) && PageMultiple(size) && size >= 4096
    ensures Tagged(m[brk + 4 := size + 1], Mapped(sh, brk, size))
  {
    var t, m' := Mapped(sh, brk, size), m[brk + 4 := size + 1];
    MappedKeeps(sh, segs, brk, size);
    PageAligned(brk);
    PageAligned(size);
    forall c ensures HeadAt(m', t, c) { assert HeadAt(m, sh, c) && ChunkAt(sh, segs, c); }
    forall c ensures FootAt(m', t, c) { assert FootAt(m, sh, c) && ChunkAt(sh, segs, c) && NextAt(sh, c); }
    forall b ensures PrevAt(m', t, b) { assert PrevAt(m, sh, b) && ChunkAt(sh, segs, b); }
  }

  /** Only words from lo on and before hi differ. */
  ghost predicate OnlyBetween(m: Mem, m': Mem, lo: int, hi: int) {
    forall x | x < lo || hi <= x :: Rd(m', x) == Rd(m, x)
  }

  /** Only words the user of block c may store into differ. */
  ghost predicate UserWrites(m: Mem, m': Mem, c: int, size: int) {
    OnlyBetween(m, m', c + 8, c + size + 4)
  }

  /** Stores by the user into the usable words of a live block, the one shared with the next chunk's
      prev_size included, disturb no tag. */
  lemma UserWritesTags(m: Mem, m': Mem, sh: Shape, segs: Segs, c: int)
    requires WellFormed(sh, segs) && Tagged(m, sh)
    requires c in sh && sh[c].kind.Live? && UserWrites(m, m', c, sh[c].size)
    ensures Tagged(m', sh)
  {
    assert ChunkAt(sh, segs, c) && NextAt(sh, c) && FootAt(m, sh, c);
    forall a ensures HeadAt(m', sh, a) {
      assert HeadAt(m, sh, a) && ChunkAt(sh, segs, a) && Apart(sh, a, c) && Apart(sh, c, a);
    }
    forall a ensures FootAt(m', sh, a) {
      assert FootAt(m, sh, a) && ChunkAt(sh, segs, a) && NextAt(sh, a) && Apart(sh, a, c) && Apart(sh, c, a);
    }
    forall b ensures PrevAt(m', sh, b) {
      assert PrevAt(m, sh, b) && ChunkAt(sh, segs, b) && Apart(sh, b, c) && Apart(sh, c, b);
    }
  }

  /** Only the words of chunk c that hold its fd and bk pointers while it is on a list differ. */
  ghost predicate LinkWrites(m: Mem, m': Mem, c: int) {
    forall x | x < c + 8 || c + 16 <= x :: Rd(m', x) == Rd(m, x)
  }

  /** The pointers of a free or fast chunk overlay no tag. */
  lemma LinkWritesTags(m: Mem, m': Mem, sh: Shape, segs: Segs, c: int)
    requires WellFormed(sh, segs) && Tagged(m, sh)
    requires c in sh && (sh[c].kind.Free? || sh[c].kind.Fast?) && LinkWrites(m, m', c)
    ensures Tagged(m', sh)
  {
    assert ChunkAt(sh, segs, c) && NextAt(sh, c);
    forall a ensures HeadAt(m', sh, a) {
      assert HeadAt(m, sh, a) && ChunkAt(sh, segs, a) && Apart(sh, a, c) && Apart(sh, c, a);
    }
    forall a ensures FootAt(m', sh, a) {
      assert FootAt(m, sh, a) && ChunkAt(sh, segs, a) && NextAt(sh, a) && Apart(sh, a, c) && Apart(sh, c, a);
      assert a in sh && !IsEnd(sh[a].kind) ==> Apart(sh, a + sh[a].size, c) && Apart(sh, c, a + sh[a].size);
    }
    forall b ensures PrevAt(m', sh, b) {
      assert PrevAt(m, sh, b) && ChunkAt(sh, segs, b) && Apart(sh, b, c) && Apart(sh, c, b);
    }
  }
}
