/** The physical layout of the arena: which chunk starts where, how large it is and what it is used for.
    A shape is the reference the boundary tags and the free lists are checked against. */
module MallocShape {
  import opened MallocSizes

  /** What a chunk is used for.
      - Live: handed out to the user
      - Fast: freed into a fastbin (still tagged as in use)
      - Free: coalesced and held by the unsorted list or a bin
      - Top: the chunk bordering the end of the newest segment
      - Sliver, Fence: what is left of an old top once a new segment replaced it */
  datatype Kind = Live | Fast | Free | Top | Sliver | Fence

  datatype Chunk = Chunk(size: int, kind: Kind, base: int)

  /** chunk address -> chunk */
  type Shape = map<int, Chunk>

  /** base address of a mapped segment -> its end address */
  type Segs = map<int, int>

  /** Chunks that end their segment. */
  predicate IsEnd(k: Kind) {
    k.Top? || k.Fence?
  }

  predicate LegalSize(size: int, k: Kind) {
    match k
    case Sliver => size == 8
    case Fence => size == 16
    case _ => size >= MINSIZE
  }

  // The clauses of WellFormed are instantiated only where a proof names them.

  ghost predicate ChunkAt(sh: Shape, segs: Segs, a: int) {
    a in sh ==>
      var c := sh[a];
      && 0 < a && Aligned(a)
      && Aligned(c.size) && LegalSize(c.size, c.kind)
      && c.base in segs
      && c.base <= a && a + c.size <= segs[c.base]
      && (IsEnd(c.kind) <==> a + c.size == segs[c.base])
  }

  ghost predicate Apart(sh: Shape, a: int, b: int) {
    a in sh && b in sh && a < b ==> a + sh[a].size <= b
  }

  /** A chunk that does not end its segment is followed by another chunk of the same segment. */
  ghost predicate NextAt(sh: Shape, a: int) {
    a in sh && !IsEnd(sh[a].kind) ==> a + sh[a].size in sh && sh[a + sh[a].size].base == sh[a].base
  }

  ghost predicate SegAt(sh: Shape, segs: Segs, b: int) {
    b in segs ==>
      && 0 < b < segs[b] <= WORD_LIMIT && Aligned(b) && Aligned(segs[b])
      && b in sh && sh[b].base == b
  }

  ghost predicate SegsApart(segs: Segs, b: int, c: int) {
    b in segs && c in segs && b < c ==> segs[b] <= c
  }

  /** The chunks are disjoint, aligned, of legal sizes, and follow one another from the base to the end of each
      segment. */
  ghost predicate WellFormed(sh: Shape, segs: Segs) {
    && (forall a :: ChunkAt(sh, segs, a))
    && (forall a, b :: Apart(sh, a, b))
    && (forall a :: NextAt(sh, a))
    && (forall b :: SegAt(sh, segs, b))
    && (forall b, c :: SegsApart(segs, b, c))
  }

  ghost predicate CoalescedAt(sh: Shape, a: int) {
    a in sh && sh[a].kind.Free? && a + sh[a].size in sh ==>
      !sh[a + sh[a].size].kind.Free? && !sh[a + sh[a].size].kind.Top?
  }

  /** No free chunk is followed by another free chunk or by top. */
  ghost predicate Coalesced(sh: Shape) {
    forall a :: CoalescedAt(sh, a)
  }

  /** Before the first mapping there are no chunks; afterwards exactly one of them is top. */
  ghost predicate OneTop(sh: Shape, top: int) {
    if top == 0 then sh == map[]
    else top in sh && sh[top].kind.Top? && (forall a | a in sh && sh[a].kind.Top? :: a == top)
  }

  ghost function TopSize(sh: Shape, top: int): int {
    if top in sh && sh[top].kind.Top? then sh[top].size else 0
  }

  /** The chunks by use, address -> size: held by the user, by the fastbins, by the unsorted list and bins. */
  datatype Views = Views(lives: map<int, int>, fasts: map<int, int>, frees: map<int, int>)

  ghost predicate Holds(v: map<int, int>, sh: Shape, a: int, k: Kind) {
    && (a in v <==> a in sh && sh[a].kind == k)
    && (a in v ==> v[a] == sh[a].size)
  }

  ghost predicate ViewAt(sh: Shape, v: Views, a: int) {
    Holds(v.lives, sh, a, Live) && Holds(v.fasts, sh, a, Fast) && Holds(v.frees, sh, a, Free)
  }

  ghost predicate Viewed(sh: Shape, v: Views) {
    forall a :: ViewAt(sh, v, a)
  }

  /* ---------- tiling ---------- */

  /** Starting at any chunk, the chunks up to the end of the segment leave no byte uncovered. */
  lemma {:induction false} CoveredFrom(sh: Shape, segs: Segs, c: int, x: int) returns (a: int)
    requires WellFormed(sh, segs)
    requires c in sh && sh[c].base in segs && c <= x < segs[sh[c].base]
    ensures a in sh && a <= x < a + sh[a].size && sh[a].base == sh[c].base
    decreases x - c
  {
    if x < c + sh[c].size {
      a := c;
    } else {
      assert ChunkAt(sh, segs, c) && NextAt(sh, c);
      a := CoveredFrom(sh, segs, c + sh[c].size, x);
    }
  }

  /** Chunks tile every segment: each byte of a segment lies in exactly one chunk, and no chunk leaves its segment. */
  lemma ChunksTileSegments(sh: Shape, segs: Segs, b: int, x: int) returns (a: int)
    requires WellFormed(sh, segs)
    requires b in segs && b <= x < segs[b]
    ensures a in sh && a <= x < a + sh[a].size
    ensures b <= a && a + sh[a].size <= segs[b]
    ensures forall c | c in sh && c <= x < c + sh[c].size :: c == a
  {
    assert SegAt(sh, segs, b);
    a := CoveredFrom(sh, segs, b, x);
    assert ChunkAt(sh, segs, a);
    forall c | c in sh && c <= x < c + sh[c].size
      ensures c == a
    {
      assert Apart(sh, c, a) && Apart(sh, a, c);
    }
  }

  /* ---------- changes of shape ---------- */

  function Retag(sh: Shape, a: int, k: Kind): Shape
    requires a in sh
  {
    sh[a := sh[a].(kind := k)]
  }

  /** Chunk a is cut after n bytes; the front becomes k1 and the rest k2. */
  function Split(sh: Shape, a: int, n: int, k1: Kind, k2: Kind): Shape
    requires a in sh
  {
    sh[a := Chunk(n, k1, sh[a].base)][a + n := Chunk(sh[a].size - n, k2, sh[a].base)]
  }

  function Within(sh: Shape, lo: int, hi: int): set<int> {
    set a | a in sh && lo <= a < hi
  }

  /** All chunks from lo up to hi become one chunk of kind k. */
  function Fuse(sh: Shape, lo: int, hi: int, k: Kind): Shape
    requires lo in sh
  {
    (sh - Within(sh, lo, hi))[lo := Chunk(hi - lo, k, sh[lo].base)]
  }

  lemma RetagKeeps(sh: Shape, segs: Segs, a: int, k: Kind)
    requires WellFormed(sh, segs) && a in sh
    requires sh[a].size >= MINSIZE && !IsEnd(sh[a].kind) && !IsEnd(k) && !k.Sliver?
    ensures WellFormed(Retag(sh, a, k), segs)
  {
    var t := Retag(sh, a, k);
    forall x ensures ChunkAt(t, segs, x) { assert ChunkAt(sh, segs, x); }
    forall x, y ensures Apart(t, x, y) { assert Apart(sh, x, y); }
    forall x ensures NextAt(t, x) { assert NextAt(sh, x); }
    forall b ensures SegAt(t, segs, b) { assert SegAt(sh, segs, b); }
  }

  predicate CanSplit(sh: Shape, a: int, n: int, k1: Kind, k2: Kind) {
    && a in sh
    && Aligned(n) && MINSIZE <= n <= sh[a].size - MINSIZE
    && (k1.Live? || k1.Fast? || k1.Free?)
    && !k2.Sliver? && !k2.Fence?
    && (k2.Top? <==> IsEnd(sh[a].kind))
  }

  lemma SplitKeeps(sh: Shape, segs: Segs, a: int, n: int, k1: Kind, k2: Kind)
    requires WellFormed(sh, segs) && CanSplit(sh, a, n, k1, k2)
    ensures a + n !in sh
    ensures WellFormed(Split(sh, a, n, k1, k2), segs)
  {
    var t := Split(sh, a, n, k1, k2);
    var m := a + n;
    assert ChunkAt(sh, segs, a) && NextAt(sh, a) && Apart(sh, a, m);
    forall x ensures ChunkAt(t, segs, x) { assert ChunkAt(sh, segs, x); }
    forall x, y ensures Apart(t, x, y) {
      assert Apart(sh, x, y) && Apart(sh, x, a) && Apart(sh, a, y) && Apart(sh, a, x) && Apart(sh, y, a);
    }
    forall x ensures NextAt(t, x) { assert NextAt(sh, x); }
    forall b ensures SegAt(t, segs, b) { assert SegAt(sh, segs, b); }
  }

  predicate CanFuse(sh: Shape, segs: Segs, lo: int, hi: int, k: Kind) {
    && lo in sh && sh[lo].base in segs
    && MINSIZE <= hi - lo
    && (k.Live? || k.Free? || k.Top?)
    && (k.Top? ==> hi == segs[sh[lo].base])
    && (!k.Top? ==> hi in sh && sh[hi].base == sh[lo].base)
  }

  lemma FuseKeeps(sh: Shape, segs: Segs, lo: int, hi: int, k: Kind)
    requires WellFormed(sh, segs) && CanFuse(sh, segs, lo, hi, k)
    ensures WellFormed(Fuse(sh, lo, hi, k), segs)
  {
    var t := Fuse(sh, lo, hi, k);
    assert ChunkAt(sh, segs, lo) && ChunkAt(sh, segs, hi) && SegAt(sh, segs, sh[lo].base);
    AlignedSums(hi, lo);
    forall x ensures ChunkAt(t, segs, x) { assert ChunkAt(sh, segs, x); }
    forall x, y ensures Apart(t, x, y) { assert Apart(sh, x, y); }
    forall x ensures NextAt(t, x) {
      assert NextAt(sh, x) && ChunkAt(sh, segs, x) && Apart(sh, x, lo) && Apart(sh, x, hi);
    }
    forall b ensures SegAt(t, segs, b) {
      assert SegAt(sh, segs, b) && SegsApart(segs, sh[lo].base, b);
    }
  }

  /* ---------- a new segment ---------- */

  /** A mapping of size bytes at brk that overlaps no segment in use. */
  predicate FreshPages(segs: Segs, brk: int, size: int) {
    && 0 < brk && PageMultiple(brk) && brk + size <= WORD_LIMIT
    && (forall b | b in segs :: segs[b] <= brk || brk + size <= b)
  }

  /** What remains of top once fenceposts are written over its last 16 bytes. */
  function Fenced(sh: Shape, top: int): Shape
    requires top in sh
  {
    var Chunk(s, _, base) := sh[top];
    var fence := top + s - 16;
    if s == 16 then sh[top := Chunk(16, Fence, base)]
    else sh[top := Chunk(s - 16, if s == 24 then Sliver else Live, base)][fence := Chunk(16, Fence, base)]
  }

  lemma FencedKeeps(sh: Shape, segs: Segs, top: int)
    requires WellFormed(sh, segs) && top in sh && sh[top].kind.Top?
    ensures WellFormed(Fenced(sh, top), segs)
  {
    var t := Fenced(sh, top);
    var fence := top + sh[top].size - 16;
    assert ChunkAt(sh, segs, top) && Apart(sh, top, fence);
    forall x ensures ChunkAt(t, segs, x) { assert ChunkAt(sh, segs, x); }
    forall x, y ensures Apart(t, x, y) {
      assert Apart(sh, x, y) && Apart(sh, x, top) && Apart(sh, top, y) && Apart(sh, top, x) && Apart(sh, y, top);
    }
    forall x ensures NextAt(t, x) { assert NextAt(sh, x); }
    forall b ensures SegAt(t, segs, b) { assert SegAt(sh, segs, b); }
  }

  function Mapped(sh: Shape, brk: int, size: int): Shape {
    sh[brk := Chunk(size, Top, brk)]
  }

  lemma MappedKeeps(sh: Shape, segs: Segs, brk: int, size: int)
    requires WellFormed(sh, segs)
    requires FreshPages(segs, brk, size) && PageMultiple(size) && size >= 4096
    ensures brk !in sh && brk !in segs
    ensures WellFormed(Mapped(sh, brk, size), segs[brk := brk + size])
  {
    PageAligned(brk);
    PageAligned(size);
    AlignedSums(brk, size);
    hide PageMultiple, Aligned;
    assert ChunkAt(sh, segs, brk) && SegAt(sh, segs, brk);
    var t := Mapped(sh, brk, size);
    var segs' := segs[brk := brk + size];
    forall x ensures ChunkAt(t, segs', x) { assert ChunkAt(sh, segs, x); }
    forall x, y ensures Apart(t, x, y) {
      assert Apart(sh, x, y) && ChunkAt(sh, segs, x) && ChunkAt(sh, segs, y);
    }
    forall x ensures NextAt(t, x) { assert NextAt(sh, x); }
    forall b ensures SegAt(t, segs', b) { assert SegAt(sh, segs, b); }
    forall b, c ensures SegsApart(segs', b, c) {
      assert SegsApart(segs, b, c) && SegAt(sh, segs, b) && SegAt(sh, segs, c);
    }
  }
}
