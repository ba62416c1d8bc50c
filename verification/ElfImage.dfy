/** Loading the segments of an ELF executable page by page, with pages that several segments share.
    Addresses do not wrap, and allocated pages are zero-filled. */
module ElfImage {
  type byte = int

  const PAGESIZE: nat := 4096

  /** A program header; only those with load set are PT_LOAD. */
  datatype Segment = Segment(load: bool, offset: nat, paddr: nat, filesz: nat, memsz: nat)

  type Page = p: seq<byte> | |p| == 4096 witness seq(4096, _ => 0)

  /** What the code relies on: the file part lies in the file and is no longer than the memory part. */
  ghost predicate Loadable(segs: seq<Segment>, file: seq<byte>) {
    forall i | 0 <= i < |segs| && segs[i].load :: Fits(segs[i], file)
  }

  predicate Fits(s: Segment, file: seq<byte>) {
    s.filesz <= s.memsz && s.offset + s.filesz <= |file|
  }

  predicate Disjoint(s: Segment, t: Segment) {
    s.paddr + s.memsz <= t.paddr || t.paddr + t.memsz <= s.paddr
  }

  ghost predicate PairwiseDisjoint(segs: seq<Segment>) {
    forall i, j | 0 <= i < j < |segs| && segs[i].load && segs[j].load :: Disjoint(segs[i], segs[j])
  }

  /** Address x lies in the part of s that comes from the file. */
  predicate FromFile(s: Segment, x: int) {
    s.load && s.paddr <= x < s.paddr + s.filesz
  }

  /** Segment s has a byte on the page at p. */
  predicate Touches(s: Segment, p: int) {
    s.load && p < s.paddr + s.memsz && s.paddr < p + 4096
  }

  /* ---------- the image the headers describe ---------- */

  /** The byte at x: from the file where a segment says so, and zero elsewhere. */
  function ByteAt(segs: seq<Segment>, file: seq<byte>, x: int): byte {
    if segs == [] then 0
    else
      var last := segs[|segs| - 1];
      if FromFile(last, x) && 0 <= last.offset + (x - last.paddr) < |file| then file[last.offset + (x - last.paddr)]
      else ByteAt(segs[..|segs| - 1], file, x)
  }

  /** Where segments overlap the later one wins; disjoint segments cannot disagree: in the file part of any of them,
      in whatever order they come, the image holds its bytes. */
  lemma {:induction false} ByteOfSegment(segs: seq<Segment>, file: seq<byte>, x: int, i: int)
    requires Loadable(segs, file) && PairwiseDisjoint(segs) && 0 <= i < |segs| && FromFile(segs[i], x)
    ensures 0 <= segs[i].offset + (x - segs[i].paddr) < |file|
    ensures ByteAt(segs, file, x) == file[segs[i].offset + (x - segs[i].paddr)]
  {
    var n := |segs| - 1;
    assert Fits(segs[i], file);
    if i != n {
      assert segs[n].load ==> Disjoint(segs[i], segs[n]) && Fits(segs[n], file);
      assert segs[..n][i] == segs[i];
      ByteOfSegment(segs[..n], file, x, i);
    }
  }

  lemma {:induction false} ByteElsewhere(segs: seq<Segment>, file: seq<byte>, x: int)
    requires forall i | 0 <= i < |segs| :: !FromFile(segs[i], x)
    ensures ByteAt(segs, file, x) == 0
  {
    if segs != [] {
      ByteElsewhere(segs[..|segs| - 1], file, x);
    }
  }

  ghost predicate Touched(segs: seq<Segment>, p: int) {
    exists i :: 0 <= i < |segs| && Touches(segs[i], p)
  }

  lemma UntouchedIsZero(segs: seq<Segment>, file: seq<byte>, p: int, x: int)
    requires Loadable(segs, file) && !Touched(segs, p) && p <= x < p + 4096
    ensures ByteAt(segs, file, x) == 0
  {
    forall i | 0 <= i < |segs|
      ensures !FromFile(segs[i], x)
    {
      assert !Touches(segs[i], p);
      assert segs[i].load ==> Fits(segs[i], file);
    }
    ByteElsewhere(segs, file, x);
  }

  /** Segment s covers the whole page at p, so that the code allocates it without looking it up. */
  predicate Fills(s: Segment, p: int) {
    s.load && p % 4096 == 0 && s.paddr <= p && p + 4096 <= s.paddr + s.memsz
  }

  /** No page that segment n fills has been touched by an earlier segment. */
  ghost predicate FreshAt(segs: seq<Segment>, n: int, p: int) {
    0 <= n < |segs| && Fills(segs[n], p) ==> !Touched(segs[..n], p)
  }

  ghost predicate SegmentFresh(segs: seq<Segment>, n: int) {
    forall p :: FreshAt(segs, n, p)
  }

  /** No page is allocated twice. */
  ghost predicate AllocsFresh(segs: seq<Segment>) {
    forall n :: 0 <= n < |segs| ==> SegmentFresh(segs, n)
  }

  /** Disjoint segments, in any order, never allocate a page twice. */
  lemma DisjointAllocsFresh(segs: seq<Segment>)
    requires PairwiseDisjoint(segs)
    ensures AllocsFresh(segs)
  {
    forall n, p
      ensures FreshAt(segs, n, p)
    {
      if 0 <= n < |segs| && Fills(segs[n], p) {
        forall i | 0 <= i < n
          ensures !Touches(segs[..n][i], p)
        {
          assert segs[i].load ==> Disjoint(segs[i], segs[n]);
        }
      }
    }
  }

  /** Both ways for it to go wrong: a page that another segment shares, or an empty segment inside it, comes before the
      segment that fills the page. */
  lemma SharedPageAllocatedTwice()
    ensures !AllocsFresh([Segment(true, 0, 4096, 1, 1), Segment(true, 0, 4096, 0, 4096)])
    ensures !AllocsFresh([Segment(true, 0, 5000, 0, 0), Segment(true, 0, 4096, 0, 4096)])
  {
    var overlapping := [Segment(true, 0, 4096, 1, 1), Segment(true, 0, 4096, 0, 4096)];
    assert Touches(overlapping[..1][0], 4096) && !FreshAt(overlapping, 1, 4096);
    var empty := [Segment(true, 0, 5000, 0, 0), Segment(true, 0, 4096, 0, 4096)];
    assert Touches(empty[..1][0], 4096) && !FreshAt(empty, 1, 4096);
    assert !SegmentFresh(overlapping, 1) && !SegmentFresh(empty, 1);
  }

  /* ---------- pages ---------- */

  type Pages = map<int, Page>

  /** While segment n is being loaded, up to address done: page p exists exactly if it should, and its bytes are
      right. */
  ghost predicate PageOk(pages: Pages, segs: seq<Segment>, file: seq<byte>, n: nat, done: int, p: int)
    requires n < |segs|
  {
    && (p in pages <==> p % 4096 == 0 && (Touched(segs[..n], p) || (Touches(segs[n], p) && p < done)))
    && (p in pages ==> forall o :: ByteOk(pages[p], segs, file, n, done, p, o))
  }

  ghost predicate PagesOk(pages: Pages, segs: seq<Segment>, file: seq<byte>, n: nat, done: int)
    requires n < |segs|
  {
    forall p :: PageOk(pages, segs, file, n, done, p)
  }

  ghost predicate ByteOk(page: Page, segs: seq<Segment>, file: seq<byte>, n: nat, done: int, p: int, o: int)
    requires n < |segs|
  {
    0 <= o < 4096 ==> page[o] == ByteAt(if p < done then segs[..n + 1] else segs[..n], file, p + o)
  }

  /** The segments before n are loaded. */
  ghost predicate ImageOk(pages: Pages, segs: seq<Segment>, file: seq<byte>) {
    forall p :: ImagePage(pages, segs, file, p)
  }

  ghost predicate ImagePage(pages: Pages, segs: seq<Segment>, file: seq<byte>, p: int) {
    && (p in pages <==> p % 4096 == 0 && Touched(segs, p))
    && (p in pages ==> IsPage(pages[p], segs, file, p))
  }

  /** The page at p holds the bytes of the image. */
  ghost predicate IsPage(page: Page, segs: seq<Segment>, file: seq<byte>, p: int) {
    forall o :: ImageByte(page, segs, file, p, o)
  }

  ghost predicate ImageByte(page: Page, segs: seq<Segment>, file: seq<byte>, p: int, o: int) {
    0 <= o < 4096 ==> page[o] == ByteAt(segs, file, p + o)
  }

  function ZeroPage(): Page {
    seq(4096, _ => 0)
  }

  /** memcpy into a page */
  function Overwrite(page: Page, at: int, bytes: seq<byte>): Page
    requires 0 <= at && at + |bytes| <= 4096
  {
    page[..at] + bytes + page[at + |bytes|..]
  }

  /** The bytes of segment s that belong on the page at p, and where they go. */
  ghost predicate Copies(s: Segment, file: seq<byte>, p: int, at: int, bytes: seq<byte>) {
    0 <= at && at + |bytes| <= 4096 && forall o :: CopyAt(s, file, p, at, bytes, o)
  }

  ghost predicate CopyAt(s: Segment, file: seq<byte>, p: int, at: int, bytes: seq<byte>, o: int) {
    0 <= o < 4096 ==>
      && (FromFile(s, p + o) <==> at <= o < at + |bytes|)
      && (at <= o < at + |bytes| ==>
            var x := s.offset + (p + o - s.paddr);
            0 <= x < |file| && bytes[o - at] == file[x])
  }

  lemma CopyOfFirstPage(s: Segment, file: seq<byte>)
    requires s.load && Fits(s, file)
    ensures var offset := s.paddr % 4096;
            var size := if PAGESIZE - offset < s.filesz then PAGESIZE - offset else s.filesz;
            Copies(s, file, s.paddr - offset, offset, file[s.offset..s.offset + size])
  {
    var offset := s.paddr % 4096;
    var p, size := s.paddr - offset, if PAGESIZE - offset < s.filesz then PAGESIZE - offset else s.filesz;
    var bytes := file[s.offset..s.offset + size];
    forall o ensures CopyAt(s, file, p, offset, bytes, o) {
      assert p + o - s.paddr == o - offset;
    }
  }

  /** What the loop copies onto the page at p. */
  function PageBytes(s: Segment, file: seq<byte>, p: int): (bytes: seq<byte>)
    requires Fits(s, file) && s.paddr <= p
    ensures |bytes| <= 4096
  {
    if p < s.paddr + s.filesz then
      var from := s.offset + (p - s.paddr);
      var size := if PAGESIZE < s.paddr + s.filesz - p then PAGESIZE else s.paddr + s.filesz - p;
      file[from..from + size]
    else []
  }

  lemma CopyOfPage(s: Segment, file: seq<byte>, p: int)
    requires s.load && Fits(s, file) && s.paddr <= p
    ensures Copies(s, file, p, 0, PageBytes(s, file, p))
  {
    var bytes := PageBytes(s, file, p);
    forall o ensures CopyAt(s, file, p, 0, bytes, o) {
    }
  }

  /** Copying them onto the page completes it. */
  lemma CopyCompletes(page: Page, segs: seq<Segment>, file: seq<byte>, n: nat, p: int, at: int, bytes: seq<byte>)
    requires n < |segs| && Copies(segs[n], file, p, at, bytes)
    requires IsPage(page, segs[..n], file, p)
    ensures IsPage(Overwrite(page, at, bytes), segs[..n + 1], file, p)
  {
    var page', more := Overwrite(page, at, bytes), segs[..n + 1];
    forall o ensures ImageByte(page', more, file, p, o) {
      assert ImageByte(page, segs[..n], file, p, o);
      assert segs[..n + 1][..n] == segs[..n];
      assert CopyAt(segs[n], file, p, at, bytes, o);
    }
  }

  /** A page as it must be before segment n is copied onto it. */
  lemma FreshPage(segs: seq<Segment>, file: seq<byte>, p: int)
    requires Loadable(segs, file) && !Touched(segs, p)
    ensures IsPage(ZeroPage(), segs, file, p)
  {
    forall o ensures ImageByte(ZeroPage(), segs, file, p, o) {
      if 0 <= o < 4096 {
        UntouchedIsZero(segs, file, p, p + o);
      }
    }
  }

  lemma LoadablePrefix(segs: seq<Segment>, file: seq<byte>, n: nat)
    requires Loadable(segs, file) && n <= |segs|
    ensures Loadable(segs[..n], file)
  {
  }

  /** Every page below done belongs to the image of n + 1 segments, the others to that of n. */
  lemma StartSegment(pages: Pages, segs: seq<Segment>, file: seq<byte>, n: nat, done: int)
    requires n < |segs| && ImageOk(pages, segs[..n], file) && Loadable(segs, file)
    requires done <= segs[n].paddr - segs[n].paddr % 4096 && done % 4096 == 0
    ensures PagesOk(pages, segs, file, n, done)
  {
    forall p ensures PageOk(pages, segs, file, n, done, p) {
      assert ImagePage(pages, segs[..n], file, p);
      if p in pages {
        forall o ensures ByteOk(pages[p], segs, file, n, done, p, o) {
          assert ImageByte(pages[p], segs[..n], file, p, o);
          if p < done && 0 <= o < 4096 {
            NotHere(segs, file, n, p + o);
          }
        }
      }
    }
  }

  /** Where segment n has no file bytes, loading it changes nothing. */
  lemma NotHere(segs: seq<Segment>, file: seq<byte>, n: nat, x: int)
    requires n < |segs| && !FromFile(segs[n], x)
    ensures ByteAt(segs[..n + 1], file, x) == ByteAt(segs[..n], file, x)
  {
    assert segs[..n + 1][..n] == segs[..n];
  }

  lemma EndSegment(pages: Pages, segs: seq<Segment>, file: seq<byte>, n: nat, done: int)
    requires n < |segs| && Loadable(segs, file) && PagesOk(pages, segs, file, n, done)
    requires segs[n].load ==> segs[n].paddr + segs[n].memsz <= done
    ensures ImageOk(pages, segs[..n + 1], file)
  {
    var more := segs[..n + 1];
    forall p ensures ImagePage(pages, more, file, p) {
      assert PageOk(pages, segs, file, n, done, p);
      TouchedNext(segs, n, p);
      if p in pages {
        forall o ensures ImageByte(pages[p], more, file, p, o) {
          assert ByteOk(pages[p], segs, file, n, done, p, o);
          if p >= done && 0 <= o < 4096 {
            assert segs[n].load ==> Fits(segs[n], file);
            NotHere(segs, file, n, p + o);
          }
        }
      }
    }
  }

  lemma TouchedNext(segs: seq<Segment>, n: nat, p: int)
    requires n < |segs|
    ensures Touched(segs[..n + 1], p) <==> Touched(segs[..n], p) || Touches(segs[n], p)
  {
    if Touched(segs[..n], p) {
      var i :| 0 <= i < n && Touches(segs[..n][i], p);
      assert segs[..n + 1][i] == segs[..n][i];
    }
    if Touches(segs[n], p) {
      assert segs[..n + 1][n] == segs[n];
    }
    if Touched(segs[..n + 1], p) && !Touches(segs[n], p) {
      var i :| 0 <= i < n + 1 && Touches(segs[..n + 1][i], p);
      assert segs[..n][i] == segs[..n + 1][i];
    }
  }

  /** Page p is completed: everything below the next page is done. */
  lemma NextPage(pages: Pages, pages': Pages, segs: seq<Segment>, file: seq<byte>, n: nat, p: int, page: Page)
    requires n < |segs| && p % 4096 == 0 && Touches(segs[n], p)
    requires PagesOk(pages, segs, file, n, p)
    requires pages' == pages[p := page] && IsPage(page, segs[..n + 1], file, p)
    ensures PagesOk(pages', segs, file, n, p + 4096)
  {
    var next := p + 4096;
    forall q ensures PageOk(pages', segs, file, n, next, q) {
      assert PageOk(pages, segs, file, n, p, q);
      if q in pages' {
        forall o ensures ByteOk(pages'[q], segs, file, n, next, q, o) {
          if q == p {
            assert ImageByte(page, segs[..n + 1], file, p, o);
          } else {
            assert q in pages && q % 4096 == 0 && ByteOk(pages[q], segs, file, n, p, q, o);
            assert q < p + 4096 ==> q < p;
          }
        }
      }
    }
  }

  class Loader {
    var pages: Pages

    constructor ()
      ensures pages == map[]
    {
      pages := map[];
    }

    /** The alloc callback. */
    method Alloc(addr: int)
      requires addr !in pages
      modifies this
      ensures pages == old(pages)[addr := ZeroPage()]
    {
      pages := pages[addr := ZeroPage()];
    }

    /** Brings the page at p in, by lookup or alloc, and copies onto it what segment n has for it. Returns true, with
        nothing changed, if alloc would be called for a page that exists. */
    method FillPage(p: int, shared: bool, at: int, bytes: seq<byte>, ghost segs: seq<Segment>, ghost file: seq<byte>,
                    ghost n: nat)
      returns (twice: bool)
      requires n < |segs| && Loadable(segs, file) && p % 4096 == 0 && Touches(segs[n], p)
      requires PagesOk(pages, segs, file, n, p)
      requires Copies(segs[n], file, p, at, bytes)
      modifies this
      ensures twice <==> !shared && Touched(segs[..n], p)
      ensures twice ==> pages == old(pages)
      ensures !twice ==> PagesOk(pages, segs, file, n, p + 4096)
    {
      ghost var before := pages;
      assert PageOk(pages, segs, file, n, p, p);
      if !shared && p in pages {
        return true;
      }
      var found := p in pages;
      if !found {
        LoadablePrefix(segs, file, n);
        FreshPage(segs[..n], file, p);
        Alloc(p);
      } else {
        assert forall o :: ByteOk(pages[p], segs, file, n, p, p, o);
      }
      forall o ensures ImageByte(pages[p], segs[..n], file, p, o) {
        assert found ==> ByteOk(pages[p], segs, file, n, p, p, o);
      }
      CopyCompletes(pages[p], segs, file, n, p, at, bytes);
      var page := Overwrite(pages[p], at, bytes);
      pages := pages[p := page];
      NextPage(before, pages, segs, file, n, p, page);
      twice := false;
    }

    /** One round of the loop over program headers. Stops if a page would be allocated twice. */
    method LoadSegment(segs: seq<Segment>, file: seq<byte>, n: nat) returns (twice: bool)
      requires n < |segs| && segs[n].load && Loadable(segs, file) && ImageOk(pages, segs[..n], file)
      modifies this
      ensures twice <==> !SegmentFresh(segs, n)
      ensures !twice ==> ImageOk(pages, segs[..n + 1], file)
    {
      hide Copies, PagesOk, PageBytes, ImageOk, Loadable, Touched;
      var ph := segs[n];
      LoadableFits(segs, file, n);
      var addr := ph.paddr;
      var offset := ph.paddr % 4096;
      FirstPage(ph);
      StartSegment(pages, segs, file, n, addr - offset);
      if offset != 0 {
        var size := if PAGESIZE - offset < ph.filesz then PAGESIZE - offset else ph.filesz;
        CopyOfFirstPage(ph, file);
        var _ := FillPage(addr - offset, true, offset, file[ph.offset..ph.offset + size], segs, file, n);
        addr := addr - offset + PAGESIZE;
      }
      while addr < ph.paddr + ph.memsz
        invariant addr % 4096 == 0 && ph.paddr <= addr
        invariant PagesOk(pages, segs, file, n, addr)
        invariant forall p | p < addr :: FreshAt(segs, n, p)
        decreases ph.paddr + ph.memsz - addr
      {
        var shared := ph.paddr + ph.memsz < addr + PAGESIZE;
        CopyOfPage(ph, file, addr);
        twice := FillPage(addr, shared, 0, PageBytes(ph, file, addr), segs, file, n);
        assert twice ==> !FreshAt(segs, n, addr);
        if twice {
          return;
        }
        forall p | p < addr + PAGESIZE
          ensures FreshAt(segs, n, p)
        {
          assert p > addr ==> p % 4096 != 0;
        }
        addr := addr + PAGESIZE;
      }
      forall p ensures FreshAt(segs, n, p) {}
      EndSegment(pages, segs, file, n, addr);
      twice := false;
    }

    /** loader_elf_load, once the header has been accepted. A page is allocated twice exactly if some segment fills a
        page that an earlier one touches. Otherwise the pages allocated are exactly those that a loadable segment
        touches, and they hold the image the headers describe. */
    method Load(segs: seq<Segment>, file: seq<byte>) returns (twice: bool)
      requires pages == map[] && Loadable(segs, file)
      modifies this
      ensures twice <==> !AllocsFresh(segs)
      ensures !twice ==> ImageOk(pages, segs, file)
    {
      var i := 0;
      while i < |segs|
        invariant 0 <= i <= |segs| && ImageOk(pages, segs[..i], file)
        invariant forall n | 0 <= n < i :: SegmentFresh(segs, n)
      {
        if segs[i].load {
          twice := LoadSegment(segs, file, i);
          if twice {
            return;
          }
        } else {
          StartSegment(pages, segs, file, i, segs[i].paddr - segs[i].paddr % 4096);
          EndSegment(pages, segs, file, i, segs[i].paddr - segs[i].paddr % 4096);
        }
        i := i + 1;
      }
      assert segs[..|segs|] == segs;
      twice := false;
    }
  }

  lemma LoadableFits(segs: seq<Segment>, file: seq<byte>, n: nat)
    requires Loadable(segs, file) && n < |segs| && segs[n].load
    ensures Fits(segs[n], file)
  {
  }

  lemma FirstPage(s: Segment)
    ensures var p := s.paddr - s.paddr % 4096; p % 4096 == 0 && (p + 4096) % 4096 == 0
  {
  }
}
