/** What programs rely on: any sequence of malloc, memalign, realloc, free and stores behaves like a map
    from blocks to their contents. */
module MallocClient {
  import opened MallocSizes
  import opened MallocShape
  import opened MallocTags
  import opened MallocRelease
  import opened MallocSearch
  import opened MallocAlign
  import opened MallocArena

  /** block -> bytes asked for, and block -> word index -> the word last stored there */
  datatype Client = Client(held: map<int, int>, data: map<int, map<int, int>>)

  /** brk is what mmap would answer during the call. */
  datatype Op =
    | Alloc(bytes: nat, brk: int)
    | Align(alignment: nat, bytes: nat, brk: int)
    | Resize(p: int, bytes: nat, brk: int)
    | Drop(p: int)
    | Write(p: int, k: nat, w: int)

  /** The rules programs must obey: use only blocks they hold, within the bytes they asked for. */
  predicate Legal(c: Client, op: Op) {
    match op
    case Alloc(_, _) => true
    case Align(alignment, bytes, _) =>
      alignment <= 0x8000_0000 && (RequestOutOfRange(bytes) || !PaddingWraps(alignment, bytes))
    case Resize(p, _, _) => p == 0 || (p in c.held && p in c.data)
    case Drop(p) => p == 0 || p in c.held
    case Write(p, k, _) => p in c.held && p in c.data && 4 * k + 4 <= c.held[p]
  }

  /** The words that lie within the first n bytes. */
  function Clip(words: map<int, int>, n: int): map<int, int> {
    words - (set k | k in words && 4 * k + 4 > n)
  }

  /** The abstract heap after an operation that returned r. */
  function Step(c: Client, op: Op, r: int): Client {
    if !Legal(c, op) then c
    else match op
      case Alloc(bytes, _) => if r == 0 then c else Client(c.held[r := bytes], c.data[r := map[]])
      case Align(_, bytes, _) => if r == 0 then c else Client(c.held[r := bytes], c.data[r := map[]])
      case Resize(p, bytes, _) =>
        if r == 0 then c
        else if p == 0 then Client(c.held[r := bytes], c.data[r := map[]])
        else Client((c.held - {p})[r := bytes], (c.data - {p})[r := Clip(c.data[p], bytes)])
      case Drop(p) => Client(c.held - {p}, c.data - {p})
      case Write(p, k, w) => c.(data := c.data[p := c.data[p][k := w]])
  }

  function Run(ops: seq<Op>, results: seq<int>): Client
    requires |ops| == |results|
  {
    if ops == [] then Client(map[], map[])
    else
      var n := |ops| - 1;
      Step(Run(ops[..n], results[..n]), ops[n], results[n])
  }

  /** Block p of the client is live, large enough, and reads back what was stored. */
  ghost predicate BlockAgrees(m: Mem, lives: map<int, int>, c: Client, p: int) {
    && (p in c.held <==> p in lives) && (p in c.held <==> p in c.data)
    && (p in c.held ==> 0 <= c.held[p] && c.held[p] + 4 <= lives[p])
    && (p in c.held ==>
          forall k | k in c.data[p] :: 0 <= k && 4 * k + 4 <= c.held[p] && Rd(m, p + 8 + 4 * k) == c.data[p][k])
  }

  ghost predicate Agrees(m: Mem, lives: map<int, int>, c: Client) {
    forall p :: BlockAgrees(m, lives, c, p)
  }

  lemma KeptAgrees(m: Mem, m': Mem, lives: map<int, int>, c: Client, p: int)
    requires BlockAgrees(m, lives, c, p) && (p in lives ==> SameWords(m, m', p, lives[p]))
    ensures BlockAgrees(m', lives, c, p)
  {
  }

  lemma AllocAgrees(m: Mem, m': Mem, lives: map<int, int>, lives': map<int, int>, c: Client, r: int, bytes: nat)
    requires Agrees(m, lives, c) && BlocksKept(m, m', lives)
    requires r !in lives && r in lives' && lives' == lives[r := lives'[r]] && bytes + 4 <= lives'[r]
    ensures Agrees(m', lives', Client(c.held[r := bytes], c.data[r := map[]]))
  {
    var c' := Client(c.held[r := bytes], c.data[r := map[]]);
    forall p ensures BlockAgrees(m', lives', c', p) {
      assert BlockAgrees(m, lives, c, p);
      assert p in lives ==> SameWords(m, m', p, lives[p]);
      KeptAgrees(m, m', lives, c, p);
    }
  }

  lemma SameAgrees(m: Mem, m': Mem, lives: map<int, int>, c: Client)
    requires Agrees(m, lives, c) && BlocksKept(m, m', lives)
    ensures Agrees(m', lives, c)
  {
    forall p ensures BlockAgrees(m', lives, c, p) {
      assert BlockAgrees(m, lives, c, p);
      assert p in lives ==> SameWords(m, m', p, lives[p]);
      KeptAgrees(m, m', lives, c, p);
    }
  }

  lemma DropAgrees(m: Mem, m': Mem, lives: map<int, int>, c: Client, q: int)
    requires Agrees(m, lives, c) && BlocksKept(m, m', lives - {q})
    ensures Agrees(m', lives - {q}, Client(c.held - {q}, c.data - {q}))
  {
    var lives', c' := lives - {q}, Client(c.held - {q}, c.data - {q});
    forall p ensures BlockAgrees(m', lives', c', p) {
      assert BlockAgrees(m, lives, c, p);
      assert p in lives' ==> SameWords(m, m', p, lives'[p]);
      if p != q {
        KeptAgrees(m, m', lives, c, p);
      }
    }
  }

  lemma ResizeAgrees(m: Mem, m': Mem, lives: map<int, int>, lives': map<int, int>, c: Client, p: int, r: int,
                     bytes: nat)
    requires Agrees(m, lives, c) && p in c.held && p in c.data
    requires Resized(m, lives, m', lives', p, r, Request2Size(bytes))
    ensures Agrees(m', lives', Client((c.held - {p})[r := bytes], (c.data - {p})[r := Clip(c.data[p], bytes)]))
  {
    Request2SizeIsLeast(bytes);
    hide Request2Size;
    var c' := Client((c.held - {p})[r := bytes], (c.data - {p})[r := Clip(c.data[p], bytes)]);
    assert BlockAgrees(m, lives, c, p);
    forall q ensures BlockAgrees(m', lives', c', q) {
      assert BlockAgrees(m, lives, c, q);
      if q != r && q != p {
        assert q in lives - {p} ==> SameWords(m, m', q, lives[q]);
        KeptAgrees(m, m', lives, c, q);
      }
    }
  }

  lemma WriteAgrees(m: Mem, lives: map<int, int>, c: Client, p: int, k: nat, w: int)
    requires Agrees(m, lives, c) && p in c.held && p in c.data && 4 * k + 4 <= c.held[p]
    requires BlocksKept(m, m[p + 8 + 4 * k := w], lives - {p})
    ensures Agrees(m[p + 8 + 4 * k := w], lives, c.(data := c.data[p := c.data[p][k := w]]))
  {
    var m', c' := m[p + 8 + 4 * k := w], c.(data := c.data[p := c.data[p][k := w]]);
    forall q ensures BlockAgrees(m', lives, c', q) {
      assert BlockAgrees(m, lives, c, q);
      if q != p {
        assert q in lives ==> SameWords(m, m', q, (lives - {p})[q]);
        KeptAgrees(m, m', lives, c, q);
      }
    }
  }

  /** One operation of the program, answered by the allocator. */
  method Perform(a: Arena, c: Client, op: Op) returns (r: int)
    requires a.Valid() && Agrees(a.mem, a.views.lives, c)
    modifies a
    ensures a.Valid() && Agrees(a.mem, a.views.lives, Step(c, op, r))
  {
    r := 0;
    if Legal(c, op) {
      hide Arena.Valid, Agrees, BlocksKept, Resized, Request2Size, RoundedAlignment, FreshPages, Clip;
      ghost var m, lives := a.mem, a.views.lives;
      match op
      case Alloc(bytes, brk) =>
        Request2SizeIsLeast(bytes);
        r := a.Malloc(bytes, if MmapAnswer(a.segs, brk, Request2Size(bytes)) then brk else -1);
        Allocated(m, a.mem, lives, a.views.lives, c, r, bytes);
      case Align(alignment, bytes, brk) =>
        Request2SizeIsLeast(bytes);
        var nb := Request2Size(MemalignRequest(alignment, bytes));
        var result := a.Memalign(alignment, bytes, if MmapAnswer(a.segs, brk, nb) then brk else -1);
        r := if result.Block? then result.p else 0;
        Allocated(m, a.mem, lives, a.views.lives, c, r, bytes);
      case Resize(p, bytes, brk) =>
        Request2SizeIsLeast(bytes);
        HeldIsLive(m, lives, c, p);
        r := a.Realloc(p, bytes, if MmapAnswer(a.segs, brk, Request2Size(bytes)) then brk else -1);
        if p == 0 || r == 0 {
          Allocated(m, a.mem, lives, a.views.lives, c, r, bytes);
        } else {
          ResizeAgrees(m, a.mem, lives, a.views.lives, c, p, r, bytes);
        }
      case Drop(p) =>
        HeldIsLive(m, lives, c, p);
        a.Free(p);
        DropAgrees(m, a.mem, lives, c, p);
      case Write(p, k, w) =>
        HeldIsLive(m, lives, c, p);
        a.Store(p, p + 8 + 4 * k, w);
        WriteAgrees(m, lives, c, p, k, w);
    }
  }

  lemma HeldIsLive(m: Mem, lives: map<int, int>, c: Client, p: int)
    requires Agrees(m, lives, c)
    ensures p in c.held ==> p in lives && c.held[p] + 4 <= lives[p]
  {
    assert BlockAgrees(m, lives, c, p);
  }

  /** The outcome of a call that hands out a new block, or fails. */
  lemma Allocated(m: Mem, m': Mem, lives: map<int, int>, lives': map<int, int>, c: Client, r: int, bytes: nat)
    requires Agrees(m, lives, c) && BlocksKept(m, m', lives)
    requires if r == 0 then lives' == lives
             else r !in lives && r in lives' && lives' == lives[r := lives'[r]] && bytes + 4 <= lives'[r]
    ensures Agrees(m', lives', if r == 0 then c else Client(c.held[r := bytes], c.data[r := map[]]))
  {
    if r == 0 {
      SameAgrees(m, m', lives, c);
    } else {
      AllocAgrees(m, m', lives, lives', c, r, bytes);
    }
  }

  /** In any run the blocks a program holds are aligned and do not overlap. */
  ghost predicate Separate(c: Client) {
    forall p, q | p in c.held && q in c.held :: (p + 8) % 8 == 0 && (p < q ==> p + 8 + c.held[p] <= q + 8)
  }

  lemma HeldApart(a: Arena, c: Client)
    requires a.Valid() && Agrees(a.mem, a.views.lives, c)
    ensures Separate(c)
  {
    StateParts(a.mem, a.shape, a.segs, a.top, a.views, a.fast, a.bins, a.binmap, a.flags);
    hide StateOk;
    forall p, q | p in c.held && q in c.held
      ensures (p + 8) % 8 == 0 && (p < q ==> p + 8 + c.held[p] <= q + 8)
    {
      HeldIsLive(a.mem, a.views.lives, c, p);
      HeldIsLive(a.mem, a.views.lives, c, q);
      LiveReads(a.mem, a.shape, a.segs, a.top, a.views, p);
      LiveReads(a.mem, a.shape, a.segs, a.top, a.views, q);
      if p < q {
        LiveBlocksApart(a.mem, a.shape, a.segs, a.top, a.views, p, q);
      }
    }
  }

  /** Any sequence of operations, from a fresh allocator: whatever the program stored and did not
      overwrite or give back is still there, in blocks that do not overlap. */
  method Session(ops: seq<Op>) returns (a: Arena, results: seq<int>)
    ensures fresh(a) && a.Valid() && |results| == |ops|
    ensures Agrees(a.mem, a.views.lives, Run(ops, results))
    ensures Separate(Run(ops, results))
  {
    a := new Arena();
    results := [];
    var c := Client(map[], map[]);
    for i := 0 to |ops|
      invariant fresh(a) && a.Valid() && |results| == i
      invariant c == Run(ops[..i], results) && Agrees(a.mem, a.views.lives, c)
    {
      var r := Perform(a, c, ops[i]);
      assert ops[..i + 1][..i] == ops[..i] && (results + [r])[..i] == results;
      c := Step(c, ops[i], r);
      results := results + [r];
    }
    assert ops[..|ops|] == ops;
    HeldApart(a, c);
  }
}
