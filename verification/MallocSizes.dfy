/** Size arithmetic of the allocator: padding of requests and the index of the bin
    that holds chunks of a given size (4-byte SIZE_SZ, 8-byte alignment). */
module MallocSizes {
  import opened BitWords

  const SIZE_SZ: nat := 4
  const ALIGN_MASK: nat := 7
  const MINSIZE: nat := 16
  const WORD_LIMIT: nat := 0x1_0000_0000
  const MMAP_AS_MORECORE_SIZE: nat := 16 * 4096

  const NBINS: nat := 96
  const NSMALLBINS: nat := 32
  const MIN_LARGE_SIZE: nat := 256
  /** request2size of the default M_MXFAST (64). */
  const MAX_FAST: nat := 72

  /** MALLOC_ALIGNMENT is 8. */
  predicate Aligned(x: int) {
    x % 8 == 0
  }

  /** l4_min_page_size is 4096. */
  predicate PageMultiple(x: int) {
    x % 4096 == 0
  }

  lemma PageAligned(x: int)
    requires PageMultiple(x)
    ensures Aligned(x)
  {
    assert x == 4096 * (x / 4096);
  }

  lemma AlignedSums(x: int, y: int)
    requires Aligned(x) && Aligned(y)
    ensures Aligned(x + y) && Aligned(x - y)
    ensures x % 4 == 0 && (x - y) % 4 == 0
  {
    var i, j := x / 8, y / 8;
    assert x == 8 * i && y == 8 * j;
  }

  /* ---------- request2size ---------- */

  predicate RequestOutOfRange(req: nat) {
    req >= WORD_LIMIT - 2 * MINSIZE
  }

  /** n & ~7 */
  function Mask8(n: nat): nat {
    n - n % 8
  }

  function Request2Size(req: nat): nat {
    if req + SIZE_SZ + ALIGN_MASK < MINSIZE then MINSIZE else Mask8(req + SIZE_SZ + ALIGN_MASK)
  }

  /** The padded size is the smallest legal chunk size with room for the request and its header word. */
  lemma Request2SizeIsLeast(req: nat)
    ensures var nb := Request2Size(req);
            && Aligned(nb) && nb >= MINSIZE && nb >= req + SIZE_SZ
            && (forall s: nat :: Aligned(s) && s >= MINSIZE && s >= req + SIZE_SZ ==> nb <= s)
            && (if RequestOutOfRange(req) then nb + 2 * MINSIZE > WORD_LIMIT else nb + MINSIZE < WORD_LIMIT)
  {
  }

  /** A padded size survives the round trip that the retry in sYSMALLOc and the
      copying path of rEALLOc make through a request of nb - MALLOC_ALIGN_MASK bytes. */
  lemma RetryRequestsSameSize(nb: nat)
    requires Aligned(nb) && nb >= MINSIZE
    ensures nb - ALIGN_MASK >= 0 && Request2Size(nb - ALIGN_MASK) == nb
  {
  }

  /* ---------- the branch-free logarithm ---------- */

  /** Unsigned 32-bit a - b. */
  function Sub32(a: nat, b: nat): nat
    requires a < WORD_LIMIT && b < WORD_LIMIT
  {
    (a + WORD_LIMIT - b) % WORD_LIMIT
  }

  /** Unsigned 32-bit x << n. */
  function Shl32(x: nat, n: nat): nat {
    x * Pow2(n) % WORD_LIMIT
  }

  /** One halving step: ((x - t) >> 16) & 2^k, which is 2^k if x is below t and 0 otherwise. */
  function Probe(x: nat, t: nat, k: nat): nat
    requires x < WORD_LIMIT && t < WORD_LIMIT
  {
    And(Sub32(x, t) / 0x10000, Pow2(k))
  }

  /** The portable computation of the highest set bit of a nonzero 16-bit value. */
  function BranchFreeLog2(x: nat): int
    requires x < 0x10000
  {
    var n0 := Probe(x, 0x100, 3);
    var x1 := Shl32(x, n0);
    var m1 := Probe(x1, 0x1000, 2);
    var x2 := Shl32(x1, m1);
    var m2 := Probe(x2, 0x4000, 1);
    var x3 := Shl32(x2, m2) / 0x4000;
    13 - (n0 + m1 + m2) + AndNot(x3, x3 / 2)
  }

  lemma ProbeDecides(x: nat, t: nat, k: nat)
    requires x < 0x10000 && 0 < t < 0x10000 && 1 <= k <= 3
    ensures Probe(x, t, k) == (if x < t then Pow2(k) else 0)
  {
    hide And, Bit, Pow2;
    var v := Sub32(x, t) / 0x10000;
    assert v == if x < t then 0xffff else 0;
    AndPow2(v, k);
    SmallPowers();
    if x < t {
      BitOfLowMask(16, k);
    } else {
      BitsOfZero(k);
    }
  }

  /** Shifting left by one moves the highest set bit up by one. */
  lemma {:induction false} Log2Shift(x: nat, n: nat)
    requires x >= 1
    ensures x * Pow2(n) >= 1
    ensures Log2(x * Pow2(n)) == Log2(x) + n
  {
    if n > 0 {
      Log2Shift(x, n - 1);
      var y := x * Pow2(n - 1);
      assert x * Pow2(n) == 2 * y;
      assert (2 * y) / 2 == y;
    }
  }

  /** The halving steps compute the exact logarithm on every value they are applied to. */
  lemma BranchFreeLog2Correct(x: nat)
    requires 1 <= x < 0x10000
    ensures BranchFreeLog2(x) == Log2(x)
  {
    var n0, x1 := HalvingStep(x, 0x100, 3, 8);
    var m1, x2 := HalvingStep(x1, 0x1000, 2, 4);
    var m2, y := HalvingStep(x2, 0x4000, 1, 2);
    TopTwoBits(y);
  }

  /** One halving step keeps the value below 2^16 and records exactly how far it shifted. */
  lemma HalvingStep(x: nat, t: nat, k: nat, s: nat) returns (n: nat, y: nat)
    requires 1 <= x < 0x10000
    requires (t == 0x100 && k == 3 && s == 8)
          || (t == 0x1000 && k == 2 && s == 4 && x >= 0x100)
          || (t == 0x4000 && k == 1 && s == 2 && x >= 0x1000)
    ensures t <= y < 0x10000
    ensures Log2(y) == Log2(x) + n
    ensures n == Probe(x, t, k) && y == Shl32(x, n)
  {
    ProbeDecides(x, t, k);
    SmallPowers();
    if x >= t {
      n, y := 0, x;
    } else if k == 3 {
      n, y := 8, x * 0x100;
    } else if k == 2 {
      n, y := 4, x * 0x10;
    } else {
      n, y := 2, x * 4;
    }
    assert Shl32(x, n) == y;
    Log2Shift(x, n);
  }

  lemma TopTwoBits(y: nat)
    requires 0x4000 <= y < 0x10000
    ensures var h := y / 0x4000; Log2(y) == 13 + AndNot(h, h / 2)
  {
    SmallPowers();
    if y < 0x8000 {
      Log2Unique(y, 14);
      assert y / 0x4000 == 1;
    } else {
      Log2Unique(y, 15);
      assert y / 0x4000 == 2 || y / 0x4000 == 3;
      assert AndNot(2, 1) == 2 && AndNot(3, 1) == 2;
    }
  }

  /* ---------- bin indexing ---------- */

  function SmallbinIndex(sz: nat): nat {
    sz / 8
  }

  /** The index with the highest bit taken by BSRL; BranchFreeLog2Correct covers the portable branch. */
  function LargebinIndex(sz: nat): nat
    requires sz >= MIN_LARGE_SIZE
  {
    var x := sz / 256;
    if x >= 0x10000 then NBINS - 1
    else
      var m := Log2(x);
      NSMALLBINS + 4 * m + sz / Pow2(m + 6) % 4
  }

  function BinIndex(sz: nat): nat {
    if sz < MIN_LARGE_SIZE then SmallbinIndex(sz) else LargebinIndex(sz)
  }

  /** Within the m-th group of four large bins, the next two bits below the highest one count quarters. */
  lemma LargebinGroup(sz: nat)
    requires MIN_LARGE_SIZE <= sz && sz / 256 < 0x10000
    ensures var m := Log2(sz / 256);
            && m < 16
            && 4 <= sz / Pow2(m + 6) < 8
            && LargebinIndex(sz) == NSMALLBINS + 4 * m + sz / Pow2(m + 6) - 4
  {
    var x := sz / 256;
    var m := Log2(x);
    assert m < 16 by {
      SmallPowers();
      Log2Unique(0xffff, 15);
      Log2Monotone(x, 0xffff);
    }
    assert 4 <= sz / Pow2(m + 6) < 8 by {
      QuarterOfGroup(sz, m);
    }
  }

  lemma QuarterOfGroup(sz: nat, m: nat)
    requires MIN_LARGE_SIZE <= sz && m == Log2(sz / 256)
    ensures 4 <= sz / Pow2(m + 6) < 8
  {
    var p := Pow2(m);
    Log2Brackets(sz / 256);
    Pow2Add(m, 6);
    SmallPowers();
    QuotientBetween(sz, 64 * p, 4, 8);
  }

  lemma QuotientBetween(n: nat, p: nat, lo: nat, hi: nat)
    requires p >= 1 && lo * p <= n < hi * p
    ensures lo <= n / p < hi
  {
    var q := n / p;
    assert n == q * p + n % p;
    assert q < lo ==> (q + 1) * p <= lo * p;
    assert q >= hi ==> hi * p <= q * p;
  }

  lemma DivMonotone(a: nat, b: nat, p: nat)
    requires a <= b && p >= 1
    ensures a / p <= b / p
  {
    var q, r := a / p, b / p;
    assert a == q * p + a % p && b == r * p + b % p;
    assert r < q ==> (r + 1) * p <= q * p;
  }

  lemma BinIndexRange(sz: nat)
    requires sz >= MINSIZE
    ensures 2 <= BinIndex(sz) < NBINS
    ensures sz < MIN_LARGE_SIZE <==> BinIndex(sz) < NSMALLBINS
  {
    if sz >= MIN_LARGE_SIZE && sz / 256 < 0x10000 {
      LargebinGroup(sz);
    }
  }

  /** Bin indices never decrease with size, so every chunk in a higher bin is at least as large
      as every size that maps to a lower one. */
  lemma BinIndexMonotone(a: nat, b: nat)
    requires MINSIZE <= a <= b
    ensures BinIndex(a) <= BinIndex(b)
  {
    BinIndexRange(a);
    BinIndexRange(b);
    if a >= MIN_LARGE_SIZE && b / 256 < 0x10000 {
      LargebinGroup(a);
      LargebinGroup(b);
      var m := Log2(a / 256);
      Log2Monotone(a / 256, b / 256);
      if m == Log2(b / 256) {
        DivMonotone(a, b, Pow2(m + 6));
      }
    }
  }
}
