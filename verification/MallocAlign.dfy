/** Alignment arithmetic of mEMALIGn. */
module MallocAlign {
  import opened BitWords
  import opened MallocSizes

  /** The first of a, 2a, 4a, ... that is at least alignment. */
  function Doubled(a: nat, alignment: nat): (r: nat)
    requires a >= 1
    ensures r >= a && r >= alignment
    decreases alignment - a
  {
    if a >= alignment then a else Doubled(2 * a, alignment)
  }

  /** The alignment mEMALIGn works with: at least MINSIZE, and rounded up unless alignment & (alignment - 1) is 0. */
  function RoundedAlignment(alignment: nat): (al: nat)
    ensures al >= MINSIZE && al >= alignment
  {
    var al := if alignment < MINSIZE then MINSIZE else alignment;
    if And(al, al - 1) == 0 then al else Doubled(2 * 8, al)
  }

  lemma {:induction false} DoubledPower(k: nat, alignment: nat)
    ensures exists n :: n >= k && Doubled(Pow2(k), alignment) == Pow2(n)
    ensures Doubled(Pow2(k), alignment) >= alignment
    ensures Doubled(Pow2(k), alignment) == Pow2(k) || Doubled(Pow2(k), alignment) < 2 * alignment
    decreases alignment - Pow2(k)
  {
    if Pow2(k) < alignment {
      DoubledPower(k + 1, alignment);
    }
  }

  /** The rounded alignment is the least power of two that is at least MINSIZE and the alignment asked for. */
  lemma RoundedIsLeastPower(alignment: nat) returns (n: nat)
    ensures RoundedAlignment(alignment) == Pow2(n) && Pow2(n) >= MINSIZE && Pow2(n) >= alignment
    ensures forall j: nat :: Pow2(j) >= alignment && Pow2(j) >= MINSIZE ==> Pow2(n) <= Pow2(j)
  {
    var al := if alignment < MINSIZE then MINSIZE else alignment;
    SmallPowers();
    if And(al, al - 1) == 0 {
      OneBit(al);
      n := Log2(al);
    } else {
      DoubledPower(4, al);
      n :| n >= 4 && Doubled(16, al) == Pow2(n);
      if n > 4 {
        Pow2Monotone(4, n);
      }
    }
    forall j: nat | Pow2(j) >= al
      ensures Pow2(n) <= Pow2(j)
    {
      if j < n {
        Pow2Monotone(j + 1, n);
        assert Pow2(j + 1) == 2 * Pow2(j);
      } else {
        Pow2Monotone(n, j);
      }
    }
  }

  /** x without its remainder modulo p */
  function Floor(x: nat, p: nat): int
    requires p >= 1
  {
    x - x % p
  }

  /** x & (2^n - 2^k) clears the low k bits of an n-bit x. */
  lemma {:induction false} MaskLowBits(x: nat, n: nat, k: nat)
    requires k <= n && x < Pow2(n)
    ensures Pow2(n) >= Pow2(k)
    ensures And(x, Pow2(n) - Pow2(k)) == Floor(x, Pow2(k))
    decreases n
  {
    hide And, Pow2, Floor;
    Pow2Monotone(k, n);
    if n == 0 {
      SmallPowers();
      AndNothing();
    } else {
      Pow2Next(n - 1);
      if k > 0 {
        Pow2Next(k - 1);
        MaskLowBits(x / 2, n - 1, k - 1);
        MaskStep(x, Pow2(n - 1), Pow2(k - 1));
      } else {
        SmallPowers();
        MaskLowBits(x / 2, n - 1, 0);
        MaskOnes(x, Pow2(n - 1));
      }
    }
  }

  lemma AndNothing()
    ensures And(0, 0) == 0 == Floor(0, 1)
  {
  }

  lemma MaskOnes(x: nat, q: nat)
    requires q >= 1 && And(x / 2, q - 1) == Floor(x / 2, 1)
    ensures And(x, 2 * q - 1) == Floor(x, 1)
  {
    hide And;
    AndHalves(x, q - 1, 1);
    assert 2 * (q - 1) + 1 == 2 * q - 1;
  }

  lemma MaskStep(x: nat, q: nat, p: nat)
    requires 1 <= p <= q && And(x / 2, q - p) == Floor(x / 2, p)
    ensures And(x, 2 * q - 2 * p) == Floor(x, 2 * p)
  {
    hide And;
    HalfMod(x, p);
    AndHalves(x, q - p, 0);
    assert 2 * (q - p) + 0 == 2 * q - 2 * p;
  }

  /** The aligned chunk address inside a block p of the padded size, at least MINSIZE above p. */
  function AlignedSpot(p: nat, al: nat): int
    requires 1 <= al <= WORD_LIMIT
  {
    var brk := And(p + 8 + al - 1, WORD_LIMIT - al) - 8;
    if brk - p < MINSIZE then brk + al else brk
  }

  lemma AlignmentFacts(n: nat)
    requires 4 <= n <= 31
    ensures 16 <= Pow2(n) <= 0x8000_0000 && Pow2(32) == WORD_LIMIT && Pow2(n) == 8 * Pow2(n - 3) && Aligned(Pow2(n))
  {
    Pow2Monotone(4, n);
    Pow2Monotone(n, 31);
    SmallPowers();
    Pow2Add(16, 16);
    Pow2Add(15, 16);
    Pow2Add(3, n - 3);
    hide Pow2, Aligned;
    EightTimes(Pow2(n - 3));
  }

  predicate Multiple(al: nat, x: int) {
    al >= 1 && x % al == 0
  }

  /** Rounding up to a multiple of al. */
  lemma RoundUp(m: nat, al: nat) returns (spot: nat)
    requires al >= 1 && !Multiple(al, m)
    ensures Floor(m + al - 1, al) == spot
    ensures m < spot < m + al && Multiple(al, spot) && Multiple(al, spot + al)
  {
    var x := m + al - 1;
    var q := x / al;
    spot := al * q;
    assert x == spot + x % al;
    MultipleMod(al, q);
    MultipleMod(al, q + 1);
    assert al * (q + 1) == spot + al;
  }

  lemma EightDivides(x: nat, al: nat, j: nat)
    requires j >= 1 && al == 8 * j && Multiple(al, x)
    ensures Aligned(x)
  {
    hide Aligned;
    var q := x / al;
    assert x == al * q == 8 * (j * q);
    EightTimes(j * q);
  }

  /** The spot is aligned, leaves a leading chunk, and is close enough to keep nb bytes behind it. */
  lemma AlignedSpotFits(p: nat, n: nat)
    requires Aligned(p) && 4 <= n <= 31 && p + 8 + Pow2(n) - 1 < WORD_LIMIT && !Multiple(Pow2(n), p + 8)
    ensures Pow2(n) <= WORD_LIMIT
    ensures var al, b := Pow2(n), AlignedSpot(p, Pow2(n));
            b > p && Multiple(al, b + 8) && Aligned(b - p) && MINSIZE <= b - p <= al + 8
  {
    hide Pow2, And, Multiple, Aligned;
    AlignmentFacts(n);
    var al := Pow2(n);
    var spot := AlignedAbove(p + 8, n);
    SpotFits(p, al, spot);
  }

  /** The multiple of the alignment next above m is what the mask computes. */
  lemma AlignedAbove(m: nat, n: nat) returns (spot: nat)
    requires 4 <= n <= 31 && m + Pow2(n) - 1 < WORD_LIMIT && !Multiple(Pow2(n), m)
    ensures Pow2(n) <= WORD_LIMIT && spot == And(m + Pow2(n) - 1, WORD_LIMIT - Pow2(n))
    ensures m < spot < m + Pow2(n) && Aligned(spot)
    ensures Multiple(Pow2(n), spot) && Multiple(Pow2(n), spot + Pow2(n))
  {
    hide Pow2, And, Multiple, Aligned, Floor;
    AlignmentFacts(n);
    MaskLowBits(m + Pow2(n) - 1, 32, n);
    var al, j := Pow2(n), Pow2(n - 3);
    spot := RoundUp(m, al);
    EightDivides(spot, al, j);
  }

  lemma SpotFits(p: nat, al: nat, spot: nat)
    requires Aligned(p) && al >= 16 && Aligned(al) && p + 8 < spot < p + 8 + al && Aligned(spot)
    requires Multiple(al, spot) && Multiple(al, spot + al)
    ensures var brk := spot - 8;
            var b := if brk - p < MINSIZE then brk + al else brk;
            b > p && Multiple(al, b + 8) && Aligned(b - p) && MINSIZE <= b - p <= al + 8
  {
    hide Multiple;
    var i, j, u := p / 8, al / 8, spot / 8;
    assert p == 8 * i && al == 8 * j && spot == 8 * u;
    hide Aligned;
    EightTimes(u - 1 - i);
    EightTimes(u - 1 + j - i);
  }

  lemma EightTimes(x: int)
    ensures Aligned(8 * x)
  {
  }

  lemma MultipleMod(d: nat, q: nat)
    requires d >= 1
    ensures (d * q) % d == 0
  {
    ModUnique(d * q, d, q, 0);
  }

  /** mEMALIGn asks mALLOc for nb + alignment + MINSIZE bytes in 32-bit arithmetic without checking for
      wrap-around. If it wraps, whatever block comes back cannot even hold nb bytes. */
  lemma PaddedRequestHoldsBlock(nb: nat, n: nat)
    requires Aligned(nb) && nb >= MINSIZE && nb + MINSIZE < WORD_LIMIT && 4 <= n <= 31
    ensures var sum := nb + Pow2(n) + MINSIZE;
            sum < WORD_LIMIT <==> Request2Size(sum % WORD_LIMIT) + MINSIZE > nb
  {
    hide Pow2, Aligned, Request2Size;
    AlignmentFacts(n);
    PaddedSum(nb, Pow2(n));
  }

  lemma PaddedSum(nb: nat, al: nat)
    requires Aligned(nb) && nb >= MINSIZE && nb + MINSIZE < WORD_LIMIT && 16 <= al <= 0x8000_0000
    ensures var sum := nb + al + MINSIZE;
            sum < WORD_LIMIT <==> Request2Size(sum % WORD_LIMIT) + MINSIZE > nb
  {
    var sum := nb + al + MINSIZE;
    if sum >= WORD_LIMIT {
      assert sum % WORD_LIMIT == sum - WORD_LIMIT;
    }
  }

  /** For 2^31 bytes aligned to 2^31 the padded request wraps to 24. */
  lemma PaddedRequestWraps()
    ensures var nb := Request2Size(0x8000_0000);
            Request2Size((nb + RoundedAlignment(0x8000_0000) + MINSIZE) % WORD_LIMIT) == 32
  {
    SmallPowers();
    Pow2Add(15, 16);
    var n := RoundedIsLeastPower(0x8000_0000);
    assert Pow2(31) == 0x8000_0000;
  }

  /* ---------- the rounding loop ---------- */

  /** The k-th value of a in the rounding loop, which shifts in 32-bit arithmetic. */
  function Shifted(k: nat): nat {
    if k == 0 then 2 * 8 else 2 * Shifted(k - 1) % WORD_LIMIT
  }

  lemma {:induction false} ShiftedValue(k: nat)
    ensures Shifted(k) == if k < 28 then Pow2(k + 4) else 0
  {
    hide Pow2;
    if k == 0 {
      SmallPowers();
    } else {
      ShiftedValue(k - 1);
      if k < 28 {
        Pow2Below(k + 4);
        Pow2Next(k + 3);
        DoubleFits(Pow2(k + 3));
      } else {
        Pow2Below(31);
      }
    }
  }

  lemma DoubleFits(x: nat)
    requires 2 * x <= 0x8000_0000
    ensures 2 * x % WORD_LIMIT == 2 * x
  {
  }

  lemma Pow2Below(n: nat)
    requires n <= 31
    ensures Pow2(n) <= 0x8000_0000 && Pow2(31) == 0x8000_0000
  {
    SmallPowers();
    Pow2Add(15, 16);
    Pow2Monotone(n, 31);
  }

  /** The loop reaches a value of at least alignment if and only if alignment is at most 2^31. */
  lemma RoundingEndsIff(alignment: nat)
    requires alignment < WORD_LIMIT
    ensures (exists k :: Shifted(k) >= alignment) <==> alignment <= 0x8000_0000
  {
    ShiftedValue(27);
    Pow2Below(31);
    assert Shifted(27) == 0x8000_0000;
    forall k: nat
      ensures Shifted(k) <= 0x8000_0000
    {
      ShiftedValue(k);
      if k < 28 {
        Pow2Below(k + 4);
      }
    }
  }

  /** No alignment above 2^31 is spared the loop: none of them is a power of two. */
  lemma RoundingIsEntered(alignment: nat)
    requires 0x8000_0000 < alignment < WORD_LIMIT
    ensures And(alignment, alignment - 1) != 0
  {
    if And(alignment, alignment - 1) == 0 {
      OneBit(alignment);
      var n := Log2(alignment);
      Pow2Below(31);
      if n <= 31 {
        Pow2Below(n);
      } else {
        WordPowers();
        Pow2Monotone(32, n);
      }
    }
  }

  /** For an alignment of 2^31 + 1 the loop is entered and no value it computes ends it. */
  lemma RoundingNeverEnds()
    ensures And(0x8000_0001, 0x8000_0000) != 0 && forall k :: Shifted(k) < 0x8000_0001
  {
    RoundingIsEntered(0x8000_0001);
    RoundingEndsIff(0x8000_0001);
  }

  datatype Rounding = Ends(al: nat) | Endless

  /** The rounding of the alignment, for every 32-bit alignment. Once the shift has reached 0 it stays there, so
      that the loop does not end. */
  method RoundAlignment(alignment: nat) returns (r: Rounding)
    requires alignment < WORD_LIMIT
    ensures r.Endless? <==> alignment > 0x8000_0000
    ensures r.Endless? ==> And(alignment, alignment - 1) != 0 && forall k :: Shifted(k) < alignment
    ensures r.Ends? ==> r.al == RoundedAlignment(alignment) && IsAlignment(r.al) && 16 <= r.al <= 0x8000_0000
  {
    RoundingEndsIff(alignment);
    if alignment <= 0x8000_0000 {
      RoundedRange(alignment);
    } else {
      RoundingIsEntered(alignment);
    }
    hide And, IsAlignment, Pow2, Shifted;
    var al := if alignment < MINSIZE then MINSIZE else alignment;
    if And(al, al - 1) != 0 {
      var a := 2 * 8;
      ghost var k := 0;
      ShiftedStart();
      while a < al
        invariant a == Shifted(k) && a >= 16 && Doubled(a, al) == Doubled(16, al)
        decreases al - a
      {
        ShiftedNext(k);
        if 2 * a % WORD_LIMIT == 0 {
          ZeroIsStuck(k + 1, al);
          return Endless;
        }
        ShiftedGrows(k);
        a, k := 2 * a % WORD_LIMIT, k + 1;
      }
      al := a;
    }
    r := Ends(al);
  }

  lemma ShiftedStart()
    ensures Shifted(0) == 16
  {
  }

  lemma ShiftedNext(k: nat)
    ensures Shifted(k + 1) == 2 * Shifted(k) % WORD_LIMIT
  {
  }

  lemma ShiftedGrows(k: nat)
    requires Shifted(k + 1) != 0
    ensures Shifted(k + 1) == 2 * Shifted(k)
  {
    ShiftedValue(k);
    ShiftedValue(k + 1);
    hide Shifted;
  }

  lemma ZeroIsStuck(k: nat, al: nat)
    requires k >= 1 && Shifted(k) == 0 && 16 <= Shifted(k - 1) < al
    ensures al > 0x8000_0000
  {
    hide Pow2, Shifted;
    ShiftedValue(k);
    ShiftedValue(k - 1);
    Pow2Below(31);
    assert k == 28;
  }

  lemma RoundedRange(alignment: nat)
    requires alignment <= 0x8000_0000
    ensures RoundedAlignment(alignment) <= 0x8000_0000
    ensures IsAlignment(RoundedAlignment(alignment))
  {
    var n := RoundedIsLeastPower(alignment);
    SmallPowers();
    Pow2Add(15, 16);
    assert Pow2(31) == 0x8000_0000 && Pow2(n) <= Pow2(31);
    if n > 31 {
      Pow2Monotone(32, n);
    } else if n < 4 {
      Pow2Monotone(n, 3);
    }
  }

  ghost predicate IsAlignment(al: nat) {
    exists n :: 4 <= n <= 31 && al == Pow2(n)
  }

  /** AlignedSpotFits without naming the exponent. */
  lemma SpotOfAlignment(p: nat, al: nat)
    requires Aligned(p) && IsAlignment(al) && p + 8 + al <= WORD_LIMIT && !Multiple(al, p + 8)
    ensures 1 <= al <= WORD_LIMIT
    ensures var b := AlignedSpot(p, al); b > p && Multiple(al, b + 8) && Aligned(b - p) && MINSIZE <= b - p <= al + 8
  {
    hide AlignedSpot, Pow2;
    var n :| 4 <= n <= 31 && al == Pow2(n);
    AlignmentFacts(n);
    AlignedSpotFits(p, n);
  }
}
