/** Capability addresses: a prefix of up to 63 bits with its depth encoded in unary behind it, in one 64-bit
    word. An address is the path of depth bits that its prefix spells, and every operation is one on paths. */
module Address {
  import opened BitWords

  /** The depth most significant bits of the prefix, as a number. */
  datatype Path = Path(bits: nat, depth: nat)

  predicate IsPath(p: Path) {
    p.depth <= 63 && p.bits < Pow2(p.depth)
  }

  /** Prefix and word of a path. */
  function PrefixOf(p: Path): nat
    requires p.depth <= 63
  {
    Shl(p.bits, 63 - p.depth)
  }

  function RawOf(p: Path): nat
    requires p.depth <= 63
  {
    Shl(2 * p.bits + 1, 63 - p.depth)
  }

  /* ---------- the macros ---------- */

  /** Position of the lowest set bit, counted from 0. */
  function Lowest(raw: nat): nat
    requires raw > 0
  {
    if raw % 2 == 1 then 0 else Lowest(raw / 2) + 1
  }

  /** ADDR */
  function Addr(prefix: nat, depth: nat): nat
    requires depth <= 63
  {
    Or(2 * prefix, Pow2(63 - depth))
  }

  /** addr_depth */
  function AddrDepth(raw: nat): int
    requires raw > 0
  {
    63 - Lowest(raw)
  }

  /** addr_prefix */
  function AddrPrefix(raw: nat): nat
    requires raw > 0 && 0 <= AddrDepth(raw) <= 63
  {
    AndNot(raw, Pow2(63 - AddrDepth(raw))) / 2
  }

  predicate Valid(raw: nat) {
    raw > 0 && Lowest(raw) <= 63 && raw < Pow2(64)
  }

  /** addr_extend */
  function AddrExtend(raw: nat, suffix: nat, width: nat): nat
    requires Valid(raw) && AddrDepth(raw) + width <= 63
  {
    Addr(Or(AddrPrefix(raw), Shl(suffix, 63 - AddrDepth(raw) - width)), AddrDepth(raw) + width)
  }

  /** addr_chop */
  function AddrChop(raw: nat, width: nat): nat
    requires Valid(raw) && width <= AddrDepth(raw)
  {
    var d := AddrDepth(raw) - width;
    Addr(AndNot(AddrPrefix(raw), Pow2(63 - d) - 1), d)
  }

  /** addr_extract */
  function AddrExtract(raw: nat, width: nat): nat
    requires Valid(raw) && width <= AddrDepth(raw)
  {
    And(Shr(AddrPrefix(raw), 63 - AddrDepth(raw)), Pow2(width) - 1)
  }

  /** The prefix that addr_add passes to ADDR, in 64-bit arithmetic. */
  function SumPrefix(raw: nat, count: nat): nat
    requires Valid(raw)
  {
    Mod64(AddrPrefix(raw) + Mod64(Shl(count, 63 - AddrDepth(raw))))
  }

  /** ADDR asserts that the prefix has 63 bits. */
  predicate InRange(raw: nat, count: nat) {
    Valid(raw) && SumPrefix(raw, count) < Pow2(63)
  }

  /** addr_add */
  function AddrAdd(raw: nat, count: nat): nat
    requires InRange(raw, count)
  {
    Addr(SumPrefix(raw, count), AddrDepth(raw))
  }

  /** addr_sub adds the 64-bit complement. */
  function AddrSub(raw: nat, count: nat): nat
    requires count < Word64() && InRange(raw, Neg64(count))
  {
    AddrAdd(raw, Neg64(count))
  }

  function Word64(): nat {
    0x1_0000_0000_0000_0000
  }

  function Mod64(x: nat): nat {
    x % Word64()
  }

  /** 64-bit -x */
  function Neg64(x: nat): nat
    requires x < Word64()
  {
    if x == 0 then 0 else Word64() - x
  }

  /** x >> k */
  function Shr(x: nat, k: nat): nat {
    if k == 0 then x else Shr(x / 2, k - 1)
  }

  /* ---------- shifts ---------- */

  lemma {:induction false} ShlBelow(x: nat, n: nat, k: nat)
    requires x < Pow2(n)
    ensures Shl(x, k) < Pow2(n + k)
    decreases k
  {
    if k > 0 {
      ShlBelow(x, n, k - 1);
    }
  }

  lemma {:induction false} ShlShl(x: nat, j: nat, k: nat)
    ensures Shl(Shl(x, j), k) == Shl(x, j + k)
    decreases k
  {
    if k > 0 {
      ShlShl(x, j, k - 1);
    }
  }

  lemma {:induction false} ShlDouble(x: nat, k: nat)
    ensures Shl(2 * x, k) == 2 * Shl(x, k)
    decreases k
  {
    if k > 0 {
      ShlDouble(x, k - 1);
    }
  }

  lemma {:induction false} ShlSum(x: nat, y: nat, k: nat)
    ensures Shl(x + y, k) == Shl(x, k) + Shl(y, k)
    decreases k
  {
    if k > 0 {
      ShlSum(x, y, k - 1);
    }
  }

  lemma {:induction false} ShlOne(k: nat)
    ensures Shl(1, k) == Pow2(k)
  {
    if k > 0 {
      ShlOne(k - 1);
    }
  }

  lemma {:induction false} ShrShl(x: nat, k: nat)
    ensures Shr(Shl(x, k), k) == x
    decreases k
  {
    if k > 0 {
      ShrShl(x, k - 1);
      assert Shl(x, k) / 2 == Shl(x, k - 1);
    }
  }

  lemma {:induction false} LowestOfShl(x: nat, k: nat)
    requires x % 2 == 1
    ensures Shl(x, k) > 0 && Lowest(Shl(x, k)) == k
    decreases k
  {
    if k > 0 {
      LowestOfShl(x, k - 1);
      assert Shl(x, k) / 2 == Shl(x, k - 1);
    }
  }

  /** Clearing the only low bit, and clearing all low bits. */
  lemma {:induction false} ClearLowest(x: nat, k: nat)
    ensures AndNot(Shl(2 * x + 1, k), Pow2(k)) == Shl(2 * x, k)
    decreases k
  {
    if k > 0 {
      ClearLowest(x, k - 1);
      assert Shl(2 * x + 1, k) / 2 == Shl(2 * x + 1, k - 1) && Pow2(k) / 2 == Pow2(k - 1);
      assert Shl(2 * x + 1, k) == 0 ==> Shl(2 * x, k) == 0 by { ShlSum(2 * x, 1, k); }
    } else {
      assert AndNot(x, 0) == x;
    }
  }

  lemma {:induction false} ClearLowBits(x: nat, y: nat, k: nat)
    requires y < Pow2(k)
    ensures AndNot(Shl(x, k) + y, Pow2(k) - 1) == Shl(x, k)
    decreases k
  {
    if k > 0 {
      ClearLowBits(x, y / 2, k - 1);
      var z, m := Shl(x, k) + y, Pow2(k) - 1;
      assert z / 2 == Shl(x, k - 1) + y / 2 && m / 2 == Pow2(k - 1) - 1 && m % 2 == 1;
    } else {
      assert AndNot(x, 0) == x;
    }
  }

  lemma {:induction false} OrShl(x: nat, y: nat, k: nat)
    ensures Or(Shl(x, k), Shl(y, k)) == Shl(Or(x, y), k)
    decreases k
  {
    if k > 0 {
      OrShl(x, y, k - 1);
      assert Shl(x, k) / 2 == Shl(x, k - 1) && Shl(y, k) / 2 == Shl(y, k - 1);
    }
  }

  /* ---------- encoding ---------- */

  lemma ShlNext(x: nat, k: nat)
    ensures Shl(x, k + 1) == 2 * Shl(x, k)
  {
  }

  /** ADDR packs a path, and depth and prefix unpack it. */
  lemma AddrOfPath(p: Path)
    requires IsPath(p)
    ensures Addr(PrefixOf(p), p.depth) == RawOf(p)
    ensures Valid(RawOf(p)) && AddrDepth(RawOf(p)) == p.depth && AddrPrefix(RawOf(p)) == PrefixOf(p)
  {
    hide Or, AndNot, Lowest, Shl, Pow2;
    var k := 63 - p.depth;
    ShlNext(p.bits, k);
    Pow2Next(k);
    Pow2Next(p.depth);
    ShlDouble(p.bits, k);
    ShlSum(2 * p.bits, 1, k);
    ShlOne(k);
    OrDisjoint(p.bits, k + 1, Pow2(k));
    LowestOfShl(2 * p.bits + 1, k);
    ClearLowest(p.bits, k);
    ShlBelow(2 * p.bits + 1, p.depth + 1, k);
  }

  /** Every word but 0 is the address of a path. */
  lemma {:induction false} PathOfAddr(raw: nat, k: nat) returns (x: nat)
    requires raw > 0 && Lowest(raw) == k
    ensures raw == Shl(2 * x + 1, k)
    decreases raw
  {
    if raw % 2 == 1 {
      x := raw / 2;
    } else {
      x := PathOfAddr(raw / 2, k - 1);
    }
  }

  lemma ShlAtLeast(x: nat, n: nat, k: nat)
    requires Shl(x, k) < Pow2(n + k)
    ensures x < Pow2(n)
    decreases k
  {
    if k > 0 {
      ShlAtLeast(x, n, k - 1);
    }
  }

  lemma Decode(raw: nat) returns (p: Path)
    requires Valid(raw)
    ensures IsPath(p) && raw == RawOf(p) && AddrDepth(raw) == p.depth && AddrPrefix(raw) == PrefixOf(p)
  {
    hide Lowest, AndNot, Or, Shl, Pow2;
    var k := Lowest(raw);
    var x := PathOfAddr(raw, k);
    ShlAtLeast(2 * x + 1, 64 - k, k);
    Pow2Next(63 - k);
    p := Path(x, 63 - k);
    AddrOfPath(p);
  }

  /** Depth and prefix invert ADDR, and ADDR inverts them. */
  lemma AddrRoundTrip(raw: nat)
    requires Valid(raw)
    ensures 0 <= AddrDepth(raw) <= 63 && Addr(AddrPrefix(raw), AddrDepth(raw)) == raw
  {
    hide Addr, AddrPrefix, RawOf, PrefixOf;
    var p := Decode(raw);
    AddrOfPath(p);
  }

  /* ---------- the operations on paths ---------- */

  function Extended(p: Path, suffix: nat, width: nat): Path {
    Path(Shl(p.bits, width) + suffix, p.depth + width)
  }

  lemma ExtendIsPath(p: Path, suffix: nat, width: nat)
    requires IsPath(p) && suffix < Pow2(width) && p.depth + width <= 63
    ensures IsPath(Extended(p, suffix, width)) && Valid(RawOf(p)) && AddrDepth(RawOf(p)) == p.depth
    ensures AddrExtend(RawOf(p), suffix, width) == RawOf(Extended(p, suffix, width))
  {
    hide Or, Lowest, AndNot, Shl, Pow2;
    var k := 63 - p.depth - width;
    AddrOfPath(p);
    ShlShl(p.bits, width, k);
    OrShl(Shl(p.bits, width), suffix, k);
    OrDisjoint(p.bits, width, suffix);
    ShlPlusBelow(p.bits, p.depth, width, suffix);
    AddrOfPath(Extended(p, suffix, width));
  }

  lemma {:induction false} ShlPlusBelow(x: nat, n: nat, k: nat, y: nat)
    requires x < Pow2(n) && y < Pow2(k)
    ensures Shl(x, k) + y < Pow2(n + k)
    decreases k
  {
    if k > 0 {
      ShlPlusBelow(x, n, k - 1, y / 2);
    }
  }

  /** Chopping an extended path takes off the suffix. */
  lemma ChopOfExtended(p: Path, suffix: nat, width: nat)
    requires IsPath(p) && suffix < Pow2(width) && p.depth + width <= 63
    ensures var e := RawOf(Extended(p, suffix, width));
            Valid(e) && AddrDepth(e) == p.depth + width && AddrChop(e, width) == RawOf(p)
  {
    hide Or, Lowest, AndNot, And, Shl, Pow2, AddrPrefix, RawOf;
    var q, k := Extended(p, suffix, width), 63 - p.depth - width;
    ShlPlusBelow(p.bits, p.depth, width, suffix);
    AddrOfPath(q);
    AddrOfPath(p);
    ShlSum(Shl(p.bits, width), suffix, k);
    ShlShl(p.bits, width, k);
    ShlBelow(suffix, width, k);
    ClearLowBits(p.bits, Shl(suffix, k), width + k);
  }

  /** Extracting its last bits yields the suffix. */
  lemma ExtractOfExtended(p: Path, suffix: nat, width: nat)
    requires IsPath(p) && suffix < Pow2(width) && p.depth + width <= 63
    ensures var e := RawOf(Extended(p, suffix, width));
            Valid(e) && AddrDepth(e) == p.depth + width && AddrExtract(e, width) == suffix
  {
    hide Or, Lowest, AndNot, And, Shl, Pow2, AddrPrefix, RawOf, Shr;
    var q, k := Extended(p, suffix, width), 63 - p.depth - width;
    ShlPlusBelow(p.bits, p.depth, width, suffix);
    AddrOfPath(q);
    ShrShl(q.bits, k);
    AndLowMask(q.bits, width);
    ShlMod(p.bits, width, suffix);
  }

  lemma ShlMod(x: nat, k: nat, y: nat)
    requires y < Pow2(k)
    ensures (Shl(x, k) + y) % Pow2(k) == y
  {
    ShlIsTimes(x, k);
    ModUnique(Shl(x, k) + y, Pow2(k), x, y);
  }

  /** Chop and extract undo extend. */
  lemma ExtendThenChop(raw: nat, suffix: nat, width: nat)
    requires Valid(raw) && AddrDepth(raw) + width <= 63 && suffix < Pow2(width)
    ensures var e := AddrExtend(raw, suffix, width);
            && Valid(e) && AddrDepth(e) == AddrDepth(raw) + width
            && AddrChop(e, width) == raw && AddrExtract(e, width) == suffix
  {
    hide AddrExtend, AddrChop, AddrExtract, RawOf, PrefixOf, Pow2, AddrPrefix, Valid, Extended;
    var p := Decode(raw);
    ExtendIsPath(p, suffix, width);
    ChopOfExtended(p, suffix, width);
    ExtractOfExtended(p, suffix, width);
  }

  /** Extending the chopped address by what was chopped off rebuilds it. */
  lemma ChopThenExtend(raw: nat, width: nat)
    requires Valid(raw) && width <= AddrDepth(raw)
    ensures var c := AddrChop(raw, width);
            Valid(c) && AddrDepth(c) == AddrDepth(raw) - width && AddrExtend(c, AddrExtract(raw, width), width) == raw
  {
    var p := Decode(raw);
    var q, suffix := Halves(p, width);
    hide AddrExtend, AddrChop, AddrExtract, RawOf, PrefixOf, AddrPrefix, Extended;
    ExtendIsPath(q, suffix, width);
    ChopOfExtended(q, suffix, width);
    ExtractOfExtended(q, suffix, width);
    AddrOfPath(q);
  }

  lemma Halves(p: Path, width: nat) returns (q: Path, suffix: nat)
    requires IsPath(p) && width <= p.depth
    ensures IsPath(q) && q.depth == p.depth - width && suffix < Pow2(width) && Extended(q, suffix, width) == p
  {
    hide Pow2, Shl;
    Pow2Add(p.depth - width, width);
    var x := DivBits(p.bits, Pow2(width), Pow2(p.depth - width));
    suffix := p.bits % Pow2(width);
    ShlIsTimes(x, width);
    q := Path(x, p.depth - width);
  }

  lemma DivBits(b: nat, m: nat, n: nat) returns (x: nat)
    requires m >= 1 && b < n * m
    ensures x < n && b == x * m + b % m
  {
    var q := b / m;
    assert b == m * q + b % m;
    assert q <= -1 ==> m * q <= m * -1;
    assert q >= n ==> m * q >= m * n;
    x := q;
    assert m * q == x * m;
  }

  /* ---------- addition ---------- */

  /** The low n bits. */
  function Low(x: nat, n: nat): nat {
    x % Pow2(n)
  }

  /** Where adding leads, modulo twice the number of paths of that depth. */
  function Moved(p: Path, count: nat): Path {
    Path(Low(p.bits + count, p.depth + 1), p.depth)
  }

  /** Adding, on paths: it is in range exactly if it leads to a path. */
  lemma AddIsPath(p: Path, count: nat)
    requires IsPath(p)
    ensures Valid(RawOf(p)) && (InRange(RawOf(p), count) <==> IsPath(Moved(p, count)))
    ensures InRange(RawOf(p), count) ==> AddrAdd(RawOf(p), count) == RawOf(Moved(p, count))
  {
    hide Or, Lowest, AndNot, Shl, Pow2, Low, AddrPrefix, RawOf, Mod64, Word64, Addr, Valid;
    var q, w := Moved(p, count), 63 - p.depth;
    AddrOfPath(p);
    SumOfShifts(p.bits, count, p.depth + 1, w);
    assert SumPrefix(RawOf(p), count) == PrefixOf(q);
    if q.bits < Pow2(p.depth) {
      ShlBelow(q.bits, p.depth, w);
      AddrOfPath(q);
    } else if PrefixOf(q) < Pow2(63) {
      ShlAtLeast(q.bits, p.depth, w);
    }
  }

  /** Shifted numbers are added in the bits that the shift leaves. */
  lemma SumOfShifts(x: nat, y: nat, n: nat, w: nat)
    requires n + w == 64
    ensures Mod64(Shl(x, w) + Mod64(Shl(y, w))) == Shl(Low(x + y, n), w)
  {
    hide Pow2, Shl, Mod64, Low;
    Mod64OfSum(Shl(x, w), Shl(y, w));
    ShlSum(x, y, w);
    ModOfShl(x + y, n, w);
    Mod64IsLowBits(Shl(x + y, w), n + w);
  }

  lemma Mod64IsLowBits(x: nat, n: nat)
    requires n == 64
    ensures Mod64(x) == Low(x, n)
  {
    hide Pow2;
    WordPowers();
  }

  lemma Mod64OfSum(x: nat, y: nat)
    ensures Mod64(x + Mod64(y)) == Mod64(x + y)
  {
  }

  lemma {:induction false} ModOfShl(x: nat, n: nat, w: nat)
    ensures Low(Shl(x, w), n + w) == Shl(Low(x, n), w)
    decreases w
  {
    if w > 0 {
      ModOfShl(x, n, w - 1);
      HalfMod(Shl(x, w), Pow2(n + w - 1));
      assert Shl(x, w) / 2 == Shl(x, w - 1);
    }
  }

  lemma ModOfSum(x: nat, y: nat, d: nat)
    requires d >= 1
    ensures (x + y % d) % d == (x + y) % d
  {
    var q, q' := y / d, (x + y % d) / d;
    var r := (x + y % d) % d;
    assert y == d * q + y % d && x + y % d == d * q' + r;
    assert x + y == d * (q + q') + r;
    ModUnique(x + y, d, q + q', r);
  }

  /** Subtracting undoes adding, whenever the sum passes ADDR's assertion; so does the difference then. */
  lemma AddThenSub(raw: nat, count: nat)
    requires count < Word64() && InRange(raw, count)
    ensures InRange(AddrAdd(raw, count), Neg64(count)) && AddrSub(AddrAdd(raw, count), count) == raw
  {
    hide AddrAdd, Shl, Pow2, AddrPrefix, RawOf, Lowest, Moved, PrefixOf;
    var p := Decode(raw);
    AddIsPath(p, count);
    var q := Moved(p, count);
    AddIsPath(q, Neg64(count));
    MovedBack(p, count, Neg64(count));
  }

  /** And adding undoes subtracting. */
  lemma SubThenAdd(raw: nat, count: nat)
    requires count < Word64() && InRange(raw, Neg64(count))
    ensures InRange(AddrSub(raw, count), count) && AddrAdd(AddrSub(raw, count), count) == raw
  {
    hide AddrAdd, InRange;
    AddThenSub(raw, Neg64(count));
  }

  /** Moving on by count and its complement leads back. */
  lemma MovedBack(p: Path, count: nat, back: nat)
    requires IsPath(p) && (count + back == 0 || count + back == Word64())
    ensures Moved(Moved(p, count), back) == p
  {
    hide Pow2;
    var m, k := Pow2(p.depth + 1), if count + back == 0 then 0 else Pow2(63 - p.depth);
    Pow2Next(p.depth);
    WordPowers();
    Pow2Add(p.depth + 1, 63 - p.depth);
    ModOfSum(back, p.bits + count, m);
    ModUnique(p.bits + count + back, m, k, p.bits);
  }
}
