/** Allocation of bits in a byte array. */
module BitArray {
  import opened BitWords

  ghost predicate IsBytes(s: seq<nat>) {
    forall i | 0 <= i < |s| :: s[i] < 256
  }

  /** Bit i of the array. */
  predicate IsSet(s: seq<nat>, i: nat)
    requires i < 8 * |s|
  {
    Bit(s[i / 8], i % 8) == 1
  }

  /** The allocated indices. */
  ghost function Allocated(s: seq<nat>): set<int> {
    set i | 0 <= i < 8 * |s| && IsSet(s, i)
  }

  /* ---------- one byte ---------- */

  /** first_free_bit */
  function FirstFree(nibble: nat): int
    requires nibble < 16
  {
    [0, 1, 0, 2, 0, 1, 0, 3, 0, 1, 0, 2, 0, 1, 0, -1][nibble]
  }

  /** k is the lowest clear bit of the n-bit number w, or -1 if all n bits are set. */
  ghost predicate LowestClear(w: nat, n: nat, k: int) {
    && -1 <= k < n
    && (k >= 0 ==> Bit(w, k) == 0 && forall j | 0 <= j < k :: Bit(w, j) == 1)
    && (k == -1 ==> forall j | 0 <= j < n :: Bit(w, j) == 1)
  }

  lemma NibbleBits(w: nat)
    ensures Bit(w, 0) == w % 2 && Bit(w, 1) == w / 2 % 2 && Bit(w, 2) == w / 2 / 2 % 2 && Bit(w, 3) == w / 2 / 2 / 2 % 2
  {
  }

  lemma FirstFreeIsLowest(nibble: nat)
    requires nibble < 16
    ensures LowestClear(nibble, 4, FirstFree(nibble))
  {
    NibbleBits(nibble);
    hide Bit;
  }

  /** check_byte: the low four bits first, then the high ones. */
  function CheckByte(b: nat): int
    requires b < 256
  {
    var low := FirstFree(b % 16);
    if low != -1 then low
    else
      var high := FirstFree(b / 16);
      if high != -1 then 4 + high else -1
  }

  lemma CheckByteIsLowest(b: nat)
    requires b < 256
    ensures LowestClear(b, 8, CheckByte(b))
  {
    hide FirstFree, Bit;
    FirstFreeIsLowest(b % 16);
    FirstFreeIsLowest(b / 16);
    SmallPowers();
    forall j | 0 <= j < 4
      ensures Bit(b % 16, j) == Bit(b, j) && Bit(b / 16, j) == Bit(b, j + 4)
    {
      BitOfRemainder(b, 4, j);
      HighNibble(b, j);
    }
    forall j | 0 <= j < 8
      ensures Bit(b, j) == if j < 4 then Bit(b % 16, j) else Bit(b / 16, j - 4)
    {
      if j >= 4 {
        assert Bit(b / 16, j - 4) == Bit(b, j - 4 + 4);
      }
    }
  }

  lemma HighNibble(b: nat, j: nat)
    ensures Bit(b / 16, j) == Bit(b, j + 4)
  {
    var h1 := b / 2;
    var h2 := h1 / 2;
    var h3 := h2 / 2;
    assert b / 16 == h3 / 2;
    assert Bit(b, j + 4) == Bit(h1, j + 3) && Bit(h1, j + 3) == Bit(h2, j + 2) && Bit(h2, j + 2) == Bit(h3, j + 1);
  }

  /** b shows bits lo to hi of w as they are and all others set. */
  ghost predicate Shows(b: nat, w: nat, lo: nat, hi: nat) {
    b < 256 && forall j :: ShowsBit(b, w, lo, hi, j)
  }

  ghost predicate ShowsBit(b: nat, w: nat, lo: nat, hi: nat, j: int) {
    0 <= j < 8 ==> Bit(b, j) == if lo <= j < hi then Bit(w, j) else 1
  }

  /** Or-ing in the low k bits, or the high ones, hides them from the search. */
  lemma LowBitsHidden(b: nat, k: nat)
    requires b < 256 && k < 8
    ensures Shows(Or(b, Pow2(k) - 1), b, k, 8)
  {
    Pow2Monotone(k, 8);
    SmallPowers();
    OrBelow(b, Pow2(k) - 1, 8);
    var c := Or(b, Pow2(k) - 1);
    hide Bit, Or, Pow2;
    forall j ensures ShowsBit(c, b, k, 8, j) {
      if 0 <= j < 8 {
        BitOfOr(b, Pow2(k) - 1, j);
        BitOfLowMask(k, j);
      }
    }
  }

  lemma ShowsAll(b: nat)
    requires b < 256
    ensures Shows(b, b, 0, 8)
  {
    forall j ensures ShowsBit(b, b, 0, 8, j) {}
  }

  lemma HighBitsHidden(b: nat, k: nat)
    requires b < 256 && k < 8
    ensures 256 - Pow2(k) >= 0 && Shows(Or(b, 256 - Pow2(k)), b, 0, k)
  {
    Pow2Monotone(k, 8);
    SmallPowers();
    OrBelow(b, 256 - Pow2(k), 8);
    var c := Or(b, 256 - Pow2(k));
    hide Bit, Or, Pow2;
    forall j ensures ShowsBit(c, b, 0, k, j) {
      if 0 <= j < 8 {
        BitOfOr(b, 256 - Pow2(k), j);
        BitOfHighMask(8, k, j);
      }
    }
  }

  lemma {:induction false} BitOfHighMask(n: nat, k: nat, j: nat)
    requires k <= n && j < n
    ensures Pow2(n) >= Pow2(k)
    ensures Bit(Pow2(n) - Pow2(k), j) == if j < k then 0 else 1
    decreases n
  {
    Pow2Monotone(k, n);
    if k == 0 {
      BitOfLowMask(n, j);
    } else if j > 0 {
      BitOfHighMask(n - 1, k - 1, j - 1);
      assert (Pow2(n) - Pow2(k)) / 2 == Pow2(n - 1) - Pow2(k - 1);
    } else {
      assert Pow2(n) - Pow2(k) == 2 * (Pow2(n - 1) - Pow2(k - 1));
    }
  }

  /* ---------- the array ---------- */

  /** The array with bit i set, and with bit i cleared. */
  function WithBit(s: seq<nat>, i: nat): seq<nat>
    requires i < 8 * |s|
  {
    s[i / 8 := Or(s[i / 8], Pow2(i % 8))]
  }

  function WithoutBit(s: seq<nat>, i: nat): seq<nat>
    requires i < 8 * |s|
  {
    s[i / 8 := AndNot(s[i / 8], Pow2(i % 8))]
  }

  lemma SetOneBit(s: seq<nat>, i: nat)
    requires IsBytes(s) && i < 8 * |s|
    ensures IsBytes(WithBit(s, i)) && Allocated(WithBit(s, i)) == Allocated(s) + {i}
  {
    var t := WithBit(s, i);
    Pow2Monotone(i % 8 + 1, 8);
    SmallPowers();
    OrBelow(s[i / 8], Pow2(i % 8), 8);
    forall j | 0 <= j < 8 * |s|
      ensures IsSet(t, j) <==> IsSet(s, j) || j == i
    {
      BitOfOr(s[i / 8], Pow2(i % 8), j % 8);
      BitOfPow2(i % 8, j % 8);
    }
  }

  lemma ClearOneBit(s: seq<nat>, i: nat)
    requires IsBytes(s) && i < 8 * |s|
    ensures IsBytes(WithoutBit(s, i)) && Allocated(WithoutBit(s, i)) == Allocated(s) - {i}
  {
    var t := WithoutBit(s, i);
    AndNotBelow(s[i / 8], Pow2(i % 8));
    forall j | 0 <= j < 8 * |s|
      ensures IsSet(t, j) <==> IsSet(s, j) && j != i
    {
      BitOfAndNot(s[i / 8], Pow2(i % 8), j % 8);
      BitOfPow2(i % 8, j % 8);
    }
  }

  /** bit_test */
  method BitTest(a: array<nat>, bit: nat) returns (r: bool)
    requires bit < 8 * a.Length
    ensures r <==> bit in Allocated(a[..])
  {
    AndPow2(a[bit / 8], bit % 8);
    r := And(a[bit / 8], Pow2(bit % 8)) != 0;
  }

  /** bit_set: false if the bit was set already. */
  method BitSet(a: array<nat>, bit: nat) returns (r: bool)
    requires IsBytes(a[..]) && bit < 8 * a.Length
    modifies a
    ensures IsBytes(a[..]) && Allocated(a[..]) == old(Allocated(a[..])) + {bit}
    ensures r <==> bit !in old(Allocated(a[..]))
  {
    var isSet := BitTest(a, bit);
    SetOneBit(a[..], bit);
    if isSet {
      assert Allocated(a[..]) == Allocated(a[..]) + {bit};
      return false;
    }
    ghost var s := a[..];
    a[bit / 8] := Or(a[bit / 8], Pow2(bit % 8));
    assert a[..] == WithBit(s, bit);
    r := true;
  }

  /** bit_set_to */
  method BitSetTo(a: array<nat>, bit: nat, value: bool)
    requires IsBytes(a[..]) && bit < 8 * a.Length
    modifies a
    ensures IsBytes(a[..])
    ensures Allocated(a[..]) == if value then old(Allocated(a[..])) + {bit} else old(Allocated(a[..])) - {bit}
  {
    ghost var s := a[..];
    if value {
      SetOneBit(a[..], bit);
      a[bit / 8] := Or(a[bit / 8], Pow2(bit % 8));
      assert a[..] == WithBit(s, bit);
    } else {
      ClearOneBit(a[..], bit);
      a[bit / 8] := AndNot(a[bit / 8], Pow2(bit % 8));
      assert a[..] == WithoutBit(s, bit);
    }
  }

  /** bit_dealloc */
  method BitDealloc(a: array<nat>, bit: nat)
    requires IsBytes(a[..]) && bit < 8 * a.Length && bit in Allocated(a[..])
    modifies a
    ensures IsBytes(a[..]) && Allocated(a[..]) == old(Allocated(a[..])) - {bit}
  {
    BitSetTo(a, bit, false);
  }

  ghost predicate AllSet(s: seq<nat>, from: int, to: int) {
    forall i | 0 <= from <= i < to <= 8 * |s| :: IsSet(s, i)
  }

  /** r is the first clear bit in cyclic order from start. */
  ghost predicate FirstClear(s: seq<nat>, start: int, r: int) {
    && 0 <= r < 8 * |s| && !IsSet(s, r)
    && (start <= r ==> AllSet(s, start, r))
    && (r < start ==> AllSet(s, start, 8 * |s|) && AllSet(s, 0, r))
  }

  /** What one look at a byte tells about bits lo to hi of it, the others having been hidden. */
  lemma ByteSearched(s: seq<nat>, byte: nat, b: nat, lo: nat, hi: nat)
    requires byte < |s| && lo <= hi <= 8 && Shows(b, s[byte], lo, hi)
    ensures b < 256
    ensures var k := CheckByte(b);
            if k == -1 then AllSet(s, 8 * byte + lo, 8 * byte + hi)
            else lo <= k < hi && !IsSet(s, 8 * byte + k) && AllSet(s, 8 * byte + lo, 8 * byte + k)
  {
    CheckByteIsLowest(b);
    var k := CheckByte(b);
    hide CheckByte, Bit;
    if k != -1 {
      assert ShowsBit(b, s[byte], lo, hi, k);
      assert (8 * byte + k) / 8 == byte && (8 * byte + k) % 8 == k;
    }
    forall i | 8 * byte + lo <= i < 8 * byte + (if k == -1 then hi else k)
      ensures IsSet(s, i)
    {
      assert i / 8 == byte && i % 8 == i - 8 * byte;
      assert Bit(b, i - 8 * byte) == 1 && ShowsBit(b, s[byte], lo, hi, i - 8 * byte);
    }
  }

  lemma AllSetJoin(s: seq<nat>, a: int, b: int, c: int)
    requires 0 <= a <= b <= c <= 8 * |s| && AllSet(s, a, b) && AllSet(s, b, c)
    ensures AllSet(s, a, c)
  {
  }

  /** bit_alloc: the first clear bit in cyclic order from start is set, or -1 if every bit is set. */
  method BitAlloc(a: array<nat>, start: nat) returns (r: int)
    requires IsBytes(a[..]) && start < 8 * a.Length
    modifies a
    ensures IsBytes(a[..])
    ensures r != -1 ==> FirstClear(old(a[..]), start, r) && Allocated(a[..]) == old(Allocated(a[..])) + {r}
    ensures r == -1 ==> a[..] == old(a[..])
    ensures r == -1 <==> AllSet(old(a[..]), 0, 8 * a.Length)
  {
    hide CheckByte, Bit, Or, Allocated, IsSet, Shows;
    ghost var s := a[..];
    var startByte, k := start / 8, start % 8;
    var byte := startByte;
    LowBitsHidden(a[byte], k);
    ShowsAll(a[byte]);
    var b := if k != 0 then Or(a[byte], Pow2(k) - 1) else a[byte];
    ByteSearched(s, byte, b, k, 8);
    var bit := CheckByte(b);
    while bit == -1
      invariant a[..] == s && byte < a.Length
      invariant if byte >= startByte then
                  (if bit == -1 then AllSet(s, start, 8 * byte + 8)
                   else
                     && 8 * byte + bit >= start && 0 <= bit < 8
                     && AllSet(s, start, 8 * byte + bit) && !IsSet(s, 8 * byte + bit))
                else
                  && AllSet(s, start, 8 * a.Length)
                  && (if bit == -1 then AllSet(s, 0, 8 * byte + 8)
                      else 0 <= bit < 8 && AllSet(s, 0, 8 * byte + bit) && !IsSet(s, 8 * byte + bit))
      decreases if byte >= startByte then startByte + a.Length - byte else startByte - byte, if bit == -1 then 1 else 0
    {
      byte := byte + 1;
      if byte == a.Length {
        byte := 0;
      }
      if byte == startByte {
        r := LastByte(a, start, byte);
        return;
      }
      b := a[byte];
      ShowsAll(b);
      ByteSearched(s, byte, b, 0, 8);
      bit := CheckByte(b);
    }
    r := byte * 8 + bit;
    Take(a, byte, bit);
  }

  /** Sets the bit that was found. */
  method Take(a: array<nat>, byte: nat, bit: nat)
    requires IsBytes(a[..]) && byte < a.Length && bit < 8
    modifies a
    ensures IsBytes(a[..]) && Allocated(a[..]) == old(Allocated(a[..])) + {8 * byte + bit}
  {
    ghost var s := a[..];
    SetOneBit(s, 8 * byte + bit);
    assert (8 * byte + bit) / 8 == byte && (8 * byte + bit) % 8 == bit;
    a[byte] := Or(a[byte], Pow2(bit));
    assert a[..] == WithBit(s, 8 * byte + bit);
  }

  /** The bits of the first byte below start are looked at last. */
  method LastByte(a: array<nat>, start: nat, byte: nat) returns (r: int)
    requires IsBytes(a[..]) && start < 8 * a.Length && byte == start / 8
    requires AllSet(a[..], start, 8 * a.Length) && AllSet(a[..], 0, 8 * byte)
    modifies a
    ensures IsBytes(a[..])
    ensures r != -1 ==> FirstClear(old(a[..]), start, r) && Allocated(a[..]) == old(Allocated(a[..])) + {r}
    ensures r == -1 ==> a[..] == old(a[..])
    ensures r == -1 <==> AllSet(old(a[..]), 0, 8 * a.Length)
  {
    hide CheckByte, Bit, Or, Allocated, IsSet, Shows;
    var k := start % 8;
    r := -1;
    if k != 0 {
      HighBitsHidden(a[byte], k);
      var b := Or(a[byte], 256 - Pow2(k));
      ByteSearched(a[..], byte, b, 0, k);
      var bit := CheckByte(b);
      if bit != -1 {
        AllSetJoin(a[..], 0, 8 * byte, 8 * byte + bit);
        r := byte * 8 + bit;
        Take(a, byte, bit);
        return;
      }
      AllSetJoin(a[..], 0, 8 * byte, 8 * byte + k);
    }
    AllSetJoin(a[..], 0, start, 8 * a.Length);
  }

  /* ---------- runs ---------- */

  datatype Op = Alloc(start: nat) | Dealloc(bit: nat)

  /** Any run of allocations and deallocations behaves like a set of allocated indices: an allocation
      returns an index not in it and fails only when it is full. */
  method Run(a: array<nat>, ops: seq<Op>, ghost held: set<int>) returns (results: seq<int>, ghost after: set<int>)
    requires IsBytes(a[..]) && Allocated(a[..]) == held
    requires forall op | op in ops && op.Alloc? :: op.start < 8 * a.Length
    modifies a
    ensures IsBytes(a[..]) && Allocated(a[..]) == after
    ensures |results| == |ops| && after == Effect(held, ops, results)
    ensures Faithful(held, ops, results, 8 * a.Length)
  {
    results, after := [], held;
    for i := 0 to |ops|
      invariant IsBytes(a[..]) && Allocated(a[..]) == after
      invariant |results| == i && after == Effect(held, ops[..i], results)
      invariant Faithful(held, ops[..i], results, 8 * a.Length)
    {
      ghost var before := after;
      var r := -1;
      match ops[i] {
        case Alloc(start) =>
          assert ops[i] in ops;
          ghost var s := a[..];
          r := BitAlloc(a, start);
          AllocatesFirst(s, start, r);
          if r != -1 {
            after := after + {r};
          }
        case Dealloc(bit) =>
          if bit < 8 * a.Length {
            var isSet := BitTest(a, bit);
            if isSet {
              BitDealloc(a, bit);
            }
          }
          assert bit !in after ==> after - {bit} == after;
          after := after - {bit};
      }
      assert ops[..i + 1][..i] == ops[..i] && (results + [r])[..i] == results;
      results := results + [r];
    }
    assert ops[..|ops|] == ops;
  }

  /** The set after a run whose calls returned results. */
  ghost function Effect(s: set<int>, ops: seq<Op>, results: seq<int>): set<int>
    requires |ops| == |results|
  {
    if ops == [] then s
    else
      var n := |ops| - 1;
      var t := Effect(s, ops[..n], results[..n]);
      match ops[n]
      case Alloc(_) => if results[n] == -1 then t else t + {results[n]}
      case Dealloc(bit) => t - {bit}
  }

  /** r is the first index in cyclic order from start that is not in t. */
  ghost predicate FirstOutside(t: set<int>, size: nat, start: int, r: int) {
    && 0 <= r < size && r !in t
    && (start <= r ==> forall k | start <= k < r :: k in t)
    && (r < start ==> (forall k | start <= k < size :: k in t) && forall k | 0 <= k < r :: k in t)
  }

  /** Each allocation returned the first index that was not allocated, or failed with all of them allocated. */
  ghost predicate Faithful(s: set<int>, ops: seq<Op>, results: seq<int>, size: nat)
    requires |ops| == |results|
  {
    ops == [] ||
    var n := |ops| - 1;
    && Faithful(s, ops[..n], results[..n], size)
    && (ops[n].Alloc? ==>
          var t := Effect(s, ops[..n], results[..n]);
          if results[n] == -1 then forall k | 0 <= k < size :: k in t
          else FirstOutside(t, size, ops[n].start, results[n]))
  }

  lemma AllocatesFirst(s: seq<nat>, start: int, r: int)
    requires 0 <= start < 8 * |s|
    ensures AllSet(s, 0, 8 * |s|) ==> forall k | 0 <= k < 8 * |s| :: k in Allocated(s)
    ensures FirstClear(s, start, r) ==> FirstOutside(Allocated(s), 8 * |s|, start, r)
  {
    hide Bit;
    assert forall k | 0 <= k < 8 * |s| :: k in Allocated(s) <==> IsSet(s, k);
  }
}
