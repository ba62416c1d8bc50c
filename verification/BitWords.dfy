/** Bitwise operators on natural numbers, bit by bit, and the powers of two they are used with. */
module BitWords {

  function Pow2(n: nat): nat
    ensures Pow2(n) >= 1
  {
    if n == 0 then 1 else 2 * Pow2(n - 1)
  }

  lemma {:induction false} Pow2Monotone(m: nat, n: nat)
    requires m <= n
    ensures Pow2(m) <= Pow2(n)
    decreases n
  {
    if m < n {
      Pow2Monotone(m, n - 1);
    }
  }

  lemma {:induction false} Pow2Add(m: nat, n: nat)
    ensures Pow2(m + n) == Pow2(m) * Pow2(n)
    decreases n
  {
    if n > 0 {
      Pow2Add(m, n - 1);
      assert m + n - 1 == m + (n - 1);
    }
  }

  lemma Pow2Next(n: nat)
    ensures Pow2(n + 1) == 2 * Pow2(n)
  {
  }

  lemma SmallPowers()
    ensures Pow2(0) == 1 && Pow2(1) == 2 && Pow2(2) == 4 && Pow2(3) == 8 && Pow2(4) == 16
    ensures Pow2(6) == 64 && Pow2(8) == 0x100 && Pow2(14) == 0x4000 && Pow2(15) == 0x8000 && Pow2(16) == 0x10000
  {
    Pow2Add(4, 2);
    Pow2Add(4, 4);
    Pow2Add(8, 6);
    Pow2Add(8, 8);
  }

  /** The number of 32-bit and of 64-bit words. */
  lemma WordPowers()
    ensures Pow2(32) == 0x1_0000_0000 && Pow2(64) == 0x1_0000_0000_0000_0000
  {
    hide Pow2;
    SmallPowers();
    Pow2Add(16, 16);
    Pow2Add(32, 32);
  }

  /** Bit k of w, as 0 or 1. */
  function Bit(w: nat, k: nat): (b: nat)
    ensures b <= 1
    decreases k
  {
    if k == 0 then w % 2 else Bit(w / 2, k - 1)
  }

  function And(x: nat, y: nat): nat {
    if x == 0 || y == 0 then 0 else 2 * And(x / 2, y / 2) + (if x % 2 == 1 && y % 2 == 1 then 1 else 0)
  }

  function Or(x: nat, y: nat): nat
    decreases x + y
  {
    if x == 0 then y else if y == 0 then x
    else 2 * Or(x / 2, y / 2) + (if x % 2 == 1 || y % 2 == 1 then 1 else 0)
  }

  /** x & ~y */
  function AndNot(x: nat, y: nat): nat {
    if x == 0 || y == 0 then x else 2 * AndNot(x / 2, y / 2) + (if x % 2 == 1 && y % 2 == 0 then 1 else 0)
  }

  lemma {:induction false} BitsOfZero(k: nat)
    ensures Bit(0, k) == 0
  {
    if k > 0 {
      BitsOfZero(k - 1);
    }
  }

  lemma {:induction false} BitOfOr(x: nat, y: nat, k: nat)
    ensures Bit(Or(x, y), k) == (if Bit(x, k) == 1 || Bit(y, k) == 1 then 1 else 0)
    decreases k
  {
    BitsOfZero(k);
    if x != 0 && y != 0 && k > 0 {
      BitOfOr(x / 2, y / 2, k - 1);
    }
  }

  lemma {:induction false} BitOfAndNot(x: nat, y: nat, k: nat)
    ensures Bit(AndNot(x, y), k) == (if Bit(x, k) == 1 && Bit(y, k) == 0 then 1 else 0)
    decreases k
  {
    BitsOfZero(k);
    if x != 0 && y != 0 && k > 0 {
      BitOfAndNot(x / 2, y / 2, k - 1);
    }
  }

  lemma {:induction false} BitOfPow2(n: nat, k: nat)
    ensures Bit(Pow2(n), k) == (if k == n then 1 else 0)
    decreases k
  {
    if n == 0 && k > 0 {
      BitsOfZero(k - 1);
    } else if n > 0 && k > 0 {
      BitOfPow2(n - 1, k - 1);
    }
  }

  /** Masking with a power of two tests one bit. */
  lemma {:induction false} AndPow2(w: nat, k: nat)
    ensures And(w, Pow2(k)) == (if Bit(w, k) == 1 then Pow2(k) else 0)
    decreases k
  {
    if w == 0 {
      BitsOfZero(k);
    } else if k > 0 {
      AndPow2(w / 2, k - 1);
    } else {
      assert And(w / 2, 0) == 0;
    }
  }

  /** A value below 2^k has no bit at k or above. */
  lemma {:induction false} NoHighBits(w: nat, k: nat, j: nat)
    requires w < Pow2(k) && k <= j
    ensures Bit(w, j) == 0
    decreases k
  {
    if k == 0 {
      BitsOfZero(j);
    } else {
      NoHighBits(w / 2, k - 1, j - 1);
    }
  }

  /** A value of at least 2^k has some bit at k or above. */
  lemma {:induction false} SomeHighBit(w: nat, k: nat) returns (j: nat)
    requires w >= Pow2(k)
    ensures j >= k && Bit(w, j) == 1
    decreases w
  {
    if k > 0 {
      j := SomeHighBit(w / 2, k - 1);
      j := j + 1;
    } else if w % 2 == 1 {
      j := 0;
    } else {
      j := SomeHighBit(w / 2, 0);
      j := j + 1;
    }
  }

  lemma {:induction false} OrBelow(x: nat, y: nat, k: nat)
    requires x < Pow2(k) && y < Pow2(k)
    ensures Or(x, y) < Pow2(k)
    decreases k
  {
    if x != 0 && y != 0 {
      OrBelow(x / 2, y / 2, k - 1);
    }
  }

  lemma {:induction false} AndNotBelow(x: nat, y: nat)
    ensures AndNot(x, y) <= x
    decreases x
  {
    if x != 0 && y != 0 {
      AndNotBelow(x / 2, y / 2);
    }
  }

  /** Quotient and remainder are unique. */
  lemma ModUnique(x: nat, d: nat, q: nat, r: nat)
    requires d >= 1 && x == d * q + r && r < d
    ensures x % d == r
  {
    var q', r' := x / d, x % d;
    assert x == d * q' + r';
    assert d * (q - q') == r' - r;
    NoSmallMultiple(d, q - q');
  }

  lemma NoSmallMultiple(d: int, k: int)
    requires -d < d * k < d
    ensures k == 0
  {
    assert k >= 1 ==> d * k >= d * 1;
    assert k <= -1 ==> d * k <= d * -1;
  }

  /* ---------- logarithms ---------- */

  /** Position of the highest set bit (what the BSRL instruction computes). */
  function Log2(x: nat): nat
    requires x >= 1
  {
    if x == 1 then 0 else Log2(x / 2) + 1
  }

  lemma {:induction false} Log2Brackets(x: nat)
    requires x >= 1
    ensures Pow2(Log2(x)) <= x < 2 * Pow2(Log2(x))
  {
    if x > 1 {
      Log2Brackets(x / 2);
    }
  }

  lemma {:induction false} Log2Unique(x: nat, m: nat)
    requires x >= 1 && Pow2(m) <= x < 2 * Pow2(m)
    ensures Log2(x) == m
  {
    if x > 1 {
      Log2Unique(x / 2, m - 1);
    }
  }

  lemma {:induction false} Log2Monotone(x: nat, y: nat)
    requires 1 <= x <= y
    ensures Log2(x) <= Log2(y)
  {
    if x > 1 {
      Log2Monotone(x / 2, y / 2);
    }
  }

  /* ---------- masks ---------- */

  lemma {:induction false} AndSelf(x: nat)
    ensures And(x, x) == x
  {
    if x != 0 {
      AndSelf(x / 2);
    }
  }

  /** x & (x - 1) is 0 only for powers of two. */
  lemma {:induction false} OneBit(x: nat)
    requires x >= 1 && And(x, x - 1) == 0
    ensures x == Pow2(Log2(x))
  {
    if x > 1 {
      if x % 2 == 0 {
        assert (x - 1) / 2 == x / 2 - 1;
        OneBit(x / 2);
      } else {
        assert (x - 1) / 2 == x / 2;
        AndSelf(x / 2);
      }
    }
  }

  lemma AndHalves(x: nat, y: nat, b: nat)
    requires b <= 1
    ensures And(x, 2 * y + b) == 2 * And(x / 2, y) + (if x % 2 == 1 && b == 1 then 1 else 0)
  {
    assert (2 * y + b) / 2 == y && (2 * y + b) % 2 == b;
    assert And(x / 2, 0) == 0 && And(0, y) == 0;
  }

  lemma HalfMod(x: nat, p: nat)
    requires p >= 1
    ensures x % (2 * p) == 2 * (x / 2 % p) + x % 2
  {
    var q, r := x / 2 / p, x / 2 % p;
    assert x == 2 * p * q + (2 * r + x % 2);
    ModUnique(x, 2 * p, q, 2 * r + x % 2);
  }

  /** x & (2^k - 1) is the remainder modulo 2^k. */
  lemma {:induction false} AndLowMask(x: nat, k: nat)
    ensures And(x, Pow2(k) - 1) == x % Pow2(k)
    decreases k
  {
    if k > 0 {
      AndLowMask(x / 2, k - 1);
      AndHalves(x, Pow2(k - 1) - 1, 1);
      HalfMod(x, Pow2(k - 1));
    } else {
      assert And(x, 0) == 0;
    }
  }

  /** x << k */
  function Shl(x: nat, k: nat): nat {
    if k == 0 then x else 2 * Shl(x, k - 1)
  }

  lemma {:induction false} ShlIsTimes(x: nat, k: nat)
    ensures Shl(x, k) == x * Pow2(k)
    decreases k
  {
    if k > 0 {
      ShlIsTimes(x, k - 1);
      assert x * Pow2(k) == 2 * (x * Pow2(k - 1));
    }
  }

  /** Numbers without common bits: | is +. */
  lemma {:induction false} OrDisjoint(x: nat, k: nat, y: nat)
    requires y < Pow2(k)
    ensures Or(Shl(x, k), y) == Shl(x, k) + y
    decreases k
  {
    if k > 0 {
      OrDisjoint(x, k - 1, y / 2);
      OrEven(Shl(x, k - 1), y);
    }
  }

  lemma OrEven(z: nat, y: nat)
    requires Or(z, y / 2) == z + y / 2
    ensures Or(2 * z, y) == 2 * z + y
  {
    assert 2 * z / 2 == z && 2 * z % 2 == 0;
  }

  /** Bit j of 2^k - 1. */
  lemma {:induction false} BitOfLowMask(k: nat, j: nat)
    ensures Bit(Pow2(k) - 1, j) == if j < k then 1 else 0
    decreases k
  {
    if k == 0 {
      BitsOfZero(j);
    } else if j > 0 {
      BitOfLowMask(k - 1, j - 1);
      assert (Pow2(k) - 1) / 2 == Pow2(k - 1) - 1;
    } else {
      assert Pow2(k) - 1 == 2 * (Pow2(k - 1) - 1) + 1;
    }
  }

  lemma {:induction false} BitOfRemainder(w: nat, k: nat, j: nat)
    requires j < k
    ensures Bit(w % Pow2(k), j) == Bit(w, j)
    decreases k
  {
    var p := Pow2(k - 1);
    HalfMod(w, p);
    var r := w / 2 % p;
    assert w % Pow2(k) == 2 * r + w % 2;
    assert (2 * r + w % 2) / 2 == r && (2 * r + w % 2) % 2 == w % 2;
    if j > 0 {
      BitOfRemainder(w / 2, k - 1, j - 1);
    }
  }
}
