/** The four functions of RFC 1321, section 3.4, and the forms of them that the code computes. */
module Md5Functions {
  function F(x: bv32, y: bv32, z: bv32): bv32 {
    (x & y) | (!x & z)
  }

  function G(x: bv32, y: bv32, z: bv32): bv32 {
    (x & z) | (y & !z)
  }

  function H(x: bv32, y: bv32, z: bv32): bv32 {
    x ^ y ^ z
  }

  function I(x: bv32, y: bv32, z: bv32): bv32 {
    y ^ (x | !z)
  }

  function FF(b: bv32, c: bv32, d: bv32): (r: bv32)
    ensures r == (b & c) | (!b & d)
  {
    d ^ (b & (c ^ d))
  }

  /** The exclusive-or form chooses bits as F does. */
  lemma OptimizedF(b: bv32, c: bv32, d: bv32)
    ensures FF(b, c, d) == F(b, c, d)
  {
    hide FF;
  }

  function FG(b: bv32, c: bv32, d: bv32): (r: bv32)
    ensures r == G(b, c, d)
  {
    FF(d, b, c)
  }

  function FH(b: bv32, c: bv32, d: bv32): (r: bv32)
    ensures r == H(b, c, d)
  {
    b ^ c ^ d
  }

  function FI(b: bv32, c: bv32, d: bv32): (r: bv32)
    ensures r == I(b, c, d)
  {
    c ^ (b | !d)
  }
}

/** The MD5 message digest as sections 3.1 to 3.5 of RFC 1321 define it: padding, little-endian words, and
    64 table-driven steps for each block of 16 words. */
module Md5Spec {
  import opened Md5Functions

  type byte = bv8

  /** The four words of the state. */
  datatype Hash = Hash(a: bv32, b: bv32, c: bv32, d: bv32)

  const INITIAL: Hash := Hash(0x67452301, 0xefcdab89, 0x98badcfe, 0x10325476)

  /** The function of the round that step i belongs to. */
  function Mix(i: nat, x: bv32, y: bv32, z: bv32): bv32 {
    if i < 16 then F(x, y, z) else if i < 32 then G(x, y, z) else if i < 48 then H(x, y, z) else I(x, y, z)
  }

  /** Which of the 16 words step i adds. */
  function WordIndex(i: nat): (k: nat)
    ensures k < 16
  {
    (if i < 16 then i else if i < 32 then 5 * i + 1 else if i < 48 then 3 * i + 5 else 7 * i) % 16
  }

  /** By how many bits step i rotates. */
  function Shift(i: nat): (s: bv32)
    ensures s <= 32
  {
    if i < 16 then (match i % 4 case 0 => 7 case 1 => 12 case 2 => 17 case _ => 22)
    else if i < 32 then (match i % 4 case 0 => 5 case 1 => 9 case 2 => 14 case _ => 20)
    else if i < 48 then (match i % 4 case 0 => 4 case 1 => 11 case 2 => 16 case _ => 23)
    else (match i % 4 case 0 => 6 case 1 => 10 case 2 => 15 case _ => 21)
  }

  /** The integer part of 2^32 * |sin (i + 1)|. */
  function T(i: nat): bv32 {
    if i < 16 then T1(i) else if i < 32 then T2(i - 16) else if i < 48 then T3(i - 32) else T4(i - 48)
  }

  function T1(i: nat): bv32 {
    match i
    case 0 => 0xd76aa478
    case 1 => 0xe8c7b756
    case 2 => 0x242070db
    case 3 => 0xc1bdceee
    case 4 => 0xf57c0faf
    case 5 => 0x4787c62a
    case 6 => 0xa8304613
    case 7 => 0xfd469501
    case 8 => 0x698098d8
    case 9 => 0x8b44f7af
    case 10 => 0xffff5bb1
    case 11 => 0x895cd7be
    case 12 => 0x6b901122
    case 13 => 0xfd987193
    case 14 => 0xa679438e
    case _ => 0x49b40821
  }

  function T2(i: nat): bv32 {
    match i
    case 0 => 0xf61e2562
    case 1 => 0xc040b340
    case 2 => 0x265e5a51
    case 3 => 0xe9b6c7aa
    case 4 => 0xd62f105d
    case 5 => 0x02441453
    case 6 => 0xd8a1e681
    case 7 => 0xe7d3fbc8
    case 8 => 0x21e1cde6
    case 9 => 0xc33707d6
    case 10 => 0xf4d50d87
    case 11 => 0x455a14ed
    case 12 => 0xa9e3e905
    case 13 => 0xfcefa3f8
    case 14 => 0x676f02d9
    case _ => 0x8d2a4c8a
  }

  function T3(i: nat): bv32 {
    match i
    case 0 => 0xfffa3942
    case 1 => 0x8771f681
    case 2 => 0x6d9d6122
    case 3 => 0xfde5380c
    case 4 => 0xa4beea44
    case 5 => 0x4bdecfa9
    case 6 => 0xf6bb4b60
    case 7 => 0xbebfbc70
    case 8 => 0x289b7ec6
    case 9 => 0xeaa127fa
    case 10 => 0xd4ef3085
    case 11 => 0x04881d05
    case 12 => 0xd9d4d039
    case 13 => 0xe6db99e5
    case 14 => 0x1fa27cf8
    case _ => 0xc4ac5665
  }

  function T4(i: nat): bv32 {
    match i
    case 0 => 0xf4292244
    case 1 => 0x432aff97
    case 2 => 0xab9423a7
    case 3 => 0xfc93a039
    case 4 => 0x655b59c3
    case 5 => 0x8f0ccc92
    case 6 => 0xffeff47d
    case 7 => 0x85845dd1
    case 8 => 0x6fa87e4f
    case 9 => 0xfe2ce6e0
    case 10 => 0xa3014314
    case 11 => 0x4e0811a1
    case 12 => 0xf7537e82
    case 13 => 0xbd3af235
    case 14 => 0x2ad7d2bb
    case _ => 0xeb86d391
  }

  function RotateLeft(w: bv32, s: bv32): bv32
    requires s <= 32
  {
    (w << s) | (w >> (32 - s))
  }

  /** The new value of a step, from the value f of its function, its word w, its constant t and its shift s. */
  function NewValue(a: bv32, b: bv32, f: bv32, w: bv32, t: bv32, s: bv32): bv32
    requires s <= 32
  {
    b + RotateLeft(a + f + w + t, s)
  }

  /** The new value that step i computes from the words a, b, c, d. */
  function Mixed(i: nat, a: bv32, b: bv32, c: bv32, d: bv32, x: seq<bv32>): bv32
    requires |x| == 16
  {
    NewValue(a, b, Mix(i, b, c, d), x[WordIndex(i)], T(i), Shift(i))
  }

  /** The state after the first i steps; the words change places so that step i always replaces the first. */
  function Steps(q: Hash, x: seq<bv32>, i: nat): Hash
    requires |x| == 16
  {
    if i == 0 then q
    else
      var r := Steps(q, x, i - 1);
      Hash(r.d, Mixed(i - 1, r.a, r.b, r.c, r.d, x), r.b, r.c)
  }

  /** Four bytes, the low-order byte first. */
  function Word(m: seq<byte>, k: nat): bv32
    requires k + 4 <= |m|
  {
    (m[k] as bv32) | ((m[k + 1] as bv32) << 8) | ((m[k + 2] as bv32) << 16) | ((m[k + 3] as bv32) << 24)
  }

  function Words(block: seq<byte>): (x: seq<bv32>)
    requires |block| == 64
    ensures |x| == 16
  {
    seq(16, i requires 0 <= i < 16 => Word(block, 4 * i))
  }

  function Added(r: Hash, q: Hash): Hash {
    Hash(r.a + q.a, r.b + q.b, r.c + q.c, r.d + q.d)
  }

  function Compress(q: Hash, block: seq<byte>): Hash
    requires |block| == 64
  {
    Added(Steps(q, Words(block), 64), q)
  }

  /** All blocks of m, from the first. */
  function Absorb(q: Hash, m: seq<byte>): Hash
    requires |m| % 64 == 0
    decreases |m|
  {
    if m == [] then q else Absorb(Compress(q, m[..64]), m[64..])
  }

  function ByteOf(n: nat): byte {
    (n % 256) as bv8
  }

  /** The low k bytes of n, the low-order byte first. */
  function Bytes(n: nat, k: nat): (s: seq<byte>)
    ensures |s| == k
  {
    if k == 0 then [] else [ByteOf(n)] + Bytes(n / 256, k - 1)
  }

  function Zeros(k: nat): (s: seq<byte>)
    ensures |s| == k
  {
    seq(k, _ => 0)
  }

  /** How many zero bytes follow the byte 0x80. */
  function PadZeros(length: nat): (k: nat)
    ensures k < 64 && (length + 1 + k) % 64 == 56 && (length + 1 + k + 8) % 64 == 0
  {
    assert length == 64 * (length / 64) + length % 64;
    (119 - length % 64) % 64
  }

  /** The length in bits, of which only the low 64 bits are used. */
  function LengthBytes(length: nat): (s: seq<byte>)
    ensures |s| == 8
  {
    Bytes(8 * length % 0x1_0000_0000_0000_0000, 8)
  }

  /** One bit 1, then zeros up to 56 bytes modulo 64, then the length in bits modulo 2^64. */
  function Padding(length: nat): (p: seq<byte>)
    ensures (length + |p|) % 64 == 0
  {
    [0x80 as bv8] + Zeros(PadZeros(length)) + LengthBytes(length)
  }

  function WordBytes(w: bv32): (s: seq<byte>)
    ensures |s| == 4
  {
    [(w & 0xff) as bv8, ((w >> 8) & 0xff) as bv8, ((w >> 16) & 0xff) as bv8, ((w >> 24) & 0xff) as bv8]
  }

  /** Bytes and words are read and written in the same order. */
  lemma WordReadsBack(w: bv32)
    ensures Word(WordBytes(w), 0) == w
  {
  }

  /** A word is the number its bytes spell in base 256, the low-order byte first. */
  lemma WordIsSum(m: seq<byte>, k: nat)
    requires k + 4 <= |m|
    ensures Word(m, k) == (m[k] as bv32) + 0x100 * (m[k + 1] as bv32)
                          + 0x1_0000 * (m[k + 2] as bv32) + 0x100_0000 * (m[k + 3] as bv32)
  {
  }

  function Output(q: Hash): (digest: seq<byte>)
    ensures |digest| == 16
  {
    WordBytes(q.a) + WordBytes(q.b) + WordBytes(q.c) + WordBytes(q.d)
  }

  /** The digest of the message m. */
  function Digest(m: seq<byte>): (digest: seq<byte>)
    ensures |digest| == 16
  {
    Output(Absorb(INITIAL, m + Padding(|m|)))
  }

  /** Whole blocks can be absorbed separately. */
  lemma {:induction false} AbsorbConcat(q: Hash, x: seq<byte>, y: seq<byte>)
    requires |x| % 64 == 0 && |y| % 64 == 0
    ensures |x + y| % 64 == 0
    ensures Absorb(q, x + y) == Absorb(Absorb(q, x), y)
    decreases |x|
  {
    hide Compress;
    if x == [] {
      assert x + y == y;
    } else {
      AbsorbConcat(Compress(q, x[..64]), x[64..], y);
      assert (x + y)[..64] == x[..64] && (x + y)[64..] == x[64..] + y;
    }
  }

  /** Four consecutive steps bring every word back to its place. */
  lemma FourSteps(q: Hash, x: seq<bv32>, i: nat)
    requires |x| == 16
    ensures var r := Steps(q, x, i);
            var a := Mixed(i, r.a, r.b, r.c, r.d, x);
            var d := Mixed(i + 1, r.d, a, r.b, r.c, x);
            var c := Mixed(i + 2, r.c, d, a, r.b, x);
            var b := Mixed(i + 3, r.b, c, d, a, x);
            Steps(q, x, i + 4) == Hash(a, b, c, d)
  {
    hide Mixed;
    assert Steps(q, x, i + 1) == Steps(q, x, i + 1);
    assert Steps(q, x, i + 2) == Steps(q, x, i + 2);
    assert Steps(q, x, i + 3) == Steps(q, x, i + 3);
  }
}
