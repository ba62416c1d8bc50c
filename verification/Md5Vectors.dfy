/** The digests of the empty message and of "abc" that section A.5 of RFC 1321 lists, computed from the definition. */
module Md5Vectors {
  import opened Md5Functions
  import opened Md5Spec

  /** The words of a short message with its padding: all but the first, and the length, are 0. */
  function ShortWord(first: bv32, size: bv32, k: nat): bv32 {
    if k == 0 then first else if k == 14 then size else 0
  }

  function ShortWords(first: bv32, size: bv32): (x: seq<bv32>)
    ensures |x| == 16
  {
    seq(16, k requires 0 <= k < 16 => ShortWord(first, size, k))
  }

  /** One step with all values at hand: its word w, its constant t, the value f of its function, and the new value v. */
  lemma Next(x: seq<bv32>, i: nat, a: bv32, b: bv32, c: bv32, d: bv32, f: bv32, v: bv32)
    requires |x| == 16 && Steps(INITIAL, x, i) == Hash(a, b, c, d)
    requires Mix(i, b, c, d) == f && NewValue(a, b, f, x[WordIndex(i)], T(i), Shift(i)) == v
    ensures Steps(INITIAL, x, i + 1) == Hash(d, v, b, c)
  {
    hide NewValue, T, WordIndex, Mix, Shift;
  }

  lemma Round1(y: bv32, z: bv32, i: nat, a: bv32, b: bv32, c: bv32, d: bv32,
               w: bv32, t: bv32, s: bv32, f: bv32, v: bv32)
    requires 0 <= i < 16 && Steps(INITIAL, ShortWords(y, z), i) == Hash(a, b, c, d) && s <= 32
    requires ShortWord(y, z, WordIndex(i)) == w && T(i) == t && Shift(i) == s
    requires F(b, c, d) == f && NewValue(a, b, f, w, t, s) == v
    ensures Steps(INITIAL, ShortWords(y, z), i + 1) == Hash(d, v, b, c)
  {
    hide Steps, NewValue, T, WordIndex, ShortWord, Shift, F;
    Next(ShortWords(y, z), i, a, b, c, d, f, v);
  }

  lemma Round2(y: bv32, z: bv32, i: nat, a: bv32, b: bv32, c: bv32, d: bv32,
               w: bv32, t: bv32, s: bv32, f: bv32, v: bv32)
    requires 16 <= i < 32 && Steps(INITIAL, ShortWords(y, z), i) == Hash(a, b, c, d) && s <= 32
    requires ShortWord(y, z, WordIndex(i)) == w && T(i) == t && Shift(i) == s
    requires G(b, c, d) == f && NewValue(a, b, f, w, t, s) == v
    ensures Steps(INITIAL, ShortWords(y, z), i + 1) == Hash(d, v, b, c)
  {
    hide Steps, NewValue, T, WordIndex, ShortWord, Shift, G;
    Next(ShortWords(y, z), i, a, b, c, d, f, v);
  }

  lemma Round3(y: bv32, z: bv32, i: nat, a: bv32, b: bv32, c: bv32, d: bv32,
               w: bv32, t: bv32, s: bv32, f: bv32, v: bv32)
    requires 32 <= i < 48 && Steps(INITIAL, ShortWords(y, z), i) == Hash(a, b, c, d) && s <= 32
    requires ShortWord(y, z, WordIndex(i)) == w && T(i) == t && Shift(i) == s
    requires H(b, c, d) == f && NewValue(a, b, f, w, t, s) == v
    ensures Steps(INITIAL, ShortWords(y, z), i + 1) == Hash(d, v, b, c)
  {
    hide Steps, NewValue, T, WordIndex, ShortWord, Shift, H;
    Next(ShortWords(y, z), i, a, b, c, d, f, v);
  }

  lemma Round4(y: bv32, z: bv32, i: nat, a: bv32, b: bv32, c: bv32, d: bv32,
               w: bv32, t: bv32, s: bv32, f: bv32, v: bv32)
    requires 48 <= i < 64 && Steps(INITIAL, ShortWords(y, z), i) == Hash(a, b, c, d) && s <= 32
    requires ShortWord(y, z, WordIndex(i)) == w && T(i) == t && Shift(i) == s
    requires I(b, c, d) == f && NewValue(a, b, f, w, t, s) == v
    ensures Steps(INITIAL, ShortWords(y, z), i + 1) == Hash(d, v, b, c)
  {
    hide Steps, NewValue, T, WordIndex, ShortWord, Shift, I;
    Next(ShortWords(y, z), i, a, b, c, d, f, v);
  }

  lemma NoStep(x: seq<bv32>)
    requires |x| == 16
    ensures Steps(INITIAL, x, 0) == INITIAL
  {
  }

  function FourBytes(b0: byte, b1: byte, b2: byte, b3: byte): bv32 {
    (b0 as bv32) | ((b1 as bv32) << 8) | ((b2 as bv32) << 16) | ((b3 as bv32) << 24)
  }

  lemma ShortBlock(m: seq<byte>, start: seq<byte>, length: byte)
    requires |m| <= 3 && start == m + [0x80] + Zeros(3 - |m|) && LengthBytes(|m|) == [length] + Zeros(7)
    ensures |m + Padding(|m|)| == 64
    ensures Words(m + Padding(|m|)) ==
            ShortWords(FourBytes(start[0], start[1], start[2], start[3]), FourBytes(length, 0, 0, 0))
  {
    hide LengthBytes, Padding, FourBytes, Word;
    var block := m + Padding(|m|);
    BlockBytes(m, start, length);
    forall i | 0 <= i < 16
      ensures Word(block, 4 * i) ==
              ShortWord(FourBytes(start[0], start[1], start[2], start[3]), FourBytes(length, 0, 0, 0), i)
    {
      BlockWord(block, start, length, i);
    }
  }

  /** Byte j of the block, which is not 0 only in the first word and in the lowest byte of the length. */
  function BlockByte(start: seq<byte>, length: byte, j: nat): byte
    requires |start| == 4
  {
    if j < 4 then start[j] else if j == 56 then length else 0
  }

  lemma BlockWord(block: seq<byte>, start: seq<byte>, length: byte, i: nat)
    requires |block| == 64 && |start| == 4 && i < 16
    requires forall j | 0 <= j < 64 :: block[j] == BlockByte(start, length, j)
    ensures Word(block, 4 * i) ==
            ShortWord(FourBytes(start[0], start[1], start[2], start[3]), FourBytes(length, 0, 0, 0), i)
  {
    hide Word, FourBytes;
    NoBytes();
    WordOfBytes(block, 4 * i);
  }

  lemma BlockBytes(m: seq<byte>, start: seq<byte>, length: byte)
    requires |m| <= 3 && start == m + [0x80] + Zeros(3 - |m|) && LengthBytes(|m|) == [length] + Zeros(7)
    ensures |m + Padding(|m|)| == 64
    ensures forall j | 0 <= j < 64 :: (m + Padding(|m|))[j] == BlockByte(start, length, j)
  {
    hide LengthBytes;
    assert PadZeros(|m|) == 55 - |m|;
  }

  lemma SmallLength(n: nat, size: byte)
    requires n < 32 && size == ByteOf(8 * n)
    ensures LengthBytes(n) == [size] + Zeros(7)
  {
    hide ByteOf;
    ZeroBytes(7);
  }

  lemma {:induction false} ZeroBytes(k: nat)
    ensures Bytes(0, k) == Zeros(k)
  {
    if k > 0 {
      ZeroBytes(k - 1);
      assert ByteOf(0) == 0;
    }
  }

  lemma NoBytes()
    ensures FourBytes(0, 0, 0, 0) == 0
  {
  }

  lemma WordOfBytes(m: seq<byte>, k: nat)
    requires k + 4 <= |m|
    ensures Word(m, k) == FourBytes(m[k], m[k + 1], m[k + 2], m[k + 3])
  {
  }

  lemma OneBlock(m: seq<byte>, x: seq<bv32>, r: Hash)
    requires |m + Padding(|m|)| == 64 && Words(m + Padding(|m|)) == x && Steps(INITIAL, x, 64) == r
    ensures Digest(m) == Output(Added(r, INITIAL))
  {
    hide Steps, Padding, Words, Output, Added;
    var block := m + Padding(|m|);
    assert block[..64] == block && block[64..] == [];
    assert Absorb(Compress(INITIAL, block), []) == Compress(INITIAL, block);
  }

  /* ---------- the empty message ---------- */

  lemma EmptyAfter16(x: seq<bv32>)
    requires x == ShortWords(0x00000080, 0x00)
    ensures Steps(INITIAL, x, 16) == Hash(0xf56c7cf1, 0xd6819c6a, 0x5aa53f75, 0x374943a7)
  {
    hide Steps, ShortWords;
    NoStep(x);
    Round1(0x80, 0x0, 0, 0x67452301, 0xefcdab89, 0x98badcfe, 0x10325476, 0x80, 0xd76aa478, 7, 0x98badcfe, 0xa5202774);
    Round1(0x80, 0x0, 1, 0x10325476, 0xa5202774, 0xefcdab89, 0x98badcfe, 0, 0xe8c7b756, 12, 0xbd9afb8a, 0xf59592dd);
    Round1(0x80, 0x0, 2, 0x98badcfe, 0xf59592dd, 0xa5202774, 0xefcdab89, 0, 0x242070db, 17, 0xaf482b54, 0xe7f06b23);
    Round1(0x80, 0x0, 3, 0xefcdab89, 0xe7f06b23, 0xf59592dd, 0xa5202774, 0, 0xc1bdceee, 22, 0xe5900655, 0x1b163203);
    Round1(0x80, 0x0, 4, 0xa5202774, 0x1b163203, 0xe7f06b23, 0xf59592dd, 0, 0xf57c0faf, 7, 0xe791a2df, 0x32033344);
    Round1(0x80, 0x0, 5, 0xf59592dd, 0x32033344, 0x1b163203, 0xe7f06b23, 0, 0x4787c62a, 12, 0xd7f27a23, 0x2f35d494);
    Round1(0x80, 0x0, 6, 0xe7f06b23, 0x2f35d494, 0x32033344, 0x1b163203, 0, 0xa8304613, 17, 0x32033207, 0xf5b158db);
    Round1(0x80, 0x0, 7, 0x1b163203, 0xf5b158db, 0x2f35d494, 0x32033344, 0, 0xfd469501, 22, 0x27337394, 0x9bc13ce9);
    Round1(0x80, 0x0, 8, 0x32033344, 0x9bc13ce9, 0xf5b158db, 0x2f35d494, 0, 0x698098d8, 7, 0xb5b5d8dd, 0x3893b991);
    Round1(0x80, 0x0, 9, 0x2f35d494, 0x3893b991, 0x9bc13ce9, 0xf5b158db, 0, 0x8b44f7af, 12, 0xdda178cb, 0xfce4a312);
    Round1(0x80, 0x0, 10, 0xf5b158db, 0xfce4a312, 0x3893b991, 0x9bc13ce9, 0, 0xffff5bb1, 17, 0x3b81bdf9, 0xe1ef0576);
    Round1(0x80, 0x0, 11, 0x9bc13ce9, 0xe1ef0576, 0xfce4a312, 0x3893b991, 0, 0x895cd7be, 22, 0xf8f4b993, 0x70768a29);
    Round1(0x80, 0x0, 12, 0x3893b991, 0x70768a29, 0xe1ef0576, 0xfce4a312, 0, 0x6b901122, 7, 0xece62132, 0xf56c7cf1);
    Round1(0x80, 0x0, 13, 0xfce4a312, 0xf56c7cf1, 0x70768a29, 0xe1ef0576, 0, 0xfd987193, 12, 0x70e70927, 0x374943a7);
    Round1(0x80, 0x0, 14, 0xe1ef0576, 0x374943a7, 0xf56c7cf1, 0x70768a29, 0, 0xa679438e, 17, 0x757ec8a9, 0x5aa53f75);
    Round1(0x80, 0x0, 15, 0x70768a29, 0x5aa53f75, 0x374943a7, 0xf56c7cf1, 0, 0x49b40821, 22, 0xb74943a5, 0xd6819c6a);
  }

  lemma EmptyAfter32(x: seq<bv32>)
    requires x == ShortWords(0x00000080, 0x00)
    ensures Steps(INITIAL, x, 32) == Hash(0x13707036, 0xa2205f1f, 0x1c31c384, 0xae7813db)
  {
    hide Steps, ShortWords;
    EmptyAfter16(x);
    Round2(0x80, 0x0, 16, 0xf56c7cf1, 0xd6819c6a, 0x5aa53f75, 0x374943a7, 0, 0xf61e2562, 5, 0x5ea53c72, 0x1c7d7513);
    Round2(0x80, 0x0, 17, 0x374943a7, 0x1c7d7513, 0xd6819c6a, 0x5aa53f75, 0, 0xc040b340, 9, 0x9c25b51b, 0x7bd57a3a);
    Round2(0x80, 0x0, 18, 0x5aa53f75, 0x7bd57a3a, 0x1c7d7513, 0xd6819c6a, 0, 0x265e5a51, 14, 0x5afd793b, 0xc095f13a);
    Round2(0x80, 0x0, 19, 0xd6819c6a, 0xc095f13a, 0x7bd57a3a, 0x1c7d7513, 0x80, 0xe9b6c7aa, 20, 0x63957b3a, 0xbd782e17);
    Round2(0x80, 0x0, 20, 0x1c7d7513, 0xbd782e17, 0xc095f13a, 0x7bd57a3a, 0, 0xd62f105d, 5, 0xb950ab12, 0x3d1e3e6c);
    Round2(0x80, 0x0, 21, 0x7bd57a3a, 0x3d1e3e6c, 0xbd782e17, 0xc095f13a, 0, 0x02441453, 9, 0x3d7c3e2d, 0x68b7b3e3);
    Round2(0x80, 0x0, 22, 0xc095f13a, 0x68b7b3e3, 0x3d1e3e6c, 0xbd782e17, 0, 0xd8a1e681, 14, 0x2836326b, 0xeb41643e);
    Round2(0x80, 0x0, 23, 0xbd782e17, 0xeb41643e, 0x68b7b3e3, 0x3d1e3e6c, 0, 0xe7d3fbc8, 20, 0x69a1a5af, 0xe422531a);
    Round2(0x80, 0x0, 24, 0x3d1e3e6c, 0xe422531a, 0xeb41643e, 0x68b7b3e3, 0, 0x21e1cde6, 5, 0xe362571e, 0x306ec122);
    Round2(0x80, 0x0, 25, 0x68b7b3e3, 0x306ec122, 0xe422531a, 0xeb41643e, 0, 0xc33707d6, 9, 0x24625322, 0xd28c77c2);
    Round2(0x80, 0x0, 26, 0xeb41643e, 0xd28c77c2, 0x306ec122, 0xe422531a, 0, 0xf4d50d87, 14, 0xd04cd322, 0xa3c663da);
    Round2(0x80, 0x0, 27, 0xe422531a, 0xa3c663da, 0xd28c77c2, 0x306ec122, 0, 0x455a14ed, 20, 0xe2c677c2, 0xa0572807);
    Round2(0x80, 0x0, 28, 0x306ec122, 0xa0572807, 0xa3c663da, 0xd28c77c2, 0, 0xa9e3e905, 5, 0xa146201a, 0x13707036);
    Round2(0x80, 0x0, 29, 0xd28c77c2, 0x13707036, 0xa0572807, 0xa3c663da, 0, 0xfcefa3f8, 9, 0x03516817, 0xae7813db);
    Round2(0x80, 0x0, 30, 0xa3c663da, 0xae7813db, 0x13707036, 0xa0572807, 0, 0x676f02d9, 14, 0xb3705033, 0x1c31c384);
    Round2(0x80, 0x0, 31, 0xa0572807, 0x1c31c384, 0xae7813db, 0x13707036, 0, 0x8d2a4c8a, 20, 0xbc3843cd, 0xa2205f1f);
  }

  lemma EmptyAfter48(x: seq<bv32>)
    requires x == ShortWords(0x00000080, 0x00)
    ensures Steps(INITIAL, x, 48) == Hash(0x3f55edfd, 0xca7d2dbd, 0x68d84ea2, 0x22a31f54)
  {
    hide Steps, ShortWords;
    EmptyAfter32(x);
    Round3(0x80, 0x0, 32, 0x13707036, 0xa2205f1f, 0x1c31c384, 0xae7813db, 0, 0xfffa3942, 4, 0x10698f40, 0xdf63eaa1);
    Round3(0x80, 0x0, 33, 0xae7813db, 0xdf63eaa1, 0xa2205f1f, 0x1c31c384, 0, 0x8771f681, 11, 0x6172763a, 0xc3689f5b);
    Round3(0x80, 0x0, 34, 0x1c31c384, 0xc3689f5b, 0xdf63eaa1, 0xa2205f1f, 0, 0x6d9d6122, 16, 0xbe2b2ae5, 0x12f3e755);
    Round3(0x80, 0x0, 35, 0xa2205f1f, 0x12f3e755, 0xc3689f5b, 0xdf63eaa1, 0, 0xfde5380c, 23, 0x0ef892af, 0x004b6669);
    Round3(0x80, 0x0, 36, 0xdf63eaa1, 0x004b6669, 0x12f3e755, 0xc3689f5b, 0, 0xa4beea44, 4, 0xd1d01e67, 0x5f7a9b2e);
    Round3(0x80, 0x0, 37, 0xc3689f5b, 0x5f7a9b2e, 0x004b6669, 0x12f3e755, 0, 0x4bdecfa9, 11, 0x4dc21a12, 0xabc34e16);
    Round3(0x80, 0x0, 38, 0x12f3e755, 0xabc34e16, 0x5f7a9b2e, 0x004b6669, 0, 0xf6bb4b60, 16, 0xf4f2b351, 0x91ca4cb7);
    Round3(0x80, 0x0, 39, 0x004b6669, 0x91ca4cb7, 0xabc34e16, 0x5f7a9b2e, 0, 0xbebfbc70, 23, 0x6573998f, 0xc5dc8c15);
    Round3(0x80, 0x0, 40, 0x5f7a9b2e, 0xc5dc8c15, 0x91ca4cb7, 0xabc34e16, 0, 0x289b7ec6, 4, 0xffd58eb4, 0x4497169d);
    Round3(0x80, 0x0, 41, 0xabc34e16, 0x4497169d, 0xc5dc8c15, 0x91ca4cb7, 0x80, 0xeaa127fa, 11, 0x1081d63f, 0x76fd93d4);
    Round3(0x80, 0x0, 42, 0x91ca4cb7, 0x76fd93d4, 0x4497169d, 0xc5dc8c15, 0, 0xd4ef3085, 16, 0xf7b6095c, 0xfd95f243);
    Round3(0x80, 0x0, 43, 0xc5dc8c15, 0xfd95f243, 0x76fd93d4, 0x4497169d, 0, 0x04881d05, 23, 0xcfff770a, 0x0fe32453);
    Round3(0x80, 0x0, 44, 0x4497169d, 0x0fe32453, 0xfd95f243, 0x76fd93d4, 0, 0xd9d4d039, 4, 0x848b45c4, 0x3f55edfd);
    Round3(0x80, 0x0, 45, 0x76fd93d4, 0x3f55edfd, 0x0fe32453, 0xfd95f243, 0, 0xe6db99e5, 11, 0xcd233bed, 0x22a31f54);
    Round3(0x80, 0x0, 46, 0xfd95f243, 0x22a31f54, 0x3f55edfd, 0x0fe32453, 0, 0x1fa27cf8, 16, 0x1215d6fa, 0x68d84ea2);
    Round3(0x80, 0x0, 47, 0x0fe32453, 0x68d84ea2, 0x22a31f54, 0x3f55edfd, 0, 0xc4ac5665, 23, 0x752ebc0b, 0xca7d2dbd);
  }

  lemma EmptyAfter64(x: seq<bv32>)
    requires x == ShortWords(0x00000080, 0x00)
    ensures Steps(INITIAL, x, 64) == Hash(0x7246fad3, 0x14e45506, 0xff4ea3eb, 0x6e10a476)
  {
    hide Steps, ShortWords;
    EmptyAfter48(x);
    Round4(0x80, 0x0, 48, 0x3f55edfd, 0xca7d2dbd, 0x68d84ea2, 0x22a31f54, 0x80, 0xf4292244, 6, 0xb7a5a31d, 0x93aa2577);
    Round4(0x80, 0x0, 49, 0x22a31f54, 0x93aa2577, 0xca7d2dbd, 0x68d84ea2, 0, 0x432aff97, 10, 0x5dd298c2, 0x1688dc85);
    Round4(0x80, 0x0, 50, 0x68d84ea2, 0x1688dc85, 0x93aa2577, 0xca7d2dbd, 0, 0xab9423a7, 15, 0xa420fbb0, 0xcd85b8cb);
    Round4(0x80, 0x0, 51, 0xca7d2dbd, 0xcd85b8cb, 0x1688dc85, 0x93aa2577, 0, 0xfc93a039, 21, 0xfb5d264e, 0x561e0689);
    Round4(0x80, 0x0, 52, 0x93aa2577, 0x561e0689, 0xcd85b8cb, 0x1688dc85, 0, 0x655b59c3, 6, 0x32fa9f30, 0x5625a114);
    Round4(0x80, 0x0, 53, 0x1688dc85, 0x5625a114, 0x561e0689, 0xcd85b8cb, 0, 0x8f0ccc92, 10, 0x2061e1bd, 0x3450f42b);
    Round4(0x80, 0x0, 54, 0xcd85b8cb, 0x3450f42b, 0x5625a114, 0x561e0689, 0, 0xffeff47d, 15, 0xebd45c6b, 0x392ad0d0);
    Round4(0x80, 0x0, 55, 0x561e0689, 0x392ad0d0, 0x3450f42b, 0x5625a114, 0, 0x85845dd1, 21, 0x8daa2ad0, 0x1e77fa61);
    Round4(0x80, 0x0, 56, 0x5625a114, 0x1e77fa61, 0x392ad0d0, 0x3450f42b, 0, 0x6fa87e4f, 6, 0xe6d52b25, 0x474a9c8c);
    Round4(0x80, 0x0, 57, 0x3450f42b, 0x474a9c8c, 0x1e77fa61, 0x392ad0d0, 0, 0xfe2ce6e0, 10, 0xd9a845ce, 0xdfce00bc);
    Round4(0x80, 0x0, 58, 0x392ad0d0, 0xdfce00bc, 0x474a9c8c, 0x1e77fa61, 0, 0xa3014314, 15, 0xb8849932, 0x36594b14);
    Round4(0x80, 0x0, 59, 0x1e77fa61, 0x36594b14, 0xdfce00bc, 0x474a9c8c, 0, 0x4e0811a1, 21, 0x61336bcb, 0x30130182);
    Round4(0x80, 0x0, 60, 0x474a9c8c, 0x30130182, 0x36594b14, 0xdfce00bc, 0, 0xf7537e82, 6, 0x066ab4d7, 0x7246fad3);
    Round4(0x80, 0x0, 61, 0xdfce00bc, 0x7246fad3, 0x30130182, 0x36594b14, 0, 0xbd3af235, 10, 0xcbf5ff79, 0x6e10a476);
    Round4(0x80, 0x0, 62, 0x36594b14, 0x6e10a476, 0x7246fad3, 0x30130182, 0, 0x2ad7d2bb, 15, 0x9dba04ac, 0xff4ea3eb);
    Round4(0x80, 0x0, 63, 0x30130182, 0xff4ea3eb, 0x6e10a476, 0x7246fad3, 0, 0xeb86d391, 21, 0x91ef0399, 0x14e45506);
  }

  lemma DigestOfEmpty()
    ensures Digest([]) ==
            [0xd4, 0x1d, 0x8c, 0xd9, 0x8f, 0x00, 0xb2, 0x04,
             0xe9, 0x80, 0x09, 0x98, 0xec, 0xf8, 0x42, 0x7e]
  {
    hide Steps, Absorb, Padding, Words, Digest, ShortWords;
    var m: seq<byte> := [];
    SmallLength(|m|, 0);
    ShortBlock(m, [0x80, 0x00, 0x00, 0x00], 0);
    EmptyAfter64(ShortWords(0x00000080, 0x00));
    OneBlock(m, ShortWords(0x00000080, 0x00), Hash(0x7246fad3, 0x14e45506, 0xff4ea3eb, 0x6e10a476));
  }

  /* ---------- "abc" ---------- */

  lemma AbcAfter16(x: seq<bv32>)
    requires x == ShortWords(0x80636261, 0x18)
    ensures Steps(INITIAL, x, 16) == Hash(0xdda9b9a6, 0x72aff2e0, 0xe396856b, 0xa1051895)
  {
    hide Steps, ShortWords;
    NoStep(x);
    Round1(0x80636261, 0x18, 0, 0x67452301, 0xefcdab89, 0x98badcfe, 0x10325476,
           0x80636261, 0xd76aa478, 7, 0x98badcfe, 0xd6d117b4);
    Round1(0x80636261, 0x18, 1, 0x10325476, 0xd6d117b4, 0xefcdab89, 0x98badcfe,
           0, 0xe8c7b756, 12, 0xceebcbca, 0x344a8432);
    Round1(0x80636261, 0x18, 2, 0x98badcfe, 0x344a8432, 0xd6d117b4, 0xefcdab89,
           0, 0x242070db, 17, 0xdfc52fb9, 0x2f6fbd72);
    Round1(0x80636261, 0x18, 3, 0xefcdab89, 0x2f6fbd72, 0x344a8432, 0xd6d117b4,
           0, 0xc1bdceee, 22, 0xf4da86b6, 0x7ad956f2);
    Round1(0x80636261, 0x18, 4, 0xd6d117b4, 0x7ad956f2, 0x2f6fbd72, 0x344a8432,
           0, 0xf57c0faf, 7, 0x2e4b9472, 0xc73741ef);
    Round1(0x80636261, 0x18, 5, 0x344a8432, 0xc73741ef, 0x7ad956f2, 0x2f6fbd72,
           0, 0x4787c62a, 12, 0x6a59fcf2, 0x8bac3051);
    Round1(0x80636261, 0x18, 6, 0x2f6fbd72, 0x8bac3051, 0xc73741ef, 0x7ad956f2,
           0, 0xa8304613, 17, 0xf37546e3, 0x207dc67b);
    Round1(0x80636261, 0x18, 7, 0x7ad956f2, 0x207dc67b, 0x8bac3051, 0xc73741ef,
           0, 0xfd469501, 22, 0xc72e01d5, 0x928d99f6);
    Round1(0x80636261, 0x18, 8, 0xc73741ef, 0x928d99f6, 0x207dc67b, 0x8bac3051,
           0, 0x698098d8, 7, 0x092da073, 0x854b3712);
    Round1(0x80636261, 0x18, 9, 0x8bac3051, 0x854b3712, 0x928d99f6, 0x207dc67b,
           0, 0x8b44f7af, 12, 0xa03dd17b, 0x74e2f284);
    Round1(0x80636261, 0x18, 10, 0x207dc67b, 0x74e2f284, 0x854b3712, 0x928d99f6,
           0, 0xffff5bb1, 17, 0x864f3b72, 0x3020401c);
    Round1(0x80636261, 0x18, 11, 0x928d99f6, 0x3020401c, 0x74e2f284, 0x854b3712,
           0, 0x895cd7be, 22, 0xb56b7706, 0x5ed49596);
    Round1(0x80636261, 0x18, 12, 0x854b3712, 0x5ed49596, 0x3020401c, 0x74e2f284,
           0, 0x6b901122, 7, 0x30226214, 0xdda9b9a6);
    Round1(0x80636261, 0x18, 13, 0x74e2f284, 0xdda9b9a6, 0x5ed49596, 0x3020401c,
           0, 0xfd987193, 12, 0x7c80d19e, 0xa1051895);
    Round1(0x80636261, 0x18, 14, 0x3020401c, 0xa1051895, 0xdda9b9a6, 0x5ed49596,
           0x18, 0xa679438e, 17, 0xdfd19d86, 0xe396856b);
    Round1(0x80636261, 0x18, 15, 0x5ed49596, 0xe396856b, 0xa1051895, 0xdda9b9a6,
           0, 0x49b40821, 22, 0xbd2d3885, 0x72aff2e0);
  }

  lemma AbcAfter32(x: seq<bv32>)
    requires x == ShortWords(0x80636261, 0x18)
    ensures Steps(INITIAL, x, 32) == Hash(0x790a77fb, 0x726342d3, 0xa62884aa, 0x9f47e4f8)
  {
    hide Steps, ShortWords;
    AbcAfter16(x);
    Round2(0x80636261, 0x18, 16, 0xdda9b9a6, 0x72aff2e0, 0xe396856b, 0xa1051895,
           0, 0xf61e2562, 5, 0x629795ea, 0x3e9e9126);
    Round2(0x80636261, 0x18, 17, 0xa1051895, 0x3e9e9126, 0x72aff2e0, 0xe396856b,
           0, 0xc040b340, 9, 0x32bff3a2, 0x4a1d804e);
    Round2(0x80636261, 0x18, 18, 0xe396856b, 0x4a1d804e, 0x3e9e9126, 0x72aff2e0,
           0, 0x265e5a51, 14, 0x4e1d8146, 0xe25e1652);
    Round2(0x80636261, 0x18, 19, 0x72aff2e0, 0xe25e1652, 0x4a1d804e, 0x3e9e9126,
           0x80636261, 0xe9b6c7aa, 20, 0x621f104a, 0xb5b204e4);
    Round2(0x80636261, 0x18, 20, 0x3e9e9126, 0xb5b204e4, 0xe25e1652, 0x4a1d804e,
           0, 0xd62f105d, 5, 0xa0521654, 0x59a8ffda);
    Round2(0x80636261, 0x18, 21, 0x4a1d804e, 0x59a8ffda, 0xb5b204e4, 0xe25e1652,
           0, 0x02441453, 9, 0x55a816f6, 0x6d002f1e);
    Round2(0x80636261, 0x18, 22, 0xe25e1652, 0x6d002f1e, 0x59a8ffda, 0xb5b204e4,
           0, 0xd8a1e681, 14, 0x6d08ff1e, 0xabfc7920);
    Round2(0x80636261, 0x18, 23, 0xb5b204e4, 0xabfc7920, 0x6d002f1e, 0x59a8ffda,
           0, 0xe7d3fbc8, 20, 0x2da87904, 0x47092c07);
    Round2(0x80636261, 0x18, 24, 0x59a8ffda, 0x47092c07, 0xabfc7920, 0x6d002f1e,
           0, 0x21e1cde6, 5, 0xc7fc7c26, 0xb7f268cf);
    Round2(0x80636261, 0x18, 25, 0x6d002f1e, 0xb7f268cf, 0x47092c07, 0xabfc7920,
           0x18, 0xc33707d6, 9, 0xe7f16c07, 0x09388eff);
    Round2(0x80636261, 0x18, 26, 0xabfc7920, 0x09388eff, 0xb7f268cf, 0x47092c07,
           0, 0xf4d50d87, 14, 0xb1fa4ccf, 0xfe1623b1);
    Round2(0x80636261, 0x18, 27, 0x47092c07, 0xfe1623b1, 0x09388eff, 0xb7f268cf,
           0, 0x455a14ed, 20, 0xbe1aa6b1, 0x786acb8f);
    Round2(0x80636261, 0x18, 28, 0xb7f268cf, 0x786acb8f, 0xfe1623b1, 0x09388eff,
           0, 0xa9e3e905, 5, 0xfe2eab8f, 0x790a77fb);
    Round2(0x80636261, 0x18, 29, 0x09388eff, 0x790a77fb, 0x786acb8f, 0xfe1623b1,
           0, 0xfcefa3f8, 9, 0x786aebbf, 0x9f47e4f8);
    Round2(0x80636261, 0x18, 30, 0xfe1623b1, 0x9f47e4f8, 0x790a77fb, 0x786acb8f,
           0, 0x676f02d9, 14, 0x1942f4f8, 0xa62884aa);
    Round2(0x80636261, 0x18, 31, 0x786acb8f, 0xa62884aa, 0x9f47e4f8, 0x790a77fb,
           0, 0x8d2a4c8a, 20, 0xa64d84aa, 0x726342d3);
  }

  lemma AbcAfter48(x: seq<bv32>)
    requires x == ShortWords(0x80636261, 0x18)
    ensures Steps(INITIAL, x, 48) == Hash(0x7f2e507b, 0x7beb9700, 0x8fae6399, 0x99d9679d)
  {
    hide Steps, ShortWords;
    AbcAfter32(x);
    Round3(0x80636261, 0x18, 32, 0x790a77fb, 0x726342d3, 0xa62884aa, 0x9f47e4f8,
           0, 0xfffa3942, 4, 0x4b0c2281, 0xb3707ebf);
    Round3(0x80636261, 0x18, 33, 0x9f47e4f8, 0xb3707ebf, 0x726342d3, 0xa62884aa,
           0, 0x8771f681, 11, 0x673bb8c6, 0x60127b2e);
    Round3(0x80636261, 0x18, 34, 0xa62884aa, 0x60127b2e, 0xb3707ebf, 0x726342d3,
           0, 0x6d9d6122, 16, 0xa1014742, 0x8d212ff5);
    Round3(0x80636261, 0x18, 35, 0x726342d3, 0x8d212ff5, 0x60127b2e, 0xb3707ebf,
           0x18, 0xfde5380c, 23, 0x5e432a64, 0x3b0875c7);
    Round3(0x80636261, 0x18, 36, 0xb3707ebf, 0x3b0875c7, 0x8d212ff5, 0x60127b2e,
           0, 0xa4beea44, 4, 0xd63b211c, 0x21b117b9);
    Round3(0x80636261, 0x18, 37, 0x60127b2e, 0x21b117b9, 0x3b0875c7, 0x8d212ff5,
           0, 0x4bdecfa9, 11, 0x97984d8b, 0x6e7429d5);
    Round3(0x80636261, 0x18, 38, 0x8d212ff5, 0x6e7429d5, 0x21b117b9, 0x3b0875c7,
           0, 0xf6bb4b60, 16, 0x74cd4bab, 0x3575227e);
    Round3(0x80636261, 0x18, 39, 0x3b0875c7, 0x3575227e, 0x6e7429d5, 0x21b117b9,
           0, 0xbebfbc70, 23, 0x7ab01c12, 0x5a2f5ea5);
    Round3(0x80636261, 0x18, 40, 0x21b117b9, 0x5a2f5ea5, 0x3575227e, 0x6e7429d5,
           0, 0x289b7ec6, 4, 0x012e550e, 0x11de1779);
    Round3(0x80636261, 0x18, 41, 0x6e7429d5, 0x11de1779, 0x5a2f5ea5, 0x3575227e,
           0x80636261, 0xeaa127fa, 11, 0x7e846ba2, 0xfadcaa38);
    Round3(0x80636261, 0x18, 42, 0x3575227e, 0xfadcaa38, 0x11de1779, 0x5a2f5ea5,
           0, 0xd4ef3085, 16, 0xb12de3e4, 0x31c465ca);
    Round3(0x80636261, 0x18, 43, 0x5a2f5ea5, 0x31c465ca, 0xfadcaa38, 0x11de1779,
           0, 0x04881d05, 23, 0xdac6d88b, 0x4c6124f4);
    Round3(0x80636261, 0x18, 44, 0x11de1779, 0x4c6124f4, 0x31c465ca, 0xfadcaa38,
           0, 0xd9d4d039, 4, 0x8779eb06, 0x7f2e507b);
    Round3(0x80636261, 0x18, 45, 0xfadcaa38, 0x7f2e507b, 0x4c6124f4, 0x31c465ca,
           0, 0xe6db99e5, 11, 0x028b1145, 0x99d9679d);
    Round3(0x80636261, 0x18, 46, 0x31c465ca, 0x99d9679d, 0x7f2e507b, 0x4c6124f4,
           0, 0x1fa27cf8, 16, 0xaa961312, 0x8fae6399);
    Round3(0x80636261, 0x18, 47, 0x4c6124f4, 0x8fae6399, 0x99d9679d, 0x7f2e507b,
           0, 0xc4ac5665, 23, 0x6959547f, 0x7beb9700);
  }

  lemma AbcAfter64(x: seq<bv32>)
    requires x == ShortWords(0x80636261, 0x18)
    ensures Steps(INITIAL, x, 64) == Hash(0x310ade8f, 0xc08226b3, 0xe484b9d8, 0x624d8cb2)
  {
    hide Steps, ShortWords;
    AbcAfter48(x);
    Round4(0x80636261, 0x18, 48, 0x7f2e507b, 0x7beb9700, 0x8fae6399, 0x99d9679d,
           0x80636261, 0xf4292244, 6, 0xf041fcfb, 0x7b201df8);
    Round4(0x80636261, 0x18, 49, 0x99d9679d, 0x7b201df8, 0x7beb9700, 0x8fae6399,
           0, 0x432aff97, 10, 0x009a0afe, 0xf4e8e96e);
    Round4(0x80636261, 0x18, 50, 0x8fae6399, 0xf4e8e96e, 0x7b201df8, 0x7beb9700,
           0x18, 0xab9423a7, 15, 0x8fdcf407, 0xb298cefd);
    Round4(0x80636261, 0x18, 51, 0x7beb9700, 0xb298cefd, 0xf4e8e96e, 0x7b201df8,
           0, 0xfc93a039, 21, 0x42370791, 0x8bf025c4);
    Round4(0x80636261, 0x18, 52, 0x7b201df8, 0x8bf025c4, 0xb298cefd, 0xf4e8e96e,
           0, 0x655b59c3, 6, 0x396ff928, 0x06cc5e8a);
    Round4(0x80636261, 0x18, 53, 0xf4e8e96e, 0x06cc5e8a, 0x8bf025c4, 0xb298cefd,
           0, 0x8f0ccc92, 10, 0xc41f5a4e, 0x5b0d97aa);
    Round4(0x80636261, 0x18, 54, 0xb298cefd, 0x5b0d97aa, 0x06cc5e8a, 0x8bf025c4,
           0, 0xffeff47d, 15, 0x79c38131, 0x7d632dd0);
    Round4(0x80636261, 0x18, 55, 0x8bf025c4, 0x7d632dd0, 0x5b0d97aa, 0x06cc5e8a,
           0, 0x85845dd1, 21, 0xa67e3a5f, 0x3bfa2c27);
    Round4(0x80636261, 0x18, 56, 0x06cc5e8a, 0x3bfa2c27, 0x7d632dd0, 0x5b0d97aa,
           0, 0x6fa87e4f, 6, 0xc29941a7, 0x7f81cc35);
    Round4(0x80636261, 0x18, 57, 0x5b0d97aa, 0x7f81cc35, 0x3bfa2c27, 0x7d632dd0,
           0, 0xfe2ce6e0, 10, 0xc467f218, 0x094454ab);
    Round4(0x80636261, 0x18, 58, 0x7d632dd0, 0x094454ab, 0x7f81cc35, 0x3bfa2c27,
           0, 0xa3014314, 15, 0xb2c41bce, 0x4f9dbe3f);
    Round4(0x80636261, 0x18, 59, 0x3bfa2c27, 0x4f9dbe3f, 0x094454ab, 0x7f81cc35,
           0, 0x4e0811a1, 21, 0xc6bbeb54, 0x7327d604);
    Round4(0x80636261, 0x18, 60, 0x7f81cc35, 0x7327d604, 0x4f9dbe3f, 0x094454ab,
           0, 0xf7537e82, 6, 0xb822416b, 0x310ade8f);
    Round4(0x80636261, 0x18, 61, 0x094454ab, 0x310ade8f, 0x7327d604, 0x4f9dbe3f,
           0, 0xbd3af235, 10, 0xc24d09cb, 0x624d8cb2);
    Round4(0x80636261, 0x18, 62, 0x4f9dbe3f, 0x624d8cb2, 0x310ade8f, 0x7327d604,
           0, 0x2ad7d2bb, 15, 0xdfd77374, 0xe484b9d8);
    Round4(0x80636261, 0x18, 63, 0x7327d604, 0xe484b9d8, 0x624d8cb2, 0x310ade8f,
           0, 0xeb86d391, 21, 0x8cb8354a, 0xc08226b3);
  }

  lemma DigestOfAbc()
    ensures Digest([0x61, 0x62, 0x63]) ==
            [0x90, 0x01, 0x50, 0x98, 0x3c, 0xd2, 0x4f, 0xb0,
             0xd6, 0x96, 0x3f, 0x7d, 0x28, 0xe1, 0x7f, 0x72]
  {
    hide Steps, Absorb, Padding, Words, Digest, ShortWords;
    var m: seq<byte> := [0x61, 0x62, 0x63];
    SmallLength(|m|, 24);
    ShortBlock(m, [0x61, 0x62, 0x63, 0x80], 24);
    AbcAfter64(ShortWords(0x80636261, 0x18));
    OneBlock(m, ShortWords(0x80636261, 0x18), Hash(0x310ade8f, 0xc08226b3, 0xe484b9d8, 0x624d8cb2));
  }
}
