/** The streaming digest: the unrolled block function, and the context with its 128-byte buffer. Words are
    32 bits wide and the machine is little-endian. */
module Md5 {
  import opened Md5Spec
  import opened BitWords
  import opened Md5Functions

  /* ---------- the steps, as the code computes them ---------- */

  /** OP: a += f + word + constant, rotate, a += b. */
  function Op(a: bv32, f: bv32, b: bv32, word: bv32, s: bv32, t: bv32): bv32
    requires s <= 32
  {
    RotateLeft(a + (f + word + t), s) + b
  }

  lemma OpIsStep(i: nat, a: bv32, b: bv32, c: bv32, d: bv32, x: seq<bv32>)
    requires |x| == 16
    ensures Op(a, Mix(i, b, c, d), b, x[WordIndex(i)], Shift(i), T(i)) == Mixed(i, a, b, c, d, x)
  {
    hide T, Shift, Mix, RotateLeft, WordIndex;
    Sums(a, Mix(i, b, c, d), x[WordIndex(i)], T(i));
    Swapped(RotateLeft(a + (Mix(i, b, c, d) + x[WordIndex(i)] + T(i)), Shift(i)), b);
  }

  lemma Swapped(r: bv32, b: bv32)
    ensures r + b == b + r
  {
  }

  lemma Sums(a: bv32, f: bv32, w: bv32, t: bv32)
    ensures a + (f + w + t) == a + f + w + t
  {
  }

  /** One step of the code, for the function of its round, computes what the standard says. */
  lemma CodeStep(i: nat, a: bv32, b: bv32, c: bv32, d: bv32, x: seq<bv32>) returns (r: bv32)
    requires |x| == 16
    ensures r == Mixed(i, a, b, c, d, x)
    ensures i < 16 ==> r == Op(a, FF(b, c, d), b, x[WordIndex(i)], Shift(i), T(i))
    ensures 16 <= i < 32 ==> r == Op(a, FG(b, c, d), b, x[WordIndex(i)], Shift(i), T(i))
    ensures 32 <= i < 48 ==> r == Op(a, FH(b, c, d), b, x[WordIndex(i)], Shift(i), T(i))
    ensures 48 <= i ==> r == Op(a, FI(b, c, d), b, x[WordIndex(i)], Shift(i), T(i))
  {
    hide T, Shift, WordIndex, Op, FF, FG, F, G, Mixed;
    OptimizedF(b, c, d);
    OpIsStep(i, a, b, c, d, x);
    r := Mixed(i, a, b, c, d, x);
  }

  lemma Four1(q: Hash, x: seq<bv32>, i: nat)
    requires |x| == 16 && 0 <= i && i + 4 <= 16
    ensures var r := Steps(q, x, i);
            var a := Op(r.a, FF(r.b, r.c, r.d), r.b, x[WordIndex(i)], Shift(i), T(i));
            var d := Op(r.d, FF(a, r.b, r.c), a, x[WordIndex(i + 1)], Shift(i + 1), T(i + 1));
            var c := Op(r.c, FF(d, a, r.b), d, x[WordIndex(i + 2)], Shift(i + 2), T(i + 2));
            var b := Op(r.b, FF(c, d, a), c, x[WordIndex(i + 3)], Shift(i + 3), T(i + 3));
            Steps(q, x, i + 4) == Hash(a, b, c, d)
  {
    hide T, Shift, WordIndex, Op, FF, Steps;
    var r := Steps(q, x, i);
    var a := CodeStep(i, r.a, r.b, r.c, r.d, x);
    var d := CodeStep(i + 1, r.d, a, r.b, r.c, x);
    var c := CodeStep(i + 2, r.c, d, a, r.b, x);
    var b := CodeStep(i + 3, r.b, c, d, a, x);
    FourSteps(q, x, i);
  }

  lemma Four2(q: Hash, x: seq<bv32>, i: nat)
    requires |x| == 16 && 16 <= i && i + 4 <= 32
    ensures var r := Steps(q, x, i);
            var a := Op(r.a, FG(r.b, r.c, r.d), r.b, x[WordIndex(i)], Shift(i), T(i));
            var d := Op(r.d, FG(a, r.b, r.c), a, x[WordIndex(i + 1)], Shift(i + 1), T(i + 1));
            var c := Op(r.c, FG(d, a, r.b), d, x[WordIndex(i + 2)], Shift(i + 2), T(i + 2));
            var b := Op(r.b, FG(c, d, a), c, x[WordIndex(i + 3)], Shift(i + 3), T(i + 3));
            Steps(q, x, i + 4) == Hash(a, b, c, d)
  {
    hide T, Shift, WordIndex, Op, FG, Steps;
    var r := Steps(q, x, i);
    var a := CodeStep(i, r.a, r.b, r.c, r.d, x);
    var d := CodeStep(i + 1, r.d, a, r.b, r.c, x);
    var c := CodeStep(i + 2, r.c, d, a, r.b, x);
    var b := CodeStep(i + 3, r.b, c, d, a, x);
    FourSteps(q, x, i);
  }

  lemma Four3(q: Hash, x: seq<bv32>, i: nat)
    requires |x| == 16 && 32 <= i && i + 4 <= 48
    ensures var r := Steps(q, x, i);
            var a := Op(r.a, FH(r.b, r.c, r.d), r.b, x[WordIndex(i)], Shift(i), T(i));
            var d := Op(r.d, FH(a, r.b, r.c), a, x[WordIndex(i + 1)], Shift(i + 1), T(i + 1));
            var c := Op(r.c, FH(d, a, r.b), d, x[WordIndex(i + 2)], Shift(i + 2), T(i + 2));
            var b := Op(r.b, FH(c, d, a), c, x[WordIndex(i + 3)], Shift(i + 3), T(i + 3));
            Steps(q, x, i + 4) == Hash(a, b, c, d)
  {
    hide T, Shift, WordIndex, Op, FH, Steps;
    var r := Steps(q, x, i);
    var a := CodeStep(i, r.a, r.b, r.c, r.d, x);
    var d := CodeStep(i + 1, r.d, a, r.b, r.c, x);
    var c := CodeStep(i + 2, r.c, d, a, r.b, x);
    var b := CodeStep(i + 3, r.b, c, d, a, x);
    FourSteps(q, x, i);
  }

  lemma Four4(q: Hash, x: seq<bv32>, i: nat)
    requires |x| == 16 && 48 <= i && i + 4 <= 64
    ensures var r := Steps(q, x, i);
            var a := Op(r.a, FI(r.b, r.c, r.d), r.b, x[WordIndex(i)], Shift(i), T(i));
            var d := Op(r.d, FI(a, r.b, r.c), a, x[WordIndex(i + 1)], Shift(i + 1), T(i + 1));
            var c := Op(r.c, FI(d, a, r.b), d, x[WordIndex(i + 2)], Shift(i + 2), T(i + 2));
            var b := Op(r.b, FI(c, d, a), c, x[WordIndex(i + 3)], Shift(i + 3), T(i + 3));
            Steps(q, x, i + 4) == Hash(a, b, c, d)
  {
    hide T, Shift, WordIndex, Op, FI, Steps;
    var r := Steps(q, x, i);
    var a := CodeStep(i, r.a, r.b, r.c, r.d, x);
    var d := CodeStep(i + 1, r.d, a, r.b, r.c, x);
    var c := CodeStep(i + 2, r.c, d, a, r.b, x);
    var b := CodeStep(i + 3, r.b, c, d, a, x);
    FourSteps(q, x, i);
  }

  /** What the tables of the standard say for round 1. */
  lemma Table1()
    ensures T(0) == 0xd76aa478 && T(1) == 0xe8c7b756 && T(2) == 0x242070db && T(3) == 0xc1bdceee
    ensures T(4) == 0xf57c0faf && T(5) == 0x4787c62a && T(6) == 0xa8304613 && T(7) == 0xfd469501
    ensures T(8) == 0x698098d8 && T(9) == 0x8b44f7af && T(10) == 0xffff5bb1 && T(11) == 0x895cd7be
    ensures T(12) == 0x6b901122 && T(13) == 0xfd987193 && T(14) == 0xa679438e && T(15) == 0x49b40821
    ensures Shift(0) == 7 && WordIndex(0) == 0 && Shift(1) == 12 && WordIndex(1) == 1
    ensures Shift(2) == 17 && WordIndex(2) == 2 && Shift(3) == 22 && WordIndex(3) == 3
    ensures Shift(4) == 7 && WordIndex(4) == 4 && Shift(5) == 12 && WordIndex(5) == 5
    ensures Shift(6) == 17 && WordIndex(6) == 6 && Shift(7) == 22 && WordIndex(7) == 7
    ensures Shift(8) == 7 && WordIndex(8) == 8 && Shift(9) == 12 && WordIndex(9) == 9
    ensures Shift(10) == 17 && WordIndex(10) == 10 && Shift(11) == 22 && WordIndex(11) == 11
    ensures Shift(12) == 7 && WordIndex(12) == 12 && Shift(13) == 12 && WordIndex(13) == 13
    ensures Shift(14) == 17 && WordIndex(14) == 14 && Shift(15) == 22 && WordIndex(15) == 15
  {
  }

  /** Round 1. */
  method Round1(q: Hash, x: seq<bv32>, ghost q0: Hash) returns (r: Hash)
    requires |x| == 16 && q == Steps(q0, x, 0)
    ensures r == Steps(q0, x, 16)
  {
    hide *;
    Table1();
    var Hash(A, B, C, D) := q;
    Four1(q0, x, 0);
    A := Op(A, FF(B, C, D), B, x[0], 7, 0xd76aa478);
    D := Op(D, FF(A, B, C), A, x[1], 12, 0xe8c7b756);
    C := Op(C, FF(D, A, B), D, x[2], 17, 0x242070db);
    B := Op(B, FF(C, D, A), C, x[3], 22, 0xc1bdceee);
    Four1(q0, x, 4);
    A := Op(A, FF(B, C, D), B, x[4], 7, 0xf57c0faf);
    D := Op(D, FF(A, B, C), A, x[5], 12, 0x4787c62a);
    C := Op(C, FF(D, A, B), D, x[6], 17, 0xa8304613);
    B := Op(B, FF(C, D, A), C, x[7], 22, 0xfd469501);
    Four1(q0, x, 8);
    A := Op(A, FF(B, C, D), B, x[8], 7, 0x698098d8);
    D := Op(D, FF(A, B, C), A, x[9], 12, 0x8b44f7af);
    C := Op(C, FF(D, A, B), D, x[10], 17, 0xffff5bb1);
    B := Op(B, FF(C, D, A), C, x[11], 22, 0x895cd7be);
    Four1(q0, x, 12);
    A := Op(A, FF(B, C, D), B, x[12], 7, 0x6b901122);
    D := Op(D, FF(A, B, C), A, x[13], 12, 0xfd987193);
    C := Op(C, FF(D, A, B), D, x[14], 17, 0xa679438e);
    B := Op(B, FF(C, D, A), C, x[15], 22, 0x49b40821);
    r := Hash(A, B, C, D);
  }

  /** What the tables of the standard say for round 2. */
  lemma Table2()
    ensures T(16) == 0xf61e2562 && T(17) == 0xc040b340 && T(18) == 0x265e5a51 && T(19) == 0xe9b6c7aa
    ensures T(20) == 0xd62f105d && T(21) == 0x02441453 && T(22) == 0xd8a1e681 && T(23) == 0xe7d3fbc8
    ensures T(24) == 0x21e1cde6 && T(25) == 0xc33707d6 && T(26) == 0xf4d50d87 && T(27) == 0x455a14ed
    ensures T(28) == 0xa9e3e905 && T(29) == 0xfcefa3f8 && T(30) == 0x676f02d9 && T(31) == 0x8d2a4c8a
    ensures Shift(16) == 5 && WordIndex(16) == 1 && Shift(17) == 9 && WordIndex(17) == 6
    ensures Shift(18) == 14 && WordIndex(18) == 11 && Shift(19) == 20 && WordIndex(19) == 0
    ensures Shift(20) == 5 && WordIndex(20) == 5 && Shift(21) == 9 && WordIndex(21) == 10
    ensures Shift(22) == 14 && WordIndex(22) == 15 && Shift(23) == 20 && WordIndex(23) == 4
    ensures Shift(24) == 5 && WordIndex(24) == 9 && Shift(25) == 9 && WordIndex(25) == 14
    ensures Shift(26) == 14 && WordIndex(26) == 3 && Shift(27) == 20 && WordIndex(27) == 8
    ensures Shift(28) == 5 && WordIndex(28) == 13 && Shift(29) == 9 && WordIndex(29) == 2
    ensures Shift(30) == 14 && WordIndex(30) == 7 && Shift(31) == 20 && WordIndex(31) == 12
  {
  }

  /** Round 2. */
  method Round2(q: Hash, x: seq<bv32>, ghost q0: Hash) returns (r: Hash)
    requires |x| == 16 && q == Steps(q0, x, 16)
    ensures r == Steps(q0, x, 32)
  {
    hide *;
    Table2();
    var Hash(A, B, C, D) := q;
    Four2(q0, x, 16);
    A := Op(A, FG(B, C, D), B, x[1], 5, 0xf61e2562);
    D := Op(D, FG(A, B, C), A, x[6], 9, 0xc040b340);
    C := Op(C, FG(D, A, B), D, x[11], 14, 0x265e5a51);
    B := Op(B, FG(C, D, A), C, x[0], 20, 0xe9b6c7aa);
    Four2(q0, x, 20);
    A := Op(A, FG(B, C, D), B, x[5], 5, 0xd62f105d);
    D := Op(D, FG(A, B, C), A, x[10], 9, 0x02441453);
    C := Op(C, FG(D, A, B), D, x[15], 14, 0xd8a1e681);
    B := Op(B, FG(C, D, A), C, x[4], 20, 0xe7d3fbc8);
    Four2(q0, x, 24);
    A := Op(A, FG(B, C, D), B, x[9], 5, 0x21e1cde6);
    D := Op(D, FG(A, B, C), A, x[14], 9, 0xc33707d6);
    C := Op(C, FG(D, A, B), D, x[3], 14, 0xf4d50d87);
    B := Op(B, FG(C, D, A), C, x[8], 20, 0x455a14ed);
    Four2(q0, x, 28);
    A := Op(A, FG(B, C, D), B, x[13], 5, 0xa9e3e905);
    D := Op(D, FG(A, B, C), A, x[2], 9, 0xfcefa3f8);
    C := Op(C, FG(D, A, B), D, x[7], 14, 0x676f02d9);
    B := Op(B, FG(C, D, A), C, x[12], 20, 0x8d2a4c8a);
    r := Hash(A, B, C, D);
  }

  /** What the tables of the standard say for round 3. */
  lemma Table3()
    ensures T(32) == 0xfffa3942 && T(33) == 0x8771f681 && T(34) == 0x6d9d6122 && T(35) == 0xfde5380c
    ensures T(36) == 0xa4beea44 && T(37) == 0x4bdecfa9 && T(38) == 0xf6bb4b60 && T(39) == 0xbebfbc70
    ensures T(40) == 0x289b7ec6 && T(41) == 0xeaa127fa && T(42) == 0xd4ef3085 && T(43) == 0x04881d05
    ensures T(44) == 0xd9d4d039 && T(45) == 0xe6db99e5 && T(46) == 0x1fa27cf8 && T(47) == 0xc4ac5665
    ensures Shift(32) == 4 && WordIndex(32) == 5 && Shift(33) == 11 && WordIndex(33) == 8
    ensures Shift(34) == 16 && WordIndex(34) == 11 && Shift(35) == 23 && WordIndex(35) == 14
    ensures Shift(36) == 4 && WordIndex(36) == 1 && Shift(37) == 11 && WordIndex(37) == 4
    ensures Shift(38) == 16 && WordIndex(38) == 7 && Shift(39) == 23 && WordIndex(39) == 10
    ensures Shift(40) == 4 && WordIndex(40) == 13 && Shift(41) == 11 && WordIndex(41) == 0
    ensures Shift(42) == 16 && WordIndex(42) == 3 && Shift(43) == 23 && WordIndex(43) == 6
    ensures Shift(44) == 4 && WordIndex(44) == 9 && Shift(45) == 11 && WordIndex(45) == 12
    ensures Shift(46) == 16 && WordIndex(46) == 15 && Shift(47) == 23 && WordIndex(47) == 2
  {
  }

  /** Round 3. */
  method Round3(q: Hash, x: seq<bv32>, ghost q0: Hash) returns (r: Hash)
    requires |x| == 16 && q == Steps(q0, x, 32)
    ensures r == Steps(q0, x, 48)
  {
    hide *;
    Table3();
    var Hash(A, B, C, D) := q;
    Four3(q0, x, 32);
    A := Op(A, FH(B, C, D), B, x[5], 4, 0xfffa3942);
    D := Op(D, FH(A, B, C), A, x[8], 11, 0x8771f681);
    C := Op(C, FH(D, A, B), D, x[11], 16, 0x6d9d6122);
    B := Op(B, FH(C, D, A), C, x[14], 23, 0xfde5380c);
    Four3(q0, x, 36);
    A := Op(A, FH(B, C, D), B, x[1], 4, 0xa4beea44);
    D := Op(D, FH(A, B, C), A, x[4], 11, 0x4bdecfa9);
    C := Op(C, FH(D, A, B), D, x[7], 16, 0xf6bb4b60);
    B := Op(B, FH(C, D, A), C, x[10], 23, 0xbebfbc70);
    Four3(q0, x, 40);
    A := Op(A, FH(B, C, D), B, x[13], 4, 0x289b7ec6);
    D := Op(D, FH(A, B, C), A, x[0], 11, 0xeaa127fa);
    C := Op(C, FH(D, A, B), D, x[3], 16, 0xd4ef3085);
    B := Op(B, FH(C, D, A), C, x[6], 23, 0x04881d05);
    Four3(q0, x, 44);
    A := Op(A, FH(B, C, D), B, x[9], 4, 0xd9d4d039);
    D := Op(D, FH(A, B, C), A, x[12], 11, 0xe6db99e5);
    C := Op(C, FH(D, A, B), D, x[15], 16, 0x1fa27cf8);
    B := Op(B, FH(C, D, A), C, x[2], 23, 0xc4ac5665);
    r := Hash(A, B, C, D);
  }

  /** What the tables of the standard say for round 4. */
  lemma Table4()
    ensures T(48) == 0xf4292244 && T(49) == 0x432aff97 && T(50) == 0xab9423a7 && T(51) == 0xfc93a039
    ensures T(52) == 0x655b59c3 && T(53) == 0x8f0ccc92 && T(54) == 0xffeff47d && T(55) == 0x85845dd1
    ensures T(56) == 0x6fa87e4f && T(57) == 0xfe2ce6e0 && T(58) == 0xa3014314 && T(59) == 0x4e0811a1
    ensures T(60) == 0xf7537e82 && T(61) == 0xbd3af235 && T(62) == 0x2ad7d2bb && T(63) == 0xeb86d391
    ensures Shift(48) == 6 && WordIndex(48) == 0 && Shift(49) == 10 && WordIndex(49) == 7
    ensures Shift(50) == 15 && WordIndex(50) == 14 && Shift(51) == 21 && WordIndex(51) == 5
    ensures Shift(52) == 6 && WordIndex(52) == 12 && Shift(53) == 10 && WordIndex(53) == 3
    ensures Shift(54) == 15 && WordIndex(54) == 10 && Shift(55) == 21 && WordIndex(55) == 1
    ensures Shift(56) == 6 && WordIndex(56) == 8 && Shift(57) == 10 && WordIndex(57) == 15
    ensures Shift(58) == 15 && WordIndex(58) == 6 && Shift(59) == 21 && WordIndex(59) == 13
    ensures Shift(60) == 6 && WordIndex(60) == 4 && Shift(61) == 10 && WordIndex(61) == 11
    ensures Shift(62) == 15 && WordIndex(62) == 2 && Shift(63) == 21 && WordIndex(63) == 9
  {
  }

  /** Round 4. */
  method Round4(q: Hash, x: seq<bv32>, ghost q0: Hash) returns (r: Hash)
    requires |x| == 16 && q == Steps(q0, x, 48)
    ensures r == Steps(q0, x, 64)
  {
    hide *;
    Table4();
    var Hash(A, B, C, D) := q;
    Four4(q0, x, 48);
    A := Op(A, FI(B, C, D), B, x[0], 6, 0xf4292244);
    D := Op(D, FI(A, B, C), A, x[7], 10, 0x432aff97);
    C := Op(C, FI(D, A, B), D, x[14], 15, 0xab9423a7);
    B := Op(B, FI(C, D, A), C, x[5], 21, 0xfc93a039);
    Four4(q0, x, 52);
    A := Op(A, FI(B, C, D), B, x[12], 6, 0x655b59c3);
    D := Op(D, FI(A, B, C), A, x[3], 10, 0x8f0ccc92);
    C := Op(C, FI(D, A, B), D, x[10], 15, 0xffeff47d);
    B := Op(B, FI(C, D, A), C, x[1], 21, 0x85845dd1);
    Four4(q0, x, 56);
    A := Op(A, FI(B, C, D), B, x[8], 6, 0x6fa87e4f);
    D := Op(D, FI(A, B, C), A, x[15], 10, 0xfe2ce6e0);
    C := Op(C, FI(D, A, B), D, x[6], 15, 0xa3014314);
    B := Op(B, FI(C, D, A), C, x[13], 21, 0x4e0811a1);
    Four4(q0, x, 60);
    A := Op(A, FI(B, C, D), B, x[4], 6, 0xf7537e82);
    D := Op(D, FI(A, B, C), A, x[11], 10, 0xbd3af235);
    C := Op(C, FI(D, A, B), D, x[2], 15, 0x2ad7d2bb);
    B := Op(B, FI(C, D, A), C, x[9], 21, 0xeb86d391);
    r := Hash(A, B, C, D);
  }

  /** One round of the loop in md5_process_block. */
  method CompressBlock(q: Hash, block: seq<byte>) returns (r: Hash)
    requires |block| == 64
    ensures r == Compress(q, block)
  {
    hide Steps, Words, Added;
    var x := Words(block);
    StepsNone(q, x);
    var r1 := Round1(q, x, q);
    var r2 := Round2(r1, x, q);
    var r3 := Round3(r2, x, q);
    var r4 := Round4(r3, x, q);
    r := Added(r4, q);
  }

  lemma StepsNone(q: Hash, x: seq<bv32>)
    requires |x| == 16
    ensures Steps(q, x, 0) == q
  {
  }

  /* ---------- counting ---------- */

  const WORD: nat := 0x1_0000_0000

  /** The two-word byte count. */
  function Count(lo: nat, hi: nat): nat {
    lo + WORD * hi
  }

  /** The double-word increment carries exactly when the low word wraps. */
  lemma Carry(lo: nat, hi: nat, n: nat)
    requires lo < WORD && hi < WORD && n < WORD
    ensures var lo' := (lo + n) % WORD;
            var hi' := if lo' < n then (hi + 1) % WORD else hi;
            Count(lo', hi') == (Count(lo, hi) + n) % (WORD * WORD)
  {
    var sum := Count(lo, hi) + n;
    if lo + n < WORD {
      assert (lo + n) % WORD == lo + n;
      assert sum < WORD * WORD;
    } else {
      assert (lo + n) % WORD == lo + n - WORD;
      if hi + 1 < WORD {
        assert sum == lo + n - WORD + WORD * (hi + 1) < WORD * WORD;
      } else {
        assert sum == lo + n - WORD + WORD * WORD;
      }
    }
  }

  lemma ModSum(x: nat, y: nat, d: nat)
    requires d >= 1
    ensures (x % d + y) % d == (x + y) % d
  {
    var p, q := x / d, (x % d + y) / d;
    assert x == d * p + x % d && x % d + y == d * q + (x % d + y) % d;
    assert x + y == d * (p + q) + (x % d + y) % d;
    ModUnique(x + y, d, p + q, (x % d + y) % d);
  }

  function Power256(k: nat): nat {
    if k == 0 then 1 else 256 * Power256(k - 1)
  }

  /** n moved up by k bytes */
  function Raised(n: nat, k: nat): nat {
    if k == 0 then n else 256 * Raised(n, k - 1)
  }

  lemma BytesNext(n: nat, k: nat)
    requires k > 0
    ensures Bytes(n, k) == [ByteOf(n)] + Bytes(n / 256, k - 1)
  {
  }

  /** The bytes of a number are those of its low part followed by those of its high part. */
  lemma {:induction false} BytesConcat(lo: nat, hi: nat, k: nat, j: nat)
    requires lo < Power256(k)
    ensures Bytes(lo + Raised(hi, k), k + j) == Bytes(lo, k) + Bytes(hi, j)
    decreases k
  {
    hide Bytes, ByteOf;
    if k == 0 {
      BytesNone(lo);
    } else {
      var x := Raised(hi, k - 1);
      BytesConcat(lo / 256, hi, k - 1, j);
      LowByte(lo, x);
      BytesNext(lo + 256 * x, k + j);
      BytesNext(lo, k);
      OneMore(ByteOf(lo), Bytes(lo / 256, k - 1), Bytes(hi, j));
    }
  }

  lemma BytesNone(n: nat)
    ensures Bytes(n, 0) == []
  {
  }

  lemma OneMore(b: byte, x: seq<byte>, y: seq<byte>)
    ensures [b] + (x + y) == [b] + x + y
  {
  }

  lemma LowByte(lo: nat, x: nat)
    ensures (lo + 256 * x) / 256 == lo / 256 + x
    ensures ByteOf(lo + 256 * x) == ByteOf(lo)
  {
    var q, r := lo / 256, lo % 256;
    assert lo + 256 * x == 256 * (q + x) + r;
    assert (256 * (q + x) + r) % 256 == r;
  }

  /** The two words stored at the end of the padding, from the byte count. */
  function LengthLow(lo: nat): nat {
    8 * lo % WORD
  }

  function LengthHigh(lo: nat, hi: nat): nat {
    Or(8 * hi % WORD, lo / 0x2000_0000)
  }

  lemma OrLowBits(x: nat, b: nat)
    requires b < 8
    ensures Or(8 * x, b) == 8 * x + b
  {
    SmallPowers();
    OrDisjoint(x, 3, b);
    ShlIsTimes(x, 3);
  }

  /** They are the bit count modulo 2^64, low-order byte first. */
  lemma LengthField(lo: nat, hi: nat, n: nat)
    requires lo < WORD && hi < WORD && Count(lo, hi) == n % (WORD * WORD)
    ensures Bytes(LengthLow(lo), 4) + Bytes(LengthHigh(lo, hi), 4) == Bytes(8 * n % (WORD * WORD), 8)
  {
    LengthWords(lo, hi);
    BitCount(lo, hi, n);
    hide Bytes, LengthLow, LengthHigh, Count;
    FourBytes(LengthHigh(lo, hi));
    BytesConcat(LengthLow(lo), LengthHigh(lo, hi), 4, 4);
  }

  lemma LengthWords(lo: nat, hi: nat)
    requires lo < WORD && hi < WORD
    ensures LengthLow(lo) == 8 * lo % WORD < WORD
    ensures LengthHigh(lo, hi) == 8 * hi % WORD + lo / 0x2000_0000
  {
    assert 8 * hi % WORD == 8 * (hi % 0x2000_0000);
    OrLowBits(hi % 0x2000_0000, lo / 0x2000_0000);
  }

  lemma FourBytes(n: nat)
    ensures Power256(4) == WORD && Raised(n, 4) == WORD * n
  {
    assert Raised(n, 1) == 256 * n && Raised(n, 2) == 256 * Raised(n, 1) && Raised(n, 3) == 256 * Raised(n, 2);
  }

  lemma BitCount(lo: nat, hi: nat, n: nat)
    requires lo < WORD && hi < WORD && Count(lo, hi) == n % (WORD * WORD)
    ensures 8 * n % (WORD * WORD) == 8 * lo % WORD + WORD * (8 * hi % WORD + lo / 0x2000_0000)
  {
    var q, u, v := n / (WORD * WORD), hi / 0x2000_0000, hi % 0x2000_0000;
    var l, carry := 8 * lo % WORD, lo / 0x2000_0000;
    assert n == WORD * WORD * q + lo + WORD * hi;
    assert 8 * lo == l + WORD * carry;
    assert 8 * hi == WORD * u + 8 * v && 8 * hi % WORD == 8 * v;
    assert 8 * n == WORD * WORD * (8 * q + u) + (l + WORD * (8 * v + carry));
    ModUnique(8 * n, WORD * WORD, 8 * q + u, l + WORD * (8 * v + carry));
  }

  /** fillbuf */
  function FillBuf(): (s: seq<byte>)
    ensures |s| == 64
  {
    [0x80] + Zeros(63)
  }

  /** How many of its bytes are used. */
  function PadBytes(bytes: nat): (pad: nat)
    requires bytes <= 64
    ensures 1 <= pad <= 64 && bytes + pad + 8 <= 128
  {
    if bytes >= 56 then 64 + 56 - bytes else 56 - bytes
  }

  lemma PadLength(n: nat, bytes: nat)
    requires bytes <= 64 && bytes <= n && (n - bytes) % 64 == 0
    ensures PadBytes(bytes) == 1 + PadZeros(n)
  {
    assert n % 64 == bytes % 64;
  }

  lemma FillBufFront(pad: nat)
    requires 1 <= pad <= 64
    ensures FillBuf()[..pad] == [0x80] + Zeros(pad - 1)
  {
  }

  /** The padding the code builds is that of the standard. */
  lemma PaddingBuilt(n: nat, bytes: nat, lo: nat, hi: nat)
    requires bytes <= 64 && bytes <= n && (n - bytes) % 64 == 0
    requires lo < WORD && hi < WORD && Count(lo, hi) == n % (WORD * WORD)
    ensures FillBuf()[..PadBytes(bytes)] + Bytes(LengthLow(lo), 4) + Bytes(LengthHigh(lo, hi), 4) == Padding(n)
  {
    hide LengthLow, LengthHigh, Bytes, Count, FillBuf, PadBytes, PadZeros, Zeros;
    LengthField(lo, hi, n);
    PadLength(n, bytes);
    FillBufFront(PadBytes(bytes));
  }

  lemma WholeRest(s: nat, n: nat)
    requires s % 64 == 0 && n % 64 == 0
    ensures (s - n) % 64 == 0
  {
  }

  /** n & ~63 */
  function Floor64(n: nat): (k: nat)
    ensures k <= n && k % 64 == 0 && n - k == n % 64 && n % 64 < 64
  {
    n - n % 64
  }

  /** Absorbing what is in the buffer with the padding gives the digest. */
  lemma FinalBlocks(q: Hash, count: nat, buf: seq<byte>, seen: seq<byte>)
    requires Stands(q, count, buf, seen)
    ensures |buf + Padding(|seen|)| % 64 == 0
    ensures Output(Absorb(q, buf + Padding(|seen|))) == Digest(seen)
  {
    hide Absorb, Output, Padding;
    var n, p := |seen| - |buf|, Padding(|seen|);
    WholeRest(|seen| + |p|, n);
    AbsorbConcat(INITIAL, seen[..n], buf + p);
    assert seen + p == seen[..n] + (buf + p);
  }

  /* ---------- what the context stands for ---------- */

  /** The bytes seen so far are whole blocks, already absorbed and counted, followed by buf. */
  ghost predicate Stands(q: Hash, count: nat, buf: seq<byte>, seen: seq<byte>) {
    && |buf| <= |seen|
    && var n := |seen| - |buf|;
       && n % 64 == 0
       && seen[n..] == buf
       && q == Absorb(INITIAL, seen[..n])
       && count == n % (WORD * WORD)
  }

  lemma StandsAppend(q: Hash, count: nat, buf: seq<byte>, seen: seq<byte>, x: seq<byte>)
    requires Stands(q, count, buf, seen)
    ensures Stands(q, count, buf + x, seen + x)
  {
    hide Absorb;
    var n := |seen| - |buf|;
    assert (seen + x)[n..] == buf + x && (seen + x)[..n] == seen[..n];
  }

  lemma StandsAbsorb(q: Hash, count: nat, buf: seq<byte>, seen: seq<byte>, k: nat)
    requires Stands(q, count, buf, seen) && k <= |buf| && k % 64 == 0
    ensures Stands(Absorb(q, buf[..k]), (count + k) % (WORD * WORD), buf[k..], seen)
  {
    hide Absorb;
    var n := |seen| - |buf|;
    assert seen[..n + k] == seen[..n] + buf[..k];
    AbsorbConcat(INITIAL, seen[..n], buf[..k]);
    ModSum(n, k, WORD * WORD);
    assert seen[n + k..] == buf[k..];
  }

  /* ---------- the context ---------- */

  class Context {
    var A: bv32
    var B: bv32
    var C: bv32
    var D: bv32
    var total0: nat
    var total1: nat
    var buflen: nat
    const buffer: array<byte>

    /** all bytes handed to the context */
    ghost var seen: seq<byte>

    ghost predicate Counters()
      reads this
    {
      buffer.Length == 128 && total0 < WORD && total1 < WORD
    }

    ghost predicate Loaded()
      reads this, buffer
    {
      Counters() && buflen <= 128 && Stands(Hash(A, B, C, D), Count(total0, total1), buffer[..buflen], seen)
    }

    ghost predicate Valid()
      reads this, buffer
    {
      Loaded() && buflen <= 64
    }

    /** md5_init_ctx */
    constructor ()
      ensures Valid() && seen == [] && fresh(buffer)
    {
      A, B, C, D := 0x67452301, 0xefcdab89, 0x98badcfe, 0x10325476;
      total0, total1, buflen := 0, 0, 0;
      buffer := new byte[128];
      seen := [];
    }

    /** md5_process_block */
    method ProcessBlock(data: seq<byte>)
      requires Counters() && |data| % 64 == 0 && |data| < WORD
      modifies this`A, this`B, this`C, this`D, this`total0, this`total1
      ensures Counters()
      ensures Hash(A, B, C, D) == Absorb(old(Hash(A, B, C, D)), data)
      ensures Count(total0, total1) == (old(Count(total0, total1)) + |data|) % (WORD * WORD)
    {
      hide Compress, Count;
      Carry(total0, total1, |data|);
      total0 := (total0 + |data|) % WORD;
      if total0 < |data| {
        total1 := (total1 + 1) % WORD;
      }
      var q := Hash(A, B, C, D);
      var words := data;
      while words != []
        invariant Counters() && Count(total0, total1) == (old(Count(total0, total1)) + |data|) % (WORD * WORD)
        invariant |words| % 64 == 0 && Absorb(q, words) == Absorb(old(Hash(A, B, C, D)), data)
        decreases |words|
      {
        q := CompressBlock(q, words[..64]);
        words := words[64..];
      }
      A, B, C, D := q.a, q.b, q.c, q.d;
    }

    /** memcpy into the buffer. */
    method Fill(offset: nat, bytes: seq<byte>)
      requires offset + |bytes| <= buffer.Length
      modifies buffer
      ensures buffer[..offset + |bytes|] == old(buffer[..offset]) + bytes
      ensures forall i | offset + |bytes| <= i < buffer.Length :: buffer[i] == old(buffer[i])
    {
      forall i | 0 <= i < |bytes| {
        buffer[offset + i] := bytes[i];
      }
    }

    /** md5_process_bytes, for data that starts at the given address. */
    method ProcessBytes(data: seq<byte>, address: nat)
      requires Valid() && |data| < WORD
      modifies this, buffer
      ensures Valid() && seen == old(seen) + data
    {
      hide Stands, Count;
      var rest := data;
      var pointer := address;
      if buflen != 0 {
        var add := if 128 - buflen > |data| then |data| else 128 - buflen;
        TopUp(data[..add]);
        rest := data[add..];
        pointer := pointer + add;
        assert data == data[..add] + rest;
      }
      ghost var start := seen;
      assert old(seen) + data == start + rest;
      if |rest| >= 64 {
        rest := WholeBlocks(rest, pointer);
      }
      if |rest| > 0 {
        Remaining(rest);
      } else {
        assert seen == seen + rest;
      }
    }

    /** The first part: bytes are added behind those already in the buffer. */
    method TopUp(bytes: seq<byte>)
      requires Valid() && buflen != 0 && buflen + |bytes| <= 128
      modifies this, buffer
      ensures Valid() && seen == old(seen) + bytes
      ensures old(buflen) + |bytes| == 128 ==> buflen == 0
    {
      hide Stands, Count, Absorb, Floor64;
      StandsAppend(Hash(A, B, C, D), Count(total0, total1), buffer[..buflen], seen, bytes);
      Fill(buflen, bytes);
      seen := seen + bytes;
      buflen := buflen + |bytes|;
      if buflen > 64 {
        Flush();
      }
    }

    /** Absorbs the complete blocks in the buffer and moves the rest to its front. */
    method Flush()
      requires Loaded()
      modifies this, buffer
      ensures Valid() && seen == old(seen) && buflen == old(buflen) % 64
    {
      hide Stands, Count, Absorb, Floor64;
      var k := Floor64(buflen);
      ghost var buf := buffer[..buflen];
      StandsAbsorb(Hash(A, B, C, D), Count(total0, total1), buf, seen, k);
      var blocks, tail := buffer[..k], buffer[k..buflen];
      assert blocks == buf[..k] && tail == buf[k..];
      ProcessBlock(blocks);
      Fill(0, tail);
      buflen := buflen - k;
      assert buffer[..buflen] == tail;
    }

    /** The second part: complete blocks, through the buffer if the data is not aligned. */
    method WholeBlocks(data: seq<byte>, pointer: nat) returns (rest: seq<byte>)
      requires Valid() && buflen == 0 && 64 <= |data| < WORD
      modifies this, buffer
      ensures Valid() && buflen == 0 && |rest| <= 64 && seen + rest == old(seen) + data
    {
      hide Stands, Count, Absorb;
      rest := data;
      assert buffer[..0] == [];
      if pointer % 4 != 0 {
        while |rest| > 64
          invariant Valid() && buflen == 0 && seen + rest == old(seen) + data
          decreases |rest|
        {
          Fill(0, rest[..64]);
          assert buffer[..64] == rest[..64] && buffer[..0] == [];
          Blocks(buffer[..64]);
          assert rest == rest[..64] + rest[64..];
          rest := rest[64..];
        }
      } else {
        var k := Floor64(|rest|);
        Blocks(rest[..k]);
        assert rest == rest[..k] + rest[k..];
        rest := rest[k..];
      }
    }

    /** Complete blocks while the buffer is empty. */
    method Blocks(bytes: seq<byte>)
      requires Valid() && buflen == 0 && |bytes| % 64 == 0 && |bytes| < WORD
      modifies this
      ensures Valid() && buflen == 0 && seen == old(seen) + bytes
    {
      hide Stands, Count, Absorb;
      assert buffer[..0] == [] && [] + bytes == bytes && bytes[..|bytes|] == bytes && bytes[|bytes|..] == [];
      StandsAppend(Hash(A, B, C, D), Count(total0, total1), [], seen, bytes);
      StandsAbsorb(Hash(A, B, C, D), Count(total0, total1), bytes, seen + bytes, |bytes|);
      ProcessBlock(bytes);
      seen := seen + bytes;
    }

    /** The last part: what is left is kept in the buffer. */
    method Remaining(bytes: seq<byte>)
      requires Valid() && buflen == 0 && 0 < |bytes| <= 64
      modifies this, buffer
      ensures Valid() && seen == old(seen) + bytes
    {
      hide Stands, Count, Absorb;
      assert buffer[..0] == [] && [] + bytes == bytes;
      StandsAppend(Hash(A, B, C, D), Count(total0, total1), [], seen, bytes);
      Fill(buflen, bytes);
      seen := seen + bytes;
      buflen := buflen + |bytes|;
      if buflen >= 64 {
        Flush();
      }
    }

    /** md5_finish_ctx and md5_read_ctx */
    method Finish() returns (digest: seq<byte>)
      requires Valid()
      modifies this, buffer
      ensures digest == Digest(old(seen))
    {
      hide Stands, Count, Absorb, Padding, Output, PadBytes;
      var bytes := buflen;
      ghost var buf := buffer[..bytes];
      StandsCount(Hash(A, B, C, D), Count(total0, total1), buf, seen);
      FinalBlocks(Hash(A, B, C, D), Count(total0, total1), buf, seen);
      Carry(total0, total1, bytes);
      total0 := (total0 + bytes) % WORD;
      if total0 < bytes {
        total1 := (total1 + 1) % WORD;
      }
      AppendPadding(bytes, |seen|);
      ProcessBlock(buffer[..bytes + PadBytes(bytes) + 8]);
      digest := Output(Hash(A, B, C, D));
    }

    /** The padding and the length field behind the bytes in the buffer; n bytes have been counted. */
    method AppendPadding(bytes: nat, ghost n: nat)
      requires Counters() && bytes <= 64 && bytes <= n && (n - bytes) % 64 == 0
      requires Count(total0, total1) == n % (WORD * WORD)
      modifies buffer
      ensures buffer[..bytes + PadBytes(bytes) + 8] == old(buffer[..bytes]) + Padding(n)
    {
      hide Count, Padding, LengthLow, LengthHigh, Bytes, FillBuf, PadBytes;
      var pad := PadBytes(bytes);
      PaddingBuilt(n, bytes, total0, total1);
      Fill(bytes, FillBuf()[..pad]);
      Fill(bytes + pad, Bytes(LengthLow(total0), 4));
      Fill(bytes + pad + 4, Bytes(LengthHigh(total0, total1), 4));
    }
  }

  lemma StandsCount(q: Hash, count: nat, buf: seq<byte>, seen: seq<byte>)
    requires Stands(q, count, buf, seen)
    ensures |buf| <= |seen| && (|seen| - |buf|) % 64 == 0
    ensures (count + |buf|) % (WORD * WORD) == |seen| % (WORD * WORD)
  {
    ModSum(|seen| - |buf|, |buf|, WORD * WORD);
  }

  /** The chunks one after the other. */
  function Joined(chunks: seq<seq<byte>>): seq<byte> {
    if chunks == [] then [] else Joined(chunks[..|chunks| - 1]) + chunks[|chunks| - 1]
  }

  /** Any split of a message into md5_process_bytes calls, each at any address, gives the digest of the whole
      message. */
  method DigestOfChunks(chunks: seq<seq<byte>>, addresses: seq<nat>) returns (digest: seq<byte>)
    requires |addresses| == |chunks| && forall c | c in chunks :: |c| < WORD
    ensures digest == Digest(Joined(chunks))
  {
    var ctx := new Context();
    for i := 0 to |chunks|
      invariant ctx.Valid() && fresh(ctx) && fresh(ctx.buffer) && ctx.seen == Joined(chunks[..i])
    {
      assert chunks[..i + 1][..i] == chunks[..i];
      ctx.ProcessBytes(chunks[i], addresses[i]);
    }
    assert chunks[..|chunks|] == chunks;
    digest := ctx.Finish();
  }

  /** md5_buffer */
  method DigestOfBuffer(data: seq<byte>, address: nat) returns (digest: seq<byte>)
    requires |data| < WORD
    ensures digest == Digest(data)
  {
    var ctx := new Context();
    ctx.ProcessBytes(data, address);
    assert [] + data == data;
    digest := ctx.Finish();
  }
}
