/** The MD5 message digest as RFC 1321 defines it, sections 3.1 to 3.5. */
module Md5Reference {
  import opened Bytes

  datatype Regs = Regs(a: bv32, b: bv32, c: bv32, d: bv32)

  // ----- section 3.4: sixteen words, sixty-four steps

  function F(x: bv32, y: bv32, z: bv32): bv32 {
    (x & y) | (!x & z)
  }

  function G(x: bv32, y: bv32, z: bv32): bv32 {
    (x & z) | (y & !z)
  }

  function H(x: bv32, y: bv32, z: bv32): bv32 {
    x ^ y ^ z
  }

  function I(x: bv32, y: bv32, z: bv32): bv32 {
    y ^ (x | !z)
  }

  /** The step `[abcd k s i]` of a round: the word it adds and the distance it rotates. */
  datatype Op = Op(k: WordIndex, s: Distance)

  type WordIndex = k: nat | k < 16
  type Distance = s: nat | 0 < s < 32 witness 1

  const ROUND1 := [
    Op(0, 7), Op(1, 12), Op(2, 17), Op(3, 22), Op(4, 7), Op(5, 12), Op(6, 17), Op(7, 22),
    Op(8, 7), Op(9, 12), Op(10, 17), Op(11, 22), Op(12, 7), Op(13, 12), Op(14, 17), Op(15, 22)]
  const ROUND2 := [
    Op(1, 5), Op(6, 9), Op(11, 14), Op(0, 20), Op(5, 5), Op(10, 9), Op(15, 14), Op(4, 20),
    Op(9, 5), Op(14, 9), Op(3, 14), Op(8, 20), Op(13, 5), Op(2, 9), Op(7, 14), Op(12, 20)]
  const ROUND3 := [
    Op(5, 4), Op(8, 11), Op(11, 16), Op(14, 23), Op(1, 4), Op(4, 11), Op(7, 16), Op(10, 23),
    Op(13, 4), Op(0, 11), Op(3, 16), Op(6, 23), Op(9, 4), Op(12, 11), Op(15, 16), Op(2, 23)]
  const ROUND4 := [
    Op(0, 6), Op(7, 10), Op(14, 15), Op(5, 21), Op(12, 6), Op(3, 10), Op(10, 15), Op(1, 21),
    Op(8, 6), Op(15, 10), Op(6, 15), Op(13, 21), Op(4, 6), Op(11, 10), Op(2, 15), Op(9, 21)]

  function OpOf(i: nat): Op
    requires i < 64
  {
    if i < 16 then ROUND1[i] else if i < 32 then ROUND2[i - 16] else if i < 48 then ROUND3[i - 32] else ROUND4[i - 48]
  }

  /** The constants `T[1]` to `T[64]`, a row for each round. */
  const T: seq<seq<bv32>> := [
    [0xd76aa478, 0xe8c7b756, 0x242070db, 0xc1bdceee, 0xf57c0faf, 0x4787c62a, 0xa8304613, 0xfd469501,
     0x698098d8, 0x8b44f7af, 0xffff5bb1, 0x895cd7be, 0x6b901122, 0xfd987193, 0xa679438e, 0x49b40821],
    [0xf61e2562, 0xc040b340, 0x265e5a51, 0xe9b6c7aa, 0xd62f105d, 0x02441453, 0xd8a1e681, 0xe7d3fbc8,
     0x21e1cde6, 0xc33707d6, 0xf4d50d87, 0x455a14ed, 0xa9e3e905, 0xfcefa3f8, 0x676f02d9, 0x8d2a4c8a],
    [0xfffa3942, 0x8771f681, 0x6d9d6122, 0xfde5380c, 0xa4beea44, 0x4bdecfa9, 0xf6bb4b60, 0xbebfbc70,
     0x289b7ec6, 0xeaa127fa, 0xd4ef3085, 0x04881d05, 0xd9d4d039, 0xe6db99e5, 0x1fa27cf8, 0xc4ac5665],
    [0xf4292244, 0x432aff97, 0xab9423a7, 0xfc93a039, 0x655b59c3, 0x8f0ccc92, 0xffeff47d, 0x85845dd1,
     0x6fa87e4f, 0xfe2ce6e0, 0xa3014314, 0x4e0811a1, 0xf7537e82, 0xbd3af235, 0x2ad7d2bb, 0xeb86d391]]

  function TOf(i: nat): bv32
    requires i < 64
  {
    T[i / 16][i % 16]
  }

  function Mixed(i: nat, x: bv32, y: bv32, z: bv32): bv32 {
    if i < 16 then F(x, y, z) else if i < 32 then G(x, y, z) else if i < 48 then H(x, y, z) else I(x, y, z)
  }

  /** 32-bit addition. */
  function Add(x: bv32, y: bv32): bv32 {
    x + y
  }

  function Sum(a: bv32, f: bv32, x: bv32, t: bv32): bv32 {
    a + f + x + t
  }

  /** `x <<< s`. */
  function Rotate(x: bv32, s: Distance): bv32 {
    x.RotateLeft(s)
  }

  /** `a = b + ((a + f(b, c, d) + X[k] + T[i]) <<< s)`. */
  function Mix(words: seq<bv32>, i: nat, a: bv32, b: bv32, c: bv32, d: bv32): bv32
    requires |words| == 16 && i < 64
  {
    Add(b, Rotate(Sum(a, Mixed(i, b, c, d), words[OpOf(i).k], TOf(i)), OpOf(i).s))
  }

  /** Step `i`: the registers are named `abcd`, `dabc`, `cdab` and `bcda` in turn. */
  function Step(words: seq<bv32>, i: nat, r: Regs): Regs
    requires |words| == 16 && i < 64
  {
    if i % 4 == 0 then r.(a := Mix(words, i, r.a, r.b, r.c, r.d))
    else if i % 4 == 1 then r.(d := Mix(words, i, r.d, r.a, r.b, r.c))
    else if i % 4 == 2 then r.(c := Mix(words, i, r.c, r.d, r.a, r.b))
    else r.(b := Mix(words, i, r.b, r.c, r.d, r.a))
  }

  function Steps(words: seq<bv32>, n: nat, r: Regs): Regs
    requires |words| == 16 && n <= 64
  {
    if n == 0 then r else Step(words, n - 1, Steps(words, n - 1, r))
  }

  function WordOf(n: nat): bv32
    requires n < 0x1_0000_0000
  {
    n as bv32
  }

  /** Four bytes, low-order byte first. */
  function Word(s: seq<byte>): bv32
    requires |s| == 4
  {
    WordOf(LE32(s))
  }

  function Words(block: seq<byte>): (w: seq<bv32>)
    requires |block| == 64
    ensures |w| == 16
  {
    seq(16, g requires 0 <= g < 16 => Word(block[4 * g..4 * g + 4]))
  }

  /** One block: the steps, then the registers are added to what they were. */
  function Compress(r: Regs, block: seq<byte>): Regs
    requires |block| == 64
  {
    var s := Steps(Words(block), 64, r);
    Regs(Add(r.a, s.a), Add(r.b, s.b), Add(r.c, s.c), Add(r.d, s.d))
  }

  // ----- sections 3.1 to 3.3: padding and folding

  const IV := Regs(0x67452301, 0xefcdab89, 0x98badcfe, 0x10325476)

  /** The registers after the first `k` blocks of 64 bytes. */
  function Fold(m: seq<byte>, k: nat): Regs
    requires 64 * k <= |m|
  {
    if k == 0 then IV else Compress(Fold(m, k - 1), m[64 * (k - 1)..64 * k])
  }

  /** A 64-bit number, low-order byte first; a longer one is cut to its low-order 64 bits. */
  function Enc64(x: nat): (s: seq<byte>)
    ensures |s| == 8
  {
    Enc32(x % 0x1_0000_0000) + Enc32(x / 0x1_0000_0000 % 0x1_0000_0000)
  }

  lemma PaddedLength(n: nat)
    ensures (n + (1 + (55 - n) % 64 + 8)) % 64 == 0
  {
  }

  /** A single 1 bit, the fewest zeros that leave 64 bits in the last block, and the length of the message in bits. */
  function Padded(m: seq<byte>): (p: seq<byte>)
    ensures |p| % 64 == 0 && m <= p
  {
    var zeros := Zeros((55 - |m|) % 64);
    var length := Enc64(8 * |m|);
    PaddedLength(|m|);
    m + ([0x80] + zeros + length)
  }

  function EncodeWord(w: bv32): (s: seq<byte>)
    ensures |s| == 4
  {
    Enc32(w as nat)
  }

  function EncodeRegs(r: Regs): (s: seq<byte>)
    ensures |s| == 16
  {
    EncodeWord(r.a) + EncodeWord(r.b) + EncodeWord(r.c) + EncodeWord(r.d)
  }

  /** The message digest of `m`. */
  function Digest(m: seq<byte>): (s: seq<byte>)
    ensures |s| == 16
  {
    EncodeRegs(Fold(Padded(m), |Padded(m)| / 64))
  }
}
