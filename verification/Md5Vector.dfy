/** The digest of "abc" that RFC 1321 lists in section A.5, step by step: it fixes constants, byte orders and padding. */
module Md5Vector {
  import opened Bytes
  import opened Md5Reference

  /** The sixteen words of the padded message. */
  const W: seq<bv32> := [0x80636261, 0, 0, 0, 0, 0, 0, 0, 0, 0, 0, 0, 0, 0, 24, 0]

  /** Step `i` adds word `x` and constant `t` and rotates by `s`. */
  predicate Uses(i: nat, x: bv32, t: bv32, s: Distance) {
    i < 64 && W[OpOf(i).k] == x && TOf(i) == t && OpOf(i).s == s
  }

  function Value(i: nat, a: bv32, b: bv32, c: bv32, d: bv32, x: bv32, t: bv32, s: Distance): bv32 {
    Add(b, Rotate(Sum(a, Mixed(i, b, c, d), x, t), s))
  }

  lemma NextA(i: nat, r: Regs, x: bv32, t: bv32, s: Distance, y: bv32)
    requires i % 4 == 0 && Uses(i, x, t, s) && Steps(W, i, IV) == r && Value(i, r.a, r.b, r.c, r.d, x, t, s) == y
    ensures Steps(W, i + 1, IV) == r.(a := y)
  {
    hide Mixed, Rotate, OpOf, TOf, Add, Sum;
  }

  lemma NextD(i: nat, r: Regs, x: bv32, t: bv32, s: Distance, y: bv32)
    requires i % 4 == 1 && Uses(i, x, t, s) && Steps(W, i, IV) == r && Value(i, r.d, r.a, r.b, r.c, x, t, s) == y
    ensures Steps(W, i + 1, IV) == r.(d := y)
  {
    hide Mixed, Rotate, OpOf, TOf, Add, Sum;
  }

  lemma NextC(i: nat, r: Regs, x: bv32, t: bv32, s: Distance, y: bv32)
    requires i % 4 == 2 && Uses(i, x, t, s) && Steps(W, i, IV) == r && Value(i, r.c, r.d, r.a, r.b, x, t, s) == y
    ensures Steps(W, i + 1, IV) == r.(c := y)
  {
    hide Mixed, Rotate, OpOf, TOf, Add, Sum;
  }

  lemma NextB(i: nat, r: Regs, x: bv32, t: bv32, s: Distance, y: bv32)
    requires i % 4 == 3 && Uses(i, x, t, s) && Steps(W, i, IV) == r && Value(i, r.b, r.c, r.d, r.a, x, t, s) == y
    ensures Steps(W, i + 1, IV) == r.(b := y)
  {
    hide Mixed, Rotate, OpOf, TOf, Add, Sum;
  }

  lemma Steps16()
    ensures Steps(W, 16, IV) == Regs(0xdda9b9a6, 0x72aff2e0, 0xe396856b, 0xa1051895)
  {
    hide Steps, Uses;
    Table4();
    Table8();
    Table12();
    Table16();
    NoSteps();
    NextA(0, Regs(0x67452301, 0xefcdab89, 0x98badcfe, 0x10325476), 0x80636261, 0xd76aa478, 7, 0xd6d117b4);
    NextD(1, Regs(0xd6d117b4, 0xefcdab89, 0x98badcfe, 0x10325476), 0x00000000, 0xe8c7b756, 12, 0x344a8432);
    NextC(2, Regs(0xd6d117b4, 0xefcdab89, 0x98badcfe, 0x344a8432), 0x00000000, 0x242070db, 17, 0x2f6fbd72);
    NextB(3, Regs(0xd6d117b4, 0xefcdab89, 0x2f6fbd72, 0x344a8432), 0x00000000, 0xc1bdceee, 22, 0x7ad956f2);
    NextA(4, Regs(0xd6d117b4, 0x7ad956f2, 0x2f6fbd72, 0x344a8432), 0x00000000, 0xf57c0faf, 7, 0xc73741ef);
    NextD(5, Regs(0xc73741ef, 0x7ad956f2, 0x2f6fbd72, 0x344a8432), 0x00000000, 0x4787c62a, 12, 0x8bac3051);
    NextC(6, Regs(0xc73741ef, 0x7ad956f2, 0x2f6fbd72, 0x8bac3051), 0x00000000, 0xa8304613, 17, 0x207dc67b);
    NextB(7, Regs(0xc73741ef, 0x7ad956f2, 0x207dc67b, 0x8bac3051), 0x00000000, 0xfd469501, 22, 0x928d99f6);
    NextA(8, Regs(0xc73741ef, 0x928d99f6, 0x207dc67b, 0x8bac3051), 0x00000000, 0x698098d8, 7, 0x854b3712);
    NextD(9, Regs(0x854b3712, 0x928d99f6, 0x207dc67b, 0x8bac3051), 0x00000000, 0x8b44f7af, 12, 0x74e2f284);
    NextC(10, Regs(0x854b3712, 0x928d99f6, 0x207dc67b, 0x74e2f284), 0x00000000, 0xffff5bb1, 17, 0x3020401c);
    NextB(11, Regs(0x854b3712, 0x928d99f6, 0x3020401c, 0x74e2f284), 0x00000000, 0x895cd7be, 22, 0x5ed49596);
    NextA(12, Regs(0x854b3712, 0x5ed49596, 0x3020401c, 0x74e2f284), 0x00000000, 0x6b901122, 7, 0xdda9b9a6);
    NextD(13, Regs(0xdda9b9a6, 0x5ed49596, 0x3020401c, 0x74e2f284), 0x00000000, 0xfd987193, 12, 0xa1051895);
    NextC(14, Regs(0xdda9b9a6, 0x5ed49596, 0x3020401c, 0xa1051895), 0x00000018, 0xa679438e, 17, 0xe396856b);
    NextB(15, Regs(0xdda9b9a6, 0x5ed49596, 0xe396856b, 0xa1051895), 0x00000000, 0x49b40821, 22, 0x72aff2e0);
  }

  lemma Steps32()
    ensures Steps(W, 32, IV) == Regs(0x790a77fb, 0x726342d3, 0xa62884aa, 0x9f47e4f8)
  {
    hide Steps, Uses;
    Table20();
    Table24();
    Table28();
    Table32();
    Steps16();
    NextA(16, Regs(0xdda9b9a6, 0x72aff2e0, 0xe396856b, 0xa1051895), 0x00000000, 0xf61e2562, 5, 0x3e9e9126);
    NextD(17, Regs(0x3e9e9126, 0x72aff2e0, 0xe396856b, 0xa1051895), 0x00000000, 0xc040b340, 9, 0x4a1d804e);
    NextC(18, Regs(0x3e9e9126, 0x72aff2e0, 0xe396856b, 0x4a1d804e), 0x00000000, 0x265e5a51, 14, 0xe25e1652);
    NextB(19, Regs(0x3e9e9126, 0x72aff2e0, 0xe25e1652, 0x4a1d804e), 0x80636261, 0xe9b6c7aa, 20, 0xb5b204e4);
    NextA(20, Regs(0x3e9e9126, 0xb5b204e4, 0xe25e1652, 0x4a1d804e), 0x00000000, 0xd62f105d, 5, 0x59a8ffda);
    NextD(21, Regs(0x59a8ffda, 0xb5b204e4, 0xe25e1652, 0x4a1d804e), 0x00000000, 0x02441453, 9, 0x6d002f1e);
    NextC(22, Regs(0x59a8ffda, 0xb5b204e4, 0xe25e1652, 0x6d002f1e), 0x00000000, 0xd8a1e681, 14, 0xabfc7920);
    NextB(23, Regs(0x59a8ffda, 0xb5b204e4, 0xabfc7920, 0x6d002f1e), 0x00000000, 0xe7d3fbc8, 20, 0x47092c07);
    NextA(24, Regs(0x59a8ffda, 0x47092c07, 0xabfc7920, 0x6d002f1e), 0x00000000, 0x21e1cde6, 5, 0xb7f268cf);
    NextD(25, Regs(0xb7f268cf, 0x47092c07, 0xabfc7920, 0x6d002f1e), 0x00000018, 0xc33707d6, 9, 0x09388eff);
    NextC(26, Regs(0xb7f268cf, 0x47092c07, 0xabfc7920, 0x09388eff), 0x00000000, 0xf4d50d87, 14, 0xfe1623b1);
    NextB(27, Regs(0xb7f268cf, 0x47092c07, 0xfe1623b1, 0x09388eff), 0x00000000, 0x455a14ed, 20, 0x786acb8f);
    NextA(28, Regs(0xb7f268cf, 0x786acb8f, 0xfe1623b1, 0x09388eff), 0x00000000, 0xa9e3e905, 5, 0x790a77fb);
    NextD(29, Regs(0x790a77fb, 0x786acb8f, 0xfe1623b1, 0x09388eff), 0x00000000, 0xfcefa3f8, 9, 0x9f47e4f8);
    NextC(30, Regs(0x790a77fb, 0x786acb8f, 0xfe1623b1, 0x9f47e4f8), 0x00000000, 0x676f02d9, 14, 0xa62884aa);
    NextB(31, Regs(0x790a77fb, 0x786acb8f, 0xa62884aa, 0x9f47e4f8), 0x00000000, 0x8d2a4c8a, 20, 0x726342d3);
  }

  lemma Steps48()
    ensures Steps(W, 48, IV) == Regs(0x7f2e507b, 0x7beb9700, 0x8fae6399, 0x99d9679d)
  {
    hide Steps, Uses;
    Table36();
    Table40();
    Table44();
    Table48();
    Steps32();
    NextA(32, Regs(0x790a77fb, 0x726342d3, 0xa62884aa, 0x9f47e4f8), 0x00000000, 0xfffa3942, 4, 0xb3707ebf);
    NextD(33, Regs(0xb3707ebf, 0x726342d3, 0xa62884aa, 0x9f47e4f8), 0x00000000, 0x8771f681, 11, 0x60127b2e);
    NextC(34, Regs(0xb3707ebf, 0x726342d3, 0xa62884aa, 0x60127b2e), 0x00000000, 0x6d9d6122, 16, 0x8d212ff5);
    NextB(35, Regs(0xb3707ebf, 0x726342d3, 0x8d212ff5, 0x60127b2e), 0x00000018, 0xfde5380c, 23, 0x3b0875c7);
    NextA(36, Regs(0xb3707ebf, 0x3b0875c7, 0x8d212ff5, 0x60127b2e), 0x00000000, 0xa4beea44, 4, 0x21b117b9);
    NextD(37, Regs(0x21b117b9, 0x3b0875c7, 0x8d212ff5, 0x60127b2e), 0x00000000, 0x4bdecfa9, 11, 0x6e7429d5);
    NextC(38, Regs(0x21b117b9, 0x3b0875c7, 0x8d212ff5, 0x6e7429d5), 0x00000000, 0xf6bb4b60, 16, 0x3575227e);
    NextB(39, Regs(0x21b117b9, 0x3b0875c7, 0x3575227e, 0x6e7429d5), 0x00000000, 0xbebfbc70, 23, 0x5a2f5ea5);
    NextA(40, Regs(0x21b117b9, 0x5a2f5ea5, 0x3575227e, 0x6e7429d5), 0x00000000, 0x289b7ec6, 4, 0x11de1779);
    NextD(41, Regs(0x11de1779, 0x5a2f5ea5, 0x3575227e, 0x6e7429d5), 0x80636261, 0xeaa127fa, 11, 0xfadcaa38);
    NextC(42, Regs(0x11de1779, 0x5a2f5ea5, 0x3575227e, 0xfadcaa38), 0x00000000, 0xd4ef3085, 16, 0x31c465ca);
    NextB(43, Regs(0x11de1779, 0x5a2f5ea5, 0x31c465ca, 0xfadcaa38), 0x00000000, 0x04881d05, 23, 0x4c6124f4);
    NextA(44, Regs(0x11de1779, 0x4c6124f4, 0x31c465ca, 0xfadcaa38), 0x00000000, 0xd9d4d039, 4, 0x7f2e507b);
    NextD(45, Regs(0x7f2e507b, 0x4c6124f4, 0x31c465ca, 0xfadcaa38), 0x00000000, 0xe6db99e5, 11, 0x99d9679d);
    NextC(46, Regs(0x7f2e507b, 0x4c6124f4, 0x31c465ca, 0x99d9679d), 0x00000000, 0x1fa27cf8, 16, 0x8fae6399);
    NextB(47, Regs(0x7f2e507b, 0x4c6124f4, 0x8fae6399, 0x99d9679d), 0x00000000, 0xc4ac5665, 23, 0x7beb9700);
  }

  lemma Steps64()
    ensures Steps(W, 64, IV) == Regs(0x310ade8f, 0xc08226b3, 0xe484b9d8, 0x624d8cb2)
  {
    hide Steps, Uses;
    Table52();
    Table56();
    Table60();
    Table64();
    Steps48();
    NextA(48, Regs(0x7f2e507b, 0x7beb9700, 0x8fae6399, 0x99d9679d), 0x80636261, 0xf4292244, 6, 0x7b201df8);
    NextD(49, Regs(0x7b201df8, 0x7beb9700, 0x8fae6399, 0x99d9679d), 0x00000000, 0x432aff97, 10, 0xf4e8e96e);
    NextC(50, Regs(0x7b201df8, 0x7beb9700, 0x8fae6399, 0xf4e8e96e), 0x00000018, 0xab9423a7, 15, 0xb298cefd);
    NextB(51, Regs(0x7b201df8, 0x7beb9700, 0xb298cefd, 0xf4e8e96e), 0x00000000, 0xfc93a039, 21, 0x8bf025c4);
    NextA(52, Regs(0x7b201df8, 0x8bf025c4, 0xb298cefd, 0xf4e8e96e), 0x00000000, 0x655b59c3, 6, 0x06cc5e8a);
    NextD(53, Regs(0x06cc5e8a, 0x8bf025c4, 0xb298cefd, 0xf4e8e96e), 0x00000000, 0x8f0ccc92, 10, 0x5b0d97aa);
    NextC(54, Regs(0x06cc5e8a, 0x8bf025c4, 0xb298cefd, 0x5b0d97aa), 0x00000000, 0xffeff47d, 15, 0x7d632dd0);
    NextB(55, Regs(0x06cc5e8a, 0x8bf025c4, 0x7d632dd0, 0x5b0d97aa), 0x00000000, 0x85845dd1, 21, 0x3bfa2c27);
    NextA(56, Regs(0x06cc5e8a, 0x3bfa2c27, 0x7d632dd0, 0x5b0d97aa), 0x00000000, 0x6fa87e4f, 6, 0x7f81cc35);
    NextD(57, Regs(0x7f81cc35, 0x3bfa2c27, 0x7d632dd0, 0x5b0d97aa), 0x00000000, 0xfe2ce6e0, 10, 0x094454ab);
    NextC(58, Regs(0x7f81cc35, 0x3bfa2c27, 0x7d632dd0, 0x094454ab), 0x00000000, 0xa3014314, 15, 0x4f9dbe3f);
    NextB(59, Regs(0x7f81cc35, 0x3bfa2c27, 0x4f9dbe3f, 0x094454ab), 0x00000000, 0x4e0811a1, 21, 0x7327d604);
    NextA(60, Regs(0x7f81cc35, 0x7327d604, 0x4f9dbe3f, 0x094454ab), 0x00000000, 0xf7537e82, 6, 0x310ade8f);
    NextD(61, Regs(0x310ade8f, 0x7327d604, 0x4f9dbe3f, 0x094454ab), 0x00000000, 0xbd3af235, 10, 0x624d8cb2);
    NextC(62, Regs(0x310ade8f, 0x7327d604, 0x4f9dbe3f, 0x624d8cb2), 0x00000000, 0x2ad7d2bb, 15, 0xe484b9d8);
    NextB(63, Regs(0x310ade8f, 0x7327d604, 0xe484b9d8, 0x624d8cb2), 0x00000000, 0xeb86d391, 21, 0xc08226b3);
  }

  lemma Table4()
    ensures Uses(0, 0x80636261, 0xd76aa478, 7) && Uses(1, 0x00000000, 0xe8c7b756, 12)
    ensures Uses(2, 0x00000000, 0x242070db, 17) && Uses(3, 0x00000000, 0xc1bdceee, 22)
  {
  }

  lemma Table8()
    ensures Uses(4, 0x00000000, 0xf57c0faf, 7) && Uses(5, 0x00000000, 0x4787c62a, 12)
    ensures Uses(6, 0x00000000, 0xa8304613, 17) && Uses(7, 0x00000000, 0xfd469501, 22)
  {
  }

  lemma Table12()
    ensures Uses(8, 0x00000000, 0x698098d8, 7) && Uses(9, 0x00000000, 0x8b44f7af, 12)
    ensures Uses(10, 0x00000000, 0xffff5bb1, 17) && Uses(11, 0x00000000, 0x895cd7be, 22)
  {
  }

  lemma Table16()
    ensures Uses(12, 0x00000000, 0x6b901122, 7) && Uses(13, 0x00000000, 0xfd987193, 12)
    ensures Uses(14, 0x00000018, 0xa679438e, 17) && Uses(15, 0x00000000, 0x49b40821, 22)
  {
  }

  lemma Table20()
    ensures Uses(16, 0x00000000, 0xf61e2562, 5) && Uses(17, 0x00000000, 0xc040b340, 9)
    ensures Uses(18, 0x00000000, 0x265e5a51, 14) && Uses(19, 0x80636261, 0xe9b6c7aa, 20)
  {
  }

  lemma Table24()
    ensures Uses(20, 0x00000000, 0xd62f105d, 5) && Uses(21, 0x00000000, 0x02441453, 9)
    ensures Uses(22, 0x00000000, 0xd8a1e681, 14) && Uses(23, 0x00000000, 0xe7d3fbc8, 20)
  {
  }

  lemma Table28()
    ensures Uses(24, 0x00000000, 0x21e1cde6, 5) && Uses(25, 0x00000018, 0xc33707d6, 9)
    ensures Uses(26, 0x00000000, 0xf4d50d87, 14) && Uses(27, 0x00000000, 0x455a14ed, 20)
  {
  }

  lemma Table32()
    ensures Uses(28, 0x00000000, 0xa9e3e905, 5) && Uses(29, 0x00000000, 0xfcefa3f8, 9)
    ensures Uses(30, 0x00000000, 0x676f02d9, 14) && Uses(31, 0x00000000, 0x8d2a4c8a, 20)
  {
  }

  lemma Table36()
    ensures Uses(32, 0x00000000, 0xfffa3942, 4) && Uses(33, 0x00000000, 0x8771f681, 11)
    ensures Uses(34, 0x00000000, 0x6d9d6122, 16) && Uses(35, 0x00000018, 0xfde5380c, 23)
  {
  }

  lemma Table40()
    ensures Uses(36, 0x00000000, 0xa4beea44, 4) && Uses(37, 0x00000000, 0x4bdecfa9, 11)
    ensures Uses(38, 0x00000000, 0xf6bb4b60, 16) && Uses(39, 0x00000000, 0xbebfbc70, 23)
  {
  }

  lemma Table44()
    ensures Uses(40, 0x00000000, 0x289b7ec6, 4) && Uses(41, 0x80636261, 0xeaa127fa, 11)
    ensures Uses(42, 0x00000000, 0xd4ef3085, 16) && Uses(43, 0x00000000, 0x04881d05, 23)
  {
  }

  lemma Table48()
    ensures Uses(44, 0x00000000, 0xd9d4d039, 4) && Uses(45, 0x00000000, 0xe6db99e5, 11)
    ensures Uses(46, 0x00000000, 0x1fa27cf8, 16) && Uses(47, 0x00000000, 0xc4ac5665, 23)
  {
  }

  lemma Table52()
    ensures Uses(48, 0x80636261, 0xf4292244, 6) && Uses(49, 0x00000000, 0x432aff97, 10)
    ensures Uses(50, 0x00000018, 0xab9423a7, 15) && Uses(51, 0x00000000, 0xfc93a039, 21)
  {
  }

  lemma Table56()
    ensures Uses(52, 0x00000000, 0x655b59c3, 6) && Uses(53, 0x00000000, 0x8f0ccc92, 10)
    ensures Uses(54, 0x00000000, 0xffeff47d, 15) && Uses(55, 0x00000000, 0x85845dd1, 21)
  {
  }

  lemma Table60()
    ensures Uses(56, 0x00000000, 0x6fa87e4f, 6) && Uses(57, 0x00000000, 0xfe2ce6e0, 10)
    ensures Uses(58, 0x00000000, 0xa3014314, 15) && Uses(59, 0x00000000, 0x4e0811a1, 21)
  {
  }

  lemma Table64()
    ensures Uses(60, 0x00000000, 0xf7537e82, 6) && Uses(61, 0x00000000, 0xbd3af235, 10)
    ensures Uses(62, 0x00000000, 0x2ad7d2bb, 15) && Uses(63, 0x00000000, 0xeb86d391, 21)
  {
  }

  lemma NoSteps()
    ensures Steps(W, 0, IV) == Regs(0x67452301, 0xefcdab89, 0x98badcfe, 0x10325476)
  {
  }

  // ----- the digest

  const ABC: seq<byte> := [97, 98, 99]

  lemma PaddedAbc()
    ensures Padded(ABC) == ABC + [0x80] + Zeros(52) + [24, 0, 0, 0, 0, 0, 0, 0]
  {
    assert Enc64(24) == [24, 0, 0, 0, 0, 0, 0, 0];
  }

  lemma FirstNumbers()
    ensures LE32([97, 98, 99, 0x80]) == 0x80636261 && LE32([24, 0, 0, 0]) == 24 && LE32([0, 0, 0, 0]) == 0
  {
    assert [97, 98, 99, 0x80][..2] == [97, 98] && [97, 98, 99, 0x80][2..] == [99, 0x80];
  }

  lemma Numbers()
    ensures WordOf(0x80636261) == 0x80636261 && WordOf(24) == 24 && WordOf(0) == 0
  {
  }

  lemma FirstWords()
    ensures Word([97, 98, 99, 0x80]) == 0x80636261 && Word([24, 0, 0, 0]) == 24 && Word([0, 0, 0, 0]) == 0
  {
    hide LE32, WordOf;
    FirstNumbers();
    Numbers();
  }

  lemma WordsAbc()
    ensures |Padded(ABC)| == 64 && Words(Padded(ABC)) == W
  {
    hide Word, Padded, Zeros;
    PaddedAbc();
    FirstWords();
    var p := ABC + [0x80] + Zeros(52) + [24, 0, 0, 0, 0, 0, 0, 0];
    NoBytes(52);
    assert p[0..4] == [97, 98, 99, 0x80] && p[56..60] == [24, 0, 0, 0];
    forall g | 0 < g < 16 && g != 14
      ensures Word(p[4 * g..4 * g + 4]) == 0
    {
      assert p[4 * g..4 * g + 4] == [0, 0, 0, 0];
    }
    SixteenWords(p);
  }

  lemma NoBytes(n: nat)
    ensures forall k | 0 <= k < n :: Zeros(n)[k] == 0
  {
  }

  lemma SixteenWords(p: seq<byte>)
    requires |p| == 64 && Word(p[0..4]) == 0x80636261 && Word(p[56..60]) == 24
    requires forall g | 0 < g < 16 && g != 14 :: Word(p[4 * g..4 * g + 4]) == 0
    ensures Words(p) == W
  {
    hide Word;
  }

  lemma CompressAbc()
    ensures |Padded(ABC)| == 64 && Compress(IV, Padded(ABC)) == Regs(0x98500190, 0xb04fd23c, 0x7d3f96d6, 0x727fe128)
  {
    hide Steps, Words, Padded;
    WordsAbc();
    Steps64();
  }

  lemma EncodedAbc()
    ensures EncodeWord(0x98500190) == [0x90, 0x01, 0x50, 0x98] && EncodeWord(0xb04fd23c) == [0x3c, 0xd2, 0x4f, 0xb0]
    ensures EncodeWord(0x7d3f96d6) == [0xd6, 0x96, 0x3f, 0x7d] && EncodeWord(0x727fe128) == [0x28, 0xe1, 0x7f, 0x72]
  {
  }

  /** "abc" gives 900150983cd24fb0d6963f7d28e17f72. */
  lemma DigestAbc()
    ensures Digest([97, 98, 99]) == [0x90, 0x01, 0x50, 0x98, 0x3c, 0xd2, 0x4f, 0xb0, 0xd6, 0x96, 0x3f, 0x7d, 0x28, 0xe1, 0x7f, 0x72]
  {
    hide Compress, Padded, EncodeWord;
    CompressAbc();
    EncodedAbc();
    var p := Padded(ABC);
    assert p[64 * 0..64 * 1] == p;
    assert Fold(p, 0) == IV && Fold(p, 1) == Compress(IV, p);
  }
}
