/** The streaming MD5 implementation of the test programs, on a little-endian host. */
module Md5 {
  import opened Bytes
  import opened Md5Reference

  const WRAP := 0x1_0000_0000_0000_0000
  const BUFSIZE := 1024 * 1024

  /** The per-round shift amounts. */
  const R: seq<seq<Distance>> := [
    [7, 12, 17, 22, 7, 12, 17, 22, 7, 12, 17, 22, 7, 12, 17, 22],
    [5, 9, 14, 20, 5, 9, 14, 20, 5, 9, 14, 20, 5, 9, 14, 20],
    [4, 11, 16, 23, 4, 11, 16, 23, 4, 11, 16, 23, 4, 11, 16, 23],
    [6, 10, 15, 21, 6, 10, 15, 21, 6, 10, 15, 21, 6, 10, 15, 21]]

  function ROf(j: nat): Distance
    requires j < 64
  {
    R[j / 16][j % 16]
  }

  function LeftRotate(x: bv32, c: Distance): bv32 {
    (x << c) | (x >> (32 - c))
  }

  /** The whole blocks of `m` are folded into `state`, the rest waits in `buffer`. */
  ghost predicate Holds(m: seq<byte>, count: nat, state: Regs, buffer: seq<byte>) {
    && count == |m| % WRAP && |buffer| == 64
    && state == Fold(m, |m| / 64)
    && buffer[..|m| % 64] == m[64 * (|m| / 64)..]
  }

  class MdContext {
    const h: array<bv32>
    const digest: array<byte>
    const buffer: array<byte>
    var count: nat
    ghost var absorbed: seq<byte>

    ghost predicate Shape() {
      h.Length == 4 && buffer.Length == 64 && digest.Length == 16 && buffer != digest
    }

    ghost function State(): Regs
      requires Shape()
      reads h
    {
      Regs(h[0], h[1], h[2], h[3])
    }

    ghost predicate Valid()
      reads this, h, buffer
    {
      Shape() && Holds(absorbed, count, State(), buffer[..])
    }

    constructor ()
      ensures Shape() && fresh(h) && fresh(buffer) && fresh(digest)
    {
      h := new bv32[4];
      digest := new byte[16];
      buffer := new byte[64];
    }
  }

  // ----- the transform

  /** What the driver's four variables hold before step `j` when the named registers hold `r`. */
  function Rotated(r: Regs, j: nat): Regs {
    if j % 4 == 0 then r
    else if j % 4 == 1 then Regs(r.d, r.a, r.b, r.c)
    else if j % 4 == 2 then Regs(r.c, r.d, r.a, r.b)
    else Regs(r.b, r.c, r.d, r.a)
  }

  lemma RotatingStep(words: seq<bv32>, r: Regs, j: nat)
    requires |words| == 16 && j < 64
    ensures var v := Rotated(r, j);
            Rotated(Step(words, j, r), j + 1) == Regs(v.d, Mix(words, j, v.a, v.b, v.c, v.d), v.b, v.c)
  {
    hide Mix;
    if j % 4 == 0 {
    } else if j % 4 == 1 {
    } else if j % 4 == 2 {
    } else {
    }
  }

  /** The two shifts of the macro are a rotation, at each distance that is used. */
  lemma Rotations(x: bv32)
    ensures LeftRotate(x, 4) == Rotate(x, 4) && LeftRotate(x, 5) == Rotate(x, 5)
    ensures LeftRotate(x, 6) == Rotate(x, 6) && LeftRotate(x, 7) == Rotate(x, 7)
    ensures LeftRotate(x, 9) == Rotate(x, 9) && LeftRotate(x, 10) == Rotate(x, 10)
    ensures LeftRotate(x, 11) == Rotate(x, 11) && LeftRotate(x, 12) == Rotate(x, 12)
    ensures LeftRotate(x, 14) == Rotate(x, 14) && LeftRotate(x, 15) == Rotate(x, 15)
    ensures LeftRotate(x, 16) == Rotate(x, 16) && LeftRotate(x, 17) == Rotate(x, 17)
    ensures LeftRotate(x, 20) == Rotate(x, 20) && LeftRotate(x, 21) == Rotate(x, 21)
    ensures LeftRotate(x, 22) == Rotate(x, 22) && LeftRotate(x, 23) == Rotate(x, 23)
  {
  }

  lemma LeftRotateIs(x: bv32, j: nat)
    requires j < 64
    ensures LeftRotate(x, ROf(j)) == Rotate(x, ROf(j))
  {
    hide LeftRotate, Rotate, ROf;
    Distances(j);
    Rotations(x);
  }

  lemma Distances(j: nat)
    requires j < 64
    ensures ROf(j) in [4, 5, 6, 7, 9, 10, 11, 12, 14, 15, 16, 17, 20, 21, 22, 23]
  {
  }

  // The round functions as the loops compute them.

  function DriverF(b: bv32, c: bv32, d: bv32): bv32 {
    ((c ^ d) & b) ^ d
  }

  function DriverG(b: bv32, c: bv32, d: bv32): bv32 {
    ((b ^ c) & d) ^ c
  }

  function DriverH(b: bv32, c: bv32, d: bv32): bv32 {
    b ^ c ^ d
  }

  function DriverI(b: bv32, c: bv32, d: bv32): bv32 {
    c ^ (b | !d)
  }

  function DriverSum(a: bv32, f: bv32, k: bv32, buf: bv32): bv32 {
    a + f + k + buf
  }

  lemma FIdentity(b: bv32, c: bv32, d: bv32)
    ensures ((c ^ d) & b) ^ d == (b & c) | (!b & d)
  {
  }

  lemma GIdentity(b: bv32, c: bv32, d: bv32)
    ensures ((b ^ c) & d) ^ c == (b & d) | (c & !d)
  {
  }

  lemma FForm(b: bv32, c: bv32, d: bv32)
    ensures DriverF(b, c, d) == F(b, c, d)
  {
    FIdentity(b, c, d);
  }

  lemma GForm(b: bv32, c: bv32, d: bv32)
    ensures DriverG(b, c, d) == G(b, c, d)
  {
    GIdentity(b, c, d);
  }

  lemma HForm(b: bv32, c: bv32, d: bv32)
    ensures DriverH(b, c, d) == H(b, c, d) && DriverI(b, c, d) == I(b, c, d)
  {
  }

  lemma Schedule1(j: nat)
    requires j < 16
    ensures OpOf(j) == Op(j, ROf(j))
  {
  }

  lemma Schedule2(j: nat)
    requires 16 <= j < 32
    ensures OpOf(j) == Op((5 * j + 1) % 16, ROf(j))
  {
  }

  lemma Schedule3(j: nat)
    requires 32 <= j < 48
    ensures OpOf(j) == Op((3 * j + 5) % 16, ROf(j))
  {
  }

  lemma Schedule4(j: nat)
    requires 48 <= j < 64
    ensures OpOf(j) == Op(7 * j % 16, ROf(j))
  {
  }

  /** One pass of a transform loop, for the round functions and word indices of the driver. */
  lemma LoopStep(words: seq<bv32>, r: Regs, j: nat, f: bv32, g: nat)
    requires |words| == 16 && j < 64 && g < 16
    requires var v := Rotated(Steps(words, j, r), j); f == Mixed(j, v.b, v.c, v.d)
    requires OpOf(j) == Op(g, ROf(j))
    ensures var v := Rotated(Steps(words, j, r), j);
            Rotated(Steps(words, j + 1, r), j + 1) ==
            Regs(v.d, Add(v.b, LeftRotate(DriverSum(v.a, f, TOf(j), words[g]), ROf(j))), v.b, v.c)
  {
    hide Mixed, LeftRotate, Rotate, TOf, ROf, OpOf, Step, Rotated, Add, Sum, DriverSum;
    var v := Rotated(Steps(words, j, r), j);
    RotatingStep(words, Steps(words, j, r), j);
    SumForm(v.a, f, TOf(j), words[g]);
    LeftRotateIs(DriverSum(v.a, f, TOf(j), words[g]), j);
  }

  lemma SumOrder(a: bv32, f: bv32, x: bv32, t: bv32)
    ensures a + f + t + x == a + f + x + t
  {
  }

  lemma SumForm(a: bv32, f: bv32, t: bv32, x: bv32)
    ensures DriverSum(a, f, t, x) == Sum(a, f, x, t)
  {
    SumOrder(a, f, x, t);
  }

  /** `memcpy(&buf, &context->buffer[g*4], sizeof(uint32_t))` on a little-endian host. */
  method LoadWord(context: MdContext, g: nat) returns (buf: bv32)
    requires context.Shape() && g < 16
    ensures buf == Words(context.buffer[..])[g]
  {
    var bytes := context.buffer[4 * g..4 * g + 4];
    buf := Word(bytes);
    assert bytes == context.buffer[..][4 * g..4 * g + 4];
  }

  method Transform(context: MdContext)
    requires context.Shape()
    modifies context.h
    ensures context.State() == Compress(old(context.State()), context.buffer[..])
  {
    hide Rotated, Steps, Mixed, LeftRotate, TOf, ROf, OpOf, Words, DriverF, DriverG, DriverH, DriverI, DriverSum, Add;
    ghost var r := context.State();
    ghost var words := Words(context.buffer[..]);
    var a, b, c, d := context.h[0], context.h[1], context.h[2], context.h[3];
    Begin(words, r);
    for j := 0 to 16
      invariant context.State() == r && Regs(a, b, c, d) == Rotated(Steps(words, j, r), j)
    {
      var f := DriverF(b, c, d);
      Round1(j, b, c, d);
      LoopStep(words, r, j, f, j);
      var temp := d;
      d := c;
      c := b;
      var buf := LoadWord(context, j);
      var x := DriverSum(a, f, TOf(j), buf);
      b := Add(b, LeftRotate(x, ROf(j)));
      a := temp;
    }
    for j := 16 to 32
      invariant context.State() == r && Regs(a, b, c, d) == Rotated(Steps(words, j, r), j)
    {
      var f := DriverG(b, c, d);
      var g := (5 * j + 1) % 16;
      Round2(j, b, c, d);
      LoopStep(words, r, j, f, g);
      var temp := d;
      d := c;
      c := b;
      var buf := LoadWord(context, g);
      var x := DriverSum(a, f, TOf(j), buf);
      b := Add(b, LeftRotate(x, ROf(j)));
      a := temp;
    }
    for j := 32 to 48
      invariant context.State() == r && Regs(a, b, c, d) == Rotated(Steps(words, j, r), j)
    {
      var f := DriverH(b, c, d);
      var g := (3 * j + 5) % 16;
      Round3(j, b, c, d);
      LoopStep(words, r, j, f, g);
      var temp := d;
      d := c;
      c := b;
      var buf := LoadWord(context, g);
      var x := DriverSum(a, f, TOf(j), buf);
      b := Add(b, LeftRotate(x, ROf(j)));
      a := temp;
    }
    for j := 48 to 64
      invariant context.State() == r && Regs(a, b, c, d) == Rotated(Steps(words, j, r), j)
    {
      var f := DriverI(b, c, d);
      var g := 7 * j % 16;
      Round4(j, b, c, d);
      LoopStep(words, r, j, f, g);
      var temp := d;
      d := c;
      c := b;
      var buf := LoadWord(context, g);
      var x := DriverSum(a, f, TOf(j), buf);
      b := Add(b, LeftRotate(x, ROf(j)));
      a := temp;
    }
    End(words, r);
    context.h[0] := Add(context.h[0], a);
    context.h[1] := Add(context.h[1], b);
    context.h[2] := Add(context.h[2], c);
    context.h[3] := Add(context.h[3], d);
    assert context.buffer[..] == old(context.buffer[..]);
  }

  lemma Begin(words: seq<bv32>, r: Regs)
    requires |words| == 16
    ensures Rotated(Steps(words, 0, r), 0) == r
  {
  }

  lemma End(words: seq<bv32>, r: Regs)
    requires |words| == 16
    ensures Rotated(Steps(words, 64, r), 64) == Steps(words, 64, r)
  {
  }

  lemma Round1(j: nat, b: bv32, c: bv32, d: bv32)
    requires j < 16
    ensures DriverF(b, c, d) == Mixed(j, b, c, d) && OpOf(j) == Op(j, ROf(j))
  {
    hide F, DriverF, OpOf, ROf;
    FForm(b, c, d);
    Schedule1(j);
  }

  lemma Round2(j: nat, b: bv32, c: bv32, d: bv32)
    requires 16 <= j < 32
    ensures DriverG(b, c, d) == Mixed(j, b, c, d) && OpOf(j) == Op((5 * j + 1) % 16, ROf(j))
  {
    hide G, DriverG, OpOf, ROf;
    GForm(b, c, d);
    Schedule2(j);
  }

  lemma Round3(j: nat, b: bv32, c: bv32, d: bv32)
    requires 32 <= j < 48
    ensures DriverH(b, c, d) == Mixed(j, b, c, d) && OpOf(j) == Op((3 * j + 5) % 16, ROf(j))
  {
    hide F, G, H, I, DriverH, OpOf, ROf;
    HForm(b, c, d);
    Schedule3(j);
  }

  lemma Round4(j: nat, b: bv32, c: bv32, d: bv32)
    requires 48 <= j < 64
    ensures DriverI(b, c, d) == Mixed(j, b, c, d) && OpOf(j) == Op(7 * j % 16, ROf(j))
  {
    hide F, G, H, I, DriverI, OpOf, ROf;
    HForm(b, c, d);
    Schedule4(j);
  }

  // ----- streaming

  /** Only the blocks that are folded matter. */
  lemma {:induction false} FoldSame(m: seq<byte>, more: seq<byte>, k: nat)
    requires 64 * k <= |m|
    ensures Fold(m + more, k) == Fold(m, k)
  {
    hide Compress;
    if k > 0 {
      FoldSame(m, more, k - 1);
      assert (m + more)[64 * (k - 1)..64 * k] == m[64 * (k - 1)..64 * k];
    }
  }

  /** `memcpy(&context->buffer[at], data, |data|)`. */
  method CopyIn(context: MdContext, at: nat, data: seq<byte>)
    requires context.Shape() && at + |data| <= 64
    modifies context.buffer
    ensures context.buffer[..] == Patch(old(context.buffer[..]), at, data)
  {
    forall i | 0 <= i < |data| {
      context.buffer[at + i] := data[i];
    }
    assert context.buffer[..] == Patch(old(context.buffer[..]), at, data);
  }

  method Start(context: MdContext)
    requires context.Shape()
    modifies context, context.h, context.buffer
    ensures context.Valid() && context.absorbed == []
  {
    context.h[0], context.h[1], context.h[2], context.h[3] := 0x67452301, 0xefcdab89, 0x98badcfe, 0x10325476;
    context.count := 0;
    CopyIn(context, 0, Zeros(64));
    context.absorbed := [];
  }

  /** However a message is split, absorbing the parts is absorbing the message. */
  method Update(context: MdContext, chunk: seq<byte>)
    requires context.Valid() && |chunk| + 63 < WRAP
    modifies context, context.h, context.buffer
    ensures context.Valid() && context.absorbed == old(context.absorbed) + chunk
  {
    hide Fold, Compress, Holds, Patch;
    ghost var m, was := context.absorbed, context.buffer[..];
    ghost var k := |m| / 64;
    Waiting(m, chunk, context.count, context.State(), was);
    var buflen := context.count % 64;
    context.count := (context.count + |chunk|) % WRAP;
    context.absorbed := m + chunk;
    if (buflen + |chunk|) % WRAP < 64 {
      Fits(m, chunk, old(context.count), context.State(), was);
      CopyIn(context, buflen, chunk);
      return;
    }
    Completes(m, chunk, old(context.count), context.State(), was);
    CopyIn(context, buflen, chunk[..64 - buflen]);
    Transform(context);
    k := k + 1;
    var at := 64 - buflen;
    while |chunk| - at >= 64
      invariant at <= |chunk| && 64 * k == |m| + at
      invariant context.State() == Fold(m + chunk, k)
      modifies context.h, context.buffer
    {
      CopyIn(context, 0, chunk[at..at + 64]);
      assert context.buffer[..] == chunk[at..at + 64];
      Transform(context);
      NextBlock(m, chunk, at, k, context.buffer[..]);
      k := k + 1;
      at := at + 64;
    }
    LastPart(m, chunk, at, k, context.count, context.buffer[..]);
    CopyIn(context, 0, chunk[at..]);
  }

  /** The chunk fits into the buffer. */
  lemma Fits(m: seq<byte>, chunk: seq<byte>, count: nat, state: Regs, buffer: seq<byte>)
    requires Holds(m, count, state, buffer) && |m| % 64 + |chunk| < 64
    ensures Holds(m + chunk, (count + |chunk|) % WRAP, state, Patch(buffer, |m| % 64, chunk))
  {
    hide Fold;
    Wrapped(|m|, |chunk|);
    FoldSame(m, chunk, |m| / 64);
    Short(m, chunk, buffer);
  }

  /** The chunk completes the block in the buffer. */
  lemma Completes(m: seq<byte>, chunk: seq<byte>, count: nat, state: Regs, buffer: seq<byte>)
    requires Holds(m, count, state, buffer) && |m| % 64 + |chunk| >= 64
    ensures |m| % 64 == |m| - 64 * (|m| / 64) && |buffer| == 64
    ensures 64 * (|m| / 64 + 1) <= |m + chunk|
    ensures (count + |chunk|) % WRAP == |m + chunk| % WRAP
    ensures Compress(state, Patch(buffer, |m| % 64, chunk[..64 - |m| % 64])) == Fold(m + chunk, |m| / 64 + 1)
  {
    hide Fold, Compress;
    Wrapped(|m|, |chunk|);
    FoldSame(m, chunk, |m| / 64);
    FirstBlock(m, chunk, |m| / 64, buffer);
  }

  lemma Wrapped(x: nat, y: nat)
    ensures (x % WRAP + y) % WRAP == (x + y) % WRAP && x % WRAP % 64 == x % 64
    ensures y + 63 < WRAP ==> (x % 64 + y) % WRAP == x % 64 + y
  {
  }

  lemma Waiting(m: seq<byte>, chunk: seq<byte>, count: nat, state: Regs, buffer: seq<byte>)
    requires Holds(m, count, state, buffer) && |chunk| + 63 < WRAP
    ensures count % 64 == |m| % 64 && (count % 64 + |chunk|) % WRAP == |m| % 64 + |chunk|
  {
    Wrapped(|m|, |chunk|);
  }

  lemma Short(m: seq<byte>, chunk: seq<byte>, buffer: seq<byte>)
    requires |m| % 64 + |chunk| < 64 && |buffer| == 64
    requires buffer[..|m| % 64] == m[64 * (|m| / 64)..]
    ensures |m + chunk| / 64 == |m| / 64
    ensures Patch(buffer, |m| % 64, chunk)[..|m + chunk| % 64] == (m + chunk)[64 * (|m| / 64)..]
  {
  }

  lemma FirstBlock(m: seq<byte>, chunk: seq<byte>, k: nat, buffer: seq<byte>)
    requires |m| % 64 + |chunk| >= 64 && |buffer| == 64 && k == |m| / 64
    requires buffer[..|m| % 64] == m[64 * k..]
    ensures 64 * (k + 1) <= |m + chunk|
    ensures Fold(m + chunk, k + 1) == Compress(Fold(m + chunk, k), Patch(buffer, |m| % 64, chunk[..64 - |m| % 64]))
  {
    hide Compress;
    assert (m + chunk)[64 * k..64 * (k + 1)] == Patch(buffer, |m| % 64, chunk[..64 - |m| % 64]);
  }

  lemma NextBlock(m: seq<byte>, chunk: seq<byte>, at: nat, k: nat, buffer: seq<byte>)
    requires at + 64 <= |chunk| && 64 * k == |m| + at && |buffer| == 64
    requires buffer == chunk[at..at + 64]
    ensures Fold(m + chunk, k + 1) == Compress(Fold(m + chunk, k), buffer)
  {
    hide Compress;
    assert (m + chunk)[64 * k..64 * (k + 1)] == chunk[at..at + 64];
  }

  lemma LastPart(m: seq<byte>, chunk: seq<byte>, at: nat, k: nat, count: nat, buffer: seq<byte>)
    requires at <= |chunk| < at + 64 && 64 * k == |m| + at && |buffer| == 64 && count == |m + chunk| % WRAP
    ensures Holds(m + chunk, count, Fold(m + chunk, k), Patch(buffer, 0, chunk[at..]))
  {
    hide Fold;
    assert |m + chunk| / 64 == k;
    assert chunk[at..] == (m + chunk)[64 * k..];
  }

  // ----- the end of a message

  /** The buffer after the 1 bit and the zeros behind it. */
  function Marked(buffer: seq<byte>, l: nat): (b: seq<byte>)
    requires |buffer| == 64 && l < 64
    ensures |b| == 64
  {
    Patch(Patch(buffer, l, [0x80]), l + 1, Zeros(63 - l))
  }

  lemma Marks(buffer: seq<byte>, l: nat)
    requires |buffer| == 64 && l < 64
    ensures Marked(buffer, l) == buffer[..l] + [0x80] + Zeros(63 - l)
  {
  }

  lemma HighWord(b: nat)
    ensures b % WRAP % 0x1_0000_0000 == b % 0x1_0000_0000
    ensures b % WRAP / 0x1_0000_0000 == b / 0x1_0000_0000 % 0x1_0000_0000
  {
  }

  lemma EightTimes(x: nat)
    ensures x % WRAP * 8 % WRAP == 8 * x % WRAP
  {
  }

  lemma BitCount(x: nat)
    ensures Enc64(x % WRAP * 8 % WRAP) == Enc64(8 * x)
  {
    hide Enc32;
    EightTimes(x);
    HighWord(8 * x);
  }

  /** Padding and length fit into the last block. */
  lemma OneBlock(m: seq<byte>, buffer: seq<byte>)
    requires |buffer| == 64 && |m| % 64 < 56 && buffer[..|m| % 64] == m[64 * (|m| / 64)..]
    ensures Fold(Padded(m), |Padded(m)| / 64) ==
            Compress(Fold(m, |m| / 64), Patch(Marked(buffer, |m| % 64), 56, Enc64(8 * |m|)))
  {
    hide Enc64, Zeros, Padded, Patch, Marked, Compress, Fold;
    var k, l := |m| / 64, |m| % 64;
    var rest := [0x80] + Zeros(55 - l) + Enc64(8 * |m|);
    PaddingIs(m);
    FoldSame(m, rest, k);
    Marks(buffer, l);
    LengthPatched(buffer[..l], Zeros(63 - l), Zeros(55 - l), Enc64(8 * |m|));
    var block := buffer[..l] + [0x80] + Zeros(55 - l) + Enc64(8 * |m|);
    assert m[64 * k..] + rest == block;
    assert |m + rest| == 64 * (k + 1);
    WholeBlock(m, rest, k, block);
  }

  lemma WholeBlock(m: seq<byte>, rest: seq<byte>, k: nat, block: seq<byte>)
    requires 64 * k <= |m| && |block| == 64 && m[64 * k..] + rest == block
    ensures Fold(m + rest, k + 1) == Compress(Fold(m + rest, k), block)
  {
    hide Compress, Fold;
    assert (m[64 * k..] + rest)[64..] == [];
    Block(m, rest, k, block);
  }

  lemma Block(m: seq<byte>, rest: seq<byte>, k: nat, block: seq<byte>)
    requires 64 * k <= |m| && |block| == 64 <= |m| + |rest| - 64 * k
    requires m[64 * k..] + rest == block + (m[64 * k..] + rest)[64..]
    ensures (m + rest)[64 * k..64 * (k + 1)] == block
    ensures Fold(m + rest, k + 1) == Compress(Fold(m + rest, k), block)
  {
    hide Compress;
    var t := m[64 * k..] + rest;
    assert t[..64] == block;
    assert (m + rest)[64 * k..64 * (k + 1)] == t[..64];
  }

  lemma LengthPatched(head: seq<byte>, zeros: seq<byte>, fewer: seq<byte>, length: seq<byte>)
    requires |head| < 56 && zeros == Zeros(63 - |head|) && fewer == Zeros(55 - |head|) && |length| == 8
    ensures Patch(head + [0x80] + zeros, 56, length) == head + [0x80] + fewer + length
  {
  }

  /** They do not: the length goes into a block of its own. */
  lemma TwoBlocks(m: seq<byte>, buffer: seq<byte>)
    requires |buffer| == 64 && |m| % 64 >= 56 && buffer[..|m| % 64] == m[64 * (|m| / 64)..]
    ensures var first := Marked(buffer, |m| % 64);
            Fold(Padded(m), |Padded(m)| / 64) ==
            Compress(Compress(Fold(m, |m| / 64), first), Patch(Patch(first, 0, Zeros(64)), 56, Enc64(8 * |m|)))
  {
    hide Enc64, Zeros, Padded, Patch, Marked, Compress, Fold;
    var k, l := |m| / 64, |m| % 64;
    var rest := [0x80] + Zeros(119 - l) + Enc64(8 * |m|);
    PaddingIs(m);
    FoldSame(m, rest, k);
    Marks(buffer, l);
    ZerosSplit(63 - l, 56);
    Block(m, rest, k, Marked(buffer, l));
    Block(m + rest, [], k + 1, Zeros(56) + Enc64(8 * |m|));
    assert m + rest + [] == m + rest;
    AllZeros(Marked(buffer, l), Enc64(8 * |m|));
  }

  lemma ZerosSplit(a: nat, b: nat)
    ensures Zeros(a + b) == Zeros(a) + Zeros(b)
  {
  }

  lemma AllZeros(buffer: seq<byte>, length: seq<byte>)
    requires |buffer| == 64 && |length| == 8
    ensures Patch(Patch(buffer, 0, Zeros(64)), 56, length) == Zeros(56) + length
  {
  }

  lemma PaddingIs(m: seq<byte>)
    ensures var l := |m| % 64;
            Padded(m) == m + ([0x80] + Zeros(if l < 56 then 55 - l else 119 - l) + Enc64(8 * |m|))
  {
    hide Enc64;
    assert (55 - |m|) % 64 == if |m| % 64 < 56 then 55 - |m| % 64 else 119 - |m| % 64;
  }

  /** The digest is that of everything absorbed since `Start`. */
  method Finish(context: MdContext)
    requires context.Valid()
    modifies context, context.h, context.buffer, context.digest
    ensures context.digest[..] == Digest(old(context.absorbed))
  {
    hide Fold, Compress, Padded, Enc64, Zeros, EncodeRegs, Patch;
    ghost var m, was := context.absorbed, context.buffer[..];
    var buflen := context.count % 64;
    Waiting(m, [], context.count, context.State(), was);
    CopyIn(context, buflen, [0x80]);
    buflen := buflen + 1;
    CopyIn(context, buflen, Zeros(64 - buflen));
    if buflen > 56 {
      TwoBlocks(m, was);
      Transform(context);
      CopyIn(context, 0, Zeros(64));
    } else {
      OneBlock(m, was);
    }
    var bitcount := context.count * 8 % WRAP;
    BitCount(|m|);
    CopyIn(context, 56, Enc64(bitcount));
    Transform(context);
    var bytes := EncodeRegs(Regs(context.h[0], context.h[1], context.h[2], context.h[3]));
    forall i | 0 <= i < 16 {
      context.digest[i] := bytes[i];
    }
  }

  // ----- whole messages

  function Concat(chunks: seq<seq<byte>>): seq<byte> {
    if chunks == [] then [] else Concat(chunks[..|chunks| - 1]) + chunks[|chunks| - 1]
  }

  /** Any split of a message into chunks gives the digest of the message. */
  method HashChunks(chunks: seq<seq<byte>>) returns (hash: seq<byte>)
    requires forall c | c in chunks :: |c| + 63 < WRAP
    ensures hash == Digest(Concat(chunks))
  {
    hide Digest, Holds, Fold, MdContext.State;
    var context := new MdContext();
    Start(context);
    var i := 0;
    while i < |chunks|
      invariant i <= |chunks| && context.Valid() && context.absorbed == Concat(chunks[..i])
      invariant fresh(context) && fresh(context.h) && fresh(context.buffer) && fresh(context.digest)
    {
      Update(context, chunks[i]);
      assert chunks[..i + 1][..i] == chunks[..i];
      i := i + 1;
    }
    assert chunks[..i] == chunks;
    Finish(context);
    hash := context.digest[..];
  }

  /** The digest of a buffer in memory, one megabyte at a time. */
  method Md5Memory(mem: seq<byte>) returns (hash: seq<byte>)
    requires |mem| < WRAP
    ensures hash == Digest(mem)
  {
    hide Digest, Holds, Fold, MdContext.State;
    var context := new MdContext();
    Start(context);
    var len, offs := |mem|, 0;
    while len > BUFSIZE
      invariant 0 <= offs <= |mem| == offs + len && context.Valid() && context.absorbed == mem[..offs]
      invariant fresh(context) && fresh(context.h) && fresh(context.buffer) && fresh(context.digest)
    {
      Update(context, mem[offs..offs + BUFSIZE]);
      assert mem[..offs] + mem[offs..offs + BUFSIZE] == mem[..offs + BUFSIZE];
      len := len - BUFSIZE;
      offs := offs + BUFSIZE;
    }
    Update(context, mem[offs..offs + len]);
    assert mem[..offs] + mem[offs..offs + len] == mem;
    Finish(context);
    hash := context.digest[..];
  }

  /** The digest of an open file; `fread` returns less than was asked for only at the end. */
  method Md5File(file: seq<byte>) returns (hash: seq<byte>)
    ensures hash == Digest(file)
  {
    hide Digest, Holds, Fold, MdContext.State;
    var context := new MdContext();
    Start(context);
    var at := 0;
    var buffer := Fread(file, at);
    while |buffer| == BUFSIZE
      invariant 0 <= at <= at + |buffer| <= |file| && buffer == file[at..at + |buffer|]
      invariant |buffer| == if |file| - at < BUFSIZE then |file| - at else BUFSIZE
      invariant context.Valid() && context.absorbed == file[..at]
      invariant fresh(context) && fresh(context.h) && fresh(context.buffer) && fresh(context.digest)
      decreases |file| - at
    {
      Update(context, buffer);
      assert file[..at] + buffer == file[..at + BUFSIZE];
      at := at + BUFSIZE;
      buffer := Fread(file, at);
    }
    Update(context, buffer);
    assert file[..at] + buffer == file;
    Finish(context);
    hash := context.digest[..];
  }

  function Fread(file: seq<byte>, at: nat): (buffer: seq<byte>)
    requires at <= |file|
    ensures |buffer| == if |file| - at < BUFSIZE then |file| - at else BUFSIZE
    ensures buffer == file[at..at + |buffer|]
  {
    if |file| - at < BUFSIZE then file[at..] else file[at..at + BUFSIZE]
  }
}
