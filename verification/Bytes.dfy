/** Little-endian fields and the bits of a bitmap byte. */
module Bytes {
  import opened Powers

  newtype byte = x: int | 0 <= x < 256

  function LE16(s: seq<byte>): (r: nat)
    requires |s| == 2
    ensures r < 0x1_0000
  {
    s[0] as nat + 0x100 * (s[1] as nat)
  }

  function LE32(s: seq<byte>): (r: nat)
    requires |s| == 4
    ensures r < 0x1_0000_0000
  {
    LE16(s[..2]) + 0x1_0000 * LE16(s[2..])
  }

  function Enc16(x: nat): (s: seq<byte>)
    ensures |s| == 2
  {
    [(x % 0x100) as byte, (x / 0x100 % 0x100) as byte]
  }

  function Enc32(x: nat): (s: seq<byte>)
    ensures |s| == 4
  {
    Enc16(x % 0x1_0000) + Enc16(x / 0x1_0000)
  }

  lemma Enc16RoundTrip(x: nat)
    requires x < 0x1_0000
    ensures LE16(Enc16(x)) == x
  {
  }

  lemma Enc32RoundTrip(x: nat)
    requires x < 0x1_0000_0000
    ensures LE32(Enc32(x)) == x
  {
    assert Enc32(x)[..2] == Enc16(x % 0x1_0000);
    assert Enc32(x)[2..] == Enc16(x / 0x1_0000);
    Enc16RoundTrip(x % 0x1_0000);
    Enc16RoundTrip(x / 0x1_0000);
  }

  lemma LowBytes(q: nat, high: nat, low: nat)
    requires high < 0x100 && low < 0x100
    ensures (0x100 * (0x100 * q + high) + low) % 0x1_0000 == low + 0x100 * high
  {
  }

  lemma LowHalves(q: nat, high: nat, low: nat)
    requires high < 0x1_0000 && low < 0x1_0000
    ensures (0x1_0000 * (0x1_0000 * q + high) + low) % 0x1_0000_0000 == low + 0x1_0000 * high
  {
  }

  /** Longer numbers are cut to their low bytes. */
  lemma Enc16Low(x: nat)
    ensures LE16(Enc16(x)) == x % 0x1_0000
  {
    var h := x / 0x100;
    assert x == 0x100 * h + x % 0x100 && h == 0x100 * (h / 0x100) + h % 0x100;
    LowBytes(h / 0x100, h % 0x100, x % 0x100);
  }

  lemma Enc32Low(x: nat)
    ensures LE32(Enc32(x)) == x % 0x1_0000_0000
  {
    hide Enc16, LE16;
    assert Enc32(x)[..2] == Enc16(x % 0x1_0000) && Enc32(x)[2..] == Enc16(x / 0x1_0000);
    var h := x / 0x1_0000;
    Enc16Low(x % 0x1_0000);
    Enc16Low(h);
    assert x == 0x1_0000 * h + x % 0x1_0000 && h == 0x1_0000 * (h / 0x1_0000) + h % 0x1_0000;
    LowHalves(h / 0x1_0000, h % 0x1_0000, x % 0x1_0000);
  }

  lemma LE16RoundTrip(s: seq<byte>)
    requires |s| == 2
    ensures Enc16(LE16(s)) == s
  {
  }

  lemma LE32RoundTrip(s: seq<byte>)
    requires |s| == 4
    ensures Enc32(LE32(s)) == s
  {
    LE16RoundTrip(s[..2]);
    LE16RoundTrip(s[2..]);
    assert LE32(s) % 0x1_0000 == LE16(s[..2]);
    assert s == s[..2] + s[2..];
  }

  /** `memcpy(&s[at], data, |data|)`: the bytes from `at` on are replaced. */
  function Patch<T>(s: seq<T>, at: nat, data: seq<T>): (r: seq<T>)
    requires at + |data| <= |s|
    ensures |r| == |s|
    ensures forall i :: 0 <= i < |s| ==> r[i] == if at <= i < at + |data| then data[i - at] else s[i]
  {
    s[..at] + data + s[at + |data|..]
  }

  /** A slice of a slice. */
  lemma SubSlice(s: seq<byte>, a: nat, n: nat, o: nat, m: nat)
    requires a + n <= |s| && o + m <= n
    ensures s[a..a + n][o..o + m] == s[a + o..a + o + m]
  {
    var t, u := s[a..a + n][o..o + m], s[a + o..a + o + m];
    assert forall i | 0 <= i < m :: t[i] == u[i];
  }

  function Zeros(n: nat): (z: seq<byte>)
    ensures |z| == n
  {
    seq(n, i => 0)
  }

  // ----- bits of a byte

  /** Bit `j` of `b`, the test `b & (1 << j)`. */
  predicate Bit(b: nat, j: nat) {
    if j == 0 then b % 2 == 1 else Bit(b / 2, j - 1)
  }

  /** `b | (1 << j)` or `b & ~(1 << j)`. */
  function WithBit(b: nat, j: nat, on: bool): nat {
    if j == 0 then b / 2 * 2 + (if on then 1 else 0) else WithBit(b / 2, j - 1, on) * 2 + b % 2
  }

  lemma WithBitChanges(b: nat, j: nat, on: bool, k: nat)
    ensures Bit(WithBit(b, j, on), k) == if j == k then on else Bit(b, k)
  {
    if j > 0 && k > 0 {
      WithBitChanges(b / 2, j - 1, on, k - 1);
    }
  }

  lemma WithBitFits(b: nat, j: nat, on: bool, width: nat)
    requires b < Power(2, width) && j < width
    ensures WithBit(b, j, on) < Power(2, width)
  {
    hide Power;
    HalfFits(b, width);
    if j > 0 {
      WithBitFits(b / 2, j - 1, on, width - 1);
      DoubleFits(WithBit(b / 2, j - 1, on), b % 2, width);
    } else {
      DoubleFits(b / 2, if on then 1 else 0, width);
    }
  }

  lemma DoubleFits(half: nat, bit: nat, width: nat)
    requires width > 0 && half < Power(2, width - 1) && bit < 2
    ensures half * 2 + bit < Power(2, width)
  {
  }

  lemma HalfFits(b: nat, width: nat)
    requires b < Power(2, width) && width > 0
    ensures b / 2 < Power(2, width - 1)
  {
  }

  function SetBit(b: byte, j: nat, on: bool): byte
    requires j < 8
  {
    assert Power(2, 8) == 256 by { assert Power(2, 4) == 16; }
    WithBitFits(b as nat, j, on, 8);
    WithBit(b as nat, j, on) as byte
  }
}
