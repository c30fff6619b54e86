/** The block device, and the ext2 volume that starts at sector `part` of it. */
module Volumes {
  import opened Bytes

  type Sector = s: seq<byte> | |s| == 512 witness seq(512, i => 0)

  /** `spb` is the number of 512-byte sectors in a filesystem block. */
  datatype Volume = Volume(sectors: seq<Sector>, part: nat, spb: nat)

  function BlockStart(v: Volume, b: nat): nat {
    v.part + b * v.spb
  }

  predicate InVolume(v: Volume, b: nat) {
    BlockStart(v, b) + v.spb <= |v.sectors|
  }

  /** The device sector that holds byte `off` of block `b`. */
  function SectorOf(v: Volume, b: nat, off: nat): nat {
    BlockStart(v, b) + off / 512
  }

  function Div(x: nat, d: nat): nat
    requires d > 0
  {
    x / d
  }

  function Mod(x: nat, d: nat): (r: nat)
    requires d > 0
    ensures r < d
  {
    x % d
  }

  /** Number of 32-bit pointers in a block. */
  function Entries(v: Volume): nat {
    128 * v.spb
  }

  /** Pointer `a` of the pointer table in block `b`. */
  function Ptr(v: Volume, b: nat, a: nat): (p: nat)
    ensures p < 0x1_0000_0000
  {
    if InVolume(v, b) && a < Entries(v) then
      LE32(v.sectors[SectorOf(v, b, 4 * a)][4 * a % 512..4 * a % 512 + 4])
    else 0
  }

  lemma BlockGap(spb: nat, b: nat, c: nat)
    requires b < c
    ensures b * spb + spb <= c * spb
  {
    assert c * spb == b * spb + (c - b) * spb;
    assert (c - b) * spb == (c - b - 1) * spb + spb;
    assert (c - b - 1) * spb >= 0;
  }

  lemma BlocksDisjoint(v: Volume, b: nat, x: nat, c: nat, y: nat)
    requires b != c && x < v.spb && y < v.spb
    ensures BlockStart(v, b) + x != BlockStart(v, c) + y
  {
    if b < c {
      BlockGap(v.spb, b, c);
    } else {
      BlockGap(v.spb, c, b);
    }
  }

  lemma DivModInjective(x: nat, y: nat, d: nat)
    requires d > 0 && Div(x, d) == Div(y, d) && Mod(x, d) == Mod(y, d)
    ensures x == y
  {
    assert x == x / d * d + x % d;
    assert y == y / d * d + y % d;
  }

  /** The volume after sector `s` of the device is overwritten. */
  function WithSector(v: Volume, s: nat, data: Sector): Volume
    requires s < |v.sectors|
  {
    v.(sectors := v.sectors[s := data])
  }

  ghost predicate SameShape(v: Volume, w: Volume) {
    v.part == w.part && v.spb == w.spb && |v.sectors| == |w.sectors|
  }

  /** Block `b` holds the same bytes in both volumes. */
  ghost predicate SameBlock(v: Volume, w: Volume, b: nat)
    requires SameShape(v, w)
  {
    InVolume(v, b) ==>
      forall s :: BlockStart(v, b) <= s < BlockStart(v, b) + v.spb ==> v.sectors[s] == w.sectors[s]
  }

  lemma SamePtr(v: Volume, w: Volume, b: nat, a: nat)
    requires SameShape(v, w) && SameBlock(v, w, b)
    ensures Ptr(v, b, a) == Ptr(w, b, a)
  {
  }

  lemma WithSectorOther(v: Volume, b: nat, x: nat, data: Sector, c: nat)
    requires InVolume(v, b) && x < v.spb && b != c
    ensures SameBlock(v, WithSector(v, BlockStart(v, b) + x, data), c)
  {
    var w := WithSector(v, BlockStart(v, b) + x, data);
    forall s | BlockStart(v, c) <= s < BlockStart(v, c) + v.spb && InVolume(v, c)
      ensures v.sectors[s] == w.sectors[s]
    {
      BlocksDisjoint(v, b, x, c, s - BlockStart(v, c));
    }
  }
}
