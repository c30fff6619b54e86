/** Block group descriptors, bitmaps and free counts, as they lie on the volume. */
module BlockGroups {
  import opened Bytes
  import opened Volumes
  import opened Handles

  datatype BgDescriptor = BgDescriptor(
    blockBitmap: nat, inodeBitmap: nat, inodeTable: nat, freeBlocks: nat, freeInodes: nat, usedDirs: nat,
    pad: nat, rest: seq<byte>)

  predicate Fits(bg: BgDescriptor) {
    && bg.blockBitmap < 0x1_0000_0000 && bg.inodeBitmap < 0x1_0000_0000 && bg.inodeTable < 0x1_0000_0000
    && bg.freeBlocks < 0x1_0000 && bg.freeInodes < 0x1_0000 && bg.usedDirs < 0x1_0000 && bg.pad < 0x1_0000
    && |bg.rest| == 12
  }

  function EncodeBlocks(bg: BgDescriptor): (s: seq<byte>)
    ensures |s| == 12
  {
    Enc32(bg.blockBitmap) + Enc32(bg.inodeBitmap) + Enc32(bg.inodeTable)
  }

  function EncodeCounts(bg: BgDescriptor): (s: seq<byte>)
    ensures |s| == 8
  {
    Enc16(bg.freeBlocks) + Enc16(bg.freeInodes) + Enc16(bg.usedDirs) + Enc16(bg.pad)
  }

  function Encode(bg: BgDescriptor): (s: seq<byte>)
    requires Fits(bg)
    ensures |s| == 32
  {
    EncodeBlocks(bg) + EncodeCounts(bg) + bg.rest
  }

  function Decode(s: seq<byte>): (bg: BgDescriptor)
    requires |s| == 32
    ensures Fits(bg)
  {
    var blocks, counts := s[..12], s[12..20];
    BgDescriptor(LE32(blocks[..4]), LE32(blocks[4..8]), LE32(blocks[8..]), LE16(counts[..2]), LE16(counts[2..4]),
                 LE16(counts[4..6]), LE16(counts[6..]), s[20..])
  }

  lemma EncodeSlices(bg: BgDescriptor)
    requires Fits(bg)
    ensures var blocks, counts := EncodeBlocks(bg), EncodeCounts(bg);
            && Encode(bg)[..12] == blocks && Encode(bg)[12..20] == counts && Encode(bg)[20..] == bg.rest
            && blocks[..4] == Enc32(bg.blockBitmap) && blocks[4..8] == Enc32(bg.inodeBitmap)
            && blocks[8..] == Enc32(bg.inodeTable)
            && counts[..2] == Enc16(bg.freeBlocks) && counts[2..4] == Enc16(bg.freeInodes)
            && counts[4..6] == Enc16(bg.usedDirs) && counts[6..] == Enc16(bg.pad)
  {
    hide Enc16, Enc32;
  }

  lemma DecodeEncode(bg: BgDescriptor)
    requires Fits(bg)
    ensures Decode(Encode(bg)) == bg
  {
    hide Enc16, Enc32, LE16, LE32, EncodeBlocks, EncodeCounts, Encode;
    EncodeSlices(bg);
    Enc32RoundTrip(bg.blockBitmap);
    Enc32RoundTrip(bg.inodeBitmap);
    Enc32RoundTrip(bg.inodeTable);
    Enc16RoundTrip(bg.freeBlocks);
    Enc16RoundTrip(bg.freeInodes);
    Enc16RoundTrip(bg.usedDirs);
    Enc16RoundTrip(bg.pad);
  }

  lemma EncodeDecode(s: seq<byte>)
    requires |s| == 32
    ensures Encode(Decode(s)) == s
  {
    hide Enc16, Enc32, LE16, LE32;
    var blocks, counts := s[..12], s[12..20];
    LE32RoundTrip(blocks[..4]);
    LE32RoundTrip(blocks[4..8]);
    LE32RoundTrip(blocks[8..]);
    LE16RoundTrip(counts[..2]);
    LE16RoundTrip(counts[2..4]);
    LE16RoundTrip(counts[4..6]);
    LE16RoundTrip(counts[6..]);
    assert blocks == blocks[..4] + blocks[4..8] + blocks[8..];
    assert counts == counts[..2] + counts[2..4] + counts[4..6] + counts[6..];
    assert s == blocks + counts + s[20..];
  }

  /** The device sector of the table copy after the superblock in block `table` that describes group `g`. */
  function TableSector(v: Volume, table: nat, g: nat): nat {
    BlockStart(v, table + 1) + g / 16
  }

  function DescBytes(v: Volume, table: nat, g: nat): (s: seq<byte>)
    requires TableSector(v, table, g) < |v.sectors|
    ensures |s| == 32
  {
    v.sectors[TableSector(v, table, g)][g % 16 * 32..g % 16 * 32 + 32]
  }

  function DescAt(v: Volume, table: nat, g: nat): (bg: BgDescriptor)
    requires TableSector(v, table, g) < |v.sectors|
    ensures Fits(bg)
  {
    Decode(DescBytes(v, table, g))
  }

  // ----- bitmaps

  function BitSector(v: Volume, bm: nat, i: nat): nat {
    BlockStart(v, bm) + i / 8 / 512
  }

  /** Bit `i` of the bitmap in block `bm`. */
  predicate BitAt(v: Volume, bm: nat, i: nat) {
    BitSector(v, bm, i) < |v.sectors| && Bit(v.sectors[BitSector(v, bm, i)][i / 8 % 512] as nat, i % 8)
  }

  /** The number of clear bits among the first `k` of the bitmap in block `bm`. */
  function ClearBits(v: Volume, bm: nat, k: nat): (c: nat)
    ensures c <= k
  {
    if k == 0 then 0 else ClearBits(v, bm, k - 1) + (if BitAt(v, bm, k - 1) then 0 else 1)
  }

  lemma {:induction false} ClearBitsSame(v: Volume, w: Volume, bm: nat, k: nat)
    requires forall i :: 0 <= i < k ==> BitAt(v, bm, i) == BitAt(w, bm, i)
    ensures ClearBits(v, bm, k) == ClearBits(w, bm, k)
  {
    if k > 0 {
      ClearBitsSame(v, w, bm, k - 1);
    }
  }

  lemma {:induction false} ClearBitsFlip(v: Volume, w: Volume, bm: nat, k: nat, i: nat)
    requires i < k && BitAt(v, bm, i) != BitAt(w, bm, i)
    requires forall j :: 0 <= j < k && j != i ==> BitAt(v, bm, j) == BitAt(w, bm, j)
    ensures ClearBits(w, bm, k) == ClearBits(v, bm, k) + (if BitAt(v, bm, i) then 1 else -1)
  {
    if i == k - 1 {
      ClearBitsSame(v, w, bm, k - 1);
    } else {
      ClearBitsFlip(v, w, bm, k - 1, i);
    }
  }

  /** A positive count of clear bits is a clear bit, and conversely. */
  lemma {:induction false} ClearBitsPositive(v: Volume, bm: nat, k: nat)
    ensures ClearBits(v, bm, k) > 0 <==> exists i :: 0 <= i < k && !BitAt(v, bm, i)
  {
    if k > 0 {
      ClearBitsPositive(v, bm, k - 1);
    }
  }

  /** The block descriptor table block that describes group `g`. */
  function TableBlock(lay: Layout, table: nat, g: nat): nat
    requires lay.spb > 0
  {
    table + 1 + Div(g / 16, lay.spb)
  }

  lemma TableSectorInBlock(v: Volume, lay: Layout, table: nat, g: nat)
    requires lay.spb == v.spb > 0
    ensures TableSector(v, table, g) == BlockStart(v, TableBlock(lay, table, g)) + Mod(g / 16, v.spb)
  {
    var q := g / 16;
    assert q == q / v.spb * v.spb + q % v.spb;
    assert (table + 1 + q / v.spb) * v.spb == (table + 1) * v.spb + q / v.spb * v.spb;
  }

  // ----- layout and consistency

  /** The structures of the filesystem lie in the volume and do not overlap. */
  ghost predicate LayoutOk(lay: Layout, v: Volume) {
    && lay.spb == v.spb > 0 && lay.part == v.part
    && 0 < lay.bpg <= 4096 * lay.spb && lay.bpg < 0x1_0000 && lay.bpg % 8 == 0
    && 0 < lay.ipg <= 4096 * lay.spb && lay.ipg < 0x1_0000 && lay.ipg % 8 == 0
    && lay.groups > 0 && |lay.tables| > 0
    && |lay.blockBitmap| == |lay.inodeBitmap| == |lay.inodeTable| == lay.groups
    && (forall b | b in lay.reserved :: InVolume(v, b))
    && (forall g | 0 <= g < lay.groups :: lay.blockBitmap[g] in lay.reserved && lay.inodeBitmap[g] in lay.reserved)
    && (forall k, g | 0 <= k < |lay.tables| && 0 <= g < lay.groups :: TableBlock(lay, lay.tables[k], g) in lay.reserved)
    && (forall g, h | 0 <= g < lay.groups && 0 <= h < lay.groups ::
          lay.blockBitmap[g] != lay.inodeBitmap[h]
          && (g != h ==> lay.blockBitmap[g] != lay.blockBitmap[h] && lay.inodeBitmap[g] != lay.inodeBitmap[h]))
    && (forall k, g, h | 0 <= k < |lay.tables| && 0 <= g < lay.groups && 0 <= h < lay.groups ::
          TableBlock(lay, lay.tables[k], g) != lay.blockBitmap[h] && TableBlock(lay, lay.tables[k], g) != lay.inodeBitmap[h])
    && (forall k, l, g, h | 0 <= k < |lay.tables| && 0 <= l < |lay.tables| && 0 <= g < lay.groups && 0 <= h < lay.groups ::
          k != l ==> TableBlock(lay, lay.tables[k], g) != TableBlock(lay, lay.tables[l], h))
    && (forall k | 0 <= k < |lay.tables| :: lay.tables[k] in lay.reserved)
    && (forall k, g | 0 <= k < |lay.tables| && 0 <= g < lay.groups ::
          lay.tables[k] != lay.blockBitmap[g] && lay.tables[k] != lay.inodeBitmap[g])
    && (forall k, l, g | 0 <= k < |lay.tables| && 0 <= l < |lay.tables| && 0 <= g < lay.groups ::
          lay.tables[k] != TableBlock(lay, lay.tables[l], g))
  }
}
