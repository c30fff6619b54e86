/** Free counts agree with bitmaps, and one bit changing with its counts keeps that. */
module Accounting {
  import opened Bytes
  import opened Volumes
  import opened Handles
  import opened BlockGroups
  import opened Descriptors

  ghost function Primary(lay: Layout, v: Volume, g: nat): (bg: BgDescriptor)
    requires LayoutOk(lay, v) && g < lay.groups
    ensures Fits(bg)
  {
    TableSectorIn(lay, v, 0, g);
    DescAt(v, lay.tables[0], g)
  }

  /** The descriptor of group `g` names its structures and counts the clear bits of its bitmaps. */
  ghost predicate GroupOk(lay: Layout, v: Volume, g: nat)
    requires LayoutOk(lay, v) && g < lay.groups
  {
    var bg := Primary(lay, v, g);
    && bg.blockBitmap == lay.blockBitmap[g] && bg.inodeBitmap == lay.inodeBitmap[g]
    && bg.inodeTable == lay.inodeTable[g]
    && bg.freeBlocks == ClearBits(v, lay.blockBitmap[g], lay.bpg)
    && bg.freeInodes == ClearBits(v, lay.inodeBitmap[g], lay.ipg)
  }

  ghost predicate VolumeOk(lay: Layout, v: Volume) {
    && LayoutOk(lay, v) && CopiesOk(lay, v)
    && forall g | 0 <= g < lay.groups :: GroupOk(lay, v, g)
  }

  /** Clear bits of the first `k` bitmaps of `maps`. */
  ghost function Total(v: Volume, maps: seq<nat>, k: nat, bits: nat): nat
    requires k <= |maps|
  {
    if k == 0 then 0 else Total(v, maps, k - 1, bits) + ClearBits(v, maps[k - 1], bits)
  }

  ghost function FreeBlocks(lay: Layout, v: Volume): nat {
    Total(v, lay.blockBitmap, |lay.blockBitmap|, lay.bpg)
  }

  ghost function FreeInodes(lay: Layout, v: Volume): nat {
    Total(v, lay.inodeBitmap, |lay.inodeBitmap|, lay.ipg)
  }

  /** Blocks that hold bitmaps or descriptors. */
  ghost predicate AccountBlock(lay: Layout, b: nat) {
    || b in lay.blockBitmap || b in lay.inodeBitmap
    || (lay.spb > 0 && exists k, g :: 0 <= k < |lay.tables| && 0 <= g < lay.groups && b == TableBlock(lay, lay.tables[k], g))
  }

  /** Structural blocks that no change of the accounts writes: what is left are the inode tables. */
  ghost predicate Protected(lay: Layout, b: nat) {
    b in lay.reserved && !AccountBlock(lay, b) && b !in lay.tables
  }

  lemma AccountReserved(lay: Layout, v: Volume, b: nat)
    requires LayoutOk(lay, v) && AccountBlock(lay, b)
    ensures b in lay.reserved && InVolume(v, b)
  {
  }

  function Maps(lay: Layout, inodes: bool): seq<nat> {
    if inodes then lay.inodeBitmap else lay.blockBitmap
  }

  function Width(lay: Layout, inodes: bool): nat {
    if inodes then lay.ipg else lay.bpg
  }

  // ----- one bit of one bitmap

  function BitSectorData(v: Volume, bm: nat, i: nat, on: bool): Sector
    requires BitSector(v, bm, i) < |v.sectors|
  {
    var s := v.sectors[BitSector(v, bm, i)];
    Patch(s, i / 8 % 512, [SetBit(s[i / 8 % 512], i % 8, on)])
  }

  lemma BitWrite(v: Volume, bm: nat, i: nat, on: bool, j: nat)
    requires BitSector(v, bm, i) < |v.sectors|
    ensures BitAt(WithSector(v, BitSector(v, bm, i), BitSectorData(v, bm, i, on)), bm, j) ==
            if j == i then on else BitAt(v, bm, j)
  {
    var old_ := v.sectors[BitSector(v, bm, i)][i / 8 % 512];
    WithBitChanges(old_ as nat, i % 8, on, j % 8);
    if j != i && i / 8 / 512 == j / 8 / 512 && i / 8 % 512 == j / 8 % 512 {
      assert i / 8 == j / 8;
      assert i % 8 != j % 8;
    }
  }

  lemma BitSectorIn(v: Volume, bm: nat, i: nat)
    requires InVolume(v, bm) && i < 4096 * v.spb
    ensures i / 8 / 512 < v.spb && BitSector(v, bm, i) < |v.sectors|
  {
  }

  lemma SameBit(v: Volume, w: Volume, bm: nat, i: nat)
    requires SameShape(v, w) && InVolume(v, bm) && SameBlock(v, w, bm) && i < 4096 * v.spb
    ensures BitAt(v, bm, i) == BitAt(w, bm, i)
  {
    BitSectorIn(v, bm, i);
  }

  // ----- the step

  /** Bitmap `bm` of `w` is that of `v`, apart from the bits in `except`. */
  ghost predicate BitsKept(v: Volume, w: Volume, bm: nat, except: set<nat>) {
    forall j | 0 <= j < 4096 * v.spb && j !in except :: BitAt(w, bm, j) == BitAt(v, bm, j)
  }

  ghost predicate BitsStep(v: Volume, w: Volume, maps: seq<nat>, others: seq<nat>, g: nat, i: nat, on: bool)
    requires g < |maps|
  {
    && BitAt(w, maps[g], i) == on
    && (forall h | 0 <= h < |maps| :: BitsKept(v, w, maps[h], if h == g then {i} else {}))
    && (forall h | 0 <= h < |others| :: BitsKept(v, w, others[h], {}))
  }

  /** The descriptor after one bit of group `g` changed to `on`; the directory count is not tracked. */
  ghost predicate Recounted(bg: BgDescriptor, bg': BgDescriptor, inodes: bool, on: bool) {
    var d := if on then -1 else 1;
    && bg'.blockBitmap == bg.blockBitmap && bg'.inodeBitmap == bg.inodeBitmap && bg'.inodeTable == bg.inodeTable
    && bg'.pad == bg.pad && bg'.rest == bg.rest && (inodes ==> bg'.usedDirs == bg.usedDirs)
    && bg'.freeBlocks == bg.freeBlocks + (if inodes then 0 else d)
    && bg'.freeInodes == bg.freeInodes + (if inodes then d else 0)
  }

  /**
    Bit `i` of group `g` becomes `on`, its count follows, and only accounting blocks change; for an inode also the
    copies of the superblock, which are written back at once.
   */
  ghost predicate AllocStep(lay: Layout, v: Volume, w: Volume, inodes: bool, g: nat, i: nat, on: bool) {
    && LayoutOk(lay, v) && SameShape(v, w) && LayoutOk(lay, w) && g < lay.groups && i < Width(lay, inodes)
    && BitAt(v, Maps(lay, inodes)[g], i) != on
    && BitsStep(v, w, Maps(lay, inodes), Maps(lay, !inodes), g, i, on)
    && CopiesOk(lay, w)
    && (forall h | 0 <= h < lay.groups ::
          if h == g then Recounted(Primary(lay, v, h), Primary(lay, w, h), inodes, on)
          else Primary(lay, w, h) == Primary(lay, v, h))
    && (forall b | !AccountBlock(lay, b) && !(inodes && b in lay.tables) :: SameBlock(v, w, b))
  }

  lemma {:induction false} TotalSame(v: Volume, w: Volume, maps: seq<nat>, k: nat, bits: nat)
    requires k <= |maps|
    requires forall h | 0 <= h < k :: ClearBits(w, maps[h], bits) == ClearBits(v, maps[h], bits)
    ensures Total(w, maps, k, bits) == Total(v, maps, k, bits)
  {
    if k > 0 {
      TotalSame(v, w, maps, k - 1, bits);
    }
  }

  lemma {:induction false} TotalStep(v: Volume, w: Volume, maps: seq<nat>, k: nat, bits: nat, g: nat, d: int)
    requires g < k <= |maps|
    requires forall h | 0 <= h < k :: ClearBits(w, maps[h], bits) == ClearBits(v, maps[h], bits) + (if h == g then d else 0)
    ensures Total(w, maps, k, bits) == Total(v, maps, k, bits) + d
  {
    if g == k - 1 {
      TotalSame(v, w, maps, k - 1, bits);
    } else {
      TotalStep(v, w, maps, k - 1, bits, g, d);
    }
  }

  lemma StepCounts(v: Volume, w: Volume, maps: seq<nat>, others: seq<nat>, g: nat, i: nat, on: bool, width: nat)
    requires g < |maps| && i < width <= 4096 * v.spb && BitAt(v, maps[g], i) != on
    requires BitsStep(v, w, maps, others, g, i, on)
    ensures forall h | 0 <= h < |maps| :: ClearBits(w, maps[h], width) ==
              ClearBits(v, maps[h], width) + (if h != g then 0 else if on then -1 else 1)
  {
    forall h | 0 <= h < |maps|
      ensures ClearBits(w, maps[h], width) == ClearBits(v, maps[h], width) + (if h != g then 0 else if on then -1 else 1)
    {
      assert BitsKept(v, w, maps[h], if h == g then {i} else {});
      if h == g {
        ClearBitsFlip(v, w, maps[g], width, i);
      } else {
        ClearBitsSame(v, w, maps[h], width);
      }
    }
  }

  lemma OtherCounts(v: Volume, w: Volume, maps: seq<nat>, others: seq<nat>, g: nat, i: nat, on: bool, width: nat)
    requires g < |maps| && width <= 4096 * v.spb && BitsStep(v, w, maps, others, g, i, on)
    ensures forall h | 0 <= h < |others| :: ClearBits(w, others[h], width) == ClearBits(v, others[h], width)
  {
    forall h | 0 <= h < |others|
      ensures ClearBits(w, others[h], width) == ClearBits(v, others[h], width)
    {
      ClearBitsSame(v, w, others[h], width);
    }
  }

  /** Conservation: one step keeps every group's counts, and moves the total of its kind by one. */
  lemma StepKeepsVolume(lay: Layout, v: Volume, w: Volume, inodes: bool, g: nat, i: nat, on: bool)
    requires VolumeOk(lay, v) && AllocStep(lay, v, w, inodes, g, i, on)
    ensures VolumeOk(lay, w)
    ensures FreeBlocks(lay, w) == FreeBlocks(lay, v) + (if inodes then 0 else if on then -1 else 1)
    ensures FreeInodes(lay, w) == FreeInodes(lay, v) + (if !inodes then 0 else if on then -1 else 1)
  {
    StepCounts(v, w, Maps(lay, inodes), Maps(lay, !inodes), g, i, on, Width(lay, inodes));
    OtherCounts(v, w, Maps(lay, inodes), Maps(lay, !inodes), g, i, on, Width(lay, !inodes));
    forall h | 0 <= h < lay.groups
      ensures GroupOk(lay, w, h)
    {
      assert GroupOk(lay, v, h);
    }
    TotalStep(v, w, Maps(lay, inodes), lay.groups, Width(lay, inodes), g, if on then -1 else 1);
    TotalSame(v, w, Maps(lay, !inodes), lay.groups, Width(lay, !inodes));
  }

  lemma DescFrame(lay: Layout, v: Volume, w: Volume, k: nat, h: nat)
    requires LayoutOk(lay, v) && SameShape(v, w) && k < |lay.tables| && h < lay.groups
    requires forall b | AccountBlock(lay, b) :: SameBlock(v, w, b)
    ensures TableSector(v, lay.tables[k], h) == TableSector(w, lay.tables[k], h) < |v.sectors|
    ensures DescBytes(w, lay.tables[k], h) == DescBytes(v, lay.tables[k], h)
  {
    TableSectorIn(lay, v, k, h);
    assert AccountBlock(lay, TableBlock(lay, lay.tables[k], h));
    TableSectorInBlock(v, lay, lay.tables[k], h);
  }

  lemma PrimaryFrame(lay: Layout, v: Volume, w: Volume)
    requires LayoutOk(lay, v) && CopiesOk(lay, v) && SameShape(v, w)
    requires forall b | AccountBlock(lay, b) :: SameBlock(v, w, b)
    ensures LayoutOk(lay, w) && CopiesOk(lay, w) && forall h | 0 <= h < lay.groups :: Primary(lay, w, h) == Primary(lay, v, h)
  {
    hide AccountBlock, SameBlock, DescBytes, TableSector, LayoutOk;
    LayoutSame(lay, v, w);
    TablesThere(lay, v);
    forall k, h | 0 <= k < |lay.tables| && 0 <= h < lay.groups
      ensures TableSector(v, lay.tables[k], h) == TableSector(w, lay.tables[k], h) < |v.sectors|
      ensures DescBytes(w, lay.tables[k], h) == DescBytes(v, lay.tables[k], h)
    {
      DescFrame(lay, v, w, k, h);
    }
  }

  lemma TablesThere(lay: Layout, v: Volume)
    requires LayoutOk(lay, v)
    ensures lay.groups > 0 && |lay.tables| > 0
  {
  }

  lemma BitmapFrame(lay: Layout, v: Volume, w: Volume, maps: seq<nat>, bits: nat)
    requires LayoutOk(lay, v) && SameShape(v, w) && bits <= 4096 * lay.spb
    requires forall b | AccountBlock(lay, b) :: SameBlock(v, w, b)
    requires maps == lay.blockBitmap || maps == lay.inodeBitmap
    ensures forall h, j | 0 <= h < |maps| && 0 <= j < 4096 * lay.spb :: BitAt(w, maps[h], j) == BitAt(v, maps[h], j)
    ensures forall h | 0 <= h < |maps| :: ClearBits(w, maps[h], bits) == ClearBits(v, maps[h], bits)
    ensures Total(w, maps, |maps|, bits) == Total(v, maps, |maps|, bits)
  {
    hide BitAt, SameBlock;
    forall h, j | 0 <= h < |maps| && 0 <= j < 4096 * lay.spb
      ensures BitAt(w, maps[h], j) == BitAt(v, maps[h], j)
    {
      AccountReserved(lay, v, maps[h]);
      SameBit(v, w, maps[h], j);
    }
    forall h | 0 <= h < |maps|
      ensures ClearBits(w, maps[h], bits) == ClearBits(v, maps[h], bits)
    {
      ClearBitsSame(v, w, maps[h], bits);
    }
    TotalSame(v, w, maps, |maps|, bits);
  }

  /** Nothing outside the accounting blocks matters to the accounts. */
  lemma VolumeOkFrame(lay: Layout, v: Volume, w: Volume)
    requires VolumeOk(lay, v) && SameShape(v, w)
    requires forall b | AccountBlock(lay, b) :: SameBlock(v, w, b)
    ensures VolumeOk(lay, w)
    ensures FreeBlocks(lay, w) == FreeBlocks(lay, v) && FreeInodes(lay, w) == FreeInodes(lay, v)
    ensures forall h | 0 <= h < lay.groups :: Primary(lay, w, h) == Primary(lay, v, h)
    ensures forall h, j | 0 <= h < lay.groups && 0 <= j < 4096 * lay.spb ::
              BitAt(w, lay.blockBitmap[h], j) == BitAt(v, lay.blockBitmap[h], j)
              && BitAt(w, lay.inodeBitmap[h], j) == BitAt(v, lay.inodeBitmap[h], j)
  {
    hide BitAt, SameBlock, AccountBlock, CopiesOk, Primary, ClearBits, Total;
    PrimaryFrame(lay, v, w);
    BitmapFrame(lay, v, w, lay.blockBitmap, lay.bpg);
    BitmapFrame(lay, v, w, lay.inodeBitmap, lay.ipg);
    forall h | 0 <= h < lay.groups
      ensures GroupOk(lay, w, h)
    {
      assert GroupOk(lay, v, h);
    }
  }
}
