/** Allocating and freeing blocks and inodes. */
module Allocator {
  import opened Bytes
  import opened Volumes
  import opened PointerTree
  import opened Handles
  import opened BlockGroups
  import opened Descriptors
  import opened Accounting

  /** `block` is in one of the groups. */
  predicate InGroups(lay: Layout, block: nat) {
    lay.bpg > 0 && lay.firstData <= block && Div(block - lay.firstData, lay.bpg) < lay.groups
  }

  function GroupOf(lay: Layout, block: nat): nat
    requires InGroups(lay, block)
  {
    Div(block - lay.firstData, lay.bpg)
  }

  function BitOf(lay: Layout, block: nat): (i: nat)
    requires InGroups(lay, block)
    ensures i < lay.bpg
  {
    Mod(block - lay.firstData, lay.bpg)
  }

  /** The block that bit `i` of group `g` stands for. */
  function BlockOf(lay: Layout, g: nat, i: nat): nat {
    lay.firstData + g * lay.bpg + i
  }

  lemma BlockOfBit(lay: Layout, g: nat, i: nat)
    requires g < lay.groups && i < lay.bpg
    ensures InGroups(lay, BlockOf(lay, g, i))
    ensures GroupOf(lay, BlockOf(lay, g, i)) == g && BitOf(lay, BlockOf(lay, g, i)) == i
  {
    DivModUnique(g, lay.bpg, i);
  }

  ghost predicate Allocated(lay: Layout, v: Volume, block: nat) {
    InGroups(lay, block) && GroupOf(lay, block) < |lay.blockBitmap|
    && BitAt(v, lay.blockBitmap[GroupOf(lay, block)], BitOf(lay, block))
  }

  /** Bitmaps, descriptors and the two totals of the superblock agree. */
  ghost predicate Consistent(lay: Layout, v: Volume, freeBlocks: nat, freeInodes: nat) {
    VolumeOk(lay, v) && freeBlocks == FreeBlocks(lay, v) && freeInodes == FreeInodes(lay, v)
  }

  /** The consistent state of a mounted volume seen through `v`. */
  ghost predicate Mounted(ctx: Context, v: Volume)
    reads ctx
  {
    ctx.Valid() && Consistent(ctx.lay, v, ctx.freeBlocksCount, ctx.freeInodesCount)
  }

  /** Step 1: the bit of the bitmap, refused when it is already in that state. */
  method FlipBit(ctx: Context, bm: nat, i: nat, on: bool) returns (refused: bool)
    requires ctx.Valid() && BitSector(ctx.Vol(), bm, i) < |ctx.Vol().sectors|
    modifies ctx.sysbuf, ctx.device
    ensures refused == (BitAt(old(ctx.Vol()), bm, i) == on)
    ensures ctx.Vol() == if refused then old(ctx.Vol()) else
            WithSector(old(ctx.Vol()), BitSector(old(ctx.Vol()), bm, i), BitSectorData(old(ctx.Vol()), bm, i, on))
  {
    ghost var v := ctx.Vol();
    var lba := bm * ctx.lay.spb + i / 8 / 512;
    var err := ctx.device.Read(lba + ctx.lay.part, ctx.sysbuf);
    var b := ctx.sysbuf[i / 8 % 512];
    if Bit(b as nat, i % 8) {
      if on {
        return true;
      }
      ctx.sysbuf[i / 8 % 512] := SetBit(b, i % 8, false);
    } else {
      if !on {
        return true;
      }
      ctx.sysbuf[i / 8 % 512] := SetBit(b, i % 8, true);
    }
    assert ctx.sysbuf[..] == BitSectorData(v, bm, i, on);
    err := ctx.device.Write(lba + ctx.lay.part, ctx.sysbuf);
    refused := false;
  }

  /** Step 2: the counters of the descriptor, in 16 bits. */
  function Recount(bg: BgDescriptor, allocate: bool, forDirectory: bool): (bg': BgDescriptor)
    ensures Fits(bg) ==> Fits(bg')
  {
    if allocate then
      bg.(freeBlocks := (bg.freeBlocks + 0xFFFF) % 0x1_0000,
          usedDirs := if forDirectory then (bg.usedDirs + 1) % 0x1_0000 else bg.usedDirs)
    else
      bg.(freeBlocks := (bg.freeBlocks + 1) % 0x1_0000,
          usedDirs := if forDirectory then (bg.usedDirs + 0xFFFF) % 0x1_0000 else bg.usedDirs)
  }

  /** The count of directories follows the blocks of directories, in 16 bits. */
  predicate DirsCounted(bg: BgDescriptor, bg': BgDescriptor, allocate: bool, forDirectory: bool) {
    bg'.usedDirs % 0x1_0000 == (bg.usedDirs + (if !forDirectory then 0 else if allocate then 1 else -1)) % 0x1_0000
  }

  /** How many of the blocks are in group `g`. */
  function CountIn(lay: Layout, blocks: seq<nat>, g: nat): nat {
    if blocks == [] then 0
    else
      var b := blocks[|blocks| - 1];
      CountIn(lay, blocks[..|blocks| - 1], g) + (if InGroups(lay, b) && GroupOf(lay, b) == g then 1 else 0)
  }

  ghost function DirsIn(lay: Layout, v: Volume, g: nat): nat {
    if LayoutOk(lay, v) && g < lay.groups then Primary(lay, v, g).usedDirs else 0
  }

  /** Taking (`d` 1) or freeing (`d` -1) blocks of a directory moves the count of directories of their groups, in 16 bits. */
  ghost predicate DirsChange(lay: Layout, v: Volume, w: Volume, blocks: seq<nat>, d: int) {
    forall g: nat ::
      (DirsIn(lay, w, g) - DirsIn(lay, v, g) - (if d > 0 then 1 else if d < 0 then -1 else 0) * CountIn(lay, blocks, g)) % 0x1_0000 == 0
  }

  lemma OneDir(lay: Layout, v: Volume, w: Volume, block: nat, allocate: bool, forDirectory: bool)
    requires InGroups(lay, block) && AllocStep(lay, v, w, false, GroupOf(lay, block), BitOf(lay, block), allocate)
    requires DirsCounted(Primary(lay, v, GroupOf(lay, block)), Primary(lay, w, GroupOf(lay, block)), allocate, forDirectory)
    ensures DirsChange(lay, v, w, [block], if !forDirectory then 0 else if allocate then 1 else -1)
  {
    hide LayoutOk, Primary, BitsStep, CopiesOk, Recounted, SameBlock, BitAt;
    forall g: nat
      ensures CountIn(lay, [block], g) == if g == GroupOf(lay, block) then 1 else 0
    {
      assert [block][..0] == [];
    }
  }

  /** Steps 2 and 3: the descriptor copies and the total of the superblock, after bit `i` of group `g` changed. */
  method CountChange(ctx: Context, g: nat, bg: BgDescriptor, allocate: bool, forDirectory: bool,
                     ghost v: Volume, ghost i: nat)
    requires ctx.Valid() && Consistent(ctx.lay, v, ctx.freeBlocksCount, ctx.freeInodesCount)
    requires g < ctx.lay.groups && i < ctx.lay.bpg && bg == Primary(ctx.lay, v, g)
    requires BitAt(v, ctx.lay.blockBitmap[g], i) != allocate && BitSector(v, ctx.lay.blockBitmap[g], i) < |v.sectors|
    requires ctx.Vol() == WithSector(v, BitSector(v, ctx.lay.blockBitmap[g], i),
                                     BitSectorData(v, ctx.lay.blockBitmap[g], i, allocate))
    modifies ctx, ctx.sysbuf, ctx.device
    ensures Mounted(ctx, ctx.Vol())
    ensures AllocStep(ctx.lay, v, ctx.Vol(), false, g, i, allocate)
    ensures ctx.freeBlocksCount == old(ctx.freeBlocksCount) + (if allocate then -1 else 1)
    ensures ctx.freeInodesCount == old(ctx.freeInodesCount)
    ensures LayoutOk(ctx.lay, ctx.Vol()) && DirsCounted(bg, Primary(ctx.lay, ctx.Vol(), g), allocate, forDirectory)
  {
    hide Consistent, LayoutOk, DescWritten, AllocStep, Encode, BitSectorData, BitAt, BitSector, Primary, Recount, Fits, DirsCounted;
    ghost var v1 := ctx.Vol();
    ConsistentFacts(ctx.lay, v, ctx.freeBlocksCount, ctx.freeInodesCount, v1);
    var ok := WriteBgDescriptor(ctx, Recount(bg, allocate, forDirectory), g);
    BlockStepDone(ctx.lay, v, v1, ctx.Vol(), g, i, allocate, forDirectory, ctx.freeBlocksCount, ctx.freeInodesCount);
    ctx.freeBlocksCount := if allocate then ctx.freeBlocksCount - 1 else ctx.freeBlocksCount + 1;
  }

  /** Allocates or frees `block`; refused when it is already in that state. */
  method ChangeAllocated(ctx: Context, block: nat, allocate: bool, forDirectory: bool) returns (r: int)
    requires Mounted(ctx, ctx.Vol()) && InGroups(ctx.lay, block)
    modifies ctx, ctx.sysbuf, ctx.device
    ensures Mounted(ctx, ctx.Vol())
    ensures r == if Allocated(ctx.lay, old(ctx.Vol()), block) == allocate then -1 else 0
    ensures r != 0 ==> ctx.Vol() == old(ctx.Vol())
    ensures r == 0 ==> AllocStep(ctx.lay, old(ctx.Vol()), ctx.Vol(), false, GroupOf(ctx.lay, block),
                                 BitOf(ctx.lay, block), allocate)
    ensures ctx.freeBlocksCount == old(ctx.freeBlocksCount) + (if r != 0 then 0 else if allocate then -1 else 1)
    ensures ctx.freeInodesCount == old(ctx.freeInodesCount)
    ensures r == 0 ==>
              DirsChange(ctx.lay, old(ctx.Vol()), ctx.Vol(), [block], if !forDirectory then 0 else if allocate then 1 else -1)
  {
    hide Consistent, LayoutOk, DescWritten, AllocStep, BitSectorData, BitAt, BitSector, DescAt, DescBytes, TableSector, DirsCounted, DirsChange,
      Primary, Div, Mod;
    ghost var v := ctx.Vol();
    var g := GroupOf(ctx.lay, block);
    var i := BitOf(ctx.lay, block);
    ConsistentFacts(ctx.lay, v, ctx.freeBlocksCount, ctx.freeInodesCount, v);
    GroupFacts(ctx.lay, v, g, i);
    var ok, bg := GetBgDescriptor(ctx, g);
    var refused := FlipBit(ctx, bg.blockBitmap, i, allocate);
    if refused {
      return -1;
    }
    CountChange(ctx, g, bg, allocate, forDirectory, v, i);
    OneDir(ctx.lay, v, ctx.Vol(), block, allocate, forDirectory);
    r := 0;
  }

  /** A clear bit is counted, a set bit is not: the 16-bit counters neither underflow nor overflow. */
  lemma CountBounds(lay: Layout, v: Volume, g: nat, inodes: bool, i: nat, on: bool)
    requires VolumeOk(lay, v) && g < lay.groups && i < Width(lay, inodes) && BitAt(v, Maps(lay, inodes)[g], i) != on
    ensures on ==> 0 < ClearBits(v, Maps(lay, inodes)[g], Width(lay, inodes)) <= Total(v, Maps(lay, inodes), lay.groups, Width(lay, inodes))
    ensures !on ==> ClearBits(v, Maps(lay, inodes)[g], Width(lay, inodes)) < Width(lay, inodes)
  {
    ClearBitsPositive(v, Maps(lay, inodes)[g], Width(lay, inodes));
    TotalBound(v, Maps(lay, inodes), lay.groups, Width(lay, inodes), g);
    if !on {
      ClearBitsSlack(v, Maps(lay, inodes)[g], Width(lay, inodes), i);
    }
  }

  lemma {:induction false} TotalBound(v: Volume, maps: seq<nat>, k: nat, bits: nat, g: nat)
    requires g < k <= |maps|
    ensures ClearBits(v, maps[g], bits) <= Total(v, maps, k, bits)
  {
    if g < k - 1 {
      TotalBound(v, maps, k - 1, bits, g);
    }
  }

  lemma {:induction false} ClearBitsSlack(v: Volume, bm: nat, k: nat, i: nat)
    requires i < k && BitAt(v, bm, i)
    ensures ClearBits(v, bm, k) < k
  {
    if i < k - 1 {
      ClearBitsSlack(v, bm, k - 1, i);
    }
  }

  lemma ConsistentFacts(lay: Layout, v: Volume, freeBlocks: nat, freeInodes: nat, w: Volume)
    requires Consistent(lay, v, freeBlocks, freeInodes) && SameShape(v, w)
    ensures VolumeOk(lay, v) && LayoutOk(lay, v) && LayoutOk(lay, w)
  {
  }

  lemma GroupFacts(lay: Layout, v: Volume, g: nat, i: nat)
    requires VolumeOk(lay, v) && g < lay.groups && i < lay.bpg
    ensures LayoutOk(lay, v) && g < |lay.blockBitmap| && BitSector(v, lay.blockBitmap[g], i) < |v.sectors|
    ensures TableSector(v, lay.tables[0], g) < |v.sectors| && Primary(lay, v, g) == DescAt(v, lay.tables[0], g)
    ensures Primary(lay, v, g).blockBitmap == lay.blockBitmap[g]
  {
    assert GroupOk(lay, v, g);
    TableSectorIn(lay, v, 0, g);
    BitSectorIn(v, lay.blockBitmap[g], i);
  }

  lemma BlockStepDone(lay: Layout, v: Volume, v1: Volume, w: Volume, g: nat, i: nat, on: bool, forDirectory: bool,
                      freeBlocks: nat, freeInodes: nat)
    requires Consistent(lay, v, freeBlocks, freeInodes) && LayoutOk(lay, v1) && g < lay.groups && i < lay.bpg
    requires BitAt(v, lay.blockBitmap[g], i) != on && BitSector(v, lay.blockBitmap[g], i) < |v.sectors|
    requires v1 == WithSector(v, BitSector(v, lay.blockBitmap[g], i), BitSectorData(v, lay.blockBitmap[g], i, on))
    requires DescWritten(lay, v1, w, g, Encode(Recount(Primary(lay, v, g), on, forDirectory)), |lay.tables|)
    ensures AllocStep(lay, v, w, false, g, i, on)
    ensures on ==> freeBlocks > 0 && Consistent(lay, w, freeBlocks - 1, freeInodes)
    ensures !on ==> Consistent(lay, w, freeBlocks + 1, freeInodes)
    ensures LayoutOk(lay, w) && DirsCounted(Primary(lay, v, g), Primary(lay, w, g), on, forDirectory)
  {
    hide DirsCounted, Recount, Recounted, LayoutOk, CopiesOk, GroupOk, Primary, DescWritten, Encode, BitSectorData, BitAt, BitSector, Maps, Width;
    BlockMaps(lay);
    RecountGroup(lay, v, g, i, on, forDirectory);
    StepDone(lay, v, v1, w, false, g, i, on, Recount(Primary(lay, v, g), on, forDirectory));
    StepKeepsVolume(lay, v, w, false, g, i, on);
    RecountDirs(Primary(lay, v, g), on, forDirectory);
  }

  lemma RecountDirs(bg: BgDescriptor, on: bool, forDirectory: bool)
    requires Fits(bg)
    ensures DirsCounted(bg, Recount(bg, on, forDirectory), on, forDirectory)
  {
  }

  lemma BlockMaps(lay: Layout)
    ensures Maps(lay, false) == lay.blockBitmap && Width(lay, false) == lay.bpg
  {
  }

  lemma RecountGroup(lay: Layout, v: Volume, g: nat, i: nat, on: bool, forDirectory: bool)
    requires VolumeOk(lay, v) && g < lay.groups && i < lay.bpg && BitAt(v, lay.blockBitmap[g], i) != on
    ensures Recounted(Primary(lay, v, g), Recount(Primary(lay, v, g), on, forDirectory), false, on)
    ensures on ==> FreeBlocks(lay, v) > 0
  {
    assert GroupOk(lay, v, g);
    CountBounds(lay, v, g, false, i, on);
    RecountIs(Primary(lay, v, g), on, forDirectory);
  }

  lemma RecountIs(bg: BgDescriptor, on: bool, forDirectory: bool)
    requires Fits(bg) && (on ==> bg.freeBlocks > 0) && (!on ==> bg.freeBlocks < 0xFFFF)
    ensures Recounted(bg, Recount(bg, on, forDirectory), false, on)
  {
  }

  /** Writing the bit and then the descriptor copies is one accounting step. */
  lemma StepDone(lay: Layout, v: Volume, v1: Volume, w: Volume, inodes: bool, g: nat, i: nat, on: bool, bg: BgDescriptor)
    requires VolumeOk(lay, v) && LayoutOk(lay, v1) && g < lay.groups && i < Width(lay, inodes)
    requires BitAt(v, Maps(lay, inodes)[g], i) != on && BitSector(v, Maps(lay, inodes)[g], i) < |v.sectors|
    requires v1 == WithSector(v, BitSector(v, Maps(lay, inodes)[g], i), BitSectorData(v, Maps(lay, inodes)[g], i, on))
    requires Fits(bg) && Recounted(Primary(lay, v, g), bg, inodes, on)
    requires DescWritten(lay, v1, w, g, Encode(bg), |lay.tables|)
    ensures AllocStep(lay, v, w, inodes, g, i, on)
    ensures LayoutOk(lay, w) && Primary(lay, w, g) == bg
  {
    BitLeavesTables(lay, v, v1, inodes, g, i, on);
    WriteThenGet(lay, v1, w, g, bg);
    StepBits(lay, v, v1, w, inodes, g, i, on, bg);
    StepFrame(lay, v, v1, w, inodes, g, i, on, bg);
  }

  lemma BitLeavesTables(lay: Layout, v: Volume, v1: Volume, inodes: bool, g: nat, i: nat, on: bool)
    requires VolumeOk(lay, v) && LayoutOk(lay, v1) && g < lay.groups && i < Width(lay, inodes)
    requires BitSector(v, Maps(lay, inodes)[g], i) < |v.sectors|
    requires v1 == WithSector(v, BitSector(v, Maps(lay, inodes)[g], i), BitSectorData(v, Maps(lay, inodes)[g], i, on))
    ensures CopiesOk(lay, v1) && forall h | 0 <= h < lay.groups :: Primary(lay, v1, h) == Primary(lay, v, h)
  {
    var bm := Maps(lay, inodes)[g];
    forall k, h | 0 <= k < |lay.tables| && 0 <= h < lay.groups
      ensures TableSector(v, lay.tables[k], h) < |v.sectors|
      ensures TableSector(v1, lay.tables[k], h) < |v1.sectors|
      ensures DescBytes(v1, lay.tables[k], h) == DescBytes(v, lay.tables[k], h)
    {
      TableSectorIn(lay, v, k, h);
      TableSectorInBlock(v, lay, lay.tables[k], h);
      BitSectorIn(v, bm, i);
      BlocksDisjoint(v, bm, i / 8 / 512, TableBlock(lay, lay.tables[k], h), Mod(h / 16, v.spb));
    }
  }

  lemma StepBit(lay: Layout, v: Volume, v1: Volume, w: Volume, bm: nat, g: nat, i: nat, on: bool, bytes: seq<byte>, c: nat, j: nat)
    requires LayoutOk(lay, v) && LayoutOk(lay, v1) && g < lay.groups && i < 4096 * v.spb && j < 4096 * v.spb
    requires (bm in lay.blockBitmap || bm in lay.inodeBitmap) && (c in lay.blockBitmap || c in lay.inodeBitmap)
    requires BitSector(v, bm, i) < |v.sectors| && v1 == WithSector(v, BitSector(v, bm, i), BitSectorData(v, bm, i, on))
    requires DescWritten(lay, v1, w, g, bytes, |lay.tables|)
    ensures BitAt(w, c, j) == if c == bm && j == i then on else BitAt(v, c, j)
  {
    TablesLeaveBit(lay, v1, w, g, bytes, c, j);
    if c == bm {
      BitWrite(v, bm, i, on, j);
    } else {
      BitSectorIn(v, bm, i);
      BitSectorIn(v, c, j);
      BlocksDisjoint(v, bm, i / 8 / 512, c, j / 8 / 512);
    }
  }

  lemma StepBits(lay: Layout, v: Volume, v1: Volume, w: Volume, inodes: bool, g: nat, i: nat, on: bool, bg: BgDescriptor)
    requires VolumeOk(lay, v) && LayoutOk(lay, v1) && g < lay.groups && i < Width(lay, inodes)
    requires BitSector(v, Maps(lay, inodes)[g], i) < |v.sectors| && Fits(bg)
    requires v1 == WithSector(v, BitSector(v, Maps(lay, inodes)[g], i), BitSectorData(v, Maps(lay, inodes)[g], i, on))
    requires DescWritten(lay, v1, w, g, Encode(bg), |lay.tables|)
    ensures BitsStep(v, w, Maps(lay, inodes), Maps(lay, !inodes), g, i, on)
  {
    hide BitAt, BitSector, BitSectorData, DescWritten, Encode, GroupOk, CopiesOk;
    var bm := Maps(lay, inodes)[g];
    forall c, j | (c in lay.blockBitmap || c in lay.inodeBitmap) && 0 <= j < 4096 * v.spb
      ensures BitAt(w, c, j) == if c == bm && j == i then on else BitAt(v, c, j)
    {
      StepBit(lay, v, v1, w, bm, g, i, on, Encode(bg), c, j);
    }
  }

  lemma TablesLeaveBit(lay: Layout, v: Volume, w: Volume, g: nat, bytes: seq<byte>, bm: nat, j: nat)
    requires LayoutOk(lay, v) && g < lay.groups && DescWritten(lay, v, w, g, bytes, |lay.tables|)
    requires (bm in lay.blockBitmap || bm in lay.inodeBitmap) && j < 4096 * v.spb
    ensures BitAt(w, bm, j) == BitAt(v, bm, j)
  {
    BitSectorIn(v, bm, j);
    forall k | 0 <= k < |lay.tables|
      ensures BitSector(v, bm, j) != TableSector(v, lay.tables[k], g)
    {
      TableSectorInBlock(v, lay, lay.tables[k], g);
      BlocksDisjoint(v, bm, j / 8 / 512, TableBlock(lay, lay.tables[k], g), Mod(g / 16, v.spb));
    }
  }

  lemma StepFrame(lay: Layout, v: Volume, v1: Volume, w: Volume, inodes: bool, g: nat, i: nat, on: bool, bg: BgDescriptor)
    requires VolumeOk(lay, v) && LayoutOk(lay, v1) && g < lay.groups && i < Width(lay, inodes)
    requires BitSector(v, Maps(lay, inodes)[g], i) < |v.sectors| && Fits(bg)
    requires v1 == WithSector(v, BitSector(v, Maps(lay, inodes)[g], i), BitSectorData(v, Maps(lay, inodes)[g], i, on))
    requires DescWritten(lay, v1, w, g, Encode(bg), |lay.tables|)
    ensures forall b | !AccountBlock(lay, b) :: SameBlock(v, w, b)
  {
    var bm := Maps(lay, inodes)[g];
    forall b | !AccountBlock(lay, b)
      ensures SameBlock(v, w, b)
    {
      forall s | BlockStart(v, b) <= s < BlockStart(v, b) + v.spb && InVolume(v, b)
        ensures v.sectors[s] == w.sectors[s]
      {
        var x := s - BlockStart(v, b);
        BitSectorIn(v, bm, i);
        BlocksDisjoint(v, bm, i / 8 / 512, b, x);
        forall k | 0 <= k < |lay.tables|
          ensures s != TableSector(v, lay.tables[k], g)
        {
          TableSectorInBlock(v, lay, lay.tables[k], g);
          BlocksDisjoint(v, TableBlock(lay, lay.tables[k], g), Mod(g / 16, v.spb), b, x);
        }
      }
    }
  }
}
