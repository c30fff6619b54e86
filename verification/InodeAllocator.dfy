/** Allocating an inode, and splitting its number back into group and bit. */
module InodeAllocator {
  import opened Bytes
  import opened Volumes
  import opened PointerTree
  import opened Handles
  import opened Buffer
  import opened BlockGroups
  import opened Descriptors
  import opened Accounting
  import opened Allocator
  import opened Search
  import opened Superblocks

  /** Inode numbers start at 1. */
  function NumberOf(lay: Layout, g: nat, bit: nat): nat {
    lay.ipg * g + bit + 1
  }

  function InodeGroup(lay: Layout, number: nat): nat
    requires lay.ipg > 0 && number > 0
  {
    Div(number - 1, lay.ipg)
  }

  function InodeIndex(lay: Layout, number: nat): (i: nat)
    requires lay.ipg > 0 && number > 0
    ensures i < lay.ipg
  {
    Mod(number - 1, lay.ipg)
  }

  /** The number built by the allocator is split by open into the same group and bit. */
  lemma NumberSplits(lay: Layout, g: nat, bit: nat)
    requires bit < lay.ipg
    ensures NumberOf(lay, g, bit) > 0
    ensures InodeGroup(lay, NumberOf(lay, g, bit)) == g && InodeIndex(lay, NumberOf(lay, g, bit)) == bit
  {
    assert lay.ipg * g == g * lay.ipg;
    DivModUnique(g, lay.ipg, bit);
  }

  /** And every inode number of the volume is built from its group and bit. */
  lemma SplitBuilds(lay: Layout, number: nat)
    requires lay.ipg > 0 && number > 0
    ensures NumberOf(lay, InodeGroup(lay, number), InodeIndex(lay, number)) == number
  {
  }

  lemma InodeMaps(lay: Layout)
    ensures Maps(lay, true) == lay.inodeBitmap && Width(lay, true) == lay.ipg
  {
  }

  lemma TakeInodeFacts(lay: Layout, v: Volume, freeBlocks: nat, freeInodes: nat, g: nat)
    requires Consistent(lay, v, freeBlocks, freeInodes) && g < lay.groups
    ensures VolumeOk(lay, v) && LayoutOk(lay, v) && lay.spb > 0 && g < |lay.inodeBitmap| && lay.ipg > 0
    ensures Primary(lay, v, g).inodeBitmap == lay.inodeBitmap[g] && InVolume(v, lay.inodeBitmap[g])
    ensures lay.ipg % 8 == 0 && 0 < lay.ipg / 8 <= 512 * lay.spb
  {
    MapFacts(lay, v, true, g);
  }

  /** The patched byte of the buffer is the patched bit of the bitmap. */
  lemma ByteIsBit(v: Volume, bm: nat, i: nat, j: nat)
    requires j < 8 && SectorOf(v, bm, i) < |v.sectors|
    ensures BitSector(v, bm, 8 * i + j) == SectorOf(v, bm, i)
    ensures var s := v.sectors[SectorOf(v, bm, i)];
            Patch(s, i % 512, [SetBit(s[i % 512], j, true)]) == BitSectorData(v, bm, 8 * i + j, true)
  {
    assert (8 * i + j) / 8 == i && (8 * i + j) % 8 == j;
  }

  /** Sets bit `8 * i + j` of the bitmap sector in the buffer and stores it. */
  method MarkInode(fe: FileEnt, bm: nat, i: nat, j: nat, b: byte)
    requires fe.Valid() && Holds(fe, fe.Logical(), bm, i) && b == fe.buffer[i % 512] && j < 8
    modifies fe`dirty, fe.buffer, fe.context.device
    ensures fe.Valid() && !fe.dirty && BitSector(old(fe.Logical()), bm, 8 * i + j) < |old(fe.Logical()).sectors|
    ensures fe.context.Vol() == WithSector(old(fe.Logical()), BitSector(old(fe.Logical()), bm, 8 * i + j),
                                           BitSectorData(old(fe.Logical()), bm, 8 * i + j, true))
  {
    ByteIsBit(fe.Logical(), bm, i, j);
    WriteBuffer(fe, [SetBit(b, j, true)], i);
    var r := StoreBuffer(fe);
  }

  lemma InodeStepDone(lay: Layout, v: Volume, v1: Volume, w: Volume, g: nat, i: nat, freeBlocks: nat, freeInodes: nat)
    requires Consistent(lay, v, freeBlocks, freeInodes) && g < lay.groups && i < lay.ipg && LayoutOk(lay, v1)
    requires !BitAt(v, lay.inodeBitmap[g], i) && BitSector(v, lay.inodeBitmap[g], i) < |v.sectors|
    requires v1 == WithSector(v, BitSector(v, lay.inodeBitmap[g], i), BitSectorData(v, lay.inodeBitmap[g], i, true))
    requires DescWritten(lay, v1, w, g, Encode(TakeInode(Primary(lay, v, g))), |lay.tables|)
    ensures AllocStep(lay, v, w, true, g, i, true)
    ensures freeInodes > 0 && Consistent(lay, w, freeBlocks, freeInodes - 1) && LayoutOk(lay, w)
  {
    hide LayoutOk, CopiesOk, GroupOk, Primary, DescWritten, Encode, BitSectorData, BitAt, BitSector, Maps, Width;
    InodeMaps(lay);
    InodeCounted(lay, v, g, i);
    StepDone(lay, v, v1, w, true, g, i, true, TakeInode(Primary(lay, v, g)));
    StepKeepsVolume(lay, v, w, true, g, i, true);
  }

  lemma InodeCounted(lay: Layout, v: Volume, g: nat, i: nat)
    requires VolumeOk(lay, v) && g < lay.groups && i < lay.ipg && !BitAt(v, lay.inodeBitmap[g], i)
    ensures Recounted(Primary(lay, v, g), TakeInode(Primary(lay, v, g)), true, true)
    ensures FreeInodes(lay, v) > 0
  {
    hide ClearBits, Total, BitAt, LayoutOk, CopiesOk, TakeInode, Recounted, Maps, Width;
    assert GroupOk(lay, v, g);
    InodeMaps(lay);
    CountBounds(lay, v, g, true, i, true);
    GroupCount(lay, v);
    TakeInodeIs(Primary(lay, v, g));
  }

  lemma GroupCount(lay: Layout, v: Volume)
    requires VolumeOk(lay, v)
    ensures |lay.inodeBitmap| == lay.groups
  {
  }

  lemma TakeInodeIs(bg: BgDescriptor)
    requires Fits(bg) && bg.freeInodes > 0
    ensures Recounted(bg, TakeInode(bg), true, true)
  {
  }

  /** One inode fewer, in 16 bits. */
  function TakeInode(bg: BgDescriptor): (bg': BgDescriptor)
    ensures Fits(bg) ==> Fits(bg')
  {
    bg.(freeInodes := (bg.freeInodes + 0xFFFF) % 0x1_0000)
  }

  /**
    Allocates the lowest free inode of the group with the most. It fails exactly when the volume has no free inode:
    the search that follows a positive count always finds a clear bit.
   */
  method AllocateInode(fe: FileEnt) returns (r: int)
    requires fe.Valid() && Mounted(fe.context, fe.Logical()) && DirtyOutside(fe)
    modifies fe`inodeNumber, fe`dirty, fe`lbaBlock, fe.buffer, fe.context, fe.context.sysbuf, fe.context.device
    ensures fe.Valid() && Mounted(fe.context, fe.Logical())
    ensures r == if old(fe.context.freeInodesCount) == 0 then -1 else 0
    ensures r != 0 ==> fe.Logical() == old(fe.Logical()) && fe.inodeNumber == old(fe.inodeNumber) && fe.dirty == old(fe.dirty)
    ensures r == 0 ==> !fe.dirty && NewInode(fe.context.lay, old(fe.Logical()), fe.Logical(), fe.inodeNumber)
    ensures fe.context.freeInodesCount == old(fe.context.freeInodesCount) - (if r == 0 then 1 else 0)
    ensures fe.context.freeBlocksCount == old(fe.context.freeBlocksCount)
    ensures r == 0 ==> CopiesCurrent(fe.context)
  {
    hide CopiesCurrent, VolumeOk, Total, BestGroup, Maps, Width, DirtyOutside, FileEnt.Logical, Primary, NewInode;
    InodeMaps(fe.context.lay);
    var best, g, bg := ChooseGroup(fe, true);
    if best == 0 {
      return -1;
    }
    TakeInodeIn(fe, g, bg);
    r := 0;
  }

  /** `number` was the best free inode and is now allocated. */
  ghost predicate NewInode(lay: Layout, v: Volume, w: Volume, number: nat) {
    && number > 0 && lay.ipg > 0
    && BestBit(v, lay.inodeBitmap, lay.ipg, InodeGroup(lay, number), InodeIndex(lay, number))
    && AllocStep(lay, v, w, true, InodeGroup(lay, number), InodeIndex(lay, number), true)
  }

  method TakeInodeIn(fe: FileEnt, g: nat, bg: BgDescriptor)
    requires fe.Valid() && Mounted(fe.context, fe.Logical()) && g < fe.context.lay.groups
    requires bg == Primary(fe.context.lay, fe.Logical(), g)
    requires BestGroup(fe.Logical(), Maps(fe.context.lay, true), Width(fe.context.lay, true), g)
    modifies fe`inodeNumber, fe`dirty, fe`lbaBlock, fe.buffer, fe.context, fe.context.sysbuf, fe.context.device
    ensures fe.Valid() && Mounted(fe.context, fe.Logical())
    ensures !fe.dirty && NewInode(fe.context.lay, old(fe.Logical()), fe.Logical(), fe.inodeNumber)
    ensures fe.context.freeInodesCount == old(fe.context.freeInodesCount) - 1
    ensures fe.context.freeBlocksCount == old(fe.context.freeBlocksCount)
    ensures CopiesCurrent(fe.context)
  {
    hide CopiesCurrent, Consistent, LayoutOk, AllocStep, Flushed, Maps, Width, NumberOf, InodeGroup, InodeIndex, BestGroup, Holds, Primary, BitAt, AllSet,
      DescWritten, Encode, BitSector, BitSectorData, TakeInode;
    ghost var v := fe.Logical();
    ghost var lay := fe.context.lay;
    InodeMaps(lay);
    TakeInodeFacts(lay, v, fe.context.freeBlocksCount, fe.context.freeInodesCount, g);
    var i, j, b := ChooseBit(fe, true, g, bg.inodeBitmap, fe.context.lay.ipg);
    fe.inodeNumber := NumberOf(fe.context.lay, g, i * 8 + j);
    NumberSplits(lay, g, 8 * i + j);
    MarkInode(fe, bg.inodeBitmap, i, j, b);
    ghost var v1 := fe.context.Vol();
    LayoutSame(lay, v, v1);
    var r := WriteBgDescriptor(fe.context, TakeInode(bg), g);
    InodeStepDone(lay, v, v1, fe.context.Vol(), g, 8 * i + j, fe.context.freeBlocksCount, fe.context.freeInodesCount);
    ghost var x := fe.context.Vol();
    fe.context.freeInodesCount := fe.context.freeInodesCount - 1;
    r := FlushSuperblock(fe.context);
    InodeStepFlushed(lay, v, x, fe.context.Vol(), fe.context.superblock, fe.context.freeBlocksCount, fe.context.freeInodesCount,
                     g, 8 * i + j);
  }

  lemma InodeStepFlushed(lay: Layout, v: Volume, x: Volume, w: Volume, record: seq<byte>, freeBlocks: nat, freeInodes: nat, g: nat, i: nat)
    requires VolumeOk(lay, v) && AllocStep(lay, v, x, true, g, i, true) && Consistent(lay, x, freeBlocks, freeInodes)
    requires |record| == SUPERBLOCK && Flushed(lay, x, w, record, freeBlocks, freeInodes, |lay.tables|)
    ensures AllocStep(lay, v, w, true, g, i, true) && Consistent(lay, w, freeBlocks, freeInodes)
  {
    hide LayoutOk, AllocStep, Flushed;
    FlushInStep(lay, v, x, w, record, freeBlocks, freeInodes, g, i, true);
  }
}
