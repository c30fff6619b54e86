/** Choosing a free block or inode: the fullest-of-free group, then the lowest clear bit of its bitmap. */
module Search {
  import opened Bytes
  import opened Volumes
  import opened Handles
  import opened Buffer
  import opened BlockGroups
  import opened Descriptors
  import opened Accounting
  import opened Allocator

  /** A modified sector that is still in the buffer is not part of a bitmap or descriptor table. */
  ghost predicate DirtyOutside(fe: FileEnt)
    reads fe`dirty, fe`lbaBlock
  {
    fe.dirty ==> forall b: nat | AccountBlock(fe.context.lay, b) ::
      !(b * fe.context.lay.spb <= fe.lbaBlock < b * fe.context.lay.spb + fe.context.lay.spb)
  }

  lemma DeviceAccounts(fe: FileEnt)
    requires fe.Valid() && DirtyOutside(fe)
    ensures SameShape(fe.Logical(), fe.context.Vol())
    ensures forall b | AccountBlock(fe.context.lay, b) :: SameBlock(fe.Logical(), fe.context.Vol(), b)
  {
  }

  function CountOf(bg: BgDescriptor, inodes: bool): nat {
    if inodes then bg.freeInodes else bg.freeBlocks
  }

  /** The first group with the largest free count, and that count. */
  method MostFree(ctx: Context, inodes: bool) returns (best: nat, group: nat)
    requires ctx.Valid() && LayoutOk(ctx.lay, ctx.Vol()) && ctx.lay.groups > 0
    modifies ctx.sysbuf
    ensures group < ctx.lay.groups
    ensures forall h | 0 <= h < ctx.lay.groups :: CountOf(Primary(ctx.lay, ctx.Vol(), h), inodes) <= best
    ensures best > 0 ==> CountOf(Primary(ctx.lay, ctx.Vol(), group), inodes) == best
    ensures forall h | 0 <= h < group :: CountOf(Primary(ctx.lay, ctx.Vol(), h), inodes) < best
  {
    hide LayoutOk, DescAt, DescBytes, TableSector;
    best, group := 0, 0;
    ghost var v := ctx.Vol();
    for i := 0 to ctx.lay.groups
      invariant group < ctx.lay.groups && (best == 0 ==> group == 0) && (best > 0 ==> group < i)
      invariant forall h | 0 <= h < i :: CountOf(Primary(ctx.lay, v, h), inodes) <= best
      invariant best > 0 ==> CountOf(Primary(ctx.lay, v, group), inodes) == best
      invariant forall h | 0 <= h < group :: CountOf(Primary(ctx.lay, v, h), inodes) < best
    {
      var ok, bg := GetBgDescriptor(ctx, i);
      if best < CountOf(bg, inodes) {
        best := CountOf(bg, inodes);
        group := i;
      }
    }
  }

  lemma BitOfByte(v: Volume, bm: nat, i: nat, j: nat)
    requires j < 8 && SectorOf(v, bm, i) < |v.sectors|
    ensures BitAt(v, bm, 8 * i + j) == Bit(v.sectors[SectorOf(v, bm, i)][i % 512] as nat, j)
  {
    assert (8 * i + j) / 8 == i && (8 * i + j) % 8 == j;
  }

  ghost predicate AllSet(v: Volume, bm: nat, k: nat) {
    forall i | 0 <= i < k :: BitAt(v, bm, i)
  }

  lemma ByteSet(v: Volume, bm: nat, i: nat, b: nat, j: nat)
    requires SectorOf(v, bm, i) < |v.sectors| && b == v.sectors[SectorOf(v, bm, i)][i % 512] as nat
    requires AllSet(v, bm, 8 * i) && j <= 8
    requires forall k: nat | k < j :: Bit(b, k)
    ensures AllSet(v, bm, 8 * i + j)
  {
    forall k | 8 * i <= k < 8 * i + j
      ensures BitAt(v, bm, k)
    {
      BitOfByte(v, bm, i, k - 8 * i);
    }
  }

  /** The bit loop: the first `j` with `b & (1 << j)` clear. */
  method LowestClear(b: nat) returns (j: nat)
    ensures j <= 8 && (forall k: nat | k < j :: Bit(b, k)) && (j < 8 ==> !Bit(b, j))
  {
    j := 0;
    while j < 8 && Bit(b, j)
      invariant j <= 8
      invariant forall k: nat | k < j :: Bit(b, k)
    {
      j := j + 1;
    }
  }

  /** The buffer of `fe` holds the sector with byte `i` of bitmap `bm`, unmodified. */
  ghost predicate Holds(fe: FileEnt, v: Volume, bm: nat, i: nat)
    reads fe`dirty, fe`lbaBlock, fe.buffer
  {
    && !fe.dirty && fe.buffer.Length == 512
    && fe.lbaBlock == bm * fe.context.lay.spb + i / 512
    && SectorOf(v, bm, i) < |v.sectors| && fe.buffer[..] == v.sectors[SectorOf(v, bm, i)]
  }

  /** The lowest clear bit `8 * i + j` of the first `count` bytes of a bitmap, if there is one. */
  method FindClear(fe: FileEnt, bm: nat, count: nat) returns (i: nat, j: nat, b: byte)
    requires fe.Valid() && InVolume(fe.Logical(), bm) && 0 < count <= 512 * fe.context.lay.spb
    modifies fe`dirty, fe`lbaBlock, fe.buffer, fe.context.device
    ensures fe.Valid() && !fe.dirty && fe.Logical() == old(fe.Logical())
    ensures i <= count && j <= 8 && (j == 8 <==> i == count)
    ensures AllSet(fe.Logical(), bm, if i == count then 8 * count else 8 * i + j)
    ensures i < count ==>
              !BitAt(fe.Logical(), bm, 8 * i + j) && Holds(fe, fe.Logical(), bm, i) && b == fe.buffer[i % 512]
  {
    ghost var v := fe.Logical();
    i, j, b := 0, 8, 0;
    while i < count
      invariant i <= count && fe.Valid() && fe.Logical() == v && (i > 0 ==> !fe.dirty)
      invariant j == 8
      invariant AllSet(v, bm, 8 * i)
    {
      var r := LoadBuffer(fe, bm, i);
      var bytes := ReadBuffer(fe, i, 1);
      b := bytes[0];
      j := LowestClear(b as nat);
      ByteSet(v, bm, i, b as nat, j);
      if j < 8 {
        BitOfByte(v, bm, i, j);
        return;
      }
      i := i + 1;
    }
  }

  // ----- blocks

  /** Clear bits stand for blocks that may hold file data. */
  ghost predicate FreeUsable(lay: Layout, v: Volume) {
    forall g, i | 0 <= g < |lay.blockBitmap| && 0 <= i < lay.bpg && !BitAt(v, lay.blockBitmap[g], i) ::
      Usable(lay, v, BlockOf(lay, g, i))
  }

  ghost predicate Usable(lay: Layout, v: Volume, b: nat) {
    b != 0 && b < 0x1_0000_0000 && b !in lay.reserved && InVolume(v, b)
  }

  /** `g` is the first bitmap of `maps` with the most clear bits, and there is one. */
  ghost predicate BestGroup(v: Volume, maps: seq<nat>, width: nat, g: nat) {
    && g < |maps| && ClearBits(v, maps[g], width) > 0
    && (forall h | 0 <= h < |maps| :: ClearBits(v, maps[h], width) <= ClearBits(v, maps[g], width))
    && (forall h | 0 <= h < g :: ClearBits(v, maps[h], width) < ClearBits(v, maps[g], width))
  }

  /** Bit `i` is the lowest clear bit of the best group. */
  ghost predicate BestBit(v: Volume, maps: seq<nat>, width: nat, g: nat, i: nat) {
    BestGroup(v, maps, width, g) && i < width && !BitAt(v, maps[g], i) && AllSet(v, maps[g], i)
  }

  lemma {:induction false} NoneFree(v: Volume, maps: seq<nat>, k: nat, bits: nat)
    requires k <= |maps| && forall h | 0 <= h < k :: ClearBits(v, maps[h], bits) == 0
    ensures Total(v, maps, k, bits) == 0
  {
    if k > 0 {
      NoneFree(v, maps, k - 1, bits);
    }
  }

  /** A group that counts a clear bit has one, so the search cannot end without it. */
  lemma SearchSucceeds(v: Volume, bm: nat, width: nat, i: nat, j: nat)
    requires width % 8 == 0 && ClearBits(v, bm, width) > 0
    requires i <= width / 8 && AllSet(v, bm, if i == width / 8 then 8 * (width / 8) else 8 * i + j)
    ensures i < width / 8
  {
    ClearBitsPositive(v, bm, width);
  }

  lemma VolumeLayout(lay: Layout, v: Volume, w: Volume)
    requires VolumeOk(lay, v) && SameShape(v, w)
    ensures LayoutOk(lay, v) && LayoutOk(lay, w) && lay.groups > 0
  {
  }

  lemma ChoiceIsBest(lay: Layout, v: Volume, w: Volume, inodes: bool, best: nat, g: nat)
    requires VolumeOk(lay, v) && SameShape(v, w) && LayoutOk(lay, w) && g < lay.groups
    requires forall b | AccountBlock(lay, b) :: SameBlock(v, w, b)
    requires forall h | 0 <= h < lay.groups :: CountOf(Primary(lay, w, h), inodes) <= best
    requires best > 0 ==> CountOf(Primary(lay, w, g), inodes) == best
    requires forall h | 0 <= h < g :: CountOf(Primary(lay, w, h), inodes) < best
    ensures Primary(lay, w, g) == Primary(lay, v, g)
    ensures best == 0 <==> Total(v, Maps(lay, inodes), |Maps(lay, inodes)|, Width(lay, inodes)) == 0
    ensures best > 0 ==> BestGroup(v, Maps(lay, inodes), Width(lay, inodes), g)
  {
    VolumeOkFrame(lay, v, w);
    forall h | 0 <= h < lay.groups
      ensures CountOf(Primary(lay, w, h), inodes) == ClearBits(v, Maps(lay, inodes)[h], Width(lay, inodes))
    {
      assert GroupOk(lay, v, h);
    }
    if best == 0 {
      NoneFree(v, Maps(lay, inodes), lay.groups, Width(lay, inodes));
    } else {
      TotalBound(v, Maps(lay, inodes), lay.groups, Width(lay, inodes), g);
    }
  }

  /** The group to allocate from; `best` is zero exactly when nothing is free. */
  method ChooseGroup(fe: FileEnt, inodes: bool) returns (best: nat, g: nat, bg: BgDescriptor)
    requires fe.Valid() && VolumeOk(fe.context.lay, fe.Logical()) && DirtyOutside(fe)
    modifies fe.context.sysbuf
    ensures best == 0 <==> Total(fe.Logical(), Maps(fe.context.lay, inodes), |Maps(fe.context.lay, inodes)|, Width(fe.context.lay, inodes)) == 0
    ensures g < fe.context.lay.groups && bg == Primary(fe.context.lay, fe.Logical(), g)
    ensures best > 0 ==> BestGroup(fe.Logical(), Maps(fe.context.lay, inodes), Width(fe.context.lay, inodes), g)
  {
    hide VolumeOk, LayoutOk, Primary, CountOf, Maps, Width, BestGroup, Total, AccountBlock, SameBlock;
    ghost var v, w := fe.Logical(), fe.context.Vol();
    DeviceAccounts(fe);
    VolumeLayout(fe.context.lay, v, w);
    best, g := MostFree(fe.context, inodes);
    var ok;
    ok, bg := GetPrimary(fe.context, g);
    ChoiceIsBest(fe.context.lay, v, w, inodes, best, g);
  }

  method GetPrimary(ctx: Context, g: nat) returns (r: int, bg: BgDescriptor)
    requires ctx.Valid() && LayoutOk(ctx.lay, ctx.Vol()) && g < ctx.lay.groups
    modifies ctx.sysbuf
    ensures r == 0 && bg == Primary(ctx.lay, ctx.Vol(), g)
  {
    r, bg := GetBgDescriptor(ctx, g);
  }

  function MapOf(bg: BgDescriptor, inodes: bool): nat {
    if inodes then bg.inodeBitmap else bg.blockBitmap
  }

  lemma MapFacts(lay: Layout, v: Volume, inodes: bool, g: nat)
    requires VolumeOk(lay, v) && g < lay.groups
    ensures g < |Maps(lay, inodes)| && MapOf(Primary(lay, v, g), inodes) == Maps(lay, inodes)[g]
    ensures InVolume(v, Maps(lay, inodes)[g])
    ensures Width(lay, inodes) % 8 == 0 && 0 < Width(lay, inodes) / 8 <= 512 * lay.spb
  {
    assert GroupOk(lay, v, g);
  }

  /** The lowest clear bit of the chosen group. */
  method ChooseBit(fe: FileEnt, inodes: bool, g: nat, bm: nat, width: nat) returns (i: nat, j: nat, b: byte)
    requires fe.Valid() && fe.context.lay.spb > 0 && InVolume(fe.Logical(), bm)
    requires width % 8 == 0 && 0 < width / 8 <= 512 * fe.context.lay.spb
    requires BestGroup(fe.Logical(), Maps(fe.context.lay, inodes), width, g) && bm == Maps(fe.context.lay, inodes)[g]
    modifies fe`dirty, fe`lbaBlock, fe.buffer, fe.context.device
    ensures fe.Valid() && fe.Logical() == old(fe.Logical())
    ensures j < 8 && BestBit(fe.Logical(), Maps(fe.context.lay, inodes), width, g, 8 * i + j)
    ensures Holds(fe, fe.Logical(), bm, i) && b == fe.buffer[i % 512]
  {
    hide FileEnt.Logical, Holds, Maps, AllSet, BitAt, InVolume;
    i, j, b := FindClear(fe, bm, width / 8);
    SearchSucceeds(fe.Logical(), bm, width, i, j);
  }

  /** Allocates the lowest free block of the group with the most; 0 when the volume is full. */
  method AllocateBlock(fe: FileEnt) returns (block: nat)
    requires fe.Valid() && Mounted(fe.context, fe.Logical()) && DirtyOutside(fe) && FreeUsable(fe.context.lay, fe.Logical())
    modifies fe`dirty, fe`lbaBlock, fe.buffer, fe.context, fe.context.sysbuf, fe.context.device
    ensures fe.Valid() && Mounted(fe.context, fe.Logical())
    ensures block == 0 <==> old(fe.context.freeBlocksCount) == 0
    ensures block == 0 ==> fe.Logical() == old(fe.Logical()) && fe.dirty == old(fe.dirty) && fe.lbaBlock == old(fe.lbaBlock)
    ensures block != 0 ==> !fe.dirty && NewBlock(fe.context.lay, old(fe.Logical()), fe.Logical(), block)
    ensures block != 0 ==>
              DirsChange(fe.context.lay, old(fe.Logical()), fe.Logical(), [block], if fe.inode.mode / 0x4000 % 2 == 1 then 1 else 0)
    ensures fe.context.freeBlocksCount == old(fe.context.freeBlocksCount) - (if block == 0 then 0 else 1)
  {
    hide VolumeOk, Total, BestGroup, Maps, Width, FreeUsable, DirtyOutside, FileEnt.Logical, Primary, NewBlock, DirsChange;
    BlockMaps(fe.context.lay);
    var best, g, bg := ChooseGroup(fe, false);
    if best == 0 {
      return 0;
    }
    block := TakeBlock(fe, g, bg);
  }

  /** The test `i_mode & S_IFDIR`. */
  predicate IsDirectory(inode: Inode) {
    inode.mode / 0x4000 % 2 == 1
  }

  /** The second half of `AllocateBlock`: takes the lowest free block of group `g`. */
  method TakeBlock(fe: FileEnt, g: nat, bg: BgDescriptor) returns (block: nat)
    requires fe.Valid() && Mounted(fe.context, fe.Logical()) && FreeUsable(fe.context.lay, fe.Logical())
    requires g < fe.context.lay.groups && bg == Primary(fe.context.lay, fe.Logical(), g)
    requires BestGroup(fe.Logical(), Maps(fe.context.lay, false), Width(fe.context.lay, false), g)
    modifies fe`dirty, fe`lbaBlock, fe.buffer, fe.context, fe.context.sysbuf, fe.context.device
    ensures fe.Valid() && Mounted(fe.context, fe.Logical())
    ensures block != 0 && !fe.dirty && NewBlock(fe.context.lay, old(fe.Logical()), fe.Logical(), block)
    ensures DirsChange(fe.context.lay, old(fe.Logical()), fe.Logical(), [block], if fe.inode.mode / 0x4000 % 2 == 1 then 1 else 0)
    ensures fe.context.freeBlocksCount == old(fe.context.freeBlocksCount) - 1
  {
    hide Consistent, LayoutOk, BestBit, AllocStep, FreeUsable, Usable, Allocated, Maps, Width, BlockOf, GroupOf, BitOf,
      InGroups, BestGroup, DirsChange;
    ghost var v := fe.Logical();
    ghost var lay := fe.context.lay;
    TakeFacts(lay, v, fe.context.freeBlocksCount, fe.context.freeInodesCount, g);
    var i, j, b := ChooseBit(fe, false, g, bg.blockBitmap, Width(fe.context.lay, false));
    block := BlockOf(fe.context.lay, g, i * 8 + j);
    PickedBlock(lay, v, g, 8 * i + j);
    assert fe.context.Vol() == v;
    var r := ChangeAllocated(fe.context, block, true, IsDirectory(fe.inode));
    assert fe.Logical() == fe.context.Vol();
  }

  lemma TakeFacts(lay: Layout, v: Volume, freeBlocks: nat, freeInodes: nat, g: nat)
    requires Consistent(lay, v, freeBlocks, freeInodes) && g < lay.groups
    ensures VolumeOk(lay, v) && lay.spb > 0 && Maps(lay, false) == lay.blockBitmap && g < |lay.blockBitmap|
    ensures Primary(lay, v, g).blockBitmap == lay.blockBitmap[g] && InVolume(v, lay.blockBitmap[g])
    ensures Width(lay, false) % 8 == 0 && 0 < Width(lay, false) / 8 <= 512 * lay.spb
  {
    MapFacts(lay, v, false, g);
  }

  lemma PickedBlock(lay: Layout, v: Volume, g: nat, i: nat)
    requires VolumeOk(lay, v) && FreeUsable(lay, v) && BestBit(v, Maps(lay, false), Width(lay, false), g, i)
    ensures var block := BlockOf(lay, g, i);
            && InGroups(lay, block) && Usable(lay, v, block) && block != 0 && !Allocated(lay, v, block)
            && BestBit(v, lay.blockBitmap, lay.bpg, GroupOf(lay, block), BitOf(lay, block))
  {
    BlockOfBit(lay, g, i);
    assert Usable(lay, v, BlockOf(lay, g, i));
  }

  /** `block` was the best free block and is now allocated; it may hold file data. */
  ghost predicate NewBlock(lay: Layout, v: Volume, w: Volume, block: nat) {
    && InGroups(lay, block) && Usable(lay, v, block)
    && BestBit(v, lay.blockBitmap, lay.bpg, GroupOf(lay, block), BitOf(lay, block))
    && AllocStep(lay, v, w, false, GroupOf(lay, block), BitOf(lay, block), true)
  }
}
