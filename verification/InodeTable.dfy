/** Where an inode lies on the volume, and the two operations that compute it independently. */
module InodeTable {
  import opened Bytes
  import opened Volumes
  import opened PointerTree
  import opened Handles
  import opened Buffer
  import opened BlockGroups
  import opened Descriptors
  import opened Accounting
  import opened Search
  import opened Growth
  import opened InodeAllocator
  import opened InodeRecord

  /** Record sizes of which a whole number fills a sector. */
  predicate SectorFraction(size: nat) {
    size == 128 || size == 256 || size == 512
  }

  predicate InodeExists(lay: Layout, number: nat) {
    0 < number <= lay.inodesCount
  }

  /** Inode tables lie in structural blocks that hold nothing else. */
  ghost predicate TablesOk(lay: Layout) {
    && SectorFraction(lay.inodeSize) && lay.spb > 0 && lay.ipg > 0 && |lay.inodeTable| == lay.groups
    && (forall n: nat | InodeExists(lay, n) :: InodeGroup(lay, n) < lay.groups)
    && (forall n: nat | InodeExists(lay, n) :: Protected(lay, InodeBlock(lay, n)))
    && (forall m: nat, n: nat | InodeExists(lay, m) && InodeExists(lay, n) ::
          InodeGroup(lay, m) != InodeGroup(lay, n) ==> InodeBlock(lay, m) != InodeBlock(lay, n))
  }

  /** The block of the inode's record, as `flush` divides. */
  function InodeBlock(lay: Layout, number: nat): nat
    requires lay.ipg > 0 && number > 0 && lay.spb > 0 && SectorFraction(lay.inodeSize)
  {
    (if InodeGroup(lay, number) < |lay.inodeTable| then lay.inodeTable[InodeGroup(lay, number)] else 0)
    + Div(InodeIndex(lay, number), PerBlock(lay))
  }

  function PerSector(lay: Layout): (n: nat)
    requires SectorFraction(lay.inodeSize)
    ensures n > 0
  {
    512 / lay.inodeSize
  }

  function PerBlock(lay: Layout): (n: nat)
    requires SectorFraction(lay.inodeSize) && lay.spb > 0
    ensures n > 0
  {
    PerSector(lay) * lay.spb
  }

  /** The sector of the block and the offset in it, as `open` shifts and divides. */
  function InodeSector(lay: Layout, v: Volume, number: nat): nat
    requires lay.ipg > 0 && number > 0 && lay.spb > 0 && SectorFraction(lay.inodeSize)
  {
    BlockStart(v, InodeBlock(lay, number)) + Mod(Div(InodeIndex(lay, number), PerSector(lay)), lay.spb)
  }

  function InodeOffset(lay: Layout, number: nat): (o: nat)
    requires lay.ipg > 0 && number > 0 && SectorFraction(lay.inodeSize)
    ensures o + RECORD <= 512
  {
    InodeIndex(lay, number) % PerSector(lay) * lay.inodeSize
  }

  /** The two address computations meet at the same bytes, for every inode and every size. */
  lemma AddressesMeet(size: nat, spb: nat, index: nat)
    requires SectorFraction(size) && spb > 0
    ensures var k := 512 / size;
            && 512 * spb / size == k * spb
            && index * size % (512 * spb) / 512 == Mod(Div(index, k), spb)
            && index * size % (512 * spb) < 512 * spb
            && index * size % 512 == index % k * size
            && Div(index, k * spb) * spb + Mod(Div(index, k), spb) == index / k
  {
    RecordBytes(size, index);
    SectorInBytes(index * size, spb);
    SectorOfRecord(index, 512 / size, spb);
    BlockRecords(size, spb);
  }

  lemma SectorInBytes(x: nat, spb: nat)
    requires spb > 0
    ensures x % (512 * spb) / 512 == x / 512 % spb && x % (512 * spb) < 512 * spb
  {
    DivDiv(x, 512, spb);
    DivModUnique(x / 512 % spb, 512, x % 512);
  }

  lemma SectorOfRecord(index: nat, k: nat, spb: nat)
    requires k > 0 && spb > 0
    ensures k * spb > 0 && Div(index, k * spb) * spb + Mod(Div(index, k), spb) == index / k
  {
    DivDiv(index, k, spb);
    assert index / k == index / k / spb * spb + index / k % spb;
  }

  lemma BlockRecords(size: nat, spb: nat)
    requires SectorFraction(size)
    ensures 512 * spb / size == 512 / size * spb
  {
    if size == 128 {
    } else if size == 256 {
    } else {
    }
  }

  lemma RecordBytes(size: nat, index: nat)
    requires SectorFraction(size)
    ensures index * size / 512 == index / (512 / size) && index * size % 512 == index % (512 / size) * size
  {
    WithinSector(size, index / (512 / size), index % (512 / size));
  }

  lemma WithinSector(size: nat, s: nat, o: nat)
    requires SectorFraction(size) && o < 512 / size
    ensures (s * (512 / size) + o) * size / 512 == s && (s * (512 / size) + o) * size % 512 == o * size
  {
    if size == 128 {
    } else if size == 256 {
    } else {
    }
  }

  /** The inode with this number, as it is stored. */
  ghost function InodeAt(lay: Layout, v: Volume, number: nat): Inode
    requires TablesOk(lay) && LayoutOk(lay, v) && InodeExists(lay, number)
  {
    InodeSectorIn(lay, v, number);
    DecodeInode(v.sectors[InodeSector(lay, v, number)][InodeOffset(lay, number)..InodeOffset(lay, number) + RECORD])
  }

  lemma InodeSectorIn(lay: Layout, v: Volume, number: nat)
    requires TablesOk(lay) && LayoutOk(lay, v) && InodeExists(lay, number)
    ensures InodeSector(lay, v, number) < |v.sectors| && InVolume(v, InodeBlock(lay, number))
  {
  }

  /** The volume with a record overwritten. */
  ghost function WithInode(lay: Layout, v: Volume, number: nat, inode: Inode): Volume
    requires TablesOk(lay) && LayoutOk(lay, v) && InodeExists(lay, number) && |inode.osd2| == 12
  {
    InodeSectorIn(lay, v, number);
    var s := InodeSector(lay, v, number);
    WithSector(v, s, Patch(v.sectors[s], InodeOffset(lay, number), EncodeInode(inode)))
  }

  /** Different inodes have different records. */
  lemma RecordsDiffer(lay: Layout, v: Volume, m: nat, n: nat)
    requires TablesOk(lay) && LayoutOk(lay, v) && InodeExists(lay, m) && InodeExists(lay, n) && m != n
    ensures InodeSector(lay, v, m) != InodeSector(lay, v, n) ||
            InodeOffset(lay, m) + RECORD <= InodeOffset(lay, n) || InodeOffset(lay, n) + RECORD <= InodeOffset(lay, m)
  {
    hide Div, Mod, BlockStart, InodeGroup, InodeIndex, PerSector, PerBlock, InodeBlock;
    if InodeBlock(lay, m) != InodeBlock(lay, n) {
      BlocksDisjoint(v, InodeBlock(lay, m), Mod(Div(InodeIndex(lay, m), PerSector(lay)), lay.spb),
                     InodeBlock(lay, n), Mod(Div(InodeIndex(lay, n), PerSector(lay)), lay.spb));
    } else {
      SameTable(lay, m, n);
      if InodeIndex(lay, m) % PerSector(lay) != InodeIndex(lay, n) % PerSector(lay) {
        OffsetsDiffer(lay.inodeSize, InodeIndex(lay, m) % PerSector(lay), InodeIndex(lay, n) % PerSector(lay));
      }
    }
  }

  lemma OffsetsDiffer(size: nat, x: nat, y: nat)
    requires SectorFraction(size) && x != y
    ensures x * size + RECORD <= y * size || y * size + RECORD <= x * size
  {
    if x < y {
      BlockGap(size, x, y);
    } else {
      BlockGap(size, y, x);
    }
  }

  /** Two inodes in one block and one sector of it have different places in the sector. */
  lemma SameTable(lay: Layout, m: nat, n: nat)
    requires TablesOk(lay) && InodeExists(lay, m) && InodeExists(lay, n) && m != n
    requires InodeBlock(lay, m) == InodeBlock(lay, n)
    ensures Mod(Div(InodeIndex(lay, m), PerSector(lay)), lay.spb) == Mod(Div(InodeIndex(lay, n), PerSector(lay)), lay.spb) ==>
              InodeIndex(lay, m) % PerSector(lay) != InodeIndex(lay, n) % PerSector(lay)
  {
    var i, j, k := InodeIndex(lay, m), InodeIndex(lay, n), PerSector(lay);
    assert InodeGroup(lay, m) == InodeGroup(lay, n);
    if i == j {
      DivModInjective(m - 1, n - 1, lay.ipg);
    } else if Mod(Div(i, k), lay.spb) == Mod(Div(j, k), lay.spb) && i % k == j % k {
      DivDiv(i, k, lay.spb);
      DivDiv(j, k, lay.spb);
      DivModInjective(Div(i, k), Div(j, k), lay.spb);
      DivModInjective(i, j, k);
    }
  }

  /** After a flush the record holds the inode, and every other inode is as before. */
  lemma FlushedRecord(lay: Layout, v: Volume, number: nat, inode: Inode, other: nat)
    requires TablesOk(lay) && LayoutOk(lay, v) && InodeExists(lay, number) && InodeExists(lay, other) && InodeFits(inode)
    ensures LayoutOk(lay, WithInode(lay, v, number, inode))
    ensures InodeAt(lay, WithInode(lay, v, number, inode), other) == if other == number then inode else InodeAt(lay, v, other)
  {
    hide EncodeInode, DecodeInode, InodeOffset, LayoutOk, BlockStart, Mod, Div;
    InodeSectorIn(lay, v, number);
    InodeSectorIn(lay, v, other);
    var w := WithInode(lay, v, number, inode);
    LayoutSame(lay, v, w);
    SectorSame(lay, v, w, other);
    if other == number {
      InodeRoundTrip(inode);
      RecordSlice(v.sectors[InodeSector(lay, v, number)], InodeOffset(lay, number), EncodeInode(inode), InodeOffset(lay, number));
    } else {
      RecordsDiffer(lay, v, number, other);
      RecordSlice(v.sectors[InodeSector(lay, v, number)], InodeOffset(lay, number), EncodeInode(inode), InodeOffset(lay, other));
    }
  }

  /** Whatever a file does in isolation, no inode record changes. */
  lemma ApartInodes(lay: Layout, v: Volume, used: set<nat>, w: Volume, used': set<nat>, number: nat)
    requires TablesOk(lay) && LayoutOk(lay, v) && InodeExists(lay, number) && Apart(lay, v, used, w, used')
    ensures LayoutOk(lay, w) && InodeAt(lay, w, number) == InodeAt(lay, v, number)
  {
    hide DecodeInode, LayoutOk, ForeignKept, InodeOffset, InodeBlock, AccountBlock, Div, PerSector;
    ApartParts(lay, v, used, w, used');
    LayoutSame(lay, v, w);
    SectorSame(lay, v, w, number);
    SectorInBlock(lay, v, number);
  }

  lemma ApartParts(lay: Layout, v: Volume, used: set<nat>, w: Volume, used': set<nat>)
    requires Apart(lay, v, used, w, used')
    ensures SameShape(v, w) && forall b | Protected(lay, b) :: SameBlock(v, w, b)
  {
  }

  lemma SectorInBlock(lay: Layout, v: Volume, number: nat)
    requires TablesOk(lay) && LayoutOk(lay, v) && InodeExists(lay, number)
    ensures Protected(lay, InodeBlock(lay, number)) && InVolume(v, InodeBlock(lay, number))
    ensures BlockStart(v, InodeBlock(lay, number)) <= InodeSector(lay, v, number) < BlockStart(v, InodeBlock(lay, number)) + v.spb
  {
  }

  lemma SectorSame(lay: Layout, v: Volume, w: Volume, number: nat)
    requires TablesOk(lay) && InodeExists(lay, number) && v.part == w.part && v.spb == w.spb
    ensures InodeSector(lay, v, number) == InodeSector(lay, w, number)
  {
  }

  lemma RecordSlice(s: seq<byte>, x: nat, record: seq<byte>, y: nat)
    requires |s| == 512 && |record| == RECORD && x + RECORD <= 512 && y + RECORD <= 512
    ensures x == y ==> Patch(s, x, record)[y..y + RECORD] == record
    ensures x + RECORD <= y || y + RECORD <= x ==> Patch(s, x, record)[y..y + RECORD] == s[y..y + RECORD]
  {
  }

  // ----- the operations

  lemma GroupTable(lay: Layout, v: Volume, number: nat)
    requires VolumeOk(lay, v) && TablesOk(lay) && InodeExists(lay, number)
    ensures InodeGroup(lay, number) < lay.groups && InodeGroup(lay, number) < |lay.inodeTable|
    ensures LayoutOk(lay, v) && Primary(lay, v, InodeGroup(lay, number)).inodeTable == lay.inodeTable[InodeGroup(lay, number)]
    ensures TableSector(v, lay.tables[0], InodeGroup(lay, number)) < |v.sectors|
    ensures Primary(lay, v, InodeGroup(lay, number)) == DescAt(v, lay.tables[0], InodeGroup(lay, number))
  {
    assert GroupOk(lay, v, InodeGroup(lay, number));
    TableSectorIn(lay, v, 0, InodeGroup(lay, number));
  }

  /** The block and offset that flush computes lead to the record. */
  lemma FlushAddress(lay: Layout, v: Volume, number: nat)
    requires TablesOk(lay) && LayoutOk(lay, v) && InodeExists(lay, number) && InodeGroup(lay, number) < |lay.inodeTable|
    ensures var index := InodeIndex(lay, number);
            var b := lay.inodeTable[InodeGroup(lay, number)] + index / (512 * lay.spb / lay.inodeSize);
            var offset := index * lay.inodeSize % (512 * lay.spb);
            && 512 * lay.spb / lay.inodeSize > 0 && b == InodeBlock(lay, number) && offset < 512 * lay.spb && offset >= 0
            && SectorOf(v, b, offset) == InodeSector(lay, v, number)
            && index * lay.inodeSize >= 0 && index * lay.inodeSize % 512 == InodeOffset(lay, number)
  {
    AddressesMeet(lay.inodeSize, lay.spb, InodeIndex(lay, number));
  }

  /** The sector that open computes by shifting the table to sectors first. */
  lemma OpenAddress(lay: Layout, v: Volume, number: nat)
    requires TablesOk(lay) && LayoutOk(lay, v) && InodeExists(lay, number) && InodeGroup(lay, number) < |lay.inodeTable|
    ensures BlockStart(v, lay.inodeTable[InodeGroup(lay, number)]) + InodeIndex(lay, number) / PerSector(lay) ==
            InodeSector(lay, v, number)
  {
    var index := InodeIndex(lay, number);
    AddressesMeet(lay.inodeSize, lay.spb, index);
    SumTimes(lay.inodeTable[InodeGroup(lay, number)], Div(index, PerBlock(lay)), lay.spb);
  }

  lemma SumTimes(x: nat, y: nat, d: nat)
    ensures (x + y) * d == x * d + y * d
  {
  }

  /** Writes the inode to its record when it was modified. */
  method FlushInode(fe: FileEnt)
    requires fe.Valid() && VolumeOk(fe.context.lay, fe.Logical()) && DirtyOutside(fe) && TablesOk(fe.context.lay)
    requires InodeExists(fe.context.lay, fe.inodeNumber) && InodeFits(fe.inode)
    modifies fe`fsDirty, fe`dirty, fe`lbaBlock, fe.buffer, fe.context.sysbuf, fe.context.device
    ensures fe.Valid() && !fe.fsDirty
    ensures !old(fe.fsDirty) ==> fe.Logical() == old(fe.Logical()) && fe.dirty == old(fe.dirty) && fe.lbaBlock == old(fe.lbaBlock)
    ensures old(fe.fsDirty) ==> !fe.dirty && LayoutOk(fe.context.lay, old(fe.Logical()))
    ensures old(fe.fsDirty) ==>
              fe.Logical() == WithInode(fe.context.lay, old(fe.Logical()), fe.inodeNumber, fe.inode)
  {
    if fe.fsDirty {
      WriteRecord(fe);
      fe.fsDirty := false;
    }
  }

  method WriteRecord(fe: FileEnt)
    requires fe.Valid() && VolumeOk(fe.context.lay, fe.Logical()) && DirtyOutside(fe) && TablesOk(fe.context.lay)
    requires InodeExists(fe.context.lay, fe.inodeNumber) && InodeFits(fe.inode)
    modifies fe`dirty, fe`lbaBlock, fe.buffer, fe.context.sysbuf, fe.context.device
    ensures fe.Valid() && !fe.dirty && LayoutOk(fe.context.lay, old(fe.Logical()))
    ensures fe.Logical() == WithInode(fe.context.lay, old(fe.Logical()), fe.inodeNumber, fe.inode)
  {
    hide VolumeOk, LayoutOk, AccountBlock, TablesOk, InodeBlock, InodeOffset, InodeSector, EncodeInode, Primary, Div, Mod, InVolume,
      SectorOf, FileEnt.Logical, InodeGroup, InodeIndex;
    ghost var v, lay := fe.Logical(), fe.context.lay;
    DeviceAccounts(fe);
    VolumeOkFrame(lay, v, fe.context.Vol());
    TableParameters(lay);
    var group := InodeGroup(fe.context.lay, fe.inodeNumber);
    var index := InodeIndex(fe.context.lay, fe.inodeNumber);
    GroupTable(lay, v, fe.inodeNumber);
    GroupTable(lay, fe.context.Vol(), fe.inodeNumber);
    FlushAddress(lay, v, fe.inodeNumber);
    InodeSectorIn(lay, v, fe.inodeNumber);
    var ok, bg := GetBgDescriptor(fe.context, group);
    var b := bg.inodeTable + index / (512 * fe.context.lay.spb / fe.context.lay.inodeSize);
    StoreBytes(fe, b, index * fe.context.lay.inodeSize % (512 * fe.context.lay.spb), EncodeInode(fe.inode),
               index * fe.context.lay.inodeSize);
  }

  /** Loads the sector with byte `offset` of block `b`, overwrites bytes of it and stores it. */
  method StoreBytes(fe: FileEnt, b: nat, offset: nat, data: seq<byte>, at: nat)
    requires fe.Valid() && InVolume(fe.Logical(), b) && offset < 512 * fe.context.lay.spb && at % 512 + |data| <= 512
    modifies fe`dirty, fe`lbaBlock, fe.buffer, fe.context.device
    ensures fe.Valid() && !fe.dirty && SectorOf(old(fe.Logical()), b, offset) < |old(fe.Logical()).sectors|
    ensures var s := SectorOf(old(fe.Logical()), b, offset);
            fe.Logical() == WithSector(old(fe.Logical()), s, Patch(old(fe.Logical()).sectors[s], at % 512, data))
  {
    var r := LoadBuffer(fe, b, offset);
    WriteBuffer(fe, data, at);
    r := StoreBuffer(fe);
  }

  lemma TableParameters(lay: Layout)
    requires TablesOk(lay)
    ensures SectorFraction(lay.inodeSize) && lay.ipg > 0 && lay.spb > 0
  {
  }

  /** Loads the inode with this number; refused when there is none. */
  method OpenInode(fe: FileEnt, number: nat) returns (r: int)
    requires fe.Valid() && VolumeOk(fe.context.lay, fe.context.Vol()) && TablesOk(fe.context.lay)
    modifies fe`inode, fe`inodeNumber, fe`canWrite, fe`appendMode, fe`fsDirty, fe`cursor, fe.context.sysbuf
    ensures r == if InodeExists(fe.context.lay, number) then 0 else -1
    ensures r == 0 ==> LayoutOk(fe.context.lay, fe.context.Vol())
    ensures r == 0 ==> fe.inode == InodeAt(fe.context.lay, fe.context.Vol(), number) && fe.inodeNumber == number
    ensures r == 0 ==> fe.cursor == 0 && !fe.canWrite && !fe.appendMode && !fe.fsDirty
    ensures r != 0 ==> fe.inode == old(fe.inode)
  {
    if number > fe.context.lay.inodesCount || number == 0 {
      return -1;
    }
    LoadRecord(fe, number);
    fe.inodeNumber := number;
    fe.canWrite, fe.appendMode, fe.fsDirty := false, false, false;
    fe.cursor := 0;
    r := 0;
  }

  method LoadRecord(fe: FileEnt, number: nat)
    requires fe.Valid() && VolumeOk(fe.context.lay, fe.context.Vol()) && TablesOk(fe.context.lay)
    requires InodeExists(fe.context.lay, number)
    modifies fe`inode, fe.context.sysbuf
    ensures LayoutOk(fe.context.lay, fe.context.Vol())
    ensures fe.inode == InodeAt(fe.context.lay, fe.context.Vol(), number)
  {
    hide VolumeOk, LayoutOk, TablesOk, InodeSector, DecodeInode, Primary, InodeGroup, InodeIndex, PerSector;
    ghost var v, lay := fe.context.Vol(), fe.context.lay;
    TableParameters(lay);
    GroupTable(lay, v, number);
    OpenAddress(lay, v, number);
    InodeSectorIn(lay, v, number);
    var group := InodeGroup(fe.context.lay, number);
    var index := InodeIndex(fe.context.lay, number);
    var bgBlock := (fe.context.lay.tables[0] + 1) * fe.context.lay.spb;
    bgBlock := bgBlock + group * 32 / 512;
    var err := fe.context.device.Read(bgBlock + fe.context.lay.part, fe.context.sysbuf);
    DescriptorOffset(group);
    var bg := Decode(fe.context.sysbuf[group * 32 % 512..group * 32 % 512 + 32]);
    var sector := bg.inodeTable * fe.context.lay.spb;
    sector := sector + index / PerSector(fe.context.lay);
    err := fe.context.device.Read(sector + fe.context.lay.part, fe.context.sysbuf);
    var offset := InodeOffset(fe.context.lay, number);
    fe.inode := DecodeInode(fe.context.sysbuf[offset..offset + RECORD]);
  }

  lemma DescriptorOffset(g: nat)
    ensures g * 32 / 512 == g / 16 && g * 32 % 512 == g % 16 * 32
  {
  }
}
