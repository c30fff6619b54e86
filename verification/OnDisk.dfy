/**
  Where the structures of the filesystem lie, as byte offsets from the start of the partition. Everything the operations
  read and write is placed here without the functions that they compute with.
 */
module OnDisk {
  import opened Bytes
  import opened Powers
  import opened Volumes
  import opened PointerTree
  import opened FileContent
  import opened Handles
  import opened BlockGroups
  import opened Accounting
  import opened Allocator
  import opened InodeAllocator
  import opened InodeRecord
  import opened InodeTable
  import opened Namespace
  import opened BitMasks

  /** Byte `k` of the partition. */
  function ByteOf(v: Volume, k: nat): nat {
    if v.part + k / 512 < |v.sectors| then v.sectors[v.part + k / 512][k % 512] as nat else 0
  }

  /** The little-endian numbers at byte `k`. */
  function Half(v: Volume, k: nat): nat {
    ByteOf(v, k) + 256 * ByteOf(v, k + 1)
  }

  function Whole(v: Volume, k: nat): nat {
    ByteOf(v, k) + 256 * ByteOf(v, k + 1) + 65536 * ByteOf(v, k + 2) + 16777216 * ByteOf(v, k + 3)
  }

  /** The offset of byte `off` of block `b`. */
  function Offset(spb: nat, b: nat, off: nat): nat {
    b * (512 * spb) + off
  }

  /** It is in sector `off / 512` of the block. */
  lemma Place(spb: nat, b: nat, off: nat)
    ensures Offset(spb, b, off) / 512 == b * spb + off / 512 && Offset(spb, b, off) % 512 == off % 512
  {
    assert b * (512 * spb) == b * spb * 512;
    assert b * spb >= 0;
    DivModUnique(b * spb + off / 512, 512, off % 512);
  }

  /** Bytes of one sector lie next to each other. */
  lemma Beside(v: Volume, k: nat, i: nat)
    requires v.part + k / 512 < |v.sectors| && k % 512 + i < 512
    ensures ByteOf(v, k + i) == v.sectors[v.part + k / 512][k % 512 + i] as nat
  {
    Within(k, i);
  }

  lemma HalfAt(v: Volume, k: nat)
    requires v.part + k / 512 < |v.sectors| && k % 512 + 2 <= 512
    ensures LE16(v.sectors[v.part + k / 512][k % 512..k % 512 + 2]) == Half(v, k)
  {
    Beside(v, k, 0);
    Beside(v, k, 1);
  }

  lemma WordAt(v: Volume, k: nat)
    requires v.part + k / 512 < |v.sectors| && k % 512 + 4 <= 512
    ensures LE32(v.sectors[v.part + k / 512][k % 512..k % 512 + 4]) == Whole(v, k)
  {
    hide ByteOf, LE32;
    Beside(v, k, 0);
    Beside(v, k, 1);
    Beside(v, k, 2);
    Beside(v, k, 3);
    LittleEndian(v.sectors[v.part + k / 512][k % 512..k % 512 + 4]);
  }

  lemma LittleEndian(s: seq<byte>)
    requires |s| == 4
    ensures LE32(s) == s[0] as nat + 256 * (s[1] as nat) + 65536 * (s[2] as nat) + 16777216 * (s[3] as nat)
  {
    var low, high := s[..2], s[2..];
    assert low[0] == s[0] && low[1] == s[1] && high[0] == s[2] && high[1] == s[3];
  }

  /** Pointer `a` of the table in block `b` is word `a` of the block. */
  lemma PointerPlace(v: Volume, b: nat, a: nat)
    requires InVolume(v, b) && 4 * a < 512 * v.spb
    ensures Ptr(v, b, a) == Whole(v, Offset(v.spb, b, 4 * a))
  {
    hide Offset, LE32, Whole, Ptr, SectorOf, InVolume;
    PointerSlice(v, b, a);
    Place(v.spb, b, 4 * a);
    WordAt(v, Offset(v.spb, b, 4 * a));
  }

  lemma FourAligned(a: nat)
    ensures 4 * a % 512 == 4 * (a % 128)
  {
  }

  lemma LastSector(off: nat, spb: nat)
    requires off < 512 * spb
    ensures off / 512 < spb
  {
  }

  lemma PointerSlice(v: Volume, b: nat, a: nat)
    requires InVolume(v, b) && 4 * a < 512 * v.spb
    ensures SectorOf(v, b, 4 * a) < |v.sectors| && SectorOf(v, b, 4 * a) == v.part + (b * v.spb + 4 * a / 512)
    ensures 4 * a % 512 + 4 <= 512 && Ptr(v, b, a) == LE32(v.sectors[SectorOf(v, b, 4 * a)][4 * a % 512..4 * a % 512 + 4])
  {
    hide LE32;
    FourAligned(a);
    LastSector(4 * a, v.spb);
  }

  /** Byte `k` of a file is byte `k % bs` of its block `k / bs`. */
  lemma FilePlace(v: Volume, roots: Roots, k: nat)
    requires v.spb > 0 && InVolume(v, LeafAt(v, roots, Div(k, 512 * v.spb)))
    ensures ByteAt(v, roots, k) as nat == ByteOf(v, Offset(v.spb, LeafAt(v, roots, Div(k, 512 * v.spb)), Mod(k, 512 * v.spb)))
  {
    hide LeafAt, Offset;
    DivDiv(k, 512, v.spb);
    DivModUnique(k / 512 % v.spb, 512, k % 512);
    Place(v.spb, LeafAt(v, roots, Div(k, 512 * v.spb)), Mod(k, 512 * v.spb));
  }

  /** Bit `i` of the bitmap in block `bm` is bit `i % 8` of its byte `i / 8`. */
  lemma BitPlace(v: Volume, bm: nat, i: nat)
    requires InVolume(v, bm) && i < 4096 * v.spb
    ensures Power(2, i % 8) > 0
    ensures BitAt(v, bm, i) <==> ByteOf(v, Offset(v.spb, bm, i / 8)) / Power(2, i % 8) % 2 == 1
  {
    hide Bit, Power, Offset;
    Place(v.spb, bm, i / 8);
    BitSectorIn(v, bm, i);
    BitIsDigit(v.sectors[BitSector(v, bm, i)][i / 8 % 512] as nat, i % 8);
  }

  // ----- records of several fields

  lemma Within(k: nat, o: nat)
    requires k % 512 + o < 512
    ensures (k + o) / 512 == k / 512 && (k + o) % 512 == k % 512 + o
  {
    assert k + o == k / 512 * 512 + (k % 512 + o);
    DivModUnique(k / 512, 512, k % 512 + o);
  }

  /** The bytes of a record that lies in one sector. */
  lemma FieldAt(v: Volume, k: nat, n: nat, o: nat)
    requires v.part + k / 512 < |v.sectors| && k % 512 + n <= 512
    ensures o + 2 <= n ==> LE16(v.sectors[v.part + k / 512][k % 512..k % 512 + n][o..o + 2]) == Half(v, k + o)
    ensures o + 4 <= n ==> LE32(v.sectors[v.part + k / 512][k % 512..k % 512 + n][o..o + 4]) == Whole(v, k + o)
  {
    hide LE16, LE32, Half, Whole;
    if o + 2 <= n {
      Within(k, o);
      SubSlice(v.sectors[v.part + k / 512], k % 512, n, o, 2);
      HalfAt(v, k + o);
    }
    if o + 4 <= n {
      Within(k, o);
      SubSlice(v.sectors[v.part + k / 512], k % 512, n, o, 4);
      WordAt(v, k + o);
    }
  }

  /** The descriptor of group `g` is record `g` of 32 bytes behind the superblock in block `table`. */
  lemma DescriptorPlace(v: Volume, table: nat, g: nat)
    requires TableSector(v, table, g) < |v.sectors|
    ensures var at := Offset(v.spb, table + 1, 32 * g);
            var bg := DescAt(v, table, g);
            && bg.blockBitmap == Whole(v, at) && bg.inodeBitmap == Whole(v, at + 4) && bg.inodeTable == Whole(v, at + 8)
            && bg.freeBlocks == Half(v, at + 12) && bg.freeInodes == Half(v, at + 14) && bg.usedDirs == Half(v, at + 16)
  {
    hide LE16, LE32, Half, Whole, Offset, Decode;
    var at := Offset(v.spb, table + 1, 32 * g);
    Place(v.spb, table + 1, 32 * g);
    SixteenPerSector(g);
    var s := DescBytes(v, table, g);
    assert v.part + at / 512 == TableSector(v, table, g) && s == v.sectors[v.part + at / 512][at % 512..at % 512 + 32];
    DescriptorFields(s);
    FieldAt(v, at, 32, 0);
    FieldAt(v, at, 32, 4);
    FieldAt(v, at, 32, 8);
    FieldAt(v, at, 32, 12);
    FieldAt(v, at, 32, 14);
    FieldAt(v, at, 32, 16);
  }

  lemma SixteenPerSector(g: nat)
    ensures 32 * g / 512 == g / 16 && 32 * g % 512 == g % 16 * 32
  {
  }

  lemma DescriptorFields(s: seq<byte>)
    requires |s| == 32
    ensures var bg := Decode(s);
            && bg.blockBitmap == LE32(s[0..4]) && bg.inodeBitmap == LE32(s[4..8]) && bg.inodeTable == LE32(s[8..12])
            && bg.freeBlocks == LE16(s[12..14]) && bg.freeInodes == LE16(s[14..16]) && bg.usedDirs == LE16(s[16..18])
            && bg.pad == LE16(s[18..20]) && bg.rest == s[20..32]
  {
    hide LE16, LE32;
    SubSlice(s, 0, 12, 0, 4);
    SubSlice(s, 0, 12, 4, 4);
    SubSlice(s, 0, 12, 8, 4);
    SubSlice(s, 12, 8, 0, 2);
    SubSlice(s, 12, 8, 2, 2);
    SubSlice(s, 12, 8, 4, 2);
    SubSlice(s, 12, 8, 6, 2);
  }

  /** The offset of the record of an inode: its table, and in it as many records as inodes of the group come before. */
  function RecordOffset(lay: Layout, number: nat): nat
    requires lay.ipg > 0 && number > 0
  {
    var g := Div(number - 1, lay.ipg);
    Offset(lay.spb, if g < |lay.inodeTable| then lay.inodeTable[g] else 0, Mod(number - 1, lay.ipg) * lay.inodeSize)
  }

  lemma RecordSector(lay: Layout, v: Volume, number: nat)
    requires TablesOk(lay) && LayoutOk(lay, v) && InodeExists(lay, number)
    ensures v.part + RecordOffset(lay, number) / 512 == InodeSector(lay, v, number) < |v.sectors|
    ensures RecordOffset(lay, number) % 512 == InodeOffset(lay, number)
  {
    hide Offset, BlockStart, InodeSector, InodeBlock, Div, Mod;
    TableParameters(lay);
    RecordTable(lay, v, number);
    InodeSectorIn(lay, v, number);
    var index := InodeIndex(lay, number);
    var table := lay.inodeTable[InodeGroup(lay, number)];
    RecordBytes(lay.inodeSize, index);
    OpenAddress(lay, v, number);
    Place(lay.spb, table, index * lay.inodeSize);
    StartOf(v, lay, table);
  }

  lemma StartOf(v: Volume, lay: Layout, b: nat)
    requires lay.spb == v.spb
    ensures BlockStart(v, b) == v.part + b * lay.spb
  {
  }

  lemma RecordTable(lay: Layout, v: Volume, number: nat)
    requires TablesOk(lay) && LayoutOk(lay, v) && InodeExists(lay, number)
    ensures InodeGroup(lay, number) < |lay.inodeTable| && lay.spb == v.spb && lay.spb > 0
  {
  }

  /** The fields of an inode by their offsets in its record. */
  lemma InodePlace(lay: Layout, v: Volume, number: nat)
    requires TablesOk(lay) && LayoutOk(lay, v) && InodeExists(lay, number)
    ensures var at := RecordOffset(lay, number);
            var i := InodeAt(lay, v, number);
            && i.mode == Half(v, at) && i.uid == Half(v, at + 2) && i.size == Whole(v, at + 4) && i.atime == Whole(v, at + 8)
            && i.ctime == Whole(v, at + 12) && i.mtime == Whole(v, at + 16) && i.dtime == Whole(v, at + 20) && i.gid == Half(v, at + 24)
            && i.linksCount == Half(v, at + 26) && i.blocks == Whole(v, at + 28) && i.flags == Whole(v, at + 32)
            && (forall k: nat | k < 15 :: i.block[k] == Whole(v, at + 40 + 4 * k))
  {
    hide LE16, LE32, Half, Whole, RecordOffset, DecodeInode, InodeSector, InodeOffset, TablesOk, LayoutOk;
    TableParameters(lay);
    var at := RecordOffset(lay, number);
    RecordSector(lay, v, number);
    var s := v.sectors[v.part + at / 512][at % 512..at % 512 + 128];
    RecordFields(s);
    FieldAt(v, at, 128, 0);
    FieldAt(v, at, 128, 2);
    FieldAt(v, at, 128, 4);
    FieldAt(v, at, 128, 8);
    FieldAt(v, at, 128, 12);
    FieldAt(v, at, 128, 16);
    FieldAt(v, at, 128, 20);
    FieldAt(v, at, 128, 24);
    FieldAt(v, at, 128, 26);
    FieldAt(v, at, 128, 28);
    FieldAt(v, at, 128, 32);
    forall k: nat | k < 15
      ensures LE32(s[40 + 4 * k..44 + 4 * k]) == Whole(v, at + 40 + 4 * k)
    {
      FieldAt(v, at, 128, 40 + 4 * k);
      assert at + (40 + 4 * k) == at + 40 + 4 * k;
    }
  }

  // ----- the bitmaps

  /** Whether bit `i` of the bitmap in block `bm` is set. */
  ghost predicate Marked(v: Volume, bm: nat, i: nat)
    requires v.spb > 0
  {
    Power(2, i % 8) > 0 && ByteOf(v, Offset(v.spb, bm, i / 8)) / Power(2, i % 8) % 2 == 1
  }

  /** Block `b` of a volume is bit `(b - first) % n` of the block bitmap of group `(b - first) / n`. */
  lemma BlockBit(lay: Layout, v: Volume, b: nat)
    requires LayoutOk(lay, v) && b >= lay.firstData && Div(b - lay.firstData, lay.bpg) < lay.groups
    ensures Allocated(lay, v, b) <==>
            Marked(v, lay.blockBitmap[Div(b - lay.firstData, lay.bpg)], Mod(b - lay.firstData, lay.bpg))
  {
    hide Offset, Power, ByteOf, BitAt;
    var g := Div(b - lay.firstData, lay.bpg);
    AccountReserved(lay, v, lay.blockBitmap[g]);
    BitPlace(v, lay.blockBitmap[g], Mod(b - lay.firstData, lay.bpg));
  }

  /** Inode `n` is bit `(n - 1) % m` of the inode bitmap of group `(n - 1) / m`. */
  lemma InodeBit(lay: Layout, v: Volume, n: nat)
    requires Numbered(lay, v, n) && Div(n - 1, lay.ipg) < lay.groups
    ensures InodeTaken(lay, v, n) <==> Marked(v, lay.inodeBitmap[Div(n - 1, lay.ipg)], Mod(n - 1, lay.ipg))
  {
    hide Offset, Power, ByteOf, BitAt;
    var g := Div(n - 1, lay.ipg);
    AccountReserved(lay, v, lay.inodeBitmap[g]);
    BitPlace(v, lay.inodeBitmap[g], Mod(n - 1, lay.ipg));
  }
}
