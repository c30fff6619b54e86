/** The mutable objects of the driver: block device, mounted filesystem and open file. */
module Handles {
  import opened Bytes
  import opened Volumes
  import opened PointerTree

  class BlockDevice {
    var sectors: seq<Sector>

    method Read(block: nat, buf: array<byte>) returns (err: int)
      requires buf.Length == 512
      modifies buf
      ensures err == if block < |sectors| then 0 else -1
      ensures buf[..] == if err == 0 then sectors[block] else old(buf[..])
    {
      if block >= |sectors| {
        return -1;
      }
      forall i | 0 <= i < 512 {
        buf[i] := sectors[block][i];
      }
      err := 0;
    }

    method Write(block: nat, buf: array<byte>) returns (err: int)
      requires buf.Length == 512
      modifies this
      ensures err == if block < |old(sectors)| then 0 else -1
      ensures sectors == if err == 0 then old(sectors)[block := buf[..]] else old(sectors)
    {
      if block >= |sectors| {
        return -1;
      }
      sectors := sectors[block := buf[..]];
      err := 0;
    }
  }

  /**
    Where a mounted filesystem keeps its structures. The first group of fields comes from the superblock;
    `tables` is `superblock_blocks`; the bitmap and inode table blocks are those the descriptors name;
    `reserved` holds every block of those structures.
   */
  datatype Layout = Layout(
    part: nat, spb: nat, bpg: nat, ipg: nat, inodeSize: nat, inodesCount: nat, groups: nat, firstData: nat,
    tables: seq<nat>, blockBitmap: seq<nat>, inodeBitmap: seq<nat>, inodeTable: seq<nat>, reserved: set<nat>)

  /** `sizeof(struct superblock)`. */
  const SUPERBLOCK := 264

  class Context {
    const device: BlockDevice
    const sysbuf: array<byte>
    const superblock: seq<byte>
    const lay: Layout
    var freeBlocksCount: nat
    var freeInodesCount: nat

    ghost predicate Valid() {
      sysbuf.Length == 512 && |superblock| == SUPERBLOCK
    }

    function Vol(): Volume
      reads device
    {
      Volume(device.sectors, lay.part, lay.spb)
    }

    constructor (device: BlockDevice, lay: Layout, superblock: seq<byte>, freeBlocks: nat, freeInodes: nat)
      requires |superblock| == SUPERBLOCK
      ensures this.device == device && this.lay == lay && this.superblock == superblock && fresh(sysbuf) && Valid()
      ensures freeBlocksCount == freeBlocks && freeInodesCount == freeInodes
    {
      this.device := device;
      this.lay := lay;
      this.superblock := superblock;
      sysbuf := new byte[512](i => 0);
      freeBlocksCount := freeBlocks;
      freeInodesCount := freeInodes;
    }
  }

  datatype Inode = Inode(
    mode: nat, uid: nat, size: nat, atime: nat, ctime: nat, mtime: nat, dtime: nat, gid: nat, linksCount: nat,
    blocks: nat, flags: nat, osd1: nat, block: Roots, generation: nat, fileAcl: nat, dirAcl: nat, faddr: nat,
    osd2: seq<byte>)

  class FileEnt {
    const context: Context
    const buffer: array<byte>
    var canWrite: bool
    var appendMode: bool
    var fsDirty: bool
    var cursor: int
    var inodeNumber: nat
    var inode: Inode
    var lbaBlock: nat
    var dirty: bool

    ghost predicate Valid()
      reads `dirty, `lbaBlock, context.device
    {
      && context.Valid()
      && buffer.Length == 512
      && buffer != context.sysbuf
      && context.lay.spb > 0
      && (dirty ==> context.lay.part + lbaBlock < |context.device.sectors|)
    }

    /** The volume as the file sees it: the device overlaid with the dirty buffer. */
    ghost function Logical(): (v: Volume)
      ensures v.spb == context.lay.spb && v.part == context.lay.part
      reads `dirty, `lbaBlock, context.device, buffer
    {
      if dirty && buffer.Length == 512 && context.lay.part + lbaBlock < |context.device.sectors| then
        WithSector(context.Vol(), context.lay.part + lbaBlock, buffer[..])
      else context.Vol()
    }

    constructor (context: Context, inode: Inode)
      requires context.Valid()
      ensures this.context == context && this.inode == inode && fresh(buffer) && buffer.Length == 512
      ensures cursor == 0 && !dirty && !canWrite && !appendMode && !fsDirty && inodeNumber == 0 && lbaBlock == 0
    {
      this.context := context;
      this.inode := inode;
      buffer := new byte[512](i => 0);
      canWrite, appendMode, fsDirty := false, false, false;
      cursor, inodeNumber, lbaBlock, dirty := 0, 0, 0, false;
    }
  }
}
