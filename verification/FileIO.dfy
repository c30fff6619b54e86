/** read, write and lseek on an open file, against a byte sequence with a cursor. */
module FileIO {
  import opened Bytes
  import opened Volumes
  import opened PointerTree
  import opened BlockMap
  import opened FileContent
  import opened Handles
  import opened Buffer
  import opened Allocator
  import Search
  import opened Growth
  import opened SelectBlock
  import opened FlatFile

  /** Every byte below `size` lies in a block that is present. */
  ghost predicate Mapped(v: Volume, roots: Roots, size: nat)
    requires v.spb > 0
  {
    forall k: nat | k < size :: LeafAt(v, roots, Div(k / 512, v.spb)) != 0
  }

  /** Every byte in the range has a slot for its block. */
  ghost predicate Slots(v: Volume, roots: Roots, from: nat, to: nat)
    requires v.spb > 0
  {
    forall k: nat | from <= k < to :: HasSlot(v, roots, Div(k / 512, v.spb))
  }

  /** An open file all of whose bytes are mapped; `size` and `cursor` have their C types. */
  ghost predicate Open(fe: FileEnt, used: set<nat>)
    reads fe`dirty, fe`lbaBlock, fe`cursor, fe`inode, fe.context, fe.context.device, fe.buffer
  {
    && fe.context.lay.spb > 0 && Ready(fe, used) && Mapped(fe.Logical(), fe.inode.block, fe.inode.size)
    && fe.inode.size < WORD && 0 <= fe.cursor <= INT64_MAX
  }

  /** The file as a byte sequence with a cursor. */
  ghost function Abstract(fe: FileEnt): Flat
    requires fe.cursor >= 0 && fe.context.lay.spb > 0
    reads fe`dirty, fe`lbaBlock, fe`cursor, fe`inode, fe.context.device, fe.buffer
  {
    Flat(Content(fe.Logical(), fe.inode.block, fe.inode.size), fe.cursor)
  }

  function Min(a: nat, b: nat): nat {
    if a < b then a else b
  }

  /** The bytes left in the 512-byte buffer from the cursor on. */
  function BufferSpace(cursor: nat): nat {
    512 - cursor % 512
  }

  /** They end with the sector. */
  lemma SectorEnd(cursor: nat)
    ensures 0 < BufferSpace(cursor) <= 512 && (cursor + BufferSpace(cursor)) % 512 == 0
  {
  }

  /** Bytes `cursor` .. `cursor + n` of the file are a slice of one sector. */
  lemma ChunkInSector(v: Volume, roots: Roots, cursor: nat, n: nat)
    requires v.spb > 0 && n <= BufferSpace(cursor) && FileSector(v, roots, cursor / 512) < |v.sectors|
    ensures forall k: nat | cursor <= k < cursor + n ::
              ByteAt(v, roots, k) == v.sectors[FileSector(v, roots, cursor / 512)][cursor % 512..cursor % 512 + n][k - cursor]
  {
    forall k: nat | cursor <= k < cursor + n
      ensures k / 512 == cursor / 512 && k % 512 == cursor % 512 + (k - cursor)
    {
    }
  }

  /** The block before the one under the cursor holds a byte of the file. */
  lemma PreviousMapped(v: Volume, roots: Roots, used: set<nat>, cursor: nat, size: nat)
    requires FileOk(v, roots, used, 0) && Mapped(v, roots, size) && cursor <= size
    ensures Div(cursor / 512, v.spb) > 0 ==> HasSlot(v, roots, Div(cursor / 512, v.spb) - 1)
  {
    var q := cursor / 512;
    if Div(q, v.spb) > 0 {
      OneBlockBack(q, v.spb);
      var k := (q - v.spb) * 512;
      assert k / 512 == q - v.spb;
      SlotInVolume(v, roots, used, Div(k / 512, v.spb));
    }
  }

  lemma OneBlockBack(q: nat, d: nat)
    requires d > 0 && Div(q, d) > 0
    ensures q >= d && Div(q - d, d) == Div(q, d) - 1
  {
    assert q == q / d * d + q % d;
    OneMore(q / d - 1, d);
    DivModUnique(q / d - 1, d, q % d);
  }

  method Lseek(fe: FileEnt, offset: int, whence: int) returns (r: int)
    requires fe.inode.size < WORD && 0 <= fe.cursor <= INT64_MAX && -0x8000_0000 <= offset < 0x8000_0000
    modifies fe`cursor
    ensures 0 <= fe.cursor <= INT64_MAX
    ensures match SeekTo(fe.inode.size, old(fe.cursor), offset, whence)
            case Reachable(pos) => fe.cursor == pos && r == ToInt(pos)
            case _ => fe.cursor == old(fe.cursor) && r == -1
    ensures var base := if whence == 0 then 0 else if whence == 1 then old(fe.cursor) else fe.inode.size;
            fe.cursor == if 0 <= whence <= 2 && 0 <= base + offset < 0x8000_0000_0000_0000 then base + offset else old(fe.cursor)
  {
    if whence == SEEK_SET {
      if offset < 0 {
        return -1;
      }
      fe.cursor := offset;
    } else if whence == SEEK_CUR {
      if offset > INT64_MAX - fe.cursor {
        return -1;
      }
      if offset + fe.cursor < 0 {
        return -1;
      }
      fe.cursor := fe.cursor + offset;
    } else if whence == SEEK_END {
      if offset > INT64_MAX - fe.inode.size {
        return -1;
      }
      if offset + fe.inode.size < 0 {
        return -1;
      }
      fe.cursor := fe.inode.size + offset;
    } else {
      return -1;
    }
    r := ToInt(fe.cursor);
  }

  /** The chunk of the file in the buffer, from the cursor on. */
  lemma BufferIsContent(fe: FileEnt, n: nat)
    requires fe.Valid() && fe.cursor >= 0 && AtCursor(fe) && n <= BufferSpace(fe.cursor) && fe.cursor + n <= fe.inode.size
    ensures fe.buffer[..][fe.cursor % 512..fe.cursor % 512 + n] == Abstract(fe).content[fe.cursor..fe.cursor + n]
  {
    ChunkInSector(fe.Logical(), fe.inode.block, fe.cursor, n);
  }

  /** One round of the read loop: what the buffered sector has of the next `want` bytes. */
  method ReadChunk(fe: FileEnt, ghost used: set<nat>, want: nat) returns (r: int, chunk: seq<byte>)
    requires Open(fe, used) && fe.cursor < fe.inode.size && want > 0
    modifies fe`cursor, fe`inode, fe`dirty, fe`lbaBlock, fe.buffer, fe.context, fe.context.sysbuf, fe.context.device
    ensures Open(fe, used) && fe.inode == old(fe.inode) && fe.Logical() == old(fe.Logical())
    ensures r == 0 && !fe.dirty && |chunk| == Min(Min(want, BufferSpace(old(fe.cursor))), fe.inode.size - old(fe.cursor)) > 0
    ensures fe.cursor == old(fe.cursor) + |chunk| <= fe.inode.size
    ensures chunk == old(Abstract(fe)).content[old(fe.cursor)..fe.cursor]
    ensures fe.context.freeBlocksCount == old(fe.context.freeBlocksCount)
  {
    hide FileState, Consistent, HasSlot, LeafAt, FileEnt.Logical, AtCursor, Div, ByteAt, Mapped, Content,
      Search.DirtyOutside;
    MappedSlots(fe, used);
    ghost var used';
    r, used' := SelectBuffer(fe, used);
    if r != 0 {
      return -1, [];
    }
    var amount := Min(Min(want, BufferSpace(fe.cursor)), fe.inode.size - fe.cursor);
    BufferIsContent(fe, amount);
    CursorOffset(fe.cursor, fe.context.lay.spb);
    chunk := ReadBuffer(fe, fe.cursor % (512 * fe.context.lay.spb), amount);
    fe.cursor := fe.cursor + amount;
  }

  /** A byte of the file is under the cursor: its block is present, and so is the one before. */
  lemma MappedSlots(fe: FileEnt, used: set<nat>)
    requires Open(fe, used) && fe.cursor < fe.inode.size
    ensures LeafAt(fe.Logical(), fe.inode.block, CursorBlock(fe)) != 0
    ensures HasSlot(fe.Logical(), fe.inode.block, CursorBlock(fe))
    ensures CursorBlock(fe) > 0 ==> HasSlot(fe.Logical(), fe.inode.block, CursorBlock(fe) - 1)
    ensures fe.Logical().spb == fe.context.lay.spb
  {
    PreviousMapped(fe.Logical(), fe.inode.block, used, fe.cursor, fe.inode.size);
    SlotInVolume(fe.Logical(), fe.inode.block, used, CursorBlock(fe));
  }

  lemma CursorOffset(cursor: nat, spb: nat)
    requires spb > 0
    ensures cursor % (512 * spb) >= 0 && cursor % (512 * spb) % 512 == cursor % 512
  {
    DivDiv(cursor, 512, spb);
    DivModUnique(cursor / 512 % spb, 512, cursor % 512);
  }

  method Read(fe: FileEnt, ghost used: set<nat>, count: nat) returns (n: int, data: seq<byte>)
    requires Open(fe, used)
    modifies fe`cursor, fe`fsDirty, fe`inode, fe`dirty, fe`lbaBlock, fe.buffer, fe.context, fe.context.sysbuf, fe.context.device
    ensures Open(fe, used) && fe.inode == old(fe.inode) && fe.Logical() == old(fe.Logical())
    ensures n == |data| && data == ReadData(old(Abstract(fe)), count)
    ensures fe.cursor == old(fe.cursor) + n
    ensures fe.fsDirty == (old(fe.fsDirty) || n > 0)
    ensures fe.dirty ==> old(fe.dirty)
    ensures fe.context.freeBlocksCount == old(fe.context.freeBlocksCount)
  {
    hide Ready, Mapped, ByteAt, FileEnt.Logical, Content;
    ghost var v, start, flat := fe.Logical(), fe.cursor, Abstract(fe);
    var i := 0;
    data := [];
    while i < count
      invariant Open(fe, used) && fe.inode == old(fe.inode) && fe.Logical() == v && fe.fsDirty == old(fe.fsDirty)
      invariant i == |data| <= count && fe.cursor == start + i && (i > 0 ==> fe.cursor <= fe.inode.size)
      invariant start + i <= |flat.content| || i == 0
      invariant i > 0 ==> data == flat.content[start..start + i]
      invariant fe.dirty ==> old(fe.dirty)
      invariant fe.context.freeBlocksCount == old(fe.context.freeBlocksCount)
    {
      if fe.cursor >= fe.inode.size {
        break;
      }
      var r, chunk := ReadChunk(fe, used, count - i);
      if r != 0 {
        return -1, data;
      }
      data := data + chunk;
      i := i + |chunk|;
    }
    if i > 0 {
      fe.fsDirty := true;
    }
    n := i;
  }
}
