/** Reading and appending directory entries through an open file. */
module Directory {
  import opened Bytes
  import opened Volumes
  import opened PointerTree
  import opened BlockMap
  import opened FileContent
  import opened Handles
  import Allocator
  import opened Growth
  import opened SelectBlock
  import opened FlatFile
  import opened FileIO
  import opened FileWrite
  import opened FileRuns
  import opened DirectoryRecords
  import opened DirectoryOffsets

  datatype Option<T> = None | Some(value: T)

  /** The bytes of an open directory. */
  ghost function Dir(fe: FileEnt): (c: seq<byte>)
    requires fe.cursor >= 0 && fe.context.lay.spb > 0
    ensures |c| == fe.inode.size
    reads fe`dirty, fe`lbaBlock, fe`cursor, fe`inode, fe.context.device, fe.buffer
  {
    Abstract(fe).content
  }

  method BlockSize(ctx: Context) returns (bs: nat)
    ensures bs == 512 * ctx.lay.spb
  {
    bs := 512 * ctx.lay.spb;
  }

  // ----- reading

  /** A read that reaches the end of the directory at most. */
  method ReadBytes(fe: FileEnt, ghost used: set<nat>, count: nat) returns (n: int, data: seq<byte>)
    requires Open(fe, used)
    modifies fe`cursor, fe`fsDirty, fe`inode, fe`dirty, fe`lbaBlock, fe.buffer, fe.context, fe.context.sysbuf, fe.context.device
    ensures Open(fe, used) && fe.inode == old(fe.inode) && fe.Logical() == old(fe.Logical()) && Dir(fe) == old(Dir(fe))
    ensures fe.dirty ==> old(fe.dirty)
    ensures n == |data| <= count && fe.cursor == old(fe.cursor) + n && (n < count <==> old(fe.cursor) + count > |Dir(fe)| && count > 0)
    ensures old(fe.cursor) + count <= |Dir(fe)| ==> data == Dir(fe)[old(fe.cursor)..fe.cursor]
  {
    hide Ready, Mapped, FileEnt.Logical, Content;
    n, data := Read(fe, used, count);
  }

  /** `lseek` forward from the cursor. */
  method SkipBytes(fe: FileEnt, ghost used: set<nat>, offset: nat)
    requires Open(fe, used) && fe.cursor + offset <= fe.inode.size && offset < 0x1_0000
    modifies fe`cursor
    ensures Open(fe, used) && fe.cursor == old(fe.cursor) + offset && fe.Logical() == old(fe.Logical()) && Dir(fe) == old(Dir(fe))
  {
    hide Mapped, FileEnt.Logical, Content, FileState;
    var r := Lseek(fe, offset, SEEK_CUR);
  }

  /** `e` is the entry at `p` and `q` is where the next one begins. */
  predicate Advances(c: seq<byte>, p: nat, e: Entry, q: nat) {
    RecordAt(c, p, |c|) && e == EntryAt(c, p) && q == p + HeaderAt(c, p).recLen && Chain(c, q, |c|)
  }

  /** The next entry; at the end of the directory there is none. */
  method ReadDir(fe: FileEnt, ghost used: set<nat>) returns (de: Option<Entry>)
    requires Open(fe, used) && fe.inode.size < 0x8000_0000 && Chain(Dir(fe), fe.cursor, |Dir(fe)|)
    modifies fe`cursor, fe`fsDirty, fe`inode, fe`dirty, fe`lbaBlock, fe.buffer, fe.context, fe.context.sysbuf, fe.context.device
    ensures Open(fe, used) && fe.inode == old(fe.inode) && fe.Logical() == old(fe.Logical()) && Dir(fe) == old(Dir(fe))
    ensures fe.dirty ==> old(fe.dirty)
    ensures de.None? <==> old(fe.cursor) == |Dir(fe)|
    ensures de.Some? ==> Advances(Dir(fe), old(fe.cursor), de.value, fe.cursor)
  {
    hide Ready, Mapped, FileEnt.Logical, Dir, DecodeHeader, Chain, Advances, EntryAt, RecordAt, LE16, LE32, HeaderAt;
    ghost var c, p := Dir(fe), fe.cursor;
    NextRecord(c, p);
    var n, ino := ReadBytes(fe, used, 4);
    if n < 4 {
      return None;
    }
    var recLen;
    n, recLen := ReadBytes(fe, used, 2);
    if n < 2 {
      return None;
    }
    var nameLen;
    n, nameLen := ReadBytes(fe, used, 1);
    if n < 1 {
      return None;
    }
    var fileType;
    n, fileType := ReadBytes(fe, used, 1);
    if n < 1 {
      return None;
    }
    HeaderParts(c, p, ino, recLen, nameLen);
    if Live(LE32(ino)) {
      var name;
      n, name := ReadBytes(fe, used, nameLen[0] as nat);
      SkipBytes(fe, used, LE16(recLen) - 8 - nameLen[0] as nat);
      de := Some(Entry(LE32(ino), name));
    } else {
      de := None;
    }
  }

  /** At the end of a chain, or at a record in it. */
  lemma NextRecord(c: seq<byte>, p: nat)
    requires Chain(c, p, |c|)
    ensures p <= |c| && (p < |c| ==> p + 8 <= |c|)
    ensures p + 8 <= |c| ==>
              var h := HeaderAt(c, p);
              && Live(h.inode) && 8 + h.nameLen <= h.recLen && p + h.recLen <= |c|
              && Advances(c, p, Entry(h.inode, c[p + 8..p + 8 + h.nameLen]), p + h.recLen)
  {
    hide DecodeHeader;
    ChainOrder(c, p, |c|);
  }

  lemma HeaderParts(c: seq<byte>, p: nat, ino: seq<byte>, recLen: seq<byte>, nameLen: seq<byte>)
    requires p + 8 <= |c| && ino == c[p..p + 4] && recLen == c[p + 4..p + 6] && nameLen == c[p + 6..p + 7]
    ensures var h := HeaderAt(c, p);
            LE32(ino) == h.inode && LE16(recLen) == h.recLen < 0x1_0000 && nameLen[0] as nat == h.nameLen < 0x100
  {
    hide LE16, LE32;
    var s := c[p..p + 8];
    assert s[..4] == ino;
    assert s[4..6] == recLen by {
      assert s[4] == c[p + 4] == recLen[0] && s[5] == c[p + 5] == recLen[1];
    }
    assert s[6] == nameLen[0];
  }

  /** Reading a directory from the start to the end gives the entries of its chain. */
  method ReadAll(fe: FileEnt, ghost used: set<nat>) returns (list: seq<Entry>)
    requires Open(fe, used) && fe.inode.size < 0x8000_0000 && fe.cursor == 0 && Chain(Dir(fe), 0, |Dir(fe)|)
    modifies fe`cursor, fe`fsDirty, fe`inode, fe`dirty, fe`lbaBlock, fe.buffer, fe.context, fe.context.sysbuf, fe.context.device
    ensures Open(fe, used) && fe.inode == old(fe.inode) && fe.Logical() == old(fe.Logical()) && Dir(fe) == old(Dir(fe))
    ensures fe.dirty ==> old(fe.dirty)
    ensures list == Listing(Dir(fe), 0, |Dir(fe)|)
  {
    hide Ready, Mapped, FileEnt.Logical, Dir, Chain, Advances, Listing;
    ghost var c := Dir(fe);
    list := [];
    ghost var p := fe.cursor;
    var de := ReadDir(fe, used);
    while de.Some?
      invariant Open(fe, used) && fe.inode == old(fe.inode) && fe.Logical() == old(fe.Logical()) && Dir(fe) == c
      invariant fe.dirty ==> old(fe.dirty)
      invariant 0 <= p <= |c| && Chain(c, p, |c|) && list + Listing(c, p, |c|) == Listing(c, 0, |c|)
      invariant de.None? <==> p == |c|
      invariant de.Some? ==> Advances(c, p, de.value, fe.cursor)
      decreases |c| - p
    {
      AdvanceMoves(c, p, de.value, fe.cursor);
      list := list + [de.value];
      p := fe.cursor;
      de := ReadDir(fe, used);
    }
    AtEnd(c);
  }

  lemma AdvanceMoves(c: seq<byte>, p: nat, e: Entry, q: nat)
    requires Advances(c, p, e, q)
    ensures p + 8 <= q <= |c| && Chain(c, q, |c|) && Chain(c, p, |c|)
    ensures Listing(c, p, |c|) == [e] + Listing(c, q, |c|)
  {
    hide DecodeHeader;
  }

  lemma AtEnd(c: seq<byte>)
    ensures Chain(c, |c|, |c|) && Listing(c, |c|, |c|) == []
  {
  }

  // ----- appending

  /** `lseek` to a position below 2 GiB, from the start or the end. */
  method SeekDir(fe: FileEnt, ghost used: set<nat>, offset: int, whence: int, ghost at: nat, ghost cap: nat) returns (r: int)
    requires InPlace(fe, used, cap) && at < 0x8000_0000 && fe.inode.size < 0x8000_0000
    requires (whence == SEEK_SET && offset == at) || (whence == SEEK_END && offset == at - fe.inode.size)
    modifies fe`cursor
    ensures InPlace(fe, used, cap) && Dir(fe) == old(Dir(fe)) && r == fe.cursor == at && fe.Logical() == old(fe.Logical())
  {
    hide Mapped, FileEnt.Logical, Content, FileState, Allocator.Consistent;
    r := Lseek(fe, offset, whence);
  }

  /** `write` at the cursor, inside the mapped part. */
  method PutBytes(fe: FileEnt, ghost used: set<nat>, data: seq<byte>, ghost cap: nat) returns (ghost used': set<nat>)
    requires InPlace(fe, used, cap) && fe.cursor <= fe.inode.size && fe.cursor + |data| <= cap
    modifies fe`cursor, fe`fsDirty, fe`inode, fe`dirty, fe`lbaBlock, fe.buffer, fe.context, fe.context.sysbuf, fe.context.device
    ensures InPlace(fe, used', cap) && fe.cursor == old(fe.cursor) + |data|
    ensures Dir(fe) == Splice(old(Dir(fe)), old(fe.cursor), data)
    ensures Isolated(fe.context.lay, old(fe.Logical()), used, fe.Logical(), used')
    ensures OtherFieldsKept(old(fe.inode), fe.inode) && fe.fsDirty == (old(fe.fsDirty) || data != [])
  {
    hide Ready, Mapped, Isolated, FileEnt.Logical, Content, Splice;
    var n;
    n, used' := DoPut(fe, used, data, cap);
  }

  /** Writes a header and then a name. */
  method PutRecord(fe: FileEnt, ghost used: set<nat>, h: DirHeader, name: seq<byte>, ghost cap: nat) returns (ghost used': set<nat>)
    requires InPlace(fe, used, cap) && HeaderFits(h) && fe.cursor + 8 + |name| <= fe.inode.size
    modifies fe`cursor, fe`fsDirty, fe`inode, fe`dirty, fe`lbaBlock, fe.buffer, fe.context, fe.context.sysbuf, fe.context.device
    ensures InPlace(fe, used', cap)
    ensures Dir(fe) == WithRecord(old(Dir(fe)), old(fe.cursor), h, name)
    ensures Isolated(fe.context.lay, old(fe.Logical()), used, fe.Logical(), used')
    ensures OtherFieldsKept(old(fe.inode), fe.inode) && fe.fsDirty
  {
    hide Open, Mapped, Isolated, FileEnt.Logical, EncodeHeader, HeaderFits, Abstract;
    used' := PutBytes(fe, used, EncodeHeader(h), cap);
    ghost var w, own := fe.Logical(), used';
    used' := PutBytes(fe, used', name, cap);
    IsolatedTrans(fe.context.lay, old(fe.Logical()), used, w, own, fe.Logical(), used');
  }

  /** Reads the header at `at`. */
  method GetHeader(fe: FileEnt, ghost used: set<nat>, at: nat, ghost cap: nat) returns (ok: bool, h: DirHeader)
    requires InPlace(fe, used, cap) && at < 0x8000_0000 && fe.inode.size < 0x8000_0000 && at + 8 <= fe.inode.size
    modifies fe`cursor, fe`fsDirty, fe`inode, fe`dirty, fe`lbaBlock, fe.buffer, fe.context, fe.context.sysbuf, fe.context.device
    ensures InPlace(fe, used, cap) && fe.inode == old(fe.inode) && fe.Logical() == old(fe.Logical()) && Dir(fe) == old(Dir(fe))
    ensures ok && h == HeaderAt(Dir(fe), at)
    ensures fe.context.freeBlocksCount == old(fe.context.freeBlocksCount)
  {
    hide Ready, Mapped, FileEnt.Logical, DecodeHeader, Dir;
    h := DirHeader(0, 0, 0, 0);
    var r := SeekDir(fe, used, at, SEEK_SET, at, cap);
    if r != at {
      return false, h;
    }
    var n, bytes := ReadDirBytes(fe, used, 8, cap);
    if n != 8 {
      return false, h;
    }
    h := DecodeHeader(bytes);
    ok := true;
  }

  method ReadDirBytes(fe: FileEnt, ghost used: set<nat>, count: nat, ghost cap: nat) returns (n: int, data: seq<byte>)
    requires InPlace(fe, used, cap) && fe.cursor + count <= fe.inode.size
    modifies fe`cursor, fe`fsDirty, fe`inode, fe`dirty, fe`lbaBlock, fe.buffer, fe.context, fe.context.sysbuf, fe.context.device
    ensures InPlace(fe, used, cap) && fe.inode == old(fe.inode) && fe.Logical() == old(fe.Logical()) && Dir(fe) == old(Dir(fe))
    ensures n == |data| == count && data == Dir(fe)[old(fe.cursor)..old(fe.cursor) + count]
    ensures fe.context.freeBlocksCount == old(fe.context.freeBlocksCount)
  {
    hide Ready, Mapped, FileEnt.Logical, Content;
    n, data := Read(fe, used, count);
  }

  /** The walk along the records of the last block: the offset in the block and the header of the last one. */
  method FindLast(fe: FileEnt, ghost used: set<nat>, lastBlock: nat, bs: nat, ghost cap: nat)
    returns (ok: bool, thisOffset: nat, h: DirHeader)
    requires InPlace(fe, used, cap) && fe.inode.size == lastBlock + bs < 0x8000_0000
    requires bs > 0 && Chain(Dir(fe), lastBlock, |Dir(fe)|)
    modifies fe`cursor, fe`fsDirty, fe`inode, fe`dirty, fe`lbaBlock, fe.buffer, fe.context, fe.context.sysbuf, fe.context.device
    ensures InPlace(fe, used, cap) && fe.inode == old(fe.inode) && fe.Logical() == old(fe.Logical()) && Dir(fe) == old(Dir(fe))
    ensures ok && lastBlock + thisOffset == LastRecord(Dir(fe), lastBlock, |Dir(fe)|)
    ensures h == HeaderAt(Dir(fe), lastBlock + thisOffset)
    ensures fe.context.freeBlocksCount == old(fe.context.freeBlocksCount)
  {
    hide Ready, Mapped, FileEnt.Logical, Chain, Dir, LastRecord, HeaderAt;
    ghost var c := Dir(fe);
    thisOffset := 0;
    h := DirHeader(0, 0, 0, 0);
    var more := true;
    while more
      invariant InPlace(fe, used, cap) && fe.inode == old(fe.inode) && fe.Logical() == old(fe.Logical()) && Dir(fe) == c
      invariant fe.context.freeBlocksCount == old(fe.context.freeBlocksCount)
      invariant h.recLen >= 0 && lastBlock + thisOffset + h.recLen <= |c|
      invariant if more then
                  var p := lastBlock + thisOffset + h.recLen;
                  p < |c| && Chain(c, p, |c|) && LastRecord(c, p, |c|) == LastRecord(c, lastBlock, |c|)
                else
                  lastBlock + thisOffset == LastRecord(c, lastBlock, |c|) && h == HeaderAt(c, lastBlock + thisOffset)
      decreases more, |c| - (lastBlock + thisOffset + h.recLen)
    {
      thisOffset := thisOffset + h.recLen;
      WalkStep(c, lastBlock + thisOffset);
      ok, h := GetHeader(fe, used, lastBlock + thisOffset, cap);
      if !ok {
        return;
      }
      more := thisOffset + h.recLen < bs;
    }
    ok := true;
  }

  lemma WalkStep(c: seq<byte>, p: nat)
    requires Chain(c, p, |c|) && p < |c|
    ensures p + 8 <= |c|
    ensures var n := p + HeaderAt(c, p).recLen;
            && p < n <= |c| && Chain(c, n, |c|)
            && LastRecord(c, p, |c|) == if n == |c| then p else LastRecord(c, n, |c|)
  {
  }

  /** The last record is shortened and the new one written behind it. */
  method SplitRecord(fe: FileEnt, ghost used: set<nat>, lastBlock: nat, thisOffset: nat, dirHeader: DirHeader, bs: nat, inode: nat,
                     filename: seq<byte>, ghost cap: nat) returns (ghost used': set<nat>)
    requires InPlace(fe, used, cap) && fe.inode.size == lastBlock + bs < 0x8000_0000 && 0 < bs < 0x1_0000 && inode < WORD
    requires Chain(Dir(fe), lastBlock, |Dir(fe)|) && Splits(Dir(fe), lastBlock, filename)
    requires lastBlock + thisOffset == LastRecord(Dir(fe), lastBlock, |Dir(fe)|) && dirHeader == HeaderAt(Dir(fe), lastBlock + thisOffset)
    modifies fe`cursor, fe`fsDirty, fe`inode, fe`dirty, fe`lbaBlock, fe.buffer, fe.context, fe.context.sysbuf, fe.context.device
    ensures InPlace(fe, used', cap) && fe.inode.size == old(fe.inode.size)
    ensures Dir(fe) == SplitLast(old(Dir(fe)), lastBlock, inode, filename)
    ensures Isolated(fe.context.lay, old(fe.Logical()), used, fe.Logical(), used')
    ensures OtherFieldsKept(old(fe.inode), fe.inode) && fe.fsDirty
  {
    hide Ready, Mapped, Isolated, FileEnt.Logical, Chain, Abstract, LastRecord, HeaderAt, EncodeHeader, Splice, WithRecord, MinimumLength;
    var h := dirHeader.(recLen := MinimumLength(dirHeader.nameLen));
    var r := SeekDir(fe, used, thisOffset + lastBlock, SEEK_SET, thisOffset + lastBlock, cap);
    used' := PutBytes(fe, used, EncodeHeader(h), cap);
    ghost var w, own := fe.Logical(), used';
    var offset := thisOffset + h.recLen;
    r := SeekDir(fe, used', offset + lastBlock, SEEK_SET, offset + lastBlock, cap);
    h := NewHeader(inode, bs - offset, filename);
    used' := PutRecord(fe, used', h, filename, cap);
    IsolatedTrans(fe.context.lay, old(fe.Logical()), used, w, own, fe.Logical(), used');
  }

  /** The block behind the end of the directory is there already, or can be taken. */
  ghost predicate Room(v: Volume, roots: Roots, free: nat, size: nat)
    requires v.spb > 0
  {
    LeafAt(v, roots, Div(size / 512, v.spb)) != 0 || free > 0
  }

  lemma SameIndex(spb: nat, size: nat, k: nat)
    requires spb > 0 && Mod(size, 512 * spb) == 0 && size <= k < size + 512 * spb
    ensures Div(k / 512, spb) == Div(size / 512, spb)
  {
    var bs := 512 * spb;
    var q := size / bs;
    assert size == q * bs + size % bs;
    DivModUnique(q, bs, k - size);
    DivModUnique(q, bs, 0);
    DivDiv(k, 512, spb);
    DivDiv(size, 512, spb);
  }

  lemma SectorStart(spb: nat, size: nat)
    requires spb > 0 && Mod(size, 512 * spb) == 0
    ensures BufferSpace(size) == 512
  {
    DivDiv(size, 512, spb);
    assert size % 512 == 0 by {
      var m := size / 512 % spb;
      assert m * 512 + size % 512 == 0;
    }
  }

  lemma OneBlockNeeded(v: Volume, roots: Roots, size: nat, count: nat)
    requires v.spb > 0 && Mod(size, 512 * v.spb) == 0 && 0 < count <= 512
    ensures Needed(v, roots, size, count) == if LeafAt(v, roots, Div(size / 512, v.spb)) == 0 then 1 else 0
    ensures EndBlock(v.spb, size, size + count) == Div(size / 512, v.spb) + 1
  {
    hide LeafAt, Div;
    SectorStart(v.spb, size);
    NextBlock(v.spb, size, size, count);
    assert Missing(v, roots, Div(size / 512, v.spb), Div(size / 512, v.spb)) == 0;
  }

  lemma BlockSlots(v: Volume, roots: Roots, size: nat, count: nat)
    requires v.spb > 0 && Mod(size, 512 * v.spb) == 0 && count <= 512 * v.spb && HasSlot(v, roots, Div(size / 512, v.spb))
    ensures Slots(v, roots, size, size + count)
  {
    hide HasSlot, Div;
    forall k: nat | size <= k < size + count
      ensures HasSlot(v, roots, Div(k / 512, v.spb))
    {
      SameIndex(v.spb, size, k);
    }
  }

  /** After the first bytes of a block are written the whole block is mapped; without room nothing changes. */
  lemma FirstWritten(lay: Layout, f0: View, used: set<nat>, f: View, used': set<nat>, data: seq<byte>, i: nat)
    requires f0.v.spb > 0 && 0 < |data| <= 512 && i <= |data| && Mod(f0.inode.size, 512 * f0.v.spb) == 0
    requires f0.cursor == f0.inode.size && WriteState(lay, f0, used, f0.inode.size, data, i, f, used')
    requires Mapped(f0.v, f0.inode.block, f0.inode.size)
    requires i == |data| <==> Needed(f0.v, f0.inode.block, f0.inode.size, |data|) <= f0.free
    ensures i == |data| <==> Room(f0.v, f0.inode.block, f0.free, f0.inode.size)
    ensures i < |data| ==>
              && i == 0 && f.inode.size == f0.inode.size && f.cursor == f0.cursor && f.free == f0.free && BytesOf(f) == BytesOf(f0)
              && !Room(f.v, f.inode.block, f.free, f.inode.size)
    ensures HasSlot(f0.v, f0.inode.block, Div(f0.inode.size / 512, f0.v.spb)) ==>
              HasSlot(f.v, f.inode.block, Div(f0.inode.size / 512, f.v.spb))
    ensures i == |data| ==>
              && BytesOf(f) == BytesOf(f0) + data && f.cursor == f.inode.size == f0.inode.size + |data|
              && Mapped(f.v, f.inode.block, f0.inode.size + 512 * f0.v.spb)
  {
    hide LeafAt, Div, Mod, HasSlot, Content, Isolated;
    var size, roots := f0.inode.size, f0.inode.block;
    OneBlockNeeded(f0.v, roots, size, |data|);
    if i < |data| {
      if i > 0 {
        OneBlockNeeded(f0.v, roots, size, i);
      }
      NeededNone(f0.v, roots, size);
      assert data[..0] == [];
    } else {
      assert data[..i] == data;
      SectorStart(f0.v.spb, size);
      SameIndex(f0.v.spb, size, size + |data| - 1);
      forall k: nat | k < size + 512 * f0.v.spb
        ensures LeafAt(f.v, f.inode.block, Div(k / 512, f.v.spb)) != 0
      {
        if k >= size {
          SameIndex(f0.v.spb, size, k);
        } else {
          assert LeafAt(f0.v, roots, Div(k / 512, f0.v.spb)) != 0;
        }
      }
    }
  }

  /** The size is a whole number of blocks, and there is a slot for the next one. */
  ghost predicate NextSlot(fe: FileEnt)
    requires fe.context.lay.spb > 0
    reads fe`dirty, fe`lbaBlock, fe`inode, fe.context.device, fe.buffer
  {
    && Mod(fe.inode.size, 512 * fe.context.lay.spb) == 0
    && HasSlot(fe.Logical(), fe.inode.block, Div(fe.inode.size / 512, fe.context.lay.spb))
  }

  ghost predicate HasRoom(fe: FileEnt)
    requires fe.context.lay.spb > 0
    reads fe`dirty, fe`lbaBlock, fe`inode, fe.context, fe.context.device, fe.buffer
  {
    Room(fe.Logical(), fe.inode.block, fe.context.freeBlocksCount, fe.inode.size)
  }

  /** The state between two writes that fill the block behind `c`. */
  ghost predicate Filling(fe: FileEnt, used: set<nat>, c: seq<byte>, n: nat, room: bool)
    reads fe, fe.context, fe.context.device, fe.buffer
  {
    && fe.context.lay.spb > 0 && fe.cursor >= 0 && fe.cursor == fe.inode.size
    && n % 128 == 0 && n <= 512 * fe.context.lay.spb && |c| + 512 * fe.context.lay.spb < 0x8000_0000
    && if n == 0 || !room then
         InPlace(fe, used, fe.inode.size) && NextSlot(fe) && HasRoom(fe) == room && Dir(fe) == c
       else
         InPlace(fe, used, |c| + 512 * fe.context.lay.spb) && Dir(fe) == c + Zeros(n)
  }

  lemma FillAllowed(fe: FileEnt, used: set<nat>, c: seq<byte>, n: nat, room: bool)
    requires Filling(fe, used, c, n, room) && n < 512 * fe.context.lay.spb
    ensures Open(fe, used) && fe.canWrite && !fe.appendMode && fe.cursor + 128 < WORD
    ensures Slots(fe.Logical(), fe.inode.block, fe.cursor, fe.cursor + 128)
    ensures n > 0 && room ==> Needed(fe.Logical(), fe.inode.block, fe.cursor, 128) == 0
  {
    hide HasSlot, Div, Mod, Slots, Needed, Splice, HasRoom, Ready, Mapped, FileEnt.Logical, Zeros;
    if n == 0 || !room {
      BlockSlots(fe.Logical(), fe.inode.block, fe.inode.size, 128);
    } else {
      ChunkLeft(fe.context.lay.spb, n);
      PutAllowed(fe, used, Zeros(128), |c| + 512 * fe.context.lay.spb);
    }
  }

  lemma ChunkLeft(spb: nat, n: nat)
    requires n % 128 == 0 && n < 512 * spb
    ensures n + 128 <= 512 * spb
  {
  }

  lemma ZerosJoin(c: seq<byte>, n: nat)
    ensures Splice(c + Zeros(n), |c| + n, Zeros(128)) == c + Zeros(n + 128)
    ensures c + Zeros(0) == c
  {
  }

  lemma DirView(fe: FileEnt)
    requires fe.cursor >= 0 && fe.context.lay.spb > 0
    ensures Dir(fe) == BytesOf(ViewOf(fe))
  {
  }

  /** What a write of 128 zeros leads to. */
  lemma Filled(lay: Layout, f0: View, used: set<nat>, f: View, used': set<nat>, c: seq<byte>, n: nat, room: bool, i: nat)
    requires f0.v.spb > 0 && f0.cursor == f0.inode.size && n % 128 == 0 && n < 512 * f0.v.spb && i <= 128
    requires WriteState(lay, f0, used, f0.inode.size, Zeros(128), i, f, used')
    requires i == 128 <==> Needed(f0.v, f0.inode.block, f0.inode.size, 128) <= f0.free
    requires Mapped(f0.v, f0.inode.block, f0.inode.size)
    requires if n == 0 || !room then
               && Mod(f0.inode.size, 512 * f0.v.spb) == 0 && HasSlot(f0.v, f0.inode.block, Div(f0.inode.size / 512, f0.v.spb))
               && Room(f0.v, f0.inode.block, f0.free, f0.inode.size) == room && BytesOf(f0) == c
             else
               && Needed(f0.v, f0.inode.block, f0.inode.size, 128) == 0
               && Mapped(f0.v, f0.inode.block, |c| + 512 * f0.v.spb) && BytesOf(f0) == c + Zeros(n)
    ensures f.cursor == f.inode.size && Isolated(lay, f0.v, used, f.v, used') && OtherFieldsKept(f0.inode, f.inode)
    ensures if !room then
              && Mod(f.inode.size, 512 * f0.v.spb) == 0 && HasSlot(f.v, f.inode.block, Div(f.inode.size / 512, f.v.spb))
              && !Room(f.v, f.inode.block, f.free, f.inode.size) && BytesOf(f) == c
            else
              Mapped(f.v, f.inode.block, |c| + 512 * f0.v.spb) && BytesOf(f) == c + Zeros(n + 128)
  {
    hide HasSlot, Div, Mod, Needed, Mapped, Room, WriteState, BytesOf, Isolated;
    BytesLength(f0);
    WriteIsolated(lay, f0, used, f, used', i);
    if n == 0 || !room {
      FirstWritten(lay, f0, used, f, used', Zeros(128), i);
      assert n == 0 ==> Zeros(n + 128) == Zeros(128);
    } else {
      MoreWritten(lay, f0, used, f, used', c, n);
    }
  }

  lemma WriteIsolated(lay: Layout, f0: View, used: set<nat>, f: View, used': set<nat>, i: nat)
    requires i <= 128 && f0.inode.size >= 0 && WriteState(lay, f0, used, f0.inode.size, Zeros(128), i, f, used')
    ensures Isolated(lay, f0.v, used, f.v, used') && OtherFieldsKept(f0.inode, f.inode)
  {
  }

  lemma BytesLength(f: View)
    requires f.v.spb > 0
    ensures |BytesOf(f)| == f.inode.size
  {
  }

  lemma MoreWritten(lay: Layout, f0: View, used: set<nat>, f: View, used': set<nat>, c: seq<byte>, n: nat)
    requires f0.v.spb > 0 && f0.cursor == f0.inode.size && n % 128 == 0 && n < 512 * f0.v.spb
    requires WriteState(lay, f0, used, f0.inode.size, Zeros(128), 128, f, used')
    requires Mapped(f0.v, f0.inode.block, |c| + 512 * f0.v.spb) && BytesOf(f0) == c + Zeros(n)
    ensures f.cursor == f.inode.size && f.v.spb == f0.v.spb
    ensures Mapped(f.v, f.inode.block, |c| + 512 * f0.v.spb) && BytesOf(f) == c + Zeros(n + 128)
  {
    hide Mapped, Isolated, Progress, Zeros, Splice, BytesOf;
    BytesLength(f0);
    PutDone(lay, f0, used, f, used', Zeros(128), |c| + 512 * f0.v.spb);
    ZerosJoin(c, n);
  }

  /** One write of the loop that fills a new block. */
  method ZeroChunk(fe: FileEnt, ghost used: set<nat>, buffer: seq<byte>, ghost c: seq<byte>, ghost n: nat, ghost room: bool)
    returns (ghost used': set<nat>)
    requires buffer == Zeros(128) && Filling(fe, used, c, n, room) && n < 512 * fe.context.lay.spb
    modifies fe`cursor, fe`fsDirty, fe`inode, fe`dirty, fe`lbaBlock, fe.buffer, fe.context, fe.context.sysbuf, fe.context.device
    ensures Filling(fe, used', c, n + 128, room)
    ensures Isolated(fe.context.lay, old(fe.Logical()), used, fe.Logical(), used')
    ensures OtherFieldsKept(old(fe.inode), fe.inode)
  {
    hide Ready, Mapped, Isolated, FileEnt.Logical, HasSlot, Div, Mod, WriteState, Needed, Room, Slots, Content;
    ghost var f0 := ViewOf(fe);
    FillAllowed(fe, used, c, n, room);
    DirView(fe);
    var r;
    r, used' := Write(fe, used, buffer);
    DirView(fe);
    Filled(fe.context.lay, f0, used, ViewOf(fe), used', c, n, room, fe.cursor - f0.inode.size);
  }

  /** Fills a new block with zeros, 128 bytes at a time; nothing is written when the volume is full. */
  method ZeroFill(fe: FileEnt, ghost used: set<nat>, bs: nat) returns (ghost used': set<nat>)
    requires InPlace(fe, used, fe.inode.size) && NextSlot(fe) && fe.cursor == fe.inode.size
    requires bs == 512 * fe.context.lay.spb && fe.inode.size + bs < 0x8000_0000
    modifies fe`cursor, fe`fsDirty, fe`inode, fe`dirty, fe`lbaBlock, fe.buffer, fe.context, fe.context.sysbuf, fe.context.device
    ensures InPlace(fe, used', fe.inode.size)
    ensures Dir(fe) == if old(HasRoom(fe)) then old(Dir(fe)) + Zeros(bs) else old(Dir(fe))
    ensures Isolated(fe.context.lay, old(fe.Logical()), used, fe.Logical(), used')
    ensures OtherFieldsKept(old(fe.inode), fe.inode)
  {
    hide InPlace, Open, Isolated, FileEnt.Logical, Filling, NextSlot, HasRoom, Dir, Zeros;
    used' := used;
    FillStart(fe, used);
    ghost var room, c := HasRoom(fe), Dir(fe);
    IsolatedSame(fe.context.lay, fe.Logical(), used);
    var buffer := Zeros(128);
    var chunks := bs / 128;
    FourChunks(fe.context.lay.spb);
    for i := 0 to chunks
      invariant Filling(fe, used', c, 128 * i, room)
      invariant Isolated(fe.context.lay, old(fe.Logical()), used, fe.Logical(), used') && OtherFieldsKept(old(fe.inode), fe.inode)
    {
      ghost var w, own := fe.Logical(), used';
      used' := ZeroChunk(fe, used', buffer, c, 128 * i, room);
      IsolatedTrans(fe.context.lay, old(fe.Logical()), used, w, own, fe.Logical(), used');
    }
    FillEnd(fe, used', c, room);
  }

  lemma FourChunks(spb: nat)
    ensures 512 * spb / 128 == 4 * spb
  {
  }

  lemma FillStart(fe: FileEnt, used: set<nat>)
    requires InPlace(fe, used, fe.inode.size) && NextSlot(fe) && fe.cursor == fe.inode.size
    requires fe.inode.size + 512 * fe.context.lay.spb < 0x8000_0000
    ensures fe.context.lay.spb > 0 && fe.cursor >= 0 && Filling(fe, used, Dir(fe), 0, HasRoom(fe))
  {
    hide Ready, Mapped, FileEnt.Logical, Content, NextSlot, HasRoom;
  }

  lemma FillEnd(fe: FileEnt, used: set<nat>, c: seq<byte>, room: bool)
    requires fe.context.lay.spb > 0 && Filling(fe, used, c, 512 * fe.context.lay.spb, room)
    ensures InPlace(fe, used, fe.inode.size) && Dir(fe) == if room then c + Zeros(512 * fe.context.lay.spb) else c
  {
    hide Ready, Mapped, NextSlot, HasRoom;
  }

  /** A new block with one record; on a full volume the record goes over the last block. */
  method AddBlock(fe: FileEnt, ghost used: set<nat>, bs: nat, inode: nat, filename: seq<byte>) returns (ghost used': set<nat>)
    requires InPlace(fe, used, fe.inode.size) && NextSlot(fe) && bs <= fe.inode.size < 0x8000_0000 - bs
    requires bs == 512 * fe.context.lay.spb && bs < 0x1_0000 && 8 + |filename| <= bs && inode < WORD
    modifies fe`cursor, fe`fsDirty, fe`inode, fe`dirty, fe`lbaBlock, fe.buffer, fe.context, fe.context.sysbuf, fe.context.device
    ensures InPlace(fe, used', fe.inode.size)
    ensures var c := old(Dir(fe));
            Dir(fe) == if old(HasRoom(fe)) then OneRecord(c + Zeros(bs), |c|, inode, filename)
                       else OneRecord(c, |c| - bs, inode, filename)
    ensures Isolated(fe.context.lay, old(fe.Logical()), used, fe.Logical(), used')
    ensures OtherFieldsKept(old(fe.inode), fe.inode) && fe.fsDirty
  {
    hide Ready, Mapped, Isolated, FileEnt.Logical, NextSlot, HasRoom, Abstract, WithRecord, HeaderFits, NewHeader;
    var r := SeekDir(fe, used, 0, SEEK_END, fe.inode.size, fe.inode.size);
    used' := ZeroFill(fe, used, bs);
    ghost var w, own := fe.Logical(), used';
    r := SeekDir(fe, used', 0 - bs, SEEK_END, fe.inode.size - bs, fe.inode.size);
    var h := NewHeader(inode, bs, filename);
    HeaderIs(inode, bs, filename);
    used' := PutRecord(fe, used', h, filename, fe.inode.size);
    IsolatedTrans(fe.context.lay, old(fe.Logical()), used, w, own, fe.Logical(), used');
  }

  lemma HeaderIs(inode: nat, recLen: nat, name: seq<byte>)
    requires recLen < 0x1_0000 && inode < WORD
    ensures HeaderFits(NewHeader(inode, recLen, name))
  {
  }

  /**
    Appends an entry to an open directory. The size must be a positive number of whole blocks; then the result is 0
    and the bytes of the directory are those of `AppendedTo`. Other files are unchanged.
   */
  method AppendToDirectory(fe: FileEnt, ghost used: set<nat>, inode: nat, filename: seq<byte>) returns (r: int, ghost used': set<nat>)
    requires InPlace(fe, used, fe.inode.size) && fe.inode.size < 0x8000_0000 - 512 * fe.context.lay.spb
    requires Live(inode) && 8 + |filename| <= 512 * fe.context.lay.spb
    requires fe.inode.size > 0 && Mod(fe.inode.size, 512 * fe.context.lay.spb) == 0 ==>
               DirOk(Dir(fe), 512 * fe.context.lay.spb) && NextSlot(fe)
    modifies fe`cursor, fe`fsDirty, fe`inode, fe`dirty, fe`lbaBlock, fe.buffer, fe.context, fe.context.sysbuf, fe.context.device
    ensures InPlace(fe, used', fe.inode.size)
    ensures r == if Mod(old(fe.inode.size), 512 * fe.context.lay.spb) != 0 || old(fe.inode.size) == 0 then -1 else 0
    ensures r != 0 ==> Dir(fe) == old(Dir(fe))
    ensures r == 0 ==>
              DirOk(old(Dir(fe)), 512 * fe.context.lay.spb) && old(fe.inode.size) > 0 && 512 * fe.context.lay.spb < 0x1_0000
              && Dir(fe) == AppendedTo(old(Dir(fe)), 512 * fe.context.lay.spb, inode, filename, old(HasRoom(fe)))
    ensures Isolated(fe.context.lay, old(fe.Logical()), used, fe.Logical(), used')
    ensures OtherFieldsKept(old(fe.inode), fe.inode) && fe.fsDirty == (old(fe.fsDirty) || r == 0)
    ensures r != 0 ==> fe.inode == old(fe.inode)
    ensures r == 0 && Aligned(old(Dir(fe))) ==> Aligned(Dir(fe))
  {
    hide Aligned, Ready, Mapped, Isolated, FileEnt.Logical, HasSlot, Room, Div, Abstract, DirOk, Chain, Splits, SplitLast, OneRecord, LastRecord,
      MinimumLength, HeaderAt, RecordAt, OtherFieldsKept, DecodeHeader;
    OtherFieldsSame(fe.inode);
    used' := used;
    IsolatedSame(fe.context.lay, fe.Logical(), used);
    var bs := BlockSize(fe.context);
    BlockSizes(fe, used);
    LessThanOne(fe.inode.size, bs);
    var fileLength := SeekDir(fe, used, 0, SEEK_END, fe.inode.size, fe.inode.size);
    if fileLength % bs != 0 {
      return -1, used;
    }
    var lastBlock := fileLength - bs;
    if lastBlock < 0 {
      return -1, used;
    }
    ghost var c := Dir(fe);
    StillAligned(c, fe.context.lay.spb, inode, filename, HasRoom(fe));
    SplitDirectory(c, bs, inode, filename);
    var ok, thisOffset, dirHeader := FindLast(fe, used, lastBlock, bs, fe.inode.size);
    if !ok {
      return -1, used;
    }
    var minimumOld := MinimumLength(dirHeader.nameLen);
    var minimumNew := MinimumLength(|filename|);
    SplitsIs(c, lastBlock, filename);
    if dirHeader.recLen - minimumOld > minimumNew {
      used' := SplitRecord(fe, used, lastBlock, thisOffset, dirHeader, bs, inode, filename, fe.inode.size);
    } else {
      used' := AddBlock(fe, used, bs, inode, filename);
    }
    r := 0;
  }

  lemma StillAligned(c: seq<byte>, spb: nat, inode: nat, name: seq<byte>, room: bool)
    requires DirOk(c, 512 * spb) && 0 < |c| && 512 * spb < 0x1_0000 && Live(inode) && 8 + |name| <= 512 * spb
    ensures Aligned(c) ==> Aligned(AppendedTo(c, 512 * spb, inode, name, room))
  {
    hide Aligned, AppendedTo, DirOk;
    if Aligned(c) {
      AppendedAligned(c, 512 * spb, inode, name, room);
    }
  }

  lemma OtherFieldsSame(inode: Inode)
    ensures OtherFieldsKept(inode, inode)
  {
  }

  lemma BlockSizes(fe: FileEnt, used: set<nat>)
    requires Open(fe, used)
    ensures 0 < 512 * fe.context.lay.spb <= 4096 && fe.Logical().spb == fe.context.lay.spb
  {
  }

  lemma LessThanOne(x: nat, d: nat)
    requires 0 < d
    ensures Mod(x, d) == x % d && (x < d ==> x % d == x)
  {
  }

  lemma SplitsIs(c: seq<byte>, block: nat, name: seq<byte>)
    requires Chain(c, block, |c|) && block < |c|
    ensures Splits(c, block, name) <==>
            var h := HeaderAt(c, LastRecord(c, block, |c|));
            h.recLen - MinimumLength(h.nameLen) > MinimumLength(|name|)
  {
  }
}
