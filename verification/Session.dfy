/** Closing a file writes everything back; opening the inode again finds the same file. */
module Session {
  import opened Bytes
  import opened Volumes
  import opened PointerTree
  import TreeInvariant
  import opened BlockMap
  import opened FileContent
  import opened Handles
  import opened Buffer
  import opened BlockGroups
  import opened Descriptors
  import opened Accounting
  import opened Allocator
  import opened Search
  import opened Growth
  import opened SelectBlock
  import opened FlatFile
  import opened FileIO
  import opened InodeRecord
  import opened InodeTable
  import opened FileRuns
  import opened FreedBlocks
  import opened Truncate

  /** Only the block of the inode's record changes. */
  lemma FlushOnlyIn(lay: Layout, v: Volume, number: nat, inode: Inode)
    requires TablesOk(lay) && LayoutOk(lay, v) && InodeExists(lay, number) && |inode.osd2| == 12
    ensures OnlyIn(v, WithInode(lay, v, number, inode), {InodeBlock(lay, number)})
  {
    InodeSectorIn(lay, v, number);
    var w := WithInode(lay, v, number, inode);
    forall b: nat | b != InodeBlock(lay, number)
      ensures SameBlock(v, w, b)
    {
      WithSectorOther(v, InodeBlock(lay, number), Mod(Div(InodeAllocator.InodeIndex(lay, number), PerSector(lay)), lay.spb),
                      w.sectors[InodeSector(lay, v, number)], b);
    }
  }

  /** A flush keeps the accounts, this file and all other files. */
  lemma FlushKeepsFile(lay: Layout, v: Volume, roots: Roots, used: set<nat>, number: nat, inode: Inode, freeBlocks: nat, freeInodes: nat)
    requires FileState(lay, v, roots, used) && Consistent(lay, v, freeBlocks, freeInodes)
    requires TablesOk(lay) && InodeExists(lay, number) && |inode.osd2| == 12
    ensures var w := WithInode(lay, v, number, inode);
            && FileState(lay, w, roots, used) && Consistent(lay, w, freeBlocks, freeInodes)
            && Preserved(v, roots, w, roots) && ForeignKept(lay, v, used, w, used)
  {
    hide TablesOk, LayoutOk, TreeInvariant.TreeOk, CopiesOk, GroupOk, InodeBlock, Div, LeafAt, HasSlot, ByteAt;
    var w := WithInode(lay, v, number, inode);
    FlushOnlyIn(lay, v, number, inode);
    RecordBlock(lay, number);
    forall b | AccountBlock(lay, b)
      ensures SameBlock(v, w, b)
    {
    }
    VolumeOkFrame(lay, v, w);
    FramePreserves(v, w, roots, used);
    FreeUsableFrame(lay, v, w);
    SameAllocated(lay, v, w);
  }

  lemma RecordBlock(lay: Layout, number: nat)
    requires TablesOk(lay) && InodeExists(lay, number)
    ensures InodeBlock(lay, number) in lay.reserved && !AccountBlock(lay, InodeBlock(lay, number))
  {
  }

  lemma FreeUsableFrame(lay: Layout, v: Volume, w: Volume)
    requires LayoutOk(lay, v) && SameShape(v, w) && FreeUsable(lay, v)
    requires forall h, j | 0 <= h < lay.groups && 0 <= j < 4096 * lay.spb ::
               BitAt(w, lay.blockBitmap[h], j) == BitAt(v, lay.blockBitmap[h], j)
    ensures FreeUsable(lay, w)
  {
    forall g, i | 0 <= g < |lay.blockBitmap| && 0 <= i < lay.bpg && !BitAt(w, lay.blockBitmap[g], i)
      ensures Usable(lay, w, BlockOf(lay, g, i))
    {
      assert Usable(lay, v, BlockOf(lay, g, i));
    }
  }

  lemma SameAllocated(lay: Layout, v: Volume, w: Volume)
    requires LayoutOk(lay, v)
    requires forall h, j | 0 <= h < lay.groups && 0 <= j < 4096 * lay.spb ::
               BitAt(w, lay.blockBitmap[h], j) == BitAt(v, lay.blockBitmap[h], j)
    ensures forall b: nat :: Allocated(lay, w, b) == Allocated(lay, v, b)
  {
  }

  /** An open file with a record of its own on the volume. */
  ghost predicate Closable(fe: FileEnt, used: set<nat>)
    reads fe, fe.context, fe.context.device, fe.buffer
  {
    && Open(fe, used) && TablesOk(fe.context.lay) && InodeExists(fe.context.lay, fe.inodeNumber) && InodeFits(fe.inode)
    && LayoutOk(fe.context.lay, fe.Logical())
  }

  /** The inode is marked for a flush, or its record holds it already. */
  ghost predicate Current(fe: FileEnt, used: set<nat>)
    requires Closable(fe, used)
    reads fe, fe.context, fe.context.device, fe.buffer
  {
    fe.fsDirty || InodeAt(fe.context.lay, fe.Logical(), fe.inodeNumber) == fe.inode
  }

  /** A file on the device, whatever its record says. */
  ghost predicate HasFile(ctx: Context, inode: Inode, used: set<nat>, content: seq<byte>)
    reads ctx, ctx.device
  {
    && Mounted(ctx, ctx.Vol()) && FileState(ctx.lay, ctx.Vol(), inode.block, used) && SmallBlocks(ctx.lay.spb)
    && inode.size < WORD
    && Mapped(ctx.Vol(), inode.block, inode.size) && Content(ctx.Vol(), inode.block, inode.size) == content
  }

  /** What the device holds of a closed file. */
  ghost predicate OnDevice(ctx: Context, number: nat, inode: Inode, used: set<nat>, content: seq<byte>)
    reads ctx, ctx.device
  {
    && HasFile(ctx, inode, used, content)
    && TablesOk(ctx.lay) && InodeExists(ctx.lay, number) && InodeAt(ctx.lay, ctx.Vol(), number) == inode
  }

  /**
    close: the device is what the file saw, apart from the record of an inode that was marked for a flush. The file can
    be found again if and only if it was marked or its record was current.
   */
  method Close(fe: FileEnt, ghost used: set<nat>) returns (r: int)
    requires Closable(fe, used)
    modifies fe`fsDirty, fe`dirty, fe`lbaBlock, fe.buffer, fe.context.sysbuf, fe.context.device
    ensures r == 0 && !fe.dirty && !fe.fsDirty && LayoutOk(fe.context.lay, fe.context.Vol())
    ensures fe.context.Vol() == if old(fe.fsDirty) then WithInode(fe.context.lay, old(fe.Logical()), fe.inodeNumber, fe.inode)
                                else old(fe.Logical())
    ensures HasFile(fe.context, fe.inode, used, old(Abstract(fe)).content)
    ensures OnDevice(fe.context, fe.inodeNumber, fe.inode, used, old(Abstract(fe)).content) <==> old(Current(fe, used))
    ensures forall n: nat | InodeExists(fe.context.lay, n) && n != fe.inodeNumber ::
              InodeAt(fe.context.lay, fe.context.Vol(), n) == InodeAt(fe.context.lay, old(fe.Logical()), n)
    ensures ForeignKept(fe.context.lay, old(fe.Logical()), used, fe.context.Vol(), used)
  {
    hide FileState, Consistent, Mapped, Content, TablesOk, LayoutOk, InodeAt, WithInode, ForeignKept, Preserved, AccountBlock,
      InodeFits, InodeExists;
    ghost var v, lay := fe.Logical(), fe.context.lay;
    CloseFacts(lay, v, fe.inode.block, used, fe.context.freeBlocksCount, fe.context.freeInodesCount);
    if fe.dirty {
      r := StoreBuffer(fe);
      if r != 0 {
        return -1;
      }
    }
    ClosedFile(lay, v, used, fe.inodeNumber, fe.inode, fe.context.freeBlocksCount, fe.context.freeInodesCount);
    FlushInode(fe);
    r := 0;
  }

  lemma CloseFacts(lay: Layout, v: Volume, roots: Roots, used: set<nat>, freeBlocks: nat, freeInodes: nat)
    requires FileState(lay, v, roots, used) && Consistent(lay, v, freeBlocks, freeInodes)
    ensures VolumeOk(lay, v) && LayoutOk(lay, v) && ForeignKept(lay, v, used, v, used)
  {
  }

  /** What a flush leaves of the file. */
  lemma ClosedFile(lay: Layout, v: Volume, used: set<nat>, number: nat, inode: Inode, freeBlocks: nat, freeInodes: nat)
    requires FileState(lay, v, inode.block, used) && Consistent(lay, v, freeBlocks, freeInodes)
    requires TablesOk(lay) && InodeExists(lay, number) && InodeFits(inode)
    ensures LayoutOk(lay, v) && |inode.osd2| == 12
    ensures var w := WithInode(lay, v, number, inode);
            && FileState(lay, w, inode.block, used) && Consistent(lay, w, freeBlocks, freeInodes) && LayoutOk(lay, w)
            && (forall n: nat | InodeExists(lay, n) :: InodeAt(lay, w, n) == if n == number then inode else InodeAt(lay, v, n))
            && ForeignKept(lay, v, used, w, used)
            && (Mapped(v, inode.block, inode.size) ==>
                  Mapped(w, inode.block, inode.size) && Content(w, inode.block, inode.size) == Content(v, inode.block, inode.size))
  {
    hide FileState, Consistent, Mapped, Content, TablesOk, InodeAt, WithInode, ForeignKept, Preserved, InodeFits;
    CloseFacts(lay, v, inode.block, used, freeBlocks, freeInodes);
    PadFits(inode);
    FlushKeepsFile(lay, v, inode.block, used, number, inode, freeBlocks, freeInodes);
    FlushedRecord(lay, v, number, inode, number);
    forall n: nat | InodeExists(lay, n)
      ensures InodeAt(lay, WithInode(lay, v, number, inode), n) == if n == number then inode else InodeAt(lay, v, n)
    {
      FlushedRecord(lay, v, number, inode, n);
    }
    if Mapped(v, inode.block, inode.size) {
      PreservedContent(v, inode.block, WithInode(lay, v, number, inode), inode.block, inode.size);
    }
  }

  lemma PadFits(inode: Inode)
    requires InodeFits(inode)
    ensures |inode.osd2| == 12
  {
  }

  lemma PreservedContent(v: Volume, roots: Roots, w: Volume, roots': Roots, size: nat)
    requires Preserved(v, roots, w, roots') && Mapped(v, roots, size)
    ensures Mapped(w, roots', size) && Content(w, roots', size) == Content(v, roots, size)
  {
    forall k: nat | k < size
      ensures LeafAt(w, roots', Div(k / 512, w.spb)) != 0 && ByteAt(w, roots', k) == ByteAt(v, roots, k)
    {
      assert LeafAt(v, roots, Div(k / 512, v.spb)) != 0;
    }
  }

  /** Opening the inode of a closed file gives its bytes, with the cursor at the start. */
  method Reopen(ctx: Context, number: nat, ghost inode: Inode, ghost used: set<nat>, ghost content: seq<byte>)
    returns (fe: FileEnt, r: int)
    requires OnDevice(ctx, number, inode, used, content)
    modifies ctx.sysbuf
    ensures r == 0 && fresh(fe) && fresh(fe.buffer) && fe.context == ctx && Open(fe, used)
    ensures Abstract(fe) == Flat(content, 0) && fe.inode == inode && fe.inodeNumber == number && !fe.dirty && !fe.fsDirty
    ensures !fe.canWrite && !fe.appendMode
    ensures ctx.Vol() == old(ctx.Vol())
  {
    fe := new FileEnt(ctx, NO_INODE);
    r := OpenInode(fe, number);
  }

  const NO_INODE := Inode(0, 0, 0, 0, 0, 0, 0, 0, 0, 0, 0, 0, seq(15, i => 0), 0, 0, 0, 0, seq(12, i => 0))

  // ----- what keeps a file closable and current

  /** The pointers of a well-formed file fit into its record. */
  lemma FitsKept(lay: Layout, v: Volume, used: set<nat>, inode: Inode, inode': Inode)
    requires InodeFits(inode) && OtherFieldsKept(inode, inode') && inode'.size < WORD && FileState(lay, v, inode'.block, used)
    ensures InodeFits(inode')
  {
    hide VolumeOk, FreeUsable, InVolume, Allocated;
    forall k | 0 <= k < 15
      ensures inode'.block[k] < WORD
    {
      assert TreeInvariant.At(v, inode'.block, k, []) == inode'.block[k];
      assert Path(Entries(v), k, []);
    }
    forall k | 0 <= k < WORDS
      ensures InodeWords(inode')[k] < 0x1_0000_0000
    {
      assert InodeWords(inode)[k] < 0x1_0000_0000;
      if 10 <= k < 25 {
        assert InodeWords(inode')[k] == inode'.block[k - 10];
      }
    }
  }

  /** A step that leaves the other fields of the inode and every inode record alone keeps the file closable. */
  lemma ClosableKept(fe: FileEnt, used: set<nat>, v: Volume, used0: set<nat>, inode: Inode)
    requires Open(fe, used) && TablesOk(fe.context.lay) && InodeExists(fe.context.lay, fe.inodeNumber) && InodeFits(inode)
    requires LayoutOk(fe.context.lay, v) && Isolated(fe.context.lay, v, used0, fe.Logical(), used) && OtherFieldsKept(inode, fe.inode)
    ensures Closable(fe, used)
    ensures InodeAt(fe.context.lay, fe.Logical(), fe.inodeNumber) == InodeAt(fe.context.lay, v, fe.inodeNumber)
    ensures fe.inode == inode && InodeAt(fe.context.lay, v, fe.inodeNumber) == inode ==> Current(fe, used)
  {
    hide Mapped, InodeFits, OtherFieldsKept, InodeAt, Isolated, Apart, TablesOk, LayoutOk, InodeExists, Consistent, DirtyOutside, FileEnt.Logical;
    FitsKept(fe.context.lay, fe.Logical(), used, inode, fe.inode);
    IsolatedApart(fe.context.lay, v, used0, fe.Logical(), used);
    ApartInodes(fe.context.lay, v, used0, fe.Logical(), used, fe.inodeNumber);
  }

  /** Any run on an open file, and then close: the file can be closed, and it is current if it was or bytes moved. */
  method RunAndClose(fe: FileEnt, ghost used: set<nat>, ops: seq<Op>, ghost cap: nat) returns (outs: seq<Out>, ghost used': set<nat>)
    requires Funded(fe, used, cap, 0) && AdmissibleRun(Abstract(fe), ops, cap) && Closable(fe, used)
    modifies fe`cursor, fe`fsDirty, fe`inode, fe`dirty, fe`lbaBlock, fe.buffer, fe.context, fe.context.sysbuf, fe.context.device
    ensures !fe.dirty && !fe.fsDirty
    ensures outs == Run(old(Abstract(fe)), ops, cap).1
    ensures HasFile(fe.context, fe.inode, used', Run(old(Abstract(fe)), ops, cap).0.content)
    ensures OnDevice(fe.context, fe.inodeNumber, fe.inode, used', Run(old(Abstract(fe)), ops, cap).0.content) <==>
            old(Current(fe, used)) || AnyMoves(outs)
  {
    hide Ready, Mapped, FileEnt.Logical, Content, Budget, Isolated, InodeAt, TablesOk, LayoutOk, InodeFits, WithInode, AnyMoves, Run,
      HasFile, ForeignKept, InodeExists;
    ghost var v, inode := fe.Logical(), fe.inode;
    outs, used' := RunOps(fe, used, ops, cap, 0);
    ClosableKept(fe, used', v, used, inode);
    var r := Close(fe, used');
  }

  /** Run, close and open again: the bytes are those of the run on the byte sequence. */
  method RunCloseReopen(fe: FileEnt, ghost used: set<nat>, ops: seq<Op>, ghost cap: nat)
    returns (outs: seq<Out>, fe': FileEnt, ghost used': set<nat>)
    requires Funded(fe, used, cap, 0) && AdmissibleRun(Abstract(fe), ops, cap) && Closable(fe, used) && Current(fe, used)
    modifies fe`cursor, fe`fsDirty, fe`inode, fe`dirty, fe`lbaBlock, fe.buffer, fe.context, fe.context.sysbuf, fe.context.device
    ensures fresh(fe') && fe'.context == fe.context && Open(fe', used')
    ensures outs == Run(old(Abstract(fe)), ops, cap).1
    ensures Abstract(fe') == Flat(Run(old(Abstract(fe)), ops, cap).0.content, 0)
  {
    hide Funded, Closable, Current, HasFile, OnDevice, Ready, Mapped, AnyMoves, Run, FileEnt.Logical, Content;
    ClosableOpen(fe, used);
    ghost var content := Run(Abstract(fe), ops, cap).0.content;
    outs, used' := RunAndClose(fe, used, ops, cap);
    var r;
    fe', r := Reopen(fe.context, fe.inodeNumber, fe.inode, used', content);
  }

  // ----- truncating on open

  /** Nothing to truncate. */
  predicate Empty(inode: Inode) {
    inode == Emptied(inode)
  }

  /** After a truncate the file can be closed, and it is current if and only if there was nothing to truncate. */
  method TruncateOpen(fe: FileEnt, ghost used: set<nat>)
    requires Closable(fe, used) && !fe.dirty && !fe.fsDirty && Current(fe, used)
    modifies fe`cursor, fe`inode, fe`dirty, fe`lbaBlock, fe.buffer, fe.context, fe.context.sysbuf, fe.context.device
    ensures Closable(fe, {}) && !fe.dirty && fe.cursor == 0 && fe.inode == Emptied(old(fe.inode)) && Abstract(fe) == Flat([], 0)
    ensures Current(fe, {}) <==> Empty(old(fe.inode))
    ensures InodeAt(fe.context.lay, fe.Logical(), fe.inodeNumber) == old(fe.inode)
    ensures forall b | b in FreedSlots(old(fe.Logical()), old(fe.inode.block), 0) :: !Allocated(fe.context.lay, fe.Logical(), b)
    ensures fe.context.freeBlocksCount >= old(fe.context.freeBlocksCount)
  {
    hide FileState, Consistent, InodeFits, TablesOk, LayoutOk, InodeExists, FreedSlots, FreedState, Isolated, InodeAt, Allocated, Content,
      DirtyOutside;
    ghost var v, inode := fe.Logical(), fe.inode;
    TruncateFile(fe, used);
    fe.cursor := 0;
    FreedGone(fe.context.lay, v, fe.Logical(), FreedSlots(v, inode.block, 0));
    NoBlocksFits(inode);
    ClosableKept(fe, {}, v, used, inode.(blocks := 0));
  }

  lemma NoBlocksFits(inode: Inode)
    requires InodeFits(inode)
    ensures InodeFits(inode.(blocks := 0))
  {
    forall k | 0 <= k < WORDS
      ensures InodeWords(inode.(blocks := 0))[k] < 0x1_0000_0000
    {
      assert InodeWords(inode)[k] < 0x1_0000_0000;
    }
  }

  lemma FreedGone(lay: Layout, v: Volume, w: Volume, freed: seq<nat>)
    requires FreedState(lay, v, w, freed)
    ensures forall b | b in freed :: !Allocated(lay, w, b)
  {
  }

  /**
    Closing right after a truncate leaves the old record, with its size and pointers, on the device, although every
    block that it leads to is free: the inode is not marked for a flush.
   */
  method TruncateAndClose(fe: FileEnt, ghost used: set<nat>)
    requires Closable(fe, used) && !fe.dirty && !fe.fsDirty && Current(fe, used)
    modifies fe`cursor, fe`fsDirty, fe`inode, fe`dirty, fe`lbaBlock, fe.buffer, fe.context, fe.context.sysbuf, fe.context.device
    ensures OnDevice(fe.context, fe.inodeNumber, fe.inode, {}, []) <==> Empty(old(fe.inode))
    ensures LayoutOk(fe.context.lay, fe.context.Vol())
    ensures InodeAt(fe.context.lay, fe.context.Vol(), fe.inodeNumber) == old(fe.inode)
    ensures forall b | b in FreedSlots(old(fe.Logical()), old(fe.inode.block), 0) :: !Allocated(fe.context.lay, fe.context.Vol(), b)
  {
    hide FileState, Consistent, InodeFits, TablesOk, LayoutOk, InodeExists, FreedSlots, FreedState, InodeAt, Allocated, Content, HasFile,
      Open, Empty, ForeignKept, WithInode;
    TruncateOpen(fe, used);
    var r := Close(fe, {});
  }

  /** The operations put at least one byte. */
  predicate Puts(ops: seq<Op>) {
    exists k :: 0 <= k < |ops| && ops[k].Put? && ops[k].data != []
  }

  lemma {:induction false} MovesIffPuts(f: Flat, ops: seq<Op>, cap: nat)
    requires AdmissibleRun(f, ops, cap) && f.content == []
    ensures AnyMoves(Run(f, ops, cap).1) <==> Puts(ops)
    decreases |ops|
  {
    if ops != [] {
      var (g, out) := Step(f, ops[0], cap);
      if !(ops[0].Put? && ops[0].data != []) {
        MovesIffPuts(g, ops[1..], cap);
        PutsTail(ops);
      }
    }
  }

  lemma PutsTail(ops: seq<Op>)
    requires ops != [] && !(ops[0].Put? && ops[0].data != [])
    ensures Puts(ops) <==> Puts(ops[1..])
  {
    if Puts(ops) {
      var k :| 0 <= k < |ops| && ops[k].Put? && ops[k].data != [];
      assert ops[1..][k - 1] == ops[k];
    }
    if Puts(ops[1..]) {
      var k :| 0 <= k < |ops[1..]| && ops[1..][k].Put? && ops[1..][k].data != [];
      assert ops[k + 1] == ops[1..][k];
    }
  }

  /**
    A truncate, then any run on up to twelve blocks, then close: the device holds the file if and only if a byte was
    written or there was nothing to truncate.
   */
  method TruncateRunClose(fe: FileEnt, ghost used: set<nat>, ops: seq<Op>, ghost cap: nat) returns (outs: seq<Out>, ghost used': set<nat>)
    requires Closable(fe, used) && !fe.dirty && !fe.fsDirty && Current(fe, used) && fe.canWrite && !fe.appendMode
    requires cap <= 12 * 512 * fe.context.lay.spb && fe.context.freeBlocksCount >= 12 && AdmissibleRun(Flat([], 0), ops, cap)
    modifies fe`cursor, fe`fsDirty, fe`inode, fe`dirty, fe`lbaBlock, fe.buffer, fe.context, fe.context.sysbuf, fe.context.device
    ensures outs == Run(Flat([], 0), ops, cap).1
    ensures HasFile(fe.context, fe.inode, used', Run(Flat([], 0), ops, cap).0.content)
    ensures OnDevice(fe.context, fe.inodeNumber, fe.inode, used', Run(Flat([], 0), ops, cap).0.content) <==>
            Puts(ops) || Empty(old(fe.inode))
  {
    hide Closable, Current, HasFile, OnDevice, Ready, Mapped, AnyMoves, Run, Step, Puts, Empty, Funded, FreedSlots, FileEnt.Logical, InodeAt,
      Allocated;
    ClosableOpen(fe, used);
    TruncateOpen(fe, used);
    ClosableOpen(fe, {});
    SmallFileFunded(fe, {}, cap, 0);
    MovesIffPuts(Flat([], 0), ops, cap);
    outs, used' := RunAndClose(fe, {}, ops, cap);
  }

  lemma ClosableOpen(fe: FileEnt, used: set<nat>)
    requires Closable(fe, used)
    ensures Open(fe, used) && LayoutOk(fe.context.lay, fe.Logical()) && TablesOk(fe.context.lay)
    ensures InodeExists(fe.context.lay, fe.inodeNumber)
  {
  }
}
