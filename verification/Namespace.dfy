/** The directories of a mounted volume: looking a path up through them, and creating a file in one. */
module Namespace {
  import opened Bytes
  import opened Volumes
  import opened PointerTree
  import opened BlockMap
  import opened FileContent
  import opened Handles
  import opened BlockGroups
  import opened Descriptors
  import opened Accounting
  import opened Allocator
  import opened Search
  import opened Growth
  import opened SelectBlock
  import opened FileIO
  import opened FileRuns
  import opened InodeAllocator
  import opened InodeRecord
  import opened InodeTable
  import opened Session
  import opened Exclusivity
  import opened DirectoryRecords
  import opened Directory
  import opened Paths

  // ----- directories on a volume

  ghost predicate Numbered(lay: Layout, v: Volume, ino: nat) {
    TablesOk(lay) && LayoutOk(lay, v) && InodeExists(lay, ino) && v.spb > 0
  }

  /** The bytes of the file with inode `ino`. */
  ghost function BytesAt(lay: Layout, v: Volume, ino: nat): seq<byte>
    requires Numbered(lay, v, ino)
  {
    Content(v, InodeAt(lay, v, ino).block, InodeAt(lay, v, ino).size)
  }

  /** The bit of the inode is set. */
  ghost predicate InodeTaken(lay: Layout, v: Volume, ino: nat)
    requires Numbered(lay, v, ino)
  {
    InodeGroup(lay, ino) < |lay.inodeBitmap| && BitAt(v, lay.inodeBitmap[InodeGroup(lay, ino)], InodeIndex(lay, ino))
  }

  /** Inode `ino` is a directory of whole tiled blocks that lives in the blocks `used`. */
  ghost predicate DirAt(lay: Layout, v: Volume, ino: nat, used: set<nat>) {
    && Numbered(lay, v, ino) && SmallBlocks(lay.spb) && InodeTaken(lay, v, ino)
    && var inode := InodeAt(lay, v, ino);
       && InodeFits(inode) && FileState(lay, v, inode.block, used) && Mapped(v, inode.block, inode.size)
       && 0 < inode.size < 0x8000_0000 && DirOk(BytesAt(lay, v, ino), 512 * lay.spb)
  }

  /** The owned blocks of every directory. */
  type Owners = map<nat, set<nat>>

  /** The directories of the volume, each with blocks of its own. */
  ghost predicate Dirs(lay: Layout, v: Volume, owners: Owners) {
    && (forall ino | ino in owners :: DirAt(lay, v, ino, owners[ino]))
    && (forall a, b | a in owners && b in owners && a != b :: owners[a] !! owners[b])
  }

  ghost function EntriesAt(lay: Layout, v: Volume, ino: nat): seq<Entry> {
    if Numbered(lay, v, ino) && Chain(BytesAt(lay, v, ino), 0, |BytesAt(lay, v, ino)|) then
      Listing(BytesAt(lay, v, ino), 0, |BytesAt(lay, v, ino)|)
    else []
  }

  /** The directory tree that is stored on the volume. */
  ghost function TreeOf(lay: Layout, v: Volume, owners: Owners): Tree {
    map ino | ino in owners :: EntriesAt(lay, v, ino)
  }

  lemma DirEntries(lay: Layout, v: Volume, ino: nat, used: set<nat>)
    requires DirAt(lay, v, ino, used)
    ensures var c := BytesAt(lay, v, ino);
            0 < |c| && DirOk(c, 512 * lay.spb) && Chain(c, 0, |c|) && EntriesAt(lay, v, ino) == Listing(c, 0, |c|)
  {
    hide Chain, Listing, Blocks;
    var c := BytesAt(lay, v, ino);
    TiledChain(c, 512 * lay.spb);
  }

  lemma TiledChain(c: seq<byte>, bs: nat)
    requires DirOk(c, bs)
    ensures Chain(c, 0, |c|)
  {
    BlocksChain(c, 0, |c|, bs);
  }

  /** The inodes that a lookup opens are directories or do not exist; what the last component leads to is not opened. */
  ghost predicate Walkable(lay: Layout, dirs: Tree, ino: nat, names: seq<seq<byte>>)
    decreases |names|
  {
    names == [] ||
    ((ino in dirs || !InodeExists(lay, ino))
     && (ino in dirs && FirstMatch(dirs[ino], names[0]).Some? ==>
           Walkable(lay, dirs, FirstMatch(dirs[ino], names[0]).value, names[1..])))
  }

  /** A mounted volume with these directories, and a handle whose buffer holds no modified sector. */
  ghost predicate Tended(ctx: Context, owners: Owners)
    reads ctx, ctx.device
  {
    && Mounted(ctx, ctx.Vol()) && FreeUsable(ctx.lay, ctx.Vol()) && TablesOk(ctx.lay) && SmallBlocks(ctx.lay.spb)
    && Dirs(ctx.lay, ctx.Vol(), owners)
  }

  // ----- lookup

  /** An opened directory is ready to be read. */
  lemma OpenedDir(fe: FileEnt, owners: Owners, ino: nat)
    requires fe.Valid() && !fe.dirty && Tended(fe.context, owners) && ino in owners && fe.cursor == 0
    requires Numbered(fe.context.lay, fe.context.Vol(), ino) && fe.inode == InodeAt(fe.context.lay, fe.context.Vol(), ino)
    ensures Open(fe, owners[ino]) && fe.inode.size < 0x8000_0000
    ensures Dir(fe) == BytesAt(fe.context.lay, fe.context.Vol(), ino) && Chain(Dir(fe), 0, |Dir(fe)|)
  {
    hide InodeAt, DirOk, Chain, Listing, FileState, Consistent, Mapped, FreeUsable, TablesOk, InodeFits;
    DirEntries(fe.context.lay, fe.context.Vol(), ino, owners[ino]);
  }

  /** One round of the lookup: the inode is opened and its entries are searched. */
  method Descend(fe: FileEnt, ghost owners: Owners, ino: nat, element: seq<byte>) returns (next: Option<nat>)
    requires fe.Valid() && !fe.dirty && Tended(fe.context, owners) && (ino in owners || !InodeExists(fe.context.lay, ino))
    modifies fe`cursor, fe`fsDirty, fe`inode, fe`inodeNumber, fe`canWrite, fe`appendMode, fe`dirty, fe`lbaBlock, fe.buffer,
      fe.context, fe.context.sysbuf, fe.context.device
    ensures fe.Valid() && !fe.dirty && Tended(fe.context, owners) && fe.context.Vol() == old(fe.context.Vol())
    ensures fe.context.freeInodesCount == old(fe.context.freeInodesCount)
    ensures next == if ino in owners then FirstMatch(EntriesAt(fe.context.lay, fe.context.Vol(), ino), element) else None
  {
    hide Dirs, FileState, Consistent, InodeAt, FreeUsable, Listing, Chain, Mapped, Ready, Dir, TablesOk, LayoutOk;
    ghost var v, lay := fe.context.Vol(), fe.context.lay;
    TendedFacts(fe.context, owners);
    DirNumbered(lay, v, owners, ino);
    var r := OpenInode(fe, ino);
    if r != 0 {
      return None;
    }
    OpenedDir(fe, owners, ino);
    DirEntries(lay, v, ino, owners[ino]);
    next := FindEntry(fe, owners[ino], element);
    ReadyParts(fe, owners[ino]);
  }

  lemma ReadyParts(fe: FileEnt, used: set<nat>)
    requires Open(fe, used)
    ensures fe.Valid() && Mounted(fe.context, fe.Logical()) && (!fe.dirty ==> fe.Logical() == fe.context.Vol())
    ensures fe.context.freeInodesCount == FreeInodes(fe.context.lay, fe.Logical())
  {
  }

  lemma TendedFacts(ctx: Context, owners: Owners)
    requires Tended(ctx, owners)
    ensures ctx.Valid() && Dirs(ctx.lay, ctx.Vol(), owners) && SmallBlocks(ctx.lay.spb)
    ensures ctx.freeInodesCount == FreeInodes(ctx.lay, ctx.Vol()) && ctx.freeBlocksCount == FreeBlocks(ctx.lay, ctx.Vol())
    ensures VolumeOk(ctx.lay, ctx.Vol()) && LayoutOk(ctx.lay, ctx.Vol()) && TablesOk(ctx.lay)
  {
  }

  lemma DirNumbered(lay: Layout, v: Volume, owners: Owners, ino: nat)
    requires Dirs(lay, v, owners)
    ensures ino in owners ==> Numbered(lay, v, ino) && DirAt(lay, v, ino, owners[ino])
  {
  }

  /** The loops of the driver: every component is searched in the directory that the one before led to. */
  method LookupPath(fe: FileEnt, ghost owners: Owners, path: seq<byte>) returns (ino: Option<nat>)
    requires fe.Valid() && !fe.dirty && Tended(fe.context, owners)
    requires Walkable(fe.context.lay, TreeOf(fe.context.lay, fe.context.Vol(), owners), ROOT_INO, Elements(path))
    modifies fe`cursor, fe`fsDirty, fe`inode, fe`inodeNumber, fe`canWrite, fe`appendMode, fe`dirty, fe`lbaBlock, fe.buffer,
      fe.context, fe.context.sysbuf, fe.context.device
    ensures fe.Valid() && !fe.dirty && Tended(fe.context, owners) && fe.context.Vol() == old(fe.context.Vol())
    ensures fe.context.freeInodesCount == old(fe.context.freeInodesCount)
    ensures ino == Find(TreeOf(fe.context.lay, fe.context.Vol(), owners), path)
  {
    hide Tended, EntriesAt, FirstMatch, Tokens;
    ghost var dirs := TreeOf(fe.context.lay, fe.context.Vol(), owners);
    var elements := SplitPath(path);
    var current: nat := ROOT_INO;
    for i := 0 to |elements|
      invariant fe.Valid() && !fe.dirty && Tended(fe.context, owners) && fe.context.Vol() == old(fe.context.Vol())
      invariant fe.context.freeInodesCount == old(fe.context.freeInodesCount)
      invariant Resolve(dirs, current, elements[i..]) == Find(dirs, path)
      invariant Walkable(fe.context.lay, dirs, current, elements[i..])
    {
      assert elements[i..][1..] == elements[i + 1..];
      var de := Descend(fe, owners, current, elements[i]);
      if de.None? {
        return None;
      }
      current := de.value;
    }
    ino := Some(current);
  }

  // ----- what a change of one file leaves of the directories

  lemma SameContent(v: Volume, w: Volume, roots: Roots, size: nat)
    requires Unchanged(v, w, roots) && Mapped(v, roots, size)
    ensures Mapped(w, roots, size) && Content(w, roots, size) == Content(v, roots, size)
  {
    hide LeafAt, Div;
    forall k: nat | k < size
      ensures LeafAt(w, roots, Div(k / 512, w.spb)) != 0 && ByteAt(w, roots, k) == ByteAt(v, roots, k)
    {
      assert LeafAt(v, roots, Div(k / 512, v.spb)) != 0;
    }
  }

  lemma TakenKept(lay: Layout, v: Volume, w: Volume, ino: nat)
    requires Numbered(lay, v, ino) && SameShape(v, w) && InodeBitsKept(lay, v, w)
    ensures Numbered(lay, w, ino) && (InodeTaken(lay, v, ino) <==> InodeTaken(lay, w, ino))
  {
    hide BitAt;
    LayoutSame(lay, v, w);
    if InodeGroup(lay, ino) < |lay.inodeBitmap| {
      assert BitsKept(v, w, lay.inodeBitmap[InodeGroup(lay, ino)], {});
    }
  }

  /** The same directory, with the same bytes, on both volumes. */
  ghost predicate DirSame(lay: Layout, v: Volume, w: Volume, ino: nat, used: set<nat>) {
    && DirAt(lay, v, ino, used) && DirAt(lay, w, ino, used)
    && BytesAt(lay, w, ino) == BytesAt(lay, v, ino) && EntriesAt(lay, w, ino) == EntriesAt(lay, v, ino)
  }

  /** A directory does not notice what another file does in its own blocks. */
  lemma ApartDir(lay: Layout, v: Volume, own: set<nat>, w: Volume, own': set<nat>, ino: nat, used: set<nat>)
    requires DirAt(lay, v, ino, used) && used !! own && Apart(lay, v, own, w, own') && VolumeOk(lay, w) && FreeUsable(lay, w)
    requires Numbered(lay, w, ino) && InodeTaken(lay, w, ino)
    ensures DirSame(lay, v, w, ino, used) && used !! own'
  {
    hide InodeTaken, FileState, Apart, Unchanged, Mapped, Content, InodeAt, InodeFits, VolumeOk, FreeUsable, DirOk, TablesOk, LayoutOk,
      Chain;
    var inode := InodeAt(lay, v, ino);
    OtherKept(lay, v, own, w, own', File(inode.block, used));
    ApartInodes(lay, v, own, w, own', ino);
    SameContent(v, w, inode.block, inode.size);
  }

  /** Nor does it notice that another inode is written. */
  lemma RecordDir(lay: Layout, v: Volume, number: nat, inode: Inode, ino: nat, used: set<nat>, freeBlocks: nat, freeInodes: nat)
    requires DirAt(lay, v, ino, used) && Consistent(lay, v, freeBlocks, freeInodes)
    requires InodeExists(lay, number) && InodeFits(inode) && number != ino && |inode.osd2| == 12
    ensures DirSame(lay, v, WithInode(lay, v, number, inode), ino, used)
  {
    hide InodeTaken, FileState, Consistent, Preserved, Mapped, Content, InodeAt, InodeFits, DirOk, TablesOk, LayoutOk, Chain, WithInode,
      ForeignKept;
    var old_ := InodeAt(lay, v, ino);
    var w := WithInode(lay, v, number, inode);
    FlushKeepsFile(lay, v, old_.block, used, number, inode, freeBlocks, freeInodes);
    FlushedRecord(lay, v, number, inode, ino);
    RecordKeepsBits(lay, v, number, inode);
    TakenKept(lay, v, w, ino);
    PreservedContent(v, old_.block, w, old_.block, old_.size);
  }

  lemma RecordKeepsBits(lay: Layout, v: Volume, number: nat, inode: Inode)
    requires TablesOk(lay) && LayoutOk(lay, v) && InodeExists(lay, number) && |inode.osd2| == 12
    ensures SameShape(v, WithInode(lay, v, number, inode)) && InodeBitsKept(lay, v, WithInode(lay, v, number, inode))
  {
    hide BitAt, InodeBlock;
    var w := WithInode(lay, v, number, inode);
    FlushOnlyIn(lay, v, number, inode);
    RecordBlock(lay, number);
    forall g | 0 <= g < |lay.inodeBitmap|
      ensures BitsKept(v, w, lay.inodeBitmap[g], {})
    {
      AccountReserved(lay, v, lay.inodeBitmap[g]);
      forall j | 0 <= j < 4096 * v.spb
        ensures BitAt(w, lay.inodeBitmap[g], j) == BitAt(v, lay.inodeBitmap[g], j)
      {
        SameBit(v, w, lay.inodeBitmap[g], j);
      }
    }
  }

  // ----- appending an entry to the directory that a path leads to

  /** There is a block, or one to be had, behind the end of the directory. */
  ghost predicate RoomIn(lay: Layout, v: Volume, free: nat, ino: nat)
    requires Numbered(lay, v, ino)
  {
    Room(v, InodeAt(lay, v, ino).block, free, InodeAt(lay, v, ino).size)
  }

  /** The directory may grow by a block: it stays below 2 GiB, and the slot for the block is there. */
  ghost predicate CanGrow(lay: Layout, v: Volume, ino: nat)
    requires Numbered(lay, v, ino)
  {
    && InodeAt(lay, v, ino).size < 0x8000_0000 - 512 * lay.spb
    && HasSlot(v, InodeAt(lay, v, ino).block, Div(InodeAt(lay, v, ino).size / 512, v.spb))
  }

  /**
    From `v` to `w`, the bytes of directory `d` become those of an append; no other directory, no other inode and no block
    of any other file changes.
   */
  ghost predicate Appended(lay: Layout, v: Volume, free: nat, w: Volume, owners: Owners, owners': Owners, d: nat, ino: nat, name: seq<byte>) {
    && d in owners && d in owners' && owners' == owners[d := owners'[d]] && Dirs(lay, v, owners) && Dirs(lay, w, owners')
    && SmallBlocks(lay.spb) && Live(ino) && 8 + |name| <= 512 * lay.spb && Numbered(lay, v, d) && Numbered(lay, w, d)
    && 0 < |BytesAt(lay, v, d)| && DirOk(BytesAt(lay, v, d), 512 * lay.spb)
    && BytesAt(lay, w, d) == AppendedTo(BytesAt(lay, v, d), 512 * lay.spb, ino, name, RoomIn(lay, v, free, d))
    && (forall a | a in owners && a != d :: EntriesAt(lay, w, a) == EntriesAt(lay, v, a))
    && (forall n: nat | InodeExists(lay, n) && n != d :: InodeAt(lay, w, n) == InodeAt(lay, v, n))
    && SameShape(v, w) && InodeBitsKept(lay, v, w) && ForeignKept(lay, v, owners[d], w, owners'[d])
  }

  /** The opened directory can be appended to. */
  lemma ReadyToAppend(fe: FileEnt, owners: Owners, d: nat)
    requires fe.Valid() && !fe.dirty && !fe.fsDirty && Tended(fe.context, owners) && d in owners && fe.cursor == 0 && fe.inodeNumber == d
    requires Numbered(fe.context.lay, fe.context.Vol(), d) && fe.inode == InodeAt(fe.context.lay, fe.context.Vol(), d)
    requires fe.canWrite && !fe.appendMode && CanGrow(fe.context.lay, fe.context.Vol(), d)
    ensures InPlace(fe, owners[d], fe.inode.size) && NextSlot(fe) && Closable(fe, owners[d])
    ensures 0 < fe.inode.size < 0x8000_0000 - 512 * fe.context.lay.spb && DirOk(Dir(fe), 512 * fe.context.lay.spb)
    ensures Dir(fe) == BytesAt(fe.context.lay, fe.context.Vol(), d)
    ensures fe.Logical() == fe.context.Vol() && Open(fe, owners[d])
    ensures HasRoom(fe) == RoomIn(fe.context.lay, fe.context.Vol(), fe.context.freeBlocksCount, d)
    ensures Mod(fe.inode.size, 512 * fe.context.lay.spb) == 0
  {
    hide DirOk, FileState, Consistent, Mapped, FreeUsable, TablesOk, InodeFits, HasSlot, Room, Div, Mod, LayoutOk, InodeTaken;
    OpenedDir(fe, owners, d);
    WholeBlocks(Dir(fe), 512 * fe.context.lay.spb);
  }

  /** Closing the directory after the append completes it. */
  lemma AppendClosed(lay: Layout, v: Volume, free: nat, x: Volume, w: Volume, owners: Owners, used: set<nat>, d: nat, ino: nat,
                     name: seq<byte>, inode: Inode, freeBlocks: nat, freeInodes: nat, content: seq<byte>)
    requires Dirs(lay, v, owners) && d in owners && SmallBlocks(lay.spb) && Live(ino) && 8 + |name| <= 512 * lay.spb
    requires Numbered(lay, v, d) && 0 < |BytesAt(lay, v, d)| < 0x8000_0000 - 512 * lay.spb && DirOk(BytesAt(lay, v, d), 512 * lay.spb)
    requires Isolated(lay, v, owners[d], x, used) && FileState(lay, x, inode.block, used) && Consistent(lay, x, freeBlocks, freeInodes)
    requires InodeFits(inode) && |inode.osd2| == 12 && LayoutOk(lay, x) && w == WithInode(lay, x, d, inode)
    requires FileState(lay, w, inode.block, used) && Mapped(w, inode.block, inode.size) && LayoutOk(lay, w)
    requires Content(w, inode.block, inode.size) == content && InodeAt(lay, w, d) == inode
    requires content == AppendedTo(BytesAt(lay, v, d), 512 * lay.spb, ino, name, RoomIn(lay, v, free, d))
    ensures Appended(lay, v, free, w, owners, owners[d := used], d, ino, name)
  {
    hide InodeTaken, FileState, Consistent, Mapped, Content, InodeAt, InodeFits, DirOk, TablesOk, LayoutOk, Chain, WithInode, Isolated, Apart,
      AppendedTo, Room, InodeBitsKept, VolumeOk, FreeUsable, EntriesAt, ForeignKept, Preserved;
    IsolatedApart(lay, v, owners[d], x, used);
    IsolatedBits(lay, v, owners[d], x, used);
    ApartForeign(lay, v, owners[d], x, used);
    FlushKeepsFile(lay, x, inode.block, used, d, inode, freeBlocks, freeInodes);
    ForeignTrans(lay, v, owners[d], x, used, w, used);
    RecordKeepsBits(lay, x, d, inode);
    BitsTrans(lay, v, x, w);
    StateVolume(lay, x, inode.block, used);
    TakenKept(lay, v, w, d);
    TakenKept(lay, v, x, d);
    AppendedListing(BytesAt(lay, v, d), 512 * lay.spb, ino, name, RoomIn(lay, v, free, d));
    assert DirAt(lay, v, d, owners[d]);
    assert BytesAt(lay, w, d) == content;
    forall a | a in owners && a != d
      ensures DirSame(lay, v, w, a, owners[a]) && owners[a] !! used
    {
      assert DirAt(lay, v, a, owners[a]) && owners[a] !! owners[d];
      TakenKept(lay, v, x, a);
      ApartDir(lay, v, owners[d], x, used, a, owners[a]);
      RecordDir(lay, x, d, inode, a, owners[a], freeBlocks, freeInodes);
    }
    forall n: nat | InodeExists(lay, n) && n != d
      ensures InodeAt(lay, w, n) == InodeAt(lay, v, n)
    {
      ApartInodes(lay, v, owners[d], x, used, n);
      FlushedRecord(lay, x, d, inode, n);
    }
  }

  lemma ApartForeign(lay: Layout, v: Volume, used: set<nat>, w: Volume, used': set<nat>)
    requires Apart(lay, v, used, w, used')
    ensures ForeignKept(lay, v, used, w, used')
  {
  }

  lemma ForeignTrans(lay: Layout, v: Volume, used: set<nat>, x: Volume, used': set<nat>, w: Volume, used'': set<nat>)
    requires ForeignKept(lay, v, used, x, used') && ForeignKept(lay, x, used', w, used'')
    ensures ForeignKept(lay, v, used, w, used'')
  {
    hide Foreign;
  }

  lemma IsolatedBits(lay: Layout, v: Volume, used: set<nat>, w: Volume, used': set<nat>)
    requires Isolated(lay, v, used, w, used')
    ensures InodeBitsKept(lay, v, w)
  {
  }

  lemma BitsTrans(lay: Layout, v: Volume, x: Volume, w: Volume)
    requires SameShape(v, x) && SameShape(x, w) && InodeBitsKept(lay, v, x) && InodeBitsKept(lay, x, w)
    ensures InodeBitsKept(lay, v, w)
  {
    hide BitsKept;
    forall g | 0 <= g < |lay.inodeBitmap|
      ensures BitsKept(v, w, lay.inodeBitmap[g], {})
    {
      BitsKeptTrans(v, x, w, lay.inodeBitmap[g]);
    }
  }

  lemma InPlaceOpen(fe: FileEnt, used: set<nat>)
    requires InPlace(fe, used, fe.inode.size)
    ensures Open(fe, used)
  {
  }

  lemma ClosableFacts(fe: FileEnt, used: set<nat>)
    requires Closable(fe, used)
    ensures TablesOk(fe.context.lay) && InodeExists(fe.context.lay, fe.inodeNumber) && InodeFits(fe.inode)
    ensures LayoutOk(fe.context.lay, fe.Logical())
  {
  }

  /** Appends to an opened directory and closes it. */
  method AppendOpened(fe: FileEnt, ghost owners: Owners, ghost d: nat, ino: nat, filename: seq<byte>) returns (r: int, ghost used: set<nat>)
    requires fe.Valid() && !fe.dirty && !fe.fsDirty && Tended(fe.context, owners) && d in owners && fe.cursor == 0 && fe.inodeNumber == d
    requires Numbered(fe.context.lay, fe.context.Vol(), d) && fe.inode == InodeAt(fe.context.lay, fe.context.Vol(), d)
    requires fe.canWrite && !fe.appendMode && CanGrow(fe.context.lay, fe.context.Vol(), d)
    requires Live(ino) && 8 + |filename| <= 512 * fe.context.lay.spb
    modifies fe`cursor, fe`fsDirty, fe`inode, fe`dirty, fe`lbaBlock, fe.buffer, fe.context, fe.context.sysbuf, fe.context.device
    ensures r == 0 && Tended(fe.context, owners[d := used])
    ensures Appended(fe.context.lay, old(fe.context.Vol()), old(fe.context.freeBlocksCount), fe.context.Vol(), owners, owners[d := used],
                     d, ino, filename)
  {
    hide Tended, Appended, Closable, InPlace, NextSlot, HasRoom, Isolated, DirOk, FileEnt.Logical, InodeAt, Open, Numbered, CanGrow, Dir,
      OtherFieldsKept, AppendedTo, Room, InodeFits;
    ghost var v, free, inode := fe.context.Vol(), fe.context.freeBlocksCount, fe.inode;
    TendedFacts(fe.context, owners);
    ReadyToAppend(fe, owners, d);
    ClosableFacts(fe, owners[d]);
    r, used := AppendToDirectory(fe, owners[d], ino, filename);
    InPlaceOpen(fe, used);
    ClosableKept(fe, used, v, owners[d], inode);
    r := CloseDirectory(fe, owners, used, d, ino, filename, v, free);
  }

  /** What the directory part of a path must lead to, if anything: a directory that may grow, or no inode at all. */
  ghost predicate Appendable(lay: Layout, v: Volume, owners: Owners, directory: seq<byte>) {
    && Walkable(lay, TreeOf(lay, v, owners), ROOT_INO, Elements(directory))
    && var d := Find(TreeOf(lay, v, owners), directory);
       d.Some? && InodeExists(lay, d.value) ==> d.value in owners && Numbered(lay, v, d.value) && CanGrow(lay, v, d.value)
  }

  lemma OwnedExists(lay: Layout, v: Volume, owners: Owners, ino: nat)
    requires Dirs(lay, v, owners)
    ensures ino in owners ==> InodeExists(lay, ino) && Numbered(lay, v, ino) && 0 < InodeAt(lay, v, ino).size
  {
  }

  /** Closes the directory that was appended to: its record and its blocks are on the device. */
  method CloseDirectory(fe: FileEnt, ghost owners: Owners, ghost used: set<nat>, ghost d: nat, ghost ino: nat, ghost name: seq<byte>,
                        ghost v: Volume, ghost free: nat) returns (r: int)
    requires Closable(fe, used) && fe.fsDirty && fe.inodeNumber == d && d in owners && Dirs(fe.context.lay, v, owners)
    requires SmallBlocks(fe.context.lay.spb) && Live(ino) && 8 + |name| <= 512 * fe.context.lay.spb && Numbered(fe.context.lay, v, d)
    requires 0 < |BytesAt(fe.context.lay, v, d)| < 0x8000_0000 - 512 * fe.context.lay.spb
    requires DirOk(BytesAt(fe.context.lay, v, d), 512 * fe.context.lay.spb)
    requires Isolated(fe.context.lay, v, owners[d], fe.Logical(), used)
    requires Dir(fe) == AppendedTo(BytesAt(fe.context.lay, v, d), 512 * fe.context.lay.spb, ino, name, RoomIn(fe.context.lay, v, free, d))
    modifies fe`fsDirty, fe`dirty, fe`lbaBlock, fe.buffer, fe.context.sysbuf, fe.context.device
    ensures r == 0 && Tended(fe.context, owners[d := used])
    ensures Appended(fe.context.lay, v, free, fe.context.Vol(), owners, owners[d := used], d, ino, name)
  {
    hide Dirs, Appended, Isolated, DirOk, FileEnt.Logical, InodeAt, WithInode, ForeignKept, FileState, Consistent, Mapped, Content, TablesOk,
      LayoutOk, InodeFits, AppendedTo, FreeUsable, Room, Numbered;
    ghost var x, content, lay := fe.Logical(), Dir(fe), fe.context.lay;
    PadFits(fe.inode);
    ClosingFacts(fe, used);
    r := Close(fe, used);
    StateVolume(lay, fe.context.Vol(), fe.inode.block, used);
    AppendClosed(lay, v, free, x, fe.context.Vol(), owners, used, d, ino, name, fe.inode, fe.context.freeBlocksCount,
                 fe.context.freeInodesCount, content);
    AppendedDirs(lay, v, free, fe.context.Vol(), owners, owners[d := used], d, ino, name);
  }

  lemma ClosingFacts(fe: FileEnt, used: set<nat>)
    requires Closable(fe, used)
    ensures FileState(fe.context.lay, fe.Logical(), fe.inode.block, used) && TablesOk(fe.context.lay)
    ensures Consistent(fe.context.lay, fe.Logical(), fe.context.freeBlocksCount, fe.context.freeInodesCount)
    ensures LayoutOk(fe.context.lay, fe.Logical()) && InodeFits(fe.inode) && InodeExists(fe.context.lay, fe.inodeNumber)
  {
  }

  lemma AppendedDirs(lay: Layout, v: Volume, free: nat, w: Volume, owners: Owners, owners': Owners, d: nat, ino: nat, name: seq<byte>)
    requires Appended(lay, v, free, w, owners, owners', d, ino, name)
    ensures Dirs(lay, w, owners') && SameShape(v, w) && InodeBitsKept(lay, v, w)
  {
    hide Dirs, InodeBitsKept;
  }

  /** `ext2_append_to_directory`: the directory is looked up, opened for writing, appended to and closed. */
  method AppendToPath(ctx: Context, ghost owners: Owners, directory: seq<byte>, ino: nat, filename: seq<byte>)
    returns (r: int, ghost d: nat, ghost owners': Owners)
    requires Tended(ctx, owners) && Appendable(ctx.lay, ctx.Vol(), owners, directory)
    requires Live(ino) && 8 + |filename| <= 512 * ctx.lay.spb
    modifies ctx, ctx.sysbuf, ctx.device
    ensures Tended(ctx, owners') && ctx.freeInodesCount == old(ctx.freeInodesCount)
    ensures var found := Find(TreeOf(ctx.lay, old(ctx.Vol()), owners), directory);
            && r == (if found.Some? && found.value in owners then 0 else -1)
            && (r == 0 ==> d == found.value)
    ensures r != 0 ==> ctx.Vol() == old(ctx.Vol()) && owners' == owners
    ensures r == 0 ==> Appended(ctx.lay, old(ctx.Vol()), old(ctx.freeBlocksCount), ctx.Vol(), owners, owners', d, ino, filename)
  {
    hide Tended, Dirs, TreeOf, Appended, Closable, Elements, Find, Walkable, InPlace, NextSlot, HasRoom, Isolated, DirOk, FileEnt.Logical,
      InodeAt, HasFile, OnDevice, Current, WithInode, ForeignKept, FreeBlocks, FreeInodes;
    d, owners' := 0, owners;
    TendedFacts(ctx, owners);
    var fe := new FileEnt(ctx, NO_INODE);
    ghost var v, lay := ctx.Vol(), ctx.lay;
    ghost var free := ctx.freeBlocksCount;
    var found := LookupPath(fe, owners, directory);
    if found.None? {
      return -1, 0, owners;
    }
    TendedFacts(ctx, owners);
    OwnedExists(lay, v, owners, found.value);
    r := OpenInode(fe, found.value);
    if r != 0 {
      return -1, 0, owners;
    }
    d := found.value;
    fe.canWrite := true;
    ghost var used;
    r, used := AppendOpened(fe, owners, d, ino, filename);
    owners' := owners[d := used];
    TendedFacts(ctx, owners');
    AppendedDirs(lay, v, free, ctx.Vol(), owners, owners', d, ino, filename);
    FreeInodesKept(lay, v, ctx.Vol());
  }

  /** Without a change in an inode bitmap the number of free inodes stays. */
  lemma FreeInodesKept(lay: Layout, v: Volume, w: Volume)
    requires LayoutOk(lay, v) && SameShape(v, w) && InodeBitsKept(lay, v, w)
    ensures FreeInodes(lay, w) == FreeInodes(lay, v)
  {
    hide BitAt;
    forall g | 0 <= g < |lay.inodeBitmap|
      ensures ClearBits(w, lay.inodeBitmap[g], lay.ipg) == ClearBits(v, lay.inodeBitmap[g], lay.ipg)
    {
      assert BitsKept(v, w, lay.inodeBitmap[g], {});
      ClearBitsSame(v, w, lay.inodeBitmap[g], lay.ipg);
    }
    TotalSame(v, w, lay.inodeBitmap, |lay.inodeBitmap|, lay.ipg);
  }
}
