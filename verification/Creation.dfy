/** Creating a file: an inode is allocated, entered into the directory that the path names, and its record is written. */
module Creation {
  import opened Bytes
  import opened Volumes
  import TreeInvariant
  import opened BlockMap
  import opened FileContent
  import opened Handles
  import opened BlockGroups
  import opened Descriptors
  import opened Accounting
  import opened Allocator
  import opened Search
  import opened Growth
  import FlatFile
  import opened FileIO
  import opened InodeAllocator
  import opened InodeRecord
  import opened InodeTable
  import opened Session
  import Truncate
  import opened Exclusivity
  import opened DirectoryRecords
  import opened Directory
  import opened Paths
  import opened Namespace

  const REGULAR := 0x8000
  /** What a lookup that found nothing returns, as an inode number. */
  const NO_ENTRY := 0xFFFF_FFFF

  /** The record of a new file; the fields cut their values to their width. */
  function NewRecord(mode: nat, uid: nat, gid: nat, now: nat): (inode: Inode) {
    Inode(REGULAR + mode % 512, uid % 0x1_0000, 0, now % WORD, now % WORD, now % WORD, 0, gid % 0x1_0000, 1, 0, 0, 0,
          seq(15, i => 0), 0, 0, 0, 0, Zeros(12))
  }

  /** A regular file without blocks: type, permissions, owner, times, one link, and zeros. */
  predicate RegularFile(inode: Inode, mode: nat, uid: nat, gid: nat, now: nat) {
    && inode.mode / 0x1000 == 8 && inode.mode / 0x4000 % 2 == 0 && inode.mode % 0x1000 == mode % 512
    && inode.uid == uid % 0x1_0000 && inode.gid == gid % 0x1_0000
    && inode.atime == inode.ctime == inode.mtime == now % 0x1_0000_0000 && inode.dtime == 0
    && inode.linksCount == 1 && inode.size == 0 && inode.blocks == 0 && inode.flags == 0 && inode.osd1 == 0
    && (forall s | 0 <= s < 15 :: inode.block[s] == 0)
    && inode.generation == 0 && inode.fileAcl == 0 && inode.dirAcl == 0 && inode.faddr == 0
    && |inode.osd2| == 12 && forall k | 0 <= k < 12 :: inode.osd2[k] == 0
  }

  lemma NewRecordIs(mode: nat, uid: nat, gid: nat, now: nat)
    ensures RegularFile(NewRecord(mode, uid, gid, now), mode, uid, gid, now)
  {
  }

  lemma NewRecordFits(mode: nat, uid: nat, gid: nat, now: nat)
    ensures InodeFits(NewRecord(mode, uid, gid, now))
  {
    var inode := NewRecord(mode, uid, gid, now);
    forall k | 0 <= k < WORDS
      ensures InodeWords(inode)[k] < 0x1_0000_0000
    {
      if 10 <= k < 25 {
        assert InodeWords(inode)[k] == inode.block[k - 10];
      }
    }
  }

  // ----- the allocation of the inode leaves the directories alone

  lemma InodeStepApart(lay: Layout, v: Volume, x: Volume, g: nat, i: nat)
    requires AllocStep(lay, v, x, true, g, i, true)
    ensures Apart(lay, v, {}, x, {}) && (FreeUsable(lay, v) ==> FreeUsable(lay, x))
  {
    hide BitAt, SameBlock, InVolume, AllocStep, LayoutOk, Allocated, Usable, AccountBlock;
    InodeStepBlocks(lay, v, x, g, i);
    SameAllocated(lay, v, x);
    if FreeUsable(lay, v) {
      FreeUsableFrame(lay, v, x);
    }
  }

  lemma InodeStepBlocks(lay: Layout, v: Volume, x: Volume, g: nat, i: nat)
    requires AllocStep(lay, v, x, true, g, i, true)
    ensures LayoutOk(lay, v) && SameShape(v, x)
    ensures forall h, j | 0 <= h < lay.groups && 0 <= j < 4096 * lay.spb :: BitAt(x, lay.blockBitmap[h], j) == BitAt(v, lay.blockBitmap[h], j)
    ensures forall b: nat | b !in lay.reserved || Protected(lay, b) :: SameBlock(v, x, b)
  {
    hide BitAt, SameBlock, InVolume, CopiesOk, Recounted, AccountBlock, TableBlock;
    forall b: nat | b !in lay.reserved
      ensures !AccountBlock(lay, b)
    {
      NotAccount(lay, v, b);
    }
    forall h | 0 <= h < lay.groups
      ensures BitsKept(v, x, lay.blockBitmap[h], {})
    {
      assert BitsKept(v, x, Maps(lay, false)[h], {});
    }
  }

  /** Exactly one more inode is taken. */
  lemma InodeStepTaken(lay: Layout, v: Volume, x: Volume, number: nat, n: nat)
    requires Numbered(lay, v, n) && NewInode(lay, v, x, number)
    ensures Numbered(lay, x, n) && (InodeTaken(lay, x, n) <==> InodeTaken(lay, v, n) || n == number)
    ensures n == number ==> !InodeTaken(lay, v, n)
  {
    hide BitAt, CopiesOk, Recounted, SameBlock, BestGroup, AllSet, Div, Mod;
    var g, i := InodeGroup(lay, number), InodeIndex(lay, number);
    assert Maps(lay, true) == lay.inodeBitmap;
    if InodeGroup(lay, n) == g && InodeIndex(lay, n) == i {
      DivModInjective(n - 1, number - 1, lay.ipg);
    }
    assert BitsKept(v, x, lay.inodeBitmap[InodeGroup(lay, n)], if InodeGroup(lay, n) == g then {i} else {});
  }

  /** The same directory with the same blocks: there is room in it on one volume if and only if on the other. */
  lemma ApartRoom(lay: Layout, v: Volume, x: Volume, d: nat, used: set<nat>, free: nat)
    requires DirAt(lay, v, d, used) && DirAt(lay, x, d, used) && Apart(lay, v, {}, x, {})
    ensures InodeAt(lay, x, d) == InodeAt(lay, v, d)
    ensures RoomIn(lay, x, free, d) == RoomIn(lay, v, free, d) && (CanGrow(lay, v, d) ==> CanGrow(lay, x, d))
  {
    hide InodeTaken, Mapped, Content, InodeAt, InodeFits, VolumeOk, FreeUsable, DirOk, TablesOk, LayoutOk, LeafAt, HasSlot, Div, Protected,
      TreeInvariant.TreeOk, InVolume, Allocated, SameBlock;
    var inode := InodeAt(lay, v, d);
    ApartInodes(lay, v, {}, x, {}, d);
    forall b | b in used
      ensures SameBlock(v, x, b)
    {
      assert Foreign(lay, v, {}, b);
    }
    FramePreserves(v, x, inode.block, used);
  }

  /** The directories are the same on both volumes, and what may be appended to on one may be on the other. */
  ghost predicate SameDirs(lay: Layout, v: Volume, x: Volume, owners: Owners) {
    && Dirs(lay, v, owners) && Dirs(lay, x, owners) && Apart(lay, v, {}, x, {})
    && (forall a | a in owners :: DirSame(lay, v, x, a, owners[a]))
    && TreeOf(lay, x, owners) == TreeOf(lay, v, owners)
  }

  lemma InodeStepDirs(lay: Layout, v: Volume, x: Volume, number: nat, owners: Owners)
    requires NewInode(lay, v, x, number) && Dirs(lay, v, owners) && VolumeOk(lay, x) && FreeUsable(lay, v)
    ensures SameDirs(lay, v, x, owners) && FreeUsable(lay, x) && number !in owners
  {
    hide DirSame, InodeTaken, VolumeOk, FreeUsable, AllocStep, Apart, BestBit, DirAt, EntriesAt, Numbered;
    InodeStepApart(lay, v, x, InodeGroup(lay, number), InodeIndex(lay, number));
    forall a | a in owners
      ensures DirSame(lay, v, x, a, owners[a]) && EntriesAt(lay, x, a) == EntriesAt(lay, v, a) && a != number
      ensures DirAt(lay, x, a, owners[a])
    {
      TakenDir(lay, v, a, owners[a]);
      InodeStepTaken(lay, v, x, number, a);
      ApartDir(lay, v, {}, x, {}, a, owners[a]);
      SameParts(lay, v, x, a, owners[a]);
    }
  }

  lemma TakenDir(lay: Layout, v: Volume, a: nat, used: set<nat>)
    requires DirAt(lay, v, a, used)
    ensures Numbered(lay, v, a) && InodeTaken(lay, v, a)
  {
  }

  lemma SameParts(lay: Layout, v: Volume, x: Volume, a: nat, used: set<nat>)
    requires DirSame(lay, v, x, a, used)
    ensures DirAt(lay, v, a, used) && DirAt(lay, x, a, used) && EntriesAt(lay, x, a) == EntriesAt(lay, v, a)
    ensures BytesAt(lay, x, a) == BytesAt(lay, v, a)
  {
  }

  lemma AppendableKept(lay: Layout, v: Volume, x: Volume, owners: Owners, directory: seq<byte>)
    requires SameDirs(lay, v, x, owners) && Appendable(lay, v, owners, directory)
    ensures Appendable(lay, x, owners, directory)
  {
    hide DirSame, DirAt, Apart, TreeOf, CanGrow, Find, Walkable, Elements, Numbered;
    var d := Find(TreeOf(lay, v, owners), directory);
    if d.Some? && InodeExists(lay, d.value) {
      TakenDir(lay, x, d.value, owners[d.value]);
      ApartRoom(lay, v, x, d.value, owners[d.value], 0);
    }
  }

  // ----- the record of the new file

  /** There are inode numbers for exactly the bits of the inode bitmaps. */
  predicate NumbersOk(lay: Layout) {
    lay.inodesCount == lay.ipg * lay.groups < 0x8000_0000
  }

  lemma NewNumber(lay: Layout, v: Volume, x: Volume, number: nat)
    requires NewInode(lay, v, x, number) && NumbersOk(lay)
    ensures InodeExists(lay, number) && Live(number)
  {
    hide AllocStep, BestBit, NumberOf, InodeGroup, InodeIndex;
    StepGroup(lay, v, x, InodeGroup(lay, number), InodeIndex(lay, number));
    SplitBuilds(lay, number);
    NumberBound(lay, InodeGroup(lay, number), InodeIndex(lay, number));
  }

  lemma StepGroup(lay: Layout, v: Volume, x: Volume, g: nat, i: nat)
    requires AllocStep(lay, v, x, true, g, i, true)
    ensures g < lay.groups && i < lay.ipg
  {
  }

  lemma NumberBound(lay: Layout, g: nat, i: nat)
    requires g < lay.groups && i < lay.ipg
    ensures 0 < NumberOf(lay, g, i) <= lay.ipg * lay.groups
  {
    assert lay.ipg * (g + 1) <= lay.ipg * lay.groups;
  }

  /** A file without blocks, on any consistent volume. */
  lemma EmptyFile(lay: Layout, v: Volume, inode: Inode)
    requires VolumeOk(lay, v) && FreeUsable(lay, v) && inode.size == 0 && forall s | 0 <= s < 15 :: inode.block[s] == 0
    ensures FileState(lay, v, inode.block, {}) && Mapped(v, inode.block, 0) && Content(v, inode.block, 0) == []
  {
    hide TreeInvariant.TreeOk, FreeUsable, CopiesOk, GroupOk;
    Truncate.EmptyTree(v, inode.block);
  }

  /**
    The new entry is the last of directory `d`, every other directory is the same; the inode with number `number` was
    free, is taken now and holds `inode`; no other file changes.
   */
  ghost predicate Created(lay: Layout, v: Volume, free: nat, w: Volume, owners: Owners, owners': Owners, d: nat, number: nat,
                          name: seq<byte>, inode: Inode) {
    && number !in owners && d in owners && d in owners' && Dirs(lay, v, owners) && Dirs(lay, w, owners')
    && Numbered(lay, v, d) && 0 < |BytesAt(lay, v, d)| && DirOk(BytesAt(lay, v, d), 512 * lay.spb)
    && TreeOf(lay, w, owners') ==
         TreeOf(lay, v, owners)[d := Survivors(BytesAt(lay, v, d), 512 * lay.spb, name, RoomIn(lay, v, free, d)) + [Stored(number, name)]]
    && Numbered(lay, v, number) && !InodeTaken(lay, v, number)
    && (forall n: nat | InodeExists(lay, n) :: Numbered(lay, v, n) && Numbered(lay, w, n)
          && (InodeTaken(lay, w, n) <==> InodeTaken(lay, v, n) || n == number)
          && (n == number ==> InodeAt(lay, w, n) == inode)
          && (n != number && n != d ==> InodeAt(lay, w, n) == InodeAt(lay, v, n)))
    && ForeignKept(lay, v, owners[d], w, owners'[d])
  }

  lemma ForeignWider(lay: Layout, v: Volume, x: Volume, used: set<nat>)
    requires ForeignKept(lay, v, {}, x, {})
    ensures ForeignKept(lay, v, used, x, used)
  {
    hide Allocated, SameBlock;
    forall b | Foreign(lay, v, used, b)
      ensures Foreign(lay, x, used, b) && SameBlock(v, x, b)
    {
      assert Foreign(lay, v, {}, b);
    }
  }

  /** The entries of the directories after the append and after the record is written. */
  lemma CreatedTree(lay: Layout, v: Volume, x: Volume, y: Volume, w: Volume, free: nat, owners: Owners, owners': Owners, d: nat,
                    number: nat, name: seq<byte>)
    requires SameDirs(lay, v, x, owners) && Appended(lay, x, free, y, owners, owners', d, number, name)
    requires forall a | a in owners' :: DirSame(lay, y, w, a, owners'[a])
    ensures Numbered(lay, v, d) && 0 < |BytesAt(lay, v, d)| && DirOk(BytesAt(lay, v, d), 512 * lay.spb)
    ensures TreeOf(lay, w, owners') ==
            TreeOf(lay, v, owners)[d := Survivors(BytesAt(lay, v, d), 512 * lay.spb, name, RoomIn(lay, v, free, d)) + [Stored(number, name)]]
    ensures Dirs(lay, w, owners')
  {
    hide DirSame, DirAt, Apart, DirOk, Survivors, EntriesAt, BytesAt, Numbered, InodeAt, RoomIn, AppendedTo;
    SameParts(lay, v, x, d, owners[d]);
    TakenDir(lay, v, d, owners[d]);
    ApartRoom(lay, v, x, d, owners[d], free);
    DirEntries(lay, y, d, owners'[d]);
    AppendedListing(BytesAt(lay, x, d), 512 * lay.spb, number, name, RoomIn(lay, x, free, d));
    forall a | a in owners'
      ensures DirAt(lay, w, a, owners'[a]) && EntriesAt(lay, w, a) == EntriesAt(lay, y, a)
    {
      SameParts(lay, y, w, a, owners'[a]);
    }
    forall a | a in owners
      ensures EntriesAt(lay, x, a) == EntriesAt(lay, v, a)
    {
      SameParts(lay, v, x, a, owners[a]);
    }
  }

  lemma CreatedForeign(lay: Layout, v: Volume, x: Volume, y: Volume, w: Volume, used: set<nat>, used': set<nat>)
    requires Apart(lay, v, {}, x, {}) && ForeignKept(lay, x, used, y, used') && ForeignKept(lay, y, {}, w, {})
    ensures ForeignKept(lay, v, used, w, used')
  {
    hide ForeignKept;
    ApartForeign(lay, v, {}, x, {});
    ForeignWider(lay, v, x, used);
    ForeignWider(lay, y, w, used');
    ForeignTrans(lay, v, used, x, used, y, used');
    ForeignTrans(lay, v, used, y, used', w, used');
  }

  /** What a creation does to the bit and the record of one inode. */
  lemma CreatedInode(lay: Layout, v: Volume, x: Volume, y: Volume, w: Volume, number: nat, inode: Inode, n: nat)
    requires NewInode(lay, v, x, number) && Apart(lay, v, {}, x, {}) && TablesOk(lay) && InodeExists(lay, number) && InodeExists(lay, n)
    requires LayoutOk(lay, v) && LayoutOk(lay, x) && LayoutOk(lay, y) && SameShape(x, y) && InodeBitsKept(lay, x, y)
    requires InodeFits(inode) && |inode.osd2| == 12 && w == WithInode(lay, y, number, inode)
    ensures Numbered(lay, v, n) && Numbered(lay, x, n) && Numbered(lay, y, n) && Numbered(lay, w, n)
    ensures InodeTaken(lay, w, n) <==> InodeTaken(lay, v, n) || n == number
    ensures n == number ==> !InodeTaken(lay, v, n)
    ensures InodeAt(lay, x, n) == InodeAt(lay, v, n) && InodeAt(lay, w, n) == if n == number then inode else InodeAt(lay, y, n)
  {
    hide InodeTaken, NewInode, Apart, TablesOk, InodeFits, WithInode, InodeBitsKept, InodeAt, LayoutOk;
    LayoutShape(lay, v);
    LayoutShape(lay, x);
    LayoutShape(lay, y);
    ApartInodes(lay, v, {}, x, {}, n);
    FlushedRecord(lay, y, number, inode, n);
    RecordKeepsBits(lay, y, number, inode);
    InodeStepTaken(lay, v, x, number, n);
    TakenKept(lay, x, y, n);
    TakenKept(lay, y, w, n);
  }

  lemma LayoutShape(lay: Layout, v: Volume)
    requires LayoutOk(lay, v)
    ensures v.spb > 0
  {
  }

  /** All that a creation changes, from the volume before it over the allocation and the append to the written record. */
  lemma CreatedState(lay: Layout, v: Volume, x: Volume, y: Volume, w: Volume, free: nat, owners: Owners, owners': Owners, d: nat,
                     number: nat, name: seq<byte>, inode: Inode, freeBlocks: nat, freeInodes: nat)
    requires SameDirs(lay, v, x, owners) && NewInode(lay, v, x, number) && number !in owners && TablesOk(lay) && InodeExists(lay, number)
    requires Appended(lay, x, free, y, owners, owners', d, number, name)
    requires Consistent(lay, y, freeBlocks, freeInodes) && FreeUsable(lay, y) && LayoutOk(lay, y)
    requires InodeFits(inode) && |inode.osd2| == 12 && inode.size == 0 && forall s | 0 <= s < 15 :: inode.block[s] == 0
    requires w == WithInode(lay, y, number, inode)
    ensures Created(lay, v, free, w, owners, owners', d, number, name, inode)
    ensures FileState(lay, w, inode.block, {}) && Consistent(lay, w, freeBlocks, freeInodes) && LayoutOk(lay, w)
  {
    hide DirSame, DirAt, Apart, DirOk, Survivors, EntriesAt, BytesAt, Numbered, InodeAt, RoomIn, AppendedTo, NewInode, TreeOf, InodeTaken,
      FileState, Consistent, TablesOk, LayoutOk, InodeFits, WithInode, FreeUsable, Mapped, Content, ForeignKept, InodeBitsKept;
    ConsistentVolume(lay, y, freeBlocks, freeInodes);
    StepLayouts(lay, v, x, number);
    EmptyFile(lay, y, inode);
    ClosedFile(lay, y, {}, number, inode, freeBlocks, freeInodes);
    forall a | a in owners'
      ensures DirSame(lay, y, w, a, owners'[a])
    {
      RecordDir(lay, y, number, inode, a, owners'[a], freeBlocks, freeInodes);
    }
    CreatedTree(lay, v, x, y, w, free, owners, owners', d, number, name);
    CreatedForeign(lay, v, x, y, w, owners[d], owners'[d]);
    forall n: nat | InodeExists(lay, n)
      ensures Numbered(lay, v, n) && Numbered(lay, w, n)
      ensures InodeTaken(lay, w, n) <==> InodeTaken(lay, v, n) || n == number
      ensures n == number ==> !InodeTaken(lay, v, n) && InodeAt(lay, w, n) == inode
      ensures n != number && n != d ==> InodeAt(lay, w, n) == InodeAt(lay, v, n)
    {
      CreatedInode(lay, v, x, y, w, number, inode, n);
    }
  }

  lemma StepLayouts(lay: Layout, v: Volume, x: Volume, number: nat)
    requires NewInode(lay, v, x, number)
    ensures LayoutOk(lay, v) && LayoutOk(lay, x)
  {
  }

  lemma ConsistentVolume(lay: Layout, v: Volume, freeBlocks: nat, freeInodes: nat)
    requires Consistent(lay, v, freeBlocks, freeInodes)
    ensures VolumeOk(lay, v)
  {
  }

  // ----- the operation

  /** The inode is the lowest free one of the first group with the most. */
  ghost predicate Chosen(lay: Layout, v: Volume, number: nat) {
    number > 0 && lay.ipg > 0 && BestBit(v, lay.inodeBitmap, lay.ipg, InodeGroup(lay, number), InodeIndex(lay, number))
  }

  /** The inode of the new file: the volume stays tended, and the directories do not notice. */
  method AllocateNumber(fe: FileEnt, ghost owners: Owners) returns (r: int)
    requires fe.Valid() && !fe.dirty && Tended(fe.context, owners) && NumbersOk(fe.context.lay)
    modifies fe`inodeNumber, fe`dirty, fe`lbaBlock, fe.buffer, fe.context, fe.context.sysbuf, fe.context.device
    ensures fe.Valid() && !fe.dirty && Tended(fe.context, owners)
    ensures r == if old(fe.context.freeInodesCount) == 0 then -1 else 0
    ensures fe.context.freeInodesCount == old(fe.context.freeInodesCount) - (if r == 0 then 1 else 0)
    ensures fe.context.freeBlocksCount == old(fe.context.freeBlocksCount)
    ensures r != 0 ==> fe.context.Vol() == old(fe.context.Vol())
    ensures r == 0 ==>
              && NewInode(fe.context.lay, old(fe.context.Vol()), fe.context.Vol(), fe.inodeNumber)
              && SameDirs(fe.context.lay, old(fe.context.Vol()), fe.context.Vol(), owners)
              && fe.inodeNumber !in owners && InodeExists(fe.context.lay, fe.inodeNumber) && Live(fe.inodeNumber)
  {
    hide SameDirs, NumbersOk, Consistent, TablesOk, FreeUsable, Dirs, InodeExists, Live, NewInode, AccountBlock;
    ghost var v, lay := fe.context.Vol(), fe.context.lay;
    r := AllocateInode(fe);
    if r == 0 {
      ghost var x := fe.context.Vol();
      ConsistentVolume(lay, x, fe.context.freeBlocksCount, fe.context.freeInodesCount);
      InodeStepDirs(lay, v, x, fe.inodeNumber, owners);
      NewNumber(lay, v, x, fe.inodeNumber);
      SameDirsHave(lay, v, x, owners);
    }
  }

  lemma SameDirsHave(lay: Layout, v: Volume, x: Volume, owners: Owners)
    requires SameDirs(lay, v, x, owners)
    ensures Dirs(lay, x, owners) && TreeOf(lay, x, owners) == TreeOf(lay, v, owners)
  {
    hide Dirs, TreeOf, DirSame, Apart;
  }

  /** The path is divided at its last separator. */
  ghost predicate Parts(path: seq<byte>, directory: seq<byte>, name: seq<byte>) {
    path == directory + [SLASH] + name && SLASH !in name
  }

  /** The path leads nowhere, and what the part before its last separator leads to, if anything, may be appended to. */
  ghost predicate Creatable(lay: Layout, v: Volume, owners: Owners, path: seq<byte>) {
    && Walkable(lay, TreeOf(lay, v, owners), ROOT_INO, Elements(path)) && Find(TreeOf(lay, v, owners), path) == None
    && forall directory, name | Parts(path, directory, name) ::
         8 + |name| <= 512 * lay.spb && Appendable(lay, v, owners, directory)
  }

  /** The part before the last separator leads to a directory. */
  ghost predicate HasParent(dirs: Tree, path: seq<byte>) {
    exists directory, name :: Parts(path, directory, name) && Find(dirs, directory).Some? && Find(dirs, directory).value in dirs
  }

  /** Fills in the inode of the new file and writes its record. */
  method WriteNew(fe: FileEnt, ghost owners: Owners, ghost owners': Owners, ghost d: nat, ghost name: seq<byte>, ghost v: Volume,
                  ghost x: Volume, ghost free: nat, mode: nat, uid: nat, gid: nat, now: nat)
    requires fe.Valid() && !fe.dirty && Tended(fe.context, owners') && InodeExists(fe.context.lay, fe.inodeNumber)
    requires SameDirs(fe.context.lay, v, x, owners) && NewInode(fe.context.lay, v, x, fe.inodeNumber) && fe.inodeNumber !in owners
    requires Appended(fe.context.lay, x, free, fe.context.Vol(), owners, owners', d, fe.inodeNumber, name)
    modifies fe`inode, fe`cursor, fe`fsDirty, fe`dirty, fe`lbaBlock, fe.buffer, fe.context.sysbuf, fe.context.device
    ensures Tended(fe.context, owners') && Open(fe, {}) && Abstract(fe) == FlatFile.Flat([], 0) && !fe.dirty && !fe.fsDirty
    ensures fe.inode == NewRecord(mode, uid, gid, now)
    ensures Created(fe.context.lay, v, free, fe.context.Vol(), owners, owners', d, fe.inodeNumber, name, fe.inode)
  {
    hide SameDirs, NewInode, Appended, TablesOk, FreeUsable, Dirs, InodeExists, LayoutOk, FileState, Consistent, InodeFits, Created, WithInode,
      AccountBlock, Mapped, Content;
    ghost var y, lay := fe.context.Vol(), fe.context.lay;
    TendedFacts(fe.context, owners');
    fe.inode := NewRecord(mode, uid, gid, now);
    fe.cursor := 0;
    fe.fsDirty := true;
    NewRecordFits(mode, uid, gid, now);
    PadFits(fe.inode);
    FlushInode(fe);
    CreatedState(lay, v, x, y, fe.context.Vol(), free, owners, owners', d, fe.inodeNumber, name, fe.inode, fe.context.freeBlocksCount,
                 fe.context.freeInodesCount);
    StateVolume(lay, fe.context.Vol(), fe.inode.block, {});
    CreatedDirs(lay, v, free, fe.context.Vol(), owners, owners', d, fe.inodeNumber, name, fe.inode);
    EmptyFile(lay, fe.context.Vol(), fe.inode);
  }

  lemma CreatedDirs(lay: Layout, v: Volume, free: nat, w: Volume, owners: Owners, owners': Owners, d: nat, number: nat, name: seq<byte>,
                    inode: Inode)
    requires Created(lay, v, free, w, owners, owners', d, number, name, inode)
    ensures Dirs(lay, w, owners')
  {
    hide Dirs, TreeOf, Numbered, InodeAt, Survivors, DirOk, ForeignKept;
  }

  /** Enters the allocated inode into the directory and writes its record. */
  method EnterNew(fe: FileEnt, ghost owners: Owners, directory: seq<byte>, name: seq<byte>, ghost v: Volume, ghost free: nat,
                  mode: nat, uid: nat, gid: nat, now: nat) returns (r: int, ghost d: nat, ghost owners': Owners)
    requires fe.Valid() && !fe.dirty && Tended(fe.context, owners) && InodeExists(fe.context.lay, fe.inodeNumber) && Live(fe.inodeNumber)
    requires NewInode(fe.context.lay, v, fe.context.Vol(), fe.inodeNumber) && fe.inodeNumber !in owners
    requires SameDirs(fe.context.lay, v, fe.context.Vol(), owners) && free == fe.context.freeBlocksCount
    requires Appendable(fe.context.lay, v, owners, directory) && 8 + |name| <= 512 * fe.context.lay.spb
    modifies fe`inode, fe`cursor, fe`fsDirty, fe`dirty, fe`lbaBlock, fe.buffer, fe.context, fe.context.sysbuf, fe.context.device
    ensures Tended(fe.context, owners') && fe.context.freeInodesCount == old(fe.context.freeInodesCount)
    ensures var found := Find(TreeOf(fe.context.lay, v, owners), directory);
            && r == (if found.Some? && found.value in owners then 0 else -1)
            && (r == 0 ==> d == found.value)
    ensures r != 0 ==> fe.context.Vol() == old(fe.context.Vol()) && owners' == owners
    ensures r == 0 ==> Open(fe, {}) && Abstract(fe) == FlatFile.Flat([], 0) && !fe.dirty && !fe.fsDirty
    ensures r == 0 ==> fe.inode == NewRecord(mode, uid, gid, now)
    ensures r == 0 ==> Created(fe.context.lay, v, free, fe.context.Vol(), owners, owners', d, fe.inodeNumber, name, fe.inode)
  {
    hide Tended, TreeOf, Created, Find, Appendable, Appended, NewInode, SameDirs, NewRecord, Open, FileEnt.Logical, Live;
    ghost var x := fe.context.Vol();
    SameDirsHave(fe.context.lay, v, x, owners);
    AppendableKept(fe.context.lay, v, x, owners, directory);
    r, d, owners' := AppendToPath(fe.context, owners, directory, fe.inodeNumber, name);
    if r == 0 {
      WriteNew(fe, owners, owners', d, name, v, x, free, mode, uid, gid, now);
    }
  }

  /**
    `ext2_open` with `O_CREAT` on a path that leads nowhere. It succeeds if and only if there is a free inode and the
    directory part of the path leads to a directory. When only the latter fails, the inode stays allocated.
   */
  method Create(ctx: Context, ghost owners: Owners, path: seq<byte>, mode: nat, uid: nat, gid: nat, now: nat, canWrite: bool, append: bool)
    returns (r: int, fe: FileEnt, ghost d: nat, ghost name: seq<byte>, ghost owners': Owners)
    requires Tended(ctx, owners) && Creatable(ctx.lay, ctx.Vol(), owners, path) && NumbersOk(ctx.lay)
    modifies ctx, ctx.sysbuf, ctx.device
    ensures Tended(ctx, owners')
    ensures r == 0 <==> old(ctx.freeInodesCount) > 0 && HasParent(TreeOf(ctx.lay, old(ctx.Vol()), owners), path)
    ensures ctx.freeInodesCount == if old(ctx.freeInodesCount) > 0 then old(ctx.freeInodesCount) - 1 else 0
    ensures r != 0 ==> owners' == owners && TreeOf(ctx.lay, ctx.Vol(), owners) == TreeOf(ctx.lay, old(ctx.Vol()), owners)
    ensures r != 0 ==>
              if old(ctx.freeInodesCount) == 0 then ctx.Vol() == old(ctx.Vol())
              else NewInode(ctx.lay, old(ctx.Vol()), ctx.Vol(), fe.inodeNumber)
    ensures r == 0 ==> Chosen(ctx.lay, old(ctx.Vol()), fe.inodeNumber)
    ensures r == 0 ==> fresh(fe) && fe.context == ctx && Open(fe, {}) && Abstract(fe) == FlatFile.Flat([], 0) && !fe.dirty && !fe.fsDirty
    ensures r == 0 ==> fe.inode == NewRecord(mode, uid, gid, now) && fe.canWrite == canWrite && fe.appendMode == append
    ensures r == 0 ==> RegularFile(fe.inode, mode, uid, gid, now)
    ensures r == 0 ==> exists directory ::
              Parts(path, directory, name) && Find(TreeOf(ctx.lay, old(ctx.Vol()), owners), directory) == Some(d)
    ensures r == 0 ==> Created(ctx.lay, old(ctx.Vol()), old(ctx.freeBlocksCount), ctx.Vol(), owners, owners', d, fe.inodeNumber, name, fe.inode)
  {
    hide Tended, TreeOf, Created, Walkable, Elements, Find, Appendable, Appended, NewInode, SameDirs, WithInode, FreeBlocks, FreeInodes,
      NewRecord, RegularFile, Open, FileEnt.Logical, Parts, HasParent, Chosen, Live, VolumeOk, LayoutOk, TablesOk, Dirs, NumbersOk, AccountBlock, Content;
    ghost var v, lay, free := ctx.Vol(), ctx.lay, ctx.freeBlocksCount;
    ghost var dirs := TreeOf(lay, v, owners);
    d, name, owners' := 0, [], owners;
    TendedFacts(ctx, owners);
    fe := new FileEnt(ctx, NO_INODE);
    var found := LookupPath(fe, owners, path);
    TendedFacts(ctx, owners);
    NoEntry(lay);
    r := OpenInode(fe, NO_ENTRY);
    fe.canWrite, fe.appendMode := canWrite, append;
    r := AllocateNumber(fe, owners);
    if r != 0 {
      return;
    }
    SameDirsHave(lay, v, ctx.Vol(), owners);
    NewChosen(lay, v, ctx.Vol(), fe.inodeNumber);
    var parts := SplitLastSeparator(path);
    if parts.None? {
      NoParent(dirs, path);
      return -1, fe, 0, [], owners;
    }
    ParentIs(lay, v, owners, path, parts.value.0, parts.value.1);
    name := parts.value.1;
    NewRecordIs(mode, uid, gid, now);
    r, d, owners' := EnterNew(fe, owners, parts.value.0, parts.value.1, v, free, mode, uid, gid, now);
  }

  lemma NoEntry(lay: Layout)
    requires NumbersOk(lay)
    ensures !InodeExists(lay, NO_ENTRY)
  {
  }

  lemma NewChosen(lay: Layout, v: Volume, x: Volume, number: nat)
    requires NewInode(lay, v, x, number)
    ensures Chosen(lay, v, number)
  {
  }

  lemma NoParent(dirs: Tree, path: seq<byte>)
    requires SLASH !in path
    ensures !HasParent(dirs, path)
  {
    hide Find;
    PartsHave(path);
  }

  lemma PartsHave(path: seq<byte>)
    ensures (exists directory, name :: Parts(path, directory, name)) ==> SLASH in path
  {
    if directory, name :| Parts(path, directory, name) {
      assert path[|directory|] == SLASH;
    }
  }

  lemma ParentIs(lay: Layout, v: Volume, owners: Owners, path: seq<byte>, directory: seq<byte>, name: seq<byte>)
    requires path == directory + [SLASH] + name && SLASH !in name
    ensures Parts(path, directory, name)
    ensures var found := Find(TreeOf(lay, v, owners), directory);
            HasParent(TreeOf(lay, v, owners), path) <==> found.Some? && found.value in owners
  {
    hide Find, EntriesAt;
    SeparatorUnique(path, directory, name);
    assert Parts(path, directory, name);
  }

  /**
    Lookups after a creation: when the record of the entry had room, every path that led somewhere leads there still, and
    the new path leads to the new inode if and only if its name is shorter than 256 bytes. When it had none, the entries
    of the last block are lost; the path leads to the new inode under the same condition if its directory is still found.
   */
  lemma CreatedFound(lay: Layout, v: Volume, free: nat, w: Volume, owners: Owners, owners': Owners, d: nat, number: nat,
                     directory: seq<byte>, name: seq<byte>, inode: Inode)
    requires Created(lay, v, free, w, owners, owners', d, number, name, inode)
    requires SLASH !in name && NoNul(name) && |directory| + 1 + |name| < MAX_PATH_LEN && |Tokens(directory)| < MAX_PATH_LEVELS
    requires Find(TreeOf(lay, v, owners), directory) == Some(d) && Find(TreeOf(lay, v, owners), directory + [SLASH] + name) == None
    requires SmallBlocks(lay.spb) && Live(number) && 8 + |name| <= 512 * lay.spb
    ensures var bs, c := 512 * lay.spb, BytesAt(lay, v, d);
            var room := KeepsEntries(c, bs, name, RoomIn(lay, v, free, d));
            var dirs, dirs', path := TreeOf(lay, v, owners), TreeOf(lay, w, owners'), directory + [SLASH] + name;
            && (room ==> (forall p | Find(dirs, p).Some? :: Find(dirs', p) == Find(dirs, p)))
            && (room || Find(dirs', directory) == Some(d) ==> (Find(dirs', path) == Some(number) <==> |name| < 256))
  {
    hide Find, Tokens, DirOk, KeepsEntries, Survivors, NoNul, DirAt, EntriesAt, BytesAt, RoomIn, Numbered, InodeAt, ForeignKept, InodeTaken, Chain,
      Listing;
    DirEntries(lay, v, d, owners[d]);
    CreateThenFind(TreeOf(lay, v, owners), TreeOf(lay, w, owners'), directory, name, d, number, BytesAt(lay, v, d), 512 * lay.spb,
                   RoomIn(lay, v, free, d));
  }
}
