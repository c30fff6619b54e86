/** Bringing the sector under the cursor into the buffer, growing the file when its block is missing. */
module SelectBlock {
  import opened Bytes
  import opened Volumes
  import opened PointerTree
  import opened TreeInvariant
  import opened BlockMap
  import opened FileContent
  import opened Handles
  import opened Buffer
  import opened BlockGroups
  import opened Accounting
  import opened Allocator
  import opened Search
  import opened Growth

  /** An open file on a consistent volume whose tree lives in the blocks `used`. */
  ghost predicate Ready(fe: FileEnt, used: set<nat>)
    reads fe`dirty, fe`lbaBlock, fe`cursor, fe`inode, fe.context, fe.context.device, fe.buffer
  {
    && fe.Valid() && SmallBlocks(fe.context.lay.spb) && fe.cursor >= 0
    && Mounted(fe.context, fe.Logical())
    && FileState(fe.context.lay, fe.Logical(), fe.inode.block, used)
    && DirtyOutside(fe)
  }

  /** A sector of a block that is not structural may stay in the buffer. */
  lemma DirtyDataBlock(fe: FileEnt, b: nat)
    requires fe.Valid() && LayoutOk(fe.context.lay, fe.Logical()) && b !in fe.context.lay.reserved
    requires b * fe.context.lay.spb <= fe.lbaBlock < b * fe.context.lay.spb + fe.context.lay.spb
    ensures DirtyOutside(fe)
  {
    var spb := fe.context.lay.spb;
    forall c: nat | AccountBlock(fe.context.lay, c)
      ensures !(c * spb <= fe.lbaBlock < c * spb + spb)
    {
      AccountReserved(fe.context.lay, fe.Logical(), c);
      if c < b {
        BlockGap(spb, c, b);
      } else {
        BlockGap(spb, b, c);
      }
    }
  }

  /** The table and entry of an indirect block index, as the lookups compute them. */
  lemma LastTable(n: nat, idx: nat)
    requires n > 0 && 12 <= idx < MaxBlocks(n)
    ensures idx - 12 < n ==> InitOf(n, idx) == [] && LastOf(n, idx) == idx - 12
    ensures n <= idx - 12 < n + n * n ==> InitOf(n, idx) == [(idx - 12 - n) / n] && LastOf(n, idx) == (idx - 12 - n) % n
    ensures n + n * n <= idx - 12 ==>
              var j := idx - 12 - n - n * n;
              n * n > 0 && InitOf(n, idx) == [j / (n * n), j / n % n] && LastOf(n, idx) == j % n
  {
    PathOfIndex(n, idx);
    if n + n * n <= idx - 12 {
      DivDiv(idx, n, n);
    }
  }

  /** Loads the number of the pointer table that holds the slot of block `idx`. */
  method LoadTable(fe: FileEnt, ghost used: set<nat>, idx: nat) returns (m: nat, d: nat)
    requires fe.Valid() && idx >= 12 && FileOk(fe.Logical(), fe.inode.block, used, 0)
    requires HasSlot(fe.Logical(), fe.inode.block, idx)
    modifies fe`dirty, fe`lbaBlock, fe.buffer, fe.context.device
    ensures fe.Valid() && fe.Logical() == old(fe.Logical())
    ensures fe.dirty ==> old(fe.dirty) && fe.lbaBlock == old(fe.lbaBlock)
    ensures var n := Entries(fe.Logical());
            m == At(fe.Logical(), fe.inode.block, SlotOf(n, idx), InitOf(n, idx)) && d == LastOf(n, idx)
  {
    ghost var v, roots := fe.Logical(), fe.inode.block;
    var n := 128 * fe.context.lay.spb;
    PathOfIndex(n, idx);
    LastTable(n, idx);
    DigitsSplit(n, idx);
    InitWalk(v, roots, used, idx);
    var j := idx - 12;
    if j < n {
      m, d := fe.inode.block[12], j;
      return;
    }
    j := j - n;
    if j < n * n {
      m := LoadPointer(fe, fe.inode.block[13], j / n);
      d := j % n;
      Walk1(v, roots[13], j / n);
      return;
    }
    j := j - n * n;
    m := LoadDouble(fe, fe.inode.block[14], j / (n * n), j / n % n);
    d := j % n;
  }

  lemma InitWalk(v: Volume, roots: Roots, used: set<nat>, idx: nat)
    requires FileOk(v, roots, used, 0) && HasSlot(v, roots, idx) && idx >= 12
    ensures var n := Entries(v);
            && WalkIn(v, roots[SlotOf(n, idx)], InitOf(n, idx))
            && Walk(v, roots[SlotOf(n, idx)], InitOf(n, idx)) == At(v, roots, SlotOf(n, idx), InitOf(n, idx))
  {
    var n := Entries(v);
    DigitsSplit(n, idx);
    var slot, init := SlotOf(n, idx), InitOf(n, idx);
    forall k | 0 <= k < |init| && Node(v, roots[slot], init[..k]) != 0
      ensures InVolume(v, Node(v, roots[slot], init[..k]))
    {
      assert Path(n, slot, init[..k]);
      assert At(v, roots, slot, init[..k]) in used;
    }
    NodeWalkIn(v, roots[slot], init);
    NodeIsWalk(v, roots[slot], init);
  }

  /** Stores `block` in the slot for block index `idx`: in the inode, or in the pointer table that holds the slot. */
  method LinkBlock(fe: FileEnt, ghost used: set<nat>, idx: nat, block: nat)
    requires Ready(fe, used) && !fe.dirty && block < WORD
    requires HasSlot(fe.Logical(), fe.inode.block, idx) && LeafAt(fe.Logical(), fe.inode.block, idx) == 0
    requires Spare(fe.context.lay, fe.Logical(), used, block)
    modifies fe`inode, fe`dirty, fe`lbaBlock, fe.buffer, fe.context.device
    ensures Ready(fe, used + {block})
    ensures fe.inode == old(fe.inode).(block := fe.inode.block)
    ensures Preserved(old(fe.Logical()), old(fe.inode.block), fe.Logical(), fe.inode.block)
    ensures OnlyIn(old(fe.Logical()), fe.Logical(), used)
    ensures OtherLeaves(old(fe.Logical()), old(fe.inode.block), fe.Logical(), fe.inode.block, idx)
    ensures LeafAt(fe.Logical(), fe.inode.block, idx) == block
  {
    hide FileEnt.Logical, Consistent, FileState, FileOk, LeafAt, HasSlot, Spare, Preserved, OtherLeaves, LayoutOk, VolumeOk,
      WithPointer, At, InVolume, SectorOf, DirtyOutside, OnlyIn;
    ghost var v, roots, lay := fe.Logical(), fe.inode.block, fe.context.lay;
    NothingChanged(fe, used);
    if idx < 12 {
      LinkDirect(lay, v, roots, used, idx, block);
      fe.inode := fe.inode.(block := fe.inode.block[idx := block]);
      return;
    }
    var m, d := LoadTable(fe, used, idx);
    LinkIndirect(lay, v, roots, used, idx, m, block);
    WritePointer(fe, m, d, block);
    OwnTable(lay, v, fe.Logical(), roots, used, m);
    DirtyDataBlock(fe, m);
  }

  lemma NothingChanged(fe: FileEnt, used: set<nat>)
    requires fe.Valid() && FileState(fe.context.lay, fe.Logical(), fe.inode.block, used)
    ensures FileOk(fe.Logical(), fe.inode.block, used, 0) && OnlyIn(fe.Logical(), fe.Logical(), used)
    ensures !fe.dirty ==> DirtyOutside(fe)
  {
  }

  lemma OwnTable(lay: Layout, v: Volume, w: Volume, roots: Roots, used: set<nat>, m: nat)
    requires FileState(lay, v, roots, used) && OnlyIn(v, w, {m}) && m in used
    ensures OnlyIn(v, w, used) && LayoutOk(lay, w) && m !in lay.reserved
    ensures forall blocks: nat, inodes: nat :: Consistent(lay, v, blocks, inodes) ==> Consistent(lay, w, blocks, inodes)
  {
    OwnWrites(lay, v, w, roots, used, {m});
  }

  lemma EntrySector(v: Volume, d: nat)
    requires d < Entries(v)
    ensures 4 * d < 512 * v.spb && 4 * d / 512 < v.spb && 4 * d % 512 <= 508
  {
  }

  /** Overwrites entry `d` of pointer table `m` through the buffer. */
  method WritePointer(fe: FileEnt, m: nat, d: nat, block: nat)
    requires fe.Valid() && InVolume(fe.Logical(), m) && d < Entries(fe.Logical())
    modifies fe`dirty, fe`lbaBlock, fe.buffer, fe.context.device
    ensures fe.Valid() && fe.lbaBlock == m * fe.context.lay.spb + 4 * d / 512 && 4 * d / 512 < fe.context.lay.spb
    ensures SectorOf(old(fe.Logical()), m, 4 * d) < |old(fe.Logical()).sectors|
    ensures fe.Logical() == WithPointer(old(fe.Logical()), m, d, block)
  {
    hide Enc32, InVolume, Entries;
    EntrySector(fe.Logical(), d);
    var r := LoadBuffer(fe, m, d * 4);
    WriteBuffer(fe, Enc32(block), d * 4);
  }

  // ----- the sector under the cursor

  /** `((cursor / bs) - 1) * bs` as a 64-bit unsigned number: beyond any file when the cursor is in the first block. */
  function PreviousOffset(spb: nat, cursor: nat): nat
    requires spb > 0
  {
    (cursor / (512 * spb) - 1) * (512 * spb) % 0x1_0000_0000_0000_0000
  }

  lemma BeforeFirst(bs: nat)
    requires bs == 1024 || bs == 2048 || bs == 4096
    ensures (0 - bs) % 0x1_0000_0000_0000_0000 / bs % WORD == WORD - 1
  {
    if bs == 1024 {
    } else if bs == 2048 {
    } else {
    }
  }

  lemma PreviousIndex(spb: nat, cursor: nat)
    requires SmallBlocks(spb) && cursor < 0x8000_0000_0000_0000
    ensures BlockIndex(spb, PreviousOffset(spb, cursor)) ==
            if cursor / (512 * spb) == 0 then WORD - 1 else (cursor / (512 * spb) - 1) % WORD
  {
    var bs := 512 * spb;
    var q := cursor / bs;
    if q == 0 {
      BeforeFirst(bs);
    } else {
      assert cursor == q * bs + cursor % bs;
      OneMore(q - 1, bs);
      assert (q - 1) * bs % 0x1_0000_0000_0000_0000 == (q - 1) * bs;
      DivModUnique(q - 1, bs, 0);
    }
  }

  lemma MaxBlocksFits(spb: nat)
    requires SmallBlocks(spb)
    ensures MaxBlocks(128 * spb) < WORD - 1
  {
  }

  /** Byte `cursor` of the file is byte `cursor % 512` of the file's sector `cursor / 512`. */
  lemma CursorSector(v: Volume, roots: Roots, cursor: nat)
    requires v.spb > 0
    ensures cursor / (512 * v.spb) == Div(cursor / 512, v.spb) && cursor % (512 * v.spb) < 512 * v.spb
    ensures cursor % (512 * v.spb) % 512 == cursor % 512
    ensures SectorOf(v, LeafAt(v, roots, Div(cursor / 512, v.spb)), cursor % (512 * v.spb)) ==
            FileSector(v, roots, cursor / 512)
  {
    DivDiv(cursor, 512, v.spb);
    DivModUnique(Mod(cursor / 512, v.spb), 512, cursor % 512);
  }

  /** The buffer holds the sector of the file under the cursor, unmodified. */
  ghost predicate AtCursor(fe: FileEnt)
    requires fe.cursor >= 0 && fe.context.lay.spb > 0
    reads fe`dirty, fe`lbaBlock, fe`cursor, fe`inode, fe.context.device, fe.buffer
  {
    var v := fe.Logical();
    && !fe.dirty && LeafAt(v, fe.inode.block, Div(fe.cursor / 512, v.spb)) != 0
    && FileSector(v, fe.inode.block, fe.cursor / 512) == v.part + fe.lbaBlock < |v.sectors|
    && fe.buffer[..] == v.sectors[v.part + fe.lbaBlock]
  }

  ghost function CursorBlock(fe: FileEnt): nat
    requires fe.cursor >= 0 && fe.context.lay.spb > 0
    reads fe`cursor
  {
    Div(fe.cursor / 512, fe.context.lay.spb)
  }

  method LoadCursor(fe: FileEnt, ghost used: set<nat>, block: nat)
    requires Ready(fe, used) && block != 0 && block == LeafAt(fe.Logical(), fe.inode.block, CursorBlock(fe))
    modifies fe`dirty, fe`lbaBlock, fe.buffer, fe.context.device
    ensures Ready(fe, used) && AtCursor(fe) && !fe.dirty && fe.Logical() == old(fe.Logical())
  {
    hide FileEnt.Logical, FileState, FileOk, Consistent, VolumeOk, LeafAt, Div, InVolume, FileSector;
    ghost var v, roots := fe.Logical(), fe.inode.block;
    StateIsFile(fe.context.lay, v, roots, used);
    CursorSector(v, roots, fe.cursor);
    PresentBlock(v, roots, used, 0, CursorBlock(fe));
    var r := LoadBuffer(fe, block, fe.cursor % (512 * fe.context.lay.spb));
  }

  lemma StateIsFile(lay: Layout, v: Volume, roots: Roots, used: set<nat>)
    requires FileState(lay, v, roots, used)
    ensures FileOk(v, roots, used, 0) && v.spb > 0
  {
  }

  lemma CursorIndexes(spb: nat, cursor: nat)
    requires SmallBlocks(spb) && cursor < 0x8000_0000_0000_0000 && Div(cursor / 512, spb) < MaxBlocks(128 * spb)
    ensures var idx := Div(cursor / 512, spb);
            && BlockIndex(spb, cursor) == idx
            && BlockIndex(spb, PreviousOffset(spb, cursor)) == if idx == 0 then WORD - 1 else idx - 1
  {
    MaxBlocksFits(spb);
    PreviousIndex(spb, cursor);
    DivDiv(cursor, 512, spb);
  }

  /** Both lookups of `FindBlock` stay inside the volume, and the first finds the block under the cursor. */
  lemma CursorLookups(v: Volume, roots: Roots, used: set<nat>, cursor: nat)
    requires SmallBlocks(v.spb) && FileOk(v, roots, used, 0) && cursor < 0x8000_0000_0000_0000
    requires HasSlot(v, roots, Div(cursor / 512, v.spb))
    requires Div(cursor / 512, v.spb) > 0 ==> HasSlot(v, roots, Div(cursor / 512, v.spb) - 1)
    ensures PathIn(v, roots, BlockIndex(v.spb, cursor))
    ensures PathIn(v, roots, BlockIndex(v.spb, PreviousOffset(v.spb, cursor)))
    ensures BlockIndex(v.spb, cursor) < MaxBlocks(Entries(v))
    ensures Lookup(v, roots, BlockIndex(v.spb, cursor)) == LeafAt(v, roots, Div(cursor / 512, v.spb))
  {
    hide BlockIndex, PreviousOffset, Div, Lookup, LeafAt, MaxBlocks;
    var idx := Div(cursor / 512, v.spb);
    CursorIndexes(v.spb, cursor);
    MaxBlocksFits(v.spb);
    SlotInVolume(v, roots, used, idx);
    if idx > 0 {
      SlotInVolume(v, roots, used, idx - 1);
    }
  }

  /** The lookup of the block that holds byte `cursor`. */
  method FindBlock(fe: FileEnt, ghost used: set<nat>) returns (block: nat)
    requires Ready(fe, used) && HasSlot(fe.Logical(), fe.inode.block, CursorBlock(fe))
    requires fe.cursor < 0x8000_0000_0000_0000
    requires CursorBlock(fe) > 0 ==> HasSlot(fe.Logical(), fe.inode.block, CursorBlock(fe) - 1)
    modifies fe`dirty, fe`lbaBlock, fe.buffer, fe.context.device
    ensures Ready(fe, used) && fe.Logical() == old(fe.Logical())
    ensures block == LeafAt(fe.Logical(), fe.inode.block, CursorBlock(fe))
  {
    hide MaxBlocks, LeafAt, HasSlot, PathIn, FileEnt.Logical, Lookup, BlockIndex, PreviousOffset, Consistent, FileOk, VolumeOk;
    CursorLookups(fe.Logical(), fe.inode.block, used, fe.cursor);
    block := BlockFromOffset(fe, fe.cursor);
    var previous := BlockFromOffset(fe, PreviousOffset(fe.context.lay.spb, fe.cursor));
  }

  /** Takes a free block and links it as block `idx` of the file; 0 when the volume is full. */
  method GrowFile(fe: FileEnt, ghost used: set<nat>, idx: nat) returns (block: nat)
    requires Ready(fe, used) && HasSlot(fe.Logical(), fe.inode.block, idx) && LeafAt(fe.Logical(), fe.inode.block, idx) == 0
    modifies fe`inode, fe`dirty, fe`lbaBlock, fe.buffer, fe.context, fe.context.sysbuf, fe.context.device
    ensures block == 0 <==> old(fe.context.freeBlocksCount) == 0
    ensures block == 0 ==> Ready(fe, used) && fe.Logical() == old(fe.Logical()) && fe.inode == old(fe.inode)
    ensures block != 0 ==> Ready(fe, used + {block}) && fe.inode == old(fe.inode).(block := fe.inode.block)
    ensures block != 0 ==> block !in used && !Allocated(fe.context.lay, old(fe.Logical()), block)
    ensures Took(fe.context.lay, old(fe.Logical()), fe.Logical(), if block == 0 then {} else {block})
    ensures block != 0 ==> LeafAt(fe.Logical(), fe.inode.block, idx) == block
    ensures OtherLeaves(old(fe.Logical()), old(fe.inode.block), fe.Logical(), fe.inode.block, idx)
    ensures Preserved(old(fe.Logical()), old(fe.inode.block), fe.Logical(), fe.inode.block)
    ensures block != 0 ==> Isolated(fe.context.lay, old(fe.Logical()), used, fe.Logical(), used + {block})
    ensures fe.context.freeBlocksCount == old(fe.context.freeBlocksCount) - (if block == 0 then 0 else 1)
  {
    hide FileState, FileOk, Consistent, VolumeOk, LayoutOk, Preserved, Isolated, OtherLeaves, LeafAt, HasSlot, NewBlock, Spare, AllocStep,
      Took, Allocated, OnlyIn, FileEnt.Logical, FreeUsable;
    ghost var v, roots, lay := fe.Logical(), fe.inode.block, fe.context.lay;
    StateFacts(lay, v, roots, used, idx);
    TookNone(lay, v);
    block := AllocateBlock(fe);
    if block == 0 {
      return;
    }
    ghost var w := fe.Logical();
    TakenForSlot(lay, v, w, roots, used, block, idx);
    LinkBlock(fe, used, idx, block);
    LinkedAfterTaken(lay, v, w, fe.Logical(), roots, fe.inode.block, used, block, idx);
  }

  lemma StateFacts(lay: Layout, v: Volume, roots: Roots, used: set<nat>, idx: nat)
    requires FileState(lay, v, roots, used)
    ensures FreeUsable(lay, v) && Preserved(v, roots, v, roots) && OtherLeaves(v, roots, v, roots, idx)
  {
  }

  lemma IsolatedSame(lay: Layout, v: Volume, used: set<nat>)
    ensures Isolated(lay, v, used, v, used)
  {
  }

  lemma TookNone(lay: Layout, v: Volume)
    ensures Took(lay, v, v, {})
  {
  }

  lemma TakenForSlot(lay: Layout, v: Volume, w: Volume, roots: Roots, used: set<nat>, block: nat, idx: nat)
    requires FileState(lay, v, roots, used) && NewBlock(lay, v, w, block)
    requires HasSlot(v, roots, idx) && LeafAt(v, roots, idx) == 0
    ensures FileState(lay, w, roots, used) && Preserved(v, roots, w, roots) && OtherLeaves(v, roots, w, roots, idx)
    ensures HasSlot(w, roots, idx) && LeafAt(w, roots, idx) == 0
    ensures block != 0 && block < WORD && block !in used && !Allocated(lay, v, block) && Spare(lay, w, used, block)
    ensures Isolated(lay, v, used, w, used + {block}) && Took(lay, v, w, {block})
  {
    TakenBlock(lay, v, w, roots, used, block);
  }

  lemma LinkedAfterTaken(lay: Layout, v: Volume, w: Volume, x: Volume, roots: Roots, roots': Roots, used: set<nat>,
                         block: nat, idx: nat)
    requires Preserved(v, roots, w, roots) && Preserved(w, roots, x, roots')
    requires OtherLeaves(v, roots, w, roots, idx) && OtherLeaves(w, roots, x, roots', idx)
    requires Isolated(lay, v, used, w, used + {block}) && FileState(lay, w, roots, used) && OnlyIn(w, x, used)
    requires Took(lay, v, w, {block})
    ensures Preserved(v, roots, x, roots') && Isolated(lay, v, used, x, used + {block}) && Took(lay, v, x, {block})
    ensures OtherLeaves(v, roots, x, roots', idx)
  {
    hide Isolated, LeafAt, HasSlot, ByteAt, FileState, Allocated, OnlyIn, VolumeOk, FreeUsable;
    OwnWrites(lay, w, x, roots, used, used);
    OwnIsolated(lay, v, w, x, used, block);
  }

  lemma OwnIsolated(lay: Layout, v: Volume, w: Volume, x: Volume, used: set<nat>, block: nat)
    requires Isolated(lay, v, used, w, used + {block}) && Isolated(lay, w, used, x, used) && OnlyIn(w, x, used)
    ensures Isolated(lay, v, used, x, used + {block})
  {
    hide BitsKept, Allocated, SameBlock, AccountBlock;
    forall g | 0 <= g < |lay.inodeBitmap|
      ensures BitsKept(v, x, lay.inodeBitmap[g], {})
    {
      BitsKeptTrans(v, w, x, lay.inodeBitmap[g]);
    }
    forall b | Foreign(lay, v, used, b)
      ensures Foreign(lay, x, used + {block}, b) && SameBlock(v, x, b)
    {
      SameBlockTrans(v, w, x, b);
    }
    forall b | Protected(lay, b)
      ensures SameBlock(v, x, b)
    {
      SameBlockTrans(v, w, x, b);
    }
  }

  lemma BitsKeptTrans(v: Volume, w: Volume, x: Volume, bm: nat)
    requires BitsKept(v, w, bm, {}) && BitsKept(w, x, bm, {}) && v.spb == w.spb
    ensures BitsKept(v, x, bm, {})
  {
  }

  lemma SameBlockTrans(v: Volume, w: Volume, x: Volume, b: nat)
    requires SameShape(v, w) && SameShape(w, x) && SameBlock(v, w, b) && SameBlock(w, x, b)
    ensures SameShape(v, x) && SameBlock(v, x, b)
  {
  }

  /**
    Loads the sector under the cursor. A missing block is allocated and linked if the file is open for writing;
    the result is -1 exactly when it is missing and cannot be. The file keeps all bytes it had, and so do all others.
   */
  method SelectBuffer(fe: FileEnt, ghost used: set<nat>) returns (r: int, ghost used': set<nat>)
    requires Ready(fe, used) && HasSlot(fe.Logical(), fe.inode.block, CursorBlock(fe))
    requires fe.cursor < 0x8000_0000_0000_0000
    requires CursorBlock(fe) > 0 ==> HasSlot(fe.Logical(), fe.inode.block, CursorBlock(fe) - 1)
    modifies fe`inode, fe`dirty, fe`lbaBlock, fe.buffer, fe.context, fe.context.sysbuf, fe.context.device
    ensures Ready(fe, used') && fe.inode == old(fe.inode).(block := fe.inode.block)
    ensures Preserved(old(fe.Logical()), old(fe.inode.block), fe.Logical(), fe.inode.block)
    ensures Isolated(fe.context.lay, old(fe.Logical()), used, fe.Logical(), used')
    ensures r == if LeafAt(old(fe.Logical()), old(fe.inode.block), CursorBlock(fe)) == 0
                 && (!fe.canWrite || old(fe.context.freeBlocksCount) == 0) then -1 else 0
    ensures OtherLeaves(old(fe.Logical()), old(fe.inode.block), fe.Logical(), fe.inode.block, CursorBlock(fe))
    ensures r == 0 ==> AtCursor(fe) && !fe.dirty
    ensures used <= used' && |used' - used| <= 1 && Took(fe.context.lay, old(fe.Logical()), fe.Logical(), used' - used)
    ensures LeafAt(old(fe.Logical()), old(fe.inode.block), CursorBlock(fe)) != 0 || r != 0 ==>
              fe.Logical() == old(fe.Logical()) && used' == used && fe.inode == old(fe.inode)
    ensures fe.context.freeBlocksCount == old(fe.context.freeBlocksCount)
            - (if LeafAt(old(fe.Logical()), old(fe.inode.block), CursorBlock(fe)) == 0 && r == 0 then 1 else 0)
  {
    hide Consistent, FileState, FileOk, LeafAt, HasSlot, Preserved, OtherLeaves, Isolated, LayoutOk, VolumeOk, FileEnt.Logical,
      DirtyOutside, AtCursor, Allocated, Took;
    StateFacts(fe.context.lay, fe.Logical(), fe.inode.block, used, CursorBlock(fe));
    IsolatedSame(fe.context.lay, fe.Logical(), used);
    used' := used;
    TookNone(fe.context.lay, fe.Logical());
    assert used - used == {};
    var block := FindBlock(fe, used);
    if block != 0 {
      LoadCursor(fe, used, block);
    } else if fe.canWrite {
      var newBlock := GrowFile(fe, used, fe.cursor / 512 / fe.context.lay.spb);
      if newBlock == 0 {
        return -1, used;
      }
      used' := used + {newBlock};
      assert used' - used == {newBlock};
      LoadCursor(fe, used', newBlock);
    } else {
      return -1, used;
    }
    r := 0;
  }
}
