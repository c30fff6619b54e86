/** Truncating a file: every block of its tree is freed, once, and every pointer of the inode is cleared. */
module Truncate {
  import opened Volumes
  import opened PointerTree
  import opened TreeInvariant
  import opened BlockMap
  import opened FileContent
  import opened Handles
  import opened BlockGroups
  import opened Descriptors
  import opened Accounting
  import opened Allocator
  import opened Search
  import opened Growth
  import opened SelectBlock
  import opened FreedBlocks

  /** `w` is `v` with the blocks of `freed` no longer allocated. */
  ghost predicate FreedState(lay: Layout, v: Volume, w: Volume, freed: seq<nat>) {
    && SameShape(v, w) && VolumeOk(lay, w)
    && (forall b: nat :: Allocated(lay, w, b) <==> Allocated(lay, v, b) && b !in freed)
    && InodeBitsKept(lay, v, w)
    && (forall b | !AccountBlock(lay, b) :: SameBlock(v, w, b))
    && FreeBlocks(lay, w) == FreeBlocks(lay, v) + |freed| && FreeInodes(lay, w) == FreeInodes(lay, v)
  }

  /** The list that is being freed: distinct data blocks that are allocated in `v`. */
  ghost predicate Plan(lay: Layout, v: Volume, plan: seq<nat>) {
    && NoDup(plan)
    && forall b | b in plan :: b != 0 && Allocated(lay, v, b) && InVolume(v, b) && !AccountBlock(lay, b)
  }

  lemma FreedStateStep(lay: Layout, v: Volume, w: Volume, x: Volume, freed: seq<nat>, b: nat)
    requires FreedState(lay, v, w, freed) && b !in freed && Allocated(lay, v, b)
    requires AllocStep(lay, w, x, false, GroupOf(lay, b), BitOf(lay, b), false)
    ensures FreedState(lay, v, x, freed + [b])
  {
    hide ClearBits, Total, BitAt, Allocated, LayoutOk, CopiesOk, GroupOk, FreeBlocks, FreeInodes;
    StepKeepsVolume(lay, w, x, false, GroupOf(lay, b), BitOf(lay, b), false);
    BlockInGroups(lay, v, b);
    StepAllocated(lay, w, x, b, false);
  }

  lemma DirsChangeStep(lay: Layout, v: Volume, w: Volume, x: Volume, blocks: seq<nat>, b: nat, d: int)
    requires DirsChange(lay, v, w, blocks, d) && DirsChange(lay, w, x, [b], d)
    ensures DirsChange(lay, v, x, blocks + [b], d)
  {
    hide DirsIn, CountIn;
    var k := if d > 0 then 1 else if d < 0 then -1 else 0;
    forall g: nat
      ensures (DirsIn(lay, x, g) - DirsIn(lay, v, g) - k * CountIn(lay, blocks + [b], g)) % 0x1_0000 == 0
    {
      CountSnoc(lay, blocks, b, g);
      ModSum(DirsIn(lay, v, g), DirsIn(lay, w, g), DirsIn(lay, x, g), CountIn(lay, blocks, g), CountIn(lay, [b], g), k);
    }
  }

  lemma CountSnoc(lay: Layout, blocks: seq<nat>, b: nat, g: nat)
    ensures CountIn(lay, blocks + [b], g) == CountIn(lay, blocks, g) + CountIn(lay, [b], g)
  {
    hide InGroups, GroupOf;
    assert (blocks + [b])[..|blocks|] == blocks && [b][..0] == [];
  }

  lemma ModSum(v: int, w: int, x: int, m: int, n: int, k: int)
    requires (w - v - k * m) % 0x1_0000 == 0 && (x - w - k * n) % 0x1_0000 == 0
    ensures (x - v - k * (m + n)) % 0x1_0000 == 0
  {
    assert k * (m + n) == k * m + k * n;
  }

  lemma BlockInGroups(lay: Layout, v: Volume, b: nat)
    requires Allocated(lay, v, b)
    ensures InGroups(lay, b)
  {
  }

  /** The blocks of `freed` are free, and the rest of the plan is to follow. */
  ghost predicate Freeing(fe: FileEnt, v: Volume, plan: seq<nat>, freed: seq<nat>, isDir: bool)
    reads fe`dirty, fe`lbaBlock, fe.context, fe.context.device
  {
    && fe.Valid() && !fe.dirty && freed <= plan && Plan(fe.context.lay, v, plan)
    && FreedState(fe.context.lay, v, fe.context.Vol(), freed)
    && fe.context.freeBlocksCount == FreeBlocks(fe.context.lay, fe.context.Vol())
    && fe.context.freeInodesCount == FreeInodes(fe.context.lay, fe.context.Vol())
    && DirsChange(fe.context.lay, v, fe.context.Vol(), freed, if isDir then -1 else 0)
  }

  /** Frees the next block of the plan. */
  method FreeBlock(fe: FileEnt, b: nat, isDir: bool, ghost v: Volume, ghost plan: seq<nat>, ghost freed: seq<nat>)
    requires Freeing(fe, v, plan, freed, isDir) && freed + [b] <= plan
    modifies fe.context, fe.context.sysbuf, fe.context.device
    ensures Freeing(fe, v, plan, freed + [b], isDir)
  {
    hide FreeBlocks, FreeInodes, VolumeOk, Allocated, AllocStep, AccountBlock, Plan, InGroups, DirsChange;
    ghost var w := fe.context.Vol();
    NextOfPlan(fe.context.lay, v, w, plan, freed, b);
    var r := ChangeAllocated(fe.context, b, false, isDir);
    FreedStateStep(fe.context.lay, v, w, fe.context.Vol(), freed, b);
    DirsChangeStep(fe.context.lay, v, w, fe.context.Vol(), freed, b, if isDir then -1 else 0);
  }

  lemma NextOfPlan(lay: Layout, v: Volume, w: Volume, plan: seq<nat>, freed: seq<nat>, b: nat)
    requires FreedState(lay, v, w, freed) && Plan(lay, v, plan) && freed + [b] <= plan
    ensures b !in freed && InGroups(lay, b) && Allocated(lay, v, b) && Allocated(lay, w, b)
  {
    assert plan[|freed|] == (freed + [b])[|freed|] == b;
    assert b in plan;
    assert forall i | 0 <= i < |freed| :: freed[i] == plan[i];
  }

  lemma TableOfPlan(lay: Layout, v: Volume, w: Volume, plan: seq<nat>, freed: seq<nat>, b: nat)
    requires FreedState(lay, v, w, freed) && Plan(lay, v, plan) && b in plan
    ensures InVolume(w, b) && forall a: nat :: Ptr(w, b, a) == Ptr(v, b, a)
  {
    forall a: nat
      ensures Ptr(w, b, a) == Ptr(v, b, a)
    {
      SamePtr(v, w, b, a);
    }
  }

  lemma FreedUnfold(v: Volume, b: nat, depth: nat, a: nat, done: seq<nat>)
    requires depth > 0 && a < Entries(v) && Ptr(v, b, a) != 0
    ensures done + FreedFrom(v, b, depth, a) + [b] ==
            done + Freed(v, Ptr(v, b, a), depth - 1) + FreedFrom(v, b, depth, a + 1) + [b]
  {
  }

  lemma PlanPrefix(done: seq<nat>, part: seq<nat>, rest: seq<nat>, b: nat, plan: seq<nat>)
    requires done + part + rest + [b] <= plan
    ensures done + part <= plan && b in plan
  {
    assert done + part == (done + part + rest + [b])[..|done + part|];
    assert plan[|done + part + rest|] == b;
  }

  method LoadFreed(fe: FileEnt, b: nat, i: nat, ghost v: Volume, ghost plan: seq<nat>, ghost freed: seq<nat>, ghost isDir: bool)
    returns (p: nat)
    requires Freeing(fe, v, plan, freed, isDir) && b in plan && i < Entries(v)
    modifies fe`dirty, fe`lbaBlock, fe.buffer, fe.context.device
    ensures Freeing(fe, v, plan, freed, isDir) && p == Ptr(v, b, i)
  {
    hide FreeBlocks, FreeInodes, VolumeOk, Allocated, AccountBlock, Plan, Ptr, DirsChange;
    TableOfPlan(fe.context.lay, v, fe.context.Vol(), plan, freed, b);
    p := LoadPointer(fe, b, i);
  }

  /**
    Frees the blocks below table `b` and then the table itself: the one, two or three nested loops of the driver
    for `depth` 1, 2 or 3.
   */
  method FreeTable(fe: FileEnt, b: nat, depth: nat, isDir: bool, ghost v: Volume, ghost plan: seq<nat>, ghost freed: seq<nat>)
    requires depth > 0 && Freeing(fe, v, plan, freed, isDir) && freed + Freed(v, b, depth) <= plan && v.spb == fe.context.lay.spb
    modifies fe`dirty, fe`lbaBlock, fe.buffer, fe.context, fe.context.sysbuf, fe.context.device
    ensures Freeing(fe, v, plan, freed + Freed(v, b, depth), isDir)
    decreases depth
  {
    hide Freeing, Ptr;
    var i := 0;
    ghost var done := freed;
    assert freed + Freed(v, b, depth) == freed + FreedFrom(v, b, depth, 0) + [b];
    while i < 128 * fe.context.lay.spb
      invariant i <= Entries(v) && Freeing(fe, v, plan, done, isDir)
      invariant done + FreedFrom(v, b, depth, i) + [b] == freed + Freed(v, b, depth)
    {
      PlanPrefix(done, [], FreedFrom(v, b, depth, i), b, plan);
      var block := LoadFreed(fe, b, i, v, plan, done, isDir);
      if block == 0 {
        break;
      }
      FreedUnfold(v, b, depth, i, done);
      PlanPrefix(done, Freed(v, block, depth - 1), FreedFrom(v, b, depth, i + 1), b, plan);
      if depth == 1 {
        FreeBlock(fe, block, isDir, v, plan, done);
      } else {
        FreeTable(fe, block, depth - 1, isDir, v, plan, done);
      }
      done := done + Freed(v, block, depth - 1);
      i := i + 1;
    }
    assert done + FreedFrom(v, b, depth, i) == done;
    FreeBlock(fe, b, isDir, v, plan, done);
  }

  lemma PlanOk(lay: Layout, v: Volume, roots: Roots, used: set<nat>)
    requires FileState(lay, v, roots, used)
    ensures Plan(lay, v, FreedSlots(v, roots, 0)) && FreedState(lay, v, v, [])
    ensures forall b | b in FreedSlots(v, roots, 0) :: b in used
  {
    hide FreedSlots, FileState, NoDup, Allocated, AccountBlock, InVolume, FreeBlocks, FreeInodes, VolumeOk;
    UsedIsData(lay, v, roots, used);
    FreedSlotsNoDup(v, roots, used, 0);
  }

  lemma UsedIsData(lay: Layout, v: Volume, roots: Roots, used: set<nat>)
    requires FileState(lay, v, roots, used)
    ensures TreeOk(v, roots, used) && VolumeOk(lay, v)
    ensures forall b | b in used :: b != 0 && Allocated(lay, v, b) && InVolume(v, b) && !AccountBlock(lay, b)
  {
    forall b | b in used
      ensures !AccountBlock(lay, b)
    {
      NotAccount(lay, v, b);
    }
  }

  /** The slots from `slot` on are those of `roots`, the ones before are cleared. */
  predicate Cleared(roots: Roots, now: Roots, slot: nat) {
    forall s | 0 <= s < 15 :: now[s] == if s < slot then 0 else roots[s]
  }

  lemma SlotUnfold(v: Volume, roots: Roots, slot: nat)
    requires slot < 15
    ensures FreedSlots(v, roots, slot) ==
            (if roots[slot] == 0 then [] else Freed(v, roots[slot], Depth(slot))) + FreedSlots(v, roots, slot + 1)
    ensures slot < 12 && roots[slot] != 0 ==> Freed(v, roots[slot], Depth(slot)) == [roots[slot]]
    ensures roots[slot] == 0 ==> FreedSlots(v, roots, slot) == FreedSlots(v, roots, slot + 1)
  {
  }

  lemma SlotPrefix(done: seq<nat>, part: seq<nat>, rest: seq<nat>, plan: seq<nat>)
    requires done + (part + rest) == plan
    ensures done + part <= plan && done + part + rest == plan
  {
    assert done + part + rest == done + (part + rest);
    assert done + part == plan[..|done + part|];
  }

  /** Frees what slot `slot` leads to and clears it. */
  method FreeSlot(fe: FileEnt, slot: nat, isDir: bool, ghost v: Volume, ghost roots: Roots, ghost plan: seq<nat>, ghost done: seq<nat>)
    returns (ghost done': seq<nat>)
    requires slot < 15 && Freeing(fe, v, plan, done, isDir) && Cleared(roots, fe.inode.block, slot) && v.spb == fe.context.lay.spb
    requires done + FreedSlots(v, roots, slot) == plan
    modifies fe`inode, fe`dirty, fe`lbaBlock, fe.buffer, fe.context, fe.context.sysbuf, fe.context.device
    ensures Freeing(fe, v, plan, done', isDir) && Cleared(roots, fe.inode.block, slot + 1)
    ensures fe.inode == old(fe.inode).(block := fe.inode.block)
    ensures done' + FreedSlots(v, roots, slot + 1) == plan
  {
    hide Freeing, Freed, FreedSlots;
    done' := done;
    SlotUnfold(v, roots, slot);
    if fe.inode.block[slot] != 0 {
      ghost var part := Freed(v, roots[slot], Depth(slot));
      SlotPrefix(done, part, FreedSlots(v, roots, slot + 1), plan);
      if slot < 12 {
        FreeBlock(fe, fe.inode.block[slot], isDir, v, plan, done);
      } else {
        FreeTable(fe, fe.inode.block[slot], slot - 11, isDir, v, plan, done);
      }
      done' := done + part;
    }
    fe.inode := fe.inode.(block := fe.inode.block[slot := 0]);
  }

  /** The inode without blocks; its other fields stay. */
  function Emptied(inode: Inode): Inode {
    inode.(block := seq(15, i => 0), size := 0, blocks := 0)
  }

  /** Frees the blocks of the file and clears its inode. */
  method TruncateFile(fe: FileEnt, ghost used: set<nat>)
    requires Ready(fe, used) && !fe.dirty
    modifies fe`inode, fe`dirty, fe`lbaBlock, fe.buffer, fe.context, fe.context.sysbuf, fe.context.device
    ensures Ready(fe, {}) && !fe.dirty && fe.inode == Emptied(old(fe.inode))
    ensures fe.inode.size == 0 && fe.inode.blocks == 0 && forall s | 0 <= s < 15 :: fe.inode.block[s] == 0
    ensures fe.inode == old(fe.inode).(block := fe.inode.block, size := fe.inode.size, blocks := fe.inode.blocks)
    ensures FreedState(fe.context.lay, old(fe.Logical()), fe.Logical(), FreedSlots(old(fe.Logical()), old(fe.inode.block), 0))
    ensures fe.context.freeBlocksCount == old(fe.context.freeBlocksCount) + |FreedSlots(old(fe.Logical()), old(fe.inode.block), 0)|
    ensures Isolated(fe.context.lay, old(fe.Logical()), used, fe.Logical(), {})
    ensures DirsChange(fe.context.lay, old(fe.Logical()), fe.Logical(), FreedSlots(old(fe.Logical()), old(fe.inode.block), 0),
                       if old(fe.inode.mode) / 0x4000 % 2 == 1 then -1 else 0)
  {
    hide DirsChange, FreedSlots, Freeing, Isolated, FreedState, FileState, Consistent, FreeBlocks, FreeInodes, DirtyOutside;
    ghost var v, roots, lay := fe.Logical(), fe.inode.block, fe.context.lay;
    ghost var plan := FreedSlots(v, roots, 0);
    var isDir := IsDirectory(fe.inode);
    StartFreeing(fe, used, isDir);
    ghost var done: seq<nat> := [];
    assert [] + plan == plan;
    for i := 0 to 15
      invariant Freeing(fe, v, plan, done, isDir) && Cleared(roots, fe.inode.block, i)
      invariant fe.inode == old(fe.inode).(block := fe.inode.block)
      invariant done + FreedSlots(v, roots, i) == plan
    {
      done := FreeSlot(fe, i, isDir, v, roots, plan, done);
    }
    assert done == plan by {
      NoSlotsLeft(v, roots);
      assert done + [] == done;
    }
    fe.inode := fe.inode.(size := 0, blocks := 0);
    assert fe.inode.block == seq(15, i => 0);
    EndFreeing(fe, v, roots, used, plan, isDir);
  }

  lemma NoSlotsLeft(v: Volume, roots: Roots)
    ensures FreedSlots(v, roots, 15) == []
  {
  }

  lemma StartFreeing(fe: FileEnt, used: set<nat>, isDir: bool)
    requires Ready(fe, used) && !fe.dirty
    ensures Freeing(fe, fe.Logical(), FreedSlots(fe.Logical(), fe.inode.block, 0), [], isDir)
    ensures fe.context.freeBlocksCount == FreeBlocks(fe.context.lay, fe.Logical())
  {
    hide FreedSlots, Plan, FreedState, DirsIn;
    PlanOk(fe.context.lay, fe.Logical(), fe.inode.block, used);
  }

  lemma EndFreeing(fe: FileEnt, v: Volume, roots: Roots, used: set<nat>, plan: seq<nat>, isDir: bool)
    requires Freeing(fe, v, plan, plan, isDir) && Cleared(roots, fe.inode.block, 15) && FileState(fe.context.lay, v, roots, used)
    requires plan == FreedSlots(v, roots, 0) && SmallBlocks(fe.context.lay.spb) && v.spb == fe.context.lay.spb && fe.cursor >= 0
    ensures Ready(fe, {}) && !fe.dirty && fe.Logical() == fe.context.Vol()
    ensures FreedState(fe.context.lay, v, fe.Logical(), plan) && Isolated(fe.context.lay, v, used, fe.Logical(), {})
    ensures fe.context.freeBlocksCount == FreeBlocks(fe.context.lay, v) + |plan|
    ensures DirsChange(fe.context.lay, v, fe.Logical(), plan, if isDir then -1 else 0)
  {
    hide FreedSlots, Plan, DirsChange;
    PlanOk(fe.context.lay, v, roots, used);
    TruncatedState(fe.context.lay, v, fe.context.Vol(), roots, fe.inode.block, used, plan);
  }

  /** An empty tree on the volume after the blocks are freed; the freed blocks can be used again. */
  lemma TruncatedState(lay: Layout, v: Volume, w: Volume, roots: Roots, zeros: Roots, used: set<nat>, plan: seq<nat>)
    requires FileState(lay, v, roots, used) && FreedState(lay, v, w, plan) && (forall b | b in plan :: b in used)
    requires forall s | 0 <= s < 15 :: zeros[s] == 0
    ensures FileState(lay, w, zeros, {}) && Isolated(lay, v, used, w, {})
  {
    EmptyTree(w, zeros);
    FreedUsable(lay, v, w, roots, used, plan);
    forall b | Foreign(lay, v, used, b)
      ensures SameBlock(v, w, b)
    {
      NotAccount(lay, v, b);
    }
  }

  lemma EmptyTree(w: Volume, zeros: Roots)
    requires forall s | 0 <= s < 15 :: zeros[s] == 0
    ensures TreeOk(w, zeros, {})
  {
  }

  lemma FreedUsable(lay: Layout, v: Volume, w: Volume, roots: Roots, used: set<nat>, plan: seq<nat>)
    requires FileState(lay, v, roots, used) && FreedState(lay, v, w, plan) && forall b | b in plan :: b in used
    ensures FreeUsable(lay, w)
  {
    forall g, i | 0 <= g < |lay.blockBitmap| && 0 <= i < lay.bpg && !BitAt(w, lay.blockBitmap[g], i)
      ensures Usable(lay, w, BlockOf(lay, g, i))
    {
      var b := BlockOf(lay, g, i);
      BlockOfBit(lay, g, i);
      assert !Allocated(lay, w, b);
      if Allocated(lay, v, b) {
        assert b in plan;
      } else {
        assert Usable(lay, v, b);
      }
    }
  }

  /** A leaf is the block of some index that can be looked up. */
  lemma LeafOfIndex(v: Volume, roots: Roots, s: nat, ds: seq<nat>)
    requires v.spb > 0 && LeafPath(Entries(v), s, ds)
    ensures var idx := IndexOf(Entries(v), s, ds); idx < MaxBlocks(Entries(v)) && LeafAt(v, roots, idx) == At(v, roots, s, ds)
  {
    IndexOfPath(Entries(v), s, ds);
  }

  /**
    The blocks freed are exactly the blocks that an index of the file leads to and the pointer tables on the way,
    each listed once, if the tables are zero-terminated.
   */
  lemma FreedExactly(v: Volume, roots: Roots, used: set<nat>)
    requires v.spb > 0 && TreeOk(v, roots, used) && AllPrefix(v, roots)
    ensures NoDup(FreedSlots(v, roots, 0))
    ensures forall b: nat | b != 0 :: b in FreedSlots(v, roots, 0) <==>
              Interior(v, roots, b) || exists idx: nat :: idx < MaxBlocks(Entries(v)) && LeafAt(v, roots, idx) == b
  {
    FreedSlotsNoDup(v, roots, used, 0);
    PrefixFreesAll(v, roots);
    forall b: nat | b != 0
      ensures b in FreedSlots(v, roots, 0) <==>
                Interior(v, roots, b) || exists idx: nat :: idx < MaxBlocks(Entries(v)) && LeafAt(v, roots, idx) == b
    {
      FreedOne(v, roots, used, b);
    }
  }

  lemma FreedOne(v: Volume, roots: Roots, used: set<nat>, b: nat)
    requires v.spb > 0 && b != 0 && FreesAll(v, roots)
    ensures b in FreedSlots(v, roots, 0) <==>
              Interior(v, roots, b) || exists idx: nat :: idx < MaxBlocks(Entries(v)) && LeafAt(v, roots, idx) == b
  {
    hide FreedSlots, MaxBlocks, SlotOf, DigitsOf, IndexOf, Node;
    if b in FreedSlots(v, roots, 0) {
      FreedSlotsUnder(v, roots, 0, b);
      var s :| 0 <= s < 15 && Under(v, roots, s, [], b);
      var ds :| Path(Entries(v), s, ds) && [] <= ds && At(v, roots, s, ds) == b;
      if |ds| == Depth(s) {
        LeafOfIndex(v, roots, s, ds);
      }
    }
    if Interior(v, roots, b) {
      var s, ds :| Path(Entries(v), s, ds) && |ds| < Depth(s) && At(v, roots, s, ds) == b && b != 0;
      assert At(v, roots, s, ds) in FreedSlots(v, roots, 0);
    }
    if idx: nat :| idx < MaxBlocks(Entries(v)) && LeafAt(v, roots, idx) == b {
      PathOfIndex(Entries(v), idx);
      assert At(v, roots, SlotOf(Entries(v), idx), DigitsOf(Entries(v), idx)) in FreedSlots(v, roots, 0);
    }
  }
}
