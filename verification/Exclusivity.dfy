/** Runs of allocations, growth and truncation: every block has at most one owner. */
module Exclusivity {
  import opened Volumes
  import opened PointerTree
  import opened TreeInvariant
  import opened FileContent
  import opened Handles
  import opened Buffer
  import opened Allocator
  import opened Accounting
  import opened Search
  import opened Conservation
  import opened Growth
  import opened SelectBlock
  import opened Truncate

  datatype File = File(roots: Roots, used: set<nat>)

  /** Files on one volume that own different blocks. */
  ghost predicate Files(lay: Layout, v: Volume, files: seq<File>) {
    && (forall i | 0 <= i < |files| :: FileState(lay, v, files[i].roots, files[i].used))
    && (forall i, j | 0 <= i < j < |files| :: files[i].used !! files[j].used)
  }

  /** No block is reachable from two pointer slots, and every reachable block has its bit set. */
  lemma OneOwner(lay: Layout, v: Volume, files: seq<File>, i: nat, s: nat, ds: seq<nat>, j: nat, t: nat, es: seq<nat>)
    requires Files(lay, v, files) && i < |files| && j < |files| && Path(Entries(v), s, ds) && Path(Entries(v), t, es)
    requires At(v, files[i].roots, s, ds) == At(v, files[j].roots, t, es) != 0
    ensures i == j && s == t && ds == es && Allocated(lay, v, At(v, files[i].roots, s, ds))
  {
    assert FileState(lay, v, files[i].roots, files[i].used);
    assert FileState(lay, v, files[j].roots, files[j].used);
    var b := At(v, files[i].roots, s, ds);
    assert b in files[i].used && b in files[j].used;
    if i == j {
      assert Unshared(At(v, files[i].roots, s, ds), At(v, files[j].roots, t, es), s == t && ds == es);
    }
  }

  /** A block whose bit is clear is reachable from nowhere. */
  lemma FreeUnreachable(lay: Layout, v: Volume, files: seq<File>, b: nat)
    requires Files(lay, v, files) && !Allocated(lay, v, b) && b != 0
    ensures forall i, s, ds | 0 <= i < |files| && Path(Entries(v), s, ds) :: At(v, files[i].roots, s, ds) != b
  {
    forall i, s, ds | 0 <= i < |files| && Path(Entries(v), s, ds)
      ensures At(v, files[i].roots, s, ds) != b
    {
      assert FileState(lay, v, files[i].roots, files[i].used);
    }
  }

  /** The file has the same blocks and the same bytes on both volumes. */
  ghost predicate Unchanged(v: Volume, w: Volume, roots: Roots) {
    && v.spb > 0 && SameShape(v, w)
    && (forall idx: nat :: LeafAt(w, roots, idx) == LeafAt(v, roots, idx))
    && (forall k: nat | LeafAt(v, roots, Div(k / 512, v.spb)) != 0 :: ByteAt(w, roots, k) == ByteAt(v, roots, k))
  }

  /** What one file does in isolation leaves any other file as it is, still with blocks of its own. */
  lemma OtherKept(lay: Layout, v: Volume, used: set<nat>, w: Volume, used': set<nat>, other: File)
    requires FileState(lay, v, other.roots, other.used) && other.used !! used
    requires Apart(lay, v, used, w, used') && VolumeOk(lay, w) && FreeUsable(lay, w)
    ensures FileState(lay, w, other.roots, other.used) && other.used !! used' && Unchanged(v, w, other.roots)
  {
    hide VolumeOk, FreeUsable, LeafAt, TreeOk, Allocated, SameBlock, InVolume, ByteAt;
    forall b | b in other.used
      ensures Foreign(lay, v, used, b) && SameBlock(v, w, b) && Foreign(lay, w, used', b)
    {
      assert Foreign(lay, v, used, b);
    }
    FramePreserves(v, w, other.roots, other.used);
  }

  lemma OthersKept(lay: Layout, v: Volume, roots: Roots, used: set<nat>, w: Volume, roots': Roots, used': set<nat>, others: seq<File>)
    requires Files(lay, v, [File(roots, used)] + others) && FileState(lay, w, roots', used')
    requires Isolated(lay, v, used, w, used')
    ensures Files(lay, w, [File(roots', used')] + others)
    ensures forall i | 0 <= i < |others| :: Unchanged(v, w, others[i].roots)
  {
    hide FileState, Isolated, Apart, Unchanged;
    var files := [File(roots, used)] + others;
    StateVolume(lay, w, roots', used');
    forall i | 0 <= i < |others|
      ensures FileState(lay, w, others[i].roots, others[i].used) && others[i].used !! used' && Unchanged(v, w, others[i].roots)
    {
      assert files[i + 1] == others[i] && files[0].used !! files[i + 1].used;
      IsolatedApart(lay, v, used, w, used');
      OtherKept(lay, v, used, w, used', others[i]);
    }
    forall i, j | 0 <= i < j < |others|
      ensures others[i].used !! others[j].used
    {
      assert files[i + 1] == others[i] && files[j + 1] == others[j];
    }
  }

  lemma StateVolume(lay: Layout, w: Volume, roots: Roots, used: set<nat>)
    requires FileState(lay, w, roots, used)
    ensures VolumeOk(lay, w) && FreeUsable(lay, w)
  {
  }

  // ----- runs

  /** Take a block without linking it, bring the block at a position of the file into the buffer, or truncate the file. */
  datatype BlockOp = Take | Grow(pos: nat) | Drop

  ghost predicate Reachable(v: Volume, roots: Roots, pos: nat)
    requires v.spb > 0
  {
    && pos < 0x8000_0000_0000_0000
    && var idx := Div(pos / 512, v.spb); HasSlot(v, roots, idx) && (idx > 0 ==> HasSlot(v, roots, idx - 1))
  }

  ghost predicate Direct(spb: nat, op: BlockOp)
    requires spb > 0
  {
    op.Grow? ==> op.pos < 0x8000_0000_0000_0000 && Div(op.pos / 512, spb) < 12
  }

  /** Pointer tables are there when growth needs them: until the first truncate those of the start, then none. */
  ghost predicate Allowed(v: Volume, roots: Roots, ops: seq<BlockOp>)
    requires v.spb > 0
  {
    forall i | 0 <= i < |ops| && ops[i].Grow? ::
      Direct(v.spb, ops[i]) || (Drop !in ops[..i] && Reachable(v, roots, ops[i].pos))
  }

  lemma AllowedRest(v: Volume, roots: Roots, w: Volume, roots': Roots, ops: seq<BlockOp>)
    requires ops != [] && v.spb > 0 && w.spb == v.spb && Allowed(v, roots, ops)
    requires ops[0] != Drop ==> forall idx: nat | HasSlot(v, roots, idx) :: HasSlot(w, roots', idx)
    ensures Allowed(w, roots', ops[1..])
  {
    hide HasSlot, Div;
    var rest := ops[1..];
    forall i | 0 <= i < |rest| && rest[i].Grow?
      ensures Direct(w.spb, rest[i]) || (Drop !in rest[..i] && Reachable(w, roots', rest[i].pos))
    {
      assert rest[i] == ops[i + 1];
      assert ops[..i + 1] == [ops[0]] + rest[..i];
    }
  }

  lemma DirectReachable(v: Volume, roots: Roots, op: BlockOp)
    requires v.spb > 0 && op.Grow? && Direct(v.spb, op)
    ensures Reachable(v, roots, op.pos)
  {
    DirectPath(Entries(v), Div(op.pos / 512, v.spb));
    if Div(op.pos / 512, v.spb) > 0 {
      DirectPath(Entries(v), Div(op.pos / 512, v.spb) - 1);
    }
  }

  /** What each step keeps, seen from outside: the file is well formed, all others are as they were. */
  ghost predicate Kept(lay: Layout, v: Volume, roots: Roots, used: set<nat>, w: Volume, roots': Roots, used': set<nat>) {
    && v.spb > 0 && SameShape(v, w) && FileState(lay, w, roots', used') && Isolated(lay, v, used, w, used')
  }

  method TakeStep(fe: FileEnt, ghost used: set<nat>) returns (block: nat)
    requires Ready(fe, used)
    modifies fe`dirty, fe`lbaBlock, fe.buffer, fe.context, fe.context.sysbuf, fe.context.device
    ensures Ready(fe, used) && Kept(fe.context.lay, old(fe.Logical()), fe.inode.block, used, fe.Logical(), fe.inode.block, used)
    ensures Preserved(old(fe.Logical()), fe.inode.block, fe.Logical(), fe.inode.block)
    ensures Took(fe.context.lay, old(fe.Logical()), fe.Logical(), if block == 0 then {} else {block})
    ensures block == 0 <==> old(fe.context.freeBlocksCount) == 0
  {
    hide FileState, Consistent, VolumeOk, Preserved, Isolated, NewBlock, Took, FileEnt.Logical, FreeUsable;
    ghost var v, roots, lay := fe.Logical(), fe.inode.block, fe.context.lay;
    StateFacts(lay, v, roots, used, 0);
    TookNone(lay, v);
    IsolatedSame(lay, v, used);
    block := AllocateBlock(fe);
    if block != 0 {
      TakenApart(lay, v, fe.Logical(), roots, used, block);
    }
  }

  lemma TakenApart(lay: Layout, v: Volume, w: Volume, roots: Roots, used: set<nat>, block: nat)
    requires FileState(lay, v, roots, used) && NewBlock(lay, v, w, block)
    ensures SameShape(v, w) && FileState(lay, w, roots, used) && Preserved(v, roots, w, roots) && Isolated(lay, v, used, w, used)
    ensures Took(lay, v, w, {block})
  {
    TakenBlock(lay, v, w, roots, used, block);
  }

  method GrowStep(fe: FileEnt, ghost used: set<nat>, pos: nat) returns (r: int, ghost used': set<nat>)
    requires fe.context.lay.spb > 0 && Ready(fe, used) && Reachable(fe.Logical(), fe.inode.block, pos)
    modifies fe`cursor, fe`inode, fe`dirty, fe`lbaBlock, fe.buffer, fe.context, fe.context.sysbuf, fe.context.device
    ensures Ready(fe, used')
    ensures Kept(fe.context.lay, old(fe.Logical()), old(fe.inode.block), used, fe.Logical(), fe.inode.block, used')
    ensures Preserved(old(fe.Logical()), old(fe.inode.block), fe.Logical(), fe.inode.block)
    ensures used <= used' && |used' - used| <= 1 && Took(fe.context.lay, old(fe.Logical()), fe.Logical(), used' - used)
  {
    hide FileState, Consistent, Preserved, Isolated, HasSlot, LeafAt, FileEnt.Logical, DirtyOutside, AtCursor, Took;
    fe.cursor := pos;
    r, used' := SelectBuffer(fe, used);
  }

  /** A file is truncated when it is opened: nothing of it is waiting in the buffer. */
  method DropStep(fe: FileEnt, ghost used: set<nat>)
    requires Ready(fe, used)
    modifies fe`inode, fe`dirty, fe`lbaBlock, fe.buffer, fe.context, fe.context.sysbuf, fe.context.device
    ensures Ready(fe, {}) && fe.inode.block == seq(15, i => 0)
    ensures Kept(fe.context.lay, old(fe.Logical()), old(fe.inode.block), used, fe.Logical(), fe.inode.block, {})
    ensures forall b: nat | Allocated(fe.context.lay, fe.Logical(), b) :: Allocated(fe.context.lay, old(fe.Logical()), b)
  {
    hide FileState, Consistent, Isolated, Apart, FreedState, Allocated, FreedBlocks.FreedSlots;
    ghost var v := fe.Logical();
    if fe.dirty {
      var r := StoreBuffer(fe);
    }
    TruncateFile(fe, used);
    IsolatedApart(fe.context.lay, v, used, fe.Logical(), {});
    FreedOnly(fe.context.lay, v, fe.Logical(), FreedBlocks.FreedSlots(v, old(fe.inode.block), 0));
  }

  lemma FreedOnly(lay: Layout, v: Volume, w: Volume, freed: seq<nat>)
    requires FreedState(lay, v, w, freed)
    ensures forall b: nat | Allocated(lay, w, b) :: Allocated(lay, v, b)
  {
  }

  /** The volume and its files between two steps of a run; the first file is the one that is open. */
  datatype State = State(v: Volume, files: seq<File>)

  /** The blocks whose bit is clear before and set after. */
  ghost function NewlyTaken(lay: Layout, s: State, t: State): set<nat> {
    Taken(lay, t.v) - Taken(lay, s.v)
  }

  /**
    One step: a block is taken unless the volume is full, belongs to no file before, and belongs to the open file
    afterwards if the step was growth; a truncate takes none. The other files are as they were.
   */
  ghost predicate StepOk(lay: Layout, op: BlockOp, s: State, t: State) {
    && Files(lay, s.v, s.files) && Files(lay, t.v, t.files) && |s.files| == |t.files| > 0 && s.files[1..] == t.files[1..]
    && (forall i | 0 <= i < |s.files| :: s.files[i].used !! NewlyTaken(lay, s, t))
    && (forall i | 0 < i < |s.files| :: Unchanged(s.v, t.v, s.files[i].roots))
    && match op
       case Take => t.files[0] == s.files[0] && if FreeBlocks(lay, s.v) == 0 then NewlyTaken(lay, s, t) == {} else |NewlyTaken(lay, s, t)| == 1
       case Grow(_) => t.files[0].used == s.files[0].used + NewlyTaken(lay, s, t) && |NewlyTaken(lay, s, t)| <= 1
       case Drop => t.files[0] == File(seq(15, i => 0), {}) && NewlyTaken(lay, s, t) == {}
  }

  lemma TookIs(lay: Layout, v: Volume, w: Volume, s: set<nat>)
    requires Took(lay, v, w, s)
    ensures Taken(lay, w) - Taken(lay, v) == s
  {
    hide Allocated, Taken;
    forall b: nat
      ensures b in Taken(lay, w) - Taken(lay, v) <==> b in s
    {
      TakenMember(lay, v, b);
      TakenMember(lay, w, b);
    }
    assert Taken(lay, w) - Taken(lay, v) == s;
  }

  lemma NoneTaken(lay: Layout, v: Volume, w: Volume)
    requires forall b: nat | Allocated(lay, w, b) :: Allocated(lay, v, b)
    ensures Taken(lay, w) - Taken(lay, v) == {}
  {
    forall b: nat
      ensures b !in Taken(lay, w) - Taken(lay, v)
    {
      TakenMember(lay, v, b);
      TakenMember(lay, w, b);
    }
  }

  /** Blocks that become allocated were in no file. */
  lemma TakenFromNone(lay: Layout, s: State, t: State)
    requires Files(lay, s.v, s.files)
    ensures forall i | 0 <= i < |s.files| :: s.files[i].used !! NewlyTaken(lay, s, t)
  {
    forall i, b | 0 <= i < |s.files| && b in s.files[i].used
      ensures b !in NewlyTaken(lay, s, t)
    {
      assert FileState(lay, s.v, s.files[i].roots, s.files[i].used);
      TakenMember(lay, s.v, b);
    }
  }

  ghost function StateOf(fe: FileEnt, used: set<nat>, others: seq<File>): State
    reads fe`dirty, fe`lbaBlock, fe`inode, fe.context.device, fe.buffer
  {
    State(fe.Logical(), [File(fe.inode.block, used)] + others)
  }

  method DoStep(fe: FileEnt, ghost used: set<nat>, op: BlockOp, ghost others: seq<File>) returns (ghost used': set<nat>)
    requires fe.context.lay.spb > 0 && Ready(fe, used)
    requires Files(fe.context.lay, fe.Logical(), [File(fe.inode.block, used)] + others)
    requires op.Grow? ==> Reachable(fe.Logical(), fe.inode.block, op.pos)
    modifies fe`cursor, fe`inode, fe`dirty, fe`lbaBlock, fe.buffer, fe.context, fe.context.sysbuf, fe.context.device
    ensures Ready(fe, used') && StepOk(fe.context.lay, op, old(StateOf(fe, used, others)), StateOf(fe, used', others))
    ensures op != Drop ==> forall idx: nat | HasSlot(old(fe.Logical()), old(fe.inode.block), idx) :: HasSlot(fe.Logical(), fe.inode.block, idx)
  {
    hide Ready, Unchanged, Allocated, HasSlot, FileEnt.Logical, LeafAt, Files, ByteAt, FileState, Isolated, Took, FreeBlocks, Taken;
    ghost var v, roots, lay := fe.Logical(), fe.inode.block, fe.context.lay;
    ReadyCount(fe, used);
    match op {
      case Take =>
        var block := TakeStep(fe, used);
        used' := used;
        TookIs(lay, v, fe.Logical(), if block == 0 then {} else {block});
      case Grow(pos) =>
        var r;
        r, used' := GrowStep(fe, used, pos);
        TookIs(lay, v, fe.Logical(), used' - used);
        assert used' == used + (used' - used);
      case Drop =>
        DropStep(fe, used);
        used' := {};
        NoneTaken(lay, v, fe.Logical());
    }
    OthersKept(lay, v, roots, used, fe.Logical(), fe.inode.block, used', others);
    TakenFromNone(lay, State(v, [File(roots, used)] + others), StateOf(fe, used', others));
    assert StateOf(fe, used', others).files[1..] == others;
  }

  lemma ReadyCount(fe: FileEnt, used: set<nat>)
    requires Ready(fe, used)
    ensures fe.context.freeBlocksCount == FreeBlocks(fe.context.lay, fe.Logical())
  {
  }

  lemma UnchangedTrans(u: Volume, v: Volume, w: Volume, roots: Roots)
    requires Unchanged(u, v, roots) && Unchanged(v, w, roots)
    ensures Unchanged(u, w, roots)
  {
    hide LeafAt, ByteAt, Div;
  }

  lemma UnchangedRefl(v: Volume, roots: Roots)
    requires v.spb > 0
    ensures Unchanged(v, v, roots)
  {
  }

  /**
    Exclusivity over every run: each state leads to the next as `StepOk` says, so files keep owning different allocated
    blocks, and each block that is taken belonged to none of them. The other files keep their blocks and bytes.
   */
  method RunBlocks(fe: FileEnt, ghost used: set<nat>, ops: seq<BlockOp>, ghost others: seq<File>)
    returns (ghost used': set<nat>, ghost states: seq<State>)
    requires fe.context.lay.spb > 0 && Ready(fe, used) && Allowed(fe.Logical(), fe.inode.block, ops)
    requires Files(fe.context.lay, fe.Logical(), [File(fe.inode.block, used)] + others)
    modifies fe`cursor, fe`inode, fe`dirty, fe`lbaBlock, fe.buffer, fe.context, fe.context.sysbuf, fe.context.device
    ensures Ready(fe, used') && Files(fe.context.lay, fe.Logical(), [File(fe.inode.block, used')] + others)
    ensures |states| == |ops| + 1 && states[0] == old(StateOf(fe, used, others)) && states[|ops|] == StateOf(fe, used', others)
    ensures forall k | 0 <= k < |ops| :: StepOk(fe.context.lay, ops[k], states[k], states[k + 1])
    ensures forall i | 0 <= i < |others| :: Unchanged(old(fe.Logical()), fe.Logical(), others[i].roots)
    decreases |ops|
  {
    hide Ready, Unchanged, HasSlot, FileEnt.Logical, Files, StepOk, Allowed, Reachable, Direct, Div;
    ghost var v, roots := fe.Logical(), fe.inode.block;
    if ops == [] {
      forall i | 0 <= i < |others|
        ensures Unchanged(v, v, others[i].roots)
      {
        UnchangedRefl(v, others[i].roots);
      }
      return used, [StateOf(fe, used, others)];
    }
    FirstAllowed(v, roots, ops);
    ghost var start := StateOf(fe, used, others);
    used' := DoStep(fe, used, ops[0], others);
    ghost var w, next := fe.Logical(), StateOf(fe, used', others);
    StepEnds(fe.context.lay, ops[0], start, next, others);
    AllowedRest(v, roots, w, fe.inode.block, ops);
    used', states := RunBlocks(fe, used', ops[1..], others);
    states := [start] + states;
    forall i | 0 <= i < |others|
      ensures Unchanged(v, fe.Logical(), others[i].roots)
    {
      UnchangedTrans(v, w, fe.Logical(), others[i].roots);
    }
  }

  lemma StepEnds(lay: Layout, op: BlockOp, s: State, t: State, others: seq<File>)
    requires StepOk(lay, op, s, t) && |s.files| > 0 && s.files[1..] == others
    ensures Files(lay, t.v, t.files)
    ensures forall i | 0 <= i < |others| :: Unchanged(s.v, t.v, others[i].roots)
  {
    hide Files, Unchanged;
    forall i | 0 <= i < |others|
      ensures Unchanged(s.v, t.v, others[i].roots)
    {
      assert s.files[i + 1] == others[i];
    }
  }

  lemma FirstAllowed(v: Volume, roots: Roots, ops: seq<BlockOp>)
    requires v.spb > 0 && ops != [] && Allowed(v, roots, ops)
    ensures ops[0].Grow? ==> Reachable(v, roots, ops[0].pos)
  {
    if ops[0].Grow? && Direct(v.spb, ops[0]) {
      DirectReachable(v, roots, ops[0]);
    }
  }
}
