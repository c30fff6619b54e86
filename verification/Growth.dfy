/** A file on a consistent volume, and what taking and linking a new block does to it. */
module Growth {
  import opened Bytes
  import opened Volumes
  import opened PointerTree
  import opened TreeInvariant
  import opened BlockMap
  import opened FileContent
  import opened Handles
  import opened BlockGroups
  import opened Accounting
  import opened Allocator
  import opened Search

  /** `used` are allocated data blocks that hold the file's tree. */
  ghost predicate FileState(lay: Layout, v: Volume, roots: Roots, used: set<nat>) {
    && FileOk(v, roots, used, 0) && VolumeOk(lay, v) && FreeUsable(lay, v)
    && (forall b | b in used :: Allocated(lay, v, b) && b !in lay.reserved && b < WORD)
  }

  /** The pointer table (or inode) that holds the slot of block `idx` exists. */
  ghost predicate HasSlot(v: Volume, roots: Roots, idx: nat)
    requires v.spb > 0
  {
    var n := Entries(v);
    idx < MaxBlocks(n) && (idx < 12 || At(v, roots, SlotOf(n, idx), InitOf(n, idx)) != 0)
  }

  ghost function InitOf(n: nat, idx: nat): seq<nat>
    requires n > 0 && 12 <= idx < MaxBlocks(n)
  {
    PathOfIndex(n, idx);
    DigitsOf(n, idx)[..|DigitsOf(n, idx)| - 1]
  }

  ghost function LastOf(n: nat, idx: nat): nat
    requires n > 0 && 12 <= idx < MaxBlocks(n)
  {
    PathOfIndex(n, idx);
    DigitsOf(n, idx)[|DigitsOf(n, idx)| - 1]
  }

  lemma DigitsSplit(n: nat, idx: nat)
    requires n > 0 && 12 <= idx < MaxBlocks(n)
    ensures DigitsOf(n, idx) == InitOf(n, idx) + [LastOf(n, idx)]
    ensures Path(n, SlotOf(n, idx), InitOf(n, idx)) && LastOf(n, idx) < n
    ensures |InitOf(n, idx)| < Depth(SlotOf(n, idx))
  {
    PathOfIndex(n, idx);
  }

  /** A present block has a slot, and the lookup of any block with a slot stays inside the volume. */
  lemma SlotInVolume(v: Volume, roots: Roots, used: set<nat>, idx: nat)
    requires FileOk(v, roots, used, 0) && (HasSlot(v, roots, idx) || LeafAt(v, roots, idx) != 0)
    ensures HasSlot(v, roots, idx) && PathIn(v, roots, idx)
    ensures Lookup(v, roots, idx) == LeafAt(v, roots, idx)
  {
    var n := Entries(v);
    if LeafAt(v, roots, idx) != 0 {
      PresentBlock(v, roots, used, 0, idx);
    }
    PathOfIndex(n, idx);
    if idx >= 12 {
      var slot, ds := SlotOf(n, idx), DigitsOf(n, idx);
      DigitsSplit(n, idx);
      NodeInit(v, roots[slot], ds);
      if LeafAt(v, roots, idx) == 0 {
        ParentWalk(v, roots, used, slot, InitOf(n, idx), LastOf(n, idx));
      }
    }
  }

  lemma ParentWalk(v: Volume, roots: Roots, used: set<nat>, slot: nat, init: seq<nat>, d: nat)
    requires FileOk(v, roots, used, 0) && Path(Entries(v), slot, init) && At(v, roots, slot, init) != 0
    ensures WalkIn(v, roots[slot], init + [d])
    ensures Walk(v, roots[slot], init + [d]) == Ptr(v, At(v, roots, slot, init), d)
  {
    forall k | 0 <= k < |init| && Node(v, roots[slot], init[..k]) != 0
      ensures InVolume(v, Node(v, roots[slot], init[..k]))
    {
      assert Path(Entries(v), slot, init[..k]);
      assert At(v, roots, slot, init[..k]) in used;
    }
    NodeWalkIn(v, roots[slot], init);
    NodeIsWalk(v, roots[slot], init);
    assert At(v, roots, slot, init) in used;
    WalkSnoc(v, roots[slot], init, d);
  }

  lemma {:induction false} WalkSnoc(v: Volume, b: nat, ds: seq<nat>, d: nat)
    requires WalkIn(v, b, ds) && InVolume(v, Walk(v, b, ds))
    ensures WalkIn(v, b, ds + [d]) && Walk(v, b, ds + [d]) == Ptr(v, Walk(v, b, ds), d)
    decreases |ds|
  {
    if ds == [] {
      assert ([] + [d])[1..] == [];
    } else {
      assert (ds + [d])[1..] == ds[1..] + [d];
      WalkSnoc(v, Ptr(v, b, ds[0]), ds[1..], d);
    }
  }

  // ----- same file, other volume

  /** The other leaves, present or not, are the same. */
  ghost predicate OtherLeaves(v: Volume, roots: Roots, w: Volume, roots': Roots, idx: nat) {
    v.spb > 0 && SameShape(v, w) && forall i: nat | i != idx :: LeafAt(w, roots', i) == LeafAt(v, roots, i)
  }

  /** Every block and byte the file has on `v` it also has on `w`. */
  ghost predicate Preserved(v: Volume, roots: Roots, w: Volume, roots': Roots) {
    && v.spb > 0 && SameShape(v, w)
    && (forall idx: nat | LeafAt(v, roots, idx) != 0 :: LeafAt(w, roots', idx) == LeafAt(v, roots, idx))
    && (forall idx: nat | HasSlot(v, roots, idx) :: HasSlot(w, roots', idx))
    && (forall k: nat | LeafAt(v, roots, Div(k / 512, v.spb)) != 0 :: ByteAt(w, roots', k) == ByteAt(v, roots, k))
  }

  lemma FramePreserves(v: Volume, w: Volume, roots: Roots, used: set<nat>)
    requires FileOk(v, roots, used, 0) && SameShape(v, w)
    requires forall b | b in used :: SameBlock(v, w, b)
    ensures FileOk(w, roots, used, 0) && Preserved(v, roots, w, roots)
    ensures forall idx: nat :: LeafAt(w, roots, idx) == LeafAt(v, roots, idx)
  {
    var n := Entries(v);
    assert forall b :: Interior(v, roots, b) ==> b in used;
    TreeOkFrame(v, w, roots, used);
    forall idx: nat
      ensures LeafAt(w, roots, idx) == LeafAt(v, roots, idx)
      ensures HasSlot(v, roots, idx) ==> HasSlot(w, roots, idx)
    {
      if idx < MaxBlocks(n) {
        PathOfIndex(n, idx);
        if idx >= 12 {
          DigitsSplit(n, idx);
        }
      }
    }
    forall k: nat | LeafAt(v, roots, Div(k / 512, v.spb)) != 0
      ensures ByteAt(w, roots, k) == ByteAt(v, roots, k)
    {
      PresentBlock(v, roots, used, 0, Div(k / 512, v.spb));
    }
  }

  // ----- taking a block

  /** Blocks of other files: allocated, not structural, not of this file. */
  ghost predicate Foreign(lay: Layout, v: Volume, used: set<nat>, b: nat) {
    Allocated(lay, v, b) && b !in lay.reserved && b !in used
  }

  /** The blocks of other files stay theirs and keep their bytes. */
  ghost predicate ForeignKept(lay: Layout, v: Volume, used: set<nat>, w: Volume, used': set<nat>) {
    && SameShape(v, w)
    && forall b | Foreign(lay, v, used, b) :: Foreign(lay, w, used', b) && SameBlock(v, w, b)
  }

  /** So do the inode tables: nothing of any other file changes. */
  ghost predicate Apart(lay: Layout, v: Volume, used: set<nat>, w: Volume, used': set<nat>) {
    ForeignKept(lay, v, used, w, used') && forall b | Protected(lay, b) :: SameBlock(v, w, b)
  }

  ghost predicate InodeBitsKept(lay: Layout, v: Volume, w: Volume) {
    forall g | 0 <= g < |lay.inodeBitmap| :: BitsKept(v, w, lay.inodeBitmap[g], {})
  }

  /** What a file does on its own: nothing of any other file changes, and no inode is allocated or freed. */
  ghost predicate Isolated(lay: Layout, v: Volume, used: set<nat>, w: Volume, used': set<nat>) {
    Apart(lay, v, used, w, used') && InodeBitsKept(lay, v, w)
  }

  /** From `v` to `w` exactly the blocks of `s`, which were free, are allocated. */
  ghost predicate Took(lay: Layout, v: Volume, w: Volume, s: set<nat>) {
    && (forall b: nat | b in s :: !Allocated(lay, v, b))
    && (forall b: nat :: Allocated(lay, w, b) <==> Allocated(lay, v, b) || b in s)
  }

  /** A newly allocated block was reachable from nowhere, and taking it leaves the file and all other files alone. */
  lemma TakenBlock(lay: Layout, v: Volume, w: Volume, roots: Roots, used: set<nat>, block: nat)
    requires FileState(lay, v, roots, used) && NewBlock(lay, v, w, block)
    ensures block !in used && !Allocated(lay, v, block) && Allocated(lay, w, block)
    ensures FileState(lay, w, roots, used) && Preserved(v, roots, w, roots)
    ensures forall idx: nat :: LeafAt(w, roots, idx) == LeafAt(v, roots, idx)
    ensures Isolated(lay, v, used, w, used + {block}) && Took(lay, v, w, {block})
  {
    hide InodeBitsKept, VolumeOk, AllocStep, FreeUsable, Usable, Preserved, LayoutOk, BestBit, TreeOk, SameBlock, LeafAt, Allocated, InGroups,
      GroupOf, BitOf, InVolume;
    NewBlockFacts(lay, v, w, block);
    StepKeepsVolume(lay, v, w, false, GroupOf(lay, block), BitOf(lay, block), true);
    StepAllocated(lay, v, w, block, true);
    StepFrame(lay, v, w, block, true);
    FramePreserves(v, w, roots, used);
    StepUsable(lay, v, w, block);
    InodeBitsStep(lay, v, w, GroupOf(lay, block), BitOf(lay, block), true);
  }

  /** Allocating or freeing a block leaves the inode bitmaps alone. */
  lemma InodeBitsStep(lay: Layout, v: Volume, w: Volume, g: nat, i: nat, on: bool)
    requires AllocStep(lay, v, w, false, g, i, on)
    ensures InodeBitsKept(lay, v, w)
  {
    assert Maps(lay, !false) == lay.inodeBitmap;
  }

  lemma IsolatedApart(lay: Layout, v: Volume, used: set<nat>, w: Volume, used': set<nat>)
    requires Isolated(lay, v, used, w, used')
    ensures Apart(lay, v, used, w, used') && SameShape(v, w)
  {
  }

  lemma NewBlockFacts(lay: Layout, v: Volume, w: Volume, block: nat)
    requires NewBlock(lay, v, w, block)
    ensures InGroups(lay, block) && AllocStep(lay, v, w, false, GroupOf(lay, block), BitOf(lay, block), true)
    ensures SameShape(v, w) && !Allocated(lay, v, block)
  {
  }

  lemma StepFrame(lay: Layout, v: Volume, w: Volume, block: nat, on: bool)
    requires InGroups(lay, block) && AllocStep(lay, v, w, false, GroupOf(lay, block), BitOf(lay, block), on)
    ensures forall b: nat | b !in lay.reserved :: SameBlock(v, w, b)
  {
    forall b: nat | b !in lay.reserved
      ensures SameBlock(v, w, b)
    {
      NotAccount(lay, v, b);
    }
  }

  lemma NotAccount(lay: Layout, v: Volume, b: nat)
    requires LayoutOk(lay, v) && b !in lay.reserved
    ensures !AccountBlock(lay, b)
  {
  }

  /** One step changes the state of exactly one block. */
  lemma StepAllocated(lay: Layout, v: Volume, w: Volume, block: nat, on: bool)
    requires InGroups(lay, block) && AllocStep(lay, v, w, false, GroupOf(lay, block), BitOf(lay, block), on)
    ensures forall b: nat :: Allocated(lay, w, b) == if b == block then on else Allocated(lay, v, b)
  {
    hide BitAt, Recounted, SameBlock, InVolume, TableBlock;
    forall b: nat
      ensures Allocated(lay, w, b) == if b == block then on else Allocated(lay, v, b)
    {
      if InGroups(lay, b) {
        var g := GroupOf(lay, b);
        assert BitsKept(v, w, Maps(lay, false)[g], if g == GroupOf(lay, block) then {BitOf(lay, block)} else {});
        if g == GroupOf(lay, block) && BitOf(lay, b) == BitOf(lay, block) {
          DivModInjective(b - lay.firstData, block - lay.firstData, lay.bpg);
        }
      }
    }
  }

  lemma StepUsable(lay: Layout, v: Volume, w: Volume, block: nat)
    requires InGroups(lay, block) && FreeUsable(lay, v)
    requires AllocStep(lay, v, w, false, GroupOf(lay, block), BitOf(lay, block), true)
    ensures FreeUsable(lay, w)
  {
    forall g, i | 0 <= g < |lay.blockBitmap| && 0 <= i < lay.bpg && !BitAt(w, lay.blockBitmap[g], i)
      ensures Usable(lay, w, BlockOf(lay, g, i))
    {
      assert BitsKept(v, w, Maps(lay, false)[g], if g == GroupOf(lay, block) then {BitOf(lay, block)} else {});
      assert Usable(lay, v, BlockOf(lay, g, i));
    }
  }

  // ----- linking a block

  /** Only bytes of blocks in `own` differ between `v` and `w`. */
  ghost predicate OnlyIn(v: Volume, w: Volume, own: set<nat>) {
    SameShape(v, w) && forall b: nat | b !in own :: SameBlock(v, w, b)
  }

  /** Writing into blocks of the file does not touch the accounts or other files. */
  lemma OwnWrites(lay: Layout, v: Volume, w: Volume, roots: Roots, used: set<nat>, own: set<nat>)
    requires FileState(lay, v, roots, used) && OnlyIn(v, w, own) && own <= used
    ensures VolumeOk(lay, w) && FreeUsable(lay, w)
    ensures FreeBlocks(lay, w) == FreeBlocks(lay, v) && FreeInodes(lay, w) == FreeInodes(lay, v)
    ensures forall b: nat :: Allocated(lay, w, b) == Allocated(lay, v, b)
    ensures Isolated(lay, v, used, w, used)
  {
    forall b | AccountBlock(lay, b)
      ensures SameBlock(v, w, b)
    {
      AccountReserved(lay, v, b);
    }
    VolumeOkFrame(lay, v, w);
    forall g, i | 0 <= g < |lay.blockBitmap| && 0 <= i < lay.bpg && !BitAt(w, lay.blockBitmap[g], i)
      ensures Usable(lay, w, BlockOf(lay, g, i))
    {
      assert Usable(lay, v, BlockOf(lay, g, i));
    }
  }

  lemma LeafSetLeaf(v: Volume, roots: Roots, w: Volume, roots': Roots, idx: nat, block: nat, i: nat)
    requires v.spb > 0 && idx < MaxBlocks(Entries(v)) && LeafAt(v, roots, idx) == 0 && block != 0
    requires LeafPath(Entries(v), SlotOf(Entries(v), idx), DigitsOf(Entries(v), idx))
    requires LeafSet(v, roots, w, roots', SlotOf(Entries(v), idx), DigitsOf(Entries(v), idx), block)
    ensures LeafAt(w, roots', i) == if i == idx then block else LeafAt(v, roots, i)
    ensures HasSlot(v, roots, i) ==> HasSlot(w, roots', i)
  {
    var n := Entries(v);
    if i < MaxBlocks(n) {
      PathOfIndex(n, i);
      PathOfIndex(n, idx);
      if i >= 12 {
        DigitsSplit(n, i);
      }
    }
  }

  lemma LeafSetByte(v: Volume, roots: Roots, w: Volume, roots': Roots, used: set<nat>, own: set<nat>, k: nat)
    requires FileOk(v, roots, used, 0) && LeafAt(v, roots, Div(k / 512, v.spb)) != 0
    requires OnlyIn(v, w, own) && forall b | b in own :: Interior(v, roots, b)
    requires LeafAt(w, roots', Div(k / 512, v.spb)) == LeafAt(v, roots, Div(k / 512, v.spb))
    ensures ByteAt(w, roots', k) == ByteAt(v, roots, k)
  {
    var i := Div(k / 512, v.spb);
    PresentBlock(v, roots, used, 0, i);
    PathOfIndex(Entries(v), i);
    LeafNotInterior(v, roots, used, SlotOf(Entries(v), i), DigitsOf(Entries(v), i));
    assert SameBlock(v, w, LeafAt(v, roots, i));
  }

  /** A new leaf: the file keeps its blocks and bytes, and block `idx` is now `block`. */
  lemma LeafSetPreserves(v: Volume, roots: Roots, w: Volume, roots': Roots, used: set<nat>, own: set<nat>, idx: nat, block: nat)
    requires FileOk(v, roots, used, 0) && idx < MaxBlocks(Entries(v)) && LeafAt(v, roots, idx) == 0
    requires OnlyIn(v, w, own) && forall b | b in own :: Interior(v, roots, b)
    requires LeafPath(Entries(v), SlotOf(Entries(v), idx), DigitsOf(Entries(v), idx))
    requires LeafSet(v, roots, w, roots', SlotOf(Entries(v), idx), DigitsOf(Entries(v), idx), block)
    requires block != 0 && block !in used && InVolume(v, block)
    ensures FileOk(w, roots', used + {block}, 0) && Preserved(v, roots, w, roots') && LeafAt(w, roots', idx) == block
    ensures OtherLeaves(v, roots, w, roots', idx)
  {
    hide LeafAt, HasSlot, Node, At, Div, Interior;
    LeafSetKeepsTree(v, roots, w, roots', SlotOf(Entries(v), idx), DigitsOf(Entries(v), idx), block, used);
    forall i: nat
      ensures LeafAt(w, roots', i) == if i == idx then block else LeafAt(v, roots, i)
      ensures HasSlot(v, roots, i) ==> HasSlot(w, roots', i)
    {
      LeafSetLeaf(v, roots, w, roots', idx, block, i);
    }
    forall k: nat | LeafAt(v, roots, Div(k / 512, v.spb)) != 0
      ensures ByteAt(w, roots', k) == ByteAt(v, roots, k)
    {
      LeafSetByte(v, roots, w, roots', used, own, k);
    }
  }

  /** A block that can be linked: allocated, of no file, not structural. */
  ghost predicate Spare(lay: Layout, v: Volume, used: set<nat>, block: nat) {
    Allocated(lay, v, block) && block !in used && block !in lay.reserved && 0 < block < WORD && InVolume(v, block)
  }

  lemma DirectPath(n: nat, idx: nat)
    requires n > 0 && idx < 12
    ensures idx < MaxBlocks(n) && SlotOf(n, idx) == idx && DigitsOf(n, idx) == [] && LeafPath(n, idx, [])
  {
    OneMore(n, n);
    OneMore(n * n, n);
  }

  lemma LinkDirect(lay: Layout, v: Volume, roots: Roots, used: set<nat>, idx: nat, block: nat)
    requires FileState(lay, v, roots, used) && idx < 12 && LeafAt(v, roots, idx) == 0 && Spare(lay, v, used, block)
    ensures FileState(lay, v, roots[idx := block], used + {block})
    ensures Preserved(v, roots, v, roots[idx := block]) && LeafAt(v, roots[idx := block], idx) == block
    ensures OtherLeaves(v, roots, v, roots[idx := block], idx)
  {
    hide LeafAt, LeafSet, Preserved, OtherLeaves, TreeOk, Node, At, MaxBlocks, SlotOf, DigitsOf, LeafPath;
    DirectPath(Entries(v), idx);
    SetDirect(v, roots, v, idx, block);
    LeafSetPreserves(v, roots, v, roots[idx := block], used, {}, idx, block);
  }

  lemma WordOffset(d: nat)
    ensures 4 * d % 512 == 4 * (d % 128) <= 508
  {
  }

  /** Entry `d` of table `m` overwritten with `block`. */
  function WithPointer(v: Volume, m: nat, d: nat, block: nat): Volume
    requires SectorOf(v, m, 4 * d) < |v.sectors|
  {
    WordOffset(d);
    var s := SectorOf(v, m, 4 * d);
    WithSector(v, s, Patch(v.sectors[s], 4 * d % 512, Enc32(block)))
  }

  lemma PointerWritten(v: Volume, m: nat, d: nat, block: nat)
    requires InVolume(v, m) && d < Entries(v) && block < WORD
    ensures SectorOf(v, m, 4 * d) < |v.sectors| && OnlyIn(v, WithPointer(v, m, d, block), {m})
    ensures forall a | 0 <= a < Entries(v) :: Ptr(WithPointer(v, m, d, block), m, a) == if a == d then block else Ptr(v, m, a)
  {
    hide Ptr, WithPointer, OnlyIn, InVolume, Entries, SectorOf;
    PointerOnlyIn(v, m, d, block);
    forall a | 0 <= a < Entries(v)
      ensures Ptr(WithPointer(v, m, d, block), m, a) == if a == d then block else Ptr(v, m, a)
    {
      PointerAt(v, m, d, block, a);
    }
  }

  lemma PointerAt(v: Volume, m: nat, d: nat, block: nat, a: nat)
    requires InVolume(v, m) && d < Entries(v) && block < WORD && a < Entries(v) && SectorOf(v, m, 4 * d) < |v.sectors|
    ensures Ptr(WithPointer(v, m, d, block), m, a) == if a == d then block else Ptr(v, m, a)
  {
    hide LE16, LE32, Enc16, Enc32;
    var s := SectorOf(v, m, 4 * d);
    Enc32RoundTrip(block);
    PointerSlice(v.sectors[s], 4 * d % 512, Enc32(block), 4 * a % 512);
  }

  lemma PointerOnlyIn(v: Volume, m: nat, d: nat, block: nat)
    requires InVolume(v, m) && d < Entries(v)
    ensures SectorOf(v, m, 4 * d) < |v.sectors| && OnlyIn(v, WithPointer(v, m, d, block), {m})
  {
    hide Enc32, SameBlock;
    assert 4 * d / 512 < v.spb;
    var w := WithPointer(v, m, d, block);
    forall b: nat | b != m
      ensures SameBlock(v, w, b)
    {
      WithSectorOther(v, m, 4 * d / 512, w.sectors[SectorOf(v, m, 4 * d)], b);
    }
  }

  lemma PointerSlice(s: seq<byte>, x: nat, bytes: seq<byte>, y: nat)
    requires |s| == 512 && |bytes| == 4 && x % 4 == 0 && y % 4 == 0 && x < 512 && y < 512
    ensures Patch(s, x, bytes)[y..y + 4] == if x == y then bytes else s[y..y + 4]
  {
  }

  lemma LinkIndirect(lay: Layout, v: Volume, roots: Roots, used: set<nat>, idx: nat, m: nat, block: nat)
    requires FileState(lay, v, roots, used) && HasSlot(v, roots, idx) && idx >= 12 && LeafAt(v, roots, idx) == 0
    requires Spare(lay, v, used, block) && block < WORD
    requires m == At(v, roots, SlotOf(Entries(v), idx), InitOf(Entries(v), idx))
    ensures m in used && InVolume(v, m) && LastOf(Entries(v), idx) < Entries(v)
    ensures SectorOf(v, m, 4 * LastOf(Entries(v), idx)) < |v.sectors|
    ensures var w := WithPointer(v, m, LastOf(Entries(v), idx), block);
            && FileState(lay, w, roots, used + {block}) && Preserved(v, roots, w, roots) && LeafAt(w, roots, idx) == block
            && OtherLeaves(v, roots, w, roots, idx) && OnlyIn(v, w, {m})
  {
    var n := Entries(v);
    DigitsSplit(n, idx);
    var slot, init, d := SlotOf(n, idx), InitOf(n, idx), LastOf(n, idx);
    assert Interior(v, roots, m);
    PointerWritten(v, m, d, block);
    var w := WithPointer(v, m, d, block);
    PathOfIndex(n, idx);
    assert TableUpdated(v, roots, w, m, d, block);
    SetIndirect(v, roots, used, w, slot, init, d, m, block);
    LeafSetPreserves(v, roots, w, roots, used, {m}, idx, block);
    OwnWrites(lay, v, w, roots, used, {m});
  }
}
