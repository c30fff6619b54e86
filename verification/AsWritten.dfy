/** Where the driver as written differs from what its documentation describes, and exactly when the two agree. */
module AsWritten {
  import opened Volumes
  import opened PointerTree
  import opened TreeInvariant
  import opened BlockMap
  import opened FileContent
  import opened Handles
  import opened BlockGroups
  import opened Descriptors
  import opened Accounting
  import opened Allocator
  import opened Growth
  import opened FreedBlocks

  // ----- growth

  /** The new block always goes into the first slot: that is its place for block index 0 only. */
  lemma FirstSlotIff(v: Volume, roots: Roots, idx: nat, block: nat)
    requires v.spb > 0 && idx < MaxBlocks(Entries(v)) && LeafAt(v, roots, idx) == 0 && block != 0
    ensures LeafAt(v, roots[0 := block], idx) == block <==> idx == 0
  {
    PathOfIndex(Entries(v), idx);
  }

  /** Growing behind the first block replaces that block, and the block that was to be there is still missing. */
  lemma FirstBlockLost(v: Volume, roots: Roots, used: set<nat>, idx: nat, block: nat)
    requires FileOk(v, roots, used, 1) && 0 < idx < MaxBlocks(Entries(v)) && LeafAt(v, roots, idx) == 0 && block !in used
    ensures LeafAt(v, roots[0 := block], idx) == 0 && LeafAt(v, roots[0 := block], 0) != LeafAt(v, roots, 0)
  {
    PathOfIndex(Entries(v), idx);
    PresentBlock(v, roots, used, 1, 0);
    DirectPath(Entries(v), 0);
  }

  // ----- bitmaps

  /** The sector that holds bit `i` of the bitmap in block `bm`, with the block number taken for a sector number. */
  function BitSectorAsWritten(v: Volume, bm: nat, i: nat): nat {
    v.part + bm + i / 8 / 512
  }

  lemma BitSectorIff(v: Volume, bm: nat, i: nat)
    requires SmallBlocks(v.spb)
    ensures BitSectorAsWritten(v, bm, i) == BitSector(v, bm, i) <==> bm == 0
  {
  }

  /** The number given to the block of bit `i` of group `g`. */
  function NumberAsWritten(lay: Layout, g: nat, i: nat): nat {
    lay.bpg * g + i + 1
  }

  lemma NumberIff(lay: Layout, g: nat, i: nat)
    ensures NumberAsWritten(lay, g, i) == BlockOf(lay, g, i) <==> lay.firstData == 1
  {
  }

  /** The group and bit taken for a block number: right if and only if data starts at block 0. */
  lemma BitNumberIff(lay: Layout, block: nat)
    requires InGroups(lay, block)
    ensures Div(block, lay.bpg) == GroupOf(lay, block) && Mod(block, lay.bpg) == BitOf(lay, block) <==> lay.firstData == 0
  {
    if Div(block, lay.bpg) == GroupOf(lay, block) && Mod(block, lay.bpg) == BitOf(lay, block) {
      DivModInjective(block, block - lay.firstData, lay.bpg);
    }
  }

  /** A search for a clear bit never changes the bit that it found. */
  lemma FoundBitMissed(lay: Layout, g: nat, i: nat)
    requires i < lay.bpg
    ensures var block := NumberAsWritten(lay, g, i); Div(block, lay.bpg) != g || Mod(block, lay.bpg) != i
  {
    var block := NumberAsWritten(lay, g, i);
    if Div(block, lay.bpg) == g && Mod(block, lay.bpg) == i {
      DivModUnique(g, lay.bpg, i);
      DivModInjective(block, g * lay.bpg + i, lay.bpg);
    }
  }

  // ----- descriptor tables

  /** A bit that changes while the descriptors stay no longer agrees with the count of its group. */
  lemma BitAloneBreaks(lay: Layout, v: Volume, w: Volume, g: nat, i: nat, on: bool)
    requires VolumeOk(lay, v) && g < lay.groups && i < lay.bpg && BitAt(v, lay.blockBitmap[g], i) != on
    requires BitSector(v, lay.blockBitmap[g], i) < |v.sectors|
    requires w == WithSector(v, BitSector(v, lay.blockBitmap[g], i), BitSectorData(v, lay.blockBitmap[g], i, on))
    ensures !VolumeOk(lay, w)
  {
    hide BitAt, BitSector, BitSectorData, Primary, CopiesOk;
    LayoutSame(lay, v, w);
    BlockMaps(lay);
    BitLeavesTables(lay, v, w, false, g, i, on);
    forall j | 0 <= j < lay.bpg
      ensures BitAt(w, lay.blockBitmap[g], j) == if j == i then on else BitAt(v, lay.blockBitmap[g], j)
    {
      BitWrite(v, lay.blockBitmap[g], i, on, j);
    }
    ClearBitsFlip(v, w, lay.blockBitmap[g], lay.bpg, i);
    assert GroupOk(lay, v, g);
    assert !GroupOk(lay, w, g);
  }

  /**
    Allocating or freeing with the descriptors as they are written: patched in `sysbuf` and dropped. The accounts stay
    consistent if and only if the operation refuses.
   */
  method ChangeAllocated(ctx: Context, block: nat, allocate: bool, forDirectory: bool) returns (r: int)
    requires Mounted(ctx, ctx.Vol()) && InGroups(ctx.lay, block)
    modifies ctx, ctx.sysbuf, ctx.device
    ensures r == if Allocated(ctx.lay, old(ctx.Vol()), block) == allocate then -1 else 0
    ensures r != 0 ==> ctx.Vol() == old(ctx.Vol())
    ensures VolumeOk(ctx.lay, ctx.Vol()) <==> r != 0
  {
    hide LayoutOk, BitSectorData, BitAt, BitSector, DescAt, DescBytes, TableSector, Primary, Div, Mod, CopiesOk, GroupOk, Recount, Fits;
    ghost var v := ctx.Vol();
    var g := GroupOf(ctx.lay, block);
    var i := BitOf(ctx.lay, block);
    ConsistentFacts(ctx.lay, v, ctx.freeBlocksCount, ctx.freeInodesCount, v);
    GroupFacts(ctx.lay, v, g, i);
    var ok, bg := GetBgDescriptor(ctx, g);
    var refused := FlipBit(ctx, bg.blockBitmap, i, allocate);
    if refused {
      return -1;
    }
    LayoutSame(ctx.lay, v, ctx.Vol());
    BitAloneBreaks(ctx.lay, v, ctx.Vol(), g, i, allocate);
    ok := WriteBgDescriptorAsWritten(ctx, Recount(bg, allocate, forDirectory), g);
    CountPositive(ctx.lay, v, ctx.freeBlocksCount, ctx.freeInodesCount, g, i, allocate);
    ctx.freeBlocksCount := if allocate then ctx.freeBlocksCount - 1 else ctx.freeBlocksCount + 1;
    r := 0;
  }

  lemma CountPositive(lay: Layout, v: Volume, freeBlocks: nat, freeInodes: nat, g: nat, i: nat, on: bool)
    requires Consistent(lay, v, freeBlocks, freeInodes) && g < lay.groups && i < lay.bpg && BitAt(v, lay.blockBitmap[g], i) != on
    ensures on ==> freeBlocks > 0
  {
    RecountGroup(lay, v, g, i, on, false);
  }

  // ----- truncation

  /** What the triple loop frees when it starts from table `t`. As written `t` is block 0: slot 13 was cleared before. */
  function TripleAsWritten(v: Volume, t: nat, b: nat): seq<nat> {
    TripleFrom(v, t, 0) + [b]
  }

  function TripleFrom(v: Volume, t: nat, i: nat): seq<nat>
    decreases Entries(v) - i
  {
    if i >= Entries(v) || Ptr(v, t, i) == 0 then []
    else DoubleFrom(v, Ptr(v, t, i), 0) + [Ptr(v, t, i)] + TripleFrom(v, t, i + 1)
  }

  /** The inner loop reads the entries of `table` again, not those of the table that entry `j` names. */
  function DoubleFrom(v: Volume, table: nat, j: nat): seq<nat>
    decreases Entries(v) - j
  {
    if j >= Entries(v) || Ptr(v, table, j) == 0 then []
    else SingleFrom(v, table, 0) + [Ptr(v, table, j)] + DoubleFrom(v, table, j + 1)
  }

  /** The entries of a table from `k` on, up to its first zero. */
  function SingleFrom(v: Volume, table: nat, k: nat): seq<nat>
    decreases Entries(v) - k
  {
    if k >= Entries(v) || Ptr(v, table, k) == 0 then [] else [Ptr(v, table, k)] + SingleFrom(v, table, k + 1)
  }

  /** Every table that table `t` names, up to its first zero, is empty. */
  ghost predicate TablesEmpty(v: Volume, t: nat) {
    forall x | x in SingleFrom(v, t, 0) :: Ptr(v, x, 0) == 0
  }

  lemma EmptyBelow(v: Volume, x: nat)
    requires v.spb > 0
    ensures DoubleFrom(v, x, 0) == [] <==> Ptr(v, x, 0) == 0
    ensures FreedFrom(v, x, 2, 0) == [] <==> Ptr(v, x, 0) == 0
  {
    if Ptr(v, x, 0) != 0 {
      assert |DoubleFrom(v, x, 0)| > 0;
      assert |Freed(v, Ptr(v, x, 0), 1)| > 0;
    }
  }

  /** If the tables below are empty both loops free just them. */
  lemma {:induction false} EmptyTables(v: Volume, t: nat, i: nat)
    requires v.spb > 0 && i <= Entries(v) && forall x | x in SingleFrom(v, t, i) :: Ptr(v, x, 0) == 0
    ensures TripleFrom(v, t, i) == SingleFrom(v, t, i) == FreedFrom(v, t, 3, i)
    decreases Entries(v) - i
  {
    if i < Entries(v) && Ptr(v, t, i) != 0 {
      var x := Ptr(v, t, i);
      assert SingleFrom(v, t, i) == [x] + SingleFrom(v, t, i + 1);
      EmptyBelow(v, x);
      EmptyTables(v, t, i + 1);
    }
  }

  /** The first block of a table is freed once with the inner loop and once behind it. */
  lemma FreedTwice(v: Volume, x: nat, rest: seq<nat>)
    requires v.spb > 0
    ensures Ptr(v, x, 0) != 0 ==> !NoDup(DoubleFrom(v, x, 0) + rest)
  {
    if Ptr(v, x, 0) != 0 {
      var single := SingleFrom(v, x, 0);
      var s := DoubleFrom(v, x, 0) + rest;
      assert s == single + [Ptr(v, x, 0)] + DoubleFrom(v, x, 1) + rest;
      assert s[0] == Ptr(v, x, 0) == s[|single|] && 0 < |single| < |s|;
    }
  }

  /** A list without repetition comes from empty tables only. */
  lemma {:induction false} NoDupEmpty(v: Volume, t: nat, i: nat)
    requires v.spb > 0 && NoDup(TripleFrom(v, t, i))
    ensures forall x | x in SingleFrom(v, t, i) :: Ptr(v, x, 0) == 0
    decreases Entries(v) - i
  {
    if i < Entries(v) && Ptr(v, t, i) != 0 {
      var x := Ptr(v, t, i);
      var rest := TripleFrom(v, t, i + 1);
      FreedTwice(v, x, [x] + rest);
      assert TripleFrom(v, t, i) == DoubleFrom(v, x, 0) + ([x] + rest);
      Suffix(DoubleFrom(v, x, 0) + [x], rest);
      NoDupEmpty(v, t, i + 1);
    }
  }

  lemma Suffix(x: seq<nat>, y: seq<nat>)
    requires NoDup(x + y)
    ensures NoDup(x) && NoDup(y)
  {
    forall i, j | 0 <= i < j < |y|
      ensures y[i] != y[j]
    {
      assert (x + y)[|x| + i] == y[i] && (x + y)[|x| + j] == y[j];
    }
    forall i, j | 0 <= i < j < |x|
      ensures x[i] != x[j]
    {
      assert (x + y)[i] == x[i] && (x + y)[j] == x[j];
    }
  }

  lemma {:induction false} EntriesFreed(v: Volume, b: nat, i: nat)
    requires i <= Entries(v)
    ensures forall x | x in SingleFrom(v, b, i) :: x in FreedFrom(v, b, 3, i)
    decreases Entries(v) - i
  {
    if i < Entries(v) && Ptr(v, b, i) != 0 {
      EntriesFreed(v, b, i + 1);
    }
  }

  /**
    The triple tree in slot 14 is freed if and only if its table lists the same blocks as block 0 up to the first zero,
    and every table it names is empty. Where block 0 starts with a zero word this means that the tree is empty.
   */
  lemma TripleIff(v: Volume, roots: Roots, used: set<nat>)
    requires v.spb > 0 && TreeOk(v, roots, used) && roots[14] != 0
    ensures TripleAsWritten(v, 0, roots[14]) == Freed(v, roots[14], 3) <==>
            SingleFrom(v, 0, 0) == SingleFrom(v, roots[14], 0) && TablesEmpty(v, roots[14])
    ensures Ptr(v, 0, 0) == 0 ==> (TripleAsWritten(v, 0, roots[14]) == Freed(v, roots[14], 3) <==> Ptr(v, roots[14], 0) == 0)
  {
    hide TripleFrom, Freed, FreedFrom, SingleFrom, NoDup;
    var b := roots[14];
    FreedIs(v, b);
    if TripleAsWritten(v, 0, b) == Freed(v, b, 3) {
      FreedNoDup(v, roots, used, 14, []);
      Suffix(TripleFrom(v, 0, 0), [b]);
      NoDupEmpty(v, 0, 0);
      EmptyTables(v, 0, 0);
      EntriesFreed(v, b, 0);
      SameInit(TripleFrom(v, 0, 0), FreedFrom(v, b, 3, 0), b);
      EmptyTables(v, b, 0);
    }
    if SingleFrom(v, 0, 0) == SingleFrom(v, b, 0) && TablesEmpty(v, b) {
      EmptyTables(v, 0, 0);
      EmptyTables(v, b, 0);
    }
    FirstZero(v, 0);
    FirstZero(v, b);
  }

  lemma SameInit(x: seq<nat>, y: seq<nat>, b: nat)
    requires x + [b] == y + [b]
    ensures x == y
  {
    assert (x + [b])[..|x|] == x && (y + [b])[..|y|] == y;
  }

  lemma FreedIs(v: Volume, b: nat)
    ensures Freed(v, b, 3) == FreedFrom(v, b, 3, 0) + [b]
  {
  }

  lemma FirstZero(v: Volume, t: nat)
    requires v.spb > 0
    ensures SingleFrom(v, t, 0) == [] <==> Ptr(v, t, 0) == 0
  {
  }

  /** With slot 14 read, but the wrong table loaded, everything that is freed is a pointer table: no leaf is. */
  lemma WrongTableMisses(v: Volume, roots: Roots, used: set<nat>, leaf: nat)
    requires v.spb > 0 && TreeOk(v, roots, used) && roots[14] != 0 && leaf != 0
    requires exists ds :: LeafPath(Entries(v), 14, ds) && At(v, roots, 14, ds) == leaf
    ensures leaf !in TripleAsWritten(v, roots[14], roots[14])
  {
    hide TripleFrom;
    var ds :| LeafPath(Entries(v), 14, ds) && At(v, roots, 14, ds) == leaf;
    LeafNotInterior(v, roots, used, 14, ds);
    assert Path(Entries(v), 14, []) && At(v, roots, 14, []) == roots[14];
    assert Interior(v, roots, roots[14]);
    if leaf in TripleFrom(v, roots[14], 0) {
      TripleInterior(v, roots, 0, leaf);
    }
  }

  lemma {:induction false} TripleInterior(v: Volume, roots: Roots, i: nat, x: nat)
    requires roots[14] != 0 && x in TripleFrom(v, roots[14], i)
    ensures Interior(v, roots, x)
    decreases Entries(v) - i
  {
    var t := Ptr(v, roots[14], i);
    TableEntry(v, roots, [], i);
    if x in DoubleFrom(v, t, 0) {
      DoubleInterior(v, roots, i, 0, x);
    } else if x == t {
      assert Path(Entries(v), 14, [i]) && At(v, roots, 14, [i]) == x;
    } else {
      TripleInterior(v, roots, i + 1, x);
    }
  }

  lemma {:induction false} DoubleInterior(v: Volume, roots: Roots, i: nat, j: nat, x: nat)
    requires i < Entries(v) && At(v, roots, 14, [i]) != 0 && x in DoubleFrom(v, At(v, roots, 14, [i]), j)
    ensures Interior(v, roots, x)
    decreases Entries(v) - j
  {
    var t := At(v, roots, 14, [i]);
    if x in SingleFrom(v, t, 0) {
      SingleInterior(v, roots, i, 0, x);
    } else if x == Ptr(v, t, j) {
      TableEntry(v, roots, [i], j);
      assert Path(Entries(v), 14, [i, j]) && At(v, roots, 14, [i, j]) == x;
    } else {
      DoubleInterior(v, roots, i, j + 1, x);
    }
  }

  lemma {:induction false} SingleInterior(v: Volume, roots: Roots, i: nat, k: nat, x: nat)
    requires i < Entries(v) && At(v, roots, 14, [i]) != 0 && x in SingleFrom(v, At(v, roots, 14, [i]), k)
    ensures Interior(v, roots, x)
    decreases Entries(v) - k
  {
    if x == Ptr(v, At(v, roots, 14, [i]), k) {
      TableEntry(v, roots, [i], k);
      assert Path(Entries(v), 14, [i, k]) && At(v, roots, 14, [i, k]) == x;
    } else {
      SingleInterior(v, roots, i, k + 1, x);
    }
  }

  lemma TableEntry(v: Volume, roots: Roots, ds: seq<nat>, a: nat)
    requires At(v, roots, 14, ds) != 0
    ensures At(v, roots, 14, ds + [a]) == Ptr(v, At(v, roots, 14, ds), a)
    ensures [] + [a] == [a] && (|ds| == 1 ==> ds + [a] == [ds[0], a])
  {
    NodeSnoc(v, roots[14], ds, a);
  }
}
