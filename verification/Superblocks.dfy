/** Writing the superblock, with its current totals, back to all of its copies. */
module Superblocks {
  import opened Bytes
  import opened Volumes
  import opened Handles
  import opened BlockGroups
  import opened Descriptors
  import opened Accounting

  /** The sector of the copy in block `nr`: the record with the totals, and the block number where the group number belongs. */
  function Image(record: seq<byte>, freeBlocks: nat, freeInodes: nat, nr: nat): Sector
    requires |record| == SUPERBLOCK
  {
    Patch(Patch(Patch(record, 12, Enc32(freeBlocks)), 16, Enc32(freeInodes)), 90, Enc16(nr)) + Zeros(512 - SUPERBLOCK)
  }

  /** The fields of the sector of a copy, by their offsets. */
  ghost predicate CopyHolds(s: Sector, record: seq<byte>, freeBlocks: nat, freeInodes: nat, nr: nat)
    requires |record| == 264
  {
    && LE32(s[12..16]) == freeBlocks % 0x1_0000_0000 && LE32(s[16..20]) == freeInodes % 0x1_0000_0000
    && LE16(s[90..92]) == nr % 0x1_0000
    && (forall k | 0 <= k < 264 && !(12 <= k < 20) && !(90 <= k < 92) :: s[k] == record[k])
    && (forall k | 264 <= k < 512 :: s[k] == 0)
  }

  /** Every copy on the device holds the current totals. */
  ghost predicate CopiesCurrent(ctx: Context)
    reads ctx, ctx.device
  {
    && |ctx.superblock| == 264
    && forall k | 0 <= k < |ctx.lay.tables| ::
         var s := ctx.lay.part + ctx.lay.tables[k] * ctx.lay.spb;
         0 <= s < |ctx.device.sectors|
         && CopyHolds(ctx.device.sectors[s], ctx.superblock, ctx.freeBlocksCount, ctx.freeInodesCount, ctx.lay.tables[k])
  }

  lemma ImageHolds(record: seq<byte>, freeBlocks: nat, freeInodes: nat, nr: nat)
    requires |record| == 264
    ensures CopyHolds(Image(record, freeBlocks, freeInodes, nr), record, freeBlocks, freeInodes, nr)
  {
    hide Enc16, Enc32, LE16, LE32;
    var s := Image(record, freeBlocks, freeInodes, nr);
    assert s[12..16] == Enc32(freeBlocks) && s[16..20] == Enc32(freeInodes) && s[90..92] == Enc16(nr);
    Enc32Low(freeBlocks);
    Enc32Low(freeInodes);
    Enc16Low(nr);
  }

  /** From `v` to `w`, the first sector of the first `upto` superblock blocks is rewritten; nothing else changes. */
  ghost predicate Flushed(lay: Layout, v: Volume, w: Volume, record: seq<byte>, freeBlocks: nat, freeInodes: nat, upto: nat)
    requires LayoutOk(lay, v) && upto <= |lay.tables| && |record| == SUPERBLOCK
  {
    && SameShape(v, w)
    && (forall k | 0 <= k < upto :: BlockStart(v, lay.tables[k]) < |w.sectors|
          && w.sectors[BlockStart(v, lay.tables[k])] == Image(record, freeBlocks, freeInodes, lay.tables[k]))
    && (forall s | 0 <= s < |v.sectors| :: w.sectors[s] == v.sectors[s]
          || exists k :: 0 <= k < upto && s == BlockStart(v, lay.tables[k]))
  }

  lemma CopyStart(lay: Layout, v: Volume, k: nat)
    requires LayoutOk(lay, v) && k < |lay.tables|
    ensures BlockStart(v, lay.tables[k]) < |v.sectors|
    ensures forall j | 0 <= j < |lay.tables| && j != k :: BlockStart(v, lay.tables[j]) != BlockStart(v, lay.tables[k])
  {
    assert InVolume(v, lay.tables[k]);
    forall j | 0 <= j < |lay.tables| && j != k
      ensures BlockStart(v, lay.tables[j]) != BlockStart(v, lay.tables[k])
    {
      assert TableBlock(lay, lay.tables[j], 0) != TableBlock(lay, lay.tables[k], 0);
      BlocksDisjoint(v, lay.tables[j], 0, lay.tables[k], 0);
    }
  }

  lemma FlushedStep(lay: Layout, v: Volume, w: Volume, record: seq<byte>, freeBlocks: nat, freeInodes: nat, k: nat)
    requires LayoutOk(lay, v) && k < |lay.tables| && |record| == SUPERBLOCK
    requires Flushed(lay, v, w, record, freeBlocks, freeInodes, k)
    ensures BlockStart(v, lay.tables[k]) < |w.sectors|
    ensures Flushed(lay, v, WithSector(w, BlockStart(v, lay.tables[k]), Image(record, freeBlocks, freeInodes, lay.tables[k])),
                    record, freeBlocks, freeInodes, k + 1)
  {
    hide LayoutOk, Image;
    CopyStart(lay, v, k);
  }

  /** `SUPERBLOCK` bytes of the record and then zeros go to the first sector of every copy. */
  method FlushSuperblock(ctx: Context) returns (r: int)
    requires ctx.Valid() && LayoutOk(ctx.lay, ctx.Vol())
    modifies ctx.sysbuf, ctx.device
    ensures r == 0
    ensures Flushed(ctx.lay, old(ctx.Vol()), ctx.Vol(), ctx.superblock, ctx.freeBlocksCount, ctx.freeInodesCount, |ctx.lay.tables|)
    ensures CopiesCurrent(ctx)
  {
    hide LayoutOk, Image, CopyHolds, CopiesCurrent;
    ghost var v := ctx.Vol();
    forall i | 0 <= i < 512 {
      ctx.sysbuf[i] := 0;
    }
    var i := 0;
    while i < |ctx.lay.tables|
      invariant i <= |ctx.lay.tables|
      invariant Flushed(ctx.lay, v, ctx.Vol(), ctx.superblock, ctx.freeBlocksCount, ctx.freeInodesCount, i)
      invariant forall k | SUPERBLOCK <= k < 512 :: ctx.sysbuf[k] == 0
      modifies ctx.sysbuf, ctx.device
    {
      FlushedStep(ctx.lay, v, ctx.Vol(), ctx.superblock, ctx.freeBlocksCount, ctx.freeInodesCount, i);
      var image := Image(ctx.superblock, ctx.freeBlocksCount, ctx.freeInodesCount, ctx.lay.tables[i]);
      ImageTail(ctx.superblock, ctx.freeBlocksCount, ctx.freeInodesCount, ctx.lay.tables[i]);
      forall k | 0 <= k < SUPERBLOCK {
        ctx.sysbuf[k] := image[k];
      }
      assert ctx.sysbuf[..] == image;
      var err := ctx.device.Write(ctx.lay.tables[i] * ctx.lay.spb + ctx.lay.part, ctx.sysbuf);
      i := i + 1;
    }
    FlushedCurrent(ctx, v);
    r := 0;
  }

  lemma FlushedCurrent(ctx: Context, v: Volume)
    requires ctx.Valid() && LayoutOk(ctx.lay, v)
    requires Flushed(ctx.lay, v, ctx.Vol(), ctx.superblock, ctx.freeBlocksCount, ctx.freeInodesCount, |ctx.lay.tables|)
    ensures CopiesCurrent(ctx)
  {
    hide LayoutOk, Image, CopyHolds;
    forall k | 0 <= k < |ctx.lay.tables|
      ensures var s := ctx.lay.part + ctx.lay.tables[k] * ctx.lay.spb;
              0 <= s < |ctx.device.sectors|
              && CopyHolds(ctx.device.sectors[s], ctx.superblock, ctx.freeBlocksCount, ctx.freeInodesCount, ctx.lay.tables[k])
    {
      ImageHolds(ctx.superblock, ctx.freeBlocksCount, ctx.freeInodesCount, ctx.lay.tables[k]);
      assert BlockStart(v, ctx.lay.tables[k]) == ctx.lay.part + ctx.lay.tables[k] * ctx.lay.spb;
    }
  }

  lemma ImageTail(record: seq<byte>, freeBlocks: nat, freeInodes: nat, nr: nat)
    requires |record| == SUPERBLOCK
    ensures forall k | SUPERBLOCK <= k < 512 :: Image(record, freeBlocks, freeInodes, nr)[k] == 0
  {
  }

  /** Only the blocks of the superblock copies change. */
  lemma FlushFrame(lay: Layout, v: Volume, w: Volume, record: seq<byte>, freeBlocks: nat, freeInodes: nat)
    requires LayoutOk(lay, v) && |record| == SUPERBLOCK && Flushed(lay, v, w, record, freeBlocks, freeInodes, |lay.tables|)
    ensures forall b: nat | b !in lay.tables :: SameBlock(v, w, b)
  {
    forall b: nat | b !in lay.tables
      ensures SameBlock(v, w, b)
    {
      forall s | BlockStart(v, b) <= s < BlockStart(v, b) + v.spb && InVolume(v, b)
        ensures v.sectors[s] == w.sectors[s]
      {
        forall k | 0 <= k < |lay.tables|
          ensures s != BlockStart(v, lay.tables[k])
        {
          BlocksDisjoint(v, lay.tables[k], 0, b, s - BlockStart(v, b));
        }
      }
    }
  }

  /** The flush behind a change of the inode accounts is part of that change. */
  lemma FlushInStep(lay: Layout, v: Volume, x: Volume, w: Volume, record: seq<byte>, freeBlocks: nat, freeInodes: nat,
                    g: nat, i: nat, on: bool)
    requires VolumeOk(lay, v) && AllocStep(lay, v, x, true, g, i, on) && VolumeOk(lay, x)
    requires |record| == SUPERBLOCK && Flushed(lay, x, w, record, freeBlocks, freeInodes, |lay.tables|)
    ensures AllocStep(lay, v, w, true, g, i, on) && VolumeOk(lay, w)
    ensures FreeBlocks(lay, w) == FreeBlocks(lay, x) && FreeInodes(lay, w) == FreeInodes(lay, x)
  {
    hide BitAt, SameBlock, GroupOk, FreeBlocks, FreeInodes, TableBlock, Image;
    FlushFrame(lay, x, w, record, freeBlocks, freeInodes);
    forall b | AccountBlock(lay, b)
      ensures SameBlock(x, w, b)
    {
      CopiesNotAccount(lay, x, b);
    }
    VolumeOkFrame(lay, x, w);
    StepThenSame(lay, v, x, w, g, i, on);
  }

  lemma CopiesNotAccount(lay: Layout, v: Volume, b: nat)
    requires LayoutOk(lay, v) && AccountBlock(lay, b)
    ensures b !in lay.tables
  {
  }

  lemma StepThenSame(lay: Layout, v: Volume, x: Volume, w: Volume, g: nat, i: nat, on: bool)
    requires AllocStep(lay, v, x, true, g, i, on) && LayoutOk(lay, w) && CopiesOk(lay, w) && SameShape(x, w)
    requires forall b: nat | b !in lay.tables :: SameBlock(x, w, b)
    requires forall h | 0 <= h < lay.groups :: Primary(lay, w, h) == Primary(lay, x, h)
    requires forall h, j | 0 <= h < lay.groups && 0 <= j < 4096 * lay.spb ::
               BitAt(w, lay.blockBitmap[h], j) == BitAt(x, lay.blockBitmap[h], j)
               && BitAt(w, lay.inodeBitmap[h], j) == BitAt(x, lay.inodeBitmap[h], j)
    ensures AllocStep(lay, v, w, true, g, i, on)
  {
    hide BitAt, Primary, CopiesOk, Recounted, AccountBlock, TableBlock;
    forall h | 0 <= h < lay.groups
      ensures BitsKept(v, w, lay.inodeBitmap[h], if h == g then {i} else {})
      ensures BitsKept(v, w, lay.blockBitmap[h], {})
    {
      assert BitsKept(v, x, Maps(lay, true)[h], if h == g then {i} else {});
      assert BitsKept(v, x, Maps(lay, false)[h], {});
    }
    forall b | !AccountBlock(lay, b) && b !in lay.tables
      ensures SameBlock(v, w, b)
    {
      assert SameBlock(v, x, b) && SameBlock(x, w, b);
    }
  }
}
