/** Reading and writing group descriptors: one table is read, every copy is written. */
module Descriptors {
  import opened Bytes
  import opened Volumes
  import opened Handles
  import opened BlockGroups

  ghost predicate CopiesOk(lay: Layout, v: Volume)
    requires LayoutOk(lay, v)
  {
    forall k, g | 0 <= k < |lay.tables| && 0 <= g < lay.groups ::
      TableSector(v, lay.tables[k], g) < |v.sectors| && TableSector(v, lay.tables[0], g) < |v.sectors|
      && DescBytes(v, lay.tables[k], g) == DescBytes(v, lay.tables[0], g)
  }

  lemma TableSectorIn(lay: Layout, v: Volume, k: nat, g: nat)
    requires LayoutOk(lay, v) && k < |lay.tables| && g < lay.groups
    ensures TableSector(v, lay.tables[k], g) < |v.sectors|
  {
    TableSectorInBlock(v, lay, lay.tables[k], g);
    assert TableBlock(lay, lay.tables[k], g) in lay.reserved;
  }

  /** Copies do not overlap. */
  lemma TableSectorsDiffer(lay: Layout, v: Volume, k: nat, g: nat, j: nat, h: nat)
    requires LayoutOk(lay, v) && k < |lay.tables| && j < |lay.tables| && g < lay.groups && h < lay.groups
    requires j != k
    ensures TableSector(v, lay.tables[k], g) != TableSector(v, lay.tables[j], h)
  {
    hide Div, Mod, BlockStart;
    TableSectorInBlock(v, lay, lay.tables[k], g);
    TableSectorInBlock(v, lay, lay.tables[j], h);
    BlocksDisjoint(v, TableBlock(lay, lay.tables[k], g), Mod(g / 16, v.spb),
                   TableBlock(lay, lay.tables[j], h), Mod(h / 16, v.spb));
  }

  /** From `v` to `w`, the descriptor of group `g` becomes `bytes` in the first `upto` copies; nothing else changes. */
  ghost predicate DescWritten(lay: Layout, v: Volume, w: Volume, g: nat, bytes: seq<byte>, upto: nat)
    requires LayoutOk(lay, v) && upto <= |lay.tables|
  {
    && SameShape(v, w)
    && (forall k, h | 0 <= k < |lay.tables| && 0 <= h < lay.groups ::
          TableSector(v, lay.tables[k], h) < |v.sectors|
          && DescBytes(w, lay.tables[k], h) ==
             if h == g && k < upto then bytes else DescBytes(v, lay.tables[k], h))
    && (forall s | 0 <= s < |v.sectors| :: w.sectors[s] == v.sectors[s]
          || exists k :: 0 <= k < upto && s == TableSector(v, lay.tables[k], g))
  }

  lemma DescWrittenStep(lay: Layout, v: Volume, w: Volume, g: nat, bytes: seq<byte>, upto: nat)
    requires LayoutOk(lay, v) && upto < |lay.tables| && g < lay.groups && |bytes| == 32
    requires DescWritten(lay, v, w, g, bytes, upto)
    ensures TableSector(v, lay.tables[upto], g) < |w.sectors|
    ensures var s := TableSector(v, lay.tables[upto], g);
            DescWritten(lay, v, WithSector(w, s, Patch(w.sectors[s], g % 16 * 32, bytes)), g, bytes, upto + 1)
  {
    TableSectorIn(lay, v, upto, g);
    var s := TableSector(v, lay.tables[upto], g);
    var sector: Sector := Patch(w.sectors[s], g % 16 * 32, bytes);
    var x := WithSector(w, s, sector);
    forall k, h | 0 <= k < |lay.tables| && 0 <= h < lay.groups
      ensures TableSector(v, lay.tables[k], h) < |v.sectors|
      ensures DescBytes(x, lay.tables[k], h) ==
              if h == g && k < upto + 1 then bytes else DescBytes(v, lay.tables[k], h)
    {
      if k != upto {
        TableSectorsDiffer(lay, v, k, h, upto, g);
      } else if TableSector(v, lay.tables[k], h) == s {
        PatchedSlice(w.sectors[s], g % 16, bytes, h % 16);
      }
    }
  }

  lemma PatchedSlice(s: seq<byte>, i: nat, bytes: seq<byte>, j: nat)
    requires |s| == 512 && i < 16 && j < 16 && |bytes| == 32
    ensures Patch(s, i * 32, bytes)[j * 32..j * 32 + 32] == if i == j then bytes else s[j * 32..j * 32 + 32]
  {
  }

  method GetBgDescriptor(ctx: Context, g: nat) returns (r: int, bg: BgDescriptor)
    requires ctx.Valid() && LayoutOk(ctx.lay, ctx.Vol())
    modifies ctx.sysbuf
    ensures r == if g < ctx.lay.groups then 0 else -1
    ensures g < ctx.lay.groups ==>
              TableSector(ctx.Vol(), ctx.lay.tables[0], g) < |ctx.Vol().sectors|
              && bg == DescAt(ctx.Vol(), ctx.lay.tables[0], g)
  {
    bg := BgDescriptor(0, 0, 0, 0, 0, 0, 0, seq(12, i => 0));
    if g >= ctx.lay.groups {
      return -1, bg;
    }
    TableSectorIn(ctx.lay, ctx.Vol(), 0, g);
    var lba := (ctx.lay.tables[0] + 1) * ctx.lay.spb;
    lba := lba + g / 16;
    var err := ctx.device.Read(lba + ctx.lay.part, ctx.sysbuf);
    bg := Decode(ctx.sysbuf[g % 16 * 32..g % 16 * 32 + 32]);
    r := 0;
  }

  /** With the write-back that the documentation of the operation promises. */
  method WriteBgDescriptor(ctx: Context, bg: BgDescriptor, g: nat) returns (r: int)
    requires ctx.Valid() && LayoutOk(ctx.lay, ctx.Vol()) && Fits(bg)
    modifies ctx.sysbuf, ctx.device
    ensures r == if g < ctx.lay.groups then 0 else -1
    ensures r != 0 ==> ctx.Vol() == old(ctx.Vol())
    ensures r == 0 ==> DescWritten(ctx.lay, old(ctx.Vol()), ctx.Vol(), g, Encode(bg), |ctx.lay.tables|)
  {
    hide LayoutOk, DescWritten, Encode, Fits;
    if g >= ctx.lay.groups {
      return -1;
    }
    ghost var v := ctx.Vol();
    NothingWritten(ctx.lay, v, g, Encode(bg));
    var i := 0;
    while i < |ctx.lay.tables|
      invariant i <= |ctx.lay.tables|
      invariant DescWritten(ctx.lay, v, ctx.Vol(), g, Encode(bg), i)
    {
      DescWrittenStep(ctx.lay, v, ctx.Vol(), g, Encode(bg), i);
      TableSectorIn(ctx.lay, v, i, g);
      var lba := ctx.lay.tables[i] + 1;
      lba := lba * ctx.lay.spb;
      lba := lba + g / 16;
      var err := ctx.device.Read(lba + ctx.lay.part, ctx.sysbuf);
      PatchSysbuf(ctx, g % 16 * 32, Encode(bg));
      err := ctx.device.Write(lba + ctx.lay.part, ctx.sysbuf);
      i := i + 1;
    }
    r := 0;
  }

  lemma NothingWritten(lay: Layout, v: Volume, g: nat, bytes: seq<byte>)
    requires LayoutOk(lay, v)
    ensures DescWritten(lay, v, v, g, bytes, 0)
  {
    forall k, h | 0 <= k < |lay.tables| && 0 <= h < lay.groups
      ensures TableSector(v, lay.tables[k], h) < |v.sectors|
    {
      TableSectorIn(lay, v, k, h);
    }
  }

  /** The operation as written: each copy is patched in `sysbuf` and then dropped. */
  method WriteBgDescriptorAsWritten(ctx: Context, bg: BgDescriptor, g: nat) returns (r: int)
    requires ctx.Valid() && LayoutOk(ctx.lay, ctx.Vol()) && Fits(bg)
    modifies ctx.sysbuf
    ensures r == if g < ctx.lay.groups then 0 else -1
    ensures ctx.Vol() == old(ctx.Vol())
  {
    if g >= ctx.lay.groups {
      return -1;
    }
    var i := 0;
    while i < |ctx.lay.tables| {
      var lba := ctx.lay.tables[i] + 1;
      lba := lba * ctx.lay.spb;
      lba := lba + g / 16;
      var err := ctx.device.Read(lba + ctx.lay.part, ctx.sysbuf);
      PatchSysbuf(ctx, g % 16 * 32, Encode(bg));
      i := i + 1;
    }
    r := 0;
  }

  method PatchSysbuf(ctx: Context, at: nat, data: seq<byte>)
    requires ctx.Valid() && at + |data| <= 512
    modifies ctx.sysbuf
    ensures ctx.sysbuf[..] == Patch(old(ctx.sysbuf[..]), at, data)
  {
    forall i | 0 <= i < |data| {
      ctx.sysbuf[at + i] := data[i];
    }
    assert ctx.sysbuf[..] == Patch(old(ctx.sysbuf[..]), at, data);
  }

  // ----- what a reader sees after a write

  /** After a complete write the primary table holds the new descriptor, the copies agree, and the rest is as before. */
  lemma WriteThenGet(lay: Layout, v: Volume, w: Volume, g: nat, bg: BgDescriptor)
    requires LayoutOk(lay, v) && Fits(bg) && g < lay.groups
    requires CopiesOk(lay, v) && DescWritten(lay, v, w, g, Encode(bg), |lay.tables|)
    ensures LayoutOk(lay, w) && CopiesOk(lay, w)
    ensures forall h | 0 <= h < lay.groups ::
              TableSector(w, lay.tables[0], h) < |w.sectors|
              && DescAt(w, lay.tables[0], h) == if h == g then bg else DescAt(v, lay.tables[0], h)
  {
    DecodeEncode(bg);
    LayoutSame(lay, v, w);
  }

  lemma LayoutSame(lay: Layout, v: Volume, w: Volume)
    requires LayoutOk(lay, v) && SameShape(v, w)
    ensures LayoutOk(lay, w)
  {
  }
}
