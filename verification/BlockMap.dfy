/** From a byte offset of a file to the block that holds it. */
module BlockMap {
  import opened Bytes
  import opened Volumes
  import opened PointerTree
  import opened Handles
  import opened Buffer

  const NO_BLOCK := 0xFFFF_FFFF
  const WORD := 0x1_0000_0000

  /** Block sizes of 1, 2 and 4 KiB. */
  predicate SmallBlocks(spb: nat) {
    spb == 2 || spb == 4 || spb == 8
  }

  /** Every pointer table on the way from block `b` lies in the volume. */
  predicate WalkIn(v: Volume, b: nat, ds: seq<nat>)
    decreases |ds|
  {
    ds == [] || (InVolume(v, b) && WalkIn(v, Ptr(v, b, ds[0]), ds[1..]))
  }

  predicate PathIn(v: Volume, roots: Roots, idx: nat)
    requires v.spb > 0
  {
    var n := Entries(v);
    idx < MaxBlocks(n) ==> WalkIn(v, roots[SlotOf(n, idx)], DigitsOf(n, idx))
  }

  /** The 32-bit block index of a byte offset. */
  function BlockIndex(spb: nat, offset: nat): nat
    requires spb > 0
  {
    offset / (512 * spb) % WORD
  }

  /** Loads pointer `a` of table `b` through the file's buffer. */
  method LoadPointer(fe: FileEnt, b: nat, a: nat) returns (p: nat)
    requires fe.Valid() && InVolume(fe.Logical(), b) && a < Entries(fe.Logical())
    modifies fe`dirty, fe`lbaBlock, fe.buffer, fe.context.device
    ensures !fe.dirty && fe.Valid() && fe.Logical() == old(fe.Logical())
    ensures p == Ptr(fe.Logical(), b, a)
  {
    var r := LoadBuffer(fe, b, a * 4);
    var bytes := ReadBuffer(fe, a * 4, 4);
    p := LE32(bytes);
  }

  lemma Walk1(v: Volume, b: nat, x: nat)
    ensures Walk(v, b, [x]) == Ptr(v, b, x)
    ensures WalkIn(v, b, [x]) == InVolume(v, b)
  {
    assert [x][1..] == [];
  }

  /** The double indirect lookup: entry `y` of the table named by entry `x`. */
  method LoadDouble(fe: FileEnt, b: nat, x: nat, y: nat) returns (p: nat)
    requires fe.Valid() && WalkIn(fe.Logical(), b, [x, y])
    requires x < Entries(fe.Logical()) && y < Entries(fe.Logical())
    modifies fe`dirty, fe`lbaBlock, fe.buffer, fe.context.device
    ensures !fe.dirty && fe.Valid() && fe.Logical() == old(fe.Logical())
    ensures p == Walk(fe.Logical(), b, [x, y])
  {
    assert [x, y][1..] == [y];
    Walk1(fe.Logical(), Ptr(fe.Logical(), b, x), y);
    p := LoadPointer(fe, b, x);
    p := LoadPointer(fe, p, y);
  }

  method LoadTriple(fe: FileEnt, b: nat, x: nat, y: nat, z: nat) returns (p: nat)
    requires fe.Valid() && WalkIn(fe.Logical(), b, [x, y, z])
    requires x < Entries(fe.Logical()) && y < Entries(fe.Logical()) && z < Entries(fe.Logical())
    modifies fe`dirty, fe`lbaBlock, fe.buffer, fe.context.device
    ensures !fe.dirty && fe.Valid() && fe.Logical() == old(fe.Logical())
    ensures p == Walk(fe.Logical(), b, [x, y, z])
  {
    assert [x, y, z][1..] == [y, z];
    p := LoadPointer(fe, b, x);
    p := LoadDouble(fe, p, y, z);
  }

  method BlockFromOffset(fe: FileEnt, offset: nat) returns (block: nat)
    requires fe.Valid() && SmallBlocks(fe.context.lay.spb)
    requires PathIn(fe.Logical(), fe.inode.block, BlockIndex(fe.context.lay.spb, offset))
    modifies fe`dirty, fe`lbaBlock, fe.buffer, fe.context.device
    ensures fe.Valid() && fe.Logical() == old(fe.Logical())
    ensures fe.dirty ==> old(fe.dirty) && fe.lbaBlock == old(fe.lbaBlock)
    ensures var idx := BlockIndex(fe.context.lay.spb, offset);
            block == if idx < MaxBlocks(Entries(fe.Logical())) then Lookup(fe.Logical(), fe.inode.block, idx)
                     else NO_BLOCK
  {
    ghost var v := fe.Logical();
    var n := 128 * fe.context.lay.spb;
    var cube := n * n * n % WORD;
    CubeFits(n);
    var index := BlockIndex(fe.context.lay.spb, offset);
    if index < 12 {
      block := fe.inode.block[index];
      return;
    }
    index := index - 12;
    if index < n {
      Walk1(v, fe.inode.block[12], index);
      block := LoadPointer(fe, fe.inode.block[12], index);
      return;
    }
    index := index - n;
    if index < n * n {
      DivBound(index, n, n);
      block := LoadDouble(fe, fe.inode.block[13], index / n, index % n);
      return;
    }
    index := index - n * n;
    if index < cube {
      TripleIndex(n, index);
      block := LoadTriple(fe, fe.inode.block[14], index / (n * n), index / n % n, index % n);
      return;
    }
    block := NO_BLOCK;
  }

  /** `n * n * n` in 32 bits is the cube exactly for block sizes up to 4 KiB. */
  lemma CubeFits(n: nat)
    ensures n * n * n % WORD == n * n * n <==> n <= 1625
  {
    if n <= 1625 {
      CubeMonotone(n, 1625);
    } else {
      CubeMonotone(1626, n);
    }
  }

  lemma CubeMonotone(m: nat, n: nat)
    requires m <= n
    ensures m * m * m <= n * n * n
  {
    assert m * m <= n * n by {
      BlockLe(m, m, n);
      BlockLe(n, m, n);
    }
    BlockLe(m, m * m, n * n);
    BlockLe(n * n, m, n);
  }

  lemma BlockLe(k: nat, a: nat, b: nat)
    requires a <= b
    ensures a * k <= b * k && k * a <= k * b
  {
  }
}
