/** The geometry of a filesystem at mount: block groups and the blocks that hold superblock copies. */
module Mount {
  import opened Volumes
  import opened Handles
  import opened BlockGroups
  import opened BlockMap
  import opened PointerTree
  import opened Powers

  const SUPER_MAGIC := 0xEF53
  const SPARSE_SUPER: bv32 := 0x0001

  /** The fields of the superblock that the geometry depends on. */
  datatype Superblock = Superblock(
    magic: nat, blocksCount: nat, blocksPerGroup: nat, logBlockSize: nat, revLevel: nat, featureRoCompat: bv32)

  // ----- powers

  ghost predicate IsPowerOf(x: nat, base: nat) {
    exists k: nat :: x == Power(base, k)
  }

  lemma PowerPred(x: nat, base: nat, k: nat)
    requires base >= 2 && x % base == 0 && x == Power(base, k)
    ensures k > 0 && x / base == Power(base, k - 1)
  {
    if k > 0 {
      DivModUnique(Power(base, k - 1), base, 0);
    }
  }

  lemma PowerSucc(x: nat, base: nat, k: nat)
    requires base >= 2 && x % base == 0 && x / base == Power(base, k)
    ensures x == Power(base, k + 1)
  {
    assert x == x / base * base + x % base;
  }

  lemma Quotient(x: nat, base: nat)
    requires base >= 2 && x >= 1 && x % base == 0
    ensures 1 <= x / base < x
  {
    assert x == x / base * base;
    assert x / base * base >= x / base * 2;
  }

  lemma PowerDivides(x: nat, base: nat)
    requires base >= 2 && x >= 1 && x % base == 0
    ensures 1 <= x / base < x
    ensures IsPowerOf(x, base) <==> IsPowerOf(x / base, base)
  {
    hide Power;
    Quotient(x, base);
    if IsPowerOf(x, base) {
      var k: nat :| x == Power(base, k);
      PowerPred(x, base, k);
    }
    if IsPowerOf(x / base, base) {
      var k: nat :| x / base == Power(base, k);
      PowerSucc(x, base, k);
    }
  }

  lemma PowerMultiple(base: nat, k: nat)
    requires base >= 2 && k > 0
    ensures Power(base, k) % base == 0
  {
    DivModUnique(Power(base, k - 1), base, 0);
  }

  lemma PowerOnlyOne(x: nat, base: nat)
    requires base >= 2 && x % base != 0
    ensures IsPowerOf(x, base) <==> x == 1
  {
    hide Power;
    PowerZero(base);
    if IsPowerOf(x, base) {
      var k: nat :| x == Power(base, k);
      if k > 0 {
        PowerMultiple(base, k);
      }
    }
  }

  lemma PowerZero(base: nat)
    ensures Power(base, 0) == 1
  {
  }

  /** Decides whether `x` is a power of `ofy`; it terminates for every positive `x`. */
  method IsPower(x: nat, ofy: nat) returns (r: bool)
    requires x >= 1 && ofy >= 2
    ensures r <==> IsPowerOf(x, ofy)
  {
    var y := x;
    while y % ofy == 0
      invariant y >= 1 && (IsPowerOf(x, ofy) <==> IsPowerOf(y, ofy))
      decreases y
    {
      PowerDivides(y, ofy);
      y := y / ofy;
    }
    PowerOnlyOne(y, ofy);
    r := y == 1;
  }

  // ----- the groups with a superblock

  ghost predicate HasCopy(sparse: bool, g: nat) {
    !sparse || g == 0 || g == 1 || IsPowerOf(g, 3) || IsPowerOf(g, 5) || IsPowerOf(g, 7)
  }

  /** The groups below `n` that hold a copy of the superblock. */
  ghost function Holders(sparse: bool, n: nat): seq<nat> {
    if n == 0 then [] else Holders(sparse, n - 1) + (if HasCopy(sparse, n - 1) then [n - 1] else [])
  }

  /** With the base and the number the right way round. */
  method SparseGroup(i: nat) returns (r: bool)
    ensures r == HasCopy(true, i)
  {
    if i == 0 || i == 1 {
      return true;
    }
    r := IsPower(i, 3);
    if !r {
      r := IsPower(i, 5);
      if !r {
        r := IsPower(i, 7);
      }
    }
  }

  function FirstSuperblock(logBlockSize: nat): nat {
    if logBlockSize == 0 then 1 else 0
  }

  /** Block of the superblock copy in group `g`. */
  function Entry(g: nat, bpg: nat, first: nat): nat {
    g * bpg + first
  }

  lemma EntryOrder(g: nat, h: nat, bpg: nat, first: nat)
    requires bpg > 0
    ensures g < h ==> Entry(g, bpg, first) + bpg <= Entry(h, bpg, first)
    ensures Entry(0, bpg, first) == first
  {
    if g < h {
      BlockGap(bpg, g, h);
    }
  }

  /** What `superblock_blocks` must hold. */
  ghost function CopyBlocks(sparse: bool, groups: nat, bpg: nat, first: nat): (s: seq<nat>)
    ensures |s| == |Holders(sparse, groups)|
  {
    seq(|Holders(sparse, groups)|, k requires 0 <= k < |Holders(sparse, groups)| => Entry(Holders(sparse, groups)[k], bpg, first))
  }

  lemma CopyBlocksStep(sparse: bool, groups: nat, bpg: nat, first: nat)
    ensures CopyBlocks(sparse, groups + 1, bpg, first) ==
            CopyBlocks(sparse, groups, bpg, first) + (if HasCopy(sparse, groups) then [Entry(groups, bpg, first)] else [])
  {
  }

  lemma {:induction false} HoldersGrow(sparse: bool, n: nat, m: nat)
    requires n <= m
    ensures |Holders(sparse, n)| <= |Holders(sparse, m)|
  {
    if n < m {
      HoldersGrow(sparse, n, m - 1);
    }
  }

  /** A counting pass, then a filling pass: the table has exactly the size that is filled. */
  method LocateSuperblocks(sparse: bool, groups: nat, bpg: nat, first: nat) returns (table: array<nat>)
    ensures fresh(table) && table[..] == CopyBlocks(sparse, groups, bpg, first)
  {
    if sparse {
      var count := 0;
      for i := 0 to groups
        invariant count == |Holders(true, i)|
      {
        var copy := SparseGroup(i);
        if copy {
          count := count + 1;
        }
      }
      table := new nat[count];
      var n := 0;
      for i := 0 to groups
        invariant n == |Holders(true, i)| <= table.Length && table[..n] == CopyBlocks(true, i, bpg, first)
      {
        CopyBlocksStep(true, i, bpg, first);
        HoldersGrow(true, i + 1, groups);
        var copy := SparseGroup(i);
        if copy {
          table[n] := Entry(i, bpg, first);
          n := n + 1;
        }
      }
    } else {
      AllHold(groups);
      table := new nat[groups];
      for i := 0 to groups
        invariant table[..i] == CopyBlocks(false, i, bpg, first)
      {
        CopyBlocksStep(false, i, bpg, first);
        AllHold(i);
        table[i] := Entry(i, bpg, first);
      }
    }
  }

  lemma {:induction false} AllHold(n: nat)
    ensures |Holders(false, n)| == n && forall k | 0 <= k < n :: Holders(false, n)[k] == k
  {
    if n > 0 {
      AllHold(n - 1);
    }
  }

  /** The holders are listed in order, each once, and are exactly the groups with a copy. */
  lemma {:induction false} HoldersExact(sparse: bool, n: nat)
    ensures forall j, k | 0 <= j < k < |Holders(sparse, n)| :: Holders(sparse, n)[j] < Holders(sparse, n)[k]
    ensures forall g: nat :: g in Holders(sparse, n) <==> g < n && HasCopy(sparse, g)
    ensures n > 0 ==> |Holders(sparse, n)| > 0 && Holders(sparse, n)[0] == 0
  {
    if n > 0 {
      HoldersExact(sparse, n - 1);
      var h := Holders(sparse, n - 1);
      assert forall k | 0 <= k < |h| :: h[k] in h;
    }
  }

  /** The table is strictly increasing, starts at the primary superblock and has one entry for each holding group. */
  lemma TableExact(sparse: bool, groups: nat, bpg: nat, first: nat)
    requires bpg > 0 && groups > 0
    ensures var t := CopyBlocks(sparse, groups, bpg, first);
            && |t| > 0 && t[0] == first
            && (forall j, k | 0 <= j < k < |t| :: t[j] + bpg <= t[k])
            && (forall g: nat :: g < groups && HasCopy(sparse, g) <==> Entry(g, bpg, first) in t)
  {
    hide Entry, HasCopy;
    HoldersExact(sparse, groups);
    EntryOrder(0, 0, bpg, first);
    var h, t := Holders(sparse, groups), CopyBlocks(sparse, groups, bpg, first);
    forall j, k | 0 <= j < k < |t|
      ensures t[j] + bpg <= t[k]
    {
      EntryOrder(h[j], h[k], bpg, first);
    }
    forall g: nat
      ensures g < groups && HasCopy(sparse, g) <==> Entry(g, bpg, first) in t
    {
      if g in h {
        var k :| 0 <= k < |h| && h[k] == g;
        assert t[k] == Entry(g, bpg, first);
      }
      if Entry(g, bpg, first) in t {
        var k :| 0 <= k < |t| && t[k] == Entry(g, bpg, first);
        EntryOrder(h[k], g, bpg, first);
        EntryOrder(g, h[k], bpg, first);
      }
    }
  }

  /**
    With the copies where a mount puts them, neither the descriptor tables behind different copies nor the superblock
    copies overlap, as long as a table is shorter than a group.
   */
  lemma CopiesApart(lay: Layout, sparse: bool, first: nat)
    requires lay.spb > 0 && lay.groups > 0 && lay.tables == CopyBlocks(sparse, lay.groups, lay.bpg, first)
    requires 2 + Div((lay.groups - 1) / 16, lay.spb) <= lay.bpg
    ensures forall k, l, g, h | 0 <= k < |lay.tables| && 0 <= l < |lay.tables| && 0 <= g < lay.groups && 0 <= h < lay.groups ::
              k != l ==> TableBlock(lay, lay.tables[k], g) != TableBlock(lay, lay.tables[l], h)
    ensures forall k, l, g | 0 <= k < |lay.tables| && 0 <= l < |lay.tables| && 0 <= g < lay.groups ::
              lay.tables[k] != TableBlock(lay, lay.tables[l], g)
  {
    hide Div;
    TableExact(sparse, lay.groups, lay.bpg, first);
    forall t: nat, g | 0 <= g < lay.groups
      ensures t < TableBlock(lay, t, g) < t + lay.bpg
    {
      DivMonotone(g / 16, (lay.groups - 1) / 16, lay.spb);
    }
    assert forall j, k | 0 <= j < k < |lay.tables| :: lay.tables[j] + lay.bpg <= lay.tables[k];
  }

  // ----- mounting

  predicate Sparse(sb: Superblock) {
    sb.revLevel == 1 && sb.featureRoCompat & SPARSE_SUPER != 0
  }

  /** The least number of groups that covers all blocks. */
  ghost predicate Covers(groups: nat, bpg: nat, blocks: nat) {
    blocks <= groups * bpg && (groups > 0 ==> (groups - 1) * bpg < blocks)
  }

  /** Refused for a wrong magic number or a size, in 1 KiB units, above the number of 512-byte blocks. */
  method MountGeometry(sb: Superblock, volumeSize: nat) returns (r: int, groups: nat, table: array<nat>)
    requires sb.blocksPerGroup > 0 && sb.blocksCount < WORD
    requires sb.blocksCount * Power(2, sb.logBlockSize) < WORD
    ensures r == if sb.magic != SUPER_MAGIC || sb.blocksCount * Power(2, sb.logBlockSize) > volumeSize then -1 else 0
    ensures fresh(table)
    ensures r == 0 ==> Covers(groups, sb.blocksPerGroup, sb.blocksCount)
    ensures r == 0 ==> table[..] == CopyBlocks(Sparse(sb), groups, sb.blocksPerGroup, FirstSuperblock(sb.logBlockSize))
    ensures r == 0 ==> forall b | b in table[..] :: b <= sb.blocksCount < WORD
    ensures r == 0 <==> sb.magic == 0xEF53 && sb.blocksCount * Power(2, sb.logBlockSize) <= volumeSize
    ensures r == 0 && groups > 0 ==>
              var bs := 1024 * Power(2, sb.logBlockSize);
              table.Length > 0 && table[0] * bs <= 1024 < (table[0] + 1) * bs
    ensures r == 0 && groups > 0 ==>
              forall g: nat | g < groups ::
                HasCopy(sb.revLevel == 1 && sb.featureRoCompat & 1 != 0, g) <==> table[0] + g * sb.blocksPerGroup in table[..]
  {
    if sb.magic != SUPER_MAGIC || sb.blocksCount * Power(2, sb.logBlockSize) > volumeSize {
      table := new nat[0];
      return -1, 0, table;
    }
    var superblockBlock := if sb.logBlockSize == 0 then 1 else 0;
    groups := sb.blocksCount / sb.blocksPerGroup;
    if sb.blocksCount % sb.blocksPerGroup != 0 {
      groups := groups + 1;
    }
    RoundedUp(sb.blocksCount, sb.blocksPerGroup);
    table := LocateSuperblocks(Sparse(sb), groups, sb.blocksPerGroup, superblockBlock);
    EntriesBelow(Sparse(sb), groups, sb.blocksPerGroup, superblockBlock, sb.blocksCount);
    if groups > 0 {
      PrimaryPlace(sb.logBlockSize);
      TableExact(Sparse(sb), groups, sb.blocksPerGroup, superblockBlock);
    }
    r := 0;
  }

  lemma PowerGrows(k: nat)
    ensures Power(2, k) >= 1 && (k > 0 ==> Power(2, k) >= 2)
  {
    if k > 0 {
      PowerGrows(k - 1);
    }
  }

  /** The block that holds byte 1024 of the partition is block 1 with 1 KiB blocks, and block 0 with larger ones. */
  lemma PrimaryPlace(logBlockSize: nat)
    ensures var bs := 1024 * Power(2, logBlockSize);
            FirstSuperblock(logBlockSize) * bs <= 1024 < (FirstSuperblock(logBlockSize) + 1) * bs
  {
    PowerGrows(logBlockSize);
  }

  lemma EntriesBelow(sparse: bool, groups: nat, bpg: nat, first: nat, blocks: nat)
    requires Covers(groups, bpg, blocks) && first <= 1
    ensures forall b | b in CopyBlocks(sparse, groups, bpg, first) :: b <= blocks
  {
    hide Entry, HasCopy, Covers;
    HoldersExact(sparse, groups);
    var h, t := Holders(sparse, groups), CopyBlocks(sparse, groups, bpg, first);
    forall k | 0 <= k < |t|
      ensures t[k] <= blocks
    {
      assert h[k] in h;
      EntryBelow(h[k], groups, bpg, first, blocks);
    }
  }

  lemma EntryBelow(g: nat, groups: nat, bpg: nat, first: nat, blocks: nat)
    requires Covers(groups, bpg, blocks) && first <= 1 && g < groups
    ensures Entry(g, bpg, first) <= blocks
  {
    if g < groups - 1 {
      BlockGap(bpg, g, groups - 1);
    }
  }

  lemma RoundedUp(x: nat, d: nat)
    requires d > 0
    ensures Covers(x / d + (if x % d != 0 then 1 else 0), d, x)
  {
    var q := x / d;
    assert x == q * d + x % d;
    assert (q + 1) * d == q * d + d;
    if q > 0 {
      BlockGap(d, q - 1, q);
    }
  }

  // ----- as written

  /** The test with base and number swapped, as the two passes call it: is 3, 5 or 7 a power of `i`? */
  method SparseGroupAsWritten(i: nat) returns (r: bool)
    ensures r == (i in {0, 1, 3, 5, 7})
  {
    if i == 0 || i == 1 {
      return true;
    }
    r := IsPower(3, i);
    PrimePower(3, i);
    if !r {
      r := IsPower(5, i);
      PrimePower(5, i);
      if !r {
        r := IsPower(7, i);
        PrimePower(7, i);
      }
    }
  }

  /** A prime is a power only of itself. */
  lemma PrimePower(p: nat, i: nat)
    requires p in {3, 5, 7} && i >= 2
    ensures IsPowerOf(p, i) <==> i == p
  {
    if p % i == 0 {
      assert i == p by {
        assert i <= p;
      }
      PowerDivides(p, i);
      assert 1 == Power(i, 0);
    } else {
      PowerOnlyOne(p, i);
    }
  }

  ghost function HoldersAsWritten(n: nat): seq<nat> {
    if n == 0 then [] else HoldersAsWritten(n - 1) + (if n - 1 in {0, 1, 3, 5, 7} then [n - 1] else [])
  }

  /** The swapped test finds the copies of a sparse filesystem exactly while there are at most nine groups. */
  lemma SwappedTestIff(n: nat)
    ensures HoldersAsWritten(n) == Holders(true, n) <==> n <= 9
  {
    if n <= 9 {
      FirstNine(n);
    } else {
      NinthMissing(n);
      HoldersExact(true, n);
      assert 9 == Power(3, 2) by {
        assert Power(3, 1) == 3;
      }
      assert HasCopy(true, 9);
    }
  }

  lemma {:induction false} NinthMissing(n: nat)
    ensures 9 !in HoldersAsWritten(n)
  {
    if n > 0 {
      NinthMissing(n - 1);
    }
  }

  lemma {:induction false} FirstNine(n: nat)
    requires n <= 9
    ensures HoldersAsWritten(n) == Holders(true, n)
  {
    if n > 0 {
      FirstNine(n - 1);
      SmallCopies(n - 1);
    }
  }

  lemma SmallCopies(g: nat)
    requires g < 9
    ensures HasCopy(true, g) <==> g in {0, 1, 3, 5, 7}
  {
    if g >= 2 {
      SmallPower(g, 3);
      SmallPower(g, 5);
      SmallPower(g, 7);
    }
  }

  lemma SmallPower(g: nat, p: nat)
    requires 2 <= g < 9 && p in {3, 5, 7}
    ensures IsPowerOf(g, p) <==> g == p
  {
    if g % p == 0 {
      PowerDivides(g, p);
      PowerOnlyOne(g / p, p);
    } else {
      PowerOnlyOne(g, p);
    }
  }

  /** The flush puts the first copy where the mount reads it, two sectors into the partition, only with 1 KiB blocks. */
  lemma FlushedWhereReadIff(logBlockSize: nat)
    ensures FirstSuperblock(logBlockSize) * Power(2, logBlockSize + 1) == 2 <==> logBlockSize == 0
  {
    assert Power(2, 0) == 1 && Power(2, 1) == 2;
  }
}
