/** The bytes of a file on a volume, and what one buffer write does to them. */
module FileContent {
  import opened Bytes
  import opened Volumes
  import opened PointerTree
  import opened TreeInvariant
  import opened BlockMap

  ghost function LeafAt(v: Volume, roots: Roots, idx: nat): nat
    requires v.spb > 0
  {
    var n := Entries(v);
    if idx < MaxBlocks(n) then
      PathOfIndex(n, idx);
      At(v, roots, SlotOf(n, idx), DigitsOf(n, idx))
    else 0
  }

  /** A tree over blocks of `used` in which the first `count` blocks of the file are present. */
  ghost predicate FileOk(v: Volume, roots: Roots, used: set<nat>, count: nat) {
    && v.spb > 0
    && TreeOk(v, roots, used)
    && (forall b | b in used :: b != 0 && InVolume(v, b))
    && (forall idx | 0 <= idx < count :: LeafAt(v, roots, idx) != 0)
  }

  /** The device sector of the file's sector `q`. */
  ghost function FileSector(v: Volume, roots: Roots, q: nat): nat
    requires v.spb > 0
  {
    BlockStart(v, LeafAt(v, roots, Div(q, v.spb))) + Mod(q, v.spb)
  }

  ghost function ByteAt(v: Volume, roots: Roots, k: nat): byte
    requires v.spb > 0
  {
    if FileSector(v, roots, k / 512) < |v.sectors| then v.sectors[FileSector(v, roots, k / 512)][k % 512] else 0
  }

  ghost function Content(v: Volume, roots: Roots, size: nat): (c: seq<byte>)
    requires v.spb > 0
    ensures |c| == size
  {
    seq(size, k requires k >= 0 => ByteAt(v, roots, k))
  }

  lemma {:induction false} NodeWalkIn(v: Volume, b: nat, ds: seq<nat>)
    requires Node(v, b, ds) != 0
    requires forall k :: 0 <= k < |ds| && Node(v, b, ds[..k]) != 0 ==> InVolume(v, Node(v, b, ds[..k]))
    ensures WalkIn(v, b, ds)
    decreases |ds|
  {
    if ds != [] {
      assert ds[..0] == [] && Node(v, b, ds[..0]) == b;
      var c := Ptr(v, b, ds[0]);
      forall k | 0 <= k < |ds| - 1 && Node(v, c, ds[1..][..k]) != 0
        ensures InVolume(v, Node(v, c, ds[1..][..k]))
      {
        assert ds[..k + 1][1..] == ds[1..][..k] && ds[..k + 1][0] == ds[0];
        assert Node(v, b, ds[..k + 1]) == Node(v, c, ds[1..][..k]);
      }
      NodeWalkIn(v, c, ds[1..]);
    }
  }

  /** A block that is present is the one the driver looks up, and the lookup stays inside the volume. */
  lemma PresentBlock(v: Volume, roots: Roots, used: set<nat>, count: nat, idx: nat)
    requires FileOk(v, roots, used, count) && LeafAt(v, roots, idx) != 0
    ensures idx < MaxBlocks(Entries(v)) && PathIn(v, roots, idx)
    ensures Lookup(v, roots, idx) == LeafAt(v, roots, idx)
    ensures LeafAt(v, roots, idx) in used && InVolume(v, LeafAt(v, roots, idx))
  {
    var n := Entries(v);
    PathOfIndex(n, idx);
    var slot, ds := SlotOf(n, idx), DigitsOf(n, idx);
    NodeIsWalk(v, roots[slot], ds);
    forall k | 0 <= k < |ds| && Node(v, roots[slot], ds[..k]) != 0
      ensures InVolume(v, Node(v, roots[slot], ds[..k]))
    {
      assert Path(n, slot, ds[..k]);
      assert At(v, roots, slot, ds[..k]) in used;
    }
    NodeWalkIn(v, roots[slot], ds);
  }

  lemma DifferentLeaves(v: Volume, roots: Roots, used: set<nat>, count: nat, i: nat, j: nat)
    requires FileOk(v, roots, used, count) && LeafAt(v, roots, i) != 0 && i != j
    ensures LeafAt(v, roots, i) != LeafAt(v, roots, j)
  {
    var n := Entries(v);
    if LeafAt(v, roots, i) == LeafAt(v, roots, j) {
      PathOfIndex(n, i);
      PathOfIndex(n, j);
    }
  }

  lemma PresentSector(v: Volume, roots: Roots, used: set<nat>, count: nat, q: nat)
    requires FileOk(v, roots, used, count) && LeafAt(v, roots, Div(q, v.spb)) != 0
    ensures FileSector(v, roots, q) < |v.sectors|
  {
    PresentBlock(v, roots, used, count, Div(q, v.spb));
  }

  /** The file's sectors lie in different device sectors. */
  lemma SectorsDiffer(v: Volume, roots: Roots, used: set<nat>, count: nat, p: nat, q: nat)
    requires FileOk(v, roots, used, count) && p != q
    requires LeafAt(v, roots, Div(p, v.spb)) != 0 && LeafAt(v, roots, Div(q, v.spb)) != 0
    ensures FileSector(v, roots, p) != FileSector(v, roots, q)
  {
    hide LeafAt, Div, Mod, BlockStart, TreeOk, InVolume;
    if Div(p, v.spb) == Div(q, v.spb) {
      if Mod(p, v.spb) == Mod(q, v.spb) {
        DivModInjective(p, q, v.spb);
      }
    } else {
      DifferentLeaves(v, roots, used, count, Div(p, v.spb), Div(q, v.spb));
      BlocksDisjoint(v, LeafAt(v, roots, Div(p, v.spb)), Mod(p, v.spb), LeafAt(v, roots, Div(q, v.spb)), Mod(q, v.spb));
    }
  }

  /** Overwriting a sector of a present block changes no table of the tree. */
  lemma PatchTree(v: Volume, roots: Roots, used: set<nat>, count: nat, q: nat, sector: Sector)
    requires FileOk(v, roots, used, count) && LeafAt(v, roots, Div(q, v.spb)) != 0
    ensures FileSector(v, roots, q) < |v.sectors|
    ensures FileOk(WithSector(v, FileSector(v, roots, q), sector), roots, used, count)
    ensures forall idx :: LeafAt(WithSector(v, FileSector(v, roots, q), sector), roots, idx) == LeafAt(v, roots, idx)
  {
    var b := LeafAt(v, roots, Div(q, v.spb));
    PresentBlock(v, roots, used, count, Div(q, v.spb));
    var w := WithSector(v, FileSector(v, roots, q), sector);
    var n := Entries(v);
    forall c | Interior(v, roots, c)
      ensures SameBlock(v, w, c)
    {
      PathOfIndex(n, Div(q, v.spb));
      LeafNotInterior(v, roots, used, SlotOf(n, Div(q, v.spb)), DigitsOf(n, Div(q, v.spb)));
      WithSectorOther(v, b, Mod(q, v.spb), sector, c);
    }
    TreeOkFrame(v, w, roots, used);
    forall idx: nat
      ensures LeafAt(w, roots, idx) == LeafAt(v, roots, idx)
    {
      if idx < MaxBlocks(n) {
        PathOfIndex(n, idx);
      }
    }
  }

  /** Overwriting part of one sector of a present block changes those bytes of the file and nothing else. */
  lemma PatchFile(v: Volume, roots: Roots, used: set<nat>, count: nat, q: nat, at: nat, data: seq<byte>, k: nat)
    requires FileOk(v, roots, used, count) && LeafAt(v, roots, Div(q, v.spb)) != 0 && at + |data| <= 512
    requires LeafAt(v, roots, Div(k / 512, v.spb)) != 0
    ensures FileSector(v, roots, q) < |v.sectors|
    ensures var s := FileSector(v, roots, q);
            ByteAt(WithSector(v, s, Patch(v.sectors[s], at, data)), roots, k) ==
            if k / 512 == q && at <= k % 512 < at + |data| then data[k % 512 - at] else ByteAt(v, roots, k)
  {
    hide LeafAt, Div, Mod, TreeOk, InVolume;
    PresentSector(v, roots, used, count, q);
    var s := FileSector(v, roots, q);
    PatchTree(v, roots, used, count, q, Patch(v.sectors[s], at, data));
    if k / 512 == q {
    } else {
      SectorsDiffer(v, roots, used, count, k / 512, q);
    }
  }
}
