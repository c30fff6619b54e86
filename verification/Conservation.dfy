/** Runs of allocations and frees: the bitmaps are a set of blocks, and the counts are its complement. */
module Conservation {
  import opened Volumes
  import opened Handles
  import opened Accounting
  import opened Allocator
  import opened Growth

  datatype Change = Change(block: nat, allocate: bool, forDirectory: bool)

  ghost function BlockLimit(lay: Layout): nat {
    lay.firstData + lay.groups * lay.bpg
  }

  /** The blocks whose bit is set. */
  ghost function Taken(lay: Layout, v: Volume): set<nat> {
    set b: nat | b < BlockLimit(lay) && Allocated(lay, v, b)
  }

  lemma InLimit(lay: Layout, b: nat)
    requires InGroups(lay, b)
    ensures b < BlockLimit(lay)
  {
    var x := b - lay.firstData;
    assert x == x / lay.bpg * lay.bpg + x % lay.bpg;
    BlockGap(lay.bpg, x / lay.bpg, lay.groups);
  }

  lemma TakenMember(lay: Layout, v: Volume, b: nat)
    ensures b in Taken(lay, v) <==> Allocated(lay, v, b)
  {
    if Allocated(lay, v, b) {
      InLimit(lay, b);
    }
  }

  /** The reference: a change is refused when the set agrees already. */
  function Apply(s: set<nat>, c: Change): (set<nat>, int) {
    if (c.block in s) == c.allocate then (s, -1) else (if c.allocate then s + {c.block} else s - {c.block}, 0)
  }

  function ApplyAll(s: set<nat>, ops: seq<Change>): (set<nat>, seq<int>)
    decreases |ops|
  {
    if ops == [] then (s, [])
    else
      var (t, r) := Apply(s, ops[0]);
      var (u, rs) := ApplyAll(t, ops[1..]);
      (u, [r] + rs)
  }

  lemma StepTaken(lay: Layout, v: Volume, w: Volume, c: Change)
    requires InGroups(lay, c.block)
    requires if Allocated(lay, v, c.block) == c.allocate then w == v
             else AllocStep(lay, v, w, false, GroupOf(lay, c.block), BitOf(lay, c.block), c.allocate)
    ensures Taken(lay, w) == Apply(Taken(lay, v), c).0
    ensures (c.block in Taken(lay, v)) == Allocated(lay, v, c.block)
    ensures |Taken(lay, w)| == |Taken(lay, v)| + (if Apply(Taken(lay, v), c).1 != 0 then 0 else if c.allocate then 1 else -1)
  {
    hide Allocated, AllocStep, BlockLimit, InGroups, Taken;
    TakenMember(lay, v, c.block);
    var s, t := Taken(lay, v), Taken(lay, w);
    if Allocated(lay, v, c.block) != c.allocate {
      StepAllocated(lay, v, w, c.block, c.allocate);
      forall b: nat
        ensures b in t <==> b in Apply(s, c).0
      {
        TakenMember(lay, v, b);
        TakenMember(lay, w, b);
      }
      assert t == Apply(s, c).0;
    }
  }

  method DoChange(ctx: Context, c: Change) returns (r: int)
    requires Mounted(ctx, ctx.Vol()) && InGroups(ctx.lay, c.block)
    modifies ctx, ctx.sysbuf, ctx.device
    ensures Mounted(ctx, ctx.Vol())
    ensures (Taken(ctx.lay, ctx.Vol()), r) == Apply(Taken(ctx.lay, old(ctx.Vol())), c)
    ensures ctx.freeBlocksCount + |Taken(ctx.lay, ctx.Vol())| == old(ctx.freeBlocksCount) + |Taken(ctx.lay, old(ctx.Vol()))|
    ensures ctx.freeInodesCount == old(ctx.freeInodesCount)
    ensures r != 0 ==> ctx.Vol() == old(ctx.Vol())
  {
    hide Taken, Allocated, AllocStep, Consistent, InGroups;
    ghost var v := ctx.Vol();
    r := ChangeAllocated(ctx, c.block, c.allocate, c.forDirectory);
    StepTaken(ctx.lay, v, ctx.Vol(), c);
  }

  /**
    Conservation over every run: the bitmaps follow the set, results included; group counts and superblock totals
    stay those of the bitmaps; free and taken blocks add up to the same number.
   */
  method RunChanges(ctx: Context, ops: seq<Change>) returns (results: seq<int>)
    requires Mounted(ctx, ctx.Vol()) && forall c | c in ops :: InGroups(ctx.lay, c.block)
    modifies ctx, ctx.sysbuf, ctx.device
    ensures Mounted(ctx, ctx.Vol())
    ensures (Taken(ctx.lay, ctx.Vol()), results) == ApplyAll(Taken(ctx.lay, old(ctx.Vol())), ops)
    ensures ctx.freeBlocksCount + |Taken(ctx.lay, ctx.Vol())| == old(ctx.freeBlocksCount) + |Taken(ctx.lay, old(ctx.Vol()))|
    ensures ctx.freeInodesCount == old(ctx.freeInodesCount)
    ensures (forall r | r in results :: r != 0) ==> ctx.Vol() == old(ctx.Vol())
    decreases |ops|
  {
    hide Mounted, Taken, InGroups, Apply;
    if ops == [] {
      return [];
    }
    var r := DoChange(ctx, ops[0]);
    var rest := RunChanges(ctx, ops[1..]);
    results := [r] + rest;
    assert r in results && forall x | x in rest :: x in results;
  }

  /** A block that is freed and allocated again, or the other way round, leaves the set as it was. */
  lemma ChangeBack(s: set<nat>, c: Change)
    requires Apply(s, c).1 == 0
    ensures Apply(Apply(s, c).0, c.(allocate := !c.allocate)) == (s, 0)
  {
    assert c.allocate ==> s + {c.block} - {c.block} == s;
    assert !c.allocate ==> s - {c.block} + {c.block} == s;
  }

  /** A successful change can be undone by the opposite one, which succeeds and restores bitmaps and totals. */
  method ChangeAndBack(ctx: Context, c: Change) returns (r: int, back: int)
    requires Mounted(ctx, ctx.Vol()) && InGroups(ctx.lay, c.block)
    modifies ctx, ctx.sysbuf, ctx.device
    ensures Mounted(ctx, ctx.Vol())
    ensures r == back == if (c.block in Taken(ctx.lay, old(ctx.Vol()))) == c.allocate then -1 else 0
    ensures Taken(ctx.lay, ctx.Vol()) == Taken(ctx.lay, old(ctx.Vol()))
    ensures ctx.freeBlocksCount == old(ctx.freeBlocksCount)
  {
    hide Mounted, Taken, InGroups;
    r := DoChange(ctx, c);
    back := r;
    if r == 0 {
      ChangeBack(Taken(ctx.lay, old(ctx.Vol())), c);
      back := DoChange(ctx, c.(allocate := !c.allocate));
    }
  }
}
