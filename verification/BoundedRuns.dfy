/** Runs on a volume that may fill up: writes that stop early and append mode, against a file with a block budget. */
module BoundedRuns {
  import opened Bytes
  import opened Volumes
  import opened PointerTree
  import opened BlockMap
  import opened FileContent
  import opened Handles
  import opened Growth
  import opened SelectBlock
  import opened FlatFile
  import opened FileIO
  import opened FileWrite
  import opened FileRuns

  // ----- the reference: a byte sequence that cannot grow beyond a limit

  function PutAt(f: Flat, append: bool): nat {
    if append then |f.content| else f.cursor
  }

  predicate Legal(f: Flat, op: Op, append: bool, cap: nat) {
    match op
    case Seek(offset, _) => -0x8000_0000 <= offset < 0x8000_0000
    case Get(_) => true
    case Put(data) => PutAt(f, append) <= |f.content| && PutAt(f, append) + |data| <= cap
  }

  /** How many of `count` bytes fit. */
  function Fitting(start: nat, count: nat, limit: nat): (n: nat)
    ensures n <= count
  {
    if start + count <= limit then count else if limit <= start then 0 else limit - start
  }

  function StepWithin(f: Flat, op: Op, limit: nat, append: bool, cap: nat): (Flat, Out)
    requires Legal(f, op, append, cap)
  {
    match op
    case Seek(offset, whence) =>
      var p := SeekTo(|f.content|, f.cursor, offset, whence);
      if p.Reachable? then (f.(cursor := p.pos), Position(ToInt(p.pos))) else (f, Position(-1))
    case Get(count) => (f.(cursor := f.cursor + Available(f, count)), Data(ReadData(f, count)))
    case Put(data) =>
      var start := PutAt(f, append);
      var n := Fitting(start, |data|, limit);
      (Flat(Splice(f.content, start, data[..n]), start + n), Written(if n == |data| then n else -1))
  }

  predicate LegalRun(f: Flat, ops: seq<Op>, limit: nat, append: bool, cap: nat)
    decreases |ops|
  {
    ops == [] || (Legal(f, ops[0], append, cap) && LegalRun(StepWithin(f, ops[0], limit, append, cap).0, ops[1..], limit, append, cap))
  }

  function RunWithin(f: Flat, ops: seq<Op>, limit: nat, append: bool, cap: nat): (Flat, seq<Out>)
    requires LegalRun(f, ops, limit, append, cap)
    decreases |ops|
  {
    if ops == [] then (f, [])
    else
      var (g, out) := StepWithin(f, ops[0], limit, append, cap);
      var (h, outs) := RunWithin(g, ops[1..], limit, append, cap);
      (h, [out] + outs)
  }

  // ----- files without holes or blocks behind their end

  /** The number of blocks that `size` bytes fill. */
  function Blocks(spb: nat, size: nat): nat
    requires spb > 0
  {
    (size + 512 * spb - 1) / (512 * spb)
  }

  /** The block of the last byte is the last of those that the size counts. */
  lemma BlocksEnd(spb: nat, size: nat)
    requires spb > 0
    ensures Blocks(spb, size) == EndBlock(spb, 0, size)
    ensures size <= Blocks(spb, size) * (512 * spb)
  {
    var bs := 512 * spb;
    var c := Blocks(spb, size);
    assert size + bs - 1 == c * bs + (size + bs - 1) % bs;
    if size > 0 {
      DivDiv(size - 1, 512, spb);
      var q := (size - 1) / bs;
      assert size - 1 == q * bs + (size - 1) % bs;
      OneMore(q, bs);
      DivModUnique(q + 1, bs, (size - 1) % bs);
    } else {
      DivModUnique(0, bs, bs - 1);
      DivZero(spb);
    }
  }

  /** A position in no earlier block than the number of blocks is the end of the last block. */
  lemma AtLimit(spb: nat, pos: nat, size: nat)
    requires spb > 0 && pos <= size && Div(pos / 512, spb) >= Blocks(spb, size)
    ensures pos == size == Blocks(spb, size) * (512 * spb)
  {
    hide Blocks;
    BlocksEnd(spb, size);
    DivDiv(pos, 512, spb);
    Quotient(pos, 512 * spb);
    LastBlock(pos / (512 * spb), Blocks(spb, size), 512 * spb, pos, size);
  }

  lemma Quotient(x: nat, d: nat)
    requires d > 0
    ensures x / d * d <= x
  {
  }

  lemma LastBlock(q: nat, c: nat, bs: nat, pos: nat, size: nat)
    requires c <= q && q * bs <= pos <= size <= c * bs && bs > 0
    ensures pos == size == c * bs
  {
    if c < q {
      BlockGap(bs, c, q);
    }
  }

  /** Exactly the blocks that the size counts are present. */
  ghost predicate Exact(v: Volume, roots: Roots, size: nat)
    requires v.spb > 0
  {
    forall i: nat :: LeafAt(v, roots, i) != 0 <==> i < Blocks(v.spb, size)
  }

  lemma {:induction false} ExactMissing(v: Volume, roots: Roots, size: nat, lo: nat, e: nat)
    requires v.spb > 0 && Exact(v, roots, size) && lo <= e && lo <= Blocks(v.spb, size)
    ensures Missing(v, roots, lo, e) == if e <= Blocks(v.spb, size) then 0 else e - Blocks(v.spb, size)
    decreases e
  {
    hide LeafAt, Blocks;
    if lo < e {
      ExactMissing(v, roots, size, lo, e - 1);
    }
  }

  /** What a write leaves of such a file: no holes, no blocks behind the end, and one free block fewer for each new one. */
  lemma ExactKept(v0: Volume, roots0: Roots, size0: nat, free0: nat, start: nat, v: Volume, roots: Roots, size: nat, free: nat, pos: nat)
    requires v0.spb > 0 && Exact(v0, roots0, size0) && start <= size0 && size == if pos > size0 then pos else size0
    requires Progress(v0, roots0, free0, start, v, roots, free, pos) && Mapped(v, roots, size)
    ensures Exact(v, roots, size) && free + Blocks(v.spb, size) == free0 + Blocks(v0.spb, size0)
  {
    hide LeafAt, Blocks, Div, Missing, HasSlot;
    var spb := v0.spb;
    var lo, e := Div(start / 512, spb), EndBlock(spb, start, pos);
    BlocksEnd(spb, size0);
    BlocksEnd(spb, size);
    BlocksEnd(spb, pos);
    EndBlocks(spb, start, start, size0);
    EndBlocks(spb, start, pos, size);
    EndBlocks(spb, size0, size0, size);
    BeginsAt(spb, start);
    ExactMissing(v0, roots0, size0, lo, e);
    forall i: nat
      ensures LeafAt(v, roots, i) != 0 <==> i < Blocks(spb, size)
    {
      if i < Blocks(spb, size) {
        BlockPresent(v, roots, size, i);
      } else {
        assert LeafAt(v, roots, i) == LeafAt(v0, roots0, i);
      }
    }
  }

  lemma BlockPresent(v: Volume, roots: Roots, size: nat, i: nat)
    requires v.spb > 0 && Mapped(v, roots, size) && i < EndBlock(v.spb, 0, size)
    ensures LeafAt(v, roots, i) != 0
  {
    hide LeafAt;
    DivZero(v.spb);
    BlockHasByte(v.spb, 0, size, i);
    var k := if i == 0 then 0 else i * v.spb * 512;
    assert LeafAt(v, roots, Div(k / 512, v.spb)) != 0;
  }

  // ----- the operations

  /** A file open for writing that can have `limit` bytes: those of its blocks and of the free ones. */
  ghost predicate Solid(fe: FileEnt, used: set<nat>, cap: nat, limit: nat)
    reads fe, fe.context, fe.context.device, fe.buffer
  {
    && Open(fe, used) && fe.canWrite && fe.inode.size <= cap < WORD - 1 && Slots(fe.Logical(), fe.inode.block, 0, cap)
    && Exact(fe.Logical(), fe.inode.block, fe.inode.size)
    && limit == (Blocks(fe.context.lay.spb, fe.inode.size) + fe.context.freeBlocksCount) * (512 * fe.context.lay.spb)
  }

  /** A write fills the file up to the limit, and what did not fit is what lies behind it. */
  lemma PutWithin(lay: Layout, f0: View, used0: set<nat>, start: nat, data: seq<byte>, i: nat, f: View, used: set<nat>, cap: nat, limit: nat)
    requires WriteState(lay, f0, used0, start, data, i, f, used) && (i < |data| ==> NoRoomAt(f)) && start + |data| <= cap
    requires Exact(f0.v, f0.inode.block, f0.inode.size) && Slots(f0.v, f0.inode.block, 0, cap) && f0.inode.size <= cap
    requires Mapped(f.v, f.inode.block, f.inode.size)
    requires limit == (Blocks(f0.v.spb, f0.inode.size) + f0.free) * (512 * f0.v.spb)
    ensures f.v.spb == f0.v.spb && i == Fitting(start, |data|, limit) && BytesOf(f) == Splice(BytesOf(f0), start, data[..i])
    ensures Exact(f.v, f.inode.block, f.inode.size) && Slots(f.v, f.inode.block, 0, cap) && f.inode.size <= cap
    ensures limit == (Blocks(f.v.spb, f.inode.size) + f.free) * (512 * f.v.spb) && Isolated(lay, f0.v, used0, f.v, used)
  {
    hide LeafAt, HasSlot, Div, Blocks, Isolated, Splice, BytesOf, Exact;
    ExactKept(f0.v, f0.inode.block, f0.inode.size, f0.free, start, f.v, f.inode.block, f.inode.size, f.free, start + i);
    BlocksEnd(f.v.spb, f.inode.size);
    assert Blocks(f0.v.spb, f0.inode.size) + f0.free == Blocks(f.v.spb, f.inode.size) + f.free;
    WithinLimit(Blocks(f.v.spb, f.inode.size), f.free, 512 * f.v.spb);
    if i < |data| {
      ExactAbsent(f.v, f.inode.block, f.inode.size, Div(f.cursor / 512, f.v.spb));
      AtLimit(f.v.spb, start + i, f.inode.size);
    }
  }

  lemma WithinLimit(blocks: nat, free: nat, bs: nat)
    ensures blocks * bs <= (blocks + free) * bs && (free == 0 ==> blocks * bs == (blocks + free) * bs)
  {
    assert (blocks + free) * bs == blocks * bs + free * bs;
    assert free * bs >= 0;
  }

  lemma ExactAbsent(v: Volume, roots: Roots, size: nat, i: nat)
    requires v.spb > 0 && Exact(v, roots, size) && LeafAt(v, roots, i) == 0
    ensures i >= Blocks(v.spb, size)
  {
  }

  method PutBytes(fe: FileEnt, ghost used: set<nat>, data: seq<byte>, ghost cap: nat, ghost limit: nat)
    returns (n: int, ghost used': set<nat>)
    requires Solid(fe, used, cap, limit) && Legal(Abstract(fe), Put(data), fe.appendMode, cap)
    modifies fe`cursor, fe`fsDirty, fe`inode, fe`dirty, fe`lbaBlock, fe.buffer, fe.context, fe.context.sysbuf, fe.context.device
    ensures Solid(fe, used', cap, limit)
    ensures (Abstract(fe), Written(n)) == StepWithin(old(Abstract(fe)), Put(data), limit, fe.appendMode, cap)
    ensures Isolated(fe.context.lay, old(fe.Logical()), used, fe.Logical(), used')
  {
    hide Ready, Mapped, Isolated, WriteState, Slots, Needed, FileEnt.Logical, Splice, Content, Exact, Blocks, NoRoomAt;
    ghost var f0, start := ViewOf(fe), StartOf(fe);
    SlotsWithin(f0.v, f0.inode.block, start, start + |data|, cap);
    n, used' := Write(fe, used, data);
    PutWithin(fe.context.lay, f0, used, start, data, fe.cursor - start, ViewOf(fe), used', cap, limit);
  }

  lemma SlotsWithin(v: Volume, roots: Roots, from: nat, to: nat, cap: nat)
    requires v.spb > 0 && Slots(v, roots, 0, cap) && to <= cap
    ensures Slots(v, roots, from, to)
  {
  }

  method SeekSolid(fe: FileEnt, ghost used: set<nat>, offset: int, whence: int, ghost cap: nat, ghost limit: nat) returns (r: int)
    requires Solid(fe, used, cap, limit) && -0x8000_0000 <= offset < 0x8000_0000
    modifies fe`cursor
    ensures Solid(fe, used, cap, limit)
    ensures (Abstract(fe), Position(r)) == StepWithin(old(Abstract(fe)), Seek(offset, whence), limit, fe.appendMode, cap)
  {
    hide Mapped, FileEnt.Logical, Content, SeekTo, FileState, Slots, Exact, Blocks;
    r := Lseek(fe, offset, whence);
  }

  /**
    Refinement over every run, on a volume that may fill up and in append mode as well: outputs, final content and cursor
    are those of the run on a byte sequence that cannot grow beyond the limit.
   */
  method RunSolid(fe: FileEnt, ghost used: set<nat>, ops: seq<Op>, ghost cap: nat, ghost limit: nat)
    returns (outs: seq<Out>, ghost used': set<nat>)
    requires Solid(fe, used, cap, limit) && LegalRun(Abstract(fe), ops, limit, fe.appendMode, cap)
    modifies fe`cursor, fe`fsDirty, fe`inode, fe`dirty, fe`lbaBlock, fe.buffer, fe.context, fe.context.sysbuf, fe.context.device
    ensures Solid(fe, used', cap, limit)
    ensures (Abstract(fe), outs) == RunWithin(old(Abstract(fe)), ops, limit, fe.appendMode, cap)
    ensures Isolated(fe.context.lay, old(fe.Logical()), used, fe.Logical(), used')
    decreases |ops|
  {
    hide Ready, Mapped, Isolated, FileEnt.Logical, Splice, Content, SeekTo, ReadData, Available, Slots, Exact, Blocks;
    used' := used;
    IsolatedSame(fe.context.lay, fe.Logical(), used);
    if ops == [] {
      return [], used;
    }
    ghost var v := fe.Logical();
    var out;
    ghost var flat := Abstract(fe);
    match ops[0] {
      case Seek(offset, whence) =>
        var r := SeekSolid(fe, used, offset, whence, cap, limit);
        out := Position(r);
      case Get(count) =>
        var n, data := Read(fe, used, count);
        out := Data(data);
      case Put(data) =>
        var n;
        n, used' := PutBytes(fe, used, data, cap, limit);
        out := Written(n);
    }
    assert (Abstract(fe), out) == StepWithin(flat, ops[0], limit, fe.appendMode, cap);
    ghost var w, own := fe.Logical(), used';
    var rest;
    rest, used' := RunSolid(fe, used', ops[1..], cap, limit);
    IsolatedTrans(fe.context.lay, v, used, w, own, fe.Logical(), used');
    outs := [out] + rest;
  }

  /** A file without blocks, as it is after its creation or a truncate, can have what the free blocks hold. */
  lemma EmptySolid(fe: FileEnt, used: set<nat>, cap: nat)
    requires Open(fe, used) && fe.canWrite && fe.inode.size == 0 && forall s | 0 <= s < 15 :: fe.inode.block[s] == 0
    requires cap <= 12 * 512 * fe.context.lay.spb
    ensures Solid(fe, used, cap, fe.context.freeBlocksCount * (512 * fe.context.lay.spb))
  {
    hide Ready, FileEnt.Logical, Div;
    var v, roots := fe.Logical(), fe.inode.block;
    ReadySmall(fe, used);
    BlocksEnd(v.spb, 0);
    DivZero(v.spb);
    forall i: nat
      ensures LeafAt(v, roots, i) == 0
    {
      if i < MaxBlocks(Entries(v)) {
        PathOfIndex(Entries(v), i);
      }
    }
    forall k: nat | k < cap
      ensures HasSlot(v, roots, Div(k / 512, v.spb))
    {
      TwelveBlocks(v.spb, k);
      DirectPath(Entries(v), Div(k / 512, v.spb));
    }
  }

  lemma ReadySmall(fe: FileEnt, used: set<nat>)
    requires Ready(fe, used)
    ensures SmallBlocks(fe.context.lay.spb)
  {
  }
}
