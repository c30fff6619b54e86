/** Any run of seeks, reads and writes, in place or growing the file, is the same run on a byte sequence. */
module FileRuns {
  import opened Bytes
  import opened Volumes
  import opened PointerTree
  import opened BlockMap
  import opened FileContent
  import opened Handles
  import opened Growth
  import opened SelectBlock
  import opened FlatFile
  import opened FileIO
  import opened FileWrite

  lemma MappedSlotsAll(v: Volume, roots: Roots, used: set<nat>, cap: nat, from: nat, to: nat)
    requires FileOk(v, roots, used, 0) && Mapped(v, roots, cap) && to <= cap
    ensures Slots(v, roots, from, to)
  {
    forall k: nat | from <= k < to
      ensures HasSlot(v, roots, Div(k / 512, v.spb))
    {
      SlotInVolume(v, roots, used, Div(k / 512, v.spb));
    }
  }

  /** Nothing has to be allocated for a write within the mapped part. */
  lemma {:induction false} MappedNeedsNothing(v: Volume, roots: Roots, start: nat, end: nat, hi: nat)
    requires v.spb > 0 && Mapped(v, roots, end) && hi <= EndBlock(v.spb, start, end)
    ensures Missing(v, roots, Div(start / 512, v.spb), hi) == 0
    decreases hi
  {
    if Div(start / 512, v.spb) < hi {
      MappedNeedsNothing(v, roots, start, end, hi - 1);
      BlockHasByte(v.spb, start, end, hi - 1);
      var k := if hi - 1 == Div(start / 512, v.spb) then start else (hi - 1) * v.spb * 512;
      assert LeafAt(v, roots, Div(k / 512, v.spb)) != 0;
    }
  }

  lemma BlockHasByte(spb: nat, start: nat, end: nat, idx: nat)
    requires spb > 0 && Div(start / 512, spb) <= idx < EndBlock(spb, start, end)
    ensures start < end
    ensures idx > Div(start / 512, spb) ==>
              var k := idx * spb * 512;
              k >= 0 && k < end && k / 512 == idx * spb && Div(k / 512, spb) == idx
  {
    if idx > Div(start / 512, spb) {
      var q := (end - 1) / 512;
      assert q == q / spb * spb + q % spb;
      if idx < q / spb {
        BlockGap(spb, idx, q / spb);
      }
      OneMore(idx, spb);
      DivModUnique(idx, spb, 0);
    }
  }

  /** A file open for reading and writing whose blocks up to `cap` are mapped. */
  ghost predicate InPlace(fe: FileEnt, used: set<nat>, cap: nat)
    reads fe, fe.context, fe.context.device, fe.buffer
  {
    && Open(fe, used) && fe.canWrite && !fe.appendMode && fe.inode.size <= cap < WORD
    && Mapped(fe.Logical(), fe.inode.block, cap)
  }

  lemma MappedUpTo(v: Volume, roots: Roots, n: nat, cap: nat)
    requires v.spb > 0 && Mapped(v, roots, cap) && n <= cap
    ensures Mapped(v, roots, n)
  {
  }

  lemma StateFile(lay: Layout, v: Volume, roots: Roots, used: set<nat>)
    requires FileState(lay, v, roots, used)
    ensures FileOk(v, roots, used, 0)
  {
  }

  lemma PutAllowed(fe: FileEnt, used: set<nat>, data: seq<byte>, cap: nat)
    requires InPlace(fe, used, cap) && Admissible(Abstract(fe), Put(data), cap)
    ensures Slots(fe.Logical(), fe.inode.block, fe.cursor, fe.cursor + |data|)
    ensures Needed(fe.Logical(), fe.inode.block, fe.cursor, |data|) == 0
  {
    hide LeafAt, HasSlot, Div, EndBlock, Missing, Slots, FileEnt.Logical;
    MappedUpTo(fe.Logical(), fe.inode.block, fe.cursor + |data|, cap);
    StateFile(fe.context.lay, fe.Logical(), fe.inode.block, used);
    MappedSlotsAll(fe.Logical(), fe.inode.block, used, cap, fe.cursor, fe.cursor + |data|);
    MappedNeedsNothing(fe.Logical(), fe.inode.block, fe.cursor, fe.cursor + |data|,
                       EndBlock(fe.context.lay.spb, fe.cursor, fe.cursor + |data|));
  }

  /** Only the size and the pointers may differ. */
  predicate OtherFieldsKept(inode: Inode, inode': Inode) {
    inode' == inode.(block := inode'.block, size := inode'.size)
  }

  lemma PutDone(lay: Layout, f0: View, used0: set<nat>, f: View, used: set<nat>, data: seq<byte>, cap: nat)
    requires f0.v.spb > 0 && f0.cursor >= 0 && WriteState(lay, f0, used0, f0.cursor, data, |data|, f, used)
    requires Mapped(f0.v, f0.inode.block, cap) && f0.cursor + |data| <= cap && f0.inode.size <= cap
    ensures Mapped(f.v, f.inode.block, cap) && f.inode.size <= cap
    ensures BytesOf(f) == Splice(BytesOf(f0), f0.cursor, data) && Isolated(lay, f0.v, used0, f.v, used)
    ensures OtherFieldsKept(f0.inode, f.inode) && SameUnlessGrown(f0.inode, f.inode) && (data == [] ==> f.inode == f0.inode)
  {
    assert data[..|data|] == data;
  }

  method DoPut(fe: FileEnt, ghost used: set<nat>, data: seq<byte>, ghost cap: nat) returns (n: int, ghost used': set<nat>)
    requires InPlace(fe, used, cap) && Admissible(Abstract(fe), Put(data), cap)
    modifies fe`cursor, fe`fsDirty, fe`inode, fe`dirty, fe`lbaBlock, fe.buffer, fe.context, fe.context.sysbuf, fe.context.device
    ensures InPlace(fe, used', cap) && n == |data|
    ensures Abstract(fe) == Step(old(Abstract(fe)), Put(data), cap).0
    ensures Isolated(fe.context.lay, old(fe.Logical()), used, fe.Logical(), used')
    ensures fe.fsDirty == (old(fe.fsDirty) || n > 0)
    ensures OtherFieldsKept(old(fe.inode), fe.inode) && (fe.fsDirty || fe.inode == old(fe.inode))
  {
    hide Ready, Mapped, Isolated, WriteState, Slots, Needed, FileEnt.Logical, Splice, Content;
    ghost var f0 := ViewOf(fe);
    PutAllowed(fe, used, data, cap);
    n, used' := Write(fe, used, data);
    PutDone(fe.context.lay, f0, used, ViewOf(fe), used', data, cap);
  }

  // ----- runs that may grow the file

  lemma {:induction false} MissingSplit(v: Volume, roots: Roots, lo: nat, mid: nat, hi: nat)
    requires v.spb > 0 && lo <= mid <= hi
    ensures Missing(v, roots, lo, hi) == Missing(v, roots, lo, mid) + Missing(v, roots, mid, hi)
    decreases hi
  {
    if mid < hi {
      MissingSplit(v, roots, lo, mid, hi - 1);
    }
  }

  lemma {:induction false} MissingSame(v: Volume, roots: Roots, w: Volume, roots': Roots, lo: nat, hi: nat)
    requires v.spb > 0 && w.spb > 0 && forall i: nat | lo <= i :: LeafAt(w, roots', i) == LeafAt(v, roots, i)
    ensures Missing(w, roots', lo, hi) == Missing(v, roots, lo, hi)
    decreases hi
  {
    if lo < hi {
      MissingSame(v, roots, w, roots', lo, hi - 1);
    }
  }

  lemma {:induction false} MissingAtMost(v: Volume, roots: Roots, lo: nat, hi: nat)
    requires v.spb > 0 && lo <= hi
    ensures Missing(v, roots, lo, hi) <= hi - lo
    decreases hi
  {
    if lo < hi {
      MissingAtMost(v, roots, lo, hi - 1);
    }
  }

  lemma EndBlocks(spb: nat, start: nat, pos: nat, cap: nat)
    requires spb > 0 && start <= pos <= cap
    ensures Div(start / 512, spb) <= EndBlock(spb, start, pos) <= EndBlock(spb, 0, pos) <= EndBlock(spb, 0, cap)
  {
    DivMonotone(0, start / 512, spb);
    DivMonotone(start / 512, pos / 512, spb);
    if pos > start {
      DivMonotone(start / 512, (pos - 1) / 512, spb);
    } else if pos > 0 {
      assert pos / 512 <= (pos - 1) / 512 + 1;
      DivMonotone((pos - 1) / 512, pos / 512, spb);
      if (pos - 1) / 512 != pos / 512 {
        DivStep((pos - 1) / 512, pos / 512, spb);
      }
    }
    if pos > 0 {
      DivMonotone((pos - 1) / 512, (cap - 1) / 512, spb);
    }
  }

  /** No block before the end of the mapped part is missing. */
  lemma NoneMissing(v: Volume, roots: Roots, start: nat, pos: nat)
    requires v.spb > 0 && Mapped(v, roots, pos) && start <= pos
    ensures Missing(v, roots, 0, EndBlock(v.spb, start, pos)) == 0
  {
    EndBlocks(v.spb, start, pos, pos);
    DivZero(v.spb);
    MappedNeedsNothing(v, roots, 0, pos, EndBlock(v.spb, start, pos));
  }

  lemma DivZero(spb: nat)
    requires spb > 0
    ensures Div(0 / 512, spb) == 0
  {
  }

  /** Enough free blocks, with `spare` left for others, for every block that is missing below `cap`, each with a slot. */
  ghost predicate Budget(v: Volume, roots: Roots, free: nat, cap: nat, spare: nat)
    requires v.spb > 0
  {
    Slots(v, roots, 0, cap) && Missing(v, roots, 0, EndBlock(v.spb, 0, cap)) + spare <= free
  }

  /** What a write takes from the free blocks it no longer has to take later. */
  lemma BudgetKept(v0: Volume, roots0: Roots, free0: nat, start: nat, v: Volume, roots: Roots, free: nat, pos: nat, cap: nat,
                   spare: nat)
    requires Progress(v0, roots0, free0, start, v, roots, free, pos) && Budget(v0, roots0, free0, cap, spare)
    requires Mapped(v0, roots0, start) && Mapped(v, roots, pos) && pos <= cap
    ensures Budget(v, roots, free, cap, spare)
  {
    hide LeafAt, HasSlot, Div, EndBlock, Missing;
    var lo, e, h := Div(start / 512, v0.spb), EndBlock(v0.spb, start, pos), EndBlock(v0.spb, 0, cap);
    EndBlocks(v0.spb, start, pos, cap);
    NoneMissing(v0, roots0, start, start);
    BeginsAt(v0.spb, start);
    NoneMissing(v, roots, start, pos);
    MissingSplit(v0, roots0, 0, lo, h);
    MissingSplit(v0, roots0, lo, e, h);
    MissingSplit(v, roots, 0, e, h);
    MissingSame(v0, roots0, v, roots, e, h);
  }

  lemma BeginsAt(spb: nat, start: nat)
    requires spb > 0
    ensures EndBlock(spb, start, start) == Div(start / 512, spb)
  {
  }

  lemma BudgetEnough(v: Volume, roots: Roots, free: nat, start: nat, count: nat, cap: nat, spare: nat)
    requires v.spb > 0 && Budget(v, roots, free, cap, spare) && start + count <= cap
    ensures Slots(v, roots, start, start + count) && Needed(v, roots, start, count) <= free
  {
    hide LeafAt, HasSlot, Div, EndBlock, Missing;
    var lo, e, h := Div(start / 512, v.spb), EndBlock(v.spb, start, start + count), EndBlock(v.spb, 0, cap);
    EndBlocks(v.spb, start, start + count, cap);
    MissingSplit(v, roots, 0, lo, h);
    MissingSplit(v, roots, lo, e, h);
  }

  /** The state a run keeps: a file open for reading and writing that can be brought to `cap` bytes, with `spare` blocks left. */
  ghost predicate Funded(fe: FileEnt, used: set<nat>, cap: nat, spare: nat)
    reads fe, fe.context, fe.context.device, fe.buffer
  {
    && Open(fe, used) && fe.canWrite && !fe.appendMode && fe.inode.size <= cap < WORD
    && Budget(fe.Logical(), fe.inode.block, fe.context.freeBlocksCount, cap, spare)
  }

  /** A file whose blocks up to `cap` are mapped needs no free blocks. */
  lemma InPlaceFunded(fe: FileEnt, used: set<nat>, cap: nat)
    requires InPlace(fe, used, cap)
    ensures Funded(fe, used, cap, fe.context.freeBlocksCount)
  {
    hide LeafAt, HasSlot, Div, EndBlock, Missing, Slots;
    StateFile(fe.context.lay, fe.Logical(), fe.inode.block, used);
    MappedSlotsAll(fe.Logical(), fe.inode.block, used, cap, 0, cap);
    NoneMissing(fe.Logical(), fe.inode.block, 0, cap);
  }

  /** Twelve free blocks are enough for a file of up to twelve blocks. */
  lemma SmallFileFunded(fe: FileEnt, used: set<nat>, cap: nat, spare: nat)
    requires Open(fe, used) && fe.canWrite && !fe.appendMode && fe.inode.size <= cap <= 12 * 512 * fe.context.lay.spb
    requires fe.context.freeBlocksCount >= 12 + spare
    ensures Funded(fe, used, cap, spare)
  {
    hide LeafAt, Div, Missing, FileEnt.Logical, FileState;
    var v, roots := fe.Logical(), fe.inode.block;
    forall k: nat | k < cap
      ensures HasSlot(v, roots, Div(k / 512, v.spb))
    {
      TwelveBlocks(v.spb, k);
      DirectPath(Entries(v), Div(k / 512, v.spb));
    }
    if cap > 0 {
      TwelveBlocks(v.spb, cap - 1);
    }
    DivZero(v.spb);
    MissingAtMost(v, roots, 0, EndBlock(v.spb, 0, cap));
  }

  lemma TwelveBlocks(spb: nat, k: nat)
    requires spb > 0 && k < 12 * 512 * spb
    ensures Div(k / 512, spb) < 12
  {
    DivDiv(k, 512, spb);
    DivBound(k, 512 * spb, 12);
  }

  lemma FundedPut(lay: Layout, f0: View, used0: set<nat>, f: View, used: set<nat>, data: seq<byte>, cap: nat, spare: nat)
    requires f0.v.spb > 0 && f0.cursor >= 0 && WriteState(lay, f0, used0, f0.cursor, data, |data|, f, used)
    requires Budget(f0.v, f0.inode.block, f0.free, cap, spare) && f0.cursor + |data| <= cap && f0.inode.size <= cap
    requires Mapped(f0.v, f0.inode.block, f0.inode.size) && Mapped(f.v, f.inode.block, f.inode.size)
    ensures Budget(f.v, f.inode.block, f.free, cap, spare) && f.inode.size <= cap
    ensures BytesOf(f) == Splice(BytesOf(f0), f0.cursor, data) && Isolated(lay, f0.v, used0, f.v, used)
    ensures OtherFieldsKept(f0.inode, f.inode) && SameUnlessGrown(f0.inode, f.inode) && (data == [] ==> f.inode == f0.inode)
  {
    hide LeafAt, HasSlot, Div, EndBlock, Missing, Isolated, Progress, Budget, Splice;
    assert data[..|data|] == data;
    MappedUpTo(f0.v, f0.inode.block, f0.cursor, f0.inode.size);
    MappedUpTo(f.v, f.inode.block, f.cursor, f.inode.size);
    BudgetKept(f0.v, f0.inode.block, f0.free, f0.cursor, f.v, f.inode.block, f.free, f.cursor, cap, spare);
  }

  method DoWrite(fe: FileEnt, ghost used: set<nat>, data: seq<byte>, ghost cap: nat, ghost spare: nat)
    returns (n: int, ghost used': set<nat>)
    requires Funded(fe, used, cap, spare) && Admissible(Abstract(fe), Put(data), cap)
    modifies fe`cursor, fe`fsDirty, fe`inode, fe`dirty, fe`lbaBlock, fe.buffer, fe.context, fe.context.sysbuf, fe.context.device
    ensures Funded(fe, used', cap, spare) && n == |data|
    ensures Abstract(fe) == Step(old(Abstract(fe)), Put(data), cap).0
    ensures Isolated(fe.context.lay, old(fe.Logical()), used, fe.Logical(), used')
    ensures fe.fsDirty == (old(fe.fsDirty) || n > 0)
    ensures OtherFieldsKept(old(fe.inode), fe.inode) && (fe.fsDirty || fe.inode == old(fe.inode))
  {
    hide Ready, Mapped, Isolated, WriteState, Slots, Needed, FileEnt.Logical, Splice, Content, Budget;
    ghost var f0 := ViewOf(fe);
    BudgetEnough(f0.v, f0.inode.block, f0.free, fe.cursor, |data|, cap, spare);
    n, used' := Write(fe, used, data);
    FundedPut(fe.context.lay, f0, used, ViewOf(fe), used', data, cap, spare);
  }

  method DoSeek(fe: FileEnt, ghost used: set<nat>, offset: int, whence: int, ghost cap: nat, ghost spare: nat) returns (r: int)
    requires Funded(fe, used, cap, spare) && -0x8000_0000 <= offset < 0x8000_0000
    modifies fe`cursor
    ensures Funded(fe, used, cap, spare)
    ensures (Abstract(fe), Position(r)) == Step(old(Abstract(fe)), Seek(offset, whence), cap)
  {
    hide Mapped, FileEnt.Logical, Content, SeekTo, FileState, Budget;
    r := Lseek(fe, offset, whence);
  }

  /** What is written is what is read at the same position afterwards. */
  method WriteThenRead(fe: FileEnt, ghost used: set<nat>, data: seq<byte>, ghost cap: nat, ghost spare: nat)
    returns (n: int, back: seq<byte>, ghost used': set<nat>)
    requires Funded(fe, used, cap, spare) && Admissible(Abstract(fe), Put(data), cap) && fe.cursor < 0x8000_0000
    modifies fe`cursor, fe`fsDirty, fe`inode, fe`dirty, fe`lbaBlock, fe.buffer, fe.context, fe.context.sysbuf, fe.context.device
    ensures Funded(fe, used', cap, spare) && n == |data| && back == data
    ensures Abstract(fe) == Step(old(Abstract(fe)), Put(data), cap).0
  {
    hide Ready, Mapped, FileEnt.Logical, Splice, Budget, Content, ReadData, Available, Isolated;
    ghost var flat := Abstract(fe);
    ReadBack(flat, data, cap);
    var start := fe.cursor;
    n, used' := DoWrite(fe, used, data, cap, spare);
    var r := DoSeek(fe, used', start, SEEK_SET, cap, spare);
    r, back := Read(fe, used', |data|);
    AllRead(flat, data, cap);
  }

  lemma AllRead(f: Flat, data: seq<byte>, cap: nat)
    requires Admissible(f, Put(data), cap)
    ensures var g := Step(f, Put(data), cap).0; Available(g.(cursor := f.cursor), |data|) == |data|
    ensures |data| == |ReadData(Step(f, Put(data), cap).0.(cursor := f.cursor), |data|)|
  {
  }

  /** Refinement over every run: the outputs and the final content and cursor are those of the flat run; other files stay. */
  method RunOps(fe: FileEnt, ghost used: set<nat>, ops: seq<Op>, ghost cap: nat, ghost spare: nat)
    returns (outs: seq<Out>, ghost used': set<nat>)
    requires Funded(fe, used, cap, spare) && AdmissibleRun(Abstract(fe), ops, cap)
    modifies fe`cursor, fe`fsDirty, fe`inode, fe`dirty, fe`lbaBlock, fe.buffer, fe.context, fe.context.sysbuf, fe.context.device
    ensures Funded(fe, used', cap, spare)
    ensures (Abstract(fe), outs) == Run(old(Abstract(fe)), ops, cap)
    ensures Isolated(fe.context.lay, old(fe.Logical()), used, fe.Logical(), used')
    ensures fe.fsDirty == (old(fe.fsDirty) || AnyMoves(outs))
    ensures OtherFieldsKept(old(fe.inode), fe.inode) && (fe.fsDirty || fe.inode == old(fe.inode))
    decreases |ops|
  {
    hide Ready, Mapped, Isolated, FileEnt.Logical, Splice, Budget, Content, SeekTo, ReadData, Available;
    used' := used;
    IsolatedSame(fe.context.lay, fe.Logical(), used);
    if ops == [] {
      return [], used;
    }
    ghost var v := fe.Logical();
    var out;
    ghost var flat := Abstract(fe);
    match ops[0] {
      case Seek(offset, whence) =>
        var r := DoSeek(fe, used, offset, whence, cap, spare);
        out := Position(r);
      case Get(count) =>
        var n, data := Read(fe, used, count);
        out := Data(data);
      case Put(data) =>
        var n;
        n, used' := DoWrite(fe, used, data, cap, spare);
        out := Written(n);
    }
    assert (Abstract(fe), out) == Step(flat, ops[0], cap);
    ghost var w, own := fe.Logical(), used';
    var rest;
    rest, used' := RunOps(fe, used', ops[1..], cap, spare);
    IsolatedTrans(fe.context.lay, v, used, w, own, fe.Logical(), used');
    outs := [out] + rest;
  }
}
