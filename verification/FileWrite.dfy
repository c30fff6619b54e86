/** Writing to an open file, growing it where blocks are missing. */
module FileWrite {
  import opened Bytes
  import opened Volumes
  import opened PointerTree
  import opened BlockMap
  import opened FileContent
  import opened Handles
  import opened Buffer
  import opened Accounting
  import opened Allocator
  import opened Search
  import opened Growth
  import opened SelectBlock
  import opened FlatFile
  import opened FileIO

  /** The volume after `chunk` is put at the cursor, inside one sector. */
  ghost function WithChunk(v: Volume, roots: Roots, cursor: nat, chunk: seq<byte>): Volume
    requires v.spb > 0 && |chunk| <= BufferSpace(cursor) && FileSector(v, roots, cursor / 512) < |v.sectors|
  {
    var s := FileSector(v, roots, cursor / 512);
    WithSector(v, s, Patch(v.sectors[s], cursor % 512, chunk))
  }

  ghost predicate Present(v: Volume, roots: Roots, k: nat)
    requires v.spb > 0
  {
    LeafAt(v, roots, Div(k / 512, v.spb)) != 0
  }

  /** The same blocks and slots, with `chunk` at the cursor. */
  ghost predicate ChunkPut(v: Volume, roots: Roots, w: Volume, cursor: nat, chunk: seq<byte>) {
    && v.spb > 0 && SameShape(v, w)
    && (forall idx: nat :: LeafAt(w, roots, idx) == LeafAt(v, roots, idx))
    && (forall idx: nat | HasSlot(v, roots, idx) :: HasSlot(w, roots, idx))
    && (forall k: nat | Present(v, roots, k) ::
          ByteAt(w, roots, k) == if cursor <= k < cursor + |chunk| then chunk[k - cursor] else ByteAt(v, roots, k))
  }

  lemma ChunkOnlyIn(v: Volume, roots: Roots, used: set<nat>, cursor: nat, chunk: seq<byte>)
    requires FileOk(v, roots, used, 0) && Present(v, roots, cursor) && |chunk| <= BufferSpace(cursor)
    ensures FileSector(v, roots, cursor / 512) < |v.sectors|
    ensures OnlyIn(v, WithChunk(v, roots, cursor, chunk), {LeafAt(v, roots, Div(cursor / 512, v.spb))})
  {
    var q := cursor / 512;
    var b := LeafAt(v, roots, Div(q, v.spb));
    PresentBlock(v, roots, used, 0, Div(q, v.spb));
    PresentSector(v, roots, used, 0, q);
    var w := WithChunk(v, roots, cursor, chunk);
    forall c: nat | c !in {b}
      ensures SameBlock(v, w, c)
    {
      WithSectorOther(v, b, Mod(q, v.spb), w.sectors[FileSector(v, roots, q)], c);
    }
  }

  lemma WithChunkPuts(lay: Layout, v: Volume, roots: Roots, used: set<nat>, cursor: nat, chunk: seq<byte>)
    requires FileState(lay, v, roots, used) && Present(v, roots, cursor) && |chunk| <= BufferSpace(cursor)
    ensures FileSector(v, roots, cursor / 512) < |v.sectors|
    ensures var w := WithChunk(v, roots, cursor, chunk);
            ChunkPut(v, roots, w, cursor, chunk) && FileState(lay, w, roots, used)
            && OnlyIn(v, w, {LeafAt(v, roots, Div(cursor / 512, v.spb))})
  {
    hide LeafAt, HasSlot, Div, ByteAt, FileSector, OnlyIn, Isolated, VolumeOk, FreeUsable, Allocated, TreeInvariant.TreeOk, FreeBlocks,
      FreeInodes;
    ChunkOnlyIn(v, roots, used, cursor, chunk);
    var q := cursor / 512;
    var w := WithChunk(v, roots, cursor, chunk);
    PresentBlock(v, roots, used, 0, Div(q, v.spb));
    PatchTree(v, roots, used, 0, q, w.sectors[FileSector(v, roots, q)]);
    OwnWrites(lay, v, w, roots, used, {LeafAt(v, roots, Div(q, v.spb))});
    SlotsKept(v, w, roots, used, Div(q, v.spb));
    forall k: nat | Present(v, roots, k)
      ensures ByteAt(w, roots, k) == if cursor <= k < cursor + |chunk| then chunk[k - cursor] else ByteAt(v, roots, k)
    {
      PatchFile(v, roots, used, 0, q, cursor % 512, chunk, k);
      SamePosition(cursor, k, |chunk|);
    }
  }

  lemma SamePosition(cursor: nat, k: nat, n: nat)
    requires n <= BufferSpace(cursor)
    ensures cursor <= k < cursor + n <==> k / 512 == cursor / 512 && cursor % 512 <= k % 512 < cursor % 512 + n
    ensures k / 512 == cursor / 512 ==> k - cursor == k % 512 - cursor % 512
  {
  }

  /** Writing to a leaf block changes no table, so no slot appears or disappears. */
  lemma SlotsKept(v: Volume, w: Volume, roots: Roots, used: set<nat>, leaf: nat)
    requires FileOk(v, roots, used, 0) && LeafAt(v, roots, leaf) != 0 && OnlyIn(v, w, {LeafAt(v, roots, leaf)})
    ensures forall idx: nat | HasSlot(v, roots, idx) :: HasSlot(w, roots, idx)
  {
    var n := Entries(v);
    PathOfIndex(n, leaf);
    TreeInvariant.LeafNotInterior(v, roots, used, SlotOf(n, leaf), DigitsOf(n, leaf));
    TreeInvariant.TreeOkFrame(v, w, roots, used);
    forall idx: nat | HasSlot(v, roots, idx)
      ensures HasSlot(w, roots, idx)
    {
      if idx >= 12 {
        DigitsSplit(n, idx);
      }
    }
  }

  /** The bytes of the file after one chunk: `chunk` spliced in at the cursor. */
  lemma ChunkSpliced(v0: Volume, roots0: Roots, v: Volume, roots: Roots, w: Volume, cursor: nat, chunk: seq<byte>, size: nat)
    requires Preserved(v0, roots0, v, roots) && ChunkPut(v, roots, w, cursor, chunk)
    requires Mapped(v0, roots0, size) && cursor <= size && Present(v, roots, cursor) && |chunk| <= BufferSpace(cursor)
    ensures var size' := if cursor + |chunk| > size then cursor + |chunk| else size;
            Mapped(w, roots, size') && Content(w, roots, size') == Splice(Content(v0, roots0, size), cursor, chunk)
  {
    var size' := if cursor + |chunk| > size then cursor + |chunk| else size;
    forall k: nat | k < size'
      ensures Present(v, roots, k) && Present(w, roots, k)
    {
      if k < size {
        assert LeafAt(v0, roots0, Div(k / 512, v0.spb)) != 0;
      } else {
        SamePosition(cursor, k, |chunk|);
      }
    }
    assert Mapped(w, roots, size');
    assert Content(w, roots, size') == Splice(Content(v0, roots0, size), cursor, chunk);
  }

  /** After a round at block `idx`: that block is present, the other leaves are the same, and slots stay. */
  ghost predicate RoundDone(v: Volume, roots: Roots, w: Volume, roots': Roots, idx: nat) {
    && OtherLeaves(v, roots, w, roots', idx) && LeafAt(w, roots', idx) != 0
    && (LeafAt(v, roots, idx) != 0 ==> LeafAt(w, roots', idx) == LeafAt(v, roots, idx))
    && (forall i: nat | HasSlot(v, roots, i) :: HasSlot(w, roots', i))
  }

  /** Everything the two steps of a write round establish: the block is selected, then the chunk is put. */
  lemma ChunkDone(lay: Layout, v0: Volume, roots0: Roots, used0: set<nat>, v: Volume, roots: Roots, used: set<nat>,
                  cursor: nat, chunk: seq<byte>, size: nat)
    requires Preserved(v0, roots0, v, roots) && Isolated(lay, v0, used0, v, used) && FileState(lay, v, roots, used)
    requires OtherLeaves(v0, roots0, v, roots, Div(cursor / 512, v0.spb))
    requires Mapped(v0, roots0, size) && cursor <= size && Present(v, roots, cursor) && |chunk| <= BufferSpace(cursor)
    ensures FileSector(v, roots, cursor / 512) < |v.sectors|
    ensures var w := WithChunk(v, roots, cursor, chunk);
            var size' := if cursor + |chunk| > size then cursor + |chunk| else size;
            && FileState(lay, w, roots, used) && RoundDone(v0, roots0, w, roots, Div(cursor / 512, v0.spb)) && Isolated(lay, v0, used0, w, used)
            && FreeBlocks(lay, w) == FreeBlocks(lay, v) && FreeInodes(lay, w) == FreeInodes(lay, v)
            && Mapped(w, roots, size') && Content(w, roots, size') == Splice(Content(v0, roots0, size), cursor, chunk)
  {
    hide LeafAt, HasSlot, Div, Isolated, FreeBlocks, FreeInodes, TreeInvariant.TreeOk;
    WithChunkPuts(lay, v, roots, used, cursor, chunk);
    var w := WithChunk(v, roots, cursor, chunk);
    PresentBlock(v, roots, used, 0, Div(cursor / 512, v.spb));
    OwnWrites(lay, v, w, roots, used, {LeafAt(v, roots, Div(cursor / 512, v.spb))});
    IsolatedTrans(lay, v0, used0, v, used, w, used);
    ChunkSpliced(v0, roots0, v, roots, w, cursor, chunk, size);
  }

  lemma LeafNotReserved(lay: Layout, v: Volume, roots: Roots, used: set<nat>, cursor: nat)
    requires FileState(lay, v, roots, used) && Present(v, roots, cursor)
    ensures LeafAt(v, roots, Div(cursor / 512, v.spb)) !in lay.reserved
    ensures FileSector(v, roots, cursor / 512) == v.part + LeafAt(v, roots, Div(cursor / 512, v.spb)) * v.spb + Mod(cursor / 512, v.spb)
  {
    PresentBlock(v, roots, used, 0, Div(cursor / 512, v.spb));
  }

  /** Puts `chunk` in the buffer at the cursor. */
  method PutChunk(fe: FileEnt, ghost used: set<nat>, chunk: seq<byte>)
    requires Ready(fe, used) && AtCursor(fe) && |chunk| <= BufferSpace(fe.cursor)
    modifies fe`dirty, fe.buffer
    ensures fe.Valid() && DirtyOutside(fe)
    ensures FileSector(old(fe.Logical()), fe.inode.block, fe.cursor / 512) < |old(fe.Logical()).sectors|
    ensures fe.Logical() == WithChunk(old(fe.Logical()), fe.inode.block, fe.cursor, chunk)
  {
    ghost var v, roots := fe.Logical(), fe.inode.block;
    CursorOffset(fe.cursor, fe.context.lay.spb);
    LeafNotReserved(fe.context.lay, v, roots, used, fe.cursor);
    WriteBuffer(fe, chunk, fe.cursor % (512 * fe.context.lay.spb));
    DirtyDataBlock(fe, LeafAt(v, roots, Div(fe.cursor / 512, v.spb)));
  }

  /** What a write sees of an open file: the volume, the inode, the cursor and the free blocks. */
  datatype View = View(v: Volume, inode: Inode, cursor: int, free: nat)

  ghost function ViewOf(fe: FileEnt): View
    reads fe`dirty, fe`lbaBlock, fe`cursor, fe`inode, fe.context, fe.context.device, fe.buffer
  {
    View(fe.Logical(), fe.inode, fe.cursor, fe.context.freeBlocksCount)
  }

  ghost function BytesOf(f: View): seq<byte>
    requires f.v.spb > 0
  {
    Content(f.v, f.inode.block, f.inode.size)
  }

  ghost function LeafUnder(f: View): nat
    requires f.v.spb > 0 && f.cursor >= 0
  {
    LeafAt(f.v, f.inode.block, Div(f.cursor / 512, f.v.spb))
  }

  /** The block under the cursor is absent and there is none to take. */
  ghost predicate NoRoomAt(f: View) {
    f.v.spb > 0 && f.cursor >= 0 && LeafUnder(f) == 0 && f.free == 0
  }

  /** The inode of `f` with the size reached by a cursor at `pos`, over other pointers. */
  ghost predicate Resized(inode: Inode, inode': Inode, pos: int) {
    pos >= 0 && inode' == inode.(block := inode'.block, size := if pos > inode.size then pos else inode.size)
  }

  /** A block is only ever added to the inode together with bytes behind its end. */
  predicate SameUnlessGrown(inode: Inode, inode': Inode) {
    inode'.size == inode.size ==> inode' == inode
  }

  /** A round of a write of `want` that put `m` bytes. */
  ghost predicate Round(lay: Layout, f: View, used: set<nat>, f': View, used': set<nat>, want: seq<byte>, m: nat) {
    && f.v.spb > 0 && 0 <= f.cursor <= f.inode.size && m <= |want| && f'.cursor == f.cursor + m && SameShape(f.v, f'.v)
    && Isolated(lay, f.v, used, f'.v, used')
    && 0 < m <= BufferSpace(f.cursor) && Resized(f.inode, f'.inode, f'.cursor) && SameUnlessGrown(f.inode, f'.inode)
    && BytesOf(f') == Splice(BytesOf(f), f.cursor, want[..m])
    && RoundDone(f.v, f.inode.block, f'.v, f'.inode.block, Div(f.cursor / 512, f.v.spb))
    && f'.free == f.free - (if LeafUnder(f) == 0 then 1 else 0)
  }

  /** One round of the write loop: fills the buffered sector from the cursor on, as far as `want` reaches. */
  method WriteChunk(fe: FileEnt, ghost used: set<nat>, want: seq<byte>) returns (r: int, m: nat, ghost used': set<nat>)
    requires Open(fe, used) && fe.cursor <= fe.inode.size && |want| > 0 && fe.cursor + |want| < WORD
    requires HasSlot(fe.Logical(), fe.inode.block, CursorBlock(fe))
    modifies fe`cursor, fe`fsDirty, fe`inode, fe`dirty, fe`lbaBlock, fe.buffer, fe.context, fe.context.sysbuf, fe.context.device
    ensures Open(fe, used') && fe.cursor <= fe.inode.size
    ensures r == if old(LeafUnder(ViewOf(fe))) == 0 && (!fe.canWrite || old(fe.context.freeBlocksCount) == 0) then -1 else 0
    ensures m == if r == 0 then Min(|want|, BufferSpace(old(fe.cursor))) else 0
    ensures r == 0 ==> 0 < m <= |want|
    ensures r != 0 ==> ViewOf(fe) == old(ViewOf(fe)) && used' == used
    ensures r == 0 ==> Round(fe.context.lay, old(ViewOf(fe)), used, ViewOf(fe), used', want, m)
    ensures fe.fsDirty == (old(fe.fsDirty) || fe.inode.size != old(fe.inode.size))
  {
    hide FileState, Consistent, HasSlot, LeafAt, FileEnt.Logical, Div, Mapped, Preserved, Isolated, Content, RoundDone, OtherLeaves,
      DirtyOutside, AtCursor, Splice, BytesOf;
    ghost var f := ViewOf(fe);
    OpenPrevious(fe, used);
    r, used' := SelectBuffer(fe, used);
    if r != 0 {
      m := 0;
      return;
    }
    m := Min(|want|, BufferSpace(fe.cursor));
    FillBuffer(fe, used', want, m, f, used);
  }

  lemma OpenPrevious(fe: FileEnt, used: set<nat>)
    requires Open(fe, used) && fe.cursor <= fe.inode.size
    ensures CursorBlock(fe) > 0 ==> HasSlot(fe.Logical(), fe.inode.block, CursorBlock(fe) - 1)
  {
    PreviousMapped(fe.Logical(), fe.inode.block, used, fe.cursor, fe.inode.size);
  }

  lemma CursorPresent(fe: FileEnt)
    requires fe.cursor >= 0 && fe.context.lay.spb > 0 && AtCursor(fe)
    ensures Present(fe.Logical(), fe.inode.block, fe.cursor)
  {
  }

  /** The inode after a write up to `pos`. */
  function Grown(inode: Inode, pos: nat): Inode {
    inode.(size := if pos > inode.size then pos else inode.size)
  }

  lemma InsideMapped(f: View)
    requires f.v.spb > 0 && f.cursor >= 0 && Mapped(f.v, f.inode.block, f.inode.size)
    ensures f.cursor < f.inode.size ==> LeafUnder(f) != 0
  {
  }

  lemma RoundMade(lay: Layout, f: View, used0: set<nat>, g: View, used: set<nat>, want: seq<byte>, m: nat, freeInodes: nat)
    requires f.v.spb > 0 && g.cursor >= 0 && 0 < m <= BufferSpace(g.cursor) && m <= |want|
    requires f.cursor == g.cursor <= g.inode.size && g.inode == f.inode.(block := g.inode.block)
    requires LeafUnder(f) != 0 ==> g.inode == f.inode
    requires Preserved(f.v, f.inode.block, g.v, g.inode.block) && Isolated(lay, f.v, used0, g.v, used)
    requires OtherLeaves(f.v, f.inode.block, g.v, g.inode.block, Div(f.cursor / 512, f.v.spb))
    requires FileState(lay, g.v, g.inode.block, used) && Present(g.v, g.inode.block, g.cursor)
    requires Mapped(f.v, f.inode.block, f.inode.size) && g.free == f.free - (if LeafUnder(f) == 0 then 1 else 0)
    ensures FileSector(g.v, g.inode.block, g.cursor / 512) < |g.v.sectors|
    ensures var w := WithChunk(g.v, g.inode.block, g.cursor, want[..m]);
            && Round(lay, f, used0, View(w, Grown(g.inode, g.cursor + m), g.cursor + m, g.free), used, want, m)
            && FileState(lay, w, g.inode.block, used) && Mapped(w, g.inode.block, Grown(g.inode, g.cursor + m).size)
            && (Consistent(lay, g.v, g.free, freeInodes) ==> Consistent(lay, w, g.free, freeInodes))
  {
    hide LeafAt, Div, Mapped, Preserved, Isolated, Content, FileSector, FreeBlocks, FreeInodes, WithChunk, Splice, VolumeOk;
    InsideMapped(f);
    ChunkDone(lay, f.v, f.inode.block, used0, g.v, g.inode.block, used, g.cursor, want[..m], g.inode.size);
  }

  /** The rest of a round: `m` bytes go into the buffer, the cursor and the size follow. */
  method FillBuffer(fe: FileEnt, ghost used: set<nat>, want: seq<byte>, m: nat, ghost f: View, ghost used0: set<nat>)
    requires Ready(fe, used) && AtCursor(fe) && 0 < m <= BufferSpace(fe.cursor) && m <= |want| && fe.cursor + m < WORD
    requires f.cursor == fe.cursor <= fe.inode.size < WORD && fe.inode == f.inode.(block := fe.inode.block)
    requires Preserved(f.v, f.inode.block, fe.Logical(), fe.inode.block) && Isolated(fe.context.lay, f.v, used0, fe.Logical(), used)
    requires OtherLeaves(f.v, f.inode.block, fe.Logical(), fe.inode.block, CursorBlock(fe))
    requires Mapped(f.v, f.inode.block, fe.inode.size) && f.v.spb == fe.context.lay.spb
    requires fe.context.freeBlocksCount == f.free - (if LeafUnder(f) == 0 then 1 else 0)
    requires LeafUnder(f) != 0 ==> fe.inode == f.inode
    modifies fe`cursor, fe`fsDirty, fe`inode, fe`dirty, fe.buffer
    ensures fe.fsDirty == (old(fe.fsDirty) || fe.inode.size != f.inode.size)
    ensures Open(fe, used) && fe.cursor <= fe.inode.size
    ensures Round(fe.context.lay, f, used0, ViewOf(fe), used, want, m)
  {
    hide FileState, LeafAt, FileEnt.Logical, Div, Mapped, Preserved, Isolated, FileSector, OtherLeaves, Consistent, DirtyOutside,
      Present, WithChunk, AtCursor, Round, LeafUnder;
    ghost var g := ViewOf(fe);
    CursorPresent(fe);
    RoundMade(fe.context.lay, f, used0, g, used, want, m, fe.context.freeInodesCount);
    PutChunk(fe, used, want[..m]);
    fe.cursor := fe.cursor + m;
    if fe.cursor > fe.inode.size {
      fe.inode := fe.inode.(size := fe.cursor);
      fe.fsDirty := true;
    }
    assert ViewOf(fe) == View(WithChunk(g.v, g.inode.block, g.cursor, want[..m]), Grown(g.inode, g.cursor + m), g.cursor + m, g.free);
    assert Mounted(fe.context, fe.Logical());
    assert Ready(fe, used);
  }

  // ----- the whole write

  /** The number of absent blocks with index in [lo, hi). */
  ghost function Missing(v: Volume, roots: Roots, lo: nat, hi: nat): (m: nat)
    requires v.spb > 0
    ensures hi <= lo ==> m == 0
  {
    if hi <= lo then 0 else Missing(v, roots, lo, hi - 1) + (if LeafAt(v, roots, hi - 1) == 0 then 1 else 0)
  }

  lemma {:induction false} MissingMonotone(v: Volume, roots: Roots, lo: nat, mid: nat, hi: nat)
    requires v.spb > 0 && mid <= hi
    ensures Missing(v, roots, lo, mid) <= Missing(v, roots, lo, hi)
    decreases hi
  {
    if mid < hi {
      MissingMonotone(v, roots, lo, mid, hi - 1);
    }
  }

  /** One more than the index of the block of the last byte before `end`, for a range that starts at `start`. */
  function EndBlock(spb: nat, start: nat, end: nat): nat
    requires spb > 0
  {
    if end <= start then Div(start / 512, spb) else Div((end - 1) / 512, spb) + 1
  }

  /** The progress of a write that started on `(v0, roots0)` with `free0` free blocks and has reached `pos`. */
  ghost predicate Progress(v0: Volume, roots0: Roots, free0: nat, start: nat, v: Volume, roots: Roots, free: nat, pos: nat) {
    && v0.spb > 0 && SameShape(v0, v) && start <= pos
    && free + Missing(v0, roots0, Div(start / 512, v0.spb), EndBlock(v0.spb, start, pos)) == free0
    && (forall i: nat | HasSlot(v0, roots0, i) :: HasSlot(v, roots, i))
    && (forall i: nat | LeafAt(v0, roots0, i) != 0 :: LeafAt(v, roots, i) == LeafAt(v0, roots0, i))
    && (forall i: nat | EndBlock(v0.spb, start, pos) <= i :: LeafAt(v, roots, i) == LeafAt(v0, roots0, i))
    && (pos > start ==> LeafAt(v, roots, Div((pos - 1) / 512, v0.spb)) != 0)
  }

  /** The cursor is in the block of the byte before it or at the start of the next one. */
  lemma NextBlock(spb: nat, start: nat, pos: nat, m: nat)
    requires spb > 0 && start <= pos && 0 < m <= BufferSpace(pos)
    ensures var idx := Div(pos / 512, spb);
            && EndBlock(spb, start, pos + m) == idx + 1
            && (EndBlock(spb, start, pos) == idx || (pos > start && Div((pos - 1) / 512, spb) == idx))
  {
    assert (pos + m - 1) / 512 == pos / 512;
    if pos > start {
      DivStep((pos - 1) / 512, pos / 512, spb);
    }
  }

  lemma DivStep(p: nat, q: nat, d: nat)
    requires d > 0 && p <= q <= p + 1
    ensures Div(q, d) == Div(p, d) || Div(q, d) == Div(p, d) + 1
  {
    if q == p + 1 {
      assert p == p / d * d + p % d;
      if p % d == d - 1 {
        OneMore(p / d, d);
        DivModUnique(p / d + 1, d, 0);
      } else {
        DivModUnique(p / d, d, p % d + 1);
      }
    }
  }

  lemma ProgressCount(v0: Volume, roots0: Roots, start: nat, v: Volume, roots: Roots, pos: nat, m: nat)
    requires v0.spb > 0 && v.spb == v0.spb && start <= pos && 0 < m <= BufferSpace(pos)
    requires forall i: nat | EndBlock(v0.spb, start, pos) <= i :: LeafAt(v, roots, i) == LeafAt(v0, roots0, i)
    requires pos > start ==> LeafAt(v, roots, Div((pos - 1) / 512, v0.spb)) != 0
    ensures EndBlock(v0.spb, start, pos + m) == Div(pos / 512, v0.spb) + 1
    ensures Missing(v0, roots0, Div(start / 512, v0.spb), EndBlock(v0.spb, start, pos + m)) ==
            Missing(v0, roots0, Div(start / 512, v0.spb), EndBlock(v0.spb, start, pos))
            + (if LeafAt(v, roots, Div(pos / 512, v.spb)) == 0 then 1 else 0)
    ensures EndBlock(v0.spb, start, pos) <= Div(pos / 512, v0.spb) + 1
  {
    hide LeafAt, Div;
    NextBlock(v0.spb, start, pos, m);
    DivMonotone(start / 512, pos / 512, v0.spb);
    var same := pos > start && Div((pos - 1) / 512, v0.spb) == Div(pos / 512, v0.spb);
    assert same ==> EndBlock(v0.spb, start, pos) == Div(pos / 512, v0.spb) + 1;
  }

  lemma ProgressStep(v0: Volume, roots0: Roots, free0: nat, start: nat, v: Volume, roots: Roots, free: nat, pos: nat,
                     w: Volume, roots': Roots, free': nat, m: nat)
    requires Progress(v0, roots0, free0, start, v, roots, free, pos) && 0 < m <= BufferSpace(pos)
    requires RoundDone(v, roots, w, roots', Div(pos / 512, v.spb))
    requires free == free' + (if LeafAt(v, roots, Div(pos / 512, v.spb)) == 0 then 1 else 0)
    ensures Progress(v0, roots0, free0, start, w, roots', free', pos + m)
  {
    hide LeafAt, HasSlot, Div, EndBlock, Missing;
    ProgressCount(v0, roots0, start, v, roots, pos, m);
    assert (pos + m - 1) / 512 == pos / 512;
    forall i: nat | EndBlock(v0.spb, start, pos + m) <= i
      ensures LeafAt(w, roots', i) == LeafAt(v0, roots0, i)
    {
      assert LeafAt(w, roots', i) == LeafAt(v, roots, i);
    }
    forall i: nat | LeafAt(v0, roots0, i) != 0
      ensures LeafAt(w, roots', i) == LeafAt(v0, roots0, i)
    {
      assert i == Div(pos / 512, v.spb) || LeafAt(w, roots', i) == LeafAt(v, roots, i);
    }
  }

  lemma ProgressFull(v0: Volume, roots0: Roots, free0: nat, start: nat, v: Volume, roots: Roots, pos: nat, end: nat)
    requires Progress(v0, roots0, free0, start, v, roots, 0, pos) && pos < end
    requires LeafAt(v, roots, Div(pos / 512, v.spb)) == 0
    ensures free0 < Missing(v0, roots0, Div(start / 512, v0.spb), EndBlock(v0.spb, start, end))
  {
    NextBlock(v0.spb, start, pos, 1);
    var idx := Div(pos / 512, v0.spb);
    DivMonotone(pos / 512, (end - 1) / 512, v0.spb);
    MissingMonotone(v0, roots0, Div(start / 512, v0.spb), idx + 1, EndBlock(v0.spb, start, end));
    DivMonotone(start / 512, pos / 512, v0.spb);
  }

  lemma SpliceTwice<T>(c: seq<T>, at: nat, a: seq<T>, b: seq<T>)
    requires at <= |c|
    ensures Splice(Splice(c, at, a), at + |a|, b) == Splice(c, at, a + b)
  {
  }

  /** Where a write begins: at the end of the file in append mode. */
  function StartOf(fe: FileEnt): int
    reads fe`appendMode, fe`cursor, fe`inode
  {
    if fe.appendMode then fe.inode.size else fe.cursor
  }

  /** Blocks the write has to allocate. */
  ghost function Needed(v: Volume, roots: Roots, start: nat, count: nat): nat
    requires v.spb > 0
  {
    Missing(v, roots, Div(start / 512, v.spb), EndBlock(v.spb, start, start + count))
  }

  lemma RoundInSlot(v0: Volume, roots0: Roots, free0: nat, start: nat, v: Volume, roots: Roots, free: nat, pos: nat, end: nat)
    requires Progress(v0, roots0, free0, start, v, roots, free, pos) && Slots(v0, roots0, start, end) && pos < end
    ensures HasSlot(v, roots, Div(pos / 512, v.spb))
  {
  }

  lemma IsolatedTrans(lay: Layout, u: Volume, used: set<nat>, v: Volume, used': set<nat>, w: Volume, used'': set<nat>)
    requires Isolated(lay, u, used, v, used') && Isolated(lay, v, used', w, used'')
    ensures Isolated(lay, u, used, w, used'')
  {
  }

  /** The state of a write after `i` bytes: they are spliced into the file, everything foreign is as it was. */
  ghost predicate WriteState(lay: Layout, f0: View, used0: set<nat>, start: nat, data: seq<byte>, i: nat, f: View, used: set<nat>) {
    && f0.v.spb > 0 && SameShape(f0.v, f.v) && start <= f0.inode.size && i <= |data|
    && f.cursor == start + i <= f.inode.size && Resized(f0.inode, f.inode, f.cursor) && SameUnlessGrown(f0.inode, f.inode)
    && BytesOf(f) == Splice(BytesOf(f0), start, data[..i])
    && Isolated(lay, f0.v, used0, f.v, used)
    && Progress(f0.v, f0.inode.block, f0.free, start, f.v, f.inode.block, f.free, start + i)
  }

  lemma RoundState(c0: seq<byte>, start: nat, data: seq<byte>, i: nat, m: nat)
    requires start <= |c0| && i + m <= |data|
    ensures Splice(Splice(c0, start, data[..i]), start + i, data[i..][..m]) == Splice(c0, start, data[..i + m])
  {
    SpliceTwice(c0, start, data[..i], data[i..][..m]);
    assert data[..i] + data[i..][..m] == data[..i + m];
  }

  lemma WriteStateStep(lay: Layout, f0: View, used0: set<nat>, start: nat, data: seq<byte>, i: nat, f: View, used: set<nat>,
                       f': View, used': set<nat>, m: nat)
    requires WriteState(lay, f0, used0, start, data, i, f, used) && i < |data|
    requires Round(lay, f, used, f', used', data[i..], m)
    ensures i + m <= |data| && WriteState(lay, f0, used0, start, data, i + m, f', used')
  {
    RoundState(BytesOf(f0), start, data, i, m);
    IsolatedTrans(lay, f0.v, used0, f.v, used, f'.v, used');
    ProgressStep(f0.v, f0.inode.block, f0.free, start, f.v, f.inode.block, f.free, start + i, f'.v, f'.inode.block, f'.free, m);
  }

  /** A round that finds no block to take: the write needed more blocks than were free. */
  lemma WriteStateFull(lay: Layout, f0: View, used0: set<nat>, start: nat, data: seq<byte>, i: nat, f: View, used: set<nat>)
    requires WriteState(lay, f0, used0, start, data, i, f, used) && i < |data|
    requires LeafUnder(f) == 0 && f.free == 0
    ensures f0.free < Needed(f0.v, f0.inode.block, start, |data|)
  {
    ProgressFull(f0.v, f0.inode.block, f0.free, start, f.v, f.inode.block, start + i, start + |data|);
  }

  lemma WriteStateDone(lay: Layout, f0: View, used0: set<nat>, start: nat, data: seq<byte>, f: View, used: set<nat>)
    requires WriteState(lay, f0, used0, start, data, |data|, f, used)
    ensures f.free == f0.free - Needed(f0.v, f0.inode.block, start, |data|)
  {
  }

  lemma WriteStateSlot(lay: Layout, f0: View, used0: set<nat>, start: nat, data: seq<byte>, i: nat, f: View, used: set<nat>)
    requires WriteState(lay, f0, used0, start, data, i, f, used) && i < |data|
    requires Slots(f0.v, f0.inode.block, start, start + |data|)
    ensures HasSlot(f.v, f.inode.block, Div(f.cursor / 512, f.v.spb))
  {
    RoundInSlot(f0.v, f0.inode.block, f0.free, start, f.v, f.inode.block, f.free, start + i, start + |data|);
  }

  lemma WriteStateStart(lay: Layout, f: View, used: set<nat>, start: nat, data: seq<byte>)
    requires f.v.spb > 0 && start <= f.inode.size
    ensures WriteState(lay, f, used, start, data, 0, f.(cursor := start), used)
  {
    assert BytesOf(f) == Splice(BytesOf(f), start, data[..0]);
  }

  lemma NeededNone(v: Volume, roots: Roots, start: nat)
    requires v.spb > 0
    ensures Needed(v, roots, start, 0) == 0
  {
  }

  /** Seeking to the end reports -1 for one size only. */
  lemma AppendResult(size: nat)
    requires size < WORD
    ensures ToInt(size) == -1 <==> size == WORD - 1
  {
  }

  /**
    write: -1 without the write flag. Otherwise the data replaces the file's bytes from the start on, extending it;
    it all fits exactly when the blocks it needs are free, and if not, the result is -1, and what was written is a prefix
    that ends where the next block is absent and none is free.
   */
  method Write(fe: FileEnt, ghost used: set<nat>, data: seq<byte>) returns (n: int, ghost used': set<nat>)
    requires Open(fe, used)
    requires fe.canWrite ==> StartOf(fe) <= fe.inode.size && StartOf(fe) + |data| < WORD
    requires fe.canWrite ==> Slots(fe.Logical(), fe.inode.block, StartOf(fe), StartOf(fe) + |data|)
    modifies fe`cursor, fe`fsDirty, fe`inode, fe`dirty, fe`lbaBlock, fe.buffer, fe.context, fe.context.sysbuf, fe.context.device
    ensures Open(fe, used')
    ensures !fe.canWrite ==> n == -1 && ViewOf(fe) == old(ViewOf(fe)) && used' == used
    ensures fe.fsDirty == (old(fe.fsDirty) || n > 0 || fe.inode.size != old(fe.inode.size))
    ensures fe.canWrite ==> old(StartOf(fe)) <= fe.cursor <= old(StartOf(fe)) + |data|
    ensures fe.canWrite ==>
              (fe.cursor == old(StartOf(fe)) + |data| <==>
               Needed(old(fe.Logical()), old(fe.inode.block), old(StartOf(fe)), |data|) <= old(fe.context.freeBlocksCount))
    ensures fe.canWrite && fe.cursor < old(StartOf(fe)) + |data| ==> NoRoomAt(ViewOf(fe))
    ensures fe.canWrite ==>
              n == if fe.cursor < old(StartOf(fe)) + |data| || (fe.appendMode && old(StartOf(fe)) == WORD - 1) then -1 else |data|
    ensures fe.canWrite ==>
              WriteState(fe.context.lay, old(ViewOf(fe)), used, old(StartOf(fe)), data, fe.cursor - old(StartOf(fe)), ViewOf(fe), used')
  {
    hide Mapped, WriteState, Slots, Needed, FileEnt.Logical, ToInt, FileState, DirtyOutside, Consistent, NoRoomAt;
    used' := used;
    if !fe.canWrite {
      return -1, used;
    }
    ghost var f0, start, lay := ViewOf(fe), StartOf(fe), fe.context.lay;
    assert f0.v.spb == lay.spb > 0;
    WriteStateStart(lay, f0, used, start, data);
    NeededNone(f0.v, f0.inode.block, start);
    AppendResult(fe.inode.size);
    if fe.appendMode {
      var r := Lseek(fe, 0, SEEK_END);
      if r == -1 {
        assert |data| == 0 && ViewOf(fe) == f0.(cursor := start);
        return -1, used;
      }
    }
    n, used' := WriteLoop(fe, used, data, f0, start);
    if n > 0 {
      fe.fsDirty := true;
    }
  }

  lemma SpbKept(fe: FileEnt)
    requires fe.Valid()
    ensures fe.Logical().spb == fe.context.lay.spb
  {
  }

  lemma RoundGrows(lay: Layout, f: View, used: set<nat>, f': View, used': set<nat>, want: seq<byte>, m: nat)
    requires Round(lay, f, used, f', used', want, m)
    ensures f'.inode.size >= f.inode.size
  {
  }

  /** One round, on the state of the whole write. */
  method WriteRound(fe: FileEnt, ghost used: set<nat>, data: seq<byte>, i: nat, ghost f0: View, ghost used0: set<nat>, ghost start: nat)
    returns (r: int, m: nat, ghost used': set<nat>)
    requires Open(fe, used) && fe.canWrite && i < |data| && fe.cursor == start + i <= fe.inode.size && start + |data| < WORD
    requires f0.v.spb > 0 && Slots(f0.v, f0.inode.block, start, start + |data|)
    requires WriteState(fe.context.lay, f0, used0, start, data, i, ViewOf(fe), used)
    modifies fe`cursor, fe`fsDirty, fe`inode, fe`dirty, fe`lbaBlock, fe.buffer, fe.context, fe.context.sysbuf, fe.context.device
    ensures Open(fe, used') && i + m <= |data| && fe.cursor == start + i + m <= fe.inode.size
    ensures WriteState(fe.context.lay, f0, used0, start, data, i + m, ViewOf(fe), used')
    ensures if r == 0 then m > 0 else r == -1 && m == 0 && f0.free < Needed(f0.v, f0.inode.block, start, |data|) && NoRoomAt(ViewOf(fe))
    ensures fe.fsDirty == (old(fe.fsDirty) || fe.inode.size != old(fe.inode.size)) && fe.inode.size >= old(fe.inode.size)
  {
    hide FileState, Consistent, DirtyOutside, Mapped, WriteState, Slots, HasSlot, LeafAt, Div, FileEnt.Logical, Round, Needed, Min,
      BufferSpace, FileEnt.Valid, SmallBlocks;
    ghost var lay, f := fe.context.lay, ViewOf(fe);
    WriteStateSlot(lay, f0, used0, start, data, i, f, used);
    SpbKept(fe);
    r, m, used' := WriteChunk(fe, used, data[i..]);
    if r != 0 {
      WriteStateFull(lay, f0, used0, start, data, i, f, used);
    } else {
      WriteStateStep(lay, f0, used0, start, data, i, f, used, ViewOf(fe), used', m);
      RoundGrows(lay, f, used, ViewOf(fe), used', data[i..], m);
    }
  }

  method WriteLoop(fe: FileEnt, ghost used: set<nat>, data: seq<byte>, ghost f0: View, ghost start: nat)
    returns (n: int, ghost used': set<nat>)
    requires Open(fe, used) && fe.canWrite && fe.cursor == start <= fe.inode.size && start + |data| < WORD
    requires f0.v.spb > 0 && Slots(f0.v, f0.inode.block, start, start + |data|)
    requires WriteState(fe.context.lay, f0, used, start, data, 0, ViewOf(fe), used)
    modifies fe`cursor, fe`fsDirty, fe`inode, fe`dirty, fe`lbaBlock, fe.buffer, fe.context, fe.context.sysbuf, fe.context.device
    ensures Open(fe, used') && start <= fe.cursor <= start + |data|
    ensures n == if fe.cursor < start + |data| then -1 else |data|
    ensures n == |data| <==> Needed(f0.v, f0.inode.block, start, |data|) <= f0.free
    ensures n != |data| ==> NoRoomAt(ViewOf(fe))
    ensures WriteState(fe.context.lay, f0, used, start, data, fe.cursor - start, ViewOf(fe), used')
    ensures fe.fsDirty == (old(fe.fsDirty) || fe.inode.size != old(fe.inode.size))
  {
    hide Ready, Mapped, WriteState, Slots, FileEnt.Logical, Needed, ViewOf, NoRoomAt;
    used' := used;
    ghost var lay := fe.context.lay;
    var i := 0;
    while i < |data|
      invariant i <= |data| && Open(fe, used') && fe.cursor == start + i <= fe.inode.size
      invariant WriteState(lay, f0, used, start, data, i, ViewOf(fe), used')
      invariant fe.fsDirty == (old(fe.fsDirty) || fe.inode.size != old(fe.inode.size)) && fe.inode.size >= old(fe.inode.size)
    {
      var r, m;
      r, m, used' := WriteRound(fe, used', data, i, f0, used, start);
      if r != 0 {
        return -1, used';
      }
      i := i + m;
    }
    WriteStateDone(lay, f0, used, start, data, ViewOf(fe), used');
    n := i;
  }
}
