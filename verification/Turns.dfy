/** Several files on one volume take turns: each is opened, used and closed, in any order and any number of times. */
module Turns {
  import opened Bytes
  import opened Volumes
  import opened PointerTree
  import TreeInvariant
  import opened BlockMap
  import opened FileContent
  import opened Handles
  import opened BlockGroups
  import opened Accounting
  import opened Allocator
  import opened Search
  import opened Growth
  import opened FlatFile
  import opened FileIO
  import opened FileWrite
  import opened FileRuns
  import opened InodeRecord
  import opened InodeTable
  import opened Session
  import opened Exclusivity
  import opened Namespace

  /** A file by its inode number, with the blocks it owns and a bound for its size. */
  datatype Owned = Owned(number: nat, used: set<nat>, cap: nat)

  ghost predicate FileAt(lay: Layout, v: Volume, f: Owned) {
    && Numbered(lay, v, f.number)
    && var inode := InodeAt(lay, v, f.number);
       && InodeFits(inode) && FileState(lay, v, inode.block, f.used) && Mapped(v, inode.block, inode.size)
       && inode.size <= f.cap < WORD && Slots(v, inode.block, 0, f.cap)
  }

  ghost function BytesOfFile(lay: Layout, v: Volume, number: nat): seq<byte> {
    if Numbered(lay, v, number) then BytesAt(lay, v, number) else []
  }

  /** The blocks that the file has to get before it can have `cap` bytes. */
  ghost function MissingIn(lay: Layout, v: Volume, f: Owned): nat {
    if Numbered(lay, v, f.number) then Missing(v, InodeAt(lay, v, f.number).block, 0, EndBlock(v.spb, 0, f.cap)) else 0
  }

  ghost function Demand(lay: Layout, v: Volume, files: seq<Owned>): nat {
    if files == [] then 0 else Demand(lay, v, files[..|files| - 1]) + MissingIn(lay, v, files[|files| - 1])
  }

  /** Different files that own different blocks. */
  ghost predicate Filed(lay: Layout, v: Volume, files: seq<Owned>) {
    && (forall i | 0 <= i < |files| :: FileAt(lay, v, files[i]))
    && (forall i, j | 0 <= i < |files| && 0 <= j < |files| && i != j ::
          files[i].number != files[j].number && files[i].used !! files[j].used)
  }

  ghost function Contents(lay: Layout, v: Volume, files: seq<Owned>): (c: seq<seq<byte>>)
    ensures |c| == |files|
  {
    seq(|files|, i requires 0 <= i < |files| => BytesOfFile(lay, v, files[i].number))
  }

  /** A mounted volume with these files, and free blocks for all of them to reach their bounds. */
  ghost predicate Shared(ctx: Context, files: seq<Owned>)
    reads ctx, ctx.device
  {
    && Mounted(ctx, ctx.Vol()) && FreeUsable(ctx.lay, ctx.Vol()) && TablesOk(ctx.lay) && SmallBlocks(ctx.lay.spb)
    && Filed(ctx.lay, ctx.Vol(), files) && Demand(ctx.lay, ctx.Vol(), files) <= ctx.freeBlocksCount
  }

  // ----- what a turn of one file leaves of the others

  /** The same blocks, the same file. */
  lemma FrameFile(v: Volume, w: Volume, roots: Roots, used: set<nat>, size: nat, cap: nat)
    requires FileOk(v, roots, used, 0) && SameShape(v, w) && (forall b | b in used :: SameBlock(v, w, b))
    requires Mapped(v, roots, size) && Slots(v, roots, 0, cap)
    ensures Mapped(w, roots, size) && Content(w, roots, size) == Content(v, roots, size) && Slots(w, roots, 0, cap)
    ensures Missing(w, roots, 0, EndBlock(w.spb, 0, cap)) == Missing(v, roots, 0, EndBlock(v.spb, 0, cap))
  {
    hide LeafAt, HasSlot, ByteAt, Div, EndBlock, SameBlock, TreeInvariant.TreeOk;
    FramePreserves(v, w, roots, used);
    PreservedContent(v, roots, w, roots, size);
    MissingSame(v, roots, w, roots, 0, EndBlock(v.spb, 0, cap));
    forall k: nat | 0 <= k < cap
      ensures HasSlot(w, roots, Div(k / 512, w.spb))
    {
      assert HasSlot(v, roots, Div(k / 512, v.spb));
    }
  }

  /** The file is the same on both volumes. */
  ghost predicate FileSame(lay: Layout, v: Volume, w: Volume, f: Owned) {
    && FileAt(lay, v, f) && FileAt(lay, w, f) && BytesOfFile(lay, w, f.number) == BytesOfFile(lay, v, f.number)
    && MissingIn(lay, w, f) == MissingIn(lay, v, f)
  }

  lemma FrameFileAt(lay: Layout, v: Volume, w: Volume, f: Owned)
    requires FileAt(lay, v, f) && LayoutOk(lay, w) && SameShape(v, w) && (forall b | b in f.used :: SameBlock(v, w, b))
    requires VolumeOk(lay, w) && FreeUsable(lay, w) && (forall b | b in f.used :: Allocated(lay, w, b))
    requires InodeAt(lay, w, f.number) == InodeAt(lay, v, f.number)
    ensures FileSame(lay, v, w, f)
  {
    hide InodeAt, InodeFits, TablesOk, LayoutOk, VolumeOk, FreeUsable, Mapped, Slots, Content, EndBlock, Missing, SameBlock, Allocated,
      TreeInvariant.TreeOk, Preserved, LeafAt;
    var inode := InodeAt(lay, v, f.number);
    FrameFile(v, w, inode.block, f.used, inode.size, f.cap);
    FramePreserves(v, w, inode.block, f.used);
  }

  /** Another file acts: this one is the same and still owns blocks of its own. */
  lemma ApartFile(lay: Layout, v: Volume, own: set<nat>, x: Volume, own': set<nat>, f: Owned)
    requires FileAt(lay, v, f) && f.used !! own && Apart(lay, v, own, x, own') && VolumeOk(lay, x) && FreeUsable(lay, x)
    ensures FileSame(lay, v, x, f) && f.used !! own'
  {
    hide InodeAt, InodeFits, TablesOk, LayoutOk, VolumeOk, FreeUsable, Mapped, Slots, SameBlock, Allocated, TreeInvariant.TreeOk, InVolume,
      Protected, FileSame;
    ApartInodes(lay, v, own, x, own', f.number);
    forall b | b in f.used
      ensures Foreign(lay, v, own, b) && SameBlock(v, x, b) && Foreign(lay, x, own', b)
    {
      assert Foreign(lay, v, own, b);
    }
    FrameFileAt(lay, v, x, f);
  }

  /** The record of another inode is written. */
  lemma RecordFile(lay: Layout, x: Volume, number: nat, inode: Inode, f: Owned, freeBlocks: nat, freeInodes: nat)
    requires FileAt(lay, x, f) && Consistent(lay, x, freeBlocks, freeInodes) && number != f.number
    requires InodeExists(lay, number) && InodeFits(inode) && |inode.osd2| == 12
    ensures FileSame(lay, x, WithInode(lay, x, number, inode), f)
  {
    hide InodeAt, InodeFits, TablesOk, LayoutOk, FileState, Consistent, Mapped, Slots, SameBlock, WithInode, FileSame, InodeBlock, Preserved,
      ForeignKept;
    var w := WithInode(lay, x, number, inode);
    FlushKeepsFile(lay, x, InodeAt(lay, x, f.number).block, f.used, number, inode, freeBlocks, freeInodes);
    FlushedRecord(lay, x, number, inode, f.number);
    FlushOnlyIn(lay, x, number, inode);
    RecordBlock(lay, number);
    StateVolume(lay, w, InodeAt(lay, x, f.number).block, f.used);
    OwnBlocks(lay, x, InodeAt(lay, x, f.number).block, f.used);
    OwnBlocks(lay, w, InodeAt(lay, x, f.number).block, f.used);
    FrameFileAt(lay, x, w, f);
  }

  lemma OwnBlocks(lay: Layout, v: Volume, roots: Roots, used: set<nat>)
    requires FileState(lay, v, roots, used)
    ensures forall b | b in used :: Allocated(lay, v, b) && b !in lay.reserved
  {
  }

  // ----- one turn

  /** After close the device is what the file saw, or that with its record written. */
  ghost predicate Landed(lay: Layout, x: Volume, w: Volume, number: nat, inode: Inode) {
    && TablesOk(lay) && LayoutOk(lay, x) && LayoutOk(lay, w) && InodeExists(lay, number) && InodeFits(inode) && |inode.osd2| == 12
    && (w == x || w == WithInode(lay, x, number, inode)) && InodeAt(lay, w, number) == inode
  }

  /** The file that had its turn. */
  lemma ActorDone(lay: Layout, x: Volume, w: Volume, inode: Inode, f: Owned, freeBlocks: nat, freeInodes: nat)
    requires Landed(lay, x, w, f.number, inode) && Consistent(lay, x, freeBlocks, freeInodes)
    requires FileState(lay, x, inode.block, f.used) && Mapped(x, inode.block, inode.size)
    requires inode.size <= f.cap < WORD && Slots(x, inode.block, 0, f.cap)
    ensures FileAt(lay, w, f) && BytesOfFile(lay, w, f.number) == Content(x, inode.block, inode.size)
    ensures MissingIn(lay, w, f) == Missing(x, inode.block, 0, EndBlock(x.spb, 0, f.cap))
    ensures Consistent(lay, w, freeBlocks, freeInodes) && FreeUsable(lay, w)
  {
    hide InodeAt, InodeFits, TablesOk, LayoutOk, FileState, Consistent, Mapped, Slots, SameBlock, WithInode, InodeBlock, Preserved,
      ForeignKept, Content, Missing, EndBlock, FreeUsable, VolumeOk;
    LayoutSpb(lay, x);
    StateVolume(lay, x, inode.block, f.used);
    if w != x {
      FlushKeepsFile(lay, x, inode.block, f.used, f.number, inode, freeBlocks, freeInodes);
      FlushOnlyIn(lay, x, f.number, inode);
      RecordBlock(lay, f.number);
      OwnBlocks(lay, x, inode.block, f.used);
      StateFile(lay, x, inode.block, f.used);
      FrameFile(x, w, inode.block, f.used, inode.size, f.cap);
      StateVolume(lay, w, inode.block, f.used);
    }
  }

  lemma LayoutSpb(lay: Layout, x: Volume)
    requires LayoutOk(lay, x)
    ensures x.spb > 0
  {
  }

  /** A file that had no turn. */
  lemma OtherDone(lay: Layout, v: Volume, own: set<nat>, x: Volume, own': set<nat>, w: Volume, number: nat, inode: Inode, f: Owned,
                  freeBlocks: nat, freeInodes: nat)
    requires FileAt(lay, v, f) && f.used !! own && Apart(lay, v, own, x, own') && number != f.number
    requires VolumeOk(lay, x) && FreeUsable(lay, x) && Consistent(lay, x, freeBlocks, freeInodes) && Landed(lay, x, w, number, inode)
    ensures FileSame(lay, v, w, f) && f.used !! own'
  {
    hide InodeAt, InodeFits, TablesOk, LayoutOk, FileAt, Consistent, WithInode, VolumeOk, FreeUsable, Apart, MissingIn, BytesOfFile;
    ApartFile(lay, v, own, x, own', f);
    if w != x {
      RecordFile(lay, x, number, inode, f, freeBlocks, freeInodes);
    }
  }

  lemma {:induction false} DemandSame(lay: Layout, v: Volume, w: Volume, files: seq<Owned>, files': seq<Owned>)
    requires |files| == |files'| && forall i | 0 <= i < |files| :: MissingIn(lay, w, files'[i]) == MissingIn(lay, v, files[i])
    ensures Demand(lay, w, files') == Demand(lay, v, files)
    decreases |files|
  {
    hide MissingIn;
    if files != [] {
      DemandSame(lay, v, w, files[..|files| - 1], files'[..|files'| - 1]);
    }
  }

  /** The demand apart from that of one file stays. */
  lemma {:induction false} DemandRest(lay: Layout, v: Volume, w: Volume, files: seq<Owned>, files': seq<Owned>, k: nat)
    requires |files| == |files'| && k < |files|
    requires forall i | 0 <= i < |files| && i != k :: MissingIn(lay, w, files'[i]) == MissingIn(lay, v, files[i])
    ensures Demand(lay, w, files') - MissingIn(lay, w, files'[k]) == Demand(lay, v, files) - MissingIn(lay, v, files[k])
    ensures Demand(lay, v, files) >= MissingIn(lay, v, files[k])
    decreases |files|
  {
    hide MissingIn;
    var n := |files| - 1;
    if k == n {
      DemandSame(lay, v, w, files[..n], files'[..n]);
    } else {
      DemandRest(lay, v, w, files[..n], files'[..n], k);
    }
  }

  lemma TurnDone(lay: Layout, v: Volume, x: Volume, own': set<nat>, w: Volume, inode: Inode, files: seq<Owned>, k: nat,
                 freeBlocks: nat, freeInodes: nat)
    requires Filed(lay, v, files) && k < |files| && Isolated(lay, v, files[k].used, x, own')
    requires Landed(lay, x, w, files[k].number, inode) && Consistent(lay, x, freeBlocks, freeInodes)
    requires FileState(lay, x, inode.block, own') && Mapped(x, inode.block, inode.size)
    requires inode.size <= files[k].cap && x.spb > 0
    requires MissingIn(lay, v, files[k]) <= Demand(lay, v, files)
    requires Budget(x, inode.block, freeBlocks, files[k].cap, Demand(lay, v, files) - MissingIn(lay, v, files[k]))
    ensures var files' := files[k := files[k].(used := own')];
            && Filed(lay, w, files') && Consistent(lay, w, freeBlocks, freeInodes) && FreeUsable(lay, w)
            && Demand(lay, w, files') <= freeBlocks
            && Contents(lay, w, files') == Contents(lay, v, files)[k := Content(x, inode.block, inode.size)]
  {
    hide InodeAt, InodeFits, TablesOk, LayoutOk, FileState, Consistent, Mapped, Slots, WithInode, Content, Missing, EndBlock, FreeUsable,
      VolumeOk, Isolated, Apart, MissingIn, BytesOfFile, FileAt, Landed, Demand;
    var f := files[k].(used := own');
    var files' := files[k := f];
    IsolatedApart(lay, v, files[k].used, x, own');
    StateVolume(lay, x, inode.block, own');
    CapBound(lay, v, files[k]);
    ActorDone(lay, x, w, inode, f, freeBlocks, freeInodes);
    forall i | 0 <= i < |files| && i != k
      ensures FileAt(lay, w, files'[i]) && files'[i].used !! own' && MissingIn(lay, w, files'[i]) == MissingIn(lay, v, files[i])
      ensures BytesOfFile(lay, w, files'[i].number) == BytesOfFile(lay, v, files[i].number)
    {
      OtherDone(lay, v, files[k].used, x, own', w, files[k].number, inode, files[i], freeBlocks, freeInodes);
    }
    DemandRest(lay, v, w, files, files', k);
  }

  lemma CapBound(lay: Layout, v: Volume, f: Owned)
    requires FileAt(lay, v, f)
    ensures f.cap < WORD
  {
  }

  ghost predicate HasTurn(lay: Layout, v: Volume, files: seq<Owned>, k: nat, ops: seq<Op>) {
    k < |files| && AdmissibleRun(Flat(Contents(lay, v, files)[k], 0), ops, files[k].cap)
  }

  /** The file of the list can be opened, with blocks left for the others. */
  lemma SharedFile(ctx: Context, files: seq<Owned>, k: nat)
    requires Shared(ctx, files) && k < |files|
    ensures Numbered(ctx.lay, ctx.Vol(), files[k].number) && files[k].cap < WORD
    ensures var inode := InodeAt(ctx.lay, ctx.Vol(), files[k].number);
            && InodeFits(inode) && inode.size <= files[k].cap
            && OnDevice(ctx, files[k].number, inode, files[k].used, Contents(ctx.lay, ctx.Vol(), files)[k])
            && MissingIn(ctx.lay, ctx.Vol(), files[k]) <= Demand(ctx.lay, ctx.Vol(), files)
            && Budget(ctx.Vol(), inode.block, ctx.freeBlocksCount, files[k].cap,
                      Demand(ctx.lay, ctx.Vol(), files) - MissingIn(ctx.lay, ctx.Vol(), files[k]))
  {
    hide InodeAt, InodeFits, TablesOk, LayoutOk, FileState, Consistent, Mapped, Slots, Content, Missing, EndBlock, FreeUsable, FileAt, Demand;
    FileParts(ctx.lay, ctx.Vol(), files[k]);
    DemandRest(ctx.lay, ctx.Vol(), ctx.Vol(), files, files, k);
  }

  lemma FileParts(lay: Layout, v: Volume, f: Owned)
    requires FileAt(lay, v, f)
    ensures Numbered(lay, v, f.number) && f.cap < WORD
    ensures var inode := InodeAt(lay, v, f.number);
            && InodeFits(inode) && FileState(lay, v, inode.block, f.used) && Mapped(v, inode.block, inode.size)
            && inode.size <= f.cap && Slots(v, inode.block, 0, f.cap)
            && MissingIn(lay, v, f) == Missing(v, inode.block, 0, EndBlock(v.spb, 0, f.cap))
            && BytesOfFile(lay, v, f.number) == Content(v, inode.block, inode.size)
  {
    hide InodeAt, InodeFits, TablesOk, LayoutOk, FileState, Mapped, Slots, Content, Missing, EndBlock;
  }

  lemma DeviceRecord(ctx: Context, number: nat, inode: Inode, used: set<nat>, content: seq<byte>)
    requires OnDevice(ctx, number, inode, used, content) && LayoutOk(ctx.lay, ctx.Vol())
    ensures TablesOk(ctx.lay) && InodeExists(ctx.lay, number) && InodeAt(ctx.lay, ctx.Vol(), number) == inode
  {
  }

  /** One turn: the file is opened for reading and writing, the operations run, and it is closed. */
  method TakeTurn(ctx: Context, ghost files: seq<Owned>, ghost k: nat, number: nat, ops: seq<Op>)
    returns (outs: seq<Out>, ghost used: set<nat>)
    requires Shared(ctx, files) && HasTurn(ctx.lay, ctx.Vol(), files, k, ops) && number == files[k].number
    modifies ctx, ctx.sysbuf, ctx.device
    ensures Shared(ctx, files[k := files[k].(used := used)])
    ensures var ran := Run(Flat(old(Contents(ctx.lay, ctx.Vol(), files))[k], 0), ops, files[k].cap);
            && outs == ran.1
            && Contents(ctx.lay, ctx.Vol(), files[k := files[k].(used := used)]) ==
                 old(Contents(ctx.lay, ctx.Vol(), files))[k := ran.0.content]
  {
    hide OnDevice, InodeAt, InodeFits, TablesOk, LayoutOk, FileState, Consistent, Mapped, Budget, Content, FreeUsable, Isolated, Run, Demand,
      Contents, Filed, MissingIn, FileEnt.Logical, AdmissibleRun, OtherFieldsKept, ForeignKept, WithInode;
    ghost var v, lay := ctx.Vol(), ctx.lay;
    ghost var cap, spare := files[k].cap, Demand(lay, v, files) - MissingIn(lay, v, files[k]);
    SharedFile(ctx, files, k);
    ghost var inode, content := InodeAt(lay, v, number), Contents(lay, v, files)[k];
    var fe, r := Reopen(ctx, number, inode, files[k].used, content);
    ReadyParts(fe, files[k].used);
    fe.canWrite := true;
    outs, used := RunOps(fe, files[k].used, ops, cap, spare);
    ClosableKept(fe, used, v, files[k].used, inode);
    PadFits(fe.inode);
    ghost var x, content' := fe.Logical(), Abstract(fe).content;
    ClosingFacts(fe, used);
    r := Close(fe, used);
    DeviceRecord(ctx, number, fe.inode, used, content');
    TurnDone(lay, v, x, used, ctx.Vol(), fe.inode, files, k, ctx.freeBlocksCount, ctx.freeInodesCount);
  }

  // ----- any number of turns

  datatype Turn = Turn(file: nat, ops: seq<Op>)

  predicate Admitted(contents: seq<seq<byte>>, caps: seq<nat>, turns: seq<Turn>)
    requires |caps| == |contents|
    decreases |turns|
  {
    turns == [] ||
    (var t := turns[0];
     && t.file < |contents| && AdmissibleRun(Flat(contents[t.file], 0), t.ops, caps[t.file])
     && Admitted(contents[t.file := Run(Flat(contents[t.file], 0), t.ops, caps[t.file]).0.content], caps, turns[1..]))
  }

  /** The reference for all files together. */
  function Together(contents: seq<seq<byte>>, caps: seq<nat>, turns: seq<Turn>): (r: (seq<seq<byte>>, seq<seq<Out>>))
    requires |caps| == |contents| && Admitted(contents, caps, turns)
    ensures |r.0| == |contents| && |r.1| == |turns|
    decreases |turns|
  {
    if turns == [] then (contents, [])
    else
      var t := turns[0];
      var (f, outs) := Run(Flat(contents[t.file], 0), t.ops, caps[t.file]);
      var (last, rest) := Together(contents[t.file := f.content], caps, turns[1..]);
      (last, [outs] + rest)
  }

  ghost function Caps(files: seq<Owned>): (c: seq<nat>)
    ensures |c| == |files|
  {
    seq(|files|, i requires 0 <= i < |files| => files[i].cap)
  }

  /** The same files, which may own other blocks. */
  ghost predicate SameFiles(files: seq<Owned>, files': seq<Owned>) {
    |files| == |files'| && forall i | 0 <= i < |files| :: files'[i].number == files[i].number && files'[i].cap == files[i].cap
  }

  /** Any turns of any files: contents and outputs are those of the reference. */
  method TakeTurns(ctx: Context, ghost files: seq<Owned>, numbers: seq<nat>, turns: seq<Turn>)
    returns (outs: seq<seq<Out>>, ghost files': seq<Owned>)
    requires Shared(ctx, files) && |numbers| == |files| && forall i | 0 <= i < |files| :: numbers[i] == files[i].number
    requires Admitted(Contents(ctx.lay, ctx.Vol(), files), Caps(files), turns)
    modifies ctx, ctx.sysbuf, ctx.device
    ensures Shared(ctx, files') && SameFiles(files, files')
    ensures (Contents(ctx.lay, ctx.Vol(), files'), outs) == Together(old(Contents(ctx.lay, ctx.Vol(), files)), Caps(files), turns)
    decreases |turns|
  {
    hide Shared, Contents, Run;
    files', outs := files, [];
    if turns != [] {
      var k := turns[0].file;
      ghost var used;
      var first;
      first, used := TakeTurn(ctx, files, k, numbers[k], turns[0].ops);
      files' := files[k := files[k].(used := used)];
      assert Caps(files') == Caps(files);
      outs, files' := TakeTurns(ctx, files', numbers, turns[1..]);
      outs := [first] + outs;
    }
  }

  // ----- every file is as if it were alone

  /** What file `i` does in its turns. */
  function OpsOf(turns: seq<Turn>, i: nat): seq<seq<Op>> {
    if turns == [] then [] else (if turns[0].file == i then [turns[0].ops] else []) + OpsOf(turns[1..], i)
  }

  /** The outputs of the turns of file `i`. */
  function OutsOf(turns: seq<Turn>, outs: seq<seq<Out>>, i: nat): seq<seq<Out>>
    requires |outs| == |turns|
  {
    if turns == [] then [] else (if turns[0].file == i then [outs[0]] else []) + OutsOf(turns[1..], outs[1..], i)
  }

  predicate AdmittedAlone(content: seq<byte>, cap: nat, runs: seq<seq<Op>>)
    decreases |runs|
  {
    runs == [] ||
    (AdmissibleRun(Flat(content, 0), runs[0], cap) && AdmittedAlone(Run(Flat(content, 0), runs[0], cap).0.content, cap, runs[1..]))
  }

  /** One file that is opened, used and closed, again and again. */
  function Alone(content: seq<byte>, cap: nat, runs: seq<seq<Op>>): (seq<byte>, seq<seq<Out>>)
    requires AdmittedAlone(content, cap, runs)
    decreases |runs|
  {
    if runs == [] then (content, [])
    else
      var (f, outs) := Run(Flat(content, 0), runs[0], cap);
      var (last, rest) := Alone(f.content, cap, runs[1..]);
      (last, [outs] + rest)
  }

  /** Turns are admitted if and only if every file admits its own. */
  lemma {:induction false} AdmittedIff(contents: seq<seq<byte>>, caps: seq<nat>, turns: seq<Turn>)
    requires |caps| == |contents|
    ensures Admitted(contents, caps, turns) <==>
            (forall k | 0 <= k < |turns| :: turns[k].file < |contents|)
            && (forall i | 0 <= i < |contents| :: AdmittedAlone(contents[i], caps[i], OpsOf(turns, i)))
    decreases |turns|
  {
    hide AdmissibleRun, Run;
    if turns != [] && turns[0].file < |contents| {
      var t := turns[0];
      forall i | 0 <= i < |contents| && i != t.file
        ensures OpsOf(turns, i) == OpsOf(turns[1..], i)
      {
      }
      assert OpsOf(turns, t.file) == [t.ops] + OpsOf(turns[1..], t.file);
      assert OpsOf(turns, t.file)[1..] == OpsOf(turns[1..], t.file);
      if AdmissibleRun(Flat(contents[t.file], 0), t.ops, caps[t.file]) {
        AdmittedIff(contents[t.file := Run(Flat(contents[t.file], 0), t.ops, caps[t.file]).0.content], caps, turns[1..]);
      }
    }
  }

  /** In every order of the turns, a file has the bytes and gives the outputs that it would have and give alone. */
  lemma {:induction false} AsIfAlone(contents: seq<seq<byte>>, caps: seq<nat>, turns: seq<Turn>, i: nat)
    requires |caps| == |contents| && Admitted(contents, caps, turns) && i < |contents|
    ensures AdmittedAlone(contents[i], caps[i], OpsOf(turns, i))
    ensures var (last, outs) := Together(contents, caps, turns);
            (last[i], OutsOf(turns, outs, i)) == Alone(contents[i], caps[i], OpsOf(turns, i))
    decreases |turns|
  {
    hide AdmissibleRun, Run;
    if turns != [] {
      var t := turns[0];
      var next := contents[t.file := Run(Flat(contents[t.file], 0), t.ops, caps[t.file]).0.content];
      var (last, outs) := Together(contents, caps, turns);
      AsIfAlone(next, caps, turns[1..], i);
      assert outs[1..] == Together(next, caps, turns[1..]).1;
      if t.file == i {
        assert OpsOf(turns, i) == [t.ops] + OpsOf(turns[1..], i);
        assert OpsOf(turns, i)[1..] == OpsOf(turns[1..], i);
      } else {
        assert OpsOf(turns, i) == OpsOf(turns[1..], i) && OutsOf(turns, outs, i) == OutsOf(turns[1..], outs[1..], i);
      }
    }
  }
}
