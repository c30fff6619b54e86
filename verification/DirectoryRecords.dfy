/** Directories as byte sequences: blocks tiled by linked records, and what appending an entry does to them. */
module DirectoryRecords {
  import opened Bytes
  import opened FlatFile
  import opened PointerTree

  datatype DirHeader = DirHeader(inode: nat, recLen: nat, nameLen: nat, fileType: nat)
  datatype Entry = Entry(inode: nat, name: seq<byte>)

  predicate HeaderFits(h: DirHeader) {
    h.inode < 0x1_0000_0000 && h.recLen < 0x1_0000 && h.nameLen < 0x100 && h.fileType < 0x100
  }

  function EncodeHeader(h: DirHeader): (s: seq<byte>)
    requires HeaderFits(h)
    ensures |s| == 8
  {
    Enc32(h.inode) + Enc16(h.recLen) + [h.nameLen as byte, h.fileType as byte]
  }

  function DecodeHeader(s: seq<byte>): (h: DirHeader)
    requires |s| == 8
    ensures HeaderFits(h)
  {
    DirHeader(LE32(s[..4]), LE16(s[4..6]), s[6] as nat, s[7] as nat)
  }

  lemma HeaderRoundTrip(h: DirHeader)
    requires HeaderFits(h)
    ensures DecodeHeader(EncodeHeader(h)) == h
  {
    hide LE16, LE32, Enc16, Enc32;
    Enc32RoundTrip(h.inode);
    Enc16RoundTrip(h.recLen);
    var s := EncodeHeader(h);
    assert s[..4] == Enc32(h.inode) && s[4..6] == Enc16(h.recLen);
  }

  function HeaderAt(c: seq<byte>, p: nat): (h: DirHeader)
    requires p + 8 <= |c|
    ensures HeaderFits(h)
  {
    DecodeHeader(c[p..p + 8])
  }

  /** The inode number is positive as a C `int`. */
  predicate Live(inode: nat) {
    0 < inode < 0x8000_0000
  }

  /** A live record at `p` that ends at or before `end`. */
  predicate RecordAt(c: seq<byte>, p: nat, end: nat) {
    && p + 8 <= end <= |c|
    && var h := HeaderAt(c, p);
       Live(h.inode) && 8 + h.nameLen <= h.recLen && p + h.recLen <= end
  }

  /** The records linked by `recLen` from `p` on tile the bytes up to `end`. */
  predicate Chain(c: seq<byte>, p: nat, end: nat)
    decreases end - p
  {
    p == end <= |c| || (RecordAt(c, p, end) && Chain(c, p + HeaderAt(c, p).recLen, end))
  }

  function EntryAt(c: seq<byte>, p: nat): Entry
    requires RecordAt(c, p, |c|)
  {
    var h := HeaderAt(c, p);
    Entry(h.inode, c[p + 8..p + 8 + h.nameLen])
  }

  function Listing(c: seq<byte>, p: nat, end: nat): seq<Entry>
    requires Chain(c, p, end)
    decreases end - p
  {
    if p == end then [] else [EntryAt(c, p)] + Listing(c, p + HeaderAt(c, p).recLen, end)
  }

  /** Every block of size `bs` is tiled by live records. */
  predicate DirOk(c: seq<byte>, bs: nat) {
    bs > 0 && |c| % bs == 0 && Blocks(c, 0, |c|, bs)
  }

  predicate Blocks(c: seq<byte>, p: nat, q: nat, bs: nat)
    requires bs > 0
    decreases q - p
  {
    p == q <= |c| || (p + bs <= q && Chain(c, p, p + bs) && Blocks(c, p + bs, q, bs))
  }

  lemma {:induction false} ChainOrder(c: seq<byte>, p: nat, q: nat)
    requires Chain(c, p, q)
    ensures p <= q <= |c|
    decreases q - p
  {
    if p != q {
      ChainOrder(c, p + HeaderAt(c, p).recLen, q);
    }
  }

  lemma {:induction false} ChainConcat(c: seq<byte>, p: nat, q: nat, r: nat)
    requires Chain(c, p, q) && Chain(c, q, r)
    ensures p <= q <= r && Chain(c, p, r) && Listing(c, p, r) == Listing(c, p, q) + Listing(c, q, r)
    decreases q - p
  {
    hide DecodeHeader;
    ChainOrder(c, p, q);
    ChainOrder(c, q, r);
    if p < q {
      var n := p + HeaderAt(c, p).recLen;
      ChainConcat(c, n, q, r);
      assert [EntryAt(c, p)] + (Listing(c, n, q) + Listing(c, q, r)) == [EntryAt(c, p)] + Listing(c, n, q) + Listing(c, q, r);
    }
  }

  /** Blocks that are tiled make one chain. */
  lemma {:induction false} BlocksChain(c: seq<byte>, p: nat, q: nat, bs: nat)
    requires bs > 0 && Blocks(c, p, q, bs)
    ensures Chain(c, p, q)
    decreases q - p
  {
    if p != q {
      BlocksChain(c, p + bs, q, bs);
      ChainConcat(c, p, p + bs, q);
    }
  }

  /** Another tiled block at the end. */
  lemma {:induction false} BlocksSnoc(c: seq<byte>, p: nat, q: nat, bs: nat)
    requires bs > 0 && Blocks(c, p, q, bs) && Chain(c, q, q + bs)
    ensures Blocks(c, p, q + bs, bs)
    decreases q - p
  {
    ChainOrder(c, q, q + bs);
    if p != q {
      BlocksSnoc(c, p + bs, q, bs);
    } else {
      assert Blocks(c, q + bs, q + bs, bs);
    }
  }

  lemma {:induction false} BlocksLast(c: seq<byte>, p: nat, q: nat, bs: nat)
    requires bs > 0 && Blocks(c, p, q, bs) && p != q
    ensures p + bs <= q <= |c| && Blocks(c, p, q - bs, bs) && Chain(c, q - bs, q)
    decreases q - p
  {
    ChainOrder(c, p, p + bs);
    if p + bs != q {
      BlocksLast(c, p + bs, q, bs);
    } else {
      assert Blocks(c, p, p, bs);
    }
  }

  /** A chain depends on its own bytes only. */
  lemma {:induction false} ChainFrame(c: seq<byte>, d: seq<byte>, p: nat, end: nat)
    requires Chain(c, p, end) && end <= |d| && forall k | p <= k < end :: c[k] == d[k]
    ensures Chain(d, p, end) && Listing(d, p, end) == Listing(c, p, end)
    decreases end - p
  {
    ChainOrder(c, p, end);
    if p < end {
      SameRecord(c, d, p, end);
      ChainFrame(c, d, p + HeaderAt(c, p).recLen, end);
    }
  }

  lemma SameRecord(c: seq<byte>, d: seq<byte>, p: nat, end: nat)
    requires RecordAt(c, p, end) && end <= |d| && forall k | p <= k < end :: c[k] == d[k]
    ensures RecordAt(d, p, end) && HeaderAt(d, p) == HeaderAt(c, p) && EntryAt(d, p) == EntryAt(c, p)
  {
    hide DecodeHeader;
    assert c[p..p + 8] == d[p..p + 8];
    var n := HeaderAt(c, p).nameLen;
    assert c[p + 8..p + 8 + n] == d[p + 8..p + 8 + n];
  }

  lemma {:induction false} BlocksFrame(c: seq<byte>, d: seq<byte>, p: nat, q: nat, bs: nat)
    requires bs > 0 && Blocks(c, p, q, bs) && q <= |c| && q <= |d| && forall k | p <= k < q :: c[k] == d[k]
    ensures Blocks(d, p, q, bs) && Chain(c, p, q) && Chain(d, p, q) && Listing(d, p, q) == Listing(c, p, q)
    decreases q - p
  {
    BlocksChain(c, p, q, bs);
    ChainFrame(c, d, p, q);
    if p != q {
      ChainFrame(c, d, p, p + bs);
      BlocksFrame(c, d, p + bs, q, bs);
    }
  }

  // ----- appending

  /** The length of a name rounded up to four bytes, and the header. */
  function MinimumLength(nameLen: nat): (n: nat)
    ensures 8 + nameLen <= n < 8 + nameLen + 4 && n % 4 == 0
  {
    (nameLen / 4 + (if nameLen % 4 != 0 then 1 else 0)) * 4 + 8
  }

  /** The offset of the last record of the chain from `p` on. */
  function LastRecord(c: seq<byte>, p: nat, end: nat): (l: nat)
    requires Chain(c, p, end) && p < end
    ensures p <= l && RecordAt(c, l, end) && l + HeaderAt(c, l).recLen == end
    decreases end - p
  {
    ChainOrder(c, p + HeaderAt(c, p).recLen, end);
    if p + HeaderAt(c, p).recLen == end then p else LastRecord(c, p + HeaderAt(c, p).recLen, end)
  }

  lemma {:induction false} ChainToLast(c: seq<byte>, p: nat, end: nat)
    requires Chain(c, p, end) && p < end
    ensures var l := LastRecord(c, p, end);
            Chain(c, p, l) && Listing(c, p, end) == Listing(c, p, l) + [EntryAt(c, l)]
    decreases end - p
  {
    hide DecodeHeader;
    var n := p + HeaderAt(c, p).recLen;
    ChainOrder(c, n, end);
    if n == end {
      assert Chain(c, p, p);
    } else {
      ChainToLast(c, n, end);
      var l := LastRecord(c, n, end);
      ChainOrder(c, n, l);
      assert [EntryAt(c, p)] + (Listing(c, n, l) + [EntryAt(c, l)]) == [EntryAt(c, p)] + Listing(c, n, l) + [EntryAt(c, l)];
    }
  }

  /** The header of a new entry; the length of the name is cut to a byte. */
  function NewHeader(inode: nat, recLen: nat, name: seq<byte>): DirHeader {
    DirHeader(inode, recLen, |name| % 256, 0)
  }

  /** A header and a name written at `at`. */
  function WithRecord(c: seq<byte>, at: nat, h: DirHeader, name: seq<byte>): (d: seq<byte>)
    requires HeaderFits(h) && at + 8 + |name| <= |c|
    ensures |d| == |c| && forall k | 0 <= k < |c| :: k < at || at + 8 + |name| <= k ==> d[k] == c[k]
  {
    Splice(Splice(c, at, EncodeHeader(h)), at + 8, name)
  }

  /** There is room for another record behind the last one of the block at `block`. */
  predicate Splits(c: seq<byte>, block: nat, name: seq<byte>)
    requires Chain(c, block, |c|) && block < |c|
  {
    var h := HeaderAt(c, LastRecord(c, block, |c|));
    h.recLen > MinimumLength(h.nameLen) + MinimumLength(|name|)
  }

  /** The last record shrunk to its minimum, and the new one in the room this leaves. */
  function SplitLast(c: seq<byte>, block: nat, inode: nat, name: seq<byte>): seq<byte>
    requires Chain(c, block, |c|) && block < |c| && |c| - block < 0x1_0000 && inode < 0x1_0000_0000
    requires Splits(c, block, name)
  {
    var l := LastRecord(c, block, |c|);
    var h := HeaderAt(c, l);
    var at := l + MinimumLength(h.nameLen);
    var d := Splice(c, l, EncodeHeader(h.(recLen := MinimumLength(h.nameLen))));
    WithRecord(d, at, NewHeader(inode, |c| - at, name), name)
  }

  /** The whole block at `block` overwritten with one record. */
  function OneRecord(c: seq<byte>, block: nat, inode: nat, name: seq<byte>): seq<byte>
    requires block + 8 + |name| <= |c| && |c| - block < 0x1_0000 && inode < 0x1_0000_0000
  {
    WithRecord(c, block, NewHeader(inode, |c| - block, name), name)
  }

  /** The entry a reader gets back for a name: its first `|name| % 256` bytes. */
  function Stored(inode: nat, name: seq<byte>): Entry {
    Entry(inode, name[..|name| % 256])
  }

  lemma WrittenRecord(c: seq<byte>, at: nat, inode: nat, name: seq<byte>)
    requires at + 8 + |name| <= |c| && |c| - at < 0x1_0000 && Live(inode)
    ensures var d := WithRecord(c, at, NewHeader(inode, |c| - at, name), name);
            Chain(d, at, |d|) && Listing(d, at, |d|) == [Stored(inode, name)]
  {
    hide DecodeHeader, EncodeHeader;
    var h := NewHeader(inode, |c| - at, name);
    var d := WithRecord(c, at, h, name);
    HeaderRoundTrip(h);
    assert d[at..at + 8] == EncodeHeader(h);
    assert d[at + 8..at + 8 + |name| % 256] == name[..|name| % 256];
    assert Chain(d, |d|, |d|);
  }

  /** The last record shrunk to its minimum keeps its entry. */
  lemma ShrunkRecord(c: seq<byte>, l: nat)
    requires RecordAt(c, l, |c|)
    requires var h := HeaderAt(c, l); MinimumLength(h.nameLen) <= h.recLen
    ensures var h := HeaderAt(c, l);
            var at := l + MinimumLength(h.nameLen);
            var d := Splice(c, l, EncodeHeader(h.(recLen := MinimumLength(h.nameLen))));
            at <= |c| && |d| == |c| && Chain(d, l, at) && Listing(d, l, at) == [EntryAt(c, l)]
  {
    hide DecodeHeader, EncodeHeader;
    var h := HeaderAt(c, l);
    var n := MinimumLength(h.nameLen);
    var d := Splice(c, l, EncodeHeader(h.(recLen := n)));
    HeaderRoundTrip(h.(recLen := n));
    assert d[l..l + 8] == EncodeHeader(h.(recLen := n));
    assert d[l + 8..l + 8 + h.nameLen] == c[l + 8..l + 8 + h.nameLen];
    assert Chain(d, l + n, l + n);
  }

  /** Splitting changes the block from its last record on: the entry there stays and the new one follows. */
  lemma SplitBlock(c: seq<byte>, block: nat, inode: nat, name: seq<byte>)
    requires Chain(c, block, |c|) && block < |c| && |c| - block < 0x1_0000 && Live(inode) && Splits(c, block, name)
    ensures var d := SplitLast(c, block, inode, name);
            && |d| == |c| && (forall k | 0 <= k < block :: d[k] == c[k])
            && Chain(d, block, |d|) && Listing(d, block, |d|) == Listing(c, block, |c|) + [Stored(inode, name)]
  {
    hide Splice, MinimumLength, EncodeHeader, DecodeHeader, Chain, Listing, EntryAt, NewHeader;
    var l := LastRecord(c, block, |c|);
    var h := HeaderAt(c, l);
    var n := MinimumLength(h.nameLen);
    var at := l + n;
    ChainToLast(c, block, |c|);
    ShrunkRecord(c, l);
    var e := Splice(c, l, EncodeHeader(h.(recLen := n)));
    WrittenRecord(e, at, inode, name);
    var d := SplitLast(c, block, inode, name);
    ChainFrame(c, d, block, l);
    ChainFrame(e, d, l, at);
    ChainConcat(d, block, l, at);
    ChainConcat(d, block, at, |d|);
  }

  lemma MultipleStep(x: nat, bs: nat)
    requires bs > 0 && x % bs == 0
    ensures (x + bs) % bs == 0 && (x > 0 ==> x >= bs)
  {
    assert x == x / bs * bs;
    OneMore(x / bs, bs);
    DivModUnique(x / bs + 1, bs, 0);
  }

  /** Rewriting the last block of a directory as another tiled block. */
  lemma LastBlockReplaced(c: seq<byte>, d: seq<byte>, q: nat, bs: nat)
    requires bs > 0 && q <= |c| && Blocks(c, 0, q, bs) && |d| == q + bs && |d| % bs == 0
    requires (forall k | 0 <= k < q :: d[k] == c[k]) && Chain(d, q, |d|)
    ensures DirOk(d, bs) && Chain(c, 0, q) && Chain(d, 0, |d|)
    ensures Listing(d, 0, |d|) == Listing(c, 0, q) + Listing(d, q, |d|)
  {
    hide Chain, Blocks, Listing, RecordAt;
    BlocksFrame(c, d, 0, q, bs);
    BlocksSnoc(d, 0, q, bs);
    ChainConcat(d, 0, q, |d|);
  }

  lemma SplitDirectory(c: seq<byte>, bs: nat, inode: nat, name: seq<byte>)
    requires DirOk(c, bs) && 0 < |c| && bs < 0x1_0000 && Live(inode)
    ensures bs <= |c| && Chain(c, |c| - bs, |c|) && Chain(c, 0, |c|)
    ensures Splits(c, |c| - bs, name) ==>
              var d := SplitLast(c, |c| - bs, inode, name);
              DirOk(d, bs) && Chain(d, 0, |d|) && Listing(d, 0, |d|) == Listing(c, 0, |c|) + [Stored(inode, name)]
  {
    hide Splits, SplitLast, RecordAt, Chain, Blocks, DecodeHeader;
    BlocksLast(c, 0, |c|, bs);
    var q := |c| - bs;
    BlocksChain(c, 0, q, bs);
    ChainConcat(c, 0, q, |c|);
    if Splits(c, q, name) {
      SplitBlock(c, q, inode, name);
      var d := SplitLast(c, q, inode, name);
      LastBlockReplaced(c, d, q, bs);
      assert Listing(c, 0, q) + (Listing(c, q, |c|) + [Stored(inode, name)]) ==
             Listing(c, 0, q) + Listing(c, q, |c|) + [Stored(inode, name)];
    }
  }

  /** A new block behind the others holds the new entry alone. */
  lemma NewBlockDirectory(c: seq<byte>, bs: nat, inode: nat, name: seq<byte>)
    requires DirOk(c, bs) && bs < 0x1_0000 && Live(inode) && 8 + |name| <= bs
    ensures var d := OneRecord(c + Zeros(bs), |c|, inode, name);
            && DirOk(d, bs) && Chain(c, 0, |c|) && Chain(d, 0, |d|)
            && Listing(d, 0, |d|) == Listing(c, 0, |c|) + [Stored(inode, name)]
  {
    hide NewHeader, HeaderFits;
    MultipleStep(|c|, bs);
    WrittenRecord(c + Zeros(bs), |c|, inode, name);
    LastBlockReplaced(c, OneRecord(c + Zeros(bs), |c|, inode, name), |c|, bs);
  }

  /** Overwriting the last block loses its entries. */
  lemma OverwrittenDirectory(c: seq<byte>, bs: nat, inode: nat, name: seq<byte>)
    requires DirOk(c, bs) && 0 < |c| && bs < 0x1_0000 && Live(inode) && 8 + |name| <= bs
    ensures bs <= |c| && Chain(c, 0, |c|) && Chain(c, 0, |c| - bs) && Chain(c, |c| - bs, |c|)
    ensures Listing(c, 0, |c|) == Listing(c, 0, |c| - bs) + Listing(c, |c| - bs, |c|)
    ensures var d := OneRecord(c, |c| - bs, inode, name);
            && DirOk(d, bs) && Chain(d, 0, |d|)
            && Listing(d, 0, |d|) == Listing(c, 0, |c| - bs) + [Stored(inode, name)]
  {
    hide NewHeader, HeaderFits;
    BlocksLast(c, 0, |c|, bs);
    BlocksChain(c, 0, |c| - bs, bs);
    ChainConcat(c, 0, |c| - bs, |c|);
    WrittenRecord(c, |c| - bs, inode, name);
    LastBlockReplaced(c, OneRecord(c, |c| - bs, inode, name), |c| - bs, bs);
  }

  /** The directory after an append; `room` says whether a block for a new record could be had. */
  function AppendedTo(c: seq<byte>, bs: nat, inode: nat, name: seq<byte>, room: bool): seq<byte>
    requires DirOk(c, bs) && 0 < |c| && bs < 0x1_0000 && Live(inode) && 8 + |name| <= bs
  {
    SplitDirectory(c, bs, inode, name);
    if Splits(c, |c| - bs, name) then SplitLast(c, |c| - bs, inode, name)
    else if room then OneRecord(c + Zeros(bs), |c|, inode, name)
    else OneRecord(c, |c| - bs, inode, name)
  }

  /** The record fits behind the last one of the directory, or into a block of its own. */
  predicate KeepsEntries(c: seq<byte>, bs: nat, name: seq<byte>, room: bool)
    requires DirOk(c, bs) && 0 < |c|
  {
    BlocksLast(c, 0, |c|, bs);
    Splits(c, |c| - bs, name) || room
  }

  /** The entries that an append leaves: all of them, or those before the last block. */
  function Survivors(c: seq<byte>, bs: nat, name: seq<byte>, room: bool): seq<Entry>
    requires DirOk(c, bs) && 0 < |c|
  {
    BlocksLast(c, 0, |c|, bs);
    BlocksChain(c, 0, |c| - bs, bs);
    ChainConcat(c, 0, |c| - bs, |c|);
    if KeepsEntries(c, bs, name, room) then Listing(c, 0, |c|) else Listing(c, 0, |c| - bs)
  }

  /** The blocks stay tiled, and the new entry, its name cut to the length its byte can hold, follows the ones that are left. */
  lemma AppendedListing(c: seq<byte>, bs: nat, inode: nat, name: seq<byte>, room: bool)
    requires DirOk(c, bs) && 0 < |c| && bs < 0x1_0000 && Live(inode) && 8 + |name| <= bs
    ensures var d := AppendedTo(c, bs, inode, name, room);
            DirOk(d, bs) && 0 < |d| <= |c| + bs && Chain(d, 0, |d|) && Listing(d, 0, |d|) == Survivors(c, bs, name, room) + [Stored(inode, name)]
  {
    hide Splits, SplitLast, OneRecord, DirOk, Blocks, Listing, Chain;
    SplitDirectory(c, bs, inode, name);
    NewBlockDirectory(c, bs, inode, name);
    OverwrittenDirectory(c, bs, inode, name);
    AppendedSize(c, bs, inode, name, room);
  }

  lemma AppendedSize(c: seq<byte>, bs: nat, inode: nat, name: seq<byte>, room: bool)
    requires DirOk(c, bs) && 0 < |c| && bs < 0x1_0000 && Live(inode) && 8 + |name| <= bs
    ensures |c| <= |AppendedTo(c, bs, inode, name, room)| <= |c| + bs
  {
    SplitDirectory(c, bs, inode, name);
  }

  /**
    Whatever happens the directory stays well formed. Its entries are the old ones followed by the new one if and
    only if there was room for the record and the length of the name fits into its byte.
   */
  lemma AppendTheorem(c: seq<byte>, bs: nat, inode: nat, name: seq<byte>, room: bool)
    requires DirOk(c, bs) && 0 < |c| && bs < 0x1_0000 && Live(inode) && 8 + |name| <= bs
    ensures bs <= |c| && Chain(c, |c| - bs, |c|) && Chain(c, 0, |c|)
    ensures var d := AppendedTo(c, bs, inode, name, room);
            && DirOk(d, bs) && Chain(d, 0, |d|)
            && (Listing(d, 0, |d|) == Listing(c, 0, |c|) + [Entry(inode, name)] <==>
                (Splits(c, |c| - bs, name) || room) && |name| < 256)
  {
    hide Splits, SplitLast, OneRecord, DirOk;
    SplitDirectory(c, bs, inode, name);
    NewBlockDirectory(c, bs, inode, name);
    OverwrittenDirectory(c, bs, inode, name);
    assert Stored(inode, name) == Entry(inode, name) <==> |name| < 256;
    ghost var d := AppendedTo(c, bs, inode, name, room);
    if Splits(c, |c| - bs, name) || room {
      SameLast(Listing(c, 0, |c|), Stored(inode, name), Entry(inode, name));
    } else {
      assert |Listing(c, |c| - bs, |c|)| > 0;
      assert |Listing(d, 0, |d|)| < |Listing(c, 0, |c|) + [Entry(inode, name)]|;
    }
  }

  lemma SameLast(es: seq<Entry>, a: Entry, b: Entry)
    ensures es + [a] == es + [b] <==> a == b
  {
    assert (es + [a])[|es|] == a && (es + [b])[|es|] == b;
  }
}
