/** Where the records of a directory begin before and after an append, and what their headers are. */
module DirectoryOffsets {
  import opened Bytes
  import opened FlatFile
  import opened DirectoryRecords

  /** The offsets of the records that are linked from `p` on. */
  function Starts(c: seq<byte>, p: nat, end: nat): (s: seq<nat>)
    requires Chain(c, p, end)
    ensures s == [] <==> p == end
    decreases end - p
  {
    if p == end then [] else [p] + Starts(c, p + HeaderAt(c, p).recLen, end)
  }

  lemma StartsStep(c: seq<byte>, p: nat, end: nat)
    requires Chain(c, p, end) && p != end
    ensures p + 8 <= |c|
    ensures var n := p + HeaderAt(c, p).recLen; p < n && Chain(c, n, end) && Starts(c, p, end) == [p] + Starts(c, n, end)
  {
    hide DecodeHeader;
  }

  lemma {:induction false} StartsConcat(c: seq<byte>, p: nat, q: nat, r: nat)
    requires Chain(c, p, q) && Chain(c, q, r)
    ensures p <= q <= r && Chain(c, p, r) && Starts(c, p, r) == Starts(c, p, q) + Starts(c, q, r)
    decreases q - p
  {
    hide HeaderAt, Chain, Starts;
    ChainConcat(c, p, q, r);
    if p < q {
      StartsStep(c, p, q);
      StartsStep(c, p, r);
      var n := p + HeaderAt(c, p).recLen;
      StartsConcat(c, n, q, r);
      assert [p] + (Starts(c, n, q) + Starts(c, q, r)) == [p] + Starts(c, n, q) + Starts(c, q, r);
    }
  }

  lemma {:induction false} StartsFrame(c: seq<byte>, d: seq<byte>, p: nat, end: nat)
    requires Chain(c, p, end) && end <= |d| && forall k | p <= k < end :: c[k] == d[k]
    ensures Chain(d, p, end) && Starts(d, p, end) == Starts(c, p, end)
    decreases end - p
  {
    hide HeaderAt;
    ChainFrame(c, d, p, end);
    if p < end {
      ChainOrder(c, p, end);
      SameRecord(c, d, p, end);
      StartsFrame(c, d, p + HeaderAt(c, p).recLen, end);
    }
  }

  /** The last of the offsets is that of the last record. */
  lemma {:induction false} StartsLast(c: seq<byte>, p: nat, end: nat)
    requires Chain(c, p, end) && p < end
    ensures var l := LastRecord(c, p, end);
            Chain(c, p, l) && Starts(c, p, end) == Starts(c, p, l) + [l]
    decreases end - p
  {
    hide DecodeHeader;
    var n := p + HeaderAt(c, p).recLen;
    ChainOrder(c, n, end);
    ChainToLast(c, p, end);
    if n == end {
      assert Starts(c, end, end) == [] && Starts(c, p, p) == [];
    } else {
      StartsLast(c, n, end);
      ChainToLast(c, n, end);
      var l := LastRecord(c, n, end);
      ChainOrder(c, n, l);
      assert [p] + (Starts(c, n, l) + [l]) == [p] + Starts(c, n, l) + [l];
    }
  }

  /** The header of a new record at `at` that reaches to the end. */
  predicate IsNew(d: seq<byte>, at: nat, inode: nat, name: seq<byte>) {
    && at + 8 + |name| <= |d|
    && HeaderAt(d, at) == DirHeader(inode, |d| - at, |name| % 256, 0)
    && d[at + 8..at + 8 + |name|] == name
  }

  lemma NewAt(c: seq<byte>, at: nat, inode: nat, name: seq<byte>)
    requires at + 8 + |name| <= |c| && |c| - at < 0x1_0000 && Live(inode)
    ensures var d := WithRecord(c, at, NewHeader(inode, |c| - at, name), name);
            |d| == |c| && IsNew(d, at, inode, name) && Chain(d, at, |d|) && Starts(d, at, |d|) == [at]
  {
    hide DecodeHeader, EncodeHeader;
    var h := NewHeader(inode, |c| - at, name);
    var d := WithRecord(c, at, h, name);
    HeaderRoundTrip(h);
    assert d[at..at + 8] == EncodeHeader(h);
    WrittenRecord(c, at, inode, name);
    assert Starts(d, |d|, |d|) == [];
  }

  /** The least multiple of four bytes that holds a header and a name of `n` bytes. */
  predicate Rounded(m: nat, n: nat) {
    m % 4 == 0 && 8 + n <= m < 12 + n
  }

  lemma RoundedIs(m: nat, n: nat)
    requires Rounded(m, n)
    ensures m == MinimumLength(n)
  {
    hide MinimumLength;
    var k := MinimumLength(n);
    assert m / 4 == k / 4;
  }

  lemma ShrunkHeader(c: seq<byte>, l: nat, m: nat)
    requires l + 8 <= |c| && m < 0x1_0000
    ensures var h := HeaderAt(c, l).(recLen := m);
            var e := Splice(c, l, EncodeHeader(h));
            |e| == |c| && HeaderAt(e, l) == h && forall k | 0 <= k < |c| && !(l <= k < l + 8) :: e[k] == c[k]
  {
    hide DecodeHeader, EncodeHeader;
    var h := HeaderAt(c, l).(recLen := m);
    HeaderRoundTrip(h);
    assert Splice(c, l, EncodeHeader(h))[l..l + 8] == EncodeHeader(h);
  }

  lemma TwoStarts(d: seq<byte>, l: nat, at: nat)
    requires l < at && RecordAt(d, l, |d|) && l + HeaderAt(d, l).recLen == at && Chain(d, at, |d|) && Starts(d, at, |d|) == [at]
    ensures Chain(d, l, |d|) && Starts(d, l, |d|) == [l, at]
  {
    hide HeaderAt;
  }

  lemma SameHeader(c: seq<byte>, d: seq<byte>, l: nat)
    requires l + 8 <= |c| && l + 8 <= |d| && forall k | l <= k < l + 8 :: c[k] == d[k]
    ensures HeaderAt(d, l) == HeaderAt(c, l)
  {
    assert c[l..l + 8] == d[l..l + 8];
  }

  /** The last record of a block shrunk to its minimum, and the new one behind it. */
  lemma SplitStarts(c: seq<byte>, block: nat, inode: nat, name: seq<byte>, m: nat)
    requires Chain(c, block, |c|) && block < |c| && |c| - block < 0x1_0000 && Live(inode) && Splits(c, block, name)
    requires m == MinimumLength(HeaderAt(c, LastRecord(c, block, |c|)).nameLen)
    ensures var l, d := LastRecord(c, block, |c|), SplitLast(c, block, inode, name);
            && |d| == |c| && (forall k | 0 <= k < l :: d[k] == c[k])
            && Chain(d, block, |d|) && Starts(d, block, |d|) == Starts(c, block, |c|) + [l + m]
            && HeaderAt(d, l) == HeaderAt(c, l).(recLen := m) && IsNew(d, l + m, inode, name)
  {
    hide HeaderAt, EncodeHeader, MinimumLength, NewHeader, IsNew, Starts, Chain, Splice;
    var l := LastRecord(c, block, |c|);
    var h := HeaderAt(c, l);
    var e := Splice(c, l, EncodeHeader(h.(recLen := m)));
    var d := SplitLast(c, block, inode, name);
    StartsLast(c, block, |c|);
    ShrunkHeader(c, l, m);
    NewAt(e, l + m, inode, name);
    StartsFrame(c, d, block, l);
    SameHeader(e, d, l);
    TwoStarts(d, l, l + m);
    StartsConcat(d, block, l, |d|);
    assert Starts(c, block, l) + [l, l + m] == Starts(c, block, l) + [l] + [l + m];
  }

  // ----- the whole directory

  /** The offset of the last record. */
  ghost function LastStart(c: seq<byte>): (l: nat)
    requires Chain(c, 0, |c|) && 0 < |c|
    ensures l + 8 <= |c|
  {
    StartsLast(c, 0, |c|);
    Starts(c, 0, |c|)[|Starts(c, 0, |c|)| - 1]
  }

  lemma LastOfBlock(c: seq<byte>, q: nat)
    requires Chain(c, 0, q) && Chain(c, q, |c|) && q < |c|
    ensures Chain(c, 0, |c|) && LastStart(c) == LastRecord(c, q, |c|) && q <= LastStart(c) && q in Starts(c, 0, |c|)
  {
    hide HeaderAt, RecordAt, Chain;
    StartsConcat(c, 0, q, |c|);
    StartsLast(c, q, |c|);
    FirstStart(c, q, |c|);
  }

  lemma FirstStart(c: seq<byte>, p: nat, end: nat)
    requires Chain(c, p, end) && p < end
    ensures Starts(c, p, end)[0] == p
  {
  }

  lemma BlocksBefore(c: seq<byte>, bs: nat)
    requires DirOk(c, bs) && 0 < |c|
    ensures bs <= |c| && Chain(c, 0, |c| - bs) && Chain(c, |c| - bs, |c|) && Chain(c, 0, |c|)
  {
    hide Chain;
    BlocksLast(c, 0, |c|, bs);
    BlocksChain(c, 0, |c| - bs, bs);
    BlocksChain(c, 0, |c|, bs);
  }

  /** One record at the end of `d`, behind bytes that are those of `c`. */
  lemma OneStart(c: seq<byte>, d: seq<byte>, q: nat, inode: nat, name: seq<byte>)
    requires Chain(c, 0, q) && q <= |c| && |d| >= q && q + 8 + |name| <= |d| && |d| - q < 0x1_0000 && Live(inode)
    requires forall k | 0 <= k < q :: d[k] == c[k]
    ensures var e := WithRecord(d, q, NewHeader(inode, |d| - q, name), name);
            && |e| == |d| && e[..q] == c[..q] && IsNew(e, q, inode, name)
            && Chain(e, 0, |e|) && Starts(e, 0, |e|) == Starts(c, 0, q) + [q]
  {
    hide Chain, NewHeader, HeaderFits, Starts, IsNew;
    NewHeaderFits(inode, |d| - q, name);
    var e := WithRecord(d, q, NewHeader(inode, |d| - q, name), name);
    NewAt(d, q, inode, name);
    StartsFrame(c, e, 0, q);
    StartsConcat(e, 0, q, |e|);
  }

  lemma NewHeaderFits(inode: nat, recLen: nat, name: seq<byte>)
    requires Live(inode) && recLen < 0x1_0000
    ensures HeaderFits(NewHeader(inode, recLen, name))
  {
  }

  /**
    The records after an append, by their offsets. With `m` and `n` the rounded lengths of the last record and of the new
    one: if more than both is there, the last record shrinks to `m` and the new one follows it; else it begins a new
    block, or, when none is to be had, the last one. It reaches to the end, and everything before is as it was.
   */
  lemma AppendedRecords(c: seq<byte>, bs: nat, inode: nat, name: seq<byte>, room: bool, m: nat, n: nat)
    requires DirOk(c, bs) && 0 < |c| && bs < 0x1_0000 && Live(inode) && 8 + |name| <= bs && Chain(c, 0, |c|)
    requires Rounded(m, HeaderAt(c, LastStart(c)).nameLen) && Rounded(n, |name|)
    ensures var d, l := AppendedTo(c, bs, inode, name, room), LastStart(c);
            && Chain(d, 0, |d|) && bs <= |c| && Chain(c, 0, |c| - bs)
            && if HeaderAt(c, l).recLen - m > n then
                 && |d| == |c| && d[..l] == c[..l] && Starts(d, 0, |d|) == Starts(c, 0, |c|) + [l + m]
                 && HeaderAt(d, l) == HeaderAt(c, l).(recLen := m) && IsNew(d, l + m, inode, name)
               else
                 && var at := if room then |c| else |c| - bs;
                 && |d| == at + bs && d[..at] == c[..at] && Starts(d, 0, |d|) == Starts(c, 0, at) + [at]
                 && IsNew(d, at, inode, name)
  {
    hide HeaderAt, RecordAt, Chain, DirOk, MinimumLength, NewHeader, Starts, IsNew;
    var q, l := |c| - bs, LastStart(c);
    BlocksBefore(c, bs);
    LastOfBlock(c, q);
    RoundedIs(m, HeaderAt(c, l).nameLen);
    RoundedIs(n, |name|);
    if HeaderAt(c, l).recLen - m > n {
      SplitStarts(c, q, inode, name, m);
      var d := SplitLast(c, q, inode, name);
      StartsFrame(c, d, 0, q);
      StartsConcat(d, 0, q, |d|);
      StartsConcat(c, 0, q, |c|);
      assert Starts(c, 0, q) + (Starts(c, q, |c|) + [l + m]) == Starts(c, 0, q) + Starts(c, q, |c|) + [l + m];
    } else if room {
      OneStart(c, c + Zeros(bs), |c|, inode, name);
    } else {
      OneStart(c, c, q, inode, name);
    }
  }

  /** Every record begins at a multiple of four. */
  ghost predicate Aligned(c: seq<byte>) {
    Chain(c, 0, |c|) && forall s | s in Starts(c, 0, |c|) :: s % 4 == 0
  }

  /** Records at multiples of four stay there, and the new one begins at one. */
  lemma AppendedAligned(c: seq<byte>, bs: nat, inode: nat, name: seq<byte>, room: bool)
    requires DirOk(c, bs) && 0 < |c| && bs < 0x1_0000 && bs % 4 == 0 && Live(inode) && 8 + |name| <= bs
    requires Aligned(c)
    ensures Aligned(AppendedTo(c, bs, inode, name, room))
  {
    hide HeaderAt, RecordAt, Chain, DirOk, MinimumLength, Starts, IsNew, AppendedTo, Rounded, LastStart;
    BlocksBefore(c, bs);
    AlignedParts(c, |c| - bs);
    var l := LastStart(c);
    var k := HeaderAt(c, l).nameLen;
    var m, n := MinimumLength(k), MinimumLength(|name|);
    MinimumRounded(k);
    MinimumRounded(|name|);
    AppendedRecords(c, bs, inode, name, room, m, n);
    if HeaderAt(c, l).recLen - m > n {
      FourMore(Starts(c, 0, |c|), l + m);
    } else if room {
      FourMore(Starts(c, 0, |c|), |c|);
    } else {
      FourMore(Starts(c, 0, |c| - bs), |c| - bs);
    }
  }

  /** The last record, the last block and the records before it. */
  lemma AlignedParts(c: seq<byte>, q: nat)
    requires Aligned(c) && Chain(c, 0, q) && Chain(c, q, |c|) && q < |c|
    ensures LastStart(c) % 4 == 0 && q % 4 == 0 && forall s | s in Starts(c, 0, q) :: s % 4 == 0
  {
    hide HeaderAt, RecordAt, Chain, Starts;
    LastOfBlock(c, q);
    StartsConcat(c, 0, q, |c|);
    assert LastStart(c) in Starts(c, 0, |c|);
    FourLess(Starts(c, 0, q), Starts(c, q, |c|));
  }

  lemma FourLess(starts: seq<nat>, others: seq<nat>)
    requires forall s | s in starts + others :: s % 4 == 0
    ensures forall s | s in starts :: s % 4 == 0
  {
    forall s | s in starts
      ensures s in starts + others
    {
    }
  }

  lemma FourMore(starts: seq<nat>, at: nat)
    requires (forall s | s in starts :: s % 4 == 0) && at % 4 == 0
    ensures forall s | s in starts + [at] :: s % 4 == 0
  {
  }

  lemma MinimumRounded(n: nat)
    ensures Rounded(MinimumLength(n), n) && MinimumLength(n) % 4 == 0
  {
  }

  /** A header in its eight bytes. */
  lemma HeaderBytes(c: seq<byte>, p: nat)
    requires p + 8 <= |c|
    ensures var h := HeaderAt(c, p);
            && h.inode == c[p] as nat + 256 * (c[p + 1] as nat) + 65536 * (c[p + 2] as nat) + 16777216 * (c[p + 3] as nat)
            && h.recLen == c[p + 4] as nat + 256 * (c[p + 5] as nat)
            && h.nameLen == c[p + 6] as nat && h.fileType == c[p + 7] as nat
  {
    var s := c[p..p + 8];
    assert s[0] == c[p] && s[1] == c[p + 1] && s[2] == c[p + 2] && s[3] == c[p + 3] && s[4] == c[p + 4] && s[5] == c[p + 5];
  }
}
