/** The 128-byte inode record: 29 little-endian words and 12 bytes of padding. */
module InodeRecord {
  import opened Bytes
  import opened Handles

  const WORDS: nat := 29
  const RECORD: nat := 128

  predicate InodeFits(i: Inode) {
    && i.mode < 0x1_0000 && i.uid < 0x1_0000 && i.gid < 0x1_0000 && i.linksCount < 0x1_0000 && |i.osd2| == 12
    && forall k | 0 <= k < WORDS :: InodeWords(i)[k] < 0x1_0000_0000
  }

  /** Two 16-bit fields make one word. */
  function InodeWords(i: Inode): (ws: seq<nat>)
    ensures |ws| == WORDS
  {
    [i.mode + 0x1_0000 * i.uid, i.size, i.atime, i.ctime, i.mtime, i.dtime, i.gid + 0x1_0000 * i.linksCount,
     i.blocks, i.flags, i.osd1] + i.block + [i.generation, i.fileAcl, i.dirAcl, i.faddr]
  }

  function FromWords(ws: seq<nat>, osd2: seq<byte>): Inode
    requires |ws| == WORDS
  {
    Inode(ws[0] % 0x1_0000, ws[0] / 0x1_0000, ws[1], ws[2], ws[3], ws[4], ws[5], ws[6] % 0x1_0000, ws[6] / 0x1_0000,
          ws[7], ws[8], ws[9], ws[10..25], ws[25], ws[26], ws[27], ws[28], osd2)
  }

  function EncodeWords(ws: seq<nat>): (s: seq<byte>)
    ensures |s| == 4 * |ws|
  {
    if ws == [] then [] else Enc32(ws[0]) + EncodeWords(ws[1..])
  }

  function DecodeWords(s: seq<byte>): (ws: seq<nat>)
    requires |s| % 4 == 0
    ensures |ws| == |s| / 4
  {
    if s == [] then [] else [LE32(s[..4])] + DecodeWords(s[4..])
  }

  lemma {:induction false} WordsRoundTrip(ws: seq<nat>)
    requires forall k | 0 <= k < |ws| :: ws[k] < 0x1_0000_0000
    ensures DecodeWords(EncodeWords(ws)) == ws
  {
    hide Enc32, LE32;
    if ws != [] {
      var s := EncodeWords(ws);
      assert s[..4] == Enc32(ws[0]) && s[4..] == EncodeWords(ws[1..]);
      Enc32RoundTrip(ws[0]);
      WordsRoundTrip(ws[1..]);
    }
  }

  function EncodeInode(i: Inode): (s: seq<byte>)
    requires |i.osd2| == 12
    ensures |s| == RECORD
  {
    EncodeWords(InodeWords(i)) + i.osd2
  }

  function DecodeInode(s: seq<byte>): Inode
    requires |s| == RECORD
  {
    FromWords(DecodeWords(s[..4 * WORDS]), s[4 * WORDS..])
  }

  lemma FieldsRoundTrip(i: Inode)
    requires InodeFits(i)
    ensures FromWords(InodeWords(i), i.osd2) == i
  {
    assert InodeWords(i)[10..25] == i.block;
  }

  /** Reading a record back gives the inode that was written. */
  lemma InodeRoundTrip(i: Inode)
    requires InodeFits(i)
    ensures DecodeInode(EncodeInode(i)) == i
  {
    hide InodeWords, FromWords;
    var s := EncodeInode(i);
    assert s[..4 * WORDS] == EncodeWords(InodeWords(i)) && s[4 * WORDS..] == i.osd2;
    WordsRoundTrip(InodeWords(i));
    FieldsRoundTrip(i);
  }

  lemma {:induction false} WordOf(s: seq<byte>, k: nat)
    requires |s| % 4 == 0 && 4 * k + 4 <= |s|
    ensures DecodeWords(s)[k] == LE32(s[4 * k..4 * k + 4])
  {
    hide LE32;
    if k > 0 {
      WordOf(s[4..], k - 1);
      assert s[4..][4 * (k - 1)..4 * (k - 1) + 4] == s[4 * k..4 * k + 4];
    }
  }

  /** The fields of a record by their offsets in its 128 bytes. */
  lemma RecordFields(s: seq<byte>)
    requires |s| == 128
    ensures var i := DecodeInode(s);
            && i.mode == LE16(s[0..2]) && i.uid == LE16(s[2..4]) && i.size == LE32(s[4..8]) && i.atime == LE32(s[8..12])
            && i.ctime == LE32(s[12..16]) && i.mtime == LE32(s[16..20]) && i.dtime == LE32(s[20..24]) && i.gid == LE16(s[24..26])
            && i.linksCount == LE16(s[26..28]) && i.blocks == LE32(s[28..32]) && i.flags == LE32(s[32..36]) && i.osd1 == LE32(s[36..40])
            && (forall k: nat | k < 15 :: i.block[k] == LE32(s[40 + 4 * k..44 + 4 * k]))
            && i.generation == LE32(s[100..104]) && i.fileAcl == LE32(s[104..108]) && i.dirAcl == LE32(s[108..112])
            && i.faddr == LE32(s[112..116]) && i.osd2 == s[116..128]
  {
    hide LE16, LE32, DecodeWords;
    forall k: nat | k < 29
      ensures DecodeWords(s[..116])[k] == LE32(s[4 * k..4 * k + 4])
    {
      WordOf(s[..116], k);
      assert s[..116][4 * k..4 * k + 4] == s[4 * k..4 * k + 4];
    }
    TwoHalves(s[0..4]);
    TwoHalves(s[24..28]);
    assert s[0..4][..2] == s[0..2] && s[0..4][2..] == s[2..4] && s[24..28][..2] == s[24..26] && s[24..28][2..] == s[26..28];
  }

  lemma TwoHalves(s: seq<byte>)
    requires |s| == 4
    ensures LE32(s) % 0x1_0000 == LE16(s[..2]) && LE32(s) / 0x1_0000 == LE16(s[2..])
  {
  }
}
