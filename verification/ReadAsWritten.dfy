/** The read loop with the chunk bound of the driver, which is computed from the filesystem block. */
module ReadAsWritten {
  import opened Bytes
  import opened Handles
  import opened FileContent
  import opened Allocator
  import opened Growth
  import opened FlatFile
  import opened FileIO

  function BlockSpace(spb: nat, cursor: nat): int {
    512 * spb - 1 - cursor % 512
  }

  /** The number of bytes copied for a request of `want` bytes. */
  function ChunkAsWritten(spb: nat, cursor: nat, want: nat): int {
    if want > BlockSpace(spb, cursor) then BlockSpace(spb, cursor) else want
  }

  predicate InsideBuffer(cursor: nat, n: int) {
    cursor % 512 + n <= 512
  }

  /** The copy stays inside the 512-byte buffer exactly when the whole request does, and then it is the whole request. */
  lemma ChunkFits(spb: nat, cursor: nat, want: nat)
    requires spb >= 2
    ensures InsideBuffer(cursor, ChunkAsWritten(spb, cursor, want)) <==> want <= BufferSpace(cursor)
    ensures want <= BufferSpace(cursor) ==> ChunkAsWritten(spb, cursor, want) == want
  {
  }

  /** At the start of a file with 1 KiB blocks, 600 bytes are copied at once, past the buffer, and of 1200 bytes 1023. */
  lemma OverrunExample()
    ensures ChunkAsWritten(2, 0, 600) == 600 && !InsideBuffer(0, 600) && ChunkAsWritten(2, 0, 1200) == 1023
  {
  }

  /**
    The loop as written. It leaves the buffer exactly when the bytes it can deliver do not all lie in the sector
    under the cursor; otherwise it returns what a read of the byte sequence returns.
   */
  method Read(fe: FileEnt, ghost used: set<nat>, count: nat) returns (overrun: bool, n: int, data: seq<byte>)
    requires Open(fe, used)
    modifies fe`cursor, fe`fsDirty, fe`inode, fe`dirty, fe`lbaBlock, fe.buffer, fe.context, fe.context.sysbuf, fe.context.device
    ensures overrun <==> Available(old(Abstract(fe)), count) > BufferSpace(old(fe.cursor))
    ensures !overrun ==> Open(fe, used) && fe.inode == old(fe.inode) && fe.Logical() == old(fe.Logical())
    ensures !overrun ==> n == |data| && data == ReadData(old(Abstract(fe)), count) && fe.cursor == old(fe.cursor) + n
  {
    hide Mapped, ByteAt, FileEnt.Logical, Content, FileState, Consistent, BufferSpace, BlockSpace, ChunkAsWritten;
    ghost var v, start, flat := fe.Logical(), fe.cursor, Abstract(fe);
    var i := 0;
    overrun, data := false, [];
    while i < count
      invariant Open(fe, used) && fe.inode == old(fe.inode) && fe.Logical() == v
      invariant i == |data| <= count && fe.cursor == start + i && (i > 0 ==> fe.cursor <= fe.inode.size)
      invariant i > 0 ==> i == Available(flat, count) <= BufferSpace(start) && data == flat.content[start..start + i]
    {
      if fe.cursor >= fe.inode.size {
        break;
      }
      ChunkFits(fe.context.lay.spb, fe.cursor, Min(count - i, fe.inode.size - fe.cursor));
      var amount := ChunkAsWritten(fe.context.lay.spb, fe.cursor, Min(count - i, fe.inode.size - fe.cursor));
      if !InsideBuffer(fe.cursor, amount) {
        return true, -1, data;
      }
      var r, chunk := ReadChunk(fe, used, amount);
      if r != 0 {
        return false, -1, data;
      }
      data := data + chunk;
      i := i + |chunk|;
    }
    if i > 0 {
      fe.fsDirty := true;
    }
    n := i;
  }
}
