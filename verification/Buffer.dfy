/** The one-sector write-back buffer of an open file. */
module Buffer {
  import opened Bytes
  import opened Volumes
  import opened Handles

  method StoreBuffer(fe: FileEnt) returns (r: int)
    requires fe.Valid() && fe.context.lay.part + fe.lbaBlock < |fe.context.device.sectors|
    modifies fe`dirty, fe.context.device
    ensures r == 0 && !fe.dirty && fe.Valid()
    ensures fe.context.Vol() == WithSector(old(fe.context.Vol()), fe.context.lay.part + fe.lbaBlock, fe.buffer[..])
    ensures old(fe.dirty) ==> fe.Logical() == old(fe.Logical())
  {
    var err := fe.context.device.Write(fe.lbaBlock + fe.context.lay.part, fe.buffer);
    if err != 0 {
      return -1;
    }
    fe.dirty := false;
    r := 0;
  }

  /** Loads the sector with byte `offset` of block `b`, after storing the sector that was modified. */
  method LoadBuffer(fe: FileEnt, b: nat, offset: nat) returns (r: int)
    requires fe.Valid() && InVolume(fe.Logical(), b) && offset < 512 * fe.context.lay.spb
    modifies fe`dirty, fe`lbaBlock, fe.buffer, fe.context.device
    ensures r == 0 && !fe.dirty && fe.Valid()
    ensures fe.Logical() == old(fe.Logical()) && fe.context.Vol() == fe.Logical()
    ensures fe.lbaBlock == b * fe.context.lay.spb + offset / 512
    ensures SectorOf(fe.Logical(), b, offset) < |fe.Logical().sectors|
    ensures fe.buffer[..] == fe.Logical().sectors[SectorOf(fe.Logical(), b, offset)]
  {
    if fe.dirty {
      r := StoreBuffer(fe);
      if r != 0 {
        return -1;
      }
    }
    fe.lbaBlock := b * fe.context.lay.spb;
    fe.lbaBlock := fe.lbaBlock + offset / 512;
    var err := fe.context.device.Read(fe.lbaBlock + fe.context.lay.part, fe.buffer);
    r := 0;
  }

  method ReadBuffer(fe: FileEnt, offset: nat, count: nat) returns (dest: seq<byte>)
    requires fe.buffer.Length == 512 && offset % 512 + count <= 512
    ensures dest == fe.buffer[..][offset % 512..offset % 512 + count]
  {
    dest := fe.buffer[offset % 512..offset % 512 + count];
  }

  /** Only the addressed bytes of the logical volume change, and only in the buffer. */
  method WriteBuffer(fe: FileEnt, source: seq<byte>, offset: nat)
    requires fe.Valid() && offset % 512 + |source| <= 512
    requires fe.context.lay.part + fe.lbaBlock < |fe.context.device.sectors|
    requires fe.dirty || fe.buffer[..] == fe.context.device.sectors[fe.context.lay.part + fe.lbaBlock]
    modifies fe`dirty, fe.buffer
    ensures fe.Valid() && fe.dirty
    ensures fe.buffer[..] == Patch(old(fe.buffer[..]), offset % 512, source)
    ensures var s := fe.context.lay.part + fe.lbaBlock;
            fe.Logical() == WithSector(old(fe.Logical()), s, Patch(old(fe.Logical()).sectors[s], offset % 512, source))
  {
    var at := offset % 512;
    forall i | 0 <= i < |source| {
      fe.buffer[at + i] := source[i];
    }
    fe.dirty := true;
    assert fe.buffer[..] == Patch(old(fe.buffer[..]), at, source);
  }
}
