/** The reference: a file is a byte sequence and a cursor. */
module FlatFile {
  import opened Bytes

  const SEEK_SET := 0
  const SEEK_CUR := 1
  const SEEK_END := 2
  const INT64_MAX := 0x7FFF_FFFF_FFFF_FFFF

  datatype Flat = Flat(content: seq<byte>, cursor: nat)

  function Available(f: Flat, count: nat): nat {
    if f.cursor >= |f.content| then 0
    else if count < |f.content| - f.cursor then count else |f.content| - f.cursor
  }

  function ReadData(f: Flat, count: nat): (data: seq<byte>)
    ensures |data| == Available(f, count)
  {
    if f.cursor >= |f.content| then [] else f.content[f.cursor..f.cursor + Available(f, count)]
  }

  /** `data` written over `c` from position `at`, possibly extending it. */
  function Splice<T>(c: seq<T>, at: nat, data: seq<T>): (r: seq<T>)
    requires at <= |c|
    ensures |r| == if at + |data| > |c| then at + |data| else |c|
    ensures forall k :: 0 <= k < |r| ==> r[k] == if at <= k < at + |data| then data[k - at] else c[k]
  {
    c[..at] + data + (if at + |data| <= |c| then c[at + |data|..] else [])
  }

  /** The new position, if it is representable and not negative. */
  datatype Target = Reachable(pos: nat) | Invalid | Overflow

  function SeekTo(size: nat, cursor: nat, offset: int, whence: int): (p: Target)
    ensures p.Reachable? ==> p.pos <= INT64_MAX
  {
    if whence != SEEK_SET && whence != SEEK_CUR && whence != SEEK_END then Invalid
    else
      var base := if whence == SEEK_SET then 0 else if whence == SEEK_CUR then cursor else size;
      if base + offset < 0 then Invalid else if base + offset > INT64_MAX then Overflow else Reachable(base + offset)
  }

  // ----- runs

  datatype Op = Seek(offset: int, whence: int) | Get(count: nat) | Put(data: seq<byte>)
  datatype Out = Position(r: int) | Data(data: seq<byte>) | Written(n: int)

  /** Whether bytes were transferred. */
  predicate Moves(out: Out) {
    (out.Data? && out.data != []) || (out.Written? && out.n > 0)
  }

  predicate AnyMoves(outs: seq<Out>) {
    outs != [] && (Moves(outs[0]) || AnyMoves(outs[1..]))
  }

  /** The 32-bit result of a 64-bit position. */
  function ToInt(x: nat): (r: int)
    ensures -0x8000_0000 <= r < 0x8000_0000 && (x - r) % 0x1_0000_0000 == 0
  {
    (x + 0x8000_0000) % 0x1_0000_0000 - 0x8000_0000
  }

  predicate Admissible(f: Flat, op: Op, cap: nat) {
    match op
    case Seek(offset, _) => -0x8000_0000 <= offset < 0x8000_0000
    case Get(_) => true
    case Put(data) => f.cursor <= |f.content| && f.cursor + |data| <= cap
  }

  function Step(f: Flat, op: Op, cap: nat): (Flat, Out)
    requires Admissible(f, op, cap)
  {
    match op
    case Seek(offset, whence) =>
      var p := SeekTo(|f.content|, f.cursor, offset, whence);
      if p.Reachable? then (f.(cursor := p.pos), Position(ToInt(p.pos))) else (f, Position(-1))
    case Get(count) => (f.(cursor := f.cursor + Available(f, count)), Data(ReadData(f, count)))
    case Put(data) => (Flat(Splice(f.content, f.cursor, data), f.cursor + |data|), Written(|data|))
  }

  predicate AdmissibleRun(f: Flat, ops: seq<Op>, cap: nat)
    decreases |ops|
  {
    ops == [] || (Admissible(f, ops[0], cap) && AdmissibleRun(Step(f, ops[0], cap).0, ops[1..], cap))
  }

  function Run(f: Flat, ops: seq<Op>, cap: nat): (Flat, seq<Out>)
    requires AdmissibleRun(f, ops, cap)
    decreases |ops|
  {
    if ops == [] then (f, [])
    else
      var (g, out) := Step(f, ops[0], cap);
      var (h, outs) := Run(g, ops[1..], cap);
      (h, [out] + outs)
  }

  /** What a write puts in the file is what a later read at the same position returns. */
  lemma ReadBack(f: Flat, data: seq<byte>, cap: nat)
    requires Admissible(f, Put(data), cap)
    ensures var g := Step(f, Put(data), cap).0;
            ReadData(g.(cursor := f.cursor), |data|) == data
  {
  }
}
