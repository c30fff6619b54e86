/** The bits of a bitmap byte: as quotients of its value, and as the masks that the driver writes. */
module BitMasks {
  import opened Bytes
  import opened Powers
  import opened PointerTree

  /** Bit `j` is the digit of 2 to the `j` in the binary notation of the number. */
  lemma {:induction false} BitIsDigit(b: nat, j: nat)
    ensures Power(2, j) > 0
    ensures Bit(b, j) <==> b / Power(2, j) % 2 == 1
    decreases j
  {
    if j > 0 {
      BitIsDigit(b / 2, j - 1);
      DivDiv(b, 2, Power(2, j - 1));
    }
  }

  lemma Halves(x: bv8)
    ensures x as nat == (x >> 1) as nat * 2 + (x & 1) as nat
    ensures (x & 1) as nat == x as nat % 2 && (x >> 1) as nat == x as nat / 2
    ensures x & 1 != 0 <==> (x & 1) as nat == 1
  {
  }

  lemma ShiftedTest(x: bv8, j: nat)
    requires 0 < j < 8
    ensures x & ((1 as bv8) << j) != 0 <==> (x >> 1) & ((1 as bv8) << (j - 1)) != 0
  {
  }

  /** The test `x & (1 << j)`. */
  lemma {:induction false} MaskTest(x: bv8, j: nat)
    requires j < 8
    ensures Bit(x as nat, j) <==> x & ((1 as bv8) << j) != 0
    decreases j
  {
    Halves(x);
    if j > 0 {
      ShiftedTest(x, j);
      MaskTest(x >> 1, j - 1);
    }
  }

  function Masked(x: bv8, j: nat, on: bool): bv8
    requires j < 8
  {
    if on then x | ((1 as bv8) << j) else x & !((1 as bv8) << j)
  }

  lemma ShiftedMask(x: bv8, j: nat, on: bool)
    requires j < 8
    ensures j > 0 ==> Masked(x, j, on) >> 1 == Masked(x >> 1, j - 1, on) && Masked(x, j, on) & 1 == x & 1
    ensures j == 0 ==> Masked(x, j, on) >> 1 == x >> 1 && Masked(x, j, on) & 1 == if on then 1 else 0
  {
  }

  lemma MaskedValue(x: bv8, j: nat, on: bool)
    requires j < 8
    ensures Masked(x, j, on) as nat ==
            if j == 0 then x as nat / 2 * 2 + (if on then 1 else 0) else Masked(x >> 1, j - 1, on) as nat * 2 + x as nat % 2
  {
    hide Masked;
    Halves(x);
    Halves(Masked(x, j, on));
    ShiftedMask(x, j, on);
  }

  lemma {:induction false} VectorSet(x: bv8, j: nat, on: bool)
    requires j < 8
    ensures WithBit(x as nat, j, on) == Masked(x, j, on) as nat
    decreases j
  {
    hide Masked;
    MaskedValue(x, j, on);
    if j > 0 {
      Halves(x);
      VectorSet(x >> 1, j - 1, on);
    }
  }

  /** The updates `b | (1 << j)` and `b & ~(1 << j)`. */
  lemma MaskSet(b: bv8, j: nat, on: bool)
    requires j < 8
    ensures SetBit((b as nat) as byte, j, on) as nat == (if on then b | ((1 as bv8) << j) else b & !((1 as bv8) << j)) as nat
  {
    hide WithBit;
    VectorSet(b, j, on);
  }
}
