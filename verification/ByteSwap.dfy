/** TDS_BYTE_SWAP16 and TDS_BYTE_SWAP32 with their shifts and masks
    (freetds-1.00.21/include/freetds/tds.h, lines 379-387). */
module ByteSwap {
  import opened Bits
  import opened ByteOrder

  /** The cast to `unsigned short` keeps two bytes. */
  function Macro16(value: nat): nat {
    var v := value % 0x1_0000;
    Or(And(Shl(v, 8), 0xFF00), And(Shr(v, 8), 0x00FF))
  }

  /** Whether `unsigned long` has 32 bits or more: the masks cut what a shift leaves above them. */
  function Macro32(v: nat): nat {
    Or(Or(Or(And(Shl(v, 24), 0xFF00_0000),
             And(Shl(v, 8), 0x00FF_0000)),
          And(Shr(v, 8), 0x0000_FF00)),
       And(Shr(v, 24), 0x0000_00FF))
  }

  /** One masked byte: byte `j` of the value, moved to byte `i`. */
  lemma MaskedUp(v: nat, up: nat, at: nat)
    requires up <= at
    ensures And(Shl(v, up), Shl(0xFF, at)) == Shl(Shr(v, at - up) % 256, at)
  {
    AndShifted(Shl(v, up), 0xFF, at);
    ShrShr(Shl(v, up), up, at - up);
    ShrShl(v, up);
    AndByte(Shr(v, at - up));
  }

  lemma MaskedDown(v: nat, down: nat, at: nat)
    ensures And(Shr(v, down), Shl(0xFF, at)) == Shl(Shr(v, down + at) % 256, at)
  {
    AndShifted(Shr(v, down), 0xFF, at);
    ShrShr(v, down, at);
    AndByte(Shr(v, down + at));
  }

  lemma Masks()
    ensures Shl(0xFF, 0) == 0xFF && Shl(0xFF, 8) == 0xFF00
    ensures Shl(0xFF, 16) == 0xFF_0000 && Shl(0xFF, 24) == 0xFF00_0000
  {
  }

  /** Whole bytes shifted. */
  lemma ByBytes(v: nat)
    ensures Shr(v, 0) == v && Shr(v, 8) == v / 0x100
    ensures Shr(v, 16) == v / 0x100 / 0x100 && Shr(v, 24) == v / 0x100 / 0x100 / 0x100
  {
    ShrEight(v);
    ShrEight(v / 0x100);
    ShrEight(v / 0x100 / 0x100);
    ShrShr(v, 8, 8);
    ShrShr(v, 16, 8);
  }

  /** Four bytes that do not overlap. */
  lemma OrBytes(b3: Byte, b2: Byte, b1: Byte, b0: Byte)
    ensures Or(Or(Or(Shl(b3, 24), Shl(b2, 16)), Shl(b1, 8)), b0) == Word(b0, b1, b2, b3)
    ensures Or(Shl(b1, 8), b0) == Word(b0, b1, 0, 0)
  {
    hide Or, Shl, Pow2, Word;
    Joined(b3, b2, 16);
    Joined(0x100 * b3 + b2, b1, 8);
    Joined(0x100 * (0x100 * b3 + b2) + b1, b0, 0);
    Joined(b1, b0, 0);
    NoShift(b0);
    NoShift(0x100 * (0x100 * (0x100 * b3 + b2) + b1) + b0);
    NoShift(0x100 * b1 + b0);
    WordIs(b0, b1, b2, b3);
    WordIs(b0, b1, 0, 0);
  }

  lemma WordIs(b0: Byte, b1: Byte, b2: Byte, b3: Byte)
    ensures Word(b0, b1, b2, b3) == 0x100 * (0x100 * (0x100 * b3 + b2) + b1) + b0
  {
  }

  /** One more byte behind those there are. */
  lemma Joined(high: nat, low: Byte, at: nat)
    ensures Or(Shl(high, at + 8), Shl(low, at)) == Shl(0x100 * high + low, at)
  {
    Powers();
    OrApart(high, low, 8);
    ShlIsTimes(high, 8);
    OrShifted(Shl(high, 8), low, at);
    ShlShl(high, 8, at);
  }

  /** The four bytes a macro shifts about. */
  lemma ShiftedBytes(v: nat)
    ensures Shifted(v, 0) == Shr(v, 0) % 256 && Shifted(v, 1) == Shr(v, 8) % 256
    ensures Shifted(v, 2) == Shr(v, 16) % 256 && Shifted(v, 3) == Shr(v, 24) % 256
  {
    ByBytes(v);
    assert Shifted(v, 1) == Shifted(v / 0x100, 0);
    assert Shifted(v, 2) == Shifted(v / 0x100, 1) == Shifted(v / 0x100 / 0x100, 0);
    assert Shifted(v, 3) == Shifted(v / 0x100, 2) == Shifted(v / 0x100 / 0x100, 1)
        == Shifted(v / 0x100 / 0x100 / 0x100, 0);
  }

  lemma NoShift(n: nat)
    ensures Shl(n, 0) == n && Shr(n, 0) == n
  {
  }

  lemma Swap32(v: nat)
    ensures Macro32(v) == Swap(Four, v)
  {
    hide Or, And, Shl, Shr, Shifted, Swap, Word;
    Masks();
    MaskedUp(v, 24, 24);
    MaskedUp(v, 8, 16);
    MaskedDown(v, 8, 8);
    MaskedDown(v, 24, 0);
    NoShift(Shr(v, 24) % 256);
    ShiftedBytes(v);
    OrBytes(Shifted(v, 0), Shifted(v, 1), Shifted(v, 2), Shifted(v, 3));
    SwapIsWord(Four, v);
  }

  lemma LowTwoBytes(v: nat)
    ensures var u := v % 0x1_0000;
      Shifted(u, 0) == Shifted(v, 0) && Shifted(u, 1) == Shifted(v, 1)
  {
    var u, q := v % 0x1_0000, v / 0x1_0000;
    assert v == 0x1_0000 * q + u;
    Below(u, 0x100 * q);
    Below(u / 0x100, q);
    assert Shifted(u, 1) == Shifted(u / 0x100, 0) && Shifted(v, 1) == Shifted(v / 0x100, 0);
  }

  lemma Below(x: nat, n: nat)
    ensures (0x100 * n + x) % 0x100 == x % 0x100 && (0x100 * n + x) / 0x100 == n + x / 0x100
  {
  }

  lemma Swap16(v: nat)
    ensures Macro16(v) == Swap(Two, v)
  {
    hide Or, And, Shl, Shr, Shifted, Swap, Word;
    var u := v % 0x1_0000;
    Masks();
    MaskedUp(u, 8, 8);
    MaskedDown(u, 8, 0);
    NoShift(Shr(u, 8) % 256);
    ShiftedBytes(u);
    LowTwoBytes(v);
    OrBytes(0, 0, Shifted(u, 0), Shifted(u, 1));
    SwapIsWord(Two, v);
  }

  /** The macros, with their shifts and masks, reverse the bytes of any value cut to their width. */
  lemma MacrosSwap(v: nat)
    ensures Macro16(v) == Swap(Two, v) && Macro32(v) == Swap(Four, v)
  {
    Swap16(v);
    Swap32(v);
  }
}
