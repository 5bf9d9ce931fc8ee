/** Capability lookup (freetds-1.00.21/include/freetds/tds.h, lines 1627-1631) on an array of any
    length, against the number its bytes denote. */
module Capability {

  import opened Bits

  /** `tds_capability_enabled`: byte `cap >> 3` from the end, bit `cap & 7` of it. */
  predicate Enabled(values: seq<Byte>, cap: nat)
    requires cap < 8 * |values|
  {
    Bit(values[|values| - 1 - cap / 8], cap % 8)
  }

  /** The number the bytes denote, the first one most significant. */
  function BigEndian(values: seq<Byte>): nat {
    if values == [] then 0 else 256 * BigEndian(values[..|values| - 1]) + values[|values| - 1]
  }

  /** A capability is enabled exactly when its bit of the number is set. */
  lemma {:induction false} EnabledIsBit(values: seq<Byte>, cap: nat)
    requires cap < 8 * |values|
    ensures Enabled(values, cap) <==> Bit(BigEndian(values), cap)
    decreases |values|
  {
    var n := |values| - 1;
    Pow2Eight();
    SplitBits(BigEndian(values[..n]), values[n], 8, cap);
    if cap >= 8 {
      EnabledIsBit(values[..n], cap - 8);
      assert (cap - 8) / 8 == cap / 8 - 1 && (cap - 8) % 8 == cap % 8;
    }
  }

  /** Setting one bit of the number changes exactly one capability's answer. */
  lemma SetOneCapability(before: seq<Byte>, after: seq<Byte>, cap: nat, other: nat)
    requires |after| == |before| && cap < 8 * |before| && other < 8 * |before|
    requires !Enabled(before, cap) && BigEndian(after) == BigEndian(before) + Pow2(cap)
    ensures Enabled(after, other) <==> Enabled(before, other) || other == cap
  {
    EnabledIsBit(before, cap);
    EnabledIsBit(before, other);
    EnabledIsBit(after, other);
    AddBit(BigEndian(before), cap, other);
  }
}
