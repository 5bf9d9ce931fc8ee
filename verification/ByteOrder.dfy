/** The byte-order macros (freetds-1.00.21/include/freetds/bytes.h, lines 45-85; tds.h, lines
    379-387): fields of one, two and four bytes in either order, written one after the other. */
module ByteOrder {
  import opened Sequences
  import opened Bits

  datatype Width = One | Two | Four
  datatype Shape = Shape(width: Width, big: bool)
  datatype Field = Field(shape: Shape, value: nat)

  function Size(w: Width): nat {
    match w case One => 1 case Two => 2 case Four => 4
  }

  function Limit(w: Width): (limit: nat)
    ensures limit > 0
  {
    match w case One => 0x100 case Two => 0x1_0000 case Four => 0x1_0000_0000
  }

  /** `(TDS_UCHAR)(value >> 8 * k)` */
  function Shifted(value: nat, k: nat): Byte {
    if k == 0 then value % 0x100 else Shifted(value / 0x100, k - 1)
  }

  /** Four bytes as a number, the first one least significant. */
  function Word(b0: nat, b1: nat, b2: nat, b3: nat): nat {
    b3 * 0x100_0000 + b2 * 0x1_0000 + b1 * 0x100 + b0
  }

  /** The GET macros */
  function Get(s: Shape, b: seq<Byte>, at: nat): nat
    requires at + Size(s.width) <= |b|
  {
    match s
    case Shape(One, _) => b[at]
    case Shape(Two, false) => Word(b[at], b[at + 1], 0, 0)
    case Shape(Two, true) => Word(b[at + 1], b[at], 0, 0)
    case Shape(Four, false) => Word(b[at], b[at + 1], b[at + 2], b[at + 3])
    case Shape(Four, true) => Word(b[at + 3], b[at + 2], b[at + 1], b[at])
  }

  // ---------------------------------------------------------------- bytes and numbers

  /** The low bytes of a number, the least significant first. */
  function Bytes(v: nat, n: nat): (b: seq<Byte>)
    ensures |b| == n
  {
    if n == 0 then [] else [v % 0x100] + Bytes(v / 0x100, n - 1)
  }

  /** The number that bytes denote, the least significant first. */
  function Number(b: seq<Byte>): nat {
    if b == [] then 0 else b[0] + 0x100 * Number(b[1..])
  }

  function Pow256(n: nat): nat {
    if n == 0 then 1 else 0x100 * Pow256(n - 1)
  }

  /** What is left of a number behind its low bytes. */
  function Rest(v: nat, n: nat): nat {
    if n == 0 then v else Rest(v / 0x100, n - 1)
  }

  /** The last byte and the rest of a number. */
  lemma LastByte(b: Byte, n: nat)
    ensures (b + 0x100 * n) % 0x100 == b && (b + 0x100 * n) / 0x100 == n
  {
  }

  lemma {:induction false} BytesOfNumber(b: seq<Byte>)
    ensures Bytes(Number(b), |b|) == b
    decreases |b|
  {
    if b != [] {
      BytesOfNumber(b[1..]);
      LastByte(b[0], Number(b[1..]));
    }
  }

  lemma Carry(v: nat, n: nat, p: nat, r: nat)
    requires v / 0x100 == n + p * r && n < p
    ensures v == v % 0x100 + 0x100 * n + (0x100 * p) * r && v % 0x100 + 0x100 * n < 0x100 * p
  {
    assert (0x100 * p) * r == 0x100 * (p * r);
  }

  lemma {:induction false} NumberOfBytes(v: nat, n: nat)
    ensures v == Number(Bytes(v, n)) + Pow256(n) * Rest(v, n) && Number(Bytes(v, n)) < Pow256(n)
    decreases n
  {
    if n > 0 {
      NumberOfBytes(v / 0x100, n - 1);
      Carry(v, Number(Bytes(v / 0x100, n - 1)), Pow256(n - 1), Rest(v / 0x100, n - 1));
    }
  }

  lemma {:induction false} ByteAt(v: nat, n: nat, k: nat)
    requires k < n
    ensures Bytes(v, n)[k] == Shifted(v, k)
    decreases k
  {
    if k > 0 {
      ByteAt(v / 0x100, n - 1, k - 1);
    }
  }

  lemma Limits(w: Width)
    ensures Limit(w) == Pow256(Size(w))
  {
    assert Pow256(2) == 0x1_0000;
  }

  /** The low bytes make the value again, cut to their number. */
  lemma LowBytes(w: Width, v: nat)
    ensures Number(Bytes(v, Size(w))) == v % Limit(w)
  {
    hide Number, Bytes, Rest, Pow256;
    NumberOfBytes(v, Size(w));
    Limits(w);
    Cut(w, v, Number(Bytes(v, Size(w))), Rest(v, Size(w)));
  }

  lemma Cut(w: Width, v: nat, r: nat, q: nat)
    requires v == r + Limit(w) * q && r < Limit(w)
    ensures v % Limit(w) == r
  {
    match w
    case One => CutOne(r, q);
    case Two => CutTwo(r, q);
    case Four => CutFour(r, q);
  }

  lemma CutOne(r: nat, q: nat)
    requires r < 0x100
    ensures (r + 0x100 * q) % 0x100 == r
  {
  }

  lemma CutTwo(r: nat, q: nat)
    requires r < 0x1_0000
    ensures (r + 0x1_0000 * q) % 0x1_0000 == r
  {
  }

  lemma CutFour(r: nat, q: nat)
    requires r < 0x1_0000_0000
    ensures (r + 0x1_0000_0000 * q) % 0x1_0000_0000 == r
  {
  }

  /** The bytes of a field in the order of their significance. */
  function InOrder(s: Shape, b: seq<Byte>, at: nat): seq<Byte>
    requires at + Size(s.width) <= |b|
  {
    var field := b[at..at + Size(s.width)];
    if s.big then Reversed(field) else field
  }

  /** The GET macros compute the number of a field's bytes. */
  lemma GetIsNumber(s: Shape, b: seq<Byte>, at: nat)
    requires at + Size(s.width) <= |b|
    ensures Get(s, b, at) == Number(InOrder(s, b, at))
  {
    var f := InOrder(s, b, at);
    Unfold(f);
    match s.width
    case One =>
    case Two =>
    case Four =>
  }

  lemma Unfold(f: seq<Byte>)
    ensures |f| == 1 ==> Number(f) == f[0]
    ensures |f| == 2 ==> Number(f) == Word(f[0], f[1], 0, 0)
    ensures |f| == 4 ==> Number(f) == Word(f[0], f[1], f[2], f[3])
  {
    if |f| == 4 {
      assert Number(f[1..][1..]) == f[2] + 0x100 * Number(f[1..][1..][1..]);
      assert Number(f[1..][1..][1..]) == f[3];
    }
  }

  // ---------------------------------------------------------------- writing and reading

  /** The PUT macros: they store the low bytes of the value and touch nothing else. */
  method Put(buf: array<Byte>, at: nat, f: Field)
    requires at + Size(f.shape.width) <= buf.Length
    modifies buf
    ensures Get(f.shape, buf[..], at) == f.value % Limit(f.shape.width)
    ensures forall i :: 0 <= i < buf.Length && !(at <= i < at + Size(f.shape.width)) ==> buf[i] == old(buf[i])
  {
    var v := f.value;
    match f.shape {
      case Shape(One, _) => buf[at] := Shifted(v, 0);
      case Shape(Two, false) => buf[at + 1], buf[at] := Shifted(v, 1), Shifted(v, 0);
      case Shape(Two, true) => buf[at], buf[at + 1] := Shifted(v, 1), Shifted(v, 0);
      case Shape(Four, false) =>
        buf[at + 3], buf[at + 2], buf[at + 1], buf[at] := Shifted(v, 3), Shifted(v, 2), Shifted(v, 1), Shifted(v, 0);
      case Shape(Four, true) =>
        buf[at], buf[at + 1], buf[at + 2], buf[at + 3] := Shifted(v, 3), Shifted(v, 2), Shifted(v, 1), Shifted(v, 0);
    }
    hide Shifted, Get;
    Stored(f.shape, buf[..], at, v);
  }

  lemma StoredBytes(s: Shape, b: seq<Byte>, at: nat, v: nat)
    requires at + Size(s.width) <= |b|
    requires forall k :: 0 <= k < Size(s.width) ==>
      b[if s.big then at + Size(s.width) - 1 - k else at + k] == Shifted(v, k)
    ensures InOrder(s, b, at) == Bytes(v, Size(s.width))
  {
    hide Shifted, Bytes;
    var n := Size(s.width);
    forall k | 0 <= k < n ensures InOrder(s, b, at)[k] == Bytes(v, n)[k] {
      ByteAt(v, n, k);
    }
  }

  lemma Stored(s: Shape, b: seq<Byte>, at: nat, v: nat)
    requires at + Size(s.width) <= |b|
    requires forall k :: 0 <= k < Size(s.width) ==>
      b[if s.big then at + Size(s.width) - 1 - k else at + k] == Shifted(v, k)
    ensures Get(s, b, at) == v % Limit(s.width)
  {
    hide Get, Shifted, Number, Bytes, Limit, InOrder, Size;
    StoredBytes(s, b, at, v);
    GetIsNumber(s, b, at);
    LowBytes(s.width, v);
  }

  function Total(shapes: seq<Shape>): nat {
    if shapes == [] then 0 else Size(shapes[0].width) + Total(shapes[1..])
  }

  function Shapes(fields: seq<Field>): (r: seq<Shape>)
    ensures |r| == |fields| && forall i :: 0 <= i < |r| ==> r[i] == fields[i].shape
  {
    seq(|fields|, i requires 0 <= i < |fields| => fields[i].shape)
  }

  /** Reading consecutive fields. */
  function GetAll(shapes: seq<Shape>, b: seq<Byte>, at: nat): (values: seq<nat>)
    requires at + Total(shapes) <= |b|
    ensures |values| == |shapes|
  {
    if shapes == [] then []
    else [Get(shapes[0], b, at)] + GetAll(shapes[1..], b, at + Size(shapes[0].width))
  }

  /** Writing consecutive fields. Whatever their widths and orders, reading them back gives every
      value, cut to its width, and no byte outside them has changed. */
  method PutAll(buf: array<Byte>, at: nat, fields: seq<Field>)
    requires at + Total(Shapes(fields)) <= buf.Length
    modifies buf
    ensures |GetAll(Shapes(fields), buf[..], at)| == |fields|
    ensures forall k :: 0 <= k < |fields| ==>
      GetAll(Shapes(fields), buf[..], at)[k] == fields[k].value % Limit(fields[k].shape.width)
    ensures forall i :: 0 <= i < buf.Length && !(at <= i < at + Total(Shapes(fields))) ==> buf[i] == old(buf[i])
    decreases |fields|
  {
    if fields != [] {
      assert Shapes(fields)[1..] == Shapes(fields[1..]);
      Put(buf, at, fields[0]);
      ghost var first := Get(fields[0].shape, buf[..], at);
      PutAll(buf, at + Size(fields[0].shape.width), fields[1..]);
      assert Get(fields[0].shape, buf[..], at) == first;
    }
  }

  /** Swapping reverses the bytes of the width. */
  function Swap(w: Width, v: nat): nat {
    Number(Reversed(Bytes(v, Size(w))))
  }

  lemma SwapIsWord(w: Width, v: nat)
    ensures w.Two? ==> Swap(w, v) == Word(Shifted(v, 1), Shifted(v, 0), 0, 0)
    ensures w.Four? ==> Swap(w, v) == Word(Shifted(v, 3), Shifted(v, 2), Shifted(v, 1), Shifted(v, 0))
  {
    hide Word, Shifted, Bytes;
    var n := Size(w);
    forall k | 0 <= k < n ensures Bytes(v, n)[k] == Shifted(v, k) {
      ByteAt(v, n, k);
    }
    Unfold(Reversed(Bytes(v, n)));
  }

  /** Reading in the opposite order swaps the bytes. */
  lemma OppositeOrder(s: Shape, b: seq<Byte>, at: nat)
    requires at + Size(s.width) <= |b|
    ensures Get(Shape(s.width, !s.big), b, at) == Swap(s.width, Get(s, b, at))
  {
    var f, t := InOrder(s, b, at), Shape(s.width, !s.big);
    GetIsNumber(s, b, at);
    GetIsNumber(t, b, at);
    BytesOfNumber(f);
    assert InOrder(t, b, at) == Reversed(f);
  }

  /** Swapping is its own inverse on values of the width. */
  lemma SwapTwice(w: Width, v: nat)
    requires v < Limit(w)
    ensures Swap(w, Swap(w, v)) == v
  {
    hide Number, Bytes;
    var b := Bytes(v, Size(w));
    BytesOfNumber(Reversed(b));
    assert Reversed(Reversed(b)) == b;
    LowBytes(w, v);
  }
}
