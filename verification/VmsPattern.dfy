/** Expansion of a date pattern into a buffer (freetds-1.00.21/vms/vmsarg_parse.c, lines 571-656).
    The loop mixes `strcat`, which looks for the terminator, with writes at the cursor `to`. */
module VmsPattern {
  import opened VmsDate

  const ESCAPE := '$'

  /** The buffer holds this C string. */
  ghost predicate Holds(buf: seq<char>, s: string) {
    |s| < |buf| && buf[..|s|] == s && buf[|s|] == NUL && NUL !in s
  }

  /** What an escape pair stands for; an unknown letter stands for nothing. */
  function Field(f: DateFields, c: char): string {
    match c
    case 'Y' => f.year4
    case 'y' => f.year2
    case 'M' => f.monthName
    case 'N' => f.month2
    case 'n' => f.month1
    case 'D' => f.date2
    case 'd' => f.date1
    case 'H' => f.hour2
    case 'h' => f.hour1
    case 'm' => f.minute
    case 'S' => f.second
    case 's' => f.second
    case '$' => [ESCAPE]
    case _ => []
  }

  /** No lone '$' at the end. */
  predicate WellFormed(p: string)
    decreases |p|
  {
    if p == [] then true
    else if p[0] != ESCAPE then WellFormed(p[1..])
    else |p| >= 2 && WellFormed(p[2..])
  }

  /** The expansion that is meant: the field of each escape pair, each other character itself. */
  function Expand(f: DateFields, p: string): string
    decreases |p|
  {
    if p == [] then []
    else if p[0] != ESCAPE then [p[0]] + Expand(f, p[1..])
    else if |p| == 1 then []
    else Field(f, p[1]) + Expand(f, p[2..])
  }

  /** Fields with the lengths the code counts on, but for the two-digit year, and without
      terminators. */
  predicate FieldsFit(f: DateFields) {
    && |f.year4| == 4 && |f.year2| >= 2 && |f.monthName| == 3 && |f.month2| == 2 && |f.date2| == 2
    && |f.hour2| == 2 && |f.minute| == 2 && |f.second| == 2
    && f.month1 != [] && f.date1 != [] && f.hour1 != []
    && NUL !in f.year4 && NUL !in f.year2 && NUL !in f.monthName && NUL !in f.month2 && NUL !in f.month1
    && NUL !in f.date2 && NUL !in f.date1 && NUL !in f.hour2 && NUL !in f.hour1 && NUL !in f.minute
    && NUL !in f.second
  }

  // ---------------------------------------------------------------- text and cursor

  /** The string in the buffer, and `to`. */
  datatype Out = Out(text: string, to: nat)

  const Nothing := Out([], 0)

  predicate Inside(o: Out) { o.to <= |o.text| }

  predicate InStep(o: Out) { o.to == |o.text| }

  /** The two writes at the cursor cut off what is behind it. */
  function PutChar(o: Out, c: char): (r: Out)
    requires Inside(o)
    ensures Inside(r)
  {
    Out(o.text[..o.to] + [c], o.to + 1)
  }

  /** How far an escape pair moves the cursor. */
  function Width(f: DateFields, c: char): nat {
    if c == 'y' then 2 else |Field(f, c)|
  }

  /** One escape pair: `strcat` puts the field behind the text, wherever the cursor is. */
  function PutPair(o: Out, f: DateFields, c: char): (r: Out)
    requires Inside(o) && FieldsFit(f)
    ensures Inside(r) && |r.text| <= |o.text| + |Field(f, c)|
  {
    if c == ESCAPE then PutChar(o, ESCAPE) else Out(o.text + Field(f, c), o.to + Width(f, c))
  }

  function Written(o: Out, f: DateFields, p: string): (r: Out)
    requires Inside(o) && FieldsFit(f)
    ensures Inside(r)
    decreases |p|
  {
    if p == [] then o
    else if p[0] != ESCAPE then Written(PutChar(o, p[0]), f, p[1..])
    else if |p| == 1 then o
    else Written(PutPair(o, f, p[1]), f, p[2..])
  }

  // ---------------------------------------------------------------- the loop

  /** `strcat` */
  method StrCat(buf: array<char>, s: string, ghost held: string)
    requires Holds(buf[..], held) && NUL !in s && |held| + |s| < buf.Length
    modifies buf
    ensures Holds(buf[..], held + s)
  {
    var end := 0;
    while buf[end] != NUL
      invariant 0 <= end <= |held|
      decreases |held| - end
    {
      assert buf[end] == buf[..][end];
      end := end + 1;
    }
    assert end == |held|;
    for i := 0 to |s|
      invariant buf[..|held| + i] == held + s[..i]
    {
      buf[end + i] := s[i];
    }
    assert buf[..|held| + |s|] == held + s;
    buf[end + |s|] := NUL;
    assert buf[..][..|held + s|] == buf[..|held| + |s|];
  }

  /** The two writes that put one character at the cursor. */
  method PutAt(buf: array<char>, c: char, to: nat, ghost held: string)
    requires Holds(buf[..], held) && to <= |held| && c != NUL && to + 1 < buf.Length
    modifies buf
    ensures Holds(buf[..], held[..to] + [c])
  {
    assert buf[..to] == held[..to];
    buf[to] := c;
    buf[to + 1] := NUL;
    assert buf[..][..to + 1] == held[..to] + [c];
  }

  /** One escape pair: the switch. `to` moves by what the code adds for that letter. */
  method Substitute(buf: array<char>, f: DateFields, c: char, to: nat, ghost held: string) returns (after: nat)
    requires FieldsFit(f) && Holds(buf[..], held) && to <= |held| && |held| + |Field(f, c)| < buf.Length
    modifies buf
    ensures Holds(buf[..], PutPair(Out(held, to), f, c).text) && after == PutPair(Out(held, to), f, c).to
  {
    after := to;
    assert held + [] == held;
    match c
    case 'Y' => StrCat(buf, f.year4, held); after := to + 4;
    case 'y' => StrCat(buf, f.year2, held); after := to + 2;
    case 'M' => StrCat(buf, f.monthName, held); after := to + 3;
    case 'N' => StrCat(buf, f.month2, held); after := to + 2;
    case 'n' => StrCat(buf, f.month1, held); after := to + |f.month1|;
    case 'D' => StrCat(buf, f.date2, held); after := to + 2;
    case 'd' => StrCat(buf, f.date1, held); after := to + |f.date1|;
    case 'H' => StrCat(buf, f.hour2, held); after := to + 2;
    case 'h' => StrCat(buf, f.hour1, held); after := to + |f.hour1|;
    case 'm' => StrCat(buf, f.minute, held); after := to + 2;
    case 'S' => StrCat(buf, f.second, held); after := to + 2;
    case 's' => StrCat(buf, f.second, held); after := to + 2;
    case '$' => PutAt(buf, ESCAPE, to, held); after := to + 1;
    case _ =>
  }

  /** The loop. Reading past the pattern's terminator ends it with `inside` false. */
  method ConvertDate(buf: array<char>, f: DateFields, pattern: string) returns (inside: bool)
    requires FieldsFit(f) && NUL !in pattern && |Expand(f, pattern)| < buf.Length
    modifies buf
    ensures inside <==> WellFormed(pattern)
    ensures inside ==> Holds(buf[..], Written(Nothing, f, pattern).text)
  {
    hide FieldsFit, Field;
    buf[0] := NUL;
    ghost var held: string := [];
    var from, to := 0, 0;
    while from < |pattern|
      invariant from <= |pattern|
      invariant Holds(buf[..], held) && 0 <= to <= |held|
      invariant |held| + |Expand(f, pattern[from..])| <= |Expand(f, pattern)|
      invariant Written(Out(held, to), f, pattern[from..]) == Written(Nothing, f, pattern)
      invariant WellFormed(pattern[from..]) <==> WellFormed(pattern)
      decreases |pattern| - from
    {
      ghost var rest := pattern[from..];
      if pattern[from] == ESCAPE {
        if from + 1 == |pattern| {
          return false;  // the second half of the pair is the terminator, and `from` jumps over it
        }
        assert rest[2..] == pattern[from + 2..] && rest[1] == pattern[from + 1];
        ghost var next := PutPair(Out(held, to), f, pattern[from + 1]);
        to := Substitute(buf, f, pattern[from + 1], to, held);
        held := next.text;
        from := from + 2;
      } else {
        assert rest[1..] == pattern[from + 1..];
        PutAt(buf, pattern[from], to, held);
        held := held[..to] + [pattern[from]];
        from := from + 1;
        to := to + 1;
      }
    }
    return true;
  }

  // ---------------------------------------------------------------- laws

  /** Expansion is piecewise: a well-formed pattern never looks at what follows it. */
  lemma {:induction false} ExpandConcat(f: DateFields, p: string, q: string)
    requires WellFormed(p)
    ensures Expand(f, p + q) == Expand(f, p) + Expand(f, q)
    ensures WellFormed(p + q) <==> WellFormed(q)
    decreases |p|
  {
    hide Field;
    var s := p + q;
    if p == [] {
      assert s == q;
    } else if p[0] != ESCAPE {
      ExpandConcat(f, p[1..], q);
      assert s[0] == p[0] && s[1..] == p[1..] + q;
      assert Expand(f, s) == [p[0]] + (Expand(f, p[1..]) + Expand(f, q));
    } else {
      ExpandConcat(f, p[2..], q);
      assert s[0] == p[0] && s[1] == p[1] && s[2..] == p[2..] + q;
      assert Expand(f, s) == Field(f, p[1]) + (Expand(f, p[2..]) + Expand(f, q));
    }
  }

  /** The pattern for a fixed text: every '$' doubled. */
  function Quote(s: string): string {
    if s == [] then [] else (if s[0] == ESCAPE then [ESCAPE, ESCAPE] else [s[0]]) + Quote(s[1..])
  }

  /** Every text is the expansion of its quoted form, whatever the date. */
  lemma {:induction false} ExpandQuoted(f: DateFields, s: string)
    ensures WellFormed(Quote(s)) && Expand(f, Quote(s)) == s
    decreases |s|
  {
    if s != [] {
      ExpandQuoted(f, s[1..]);
      var head := if s[0] == ESCAPE then [ESCAPE, ESCAPE] else [s[0]];
      assert head[1..] == [] || head[2..] == [];
      ExpandConcat(f, head, Quote(s[1..]));
    }
  }
}
