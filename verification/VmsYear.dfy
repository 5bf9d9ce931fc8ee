/** The two-digit year of a date pattern (freetds-1.00.21/vms/vmsarg_parse.c, lines 542-544 and
    591-594). Its terminator is written one cell too late, so the field ends with an unset cell,
    while the cursor moves on by two. */
module VmsYear {
  import opened Sequences
  import opened VmsDate
  import opened VmsPattern

  /** Real moments have fields of the right lengths. */
  lemma RawFieldsFit(m: Moment, garbage: char)
    requires IsMoment(m)
    ensures FieldsFit(RawFields(m, garbage))
    ensures |RawFields(m, garbage).year2| == 2 <==> garbage == NUL
  {
    assert |FieldsOf(m).year4| == 4 && NUL !in FieldsOf(m).year4;
    assert [garbage][1..] == [];
  }

  // ---------------------------------------------------------------- when cursor and text agree

  /** The pattern asks for the two-digit year. */
  predicate AsksYear(p: string)
    decreases |p|
  {
    if |p| < 2 then false
    else if p[0] != ESCAPE then AsksYear(p[1..])
    else p[1] == 'y' || AsksYear(p[2..])
  }

  /** At every turn of the loop the cursor stands at the end of the text. */
  ghost predicate AlwaysInStep(o: Out, f: DateFields, p: string)
    requires Inside(o) && FieldsFit(f)
  {
    forall k :: 0 <= k <= |p| && WellFormed(p[..k]) ==> InStep(Written(o, f, p[..k]))
  }

  /** Exactly when the cursor follows the text: the two-digit year has two characters, or the
      pattern does not ask for it. */
  lemma {:induction false} InStepExactly(o: Out, f: DateFields, p: string)
    requires InStep(o) && FieldsFit(f)
    ensures AlwaysInStep(o, f, p) <==> |f.year2| == 2 || !AsksYear(p)
    decreases |p|
  {
    assert p[..0] == [];
    var n := if p == [] then 0 else if p[0] != ESCAPE then 1 else 2;
    if 0 < n <= |p| {
      var next := Written(o, f, p[..n]);
      NextTurn(o, f, p, n);
      if InStep(next) {
        InStepExactly(next, f, p[n..]);
        StepInFront(o, f, p, n);
      } else {
        assert WellFormed(p[..n]);
      }
    } else if |p| == 1 {
      assert p[..1] == p;
    }
  }

  /** The first turn of the loop. */
  lemma NextTurn(o: Out, f: DateFields, p: string, n: nat)
    requires InStep(o) && FieldsFit(f) && 0 < n <= |p| && n == if p[0] != ESCAPE then 1 else 2
    ensures WellFormed(p[..n])
    ensures InStep(Written(o, f, p[..n])) <==> n == 1 || p[1] != 'y' || |f.year2| == 2
    ensures AsksYear(p) <==> (n == 2 && p[1] == 'y') || AsksYear(p[n..])
  {
    var a := p[..n];
    assert a[0] == p[0] && a[n..] == [];
    if n == 2 {
      assert a[1] == p[1];
    }
  }

  lemma StepInFront(o: Out, f: DateFields, p: string, n: nat)
    requires InStep(o) && FieldsFit(f) && 0 < n <= |p| && n == if p[0] != ESCAPE then 1 else 2
    requires InStep(Written(o, f, p[..n]))
    ensures AlwaysInStep(o, f, p) <==> AlwaysInStep(Written(o, f, p[..n]), f, p[n..])
  {
    var next, rest := Written(o, f, p[..n]), p[n..];
    forall k | n <= k <= |p|
      ensures WellFormed(p[..k]) <==> WellFormed(rest[..k - n])
      ensures Written(o, f, p[..k]) == Written(next, f, rest[..k - n])
    {
      TurnThenRest(o, f, p[..k], n);
      assert p[..k][n..] == rest[..k - n] && p[..k][..n] == p[..n];
    }
    if AlwaysInStep(o, f, p) {
      forall k | 0 <= k <= |rest| && WellFormed(rest[..k]) ensures InStep(Written(next, f, rest[..k])) {
        assert WellFormed(p[..k + n]);
      }
    }
    if AlwaysInStep(next, f, rest) {
      forall k | 0 <= k <= |p| && WellFormed(p[..k]) ensures InStep(Written(o, f, p[..k])) {
        if k >= n {
          assert WellFormed(rest[..k - n]);
        }
      }
    }
  }

  lemma TurnThenRest(o: Out, f: DateFields, p: string, n: nat)
    requires Inside(o) && FieldsFit(f) && 0 < n <= |p| && n == if p[0] != ESCAPE then 1 else 2
    ensures Written(o, f, p) == Written(Written(o, f, p[..n]), f, p[n..])
    ensures WellFormed(p) <==> WellFormed(p[n..])
  {
    var a := p[..n];
    assert a[0] == p[0] && a[n..] == [];
    if n == 2 {
      assert a[1] == p[1];
    }
  }

  // ---------------------------------------------------------------- when the text is as meant

  /** What comes next is a character written at the cursor; unknown letters write nothing. */
  predicate PutsNext(p: string)
    decreases |p|
  {
    if p == [] then false
    else if p[0] != ESCAPE then true
    else if |p| == 1 then false
    else p[1] == ESCAPE || (!Known(p[1]) && PutsNext(p[2..]))
  }

  predicate Known(c: char) {
    c in "YyMNnDdHhmSs$"
  }

  /** Behind every two-digit year a character is written at the cursor before anything else. */
  predicate Repaired(p: string)
    decreases |p|
  {
    if |p| < 2 then true
    else if p[0] != ESCAPE then Repaired(p[1..])
    else (p[1] == 'y' ==> PutsNext(p[2..])) && Repaired(p[2..])
  }

  /** The text as meant so far, or with the unset cell behind it and the cursor on that cell. */
  function Reached(text: string, late: bool, garbage: char): Out {
    if late then Out(text + [garbage], |text|) else Out(text, |text|)
  }

  /** The fields the code has, when the unset cell is not a terminator. */
  function Late(f: DateFields, g: char): DateFields {
    f.(year2 := f.year2 + [g])
  }

  ghost predicate Meant(f: DateFields, g: char) {
    FieldsFit(f) && |f.year2| == 2 && g != NUL
  }

  lemma LateField(f: DateFields, g: char, c: char)
    requires Meant(f, g)
    ensures FieldsFit(Late(f, g))
    ensures Field(Late(f, g), c) == Field(f, c) + if c == 'y' then [g] else []
    ensures Width(Late(f, g), c) == |Field(f, c)|
    ensures Known(c) <==> Field(f, c) != []
  {
  }

  /** How one turn goes on, in step or one late. */
  lemma TurnChar(text: string, late: bool, g: char, c: char)
    ensures PutChar(Reached(text, late, g), c) == Reached(text + [c], false, g)
  {
    assert (text + [g])[..|text|] == text && text[..|text|] == text;
  }

  lemma TurnPair(f: DateFields, g: char, text: string, late: bool, c: char)
    requires Meant(f, g) && FieldsFit(Late(f, g)) && (late ==> c == ESCAPE || !Known(c))
    ensures PutPair(Reached(text, late, g), Late(f, g), c) ==
      Reached(text + Field(f, c), c == 'y' || (late && !Known(c)), g)
  {
    hide FieldsFit, Late;
    LateField(f, g, c);
    if c == ESCAPE {
      TurnChar(text, late, g, c);
    } else {
      var piece := Field(f, c);
      hide Field;
      assert text + [] == text && (text + [g]) + [] == text + [g];
      Assoc(text, piece, [g]);
      assert piece + [] == piece;
    }
  }

  /** The text is as meant if every two-digit year is repaired. */
  lemma {:induction false} RepairedIsMeant(f: DateFields, g: char, text: string, late: bool, p: string)
    requires Meant(f, g) && FieldsFit(Late(f, g)) && WellFormed(p)
    requires Repaired(p) && (late ==> PutsNext(p))
    ensures Written(Reached(text, late, g), Late(f, g), p).text == text + Expand(f, p)
    decreases |p|
  {
    hide PutChar, PutPair, Reached, Late, Field, FieldsFit;
    if p == [] {
      AtEnd(text, g);
    } else if p[0] != ESCAPE {
      TurnChar(text, late, g, p[0]);
      RepairedIsMeant(f, g, text + [p[0]], false, p[1..]);
      Assoc(text, [p[0]], Expand(f, p[1..]));
    } else {
      var piece, rest := Field(f, p[1]), p[2..];
      TurnPair(f, g, text, late, p[1]);
      RepairedIsMeant(f, g, text + piece, p[1] == 'y' || (late && !Known(p[1])), rest);
      Assoc(text, piece, Expand(f, rest));
    }
  }

  lemma AtEnd(text: string, g: char)
    ensures Reached(text, false, g).text == text + []
  {
  }

  // ---- what is not repaired stays wrong

  /** A wrong character in front of the cursor stays where it is. */
  lemma {:induction false} StaysWrong(o: Out, f: DateFields, p: string, j: nat)
    requires Inside(o) && FieldsFit(f) && j < o.to
    ensures j < Written(o, f, p).to && Written(o, f, p).text[j] == o.text[j]
    decreases |p|
  {
    hide FieldsFit;
    if p != [] {
      if p[0] != ESCAPE {
        StaysWrong(PutChar(o, p[0]), f, p[1..], j);
      } else if |p| > 1 {
        StaysWrong(PutPair(o, f, p[1]), f, p[2..], j);
      }
    }
  }

  /** No field starts with the unset cell's character. */
  ghost predicate Tells(f: DateFields, g: char) {
    forall c: char :: Known(c) && c != ESCAPE && Field(f, c) != [] ==> Field(f, c)[0] != g
  }

  /** One late, with a field to come next or nothing at all. */
  lemma {:induction false} LateIsWrong(f: DateFields, g: char, text: string, p: string)
    requires Meant(f, g) && FieldsFit(Late(f, g)) && WellFormed(p) && Tells(f, g) && !PutsNext(p)
    ensures Written(Reached(text, true, g), Late(f, g), p).text != text + Expand(f, p)
    decreases |p|
  {
    hide FieldsFit, Late;
    if p == [] {
      assert |text + [g]| != |text + []|;
    } else {
      var c, rest := p[1], p[2..];
      LateField(f, g, c);
      hide Field;
      if Known(c) {
        var o := PutPair(Reached(text, true, g), Late(f, g), c);
        assert o.text[|text|] == g && |text| < o.to;
        StaysWrong(o, Late(f, g), rest, |text|);
        assert (text + Expand(f, p))[|text|] == Field(f, c)[0];
      } else {
        TurnPair(f, g, text, true, c);
        assert text + Field(f, c) == text;
        LateIsWrong(f, g, text, rest);
        assert Expand(f, p) == Expand(f, rest);
      }
    }
  }

  /** A two-digit year that is not repaired spoils the text, if the unset cell tells. */
  lemma {:induction false} UnrepairedIsWrong(f: DateFields, g: char, text: string, late: bool, p: string)
    requires Meant(f, g) && FieldsFit(Late(f, g)) && WellFormed(p) && Tells(f, g)
    requires !Repaired(p) && (late ==> PutsNext(p))
    ensures Written(Reached(text, late, g), Late(f, g), p).text != text + Expand(f, p)
    decreases |p|
  {
    hide PutChar, PutPair, Reached, Late, Field, FieldsFit, Tells;
    if p[0] != ESCAPE {
      TurnChar(text, late, g, p[0]);
      UnrepairedIsWrong(f, g, text + [p[0]], false, p[1..]);
      Assoc(text, [p[0]], Expand(f, p[1..]));
    } else {
      var piece, rest := Field(f, p[1]), p[2..];
      TurnPair(f, g, text, late, p[1]);
      Assoc(text, piece, Expand(f, rest));
      if p[1] == 'y' && !PutsNext(rest) {
        LateIsWrong(f, g, text + piece, rest);
      } else {
        UnrepairedIsWrong(f, g, text + piece, p[1] == 'y' || (late && !Known(p[1])), rest);
      }
    }
  }

  // ---- for every moment

  /** A moment none of whose fields starts with the character. */
  function Telling(g: char): Moment {
    if g in "1N" then Moment(22, 2, 2222, 22, 22, 22, 0) else Moment(11, 11, 1111, 11, 11, 11, 0)
  }

  predicate Starts(s: string, from: string) {
    s != [] && s[0] in from
  }

  predicate StartIn(f: DateFields, from: string) {
    && Starts(f.year4, from) && Starts(f.year2, from) && Starts(f.monthName, from) && Starts(f.month2, from)
    && Starts(f.month1, from) && Starts(f.date2, from) && Starts(f.date1, from) && Starts(f.hour2, from)
    && Starts(f.hour1, from) && Starts(f.minute, from) && Starts(f.second, from)
  }

  lemma StartsTell(f: DateFields, from: string, g: char)
    requires StartIn(f, from) && g !in from
    ensures Tells(f, g)
  {
  }

  lemma Elevens()
    ensures StartIn(FieldsOf(Moment(11, 11, 1111, 11, 11, 11, 0)), "1N")
  {
  }

  lemma TwentyTwos()
    ensures StartIn(FieldsOf(Moment(22, 2, 2222, 22, 22, 22, 0)), "2F0")
  {
  }

  lemma TellingTells(g: char)
    ensures IsMoment(Telling(g)) && Tells(FieldsOf(Telling(g)), g)
  {
    hide FieldsOf, StartIn, Tells;
    if g in "1N" {
      TwentyTwos();
      StartsTell(FieldsOf(Telling(g)), "2F0", g);
    } else {
      Elevens();
      StartsTell(FieldsOf(Telling(g)), "1N", g);
    }
  }

  lemma RawIsLate(m: Moment, g: char)
    requires IsMoment(m)
    ensures FieldsFit(FieldsOf(m)) && FieldsFit(RawFields(m, g))
    ensures RawFields(m, g) == if g == NUL then FieldsOf(m) else Late(FieldsOf(m), g)
    ensures |FieldsOf(m).year2| == 2
  {
    RawFieldsFit(m, g);
    RawFieldsFit(m, NUL);
    assert [g][1..] == [] && [NUL][1..] == [];
    assert TwoDigits(m.year % 100) + [] == TwoDigits(m.year % 100);
  }

  /** With the two-digit year terminated in time every text is as meant. */
  lemma {:induction false} TerminatedIsMeant(f: DateFields, text: string, p: string)
    requires FieldsFit(f) && |f.year2| == 2 && WellFormed(p)
    ensures Written(Out(text, |text|), f, p) == Out(text + Expand(f, p), |text + Expand(f, p)|)
    decreases |p|
  {
    hide FieldsFit, Field;
    if p == [] {
      assert text + [] == text;
    } else if p[0] != ESCAPE {
      assert text[..|text|] == text;
      TerminatedIsMeant(f, text + [p[0]], p[1..]);
      Assoc(text, [p[0]], Expand(f, p[1..]));
    } else {
      InTime(f, text, p[1]);
      TerminatedIsMeant(f, text + Field(f, p[1]), p[2..]);
      Assoc(text, Field(f, p[1]), Expand(f, p[2..]));
    }
  }

  lemma InTime(f: DateFields, text: string, c: char)
    requires FieldsFit(f) && |f.year2| == 2
    ensures PutPair(Out(text, |text|), f, c) == Out(text + Field(f, c), |text + Field(f, c)|)
  {
    assert text[..|text|] == text;
  }

  ghost predicate AlwaysMeant(g: char, p: string)
    requires forall m: Moment :: IsMoment(m) ==> FieldsFit(RawFields(m, g))
  {
    forall m: Moment :: IsMoment(m) ==> Written(Nothing, RawFields(m, g), p).text == Expand(FieldsOf(m), p)
  }

  /** Exactly which patterns come out as meant for every moment: all of them if the unset cell
      happens to be a terminator, otherwise those that write a character right behind every
      two-digit year, which overwrites the cell. */
  lemma {:induction false} MeantExactly(g: char, p: string)
    requires WellFormed(p)
    ensures forall m: Moment :: IsMoment(m) ==> FieldsFit(RawFields(m, g))
    ensures AlwaysMeant(g, p) <==> g == NUL || Repaired(p)
  {
    hide FieldsOf, RawFields, FieldsFit, Telling, IsMoment;
    forall m: Moment | IsMoment(m) ensures FieldsFit(RawFields(m, g)) {
      RawIsLate(m, g);
    }
    if g == NUL || Repaired(p) {
      forall m: Moment | IsMoment(m)
        ensures Written(Nothing, RawFields(m, g), p).text == Expand(FieldsOf(m), p)
      {
        MeantFor(m, g, p);
      }
    } else {
      var m := Telling(g);
      TellingTells(g);
      RawIsLate(m, g);
      UnrepairedIsWrong(FieldsOf(m), g, [], false, p);
      assert [] + Expand(FieldsOf(m), p) == Expand(FieldsOf(m), p);
    }
  }

  lemma MeantFor(m: Moment, g: char, p: string)
    requires IsMoment(m) && WellFormed(p) && (g == NUL || Repaired(p))
    ensures FieldsFit(RawFields(m, g)) && Written(Nothing, RawFields(m, g), p).text == Expand(FieldsOf(m), p)
  {
    hide FieldsOf, RawFields, FieldsFit;
    RawIsLate(m, g);
    if g == NUL {
      TerminatedIsMeant(FieldsOf(m), [], p);
    } else {
      RepairedIsMeant(FieldsOf(m), g, [], false, p);
    }
    assert [] + Expand(FieldsOf(m), p) == Expand(FieldsOf(m), p);
  }

  /** The whole conversion: from the VMS text of a moment to the pattern filled with its fields, as
      they are meant wherever the late terminator does no harm. */
  method ConvertMoment(buf: array<char>, text: string, pattern: string, garbage: char, ghost m: Moment)
    returns (inside: bool)
    requires IsMoment(m) && text == Asctim(m)
    requires NUL !in pattern && |Expand(RawFields(m, garbage), pattern)| < buf.Length
    modifies buf
    ensures FieldsFit(RawFields(m, garbage)) && (inside <==> WellFormed(pattern))
    ensures inside ==> Holds(buf[..], Written(Nothing, RawFields(m, garbage), pattern).text)
    ensures inside && (garbage == NUL || Repaired(pattern)) ==> Holds(buf[..], Expand(FieldsOf(m), pattern))
  {
    hide FieldsOf, RawFields, FieldsFit, Holds;
    var f := SplitDate(text, garbage, m);
    RawFieldsFit(m, garbage);
    inside := ConvertDate(buf, f, pattern);
    if inside && (garbage == NUL || Repaired(pattern)) {
      MeantFor(m, garbage, pattern);
    }
  }
}
