/** Keyword translation over lists of fields separated by `|`
    (freetds-1.00.21/vms/vmsarg_parse.c, lines 356-401). */
module VmsKeywords {
  import opened Wrappers
  import opened Sequences

  const BAR := '|'

  /** The cursor `strtok` starts its next field at: the first character that is no bar. */
  function SkipBars(s: string, pos: nat): (p: nat)
    requires pos <= |s|
    ensures pos <= p <= |s| && (p < |s| ==> s[p] != BAR)
    decreases |s| - pos
  {
    if pos < |s| && s[pos] == BAR then SkipBars(s, pos + 1) else pos
  }

  /** Where the field ends: the next bar, or the end. */
  function FieldEnd(s: string, pos: nat): (p: nat)
    requires pos <= |s|
    ensures pos <= p <= |s| && (p < |s| ==> s[p] == BAR) && (forall i :: pos <= i < p ==> s[i] != BAR)
    decreases |s| - pos
  {
    if pos < |s| && s[pos] != BAR then FieldEnd(s, pos + 1) else pos
  }

  /** One call of `strtok`: the next field and the cursor after it. */
  function StrTok(s: string, pos: nat): (r: (Option<string>, nat))
    requires pos <= |s|
    ensures pos <= r.1 <= |s| && (if r.0.Some? then pos < r.1 else r.1 == |s|)
  {
    var from := SkipBars(s, pos);
    var end := FieldEnd(s, from);
    if from == end then (None, from) else (Some(s[from..end]), end)
  }

  /** All the fields from a cursor on. */
  function Fields(s: string, pos: nat): seq<string>
    requires pos <= |s|
    decreases |s| - pos
  {
    var (field, next) := StrTok(s, pos);
    if field.None? then [] else [field.value] + Fields(s, next)
  }

  /** The first position a string stands at, counted from 1; 0 when it is not there. */
  function Position(fields: seq<string>, x: string): (r: nat)
    ensures r <= |fields|
    ensures r == 0 <==> x !in fields
    ensures r > 0 ==> fields[r - 1] == x && forall i :: 0 <= i < r - 1 ==> fields[i] != x
  {
    if fields == [] then 0
    else if fields[0] == x then 1
    else
      var later := Position(fields[1..], x);
      if later == 0 then 0 else later + 1
  }

  /** `varg_get_index` */
  method GetIndex(value: string, keywords: string) returns (index: nat)
    ensures index == Position(Fields(keywords, 0), value)
  {
    var i := 0;
    var field: Option<string>, pos: nat := StrTok(keywords, 0).0, StrTok(keywords, 0).1;
    ghost var rest := Fields(keywords, 0);
    while field.Some?
      invariant pos <= |keywords|
      invariant rest == if field.None? then [] else [field.value] + Fields(keywords, pos)
      invariant i <= |Fields(keywords, 0)| && rest == Fields(keywords, 0)[i..]
      invariant forall k :: 0 <= k < i ==> Fields(keywords, 0)[k] != value
      decreases |keywords| - pos, |rest|
    {
      i := i + 1;
      assert Fields(keywords, 0)[i - 1] == rest[0] == field.value;
      if field.value == value {
        PositionIs(Fields(keywords, 0), value, i);
        return i;
      }
      rest := rest[1..];
      assert rest == Fields(keywords, pos);
      field, pos := StrTok(keywords, pos).0, StrTok(keywords, pos).1;
    }
    return 0;
  }

  lemma PositionIs(fields: seq<string>, x: string, r: nat)
    requires 0 < r <= |fields| && fields[r - 1] == x
    requires forall i :: 0 <= i < r - 1 ==> fields[i] != x
    ensures Position(fields, x) == r
  {
  }

  /** `varg_set_index`: the result is the new value; None when the list has too few fields, where
      the code copies from a null pointer. */
  method SetIndex(value: string, keywords: string, index: nat) returns (r: Option<string>)
    ensures r == Pick(value, Fields(keywords, 0), index)
  {
    if index == 0 {
      return Some(value);
    }
    var field: Option<string>, pos: nat := StrTok(keywords, 0).0, StrTok(keywords, 0).1;
    for i := 1 to index
      invariant pos <= |keywords| && (field.None? ==> pos == |keywords|)
      invariant i - 1 <= |Fields(keywords, 0)| ==>
        Fields(keywords, 0)[i - 1..] == if field.None? then [] else [field.value] + Fields(keywords, pos)
      invariant i - 1 > |Fields(keywords, 0)| ==> field.None?
    {
      ghost var all := Fields(keywords, 0);
      if i <= |all| {
        assert all[i - 1..][1..] == all[i..];
      }
      field, pos := StrTok(keywords, pos).0, StrTok(keywords, pos).1;
    }
    r := field;
  }

  function Pick(value: string, fields: seq<string>, index: nat): Option<string> {
    if index == 0 then Some(value)
    else if index <= |fields| then Some(fields[index - 1])
    else None
  }

  /** A value that is one of the first list's fields becomes the field of the second list that has
      the same number; any other value stays. None when the second list is too short. */
  function Translate(value: string, vms: string, unix: string): Option<string> {
    Pick(value, Fields(unix, 0), Position(Fields(vms, 0), value))
  }

  /** The two calls of the main loop, one after the other. */
  method TranslateKeyword(value: string, vms: string, unix: string) returns (r: Option<string>)
    ensures r == Translate(value, vms, unix)
  {
    var index := GetIndex(value, vms);
    r := SetIndex(value, unix, index);
  }

  // ---------------------------------------------------------------- laws

  /** Translation is positional, leaves strangers alone, and fails only past the second list. */
  lemma TranslateMeans(value: string, vms: string, unix: string)
    ensures var from, to := Fields(vms, 0), Fields(unix, 0);
      && (value !in from ==> Translate(value, vms, unix) == Some(value))
      && (forall i :: 0 <= i < |from| && from[i] == value && value !in from[..i] ==>
            Translate(value, vms, unix) == if i < |to| then Some(to[i]) else None)
  {
    var from := Fields(vms, 0);
    forall i | 0 <= i < |from| && from[i] == value && value !in from[..i]
      ensures Position(from, value) == i + 1
    {
      assert forall k :: 0 <= k < i ==> from[k] == from[..i][k];
    }
  }

  /** With the same list on both sides nothing changes. */
  lemma TranslateIdentity(value: string, keywords: string)
    ensures Translate(value, keywords, keywords) == Some(value)
  {
  }

  predicate Plain(field: string) {
    field != [] && BAR !in field
  }

  /** Every field is a piece of text without bars. */
  lemma {:induction false} FieldsPlain(s: string, pos: nat)
    requires pos <= |s|
    ensures forall f <- Fields(s, pos) :: Plain(f)
    decreases |s| - pos
  {
    var (field, next) := StrTok(s, pos);
    if field.Some? {
      FieldsPlain(s, next);
    }
  }

  /** The list that has these fields. */
  function Join(fields: seq<string>): string {
    if fields == [] then [] else fields[0] + [BAR] + Join(fields[1..])
  }

  /** From behind any prefix, `strtok` recovers exactly the fields that were joined. */
  lemma {:induction false} FieldsOfJoin(before: string, fields: seq<string>)
    requires forall f <- fields :: Plain(f)
    ensures Fields(before + Join(fields), |before|) == fields
    decreases |fields|
  {
    if fields == [] {
      assert before + [] == before;
    } else {
      hide Fields;
      assert fields[0] in fields && forall f <- fields[1..] :: f in fields;
      FieldsStep(before, fields[0], Join(fields[1..]));
      FieldsOfJoin(before + fields[0] + [BAR], fields[1..]);
    }
  }

  lemma FieldsStep(before: string, f: string, tail: string)
    requires Plain(f)
    ensures var next := before + f + [BAR];
      Fields(before + (f + [BAR] + tail), |before|) == [f] + Fields(next + tail, |next|)
  {
    hide StrTok, SkipBars, FieldEnd;
    Assoc4(before, f, [BAR], tail);
    TokenAt(before, f, [BAR] + tail);
    OneBar(before + f, tail);
  }

  lemma TokenAt(before: string, f: string, rest: string)
    requires Plain(f) && rest != [] && rest[0] == BAR
    ensures StrTok(before + f + rest, |before|) == (Some(f), |before + f|)
  {
    var s := before + f + rest;
    assert s[|before|] == f[0];
    EndOfField(before, f, rest);
    assert s[|before|..|before + f|] == f;
  }

  /** From its first character a field runs to the bar behind it. */
  lemma {:induction false} EndOfField(before: string, f: string, rest: string)
    requires BAR !in f && rest != [] && rest[0] == BAR
    ensures FieldEnd(before + f + rest, |before|) == |before + f|
    decreases |f|
  {
    var s := before + f + rest;
    if f != [] {
      assert s == (before + [f[0]]) + f[1..] + rest;
      assert s[|before|] == f[0];
      EndOfField(before + [f[0]], f[1..], rest);
    }
  }

  /** A bar in front of the cursor makes no field. */
  lemma OneBar(before: string, rest: string)
    ensures var s := before + ([BAR] + rest);
      Fields(s, |before|) == Fields(s, |before| + 1)
  {
    var s := before + ([BAR] + rest);
    assert s[|before|] == BAR;
    assert SkipBars(s, |before|) == SkipBars(s, |before| + 1);
  }
}
