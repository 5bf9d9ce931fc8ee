/** What the fields of a list are: cut at the bars, without the empty ones. */
module KeywordLaws {
  import opened Wrappers
  import opened Sequences
  import opened VmsKeywords

  /** The cursors see the same in `a` and behind it, up to the bar that follows. */
  lemma {:induction false} SameSkip(a: string, b: string, pos: nat)
    requires pos <= |a|
    ensures var s := a + [BAR] + b;
      SkipBars(a, pos) < |a| ==> SkipBars(s, pos) == SkipBars(a, pos)
    ensures SkipBars(a, pos) == |a| ==> SkipBars(a + [BAR] + b, pos) == SkipBars(a + [BAR] + b, |a| + 1)
    decreases |a| - pos
  {
    var s := a + [BAR] + b;
    if pos < |a| {
      assert s[pos] == a[pos];
      if a[pos] == BAR {
        SameSkip(a, b, pos + 1);
      }
    } else {
      assert s[pos] == BAR;
    }
  }

  lemma {:induction false} SameEnd(a: string, b: string, pos: nat)
    requires pos <= |a|
    ensures FieldEnd(a + [BAR] + b, pos) == FieldEnd(a, pos)
    decreases |a| - pos
  {
    var s := a + [BAR] + b;
    if pos < |a| {
      assert s[pos] == a[pos];
      if a[pos] != BAR {
        SameEnd(a, b, pos + 1);
      }
    } else {
      assert s[pos] == BAR;
    }
  }

  lemma {:induction false} ShiftSkip(p: string, b: string, pos: nat)
    requires pos <= |b|
    ensures SkipBars(p + b, |p| + pos) == |p| + SkipBars(b, pos)
    decreases |b| - pos
  {
    if pos < |b| && b[pos] == BAR {
      ShiftSkip(p, b, pos + 1);
    }
  }

  lemma {:induction false} ShiftEnd(p: string, b: string, pos: nat)
    requires pos <= |b|
    ensures FieldEnd(p + b, |p| + pos) == |p| + FieldEnd(b, pos)
    decreases |b| - pos
  {
    if pos < |b| && b[pos] != BAR {
      ShiftEnd(p, b, pos + 1);
    }
  }

  /** What stands before the cursor does not matter. */
  lemma {:induction false} ShiftFields(p: string, b: string, pos: nat)
    requires pos <= |b|
    ensures Fields(p + b, |p| + pos) == Fields(b, pos)
    decreases |b| - pos
  {
    hide SkipBars, FieldEnd;
    var from := SkipBars(b, pos);
    var end := FieldEnd(b, from);
    ShiftSkip(p, b, pos);
    ShiftEnd(p, b, from);
    if from != end {
      ShiftSlice(p, b, from, end);
      ShiftFields(p, b, end);
    }
  }

  lemma ShiftSlice(p: string, b: string, from: nat, end: nat)
    requires from <= end <= |b|
    ensures (p + b)[|p| + from..|p| + end] == b[from..end]
  {
  }

  lemma {:induction false} FieldsUpToBar(a: string, b: string, pos: nat)
    requires pos <= |a|
    ensures Fields(a + [BAR] + b, pos) == Fields(a, pos) + Fields(b, 0)
    decreases |a| - pos
  {
    hide SkipBars, FieldEnd;
    var s := a + [BAR] + b;
    var from := SkipBars(a, pos);
    var end := FieldEnd(a, from);
    SameSkip(a, b, pos);
    if from < |a| {
      SameEnd(a, b, from);
      NonEmptyField(a, from);
      assert s[from..end] == a[from..end];
      FieldsUpToBar(a, b, end);
    } else {
      AtCursor(s, pos, |a| + 1);
      ShiftFields(a + [BAR], b, 0);
      EndIsEnd(a);
    }
  }

  lemma NonEmptyField(s: string, from: nat)
    requires from < |s| && s[from] != BAR
    ensures FieldEnd(s, from) > from
  {
  }

  lemma EndIsEnd(s: string)
    ensures FieldEnd(s, |s|) == |s|
  {
  }

  /** The fields depend on where the next one starts only. */
  lemma AtCursor(s: string, p: nat, q: nat)
    requires p <= |s| && q <= |s| && SkipBars(s, p) == SkipBars(s, q)
    ensures Fields(s, p) == Fields(s, q)
  {
  }

  /** The fields of a list, completely: none in the empty text, a text without bars is one field, and a
      bar anywhere cuts the list in two. So repeated, leading and trailing bars make no field, and the
      last field needs no bar. */
  lemma FieldsAre(a: string, b: string)
    ensures Fields("", 0) == []
    ensures a != "" && BAR !in a ==> Fields(a, 0) == [a]
    ensures Fields(a + [BAR] + b, 0) == Fields(a, 0) + Fields(b, 0)
  {
    FieldsUpToBar(a, b, 0);
    if a != "" && BAR !in a {
      LoneField(a);
    }
  }

  lemma LoneField(a: string)
    requires a != "" && BAR !in a
    ensures Fields(a, 0) == [a]
  {
    EndOfLone(a, 0);
    assert a[0] != BAR && a[0..|a|] == a;
    assert SkipBars(a, 0) == 0 && FieldEnd(a, 0) == |a|;
    assert Fields(a, |a|) == [];
  }

  lemma {:induction false} EndOfLone(a: string, pos: nat)
    requires BAR !in a && pos <= |a|
    ensures FieldEnd(a, pos) == |a|
    decreases |a| - pos
  {
    if pos < |a| {
      EndOfLone(a, pos + 1);
    }
  }
}
