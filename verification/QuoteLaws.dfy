/** What quoting does, flag by flag and character by character. */
module QuoteLaws {
  import opened Sequences
  import opened VmsQuote
  import opened VmsUnquote

  /** A string comes out unchanged exactly if it holds no capital letter that the flags protect, no
      small letter that they protect, no special character while those are protected, and no quotation
      mark while marks are escaped or doubled. */
  lemma UnchangedExactly(f: Flags, special: string, s: string)
    ensures Protect(f, special, s) == s <==>
      forall i :: 0 <= i < |s| ==>
        && (f.upper ==> !('A' <= s[i] <= 'Z'))
        && (f.lower ==> !('a' <= s[i] <= 'z'))
        && (f.special ==> s[i] !in special)
        && (f.escape || f.double ==> s[i] != '\"')
  {
    if Needed(f, special, s) {
      LongerIfNeeded(f, special, s);
      var i :| 0 <= i < |s| && Protects(f, special, s[i]);
    } else {
      forall i | 0 <= i < |s| ensures !Protects(f, special, s[i]) {
      }
    }
  }

  lemma LongerIfNeeded(f: Flags, special: string, s: string)
    requires Needed(f, special, s)
    ensures |Protect(f, special, s)| > |s|
  {
    ExpandNotShorter(f, s);
  }

  lemma {:induction false} ExpandNotShorter(f: Flags, s: string)
    ensures |ExpandQuotes(f, s)| >= |s|
    decreases |s|
  {
    if s != [] {
      ExpandNotShorter(f, s[1..]);
    }
  }

  /** What is in front of each quotation mark of the input: a backslash if marks are escaped, and then
      another mark if they are doubled. */
  function Before(f: Flags): string {
    match (f.escape, f.double)
    case (false, false) => ""
    case (false, true) => "\""
    case (true, false) => "\\"
    case (true, true) => "\\\""
  }

  /** The strings between the marks stay, and each mark gets what goes in front of it. */
  lemma {:induction false} MarksAreLed(f: Flags, a: string, b: string)
    ensures '\"' !in a ==> ExpandQuotes(f, a) == a
    ensures ExpandQuotes(f, a + "\"" + b) == ExpandQuotes(f, a) + Before(f) + "\"" + ExpandQuotes(f, b)
  {
    hide ExpandQuotes, Before;
    if '\"' !in a {
      ExpandPlain(f, a);
    }
    ExpandConcat(f, a + "\"", b);
    ExpandConcat(f, a, "\"");
    LoneMark(f);
    Assoc(ExpandQuotes(f, a), Before(f), "\"");
  }

  lemma LoneMark(f: Flags)
    ensures ExpandQuotes(f, "\"") == Before(f) + "\""
  {
    assert "\""[1..] == "" && ExpandQuotes(f, "") == "";
  }

  /** Quoting, for every string: one without quotation marks is left alone or enclosed in them. In one
      with marks the first mark is noticed if marks are escaped or doubled and, while special characters
      are protected, the mark is not one of them and what stands before it needs no protection; then
      every mark gets its lead and only an opening mark is added. Otherwise it is left alone or enclosed. */
  lemma HowProtected(f: Flags, special: string, a: string, b: string)
    requires '\"' !in a
    ensures Protect(f, special, a) in {a, "\"" + a + "\""}
    ensures var s := a + "\"" + b;
      if (f.escape || f.double) && (f.special ==> '\"' !in special && Protect(f, special, a) == a) then
        Protect(f, special, s) == "\"" + (a + Before(f) + "\"" + ExpandQuotes(f, b))
      else
        Protect(f, special, s) in {s, "\"" + s + "\""}
  {
    hide ExpandQuotes, Before, FirstQuote, Needed, QuoteNoticed;
    var s := a + "\"" + b;
    NeededChanges(f, special, a);
    NoticedFirst(f, special, a);
    NoticedFirst(f, special, s);
    FirstMark(a, b);
    MarksAreLed(f, a, b);
    MarkNeeds(f, special, a, b);
  }

  lemma NeededChanges(f: Flags, special: string, s: string)
    ensures Protect(f, special, s) == s <==> !Needed(f, special, s)
  {
    hide Needed;
    if Needed(f, special, s) {
      LongerIfNeeded(f, special, s);
    }
  }

  lemma MarkNeeds(f: Flags, special: string, a: string, b: string)
    ensures f.escape || f.double ==> Needed(f, special, a + "\"" + b)
  {
    var s := a + "\"" + b;
    assert s[|a|] == '\"';
    assert f.escape || f.double ==> Protects(f, special, s[|a|]);
  }

  lemma {:induction false} FirstMark(a: string, b: string)
    requires '\"' !in a
    ensures var s := a + "\"" + b;
      FirstQuote(s) == |a| && s[..|a|] == a
    decreases |a|
  {
    if a != "" {
      FirstMark(a[1..], b);
      assert (a + "\"" + b)[1..] == a[1..] + "\"" + b;
    }
  }
}
