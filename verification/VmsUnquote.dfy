/** When quoting can be undone. */
module VmsUnquote {
  import opened Sequences
  import opened VmsQuote

  /** The settings that lose information: the escaping backslash looks like a special character of
      the input, or, with nothing doubled, like the last character of an enclosed input. */
  predicate Ambiguous(f: Flags, special: string) {
    f.escape &&
    if f.special then BACKSLASH in special && QUOTE !in special else !f.double && (f.upper || f.lower)
  }

  /** Taking the doubled or escaped quotation marks back. */
  function Collapse(f: Flags, b: string): string
    decreases |b|
  {
    if b == [] then []
    else if Lead(f) != [] && Lead(f) + [QUOTE] <= b then [QUOTE] + Collapse(f, b[|Lead(f)| + 1..])
    else [b[0]] + Collapse(f, b[1..])
  }

  /** Position of the first quotation mark, or the length. */
  function FirstQuote(b: string): (k: nat)
    ensures k <= |b| && (k < |b| ==> b[k] == QUOTE)
    ensures forall i :: 0 <= i < k ==> b[i] != QUOTE
  {
    if b == [] || b[0] == QUOTE then 0 else 1 + FirstQuote(b[1..])
  }

  /** Whether a protected string was enclosed rather than expanded: what stands before the first
      quotation mark behind the opening one tells. */
  predicate WasEnclosed(f: Flags, special: string, body: string)
    requires body != []
  {
    if !f.escape && !f.double then true
    else if f.special then QUOTE in special || Needed(f, special, body[..FirstQuote(body)])
    else f.double && FirstQuote(body) == |body| - 1
  }

  /** The explicit decoder. What calls for no protection was copied. */
  function Unprotect(f: Flags, special: string, out: string): string {
    if !Needed(f, special, out) then out
    else
      var body := out[1..];
      if body == [] then []
      else if WasEnclosed(f, special, body) then body[..|body| - 1]
      else Collapse(f, body)
  }

  lemma {:induction false} CollapseExpand(f: Flags, s: string)
    ensures Collapse(f, ExpandQuotes(f, s)) == s
    decreases |s|
  {
    if s != [] {
      CollapseExpand(f, s[1..]);
      if s[0] == BACKSLASH && f.escape {
        ExpandStarts(f, s[1..]);
      }
      CollapseOne(f, s[0], ExpandQuotes(f, s[1..]));
    }
  }

  /** One expanded character in front of anything that does not look like part of it. */
  lemma CollapseOne(f: Flags, c: char, rest: string)
    requires f.escape && c == BACKSLASH && rest != [] ==> rest[0] != QUOTE
    ensures Collapse(f, Expanded(f, c) + rest) == [c] + Collapse(f, rest)
  {
    var lead, b := Lead(f) + [QUOTE], Expanded(f, c) + rest;
    if c == QUOTE {
      assert b == lead + rest && b[|lead|..] == rest;
    } else {
      assert b == [c] + rest && b[1..] == rest;
    }
  }

  /** With escaping on, an expansion never starts with a bare quotation mark. */
  lemma ExpandStarts(f: Flags, s: string)
    requires f.escape
    ensures ExpandQuotes(f, s) != [] ==> ExpandQuotes(f, s)[0] != QUOTE
  {
  }

  lemma {:induction false} FirstQuoteSkip(a: string, b: string)
    requires QUOTE !in a
    ensures FirstQuote(a + b) == |a| + FirstQuote(b)
    decreases |a|
  {
    if a == [] {
      assert a + b == b;
    } else {
      FirstQuoteSkip(a[1..], b);
      assert (a + b)[1..] == a[1..] + b;
    }
  }

  lemma {:induction false} ExpandConcat(f: Flags, a: string, b: string)
    ensures ExpandQuotes(f, a + b) == ExpandQuotes(f, a) + ExpandQuotes(f, b)
    decreases |a|
  {
    if a == [] {
      assert a + b == b;
    } else {
      ExpandConcat(f, a[1..], b);
      assert (a + b)[1..] == a[1..] + b;
    }
  }

  lemma {:induction false} ExpandPlain(f: Flags, a: string)
    requires QUOTE !in a
    ensures ExpandQuotes(f, a) == a
    decreases |a|
  {
    if a != [] {
      ExpandPlain(f, a[1..]);
    }
  }

  /** What stands before the first quotation mark of an expansion. */
  function Front(f: Flags, s: string): string {
    s[..FirstQuote(s)] + (if f.escape then [BACKSLASH] else [])
  }

  lemma Cut(s: string, k: nat)
    requires k < |s|
    ensures s == s[..k] + s[k..] && s[k..][1..] == s[k + 1..] && s[k..][0] == s[k]
  {
  }

  lemma CutAtQuote(s: string)
    requires QUOTE in s
    ensures var k := FirstQuote(s);
      k < |s| && QUOTE !in s[..k]
  {
    hide FirstQuote;
    var k := FirstQuote(s);
    var i :| 0 <= i < |s| && s[i] == QUOTE;
    assert k <= i;
  }

  /** The first quotation mark as it comes out, without the escape. */
  function Marks(f: Flags): string {
    if f.double then [QUOTE, QUOTE] else [QUOTE]
  }

  lemma ExpandAtQuote(f: Flags, t: string)
    requires t != [] && t[0] == QUOTE
    ensures ExpandQuotes(f, t) == ((if f.escape then [BACKSLASH] else []) + Marks(f)) + ExpandQuotes(f, t[1..])
  {
    assert Expanded(f, QUOTE) == (if f.escape then [BACKSLASH] else []) + Marks(f);
  }

  lemma {:induction false} ExpandSplit(f: Flags, s: string)
    requires QUOTE in s
    ensures QUOTE !in Front(f, s)
    ensures ExpandQuotes(f, s) == Front(f, s) + (Marks(f) + ExpandQuotes(f, s[FirstQuote(s) + 1..]))
  {
    hide ExpandQuotes, FirstQuote;
    CutAtQuote(s);
    var k := FirstQuote(s);
    Cut(s, k);
    ExpandConcat(f, s[..k], s[k..]);
    ExpandPlain(f, s[..k]);
    ExpandAtQuote(f, s[k..]);
    Assoc4(s[..k], if f.escape then [BACKSLASH] else [], Marks(f), ExpandQuotes(f, s[k + 1..]));
  }

  /** Up to its first quotation mark an expansion is the input up to its first one, and the
      escaping backslash; a doubled mark is never the last character. */
  lemma {:induction false} ExpandPrefix(f: Flags, s: string)
    requires QUOTE in s
    ensures var b := ExpandQuotes(f, s);
      && FirstQuote(b) < |b| && b[..FirstQuote(b)] == Front(f, s)
      && (f.double ==> FirstQuote(b) < |b| - 1)
  {
    hide ExpandQuotes, Front;
    ExpandSplit(f, s);
    var front, tail := Front(f, s), Marks(f) + ExpandQuotes(f, s[FirstQuote(s) + 1..]);
    FirstQuoteSkip(front, tail);
    assert FirstQuote(tail) == 0;
  }

  /** A quotation mark is noticed when the first one is: with the special test on, nothing before
      it protects. */
  lemma NoticedFirst(f: Flags, special: string, s: string)
    ensures QuoteNoticed(f, special, s) <==>
      && (f.escape || f.double) && QUOTE in s
      && (f.special ==> QUOTE !in special && !Needed(f, special, s[..FirstQuote(s)]))
  {
    var k := FirstQuote(s);
    if QUOTE in s {
      assert k < |s|;
      assert forall j :: 0 <= j < k ==> s[..k][j] == s[j];
      if QuoteNoticed(f, special, s) && f.special {
        var i :| 0 <= i < |s| && s[i] == QUOTE && forall j :: 0 <= j < i ==> !Protects(f, special, s[j]);
        assert k <= i;
      }
    }
  }

  /** With unambiguous settings every string can be recovered. */
  lemma UnprotectProtect(f: Flags, special: string, s: string)
    requires !Ambiguous(f, special)
    ensures Unprotect(f, special, Protect(f, special, s)) == s
  {
    NoticedFirst(f, special, s);
    if Needed(f, special, s) {
      if QuoteNoticed(f, special, s) {
        ExpandedComesBack(f, special, s);
      } else {
        EnclosedComesBack(f, special, s);
      }
    }
  }

  lemma ExpandedComesBack(f: Flags, special: string, s: string)
    requires !Ambiguous(f, special) && (f.escape || f.double)
    requires QUOTE in s && (f.special ==> QUOTE !in special && !Needed(f, special, s[..FirstQuote(s)]))
    ensures Unprotect(f, special, [QUOTE] + ExpandQuotes(f, s)) == s
  {
    var out, body := [QUOTE] + ExpandQuotes(f, s), ExpandQuotes(f, s);
    assert Protects(f, special, out[0]);
    assert out[1..] == body;
    ExpandPrefix(f, s);
    CollapseExpand(f, s);
    if f.special {
      var prefix := Front(f, s);
      forall i | 0 <= i < |prefix| ensures !Protects(f, special, prefix[i]) {
        if i < FirstQuote(s) {
          assert prefix[i] == s[..FirstQuote(s)][i];
        }
      }
    }
  }

  lemma EnclosedComesBack(f: Flags, special: string, s: string)
    requires !Ambiguous(f, special) && Needed(f, special, s)
    requires f.escape || f.double ==>
      !(QUOTE in s && (f.special ==> QUOTE !in special && !Needed(f, special, s[..FirstQuote(s)])))
    ensures Unprotect(f, special, [QUOTE] + s + [QUOTE]) == s
  {
    var out, body := [QUOTE] + s + [QUOTE], s + [QUOTE];
    var i :| 0 <= i < |s| && Protects(f, special, s[i]);
    assert Protects(f, special, out[i + 1]);
    assert out[1..] == body && body[..|body| - 1] == s;
    FirstQuoteOf(s);
    assert body[..FirstQuote(s)] == s[..FirstQuote(s)];
    if QUOTE !in s {
      assert FirstQuote(s) == |s| && s[..|s|] == s;
    }
  }

  /** A closing quotation mark does not move the first one. */
  lemma {:induction false} FirstQuoteOf(s: string)
    ensures FirstQuote(s + [QUOTE]) == FirstQuote(s)
    decreases |s|
  {
    if s != [] {
      FirstQuoteOf(s[1..]);
      assert (s + [QUOTE])[1..] == s[1..] + [QUOTE];
    }
  }

  ghost predicate Injective(f: Flags, special: string) {
    forall s: string, t: string :: Protect(f, special, s) == Protect(f, special, t) ==> s == t
  }

  /** Exactly when two strings never quote alike, for all settings. The shipped tables do not ask
      for escapes, so none of them is ambiguous. */
  lemma InjectiveExactly(f: Flags, special: string)
    ensures Injective(f, special) <==> !Ambiguous(f, special)
  {
    if Ambiguous(f, special) {
      if f.special {
        Collision(f, special);
      } else {
        EscapeAloneCollides(f, special);
      }
    } else {
      forall s: string, t: string | Protect(f, special, s) == Protect(f, special, t) ensures s == t {
        UnprotectProtect(f, special, s);
        UnprotectProtect(f, special, t);
      }
    }
  }

  /** A lone quotation mark comes out as what encloses a backslash, and the second mark if marks
      are doubled. */
  lemma Collision(f: Flags, special: string)
    requires f.special && Ambiguous(f, special)
    ensures !Injective(f, special)
  {
    var s: string, t: string := [QUOTE], if f.double then [BACKSLASH, QUOTE] else [BACKSLASH];
    NoticedFirst(f, special, s);
    NoticedFirst(f, special, t);
    assert s[..FirstQuote(s)] == [] && t[..FirstQuote(t)] == [BACKSLASH];
    assert Protects(f, special, s[0]) && Protects(f, special, t[0]);
    assert Protects(f, special, [BACKSLASH][0]);
    assert ExpandQuotes(f, s[1..]) == [];
    assert Protect(f, special, s) == [QUOTE] + Lead(f) + [QUOTE] == Protect(f, special, t);
  }

  /** Without doubling and the special test, escaping collides as soon as a letter calls for
      protection: a mark behind it, and a backslash behind it. */
  lemma EscapeAloneCollides(f: Flags, special: string)
    requires !f.special && Ambiguous(f, special)
    ensures !Injective(f, special)
  {
    var c := if f.upper then 'A' else 'a';
    var s: string, t: string := [c, QUOTE], [c, BACKSLASH];
    assert Protects(f, special, s[0]) && Protects(f, special, t[0]) && s[1] == QUOTE;
    assert QuoteNoticed(f, special, s) && !QuoteNoticed(f, special, t);
    assert s[1..] == [QUOTE] && ExpandQuotes(f, s[1..]) == [BACKSLASH, QUOTE] by {
      assert ExpandQuotes(f, s[1..][1..]) == [];
    }
    assert Protect(f, special, s) == [QUOTE, c, BACKSLASH, QUOTE] == Protect(f, special, t);
  }

  function Quotes(s: string): nat {
    if s == [] then 0 else (if s[0] == QUOTE then 1 else 0) + Quotes(s[1..])
  }

  lemma {:induction false} QuotesConcat(a: string, b: string)
    ensures Quotes(a + b) == Quotes(a) + Quotes(b)
    decreases |a|
  {
    if a == [] {
      assert a + b == b;
    } else {
      QuotesConcat(a[1..], b);
      assert (a + b)[1..] == a[1..] + b;
    }
  }

  lemma {:induction false} ExpandDoubles(f: Flags, s: string)
    ensures Quotes(ExpandQuotes(f, s)) == |Marks(f)| * Quotes(s)
    decreases |s|
  {
    if s != [] {
      ExpandDoubles(f, s[1..]);
      QuotesConcat(Expanded(f, s[0]), ExpandQuotes(f, s[1..]));
      ExpandedQuotes(f, s[0]);
    }
  }

  lemma ExpandedQuotes(f: Flags, c: char)
    ensures Quotes(Expanded(f, c)) == if c == QUOTE then |Marks(f)| else 0
  {
    QuotesConcat(if c == QUOTE then Lead(f) else [], [c]);
    QuotesConcat(if f.escape then [BACKSLASH] else [], if f.double then [QUOTE] else []);
    assert [c][1..] == [] && [BACKSLASH][1..] == [] && [QUOTE][1..] == [];
  }

  /** The missing closing mark: a string with a noticed quotation mark comes out with its own
      marks, doubled or not, and just one more. */
  lemma NoticedIsUnbalanced(f: Flags, special: string, s: string)
    requires QuoteNoticed(f, special, s)
    ensures Quotes(Protect(f, special, s)) == |Marks(f)| * Quotes(s) + 1
  {
    NoticedFirst(f, special, s);
    assert s[FirstQuote(s)] == QUOTE && Protects(f, special, s[FirstQuote(s)]);
    ExpandDoubles(f, s);
    assert ([QUOTE] + ExpandQuotes(f, s))[1..] == ExpandQuotes(f, s);
  }
}
