/** Quoting of one argument (freetds-1.00.21/vms/vmsarg_parse.c, lines 683-764). */
module VmsQuote {

  const QUOTE := '\"'
  const BACKSLASH := '\\'

  /** The action bits that ask for protection (vmsarg's vargdefs.h). */
  datatype Flags = Flags(upper: bool, lower: bool, special: bool, escape: bool, double: bool)

  predicate IsUpper(c: char) { 'A' <= c <= 'Z' }

  predicate IsLower(c: char) { 'a' <= c <= 'z' }

  /** A character that makes quotation marks necessary. */
  predicate Protects(f: Flags, special: string, c: char) {
    || (f.upper && IsUpper(c))
    || (f.lower && IsLower(c))
    || (f.special && c in special)
    || ((f.escape || f.double) && c == QUOTE)
  }

  predicate Needed(f: Flags, special: string, s: string) {
    exists i :: 0 <= i < |s| && Protects(f, special, s[i])
  }

  /** Whether a quotation mark is noticed. With the special-character test on, it is noticed only
      if it is not itself special and nothing before it called for protection already. */
  ghost predicate QuoteNoticed(f: Flags, special: string, s: string) {
    && (f.escape || f.double)
    && exists i :: 0 <= i < |s| && s[i] == QUOTE
         && (f.special ==> QUOTE !in special && forall j :: 0 <= j < i ==> !Protects(f, special, s[j]))
  }

  /** What stands in front of a quotation mark of the input. */
  function Lead(f: Flags): string {
    (if f.escape then [BACKSLASH] else []) + (if f.double then [QUOTE] else [])
  }

  function Expanded(f: Flags, c: char): string {
    (if c == QUOTE then Lead(f) else []) + [c]
  }

  /** The quotation marks of a string, escaped and doubled as the flags say. */
  function ExpandQuotes(f: Flags, s: string): string {
    if s == [] then [] else Expanded(f, s[0]) + ExpandQuotes(f, s[1..])
  }

  /** What the routine produces. The branch for a noticed quotation mark adds no closing one. */
  ghost function Protect(f: Flags, special: string, s: string): string {
    if !Needed(f, special, s) then s
    else if QuoteNoticed(f, special, s) then [QUOTE] + ExpandQuotes(f, s)
    else [QUOTE] + s + [QUOTE]
  }

  // ---------------------------------------------------------------- the loops

  /** `varg_protect_string`, with the output buffer as an array of at least the needed size. */
  method ProtectString(instring: string, outstring: array<char>, f: Flags, special: string) returns (length: nat)
    requires outstring.Length >= 3 * |instring| + 3
    requires '\0' !in instring
    modifies outstring
    ensures length < outstring.Length && outstring[length] == '\0'
    ensures outstring[..length] == Protect(f, special, instring)
  {
    var needed, quotePresent := Scan(instring, f, special);
    if !needed {
      length := Copy(outstring, 0, instring);
    } else if quotePresent {
      length := CopyExpanded(outstring, instring, f);
    } else {
      outstring[0] := QUOTE;
      length := Copy(outstring, 1, instring);
      outstring[length] := QUOTE;
      length := length + 1;
      assert outstring[..length] == [QUOTE] + instring + [QUOTE];
    }
    outstring[length] := '\0';
  }

  /** `strcpy` at an offset, without the terminator */
  method Copy(out: array<char>, at: nat, s: string) returns (end: nat)
    requires at + |s| <= out.Length
    modifies out
    ensures end == at + |s|
    ensures out[..at] == old(out[..at]) && out[at..end] == s
  {
    for i := 0 to |s|
      invariant out[..at] == old(out[..at]) && out[at..at + i] == s[..i]
    {
      out[at + i] := s[i];
    }
    end := at + |s|;
  }

  /** The first loop: is protection needed, and is a quotation mark noticed? */
  method Scan(s: string, f: Flags, special: string) returns (needed: bool, quotePresent: bool)
    ensures needed == Needed(f, special, s)
    ensures quotePresent == QuoteNoticed(f, special, s)
  {
    needed, quotePresent := false, false;
    if f.upper || f.lower || f.special || f.escape || f.double {
      for i := 0 to |s|
        invariant needed == Needed(f, special, s[..i])
        invariant quotePresent == QuoteNoticed(f, special, s[..i])
      {
        var ch := s[i];
        ScanOne(f, special, s, i);
        if f.upper && IsUpper(ch) {
          needed := true;
          continue;
        }
        if f.lower && IsLower(ch) {
          needed := true;
          continue;
        }
        if f.special {
          if ch in special {
            needed := true;
          }
          if needed {
            continue;
          }
        }
        if (f.escape || f.double) && ch == QUOTE {
          needed := true;
          quotePresent := true;
        }
      }
      assert s[..|s|] == s;
    }
  }

  /** How one more character changes the two answers. */
  lemma ScanOne(f: Flags, special: string, s: string, i: nat)
    requires i < |s|
    ensures Needed(f, special, s[..i + 1]) <==> Needed(f, special, s[..i]) || Protects(f, special, s[i])
    ensures QuoteNoticed(f, special, s[..i + 1]) <==>
      || QuoteNoticed(f, special, s[..i])
      || ((f.escape || f.double) && s[i] == QUOTE
          && (f.special ==> QUOTE !in special && !Needed(f, special, s[..i])))
  {
    var a, b := s[..i], s[..i + 1];
    assert b == a + [s[i]];
    assert b[i] == s[i] && forall k :: 0 <= k < i ==> b[k] == a[k];
    if Needed(f, special, a) {
      var k :| 0 <= k < |a| && Protects(f, special, a[k]);
      assert Protects(f, special, b[k]);
    }
    if QuoteNoticed(f, special, a) {
      var k :| 0 <= k < |a| && a[k] == QUOTE
        && (f.special ==> QUOTE !in special && forall j :: 0 <= j < k ==> !Protects(f, special, a[j]));
      assert b[k] == QUOTE;
    }
  }

  /** One character of the second loop. */
  method PutExpanded(out: array<char>, at: nat, ch: char, f: Flags) returns (j: nat)
    requires at + 3 <= out.Length
    modifies out
    ensures j <= at + 3 && j <= out.Length && out[..j] == old(out[..at]) + Expanded(f, ch)
  {
    j := at;
    if ch == QUOTE {
      if f.escape {
        out[j] := BACKSLASH;
        j := j + 1;
      }
      if f.double {
        out[j] := QUOTE;
        j := j + 1;
      }
    }
    out[j] := ch;
    j := j + 1;
  }

  /** The second loop: two cursors, one on the input and one on the output. */
  method CopyExpanded(out: array<char>, s: string, f: Flags) returns (j: nat)
    requires out.Length >= 3 * |s| + 1
    modifies out
    ensures j <= 3 * |s| + 1 && out[..j] == [QUOTE] + ExpandQuotes(f, s)
  {
    out[0] := QUOTE;
    j := 1;
    for i := 0 to |s|
      invariant 1 <= j <= 3 * i + 1
      invariant out[..j] + ExpandQuotes(f, s[i..]) == [QUOTE] + ExpandQuotes(f, s)
    {
      j := PutExpanded(out, j, s[i], f);
      assert s[i..][1..] == s[i + 1..];
    }
    assert out[..j] + [] == out[..j];
  }
}
