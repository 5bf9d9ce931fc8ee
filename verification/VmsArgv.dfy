/** The main loop of `parse_vms_args` as the C code runs it: a fixed array of argument slots, a
    counter, and the two variables that keep their value from row to row
    (freetds-1.00.21/vms/vmsarg_parse.c, lines 157-326). */
module VmsArgv {
  import opened VmsKeywords
  import opened VmsArgs
  import opened VmsArgLaws

  const MAX_ARGS: nat := 255

  class Builder {
    const newargv: array<string>
    var argCount: nat
    var valueTemplate: string
    var moreFlag: bool
    // Set when an argument had no slot: slot 255 does not exist, and the counter is only
    // checked against going above 255. Nothing is said about the run from there on.
    var overrun: bool

    ghost predicate Valid()
      reads this, newargv
    {
      newargv.Length == MAX_ARGS && argCount < MAX_ARGS
    }

    /** The state is `st`; once an argument did not fit, the slots are no longer described. */
    ghost predicate Holds(st: St)
      reads this, newargv
    {
      && Valid() && valueTemplate == st.template && moreFlag == st.more
      && (!overrun ==> newargv[1..argCount + 1] == st.args)
      && (overrun ==> |st.args| >= MAX_ARGS)
    }

    constructor (garbage: bool)
      ensures fresh(newargv) && !overrun && Holds(St([], "", garbage))
    {
      newargv := new string[MAX_ARGS];
      argCount, valueTemplate, moreFlag, overrun := 0, "", garbage, false;
    }

    /** `Increment` and the copy into the slot. */
    method Push(arg: string, ghost st: St)
      requires Holds(st)
      modifies this`argCount, this`overrun, newargv
      ensures Holds(Pushed(st, arg))
    {
      if overrun {
        return;
      }
      if argCount + 1 == MAX_ARGS {
        overrun := true;
        return;
      }
      argCount := argCount + 1;
      newargv[argCount] := arg;
    }

    /** From the flags of a row to its first value. */
    method Begin(row: Row, g: Given, ghost st: St)
      requires Holds(st)
      modifies this, newargv
      ensures Holds(Begun(st, row, g))
    {
      var qualTemplate := "";
      if g.present && row.affirm {
        if !(row.unixArg != "" && row.unixArg[0] == '$') {
          qualTemplate := row.unixArg;
        }
      }
      if !g.present && row.negative {
        qualTemplate := row.unixNarg;
      }
      ghost var after := st;
      if row.append {
        valueTemplate := qualTemplate;
        after := st.(template := qualTemplate);
      } else if qualTemplate != "" {
        Push(qualTemplate, st);
        after := Pushed(st, qualTemplate);
      }
      if g.present {
        moreFlag := CommaAt(g.answers, 0);
      }
    }

    /** One value: translate, convert, and stack it or give it its own slot. */
    method Take(row: Row, text: string, dates: Dates, ghost st: St)
      requires Holds(st) && RowOk(row)
      modifies this, newargv
      ensures Holds(Taken(st, row, text, dates))
    {
      var value := text;
      if row.keywords {
        var translated := TranslateKeyword(value, row.vmsKey, row.unixKey);
        value := translated.value;
      }
      if row.date {
        value := dates(value, row.pattern);
      }
      ghost var after := st.(template := st.template + value);
      valueTemplate := valueTemplate + value;
      if row.separated {
        if moreFlag {
          valueTemplate := valueTemplate + row.separator;
        }
      } else {
        Push(valueTemplate, after);
        valueTemplate := "";
      }
    }

    /** The loop over the values of a qualifier. */
    method TakeAll(row: Row, g: Given, dates: Dates, ghost st: St)
      requires Holds(st) && RowOk(row)
      modifies this, newargv
      ensures Holds(Values(st, row, g.answers, 0, dates))
    {
      hide Taken, RowOk, Holds;
      ghost var now := st;
      var k := 0;
      while TextAt(g.answers, k) != ""
        invariant k <= |g.answers| && Holds(now)
        invariant Values(now, row, g.answers, k, dates) == Values(st, row, g.answers, 0, dates)
        decreases |g.answers| - k
      {
        Take(row, g.answers[k].text, dates, now);
        now := Taken(now, row, g.answers[k].text, dates);
        k := k + 1;
        Comma(CommaAt(g.answers, k), now);
        now := now.(more := CommaAt(g.answers, k));
      }
    }

    /** What the parser says of a comma behind the value */
    method Comma(more: bool, ghost st: St)
      requires Holds(st)
      modifies this`moreFlag
      ensures Holds(st.(more := more))
    {
      moreFlag := more;
    }

    /** One row of the table. */
    method DoRow(row: Row, g: Given, dates: Dates, ghost st: St)
      requires Holds(st) && RowOk(row)
      modifies this, newargv
      ensures Holds(RowStep(st, row, g, dates))
    {
      hide Begun, Values, RowOk;
      Begin(row, g, st);
      ghost var now := Begun(st, row, g);
      var multivalue := moreFlag;
      if row.affirm && g.present {
        TakeAll(row, g, dates, now);
        now := Values(now, row, g.answers, 0, dates);
      }
      if row.separated && multivalue {
        Push(valueTemplate, now);
        valueTemplate := "";
      }
    }

    /** The whole table, and the slot for the program name. */
    method Parse(rows: seq<Row>, given: seq<Given>, dates: Dates, argv0: string) returns (argc: nat)
      requires TableOk(rows, given) && Valid() && argCount == 0 && valueTemplate == "" && !overrun
      modifies this, newargv
      ensures var built := Build(St([], "", old(moreFlag)), rows, given, dates);
        && (!overrun <==> |built.args| < MAX_ARGS)
        && (!overrun ==> argc == |built.args| + 1 && argc <= newargv.Length
                         && newargv[0] == argv0 && newargv[1..argc] == built.args)
    {
      ghost var now := St([], "", moreFlag);
      ghost var all := Build(now, rows, given, dates);
      assert rows[0..] == rows && given[0..] == given;
      for i := 0 to |rows|
        invariant Holds(now)
        invariant TableOk(rows[i..], given[i..]) && Build(now, rows[i..], given[i..], dates) == all
      {
        assert rows[i] in rows;
        assert rows[i..][1..] == rows[i + 1..] && given[i..][1..] == given[i + 1..];
        assert forall row <- rows[i + 1..] :: row in rows;
        DoRow(rows[i], given[i], dates, now);
        now := RowStep(now, rows[i], given[i], dates);
      }
      assert now == all;
      argc := argCount + 1;
      newargv[0] := argv0;
    }
  }

  /** The command line a plain table produces: exactly the contributions of its rows behind the
      program name, provided they are at most 254. */
  method ParsePlain(rows: seq<Row>, given: seq<Given>, dates: Dates, argv0: string, garbage: bool)
    returns (argv: array<string>, argc: nat, fits: bool)
    requires TableOk(rows, given) && forall row <- rows :: IsPlain(row)
    ensures fits <==> |Contributions(rows, given, dates)| <= 254
    ensures fits ==> argc <= argv.Length && argv[..argc] == [argv0] + Contributions(rows, given, dates)
    ensures fits && (forall row <- rows :: !row.keywords && !row.date) ==> argv[..argc] == [argv0] + Line(rows, given)
  {
    hide Build, Contributions, RowOk, IsPlain;
    var b := new Builder(garbage);
    argc := b.Parse(rows, given, dates, argv0);
    PlainTable(St([], "", garbage), rows, given, dates);
    argv, fits := b.newargv, !b.overrun;
    assert [] + Contributions(rows, given, dates) == Contributions(rows, given, dates);
    if forall row <- rows :: !row.keywords && !row.date {
      RawLine(rows, given, dates);
    }
    if fits {
      Front(argv[..], argc);
      assert argv[..][..argc] == argv[..argc] && argv[..][1..argc] == argv[1..argc];
    }
  }

  lemma Front(s: seq<string>, n: nat)
    requires 1 <= n <= |s|
    ensures s[..n] == [s[0]] + s[1..n]
  {
  }
}
