/** Building the Unix argument vector (freetds-1.00.21/vms/vmsarg_parse.c, lines 157-326): what
    the main loop computes, row by row of the mapping table. The parser's answers are arbitrary. */
module VmsArgs {
  import opened VmsKeywords

  /** One row of the mapping table, with its flag bits. */
  datatype Row = Row(
    unixArg: string, unixNarg: string, vmsKey: string, unixKey: string, separator: string, pattern: string,
    affirm: bool, negative: bool, keywords: bool, separated: bool, date: bool, append: bool)

  /** What `cli$get_value` answers: a value, with or without a comma behind it. */
  datatype Answer = Last(text: string) | Comma(text: string)

  /** What the parser says of one qualifier; after the last answer there are no more values. */
  datatype Given = Given(present: bool, answers: seq<Answer>)

  /** Conversion of a date value by a pattern. */
  type Dates = (string, string) -> string

  /** `newargv` behind slot 0, and the two variables that live on from row to row. */
  datatype St = St(args: seq<string>, template: string, more: bool)

  /** A keyword row needs as many Unix fields as VMS fields. */
  predicate RowOk(row: Row) {
    row.keywords ==> |Fields(row.vmsKey, 0)| <= |Fields(row.unixKey, 0)|
  }

  function TextAt(answers: seq<Answer>, k: nat): string {
    if k < |answers| then answers[k].text else ""
  }

  function CommaAt(answers: seq<Answer>, k: nat): bool {
    k < |answers| && answers[k].Comma?
  }

  /** The keyword of a row; a parameter has none. */
  function Keyword(row: Row, present: bool): string {
    if present then
      if row.affirm && !(row.unixArg != "" && row.unixArg[0] == '$') then row.unixArg else ""
    else if row.negative then row.unixNarg
    else ""
  }

  /** A value as it is shown to the Unix program. */
  function Shown(row: Row, text: string, dates: Dates): string
    requires RowOk(row)
  {
    var value := if row.keywords then Translate(text, row.vmsKey, row.unixKey).value else text;
    if row.date then dates(value, row.pattern) else value
  }

  function Pushed(st: St, arg: string): St {
    st.(args := st.args + [arg])
  }

  /** The row up to its first value. */
  function Begun(st: St, row: Row, g: Given): St {
    var q := Keyword(row, g.present);
    var st1 := if row.append then st.(template := q) else if q != "" then Pushed(st, q) else st;
    if g.present then st1.(more := CommaAt(g.answers, 0)) else st1
  }

  /** One value. */
  function Taken(st: St, row: Row, text: string, dates: Dates): St
    requires RowOk(row)
  {
    var t := st.template + Shown(row, text, dates);
    if row.separated then st.(template := if st.more then t + row.separator else t)
    else Pushed(st, t).(template := "")
  }

  /** The loop over the values from number `k` on; `more` belongs to that value. */
  function Values(st: St, row: Row, answers: seq<Answer>, k: nat, dates: Dates): St
    requires RowOk(row) && k <= |answers|
    decreases |answers| - k
  {
    if TextAt(answers, k) == "" then st
    else Values(Taken(st, row, answers[k].text, dates).(more := CommaAt(answers, k + 1)), row, answers, k + 1, dates)
  }

  function Closed(st: St, row: Row, multivalue: bool): St {
    if row.separated && multivalue then Pushed(st, st.template).(template := "") else st
  }

  function RowStep(st: St, row: Row, g: Given, dates: Dates): St
    requires RowOk(row)
  {
    var begun := Begun(st, row, g);
    var valued := if row.affirm && g.present then Values(begun, row, g.answers, 0, dates) else begun;
    Closed(valued, row, begun.more)
  }

  predicate TableOk(rows: seq<Row>, given: seq<Given>) {
    |rows| == |given| && forall row <- rows :: RowOk(row)
  }

  function Build(st: St, rows: seq<Row>, given: seq<Given>, dates: Dates): St
    requires TableOk(rows, given)
    decreases |rows|
  {
    if rows == [] then st
    else
      assert rows[0] in rows && forall row <- rows[1..] :: row in rows;
      Build(RowStep(st, rows[0], given[0], dates), rows[1..], given[1..], dates)
  }

  // ---------------------------------------------------------------- plain tables

  /** A row that only affirms, perhaps with keywords or dates, as in all three shipped tables. */
  predicate IsPlain(row: Row) {
    row.affirm && !row.negative && !row.separated && !row.append
  }

  /** The values up to the first missing or empty one. */
  function ShownValues(row: Row, answers: seq<Answer>, dates: Dates): seq<string>
    requires RowOk(row)
  {
    if answers == [] || answers[0].text == "" then []
    else [Shown(row, answers[0].text, dates)] + ShownValues(row, answers[1..], dates)
  }

  /** What a qualifier is meant to contribute: nothing if absent, else its keyword unless it is a
      parameter, then its values. */
  function Contribution(row: Row, g: Given, dates: Dates): seq<string>
    requires RowOk(row)
  {
    if !g.present then []
    else
      (if row.unixArg == "" || row.unixArg[0] == '$' then [] else [row.unixArg])
      + ShownValues(row, g.answers, dates)
  }

  function Contributions(rows: seq<Row>, given: seq<Given>, dates: Dates): seq<string>
    requires TableOk(rows, given)
    decreases |rows|
  {
    if rows == [] then []
    else
      assert rows[0] in rows && forall row <- rows[1..] :: row in rows;
      Contribution(rows[0], given[0], dates) + Contributions(rows[1..], given[1..], dates)
  }

  lemma {:induction false} PlainValues(st: St, row: Row, answers: seq<Answer>, k: nat, dates: Dates)
    requires RowOk(row) && IsPlain(row) && k <= |answers| && st.template == ""
    ensures var r := Values(st, row, answers, k, dates);
      r.args == st.args + ShownValues(row, answers[k..], dates) && r.template == ""
    decreases |answers| - k
  {
    hide Shown, RowOk;
    if TextAt(answers, k) != "" {
      assert answers[k..][1..] == answers[k + 1..];
      var v := Shown(row, answers[k].text, dates);
      assert "" + v == v;
      PlainValues(Taken(st, row, answers[k].text, dates).(more := CommaAt(answers, k + 1)), row, answers, k + 1, dates);
    }
  }

  lemma PlainRow(st: St, row: Row, g: Given, dates: Dates)
    requires RowOk(row) && IsPlain(row) && st.template == ""
    ensures var r := RowStep(st, row, g, dates);
      r.args == st.args + Contribution(row, g, dates) && r.template == ""
  {
    if g.present {
      PlainValues(Begun(st, row, g), row, g.answers, 0, dates);
      assert g.answers[0..] == g.answers;
    }
  }

  /** On a plain table the arguments are the contributions of the rows, in table order, whatever
      the parser answers and whatever `more_flag` holds at the start. */
  lemma {:induction false} PlainTable(st: St, rows: seq<Row>, given: seq<Given>, dates: Dates)
    requires TableOk(rows, given) && (forall row <- rows :: IsPlain(row)) && st.template == ""
    ensures Build(st, rows, given, dates).args == st.args + Contributions(rows, given, dates)
    decreases |rows|
  {
    hide RowStep, Contribution, RowOk, IsPlain;
    if rows != [] {
      assert rows[0] in rows && forall row <- rows[1..] :: row in rows;
      PlainRow(st, rows[0], given[0], dates);
      PlainTable(RowStep(st, rows[0], given[0], dates), rows[1..], given[1..], dates);
    }
  }

  // ---------------------------------------------------------------- separator rows

  /** A row that stacks its values in one argument. */
  predicate IsStacked(row: Row) {
    row.affirm && !row.negative && row.separated && !row.append
  }

  /** The values in one string, a separator wherever the parser saw a comma. */
  function Stack(row: Row, answers: seq<Answer>, dates: Dates): string
    requires RowOk(row)
  {
    if answers == [] || answers[0].text == "" then ""
    else
      Shown(row, answers[0].text, dates) + (if answers[0].Comma? then row.separator else "")
      + Stack(row, answers[1..], dates)
  }

  lemma {:induction false} StackedValues(st: St, row: Row, answers: seq<Answer>, k: nat, dates: Dates)
    requires RowOk(row) && IsStacked(row) && k <= |answers| && st.more == CommaAt(answers, k)
    ensures var r := Values(st, row, answers, k, dates);
      r.args == st.args && r.template == st.template + Stack(row, answers[k..], dates)
    decreases |answers| - k
  {
    hide Shown, RowOk;
    if TextAt(answers, k) != "" {
      assert answers[k..][1..] == answers[k + 1..];
      var taken := Taken(st, row, answers[k].text, dates);
      StackedValues(taken.(more := CommaAt(answers, k + 1)), row, answers, k + 1, dates);
    }
  }

  /** What a stacked qualifier is meant to contribute: one argument, if it has a value at all. */
  function StackedContribution(row: Row, g: Given, dates: Dates): seq<string>
    requires RowOk(row)
  {
    if !g.present then []
    else
      (if row.unixArg == "" || row.unixArg[0] == '$' then [] else [row.unixArg])
      + (if TextAt(g.answers, 0) == "" then [] else [Stack(row, g.answers, dates)])
  }

  /** When a stacked row does what it is meant to: a present qualifier has either no value or at
      least two, and for an absent one `more_flag` is not left over from an earlier row. */
  predicate StacksWell(st: St, g: Given) {
    if g.present then (TextAt(g.answers, 0) != "" <==> CommaAt(g.answers, 0)) else !st.more
  }

  /** The condition is exact. A single value is not pushed: it stays in the template, in front of
      whatever value comes next. */
  lemma StackedRowExactly(st: St, row: Row, g: Given, dates: Dates)
    requires RowOk(row) && IsStacked(row) && st.template == ""
    ensures var r := RowStep(st, row, g, dates);
      && (r.args == st.args + StackedContribution(row, g, dates) <==> StacksWell(st, g))
      && (g.present && TextAt(g.answers, 0) != "" && !CommaAt(g.answers, 0) ==>
            r.template == Stack(row, g.answers, dates))
  {
    if g.present {
      var begun := Begun(st, row, g);
      StackedValues(begun, row, g.answers, 0, dates);
      assert g.answers[0..] == g.answers;
      assert "" + Stack(row, g.answers, dates) == Stack(row, g.answers, dates);
      assert begun.args == st.args + if row.unixArg == "" || row.unixArg[0] == '$' then [] else [row.unixArg];
      assert |RowStep(st, row, g, dates).args| == |begun.args| + if begun.more then 1 else 0;
    } else {
      assert |RowStep(st, row, g, dates).args| == |st.args| + if st.more then 1 else 0;
    }
  }
}
