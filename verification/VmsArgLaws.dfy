/** What the values of a qualifier become, said of the arguments themselves. */
module VmsArgLaws {
  import opened Wrappers
  import opened Sequences
  import opened VmsKeywords
  import opened VmsArgs

  /** The values up to the first missing or empty one, as the parser gave them. */
  function Texts(answers: seq<Answer>): seq<string> {
    if answers == [] || answers[0].text == "" then [] else [answers[0].text] + Texts(answers[1..])
  }

  /** `unix` is what the keyword lists make of `text`: the field with the number of the first field it
      equals, or the text itself if it equals none. */
  ghost predicate Translates(row: Row, text: string, unix: string) {
    var from, to := Fields(row.vmsKey, 0), Fields(row.unixKey, 0);
    && (text !in from ==> unix == text)
    && forall i :: 0 <= i < |from| && from[i] == text && text !in from[..i] ==> i < |to| && unix == to[i]
  }

  /** What a value is to become, by the flags of its row. */
  ghost predicate Becomes(row: Row, text: string, value: string, dates: Dates) {
    && (!row.keywords && !row.date ==> value == text)
    && (!row.keywords && row.date ==> value == dates(text, row.pattern))
    && (row.keywords && !row.date ==> Translates(row, text, value))
    && (row.keywords && row.date ==> exists unix :: Translates(row, text, unix) && value == dates(unix, row.pattern))
  }

  lemma TranslationIs(row: Row, text: string)
    requires RowOk(row) && row.keywords
    ensures Translates(row, text, Translate(text, row.vmsKey, row.unixKey).value)
  {
    TranslateMeans(text, row.vmsKey, row.unixKey);
  }

  lemma ShownBecomes(row: Row, text: string, dates: Dates)
    requires RowOk(row)
    ensures Becomes(row, text, Shown(row, text, dates), dates)
  {
    if row.keywords {
      TranslationIs(row, text);
      var unix := Translate(text, row.vmsKey, row.unixKey).value;
      hide Translates, Translate;
      assert Translates(row, text, unix);
    }
  }

  /** Every value becomes what its row's flags ask for: itself, its date, its keyword, or the date of its
      keyword. */
  lemma {:induction false} ValuesBecome(row: Row, answers: seq<Answer>, dates: Dates)
    requires RowOk(row)
    ensures var values, texts := ShownValues(row, answers, dates), Texts(answers);
      |values| == |texts| && forall k :: 0 <= k < |values| ==> Becomes(row, texts[k], values[k], dates)
    decreases |answers|
  {
    hide Becomes, Shown, RowOk;
    if answers != [] && answers[0].text != "" {
      ShownBecomes(row, answers[0].text, dates);
      ValuesBecome(row, answers[1..], dates);
    }
  }

  // ---------------------------------------------------------------- tables without keywords and dates

  predicate IsRaw(row: Row) {
    !row.keywords && !row.date
  }

  /** What a table of raw, plain rows is to put on the command line: for each present qualifier its
      keyword, unless it is a parameter, and its values as they were given. */
  function Line(rows: seq<Row>, given: seq<Given>): seq<string>
    requires |rows| == |given|
    decreases |rows|
  {
    if rows == [] then []
    else
      var row, g := rows[0], given[0];
      (if !g.present then []
       else (if row.unixArg != "" && row.unixArg[0] != '$' then [row.unixArg] else []) + Texts(g.answers))
      + Line(rows[1..], given[1..])
  }

  lemma RawValues(row: Row, answers: seq<Answer>, dates: Dates)
    requires RowOk(row) && IsRaw(row)
    ensures ShownValues(row, answers, dates) == Texts(answers)
  {
    ValuesBecome(row, answers, dates);
  }

  lemma {:induction false} RawLine(rows: seq<Row>, given: seq<Given>, dates: Dates)
    requires TableOk(rows, given) && forall row <- rows :: IsRaw(row)
    ensures Contributions(rows, given, dates) == Line(rows, given)
    decreases |rows|
  {
    hide ShownValues, RowOk;
    if rows != [] {
      assert rows[0] in rows && forall row <- rows[1..] :: row in rows;
      RawValues(rows[0], given[0].answers, dates);
      RawLine(rows[1..], given[1..], dates);
    }
  }

  // ---------------------------------------------------------------- all rows that do not stack

  /** The keyword a row gives its qualifier. */
  function Named(row: Row, present: bool): string {
    if present then (if row.affirm && (row.unixArg == "" || row.unixArg[0] != '$') then row.unixArg else "")
    else if row.negative then row.unixNarg else ""
  }

  /** A row without a separator, affirming, negating or appending: the keyword is an argument of its
      own, or with `append` is put in front of the first value, and waits in the template if there is
      none; what was waiting in the template is put in front of the first value too; every further
      value is an argument of its own. */
  lemma RowExactly(st: St, row: Row, g: Given, dates: Dates)
    requires RowOk(row) && !row.separated
    ensures var r, q := RowStep(st, row, g, dates), Named(row, g.present);
      var values := if row.affirm && g.present then ShownValues(row, g.answers, dates) else [];
      var front := if row.append then q else st.template;
      && r.args == st.args + (if row.append || q == "" then [] else [q])
                   + (if values == [] then [] else [front + values[0]] + values[1..])
      && r.template == (if values == [] then front else "")
  {
    BegunIs(st, row, g);
    hide Begun, Named, ShownValues, Values, RowOk;
    var begun := Begun(st, row, g);
    if row.affirm && g.present {
      ValuesExactly(begun, row, g.answers, 0, dates);
      assert g.answers[0..] == g.answers;
    } else {
      assert begun.args + [] == begun.args;
    }
  }

  lemma BegunIs(st: St, row: Row, g: Given)
    ensures var r, q := Begun(st, row, g), Named(row, g.present);
      && r.args == st.args + (if row.append || q == "" then [] else [q])
      && r.template == if row.append then q else st.template
  {
    assert st.args + [] == st.args;
  }

  lemma {:induction false} ValuesExactly(st: St, row: Row, answers: seq<Answer>, k: nat, dates: Dates)
    requires RowOk(row) && !row.separated && k <= |answers|
    ensures var r, values := Values(st, row, answers, k, dates), ShownValues(row, answers[k..], dates);
      && r.args == st.args + (if values == [] then [] else [st.template + values[0]] + values[1..])
      && r.template == (if values == [] then st.template else "")
    decreases |answers| - k
  {
    hide Shown, RowOk;
    if TextAt(answers, k) != "" {
      assert answers[k..][1..] == answers[k + 1..];
      var v := Shown(row, answers[k].text, dates);
      var next := Taken(st, row, answers[k].text, dates).(more := CommaAt(answers, k + 1));
      ValuesExactly(next, row, answers, k + 1, dates);
      var rest := ShownValues(row, answers[k + 1..], dates);
      assert ShownValues(row, answers[k..], dates) == [v] + rest;
      hide ShownValues, Values;
      Unfronted(rest);
      Assoc(st.args, [st.template + v], rest);
      assert ([v] + rest)[1..] == rest;
    } else {
      assert st.args + [] == st.args;
    }
  }

  lemma Unfronted(values: seq<string>)
    ensures values == if values == [] then [] else ["" + values[0]] + values[1..]
  {
    assert values != [] ==> "" + values[0] == values[0];
  }

  /** A raw separator row stacks its values as they were given, a separator after each comma. */
  lemma {:induction false} RawStack(row: Row, answers: seq<Answer>, dates: Dates)
    requires RowOk(row) && IsRaw(row)
    ensures Stack(row, answers, dates) == StackedTexts(answers, row.separator)
    decreases |answers|
  {
    if answers != [] && answers[0].text != "" {
      RawStack(row, answers[1..], dates);
    }
  }

  function StackedTexts(answers: seq<Answer>, separator: string): string {
    if answers == [] || answers[0].text == "" then ""
    else answers[0].text + (if answers[0].Comma? then separator else "") + StackedTexts(answers[1..], separator)
  }
}
