/** Date conversion (freetds-1.00.21/vms/vmsarg_parse.c, lines 460-656): the fields of the VMS
    date text, and their substitution into a pattern. */
module VmsDate {

  /** A moment as `sys$asctim` prints it. */
  datatype Moment = Moment(day: nat, month: nat, year: nat, hour: nat, minute: nat, second: nat, hundredth: nat)

  predicate IsMoment(m: Moment) {
    1 <= m.day <= 31 && 1 <= m.month <= 12 && m.year <= 9999 && m.hour <= 23 && m.minute <= 59 && m.second <= 59
    && m.hundredth <= 99
  }

  function Digit(d: nat): (c: char)
    requires d <= 9
    ensures c != '\0'
  {
    "0123456789"[d]
  }

  function TwoDigits(n: nat): (r: string)
    requires n <= 99
    ensures |r| == 2 && '\0' !in r
  {
    [Digit(n / 10), Digit(n % 10)]
  }

  /** `%d` of a number below 100 */
  function Decimal(n: nat): (r: string)
    requires n <= 99
    ensures |r| <= 2 && '\0' !in r
  {
    if n <= 9 then [Digit(n)] else TwoDigits(n)
  }

  const UPPER_MONTHS: seq<string> :=
    ["JAN", "FEB", "MAR", "APR", "MAY", "JUN", "JUL", "AUG", "SEP", "OCT", "NOV", "DEC"]
  const MONTHS: seq<string> :=
    ["Jan", "Feb", "Mar", "Apr", "May", "Jun", "Jul", "Aug", "Sep", "Oct", "Nov", "Dec"]

  function UpperMonth(month: nat): (name: string)
    requires 1 <= month <= 12
    ensures |name| == 3
  {
    UPPER_MONTHS[month - 1]
  }

  /** "Jan" to "Dec" */
  function Month(month: nat): (name: string)
    requires 1 <= month <= 12
    ensures |name| == 3 && '\0' !in name
  {
    MONTHS[month - 1]
  }

  /** The VMS text, 23 characters: the day is padded with a blank, the month is in capitals. */
  function Asctim(m: Moment): string
    requires IsMoment(m)
  {
    var month := UpperMonth(m.month);
    [if m.day <= 9 then ' ' else Digit(m.day / 10), Digit(m.day % 10), '-',
     month[0], month[1], month[2], '-',
     Digit(m.year / 1000), Digit(m.year / 100 % 10), Digit(m.year % 100 / 10), Digit(m.year % 100 % 10), ' ',
     Digit(m.hour / 10), Digit(m.hour % 10), ':', Digit(m.minute / 10), Digit(m.minute % 10), ':',
     Digit(m.second / 10), Digit(m.second % 10), '.', Digit(m.hundredth / 10), Digit(m.hundredth % 10)]
  }

  /** The fields a pattern can ask for. */
  datatype DateFields = DateFields(
    year4: string, year2: string, monthName: string, month2: string, month1: string,
    date2: string, date1: string, hour2: string, hour1: string, minute: string, second: string)

  /** What the fields are meant to be. */
  function FieldsOf(m: Moment): DateFields
    requires IsMoment(m)
  {
    DateFields(
      [Digit(m.year / 1000), Digit(m.year / 100 % 10)] + TwoDigits(m.year % 100), TwoDigits(m.year % 100),
      Month(m.month), TwoDigits(m.month), Decimal(m.month),
      TwoDigits(m.day), Decimal(m.day), TwoDigits(m.hour), Decimal(m.hour),
      TwoDigits(m.minute), TwoDigits(m.second))
  }

  const NUL := '\0'

  /** The C string at the start of a buffer. */
  function CString(cells: string): (s: string)
    ensures NUL !in s && |s| <= |cells|
  {
    if cells == [] || cells[0] == NUL then [] else [cells[0]] + CString(cells[1..])
  }

  /** The fields as the code leaves them. The two-digit year is terminated one cell too late, so
      it goes on with whatever is in the cell before. */
  function RawFields(m: Moment, garbage: char): DateFields
    requires IsMoment(m)
  {
    FieldsOf(m).(year2 := TwoDigits(m.year % 100) + CString([garbage]))
  }

  function ToLower(c: char): char {
    if 'A' <= c <= 'Z' then c - 'A' + 'a' else c
  }

  lemma MonthCase(month: nat)
    requires 1 <= month <= 12
    ensures var u := UpperMonth(month);
      Month(month) == [u[0], ToLower(u[1]), ToLower(u[2])]
  {
  }

  method SplitDay(text: string, ghost m: Moment) returns (date2: string, date1: string)
    requires IsMoment(m) && text == Asctim(m)
    ensures date2 == TwoDigits(m.day) && date1 == Decimal(m.day)
  {
    if text[0] == ' ' {
      date2, date1 := ['0', text[1]], [text[1]];
    } else {
      date2 := [text[0], text[1]];
      date1 := date2;
    }
  }

  method SplitMonth(text: string, ghost m: Moment) returns (name: string, month2: string, month1: string)
    requires IsMoment(m) && text == Asctim(m)
    ensures name == Month(m.month) && month2 == TwoDigits(m.month) && month1 == Decimal(m.month)
  {
    MonthCase(m.month);
    name := [text[3], ToLower(text[4]), ToLower(text[5])];
    var month := MonthNumber(name, m.month);
    month2, month1 := TwoDigits(month), Decimal(month);
  }

  method SplitHour(text: string, ghost m: Moment) returns (hour2: string, hour1: string)
    requires IsMoment(m) && text == Asctim(m)
    ensures hour2 == TwoDigits(m.hour) && hour1 == Decimal(m.hour)
  {
    hour2 := [text[12], text[13]];
    hour1 := if text[12] == '0' then [text[13]] else hour2;
  }

  lemma YearCells(a: char, b: char, garbage: char)
    requires a != NUL && b != NUL
    ensures CString([a, b, garbage, NUL]) == [a, b] + CString([garbage])
  {
    var cells := [a, b, garbage, NUL];
    assert cells[1..] == [b, garbage, NUL] && cells[1..][1..] == [garbage, NUL];
    assert [garbage, NUL][1..] == [NUL] && [garbage][1..] == [];
    assert CString(cells) == [a] + CString(cells[1..]) && CString(cells[1..]) == [b] + CString([garbage, NUL]);
    assert CString([garbage, NUL]) == CString([garbage]);
  }

  /** `garbage` is what the third cell of the two-digit year holds. */
  method SplitYear(text: string, garbage: char, ghost m: Moment) returns (year4: string, year2: string)
    requires IsMoment(m) && text == Asctim(m)
    ensures year2 == TwoDigits(m.year % 100) + CString([garbage])
    ensures year4 == [Digit(m.year / 1000), Digit(m.year / 100 % 10)] + TwoDigits(m.year % 100)
  {
    year2 := CString([text[9], text[10], garbage, NUL]);
    YearCells(text[9], text[10], garbage);
    year4 := [text[7], text[8], text[9], text[10]];
  }

  /** Cutting the text into fields, by position. */
  method SplitDate(text: string, garbage: char, ghost m: Moment) returns (f: DateFields)
    requires IsMoment(m) && text == Asctim(m)
    ensures f == RawFields(m, garbage)
  {
    var date2, date1 := SplitDay(text, m);
    var name, month2, month1 := SplitMonth(text, m);
    var year4, year2 := SplitYear(text, garbage, m);
    var hour2, hour1 := SplitHour(text, m);
    var minute, second := [text[15], text[16]], [text[18], text[19]];
    assert minute == TwoDigits(m.minute) && second == TwoDigits(m.second);
    f := DateFields(year4, year2, name, month2, month1, date2, date1, hour2, hour1, minute, second);
  }

  /** The month number, by looking the name up. */
  method MonthNumber(name: string, ghost month: nat) returns (i: nat)
    requires 1 <= month <= 12 && name == Month(month)
    ensures i == month
  {
    i := 1;
    while i <= 12
      invariant 1 <= i <= month
      decreases 12 - i
    {
      if name == Month(i) {
        return i;
      }
      i := i + 1;
    }
  }
}
