/** What each escape letter of a date pattern gives, said about numbers. */
module DateLaws {
  import opened VmsDate
  import opened VmsPattern

  /** The digits as a number. */
  predicate Numeral(s: string) { s != "" && forall i :: 0 <= i < |s| ==> '0' <= s[i] <= '9' }

  function Number(s: string): nat
    requires forall i :: 0 <= i < |s| ==> '0' <= s[i] <= '9'
  {
    if s == "" then 0 else 10 * Number(s[..|s| - 1]) + ((s[|s| - 1] - '0') as int)
  }

  /** So many digits that say `n`. */
  predicate Padded(s: string, width: nat, n: nat) { Numeral(s) && |s| == width && Number(s) == n }

  /** The digits that say `n`, no zero in front of another digit. */
  predicate Shortest(s: string, n: nat) { Numeral(s) && Number(s) == n && (|s| > 1 ==> s[0] != '0') }

  lemma OneDigit(n: nat)
    requires n <= 9
    ensures Padded([Digit(n)], 1, n)
  {
    assert [Digit(n)][..0] == "";
  }

  lemma DigitBehind(s: string, width: nat, high: nat, n: nat)
    requires Padded(s, width, high) && n <= 9
    ensures Padded(s + [Digit(n)], width + 1, 10 * high + n)
  {
    var t := s + [Digit(n)];
    assert t[..|t| - 1] == s;
    OneDigit(n);
  }

  lemma TwoDigitsSay(n: nat)
    requires n <= 99
    ensures Padded(TwoDigits(n), 2, n) && Shortest(Decimal(n), n)
  {
    OneDigit(n % 10);
    OneDigit(n / 10);
    DigitBehind([Digit(n / 10)], 1, n / 10, n % 10);
    assert [Digit(n / 10)] + [Digit(n % 10)] == TwoDigits(n);
  }

  lemma FourDigitsSay(a: nat, b: nat, n: nat)
    requires a <= 9 && b <= 9 && n <= 99
    ensures Padded([Digit(a), Digit(b)] + TwoDigits(n), 4, 1000 * a + 100 * b + n)
  {
    hide Number, Numeral, Digit;
    var front := [Digit(a), Digit(b)];
    OneDigit(a);
    DigitBehind([Digit(a)], 1, a, b);
    assert [Digit(a)] + [Digit(b)] == front;
    DigitBehind(front, 2, 10 * a + b, n / 10);
    DigitBehind(front + [Digit(n / 10)], 3, 10 * (10 * a + b) + n / 10, n % 10);
    assert front + [Digit(n / 10)] + [Digit(n % 10)] == front + TwoDigits(n);
  }

  lemma YearSays(year: nat)
    requires year <= 9999
    ensures Padded([Digit(year / 1000), Digit(year / 100 % 10)] + TwoDigits(year % 100), 4, year)
  {
    hide Number, Numeral, Digit, TwoDigits, Padded;
    FourDigitsSay(year / 1000, year / 100 % 10, year % 100);
    assert year == 1000 * (year / 1000) + 100 * (year / 100 % 10) + year % 100;
  }

  lemma PairAlone(f: DateFields, c: char)
    ensures Expand(f, [ESCAPE, c]) == Field(f, c)
  {
    assert [ESCAPE, c][2..] == "";
  }

  /** The text for `$c` */
  function Shown(m: Moment, c: char): string
    requires IsMoment(m)
  {
    Expand(FieldsOf(m), [ESCAPE, c])
  }

  /** Each letter asks for one field. */
  lemma LettersAsk(m: Moment)
    requires IsMoment(m)
    ensures var f := FieldsOf(m);
      && Shown(m, 'Y') == f.year4 && Shown(m, 'y') == f.year2 && Shown(m, 'M') == f.monthName
      && Shown(m, 'N') == f.month2 && Shown(m, 'n') == f.month1 && Shown(m, 'D') == f.date2
      && Shown(m, 'd') == f.date1 && Shown(m, 'H') == f.hour2 && Shown(m, 'h') == f.hour1
      && Shown(m, 'm') == f.minute && Shown(m, 'S') == f.second && Shown(m, 's') == f.second
      && Shown(m, '$') == "$" && forall c :: c !in "YyMNnDdHhmSs$" ==> Shown(m, c) == ""
  {
    hide FieldsOf, Expand;
    forall c ensures Shown(m, c) == Field(FieldsOf(m), c) {
      PairAlone(FieldsOf(m), c);
    }
  }

  const ENGLISH: map<nat, string> := map[
    1 := "Jan", 2 := "Feb", 3 := "Mar", 4 := "Apr", 5 := "May", 6 := "Jun",
    7 := "Jul", 8 := "Aug", 9 := "Sep", 10 := "Oct", 11 := "Nov", 12 := "Dec"]

  /** Each letter gives its part of the moment: a capital letter all the digits, a small one the shortest
      form, but for the year, where the small letter gives the last two digits, for the minute, which is
      `m` with two digits because `M` is the month's name, and for the second, where the case does not
      matter. */
  lemma LettersGive(m: Moment)
    requires IsMoment(m)
    ensures Padded(Shown(m, 'Y'), 4, m.year) && Padded(Shown(m, 'y'), 2, m.year % 100)
    ensures ENGLISH[m.month] == Shown(m, 'M')
    ensures Padded(Shown(m, 'N'), 2, m.month) && Shortest(Shown(m, 'n'), m.month)
    ensures Padded(Shown(m, 'D'), 2, m.day) && Shortest(Shown(m, 'd'), m.day)
    ensures Padded(Shown(m, 'H'), 2, m.hour) && Shortest(Shown(m, 'h'), m.hour)
    ensures Padded(Shown(m, 'm'), 2, m.minute)
    ensures Padded(Shown(m, 'S'), 2, m.second) && Padded(Shown(m, 's'), 2, m.second)
    ensures Shown(m, '$') == "$"
    ensures forall c :: c !in "YyMNnDdHhmSs$" ==> Shown(m, c) == ""
  {
    hide *;
    LettersAsk(m);
    FieldsSay(m);
    MonthNamed(m);
  }

  lemma MonthNamed(m: Moment)
    requires IsMoment(m)
    ensures ENGLISH[m.month] == FieldsOf(m).monthName && CAPITALS[m.month] == UpperMonth(m.month)
  {
    hide Digit, TwoDigits, Decimal;
  }

  lemma FieldsSay(m: Moment)
    requires IsMoment(m)
    ensures var f := FieldsOf(m);
      && Padded(f.year4, 4, m.year) && Padded(f.year2, 2, m.year % 100)
      && Padded(f.month2, 2, m.month) && Shortest(f.month1, m.month)
      && Padded(f.date2, 2, m.day) && Shortest(f.date1, m.day)
      && Padded(f.hour2, 2, m.hour) && Shortest(f.hour1, m.hour)
      && Padded(f.minute, 2, m.minute) && Padded(f.second, 2, m.second)
  {
    hide Number, Padded, Shortest, Numeral, TwoDigits, Decimal, Digit, Month;
    YearSays(m.year);
    TwoDigitsSay(m.year % 100);
    TwoDigitsSay(m.month);
    TwoDigitsSay(m.day);
    TwoDigitsSay(m.hour);
    TwoDigitsSay(m.minute);
    TwoDigitsSay(m.second);
  }

  const CAPITALS: map<nat, string> := map[
    1 := "JAN", 2 := "FEB", 3 := "MAR", 4 := "APR", 5 := "MAY", 6 := "JUN",
    7 := "JUL", 8 := "AUG", 9 := "SEP", 10 := "OCT", 11 := "NOV", 12 := "DEC"]

  /** Where the VMS text has each part of the moment: `dd-MMM-yyyy hh:mm:ss.cc`, the day with a blank in
      place of a zero. */
  lemma TextHas(m: Moment)
    requires IsMoment(m)
    ensures var t := Asctim(m);
      && |t| == 23 && t[2] == '-' && t[6] == '-' && t[11] == ' ' && t[14] == ':' && t[17] == ':' && t[20] == '.'
      && (if m.day <= 9 then t[0] == ' ' && Padded(t[1..2], 1, m.day) else Padded(t[0..2], 2, m.day))
      && CAPITALS[m.month] == t[3..6] && Padded(t[7..11], 4, m.year)
      && Padded(t[12..14], 2, m.hour) && Padded(t[15..17], 2, m.minute) && Padded(t[18..20], 2, m.second)
  {
    hide Number, Numeral, Digit, Padded, TwoDigits, Asctim, UpperMonth;
    TextCut(m);
    MonthNamed(m);
    OneDigit(m.day % 10);
    TwoDigitsSay(m.day);
    YearSays(m.year);
    TwoDigitsSay(m.hour);
    TwoDigitsSay(m.minute);
    TwoDigitsSay(m.second);
  }

  lemma TextCut(m: Moment)
    requires IsMoment(m)
    ensures var t := Asctim(m);
      && |t| == 23 && t[2] == '-' && t[6] == '-' && t[11] == ' ' && t[14] == ':' && t[17] == ':' && t[20] == '.'
      && (m.day <= 9 ==> t[0] == ' ')
      && t[3..6] == UpperMonth(m.month) && t[12..14] == TwoDigits(m.hour)
      && (if m.day <= 9 then t[1..2] == [Digit(m.day % 10)] else t[0..2] == TwoDigits(m.day))
      && t[7..11] == [Digit(m.year / 1000), Digit(m.year / 100 % 10)] + TwoDigits(m.year % 100)
      && t[15..17] == TwoDigits(m.minute) && t[18..20] == TwoDigits(m.second)
  {
    hide Digit;
    var t := Asctim(m);
    assert t[1..2] == [Digit(m.day % 10)];
    assert m.day > 9 ==> t[0..2] == [Digit(m.day / 10), Digit(m.day % 10)];
  }
}
