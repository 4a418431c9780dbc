/**
 * Calendar dates and the date check the application applies everywhere:
 * `datetime.strptime(s, '%Y-%m-%d')`.
 *
 * Python turns the format into the regular expression
 *   year  = exactly four digits
 *   month = 1[0-2] | 0[1-9] | [1-9]
 *   day   = 3[01] | [12][0-9] | 0[1-9] | [1-9] | ' '[1-9]
 * joined by literal '-', requires the match to consume the whole string, and
 * then builds a `datetime` value, which fails for year 0 and for a day past
 * the end of the month (leap years included).
 */
module Calendar {
  import opened Results

  datatype Date = Date(year: int, month: int, day: int)

  predicate IsLeapYear(y: int) {
    y % 4 == 0 && (y % 100 != 0 || y % 400 == 0)
  }

  function DaysInMonth(y: int, m: int): (n: int)
    requires 1 <= m <= 12
    ensures 28 <= n <= 31
  {
    if m == 2 then (if IsLeapYear(y) then 29 else 28)
    else if m == 4 || m == 6 || m == 9 || m == 11 then 30
    else 31
  }

  /** A date Python's `datetime` can represent (years 1 to 9999). */
  predicate ValidDate(d: Date) {
    1 <= d.year <= 9999 && 1 <= d.month <= 12 && 1 <= d.day <= DaysInMonth(d.year, d.month)
  }

  type CalendarDate = d: Date | ValidDate(d) witness Date(1970, 1, 1)

  // ---------------------------------------------------------------- digits

  predicate IsDigit(c: char) { '0' <= c <= '9' }

  function DigitValue(c: char): (v: int)
    requires IsDigit(c)
    ensures 0 <= v <= 9
  {
    c as int - '0' as int
  }

  function DigitChar(v: int): (c: char)
    requires 0 <= v <= 9
    ensures IsDigit(c) && DigitValue(c) == v
  {
    ('0' as int + v) as char
  }

  function TwoDigits(n: int): (s: string)
    requires 0 <= n <= 99
  {
    [DigitChar(n / 10), DigitChar(n % 10)]
  }

  function FourDigits(n: int): (s: string)
    requires 0 <= n <= 9999
  {
    [DigitChar(n / 1000), DigitChar(n / 100 % 10), DigitChar(n / 10 % 10), DigitChar(n % 10)]
  }

  predicate AllDigits(s: string) {
    forall i :: 0 <= i < |s| ==> IsDigit(s[i])
  }

  function YearField(s: string): (y: int)
    requires |s| == 4 && AllDigits(s)
    ensures 0 <= y <= 9999
  {
    1000 * DigitValue(s[0]) + 100 * DigitValue(s[1]) + 10 * DigitValue(s[2]) + DigitValue(s[3])
  }

  // ---------------------------------------------------------------- fields

  /** The text between the two dashes, read with the alternatives of `%m`. */
  function MonthField(t: string): (r: Option<int>)
    ensures r.Some? ==> 1 <= r.value <= 12
  {
    if |t| == 2 && t[0] == '1' && '0' <= t[1] <= '2' then Some(10 + DigitValue(t[1]))
    else if |t| == 2 && t[0] == '0' && '1' <= t[1] <= '9' then Some(DigitValue(t[1]))
    else if |t| == 1 && '1' <= t[0] <= '9' then Some(DigitValue(t[0]))
    else None
  }

  /**
   * The text after the second dash, read with the alternatives of `%d`.
   * The two-character alternatives come before `[1-9]`, so the first
   * alternative that matches consumes the whole rest exactly when the rest
   * is one of the alternatives; anything longer is "unconverted data".
   */
  function DayField(t: string): (r: Option<int>)
    ensures r.Some? ==> 1 <= r.value <= 31
  {
    if |t| == 2 && t[0] == '3' && '0' <= t[1] <= '1' then Some(30 + DigitValue(t[1]))
    else if |t| == 2 && '1' <= t[0] <= '2' && IsDigit(t[1]) then Some(10 * DigitValue(t[0]) + DigitValue(t[1]))
    else if |t| == 2 && t[0] == '0' && '1' <= t[1] <= '9' then Some(DigitValue(t[1]))
    else if |t| == 1 && '1' <= t[0] <= '9' then Some(DigitValue(t[0]))
    else if |t| == 2 && t[0] == ' ' && '1' <= t[1] <= '9' then Some(DigitValue(t[1]))
    else None
  }

  /**
   * Where the month field ends: the position of the second dash, or 0 when
   * no month alternative is followed by a dash.  A two-character month puts
   * that dash at 7, a one-character month at 6; the two cannot both apply.
   */
  function MonthEnd(s: string): (k: nat)
    requires |s| >= 7
    ensures k == 0 || k == 6 || k == 7
    ensures k != 0 ==> k < |s| && s[k] == '-' && MonthField(s[5..k]).Some?
  {
    if |s| > 7 && s[7] == '-' && MonthField(s[5..7]).Some? then 7
    else if s[6] == '-' && MonthField(s[5..6]).Some? then 6
    else 0
  }

  /** `datetime.strptime(s, '%Y-%m-%d')`: the date it returns, or None for a ValueError. */
  function ParseDate(s: string): (r: Option<CalendarDate>)
  {
    if |s| < 7 || !AllDigits(s[..4]) || s[4] != '-' then None
    else
      var k := MonthEnd(s);
      if k == 0 then None
      else
        var y := YearField(s[..4]);
        var m := MonthField(s[5..k]).value;
        var day := DayField(s[k + 1..]);
        if day.None? || y < 1 || day.value > DaysInMonth(y, m) then None
        else Some(Date(y, m, day.value))
  }

  // ---------------------------------------------------------------- spellings

  /** The spellings of month m that `%m` accepts. */
  function MonthForms(m: int): set<string>
    requires 1 <= m <= 12
  {
    if m <= 9 then {TwoDigits(m), [DigitChar(m)]} else {TwoDigits(m)}
  }

  /** The spellings of day d that `%d` accepts. */
  function DayForms(d: int): set<string>
    requires 1 <= d <= 31
  {
    if d <= 9 then {TwoDigits(d), [DigitChar(d)], [' ', DigitChar(d)]} else {TwoDigits(d)}
  }

  /** s writes the date d in one of the forms the format accepts. */
  ghost predicate Spells(s: string, d: CalendarDate) {
    exists mf, df :: mf in MonthForms(d.month) && df in DayForms(d.day) &&
      s == FourDigits(d.year) + "-" + mf + "-" + df
  }

  /** The canonical `YYYY-MM-DD` text of a date. */
  function IsoText(d: CalendarDate): string {
    FourDigits(d.year) + "-" + TwoDigits(d.month) + "-" + TwoDigits(d.day)
  }

  // ---------------------------------------------------------------- order

  /** The order of the DATE column: by year, then month, then day. */
  predicate DateLe(a: Date, b: Date) {
    a.year < b.year || (a.year == b.year && (a.month < b.month || (a.month == b.month && a.day <= b.day)))
  }

  /** A number whose order is the order of dates, used to sort rows by date. */
  function DateKey(d: CalendarDate): int {
    d.year * 10000 + d.month * 100 + d.day
  }

  // ---------------------------------------------------------------- lemmas

  lemma DigitCharOfValue(c: char)
    requires IsDigit(c)
    ensures DigitChar(DigitValue(c)) == c
  {
  }

  lemma TwoDigitsOf(n: int)
    requires 0 <= n <= 99
    ensures TwoDigits(n)[0] == DigitChar(n / 10) && TwoDigits(n)[1] == DigitChar(n % 10)
  {
  }

  /** Reading four digits back gives the number that was written. */
  lemma YearFieldOfFourDigits(n: int)
    requires 0 <= n <= 9999
    ensures AllDigits(FourDigits(n)) && YearField(FourDigits(n)) == n
  {
    var e, q1 := n % 10, n / 10;
    var c, q2 := q1 % 10, q1 / 10;
    var b, a := q2 % 10, q2 / 10;
    DivModTen(n, q1, e);
    DivModTen(q1, q2, c);
    DivModTen(q2, a, b);
    DivModHundred(n, q2, 10 * c + e);
    DivModThousand(n, a, 100 * b + 10 * c + e);
    var s := FourDigits(n);
    assert s == [DigitChar(a), DigitChar(b), DigitChar(c), DigitChar(e)];
  }

  lemma DivModHundred(n: int, q: int, r: int)
    requires 0 <= r <= 99 && n == 100 * q + r
    ensures n / 100 == q
  {
  }

  lemma DivModThousand(n: int, q: int, r: int)
    requires 0 <= r <= 999 && n == 1000 * q + r
    ensures n / 1000 == q
  {
  }

  /** Division by ten splits off the last digit. */
  lemma DivModTen(n: int, q: int, r: int)
    requires 0 <= r <= 9 && n == 10 * q + r
    ensures n / 10 == q && n % 10 == r
  {
  }

  /** Writing the number read from four digits gives the same four digits. */
  lemma FourDigitsOfYearField(s: string)
    requires |s| == 4 && AllDigits(s)
    ensures FourDigits(YearField(s)) == s
  {
    var a, b, c, e := DigitValue(s[0]), DigitValue(s[1]), DigitValue(s[2]), DigitValue(s[3]);
    var y := YearField(s);
    DivModTen(y, 100 * a + 10 * b + c, e);
    DivModTen(100 * a + 10 * b + c, 10 * a + b, c);
    DivModTen(10 * a + b, a, b);
    assert y / 100 == 10 * a + b;
    assert y / 1000 == a;
    DigitCharOfValue(s[0]);
    DigitCharOfValue(s[1]);
    DigitCharOfValue(s[2]);
    DigitCharOfValue(s[3]);
  }

  /** Every text the month field accepts is one of the month's spellings. */
  lemma MonthFieldIsForm(t: string)
    requires MonthField(t).Some?
    ensures t in MonthForms(MonthField(t).value)
  {
    var m := MonthField(t).value;
    if |t| == 2 {
      DigitCharOfValue(t[0]);
      DigitCharOfValue(t[1]);
      assert t == TwoDigits(m);
    } else {
      DigitCharOfValue(t[0]);
      assert t == [DigitChar(m)];
    }
  }

  /** Every text the day field accepts is one of the day's spellings. */
  lemma DayFieldIsForm(t: string)
    requires DayField(t).Some?
    ensures t in DayForms(DayField(t).value)
  {
    var d := DayField(t).value;
    if |t| == 2 && t[0] == ' ' {
      DigitCharOfValue(t[1]);
      assert t == [' ', DigitChar(d)];
    } else if |t| == 2 {
      DigitCharOfValue(t[0]);
      DigitCharOfValue(t[1]);
      assert t == TwoDigits(d);
    } else {
      DigitCharOfValue(t[0]);
      assert t == [DigitChar(d)];
    }
  }

  /** Every spelling of a month is read back as that month. */
  lemma MonthFieldOfForm(m: int, t: string)
    requires 1 <= m <= 12 && t in MonthForms(m)
    ensures MonthField(t) == Some(m)
  {
    if t == TwoDigits(m) {
      TwoDigitsOf(m);
    }
  }

  /** Every spelling of a day is read back as that day. */
  lemma DayFieldOfForm(d: int, t: string)
    requires 1 <= d <= 31 && t in DayForms(d)
    ensures DayField(t) == Some(d)
  {
    if t == TwoDigits(d) {
      TwoDigitsOf(d);
    }
  }

  /** Whatever strptime accepts is a spelling of the date it returns. */
  lemma {:induction false} ParseDateSound(s: string)
    requires ParseDate(s).Some?
    ensures Spells(s, ParseDate(s).value)
  {
    var d := ParseDate(s).value;
    var k := MonthEnd(s);
    var mf, df := s[5..k], s[k + 1..];
    MonthFieldIsForm(mf);
    DayFieldIsForm(df);
    FourDigitsOfYearField(s[..4]);
    assert s == s[..4] + "-" + mf + "-" + df;
  }

  /** strptime accepts every spelling of every date and returns that date. */
  lemma {:induction false} ParseDateComplete(s: string, d: CalendarDate)
    requires Spells(s, d)
    ensures ParseDate(s) == Some(d)
  {
    var mf, df :| mf in MonthForms(d.month) && df in DayForms(d.day) &&
      s == FourDigits(d.year) + "-" + mf + "-" + df;
    YearFieldOfFourDigits(d.year);
    MonthFieldOfForm(d.month, mf);
    DayFieldOfForm(d.day, df);
    var k := 5 + |mf|;
    assert s[..4] == FourDigits(d.year);
    assert s[5..k] == mf;
    assert s[k] == '-';
    assert s[k + 1..] == df;
    if |mf| == 1 {
      assert MonthField(s[5..7]).None?;
    }
    assert MonthEnd(s) == k;
  }

  /** The canonical text of a date is accepted and read back as that date. */
  lemma ParseIsoText(d: CalendarDate)
    ensures ParseDate(IsoText(d)) == Some(d)
  {
    assert TwoDigits(d.month) in MonthForms(d.month);
    assert TwoDigits(d.day) in DayForms(d.day);
    ParseDateComplete(IsoText(d), d);
  }

  /** The date order and the order of the sort key agree. */
  lemma DateKeyOrder(a: CalendarDate, b: CalendarDate)
    ensures DateLe(a, b) <==> DateKey(a) <= DateKey(b)
  {
  }
}
