/**
 * Stored times, character for character: the text of an instant told from its date, its
 * clock and its nanoseconds, without the layout that renders it.
 */
module TimeLayout {
  import opened Calendar
  import opened Text
  import opened TimeText

  // ----- the text itself

  function TwoDigits(n: int): string
    requires 0 <= n < 100
  {
    [Digit(n / 10), Digit(n % 10)]
  }

  function FourDigits(n: int): string
    requires 0 <= n < 10000
  {
    TwoDigits(n / 100) + TwoDigits(n % 100)
  }

  lemma TwoDigitsOf(n: int)
    requires 0 <= n < 100
    ensures Pow10(2) == 100 && Digits(n, 2) == TwoDigits(n)
  {
    Pow10Two();
    assert Pow10(1) == 10;
    var ten := n / 10;
    assert Digits(ten, 1) == Digits(ten / 10, 0) + [Digit(ten % 10)];
    assert Digits(n, 2) == Digits(ten, 1) + [Digit(n % 10)];
  }

  lemma HundredsAndTens(n: int)
    requires 0 <= n < 10000
    ensures n / 10 / 10 == n / 100 < 100 && n / 10 < 1000
    ensures n % 100 / 10 == n / 10 % 10 && n % 100 % 10 == n % 10
  {
  }

  lemma FourDigitsOf(n: int)
    requires 0 <= n < 10000
    ensures Pow10(4) == 10000 && Digits(n, 4) == FourDigits(n)
  {
    Pow10Two();
    assert Pow10(3) == 1000;
    HundredsAndTens(n);
    TwoDigitsOf(n / 100);
    var tens := n / 10;
    assert Digits(tens, 3) == Digits(tens / 10, 2) + [Digit(tens % 10)];
    assert Digits(n, 4) == Digits(tens, 3) + [Digit(n % 10)];
  }

  function ClockText(hour: int, minute: int, second: int): string
    requires 0 <= hour < 24 && 0 <= minute < 60 && 0 <= second < 60
  {
    TwoDigits(hour) + ":" + TwoDigits(minute) + ":" + TwoDigits(second)
  }

  function DateText(d: Date): string
    requires d.Valid() && 0 <= d.year < 10000
  {
    DaysInMonth(d.year, d.month);
    FourDigits(d.year) + "-" + TwoDigits(d.month) + "-" + TwoDigits(d.day)
  }

  lemma DaysInMonth(year: int, month: int)
    requires 1 <= month <= 12
    ensures DaysIn(year, month) <= 31
  {
  }

  /** One more field of two digits, behind a mark. */
  lemma MarkedField(mark: char, more: Layout, value: int, rest: seq<int>)
    requires Fits(more, rest) && 0 <= value < 100
    ensures Fits(Number(2, more), [value] + rest)
    ensures Fits(Mark(mark, Number(2, more)), [value] + rest)
    ensures Render(Number(2, more), [value] + rest) == TwoDigits(value) + Render(more, rest)
    ensures Render(Mark(mark, Number(2, more)), [value] + rest) == [mark] + (TwoDigits(value) + Render(more, rest))
  {
    TwoDigitsOf(value);
    assert ([value] + rest)[1..] == rest;
  }

  lemma ClockParts(hour: int, minute: int, second: int)
    requires 0 <= hour < 24 && 0 <= minute < 60 && 0 <= second < 60
    ensures ClockFields(3600 * hour + 60 * minute + second) == [hour, minute, second]
  {
    var clock := 3600 * hour + 60 * minute + second;
    assert clock / 60 == 60 * hour + minute;
  }

  lemma ClockLayout(hour: int, minute: int, second: int)
    requires 0 <= hour < 24 && 0 <= minute < 60 && 0 <= second < 60
    ensures Fits(CLOCK_LAYOUT, [hour, minute, second])
    ensures Render(CLOCK_LAYOUT, [hour, minute, second]) == ClockText(hour, minute, second)
  {
    assert [second] + [] == [second] && [minute] + [second] == [minute, second];
    assert [hour] + [minute, second] == [hour, minute, second];
    MarkedField(':', End, second, []);
    MarkedField(':', Mark(':', Number(2, End)), minute, [second]);
    MarkedField(':', CLOCK_LAYOUT.more, hour, [minute, second]);
    assert TwoDigits(second) + "" == TwoDigits(second);
  }

  /** The four fields of a date before what follows it. */
  lemma DateLayout(d: Date, clock: seq<int>, more: Layout)
    requires d.Valid() && 0 <= d.year < 10000 && Fits(more, clock)
    ensures var layout := Number(4, Mark('-', Number(2, Mark('-', Number(2, Mark('T', more))))));
            && Fits(layout, Fields(d, clock))
            && Render(layout, Fields(d, clock)) == DateText(d) + ("T" + Render(more, clock))
  {
    DaysInMonth(d.year, d.month);
    MonthAndDay(d.month, d.day, clock, more);
    var rest := [d.month] + ([d.day] + clock);
    YearField(Mark('-', Number(2, Mark('-', Number(2, Mark('T', more))))), d.year, rest);
    assert Fields(d, clock) == [d.year] + rest;
  }

  lemma MonthAndDay(month: int, day: int, clock: seq<int>, more: Layout)
    requires 0 <= month < 100 && 0 <= day < 100 && Fits(more, clock)
    ensures var layout := Mark('-', Number(2, Mark('-', Number(2, Mark('T', more)))));
            && Fits(layout, [month] + ([day] + clock))
            && Render(layout, [month] + ([day] + clock))
               == "-" + (TwoDigits(month) + ("-" + (TwoDigits(day) + ("T" + Render(more, clock)))))
  {
    var last := Mark('T', more);
    MarkedField('-', last, day, clock);
    MarkedField('-', Mark('-', Number(2, last)), month, [day] + clock);
  }

  lemma YearField(more: Layout, value: int, rest: seq<int>)
    requires Fits(more, rest) && 0 <= value < 10000
    ensures Fits(Number(4, more), [value] + rest)
    ensures Render(Number(4, more), [value] + rest) == FourDigits(value) + Render(more, rest)
  {
    FourDigitsOf(value);
    assert ([value] + rest)[1..] == rest;
  }

  lemma DayAndClock(day: int, clock: int)
    requires 0 <= clock < 86400
    ensures (day * 86400 + clock) / SECONDS_PER_DAY == day && (day * 86400 + clock) % SECONDS_PER_DAY == clock
    ensures 0 <= day < 3_652_425 ==> 0 <= day * 86400 + clock < FOUR_DIGIT_SECONDS
  {
  }

  lemma FourDigitSeconds(d: Date, clock: int)
    requires d.Valid() && 0 <= d.year < 10000 && 0 <= clock < 86400
    ensures 0 <= DayNumber(d) * 86400 + clock < FOUR_DIGIT_SECONDS
    ensures DateOf((DayNumber(d) * 86400 + clock) / SECONDS_PER_DAY) == d
    ensures (DayNumber(d) * 86400 + clock) % SECONDS_PER_DAY == clock
  {
    DayNumberInYear(d);
    YearsFromZero(d.year);
    var day := DayNumber(d);
    DayAndClock(day, clock);
    DayNumberOrder(d, DateOf(day));
  }

  lemma YearsFromZero(year: int)
    requires 0 <= year < 10000
    ensures 0 <= DaysBeforeYear(year) && DaysBeforeYear(year + 1) <= 3_652_425
  {
    DaysBeforeYearClosedForm(10000);
    assert DaysBeforeYear(10000) == 3_652_425;
    if 0 < year {
      DaysBeforeYearMonotone(0, year);
    }
    if year + 1 < 10000 {
      DaysBeforeYearMonotone(year + 1, 10000);
    }
  }

  lemma LastDigit(s: string, n: int)
    requires s != "" && AllDigits(s) && s[|s| - 1] == '0' && Text.Number(s[..|s| - 1]) == n
    ensures Text.Number(s) == 10 * n
  {
  }

  lemma {:induction false} NumberOfPadded(s: string, k: nat)
    requires AllDigits(s)
    ensures Text.Number(s + Zeros(k)) == Text.Number(s) * Pow10(k)
    decreases k
  {
    if k == 0 {
      assert s + Zeros(k) == s;
    } else {
      NumberOfPadded(s, k - 1);
      var t := s + Zeros(k);
      assert t[..|t| - 1] == s + Zeros(k - 1) && t[|t| - 1] == '0';
      LastDigit(t, Text.Number(s) * Pow10(k - 1));
      TenTimes(Text.Number(s), Pow10(k - 1));
    }
  }

  lemma TenTimes(n: int, p: int)
    ensures 10 * (n * p) == n * (10 * p)
  {
  }

  /** The written fraction: the least digits whose value, in billionths, is the nanoseconds. */
  lemma FractionValue(nano: int)
    requires 0 <= nano < NANOS_PER_SECOND
    ensures var f := Fraction(nano);
            && Text.Number(f) * Pow10(9 - |f|) == nano && (f == "" <==> nano == 0)
            && (f != "" ==> f[|f| - 1] != '0')
  {
    var f := Fraction(nano);
    PaddedFraction(nano);
    NumberOfDigits(nano, 9);
    NumberOfPadded(f, 9 - |f|);
    NoFraction();
  }

  lemma NoFraction()
    ensures Fraction(0) == ""
  {
    HalfSecondFraction();
  }

  lemma SecondTextOf(d: Date, hour: int, minute: int, second: int, sec: int, f: seq<int>)
    requires d.Valid() && 0 <= d.year < 10000 && 0 <= hour < 24 && 0 <= minute < 60 && 0 <= second < 60
    requires f == Fields(d, [hour, minute, second])
    requires 0 <= sec < FOUR_DIGIT_SECONDS && SecondFields(sec) == f
    ensures SecondText(sec) == DateText(d) + ("T" + ClockText(hour, minute, second))
  {
    ClockLayout(hour, minute, second);
    DateLayout(d, [hour, minute, second], CLOCK_LAYOUT);
  }

  lemma SecondFieldsOf(d: Date, hour: int, minute: int, second: int, sec: int)
    requires d.Valid() && 0 <= d.year < 10000 && 0 <= hour < 24 && 0 <= minute < 60 && 0 <= second < 60
    requires sec == DayNumber(d) * 86400 + (3600 * hour + 60 * minute + second)
    ensures 0 <= sec < FOUR_DIGIT_SECONDS && SecondFields(sec) == Fields(d, [hour, minute, second])
  {
    FourDigitSeconds(d, 3600 * hour + 60 * minute + second);
    ClockParts(hour, minute, second);
  }

  /** A stored time, character for character: date, mark, clock, fraction, and the zone. */
  lemma StoredTime(d: Date, hour: int, minute: int, second: int, t: Instant)
    requires d.Valid() && 0 <= d.year < 10000 && 0 <= hour < 24 && 0 <= minute < 60 && 0 <= second < 60
    requires t.Valid() && t.sec == DayNumber(d) * 86400 + (3600 * hour + 60 * minute + second)
    ensures t.FourDigitYear()
    ensures TimeText.TimeText(t) == DateText(d) + ("T" + ClockText(hour, minute, second))
                                    + (if t.nano == 0 then "Z" else "." + Fraction(t.nano) + "Z")
  {
    SecondFieldsOf(d, hour, minute, second, t.sec);
    SecondTextOf(d, hour, minute, second, t.sec, SecondFields(t.sec));
    FractionValue(t.nano);
    assert "" + "Z" == "Z";
  }
}
