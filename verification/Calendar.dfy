/**
 * The proleptic Gregorian calendar in UTC, as Go's `time` package uses it:
 * instants are whole seconds since 0000-01-01T00:00:00Z plus nanoseconds, and
 * civil dates convert to and from day numbers. `AddYears` is `AddDate(n, 0, 0)`.
 */
module Calendar {
  const SECONDS_PER_DAY := 86400
  const NANOS_PER_SECOND := 1_000_000_000
  /** Seconds in the years 0 to 9999, whose text has a four-digit year. */
  const FOUR_DIGIT_SECONDS := 315_569_520_000

  datatype Instant = Instant(sec: int, nano: int) {
    ghost predicate Valid() { 0 <= nano < NANOS_PER_SECOND }

    ghost predicate FourDigitYear() { Valid() && 0 <= sec < FOUR_DIGIT_SECONDS }
  }

  /** Chronological order: `a.Before(b)` of the time package. */
  predicate Earlier(a: Instant, b: Instant) {
    a.sec < b.sec || (a.sec == b.sec && a.nano < b.nano)
  }

  datatype Date = Date(year: int, month: int, day: int) {
    predicate Valid() { 1 <= month <= 12 && 1 <= day <= DaysIn(year, month) }
  }

  /** Divisibility by counting off, which keeps remainders out of the proofs about dates. */
  predicate Multiple(n: int, k: int)
    requires k > 0
    decreases if n < 0 then -n else n
  {
    if n >= k then Multiple(n - k, k) else if n <= -k then Multiple(n + k, k) else n == 0
  }

  lemma {:induction false} MultipleIsRemainder(n: int, k: int)
    requires k > 0
    ensures Multiple(n, k) <==> n % k == 0
    decreases if n < 0 then -n else n
  {
    if n >= k {
      MultipleIsRemainder(n - k, k);
      RemainderStep(n - k, n, k);
    } else if n <= -k {
      MultipleIsRemainder(n + k, k);
      RemainderStep(n, n + k, k);
    } else if n >= 0 {
      UniqueRemainder(n, k, 0, n);
    } else {
      UniqueRemainder(n, k, -1, n + k);
    }
  }

  lemma RemainderStep(n: int, next: int, k: int)
    requires k > 0 && next == n + k
    ensures next % k == n % k
  {
    assert n == k * (n / k) + n % k;
    assert next == k * (n / k + 1) + n % k;
    UniqueRemainder(next, k, n / k + 1, n % k);
  }

  lemma UniqueRemainder(n: int, k: int, q: int, r: int)
    requires k > 0 && n == k * q + r && 0 <= r < k
    ensures n % k == r
  {
    var d := n / k - q;
    assert k * d == r - n % k;
    MultipleBounds(k, d);
  }

  lemma MultipleBounds(k: int, d: int)
    requires k > 0
    ensures d >= 1 ==> k * d >= k
    ensures d <= -1 ==> k * d <= -k
  {
  }

  predicate IsLeap(year: int) {
    Multiple(year, 4) && (!Multiple(year, 100) || Multiple(year, 400))
  }

  /** The Gregorian rule with remainders, as it is usually written. */
  lemma LeapRule(year: int)
    ensures IsLeap(year) <==> year % 4 == 0 && (year % 100 != 0 || year % 400 == 0)
  {
    MultipleIsRemainder(year, 4);
    MultipleIsRemainder(year, 100);
    MultipleIsRemainder(year, 400);
  }

  function DaysIn(year: int, month: int): int {
    if month == 2 then (if IsLeap(year) then 29 else 28)
    else if month == 4 || month == 6 || month == 9 || month == 11 then 30
    else 31
  }

  function YearLength(year: int): int {
    if IsLeap(year) then 366 else 365
  }

  /** Days from 0000-01-01 to the first day of the year: the lengths of the years between. */
  function DaysBeforeYear(year: int): int
    decreases if year < 0 then -year else year
  {
    if year == 0 then 0
    else if year > 0 then DaysBeforeYear(year - 1) + YearLength(year - 1)
    else DaysBeforeYear(year + 1) - YearLength(year)
  }

  /** The same count in closed form, leap days counted by division. */
  function DaysBeforeYearByDivision(year: int): int {
    365 * year + (year + 3) / 4 - (year + 99) / 100 + (year + 399) / 400
  }

  /** Days from the first of January to the first of the month; month 13 is the next January. */
  function DaysBeforeMonth(year: int, month: int): int {
    if month <= 1 then 0
    else DaysBeforeMonth(year, month - 1) + DaysIn(year, month - 1)
  }

  /** The day number of a date; a day past the end of its month runs on into the next one. */
  function DayNumber(d: Date): int {
    DaysBeforeYear(d.year) + DaysBeforeMonth(d.year, d.month) + d.day - 1
  }

  // Division facts, one divisor at a time: together they exhaust the solver.
  lemma CenturyIsFourth(year: int)
    ensures year % 100 == 0 ==> year % 4 == 0
  {
    if year % 100 == 0 {
      assert year == 4 * (25 * (year / 100));
    }
  }

  lemma EraIsCentury(year: int)
    ensures year % 400 == 0 ==> year % 100 == 0
  {
    if year % 400 == 0 {
      assert year == 100 * (4 * (year / 400));
    }
  }

  lemma FourthStep(year: int)
    ensures (year + 4) / 4 == (year + 3) / 4 + if year % 4 == 0 then 1 else 0
  {
  }

  lemma CenturyStep(year: int)
    ensures (year + 100) / 100 == (year + 99) / 100 + if year % 100 == 0 then 1 else 0
  {
  }

  lemma EraStep(year: int)
    ensures (year + 400) / 400 == (year + 399) / 400 + if year % 400 == 0 then 1 else 0
  {
  }

  lemma {:induction false} DivisionStep(year: int)
    ensures DaysBeforeYearByDivision(year + 1) == DaysBeforeYearByDivision(year) + YearLength(year)
  {
    LeapRule(year);
    CenturyIsFourth(year);
    EraIsCentury(year);
    FourthStep(year);
    CenturyStep(year);
    EraStep(year);
  }

  lemma {:induction false} DaysBeforeYearClosedForm(year: int)
    ensures DaysBeforeYear(year) == DaysBeforeYearByDivision(year)
    decreases if year < 0 then -year else year
  {
    if year > 0 {
      DaysBeforeYearClosedForm(year - 1);
      DivisionStep(year - 1);
    } else if year < 0 {
      DaysBeforeYearClosedForm(year + 1);
      DivisionStep(year);
    }
  }

  lemma YearStep(year: int)
    ensures DaysBeforeYear(year + 1) == DaysBeforeYear(year) + YearLength(year)
  {
  }

  lemma MonthTable(year: int)
    ensures var leap := if IsLeap(year) then 1 else 0;
            && DaysBeforeMonth(year, 1) == 0 && DaysBeforeMonth(year, 2) == 31
            && DaysBeforeMonth(year, 3) == 59 + leap && DaysBeforeMonth(year, 4) == 90 + leap
            && DaysBeforeMonth(year, 5) == 120 + leap && DaysBeforeMonth(year, 6) == 151 + leap
            && DaysBeforeMonth(year, 7) == 181 + leap && DaysBeforeMonth(year, 8) == 212 + leap
            && DaysBeforeMonth(year, 9) == 243 + leap && DaysBeforeMonth(year, 10) == 273 + leap
            && DaysBeforeMonth(year, 11) == 304 + leap && DaysBeforeMonth(year, 12) == 334 + leap
            && DaysBeforeMonth(year, 13) == YearLength(year)
  {
    assert DaysBeforeMonth(year, 4) == DaysBeforeMonth(year, 3) + 31;
    assert DaysBeforeMonth(year, 7) == DaysBeforeMonth(year, 6) + 30;
    assert DaysBeforeMonth(year, 10) == DaysBeforeMonth(year, 9) + 30;
  }

  lemma {:induction false} DaysBeforeYearMonotone(y0: int, y1: int)
    requires y0 < y1
    ensures DaysBeforeYear(y0) + 365 <= DaysBeforeYear(y1)
    decreases y1 - y0
  {
    YearStep(y1 - 1);
    if y0 < y1 - 1 {
      DaysBeforeYearMonotone(y0, y1 - 1);
    }
  }

  /** The next date. */
  function Tomorrow(d: Date): (next: Date)
    requires d.Valid()
    ensures next.Valid() && DayNumber(next) == DayNumber(d) + 1
  {
    YearStep(d.year);
    MonthTable(d.year);
    if d.day < DaysIn(d.year, d.month) then Date(d.year, d.month, d.day + 1)
    else if d.month < 12 then Date(d.year, d.month + 1, 1)
    else Date(d.year + 1, 1, 1)
  }

  function Yesterday(d: Date): (last: Date)
    requires d.Valid()
    ensures last.Valid() && DayNumber(last) == DayNumber(d) - 1
  {
    YearStep(d.year - 1);
    MonthTable(d.year - 1);
    if d.day > 1 then Date(d.year, d.month, d.day - 1)
    else if d.month > 1 then Date(d.year, d.month - 1, DaysIn(d.year, d.month - 1))
    else Date(d.year - 1, 12, 31)
  }

  /** The civil date of a day number, counted from the first of January of the year 0. */
  function DateOf(days: int): (d: Date)
    ensures d.Valid() && DayNumber(d) == days
    decreases if days < 0 then -days else days
  {
    if days == 0 then Date(0, 1, 1)
    else if days > 0 then Tomorrow(DateOf(days - 1))
    else Yesterday(DateOf(days + 1))
  }

  lemma DayNumberInYear(d: Date)
    requires 1 <= d.month <= 12 && 1 <= d.day <= (if d.month == 2 then 29 else DaysIn(d.year, d.month))
    ensures DaysBeforeYear(d.year) <= DayNumber(d) < DaysBeforeYear(d.year + 1)
  {
    YearStep(d.year);
    MonthTable(d.year);
  }

  ghost predicate DateBefore(a: Date, b: Date) {
    || a.year < b.year
    || (a.year == b.year && a.month < b.month)
    || (a.year == b.year && a.month == b.month && a.day < b.day)
  }

  /** Day numbers follow the calendar, so a date has one day number and a day number one date. */
  lemma DayNumberOrder(a: Date, b: Date)
    requires a.Valid() && b.Valid()
    ensures DayNumber(a) < DayNumber(b) <==> DateBefore(a, b)
    ensures DayNumber(a) == DayNumber(b) <==> a == b
  {
    if DateBefore(a, b) {
      DayNumberForward(a, b);
    } else if DateBefore(b, a) {
      DayNumberForward(b, a);
    }
  }

  lemma DayNumberForward(a: Date, b: Date)
    requires a.Valid() && b.Valid() && DateBefore(a, b)
    ensures DayNumber(a) < DayNumber(b)
  {
    if a.year < b.year {
      DayNumberInYear(a);
      DayNumberInYear(b);
      if a.year + 1 < b.year {
        DaysBeforeYearMonotone(a.year + 1, b.year);
      }
    } else {
      MonthTable(a.year);
    }
  }

  /** The calendar year of an instant: `Year()` in UTC. */
  function Year(t: Instant): int { DateOf(t.sec / SECONDS_PER_DAY).year }

  /** The instant on a day of the calendar at a time of day; the day may run past its month. */
  function Moment(d: Date, clock: int, nano: int): Instant {
    Instant(DayNumber(d) * SECONDS_PER_DAY + clock, nano)
  }

  /** `t.AddDate(years, 0, 0)`: 29 February runs on into 1 March of a common year. */
  function AddYears(t: Instant, years: int): Instant {
    var d := DateOf(t.sec / SECONDS_PER_DAY);
    Moment(d.(year := d.year + years), t.sec % SECONDS_PER_DAY, t.nano)
  }

  lemma DayBounds(day: int, clock: int, from: int, to: int)
    requires from <= day < to && 0 <= clock < SECONDS_PER_DAY
    ensures from * SECONDS_PER_DAY <= day * SECONDS_PER_DAY + clock < to * SECONDS_PER_DAY
  {
  }

  lemma MomentInYear(d: Date, clock: int, nano: int)
    requires 1 <= d.month <= 12 && 1 <= d.day <= (if d.month == 2 then 29 else DaysIn(d.year, d.month))
    requires 0 <= clock < SECONDS_PER_DAY
    ensures DaysBeforeYear(d.year) * SECONDS_PER_DAY <= Moment(d, clock, nano).sec
    ensures Moment(d, clock, nano).sec < DaysBeforeYear(d.year + 1) * SECONDS_PER_DAY
  {
    DayNumberInYear(d);
    DayBounds(DayNumber(d), clock, DaysBeforeYear(d.year), DaysBeforeYear(d.year + 1));
  }

  /** The anniversary stays inside its calendar year, even for a leap-day birth. */
  lemma AddYearsYear(t: Instant, years: int)
    ensures var year := Year(t) + years;
            && DaysBeforeYear(year) * SECONDS_PER_DAY <= AddYears(t, years).sec
            && AddYears(t, years).sec < DaysBeforeYear(year + 1) * SECONDS_PER_DAY
  {
    var d := DateOf(t.sec / SECONDS_PER_DAY);
    MomentInYear(d.(year := d.year + years), t.sec % SECONDS_PER_DAY, t.nano);
  }

  lemma YearBounds(t: Instant)
    ensures DaysBeforeYear(Year(t)) * SECONDS_PER_DAY <= t.sec < DaysBeforeYear(Year(t) + 1) * SECONDS_PER_DAY
  {
    DayNumberInYear(DateOf(t.sec / SECONDS_PER_DAY));
  }

  lemma DayNumberNextYear(d: Date)
    requires 1 <= d.month <= 12
    ensures DayNumber(d) < DayNumber(d.(year := d.year + 1))
  {
    YearStep(d.year);
    MonthTable(d.year);
    MonthTable(d.year + 1);
  }

  lemma AddYearsAdvances(t: Instant, years: int)
    ensures AddYears(t, years).sec < AddYears(t, years + 1).sec
  {
    var d := DateOf(t.sec / SECONDS_PER_DAY);
    DayNumberNextYear(d.(year := d.year + years));
  }
}
