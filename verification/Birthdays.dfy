/**
 * Birthdays on the calendar: which day an anniversary falls on, and the completed age by
 * month, day and time of day, without the arithmetic on seconds.
 */
module Birthdays {
  import opened Calendar
  import opened Age

  // ----- the calendar

  /** Day numbers count days: one more is the next date of the Gregorian calendar. */
  lemma NextDay(d: Date, length: int)
    requires d.Valid()
    requires length == if d.month == 2
                       then (if IsLeap(d.year) then 29 else 28)
                       else if d.month in {4, 6, 9, 11} then 30 else 31
    ensures DateOf(DayNumber(d) + 1) == if d.day < length then Date(d.year, d.month, d.day + 1)
                                        else if d.month < 12 then Date(d.year, d.month + 1, 1)
                                        else Date(d.year + 1, 1, 1)
  {
    assert length == DaysIn(d.year, d.month);
    DateOfDayNumber(Tomorrow(d));
  }

  /** Counted from the first of January of the year 0. */
  lemma UnixEpoch(year: int)
    requires year == 1970
    ensures DayNumber(Date(year, 1, 1)) == 719_528
  {
    DaysBeforeYearClosedForm(year);
  }

  lemma DateOfDayNumber(d: Date)
    requires d.Valid()
    ensures DateOf(DayNumber(d)) == d
  {
    DayNumberOrder(DateOf(DayNumber(d)), d);
  }

  /** The date of an instant. */
  function DateAt(t: Instant): (d: Date)
    ensures d.Valid() && DayNumber(d) == t.sec / 86400
  {
    DateOf(t.sec / SECONDS_PER_DAY)
  }

  /** Earlier in the day, to the nanosecond. */
  ghost predicate ClockBefore(a: Instant, b: Instant) {
    a.sec % 86400 < b.sec % 86400 || (a.sec % 86400 == b.sec % 86400 && a.nano < b.nano)
  }

  // ----- anniversaries

  /** The day of a birthday in a year: the same day and month, or 1 March when there is none. */
  function BirthdayIn(born: Date, year: int): Date {
    if Date(year, born.month, born.day).Valid() then Date(year, born.month, born.day) else Date(year, 3, 1)
  }

  lemma BirthdayNumber(born: Date, year: int)
    requires born.Valid()
    ensures BirthdayIn(born, year).Valid()
    ensures DayNumber(BirthdayIn(born, year)) == DayNumber(born.(year := year))
  {
    MonthTable(year);
  }

  lemma DayOf(day: int, clock: int)
    requires 0 <= clock < 86400
    ensures (day * 86400 + clock) / 86400 == day && (day * 86400 + clock) % 86400 == clock
  {
  }

  /** A moment of a day whose month has too few days falls on the same number of days later. */
  lemma MomentDate(d: Date, day: Date, clock: int, nano: int)
    requires day.Valid() && DayNumber(day) == DayNumber(d) && 0 <= clock < 86400
    ensures DateAt(Moment(d, clock, nano)) == day
    ensures Moment(d, clock, nano).sec % 86400 == clock && Moment(d, clock, nano).nano == nano
  {
    DayOf(DayNumber(d), clock);
    DayNumberOrder(DateAt(Moment(d, clock, nano)), day);
  }

  /** An anniversary has the day and month of the birth, or is 1 March, at the same time of day. */
  lemma AnniversaryDay(t: Instant, years: int)
    ensures var (born, a) := (DateAt(t), AddYears(t, years));
            && DateAt(a) == (if Date(born.year + years, born.month, born.day).Valid()
                             then Date(born.year + years, born.month, born.day) else Date(born.year + years, 3, 1))
            && a.sec % 86400 == t.sec % 86400 && a.nano == t.nano
  {
    AnniversaryMoment(t, years, BirthdayIn(DateAt(t), DateAt(t).year + years), AddYears(t, years));
  }

  lemma AnniversaryMoment(t: Instant, years: int, day: Date, a: Instant)
    requires day == BirthdayIn(DateAt(t), DateAt(t).year + years) && a == AddYears(t, years)
    ensures DateAt(a) == day && a.sec % 86400 == t.sec % 86400 && a.nano == t.nano
  {
    var born := DateAt(t);
    BirthdayNumber(born, born.year + years);
    MomentDate(born.(year := born.year + years), day, t.sec % 86400, t.nano);
  }

  /** A birthday has come: the date is past it, or it is that date and the clock not before the birth's. */
  ghost predicate Reached(birthday: Date, birth: Instant, day: Date, at: Instant) {
    DateBefore(birthday, day) || (birthday == day && !ClockBefore(at, birth))
  }

  /** The n-th birthday has come by then, on the calendar and the clock. */
  ghost predicate Turned(birth: Instant, n: int, at: Instant) {
    Reached(BirthdayIn(DateAt(birth), DateAt(birth).year + n), birth, DateAt(at), at)
  }

  lemma ReachedIsNotEarlier(birthday: Date, birth: Instant, day: Date, at: Instant, anniversary: Instant)
    requires birthday.Valid() && day.Valid()
    requires DayNumber(birthday) == anniversary.sec / 86400 && DayNumber(day) == at.sec / 86400
    requires anniversary.sec % 86400 == birth.sec % 86400 && anniversary.nano == birth.nano
    ensures Reached(birthday, birth, day, at) <==> !Earlier(at, anniversary)
  {
    DayNumberOrder(day, birthday);
  }

  lemma TurnedIsAnniversary(birth: Instant, n: int, at: Instant)
    ensures Turned(birth, n, at) <==> !Earlier(at, AddYears(birth, n))
  {
    var (birthday, anniversary) := (BirthdayIn(DateAt(birth), DateAt(birth).year + n), AddYears(birth, n));
    AnniversaryNumber(birth, n, birthday, anniversary);
    ReachedIsNotEarlier(birthday, birth, DateAt(at), at, anniversary);
  }

  lemma AnniversaryNumber(birth: Instant, n: int, birthday: Date, anniversary: Instant)
    requires birthday == BirthdayIn(DateAt(birth), DateAt(birth).year + n) && anniversary == AddYears(birth, n)
    ensures birthday.Valid() && DayNumber(birthday) == anniversary.sec / 86400
    ensures anniversary.sec % 86400 == birth.sec % 86400 && anniversary.nano == birth.nano
  {
    AnniversaryMoment(birth, n, birthday, anniversary);
  }

  // ----- ages

  lemma CompletedMeansTurned(birth: Instant, at: Instant, age: int, n: int)
    requires HasCompleted(birth, at, age)
    ensures age >= n <==> Turned(birth, n, at)
  {
    TurnedIsAnniversary(birth, n, at);
    if age + 1 < n {
      AnniversariesIncrease(birth, age + 1, n);
    } else if n < age {
      AnniversariesIncrease(birth, n, age);
    }
  }

  /** A computed age is at least n exactly when the n-th birthday has come. */
  lemma AgeReached(birth: Instant, at: Instant, n: int)
    ensures AgeAt(birth, at) >= n <==> Turned(birth, n, at)
  {
    AgeHasCompleted(birth, at);
    CompletedMeansTurned(birth, at, AgeAt(birth, at), n);
  }

  /**
   * The completed age is the difference of the years, less one exactly when month, day and
   * time of the start come before those of the birthday in that year.
   */
  lemma AgeByCalendar(birth: Instant, start: Instant)
    ensures var (b, s) := (DateAt(birth), DateAt(start));
            var (month, day) := if Date(s.year, b.month, b.day).Valid() then (b.month, b.day) else (3, 1);
            AgeAt(birth, start) == s.year - b.year -
              if s.month < month || (s.month == month && (s.day < day || (s.day == day && ClockBefore(start, birth))))
              then 1 else 0
  {
    var (b, s) := (DateAt(birth), DateAt(start));
    TurnedIsAnniversary(birth, s.year - b.year, start);
  }

  /** A child born on 15 December is still short of the difference of the years on 1 March. */
  lemma ShortInMarch(birth: Instant, start: Instant)
    requires DateAt(birth).month == 12 && DateAt(birth).day == 15 && DateAt(start).month == 3 && DateAt(start).day == 1
    ensures AgeAt(birth, start) == DateAt(start).year - DateAt(birth).year - 1
  {
    AgeByCalendar(birth, start);
  }
}
