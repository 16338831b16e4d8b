/** Completed age at a course start, and the minority test that decides whether consent is needed. */
module Age {
  import opened Calendar

  /** `IsMinor`: the eighteenth anniversary is still to come. */
  predicate IsMinor(birth: Instant, at: Instant) {
    Earlier(at, AddYears(birth, 18))
  }

  /** What a completed age means: the n-th anniversary has come and the next has not. */
  ghost predicate HasCompleted(birth: Instant, at: Instant, n: int) {
    && !Earlier(at, AddYears(birth, n))
    && Earlier(at, AddYears(birth, n + 1))
  }

  /** The difference of the calendar years, less one before this year's anniversary. */
  function AgeAt(birth: Instant, start: Instant): int {
    var years := Year(start) - Year(birth);
    if Earlier(start, AddYears(birth, years)) then years - 1 else years
  }

  lemma {:induction false} AnniversariesIncrease(birth: Instant, m: int, n: int)
    requires m < n
    ensures AddYears(birth, m).sec < AddYears(birth, n).sec
    decreases n - m
  {
    AddYearsAdvances(birth, n - 1);
    if m < n - 1 {
      AnniversariesIncrease(birth, m, n - 1);
    }
  }

  /** An anniversary in the year before the start has come. */
  lemma ComesBefore(birth: Instant, years: int, start: Instant)
    requires Year(birth) + years + 1 == Year(start)
    ensures AddYears(birth, years).sec < start.sec
  {
    YearBounds(start);
    AddYearsYear(birth, years);
  }

  /** An anniversary in the year after the start has not. */
  lemma ComesAfter(birth: Instant, years: int, start: Instant)
    requires Year(birth) + years == Year(start) + 1
    ensures start.sec < AddYears(birth, years).sec
  {
    YearBounds(start);
    AddYearsYear(birth, years);
  }

  lemma AgeHasCome(birth: Instant, start: Instant, years: int)
    requires years == Year(start) - Year(birth)
    ensures !Earlier(start, AddYears(birth, if Earlier(start, AddYears(birth, years)) then years - 1 else years))
  {
    ComesBefore(birth, years - 1, start);
  }

  lemma NextHasNotCome(birth: Instant, start: Instant, years: int)
    requires years == Year(start) - Year(birth)
    ensures Earlier(start, AddYears(birth, if Earlier(start, AddYears(birth, years)) then years else years + 1))
  {
    ComesAfter(birth, years + 1, start);
  }

  lemma AgeHasCompleted(birth: Instant, start: Instant)
    ensures HasCompleted(birth, start, AgeAt(birth, start))
  {
    AgeHasCome(birth, start, Year(start) - Year(birth));
    NextHasNotCome(birth, start, Year(start) - Year(birth));
  }

  lemma {:induction false} CompletedAgesAgree(birth: Instant, start: Instant, m: int, n: int)
    requires HasCompleted(birth, start, m) && HasCompleted(birth, start, n)
    ensures m >= n
  {
    if m + 1 < n {
      AnniversariesIncrease(birth, m + 1, n);
    }
  }

  /** For every birth and start, also a birth after the start or on 29 February. */
  lemma {:induction false} AgeIsTheCompletedAge(birth: Instant, start: Instant, n: int)
    ensures HasCompleted(birth, start, n) <==> n == AgeAt(birth, start)
  {
    AgeHasCompleted(birth, start);
    if HasCompleted(birth, start, n) {
      CompletedAgesAgree(birth, start, n, AgeAt(birth, start));
      CompletedAgesAgree(birth, start, AgeAt(birth, start), n);
    }
  }

  /** The consent test and the age computation agree on who is a child. */
  lemma MinorExactlyBelowEighteen(birth: Instant, start: Instant)
    ensures IsMinor(birth, start) <==> AgeAt(birth, start) < 18
  {
    var age := AgeAt(birth, start);
    AgeIsTheCompletedAge(birth, start, age);
    if age < 17 {
      AnniversariesIncrease(birth, age + 1, 18);
    } else if 18 < age {
      AnniversariesIncrease(birth, 18, age);
    }
  }

  /** The age computation of `Enroll`, step by step. */
  method CompletedAge(birth: Instant, start: Instant) returns (age: int)
    ensures age == AgeAt(birth, start)
    ensures HasCompleted(birth, start, age)
  {
    AgeHasCompleted(birth, start);
    age := Year(start) - Year(birth);
    if Earlier(start, AddYears(birth, age)) {
      age := age - 1;
    }
  }
}
