/**
 * `timeText` and `parseTime`: instants as RFC 3339 texts with the trailing zeros of the
 * fraction trimmed, the order of those texts, and the way back.
 */
module TimeText {
  import opened Wrappers
  import opened Calendar
  import opened Text

  // ----- layouts: fixed-width numbers between fixed marks

  datatype Layout = End | Number(width: nat, more: Layout) | Mark(c: char, rest: Layout)

  ghost predicate Fits(layout: Layout, values: seq<int>) {
    match layout
    case End => values == []
    case Number(width, more) => values != [] && 0 <= values[0] < Pow10(width) && Fits(more, values[1..])
    case Mark(_, rest) => Fits(rest, values)
  }

  function Render(layout: Layout, values: seq<int>): string
    requires Fits(layout, values)
  {
    match layout
    case End => ""
    case Number(width, more) => Digits(values[0], width) + Render(more, values[1..])
    case Mark(c, rest) => [c] + Render(rest, values)
  }

  datatype Scan = Scan(values: seq<int>, rest: string)

  function ScanLayout(layout: Layout, s: string): Option<Scan> {
    match layout
    case End => Some(Scan([], s))
    case Number(width, more) =>
      if |s| < width || !AllDigits(s[..width]) then None
      else
        var scan :- ScanLayout(more, s[width..]);
        Some(Scan([Text.Number(s[..width])] + scan.values, scan.rest))
    case Mark(c, rest) =>
      if s == "" || s[0] != c then None else ScanLayout(rest, s[1..])
  }

  lemma {:induction false} ScanOfRender(layout: Layout, values: seq<int>, rest: string)
    requires Fits(layout, values)
    ensures ScanLayout(layout, Render(layout, values) + rest) == Some(Scan(values, rest))
  {
    match layout
    case End =>
      assert "" + rest == rest;
    case Number(width, more) =>
      var tail := Render(more, values[1..]) + rest;
      var s := Render(layout, values) + rest;
      assert s[..width] == Digits(values[0], width) && s[width..] == tail;
      NumberOfDigits(values[0], width);
      ScanOfRender(more, values[1..], rest);
      assert values == [values[0]] + values[1..];
    case Mark(c, more) =>
      var s := Render(layout, values) + rest;
      assert s[1..] == Render(more, values) + rest;
      ScanOfRender(more, values, rest);
  }

  predicate ValuesLess(a: seq<int>, b: seq<int>) {
    a != [] && b != [] && (a[0] < b[0] || (a[0] == b[0] && ValuesLess(a[1..], b[1..])))
  }

  lemma {:induction false} RenderOrder(layout: Layout, a: seq<int>, b: seq<int>)
    requires Fits(layout, a) && Fits(layout, b)
    ensures |Render(layout, a)| == |Render(layout, b)|
    ensures TextLess(Render(layout, a), Render(layout, b)) <==> ValuesLess(a, b)
    ensures Render(layout, a) == Render(layout, b) ==> a == b
  {
    match layout
    case End =>
    case Number(width, more) =>
      RenderOrder(more, a[1..], b[1..]);
      var (u, v) := (Digits(a[0], width), Digits(b[0], width));
      var (x, y) := (Render(more, a[1..]), Render(more, b[1..]));
      FieldOrder(u, v, x, y);
      DigitsOrder(a[0], b[0], width);
      if u + x == v + y {
        assert u == (u + x)[..width] == (v + y)[..width] == v;
        assert x == (u + x)[width..] == (v + y)[width..] == y;
        assert a == [a[0]] + a[1..] && b == [b[0]] + b[1..];
      }
    case Mark(c, rest) =>
      RenderOrder(rest, a, b);
      var (x, y) := (Render(rest, a), Render(rest, b));
      FieldOrder([c], [c], x, y);
      TextOrderIsTotal([c], [c]);
      if [c] + x == [c] + y {
        assert x == ([c] + x)[1..] == ([c] + y)[1..] == y;
      }
  }

  // ----- rendering

  function Zeros(k: nat): string { seq(k, _ => '0') }

  function TrimZeros(s: string): (t: string)
    ensures |t| <= |s| && t == s[..|t|] && (|t| > 0 ==> t[|t| - 1] != '0')
  {
    if |s| > 0 && s[|s| - 1] == '0' then TrimZeros(s[..|s| - 1]) else s
  }

  /** The fraction of a second as it is written: nine digits, trailing zeros trimmed. */
  function Fraction(nano: int): (s: string)
    requires 0 <= nano < NANOS_PER_SECOND
    ensures |s| <= 9 && AllDigits(s)
  {
    assert Pow10(9) == NANOS_PER_SECOND by { Pow10Nine(); }
    TrimZeros(Digits(nano, 9))
  }

  function TailOf(fraction: string): string {
    (if fraction == "" then "" else "." + fraction) + "Z"
  }

  function Tail(nano: int): string
    requires 0 <= nano < NANOS_PER_SECOND
  {
    TailOf(Fraction(nano))
  }

  /** `2006-01-02T15:04:05`. */
  const SECOND_LAYOUT := Number(4, Mark('-', Number(2, Mark('-', Number(2, Mark('T', CLOCK_LAYOUT))))))
  const CLOCK_LAYOUT := Number(2, Mark(':', Number(2, Mark(':', Number(2, End)))))

  function ClockFields(secondOfDay: int): seq<int> {
    [secondOfDay / 3600, secondOfDay / 60 % 60, secondOfDay % 60]
  }

  function Fields(d: Date, clock: seq<int>): seq<int> { [d.year, d.month, d.day] + clock }

  function SecondFields(sec: int): seq<int> {
    Fields(DateOf(sec / SECONDS_PER_DAY), ClockFields(sec % SECONDS_PER_DAY))
  }

  lemma ClockFits(secondOfDay: int)
    requires 0 <= secondOfDay < SECONDS_PER_DAY
    ensures Fits(CLOCK_LAYOUT, ClockFields(secondOfDay))
    ensures secondOfDay == 3600 * (secondOfDay / 3600) + 60 * (secondOfDay / 60 % 60) + secondOfDay % 60
  {
    Pow10Two();
    var c := ClockFields(secondOfDay);
    assert c[1..] == [c[1], c[2]] && c[1..][1..] == [c[2]] && [c[2]][1..] == [];
    assert Fits(Number(2, End), [c[2]]);
    assert Fits(Number(2, Mark(':', Number(2, End))), [c[1], c[2]]);
    assert secondOfDay / 60 == 60 * (secondOfDay / 3600) + secondOfDay / 60 % 60 by {
      assert secondOfDay / 60 / 60 == secondOfDay / 3600;
    }
  }

  lemma FieldsFit(d: Date, clock: seq<int>)
    requires d.Valid() && 0 <= d.year < 10000 && Fits(CLOCK_LAYOUT, clock)
    ensures Fits(SECOND_LAYOUT, Fields(d, clock))
  {
    Pow10Two();
    var f := Fields(d, clock);
    assert f[1..] == [d.month, d.day] + clock && f[1..][1..] == [d.day] + clock && f[1..][1..][1..] == clock;
    assert Fits(Mark('T', CLOCK_LAYOUT), clock);
    assert Fits(Number(2, Mark('T', CLOCK_LAYOUT)), [d.day] + clock);
    assert Fits(Number(2, Mark('-', Number(2, Mark('T', CLOCK_LAYOUT)))), [d.month, d.day] + clock);
  }

  lemma SecondFits(sec: int)
    requires 0 <= sec < FOUR_DIGIT_SECONDS
    ensures Fits(SECOND_LAYOUT, SecondFields(sec))
  {
    FourDigitDates(sec);
    ClockFits(sec % SECONDS_PER_DAY);
    FieldsFit(DateOf(sec / SECONDS_PER_DAY), ClockFields(sec % SECONDS_PER_DAY));
  }

  function SecondText(sec: int): string
    requires 0 <= sec < FOUR_DIGIT_SECONDS
  {
    SecondFits(sec);
    Render(SECOND_LAYOUT, SecondFields(sec))
  }

  /** `timeText`, for the years 0 to 9999. */
  function TimeText(t: Instant): string
    requires t.FourDigitYear()
  {
    SecondText(t.sec) + Tail(t.nano)
  }

  lemma Pow10Two()
    ensures Pow10(2) == 100 && Pow10(4) == 10000
  {
    assert Pow10(3) == 1000;
  }

  lemma Pow10Nine()
    ensures Pow10(9) == NANOS_PER_SECOND
  {
    assert Pow10(3) == 1000 && Pow10(5) == 100_000 && Pow10(7) == 10_000_000;
  }

  lemma FourDigitYears(d: Date)
    requires d.Valid() && 0 <= DayNumber(d) < 3_652_425
    ensures 0 <= d.year < 10000
  {
    DayNumberInYear(d);
    DaysBeforeYearClosedForm(10000);
    assert DaysBeforeYear(10000) == 3_652_425;
    if d.year + 1 < 0 {
      DaysBeforeYearMonotone(d.year + 1, 0);
    } else if 10000 < d.year {
      DaysBeforeYearMonotone(10000, d.year);
    }
  }

  lemma FourDigitDates(sec: int)
    requires 0 <= sec < FOUR_DIGIT_SECONDS
    ensures 0 <= DateOf(sec / SECONDS_PER_DAY).year < 10000
  {
    FourDigitYears(DateOf(sec / SECONDS_PER_DAY));
  }

  // ----- text order

  /** Same second, and one written fraction continues the other. */
  predicate FractionsClash(a: Instant, b: Instant)
    requires a.Valid() && b.Valid()
  {
    a.sec == b.sec && (Fraction(a.nano) < Fraction(b.nano) || Fraction(b.nano) < Fraction(a.nano))
  }

  /** The order the SQL comparisons see, computed on instants. */
  predicate TextBefore(a: Instant, b: Instant)
    requires a.Valid() && b.Valid()
  {
    if FractionsClash(a, b) then Earlier(b, a) else Earlier(a, b)
  }

  /** `<=` of two stored times in SQL. */
  predicate TextAtMost(a: Instant, b: Instant)
    requires a.Valid() && b.Valid()
  {
    !TextBefore(b, a)
  }

  lemma ClockOrder(s: int, t: int)
    requires 0 <= s < SECONDS_PER_DAY && 0 <= t < SECONDS_PER_DAY
    ensures ValuesLess(ClockFields(s), ClockFields(t)) <==> s < t
  {
    ClockFits(s);
    ClockFits(t);
    var (a, b) := (ClockFields(s), ClockFields(t));
    assert a[1..] == [a[1], a[2]] && b[1..] == [b[1], b[2]];
    assert a[1..][1..] == [a[2]] && b[1..][1..] == [b[2]];
    assert ValuesLess([a[2]], [b[2]]) <==> a[2] < b[2];
  }

  lemma FieldsOrder(d: Date, c: seq<int>, e: Date, k: seq<int>)
    requires d.Valid() && e.Valid()
    ensures ValuesLess(Fields(d, c), Fields(e, k)) <==> DateBefore(d, e) || (d == e && ValuesLess(c, k))
  {
    var (a, b) := (Fields(d, c), Fields(e, k));
    assert a[1..] == [d.month, d.day] + c && a[1..][1..] == [d.day] + c && a[1..][1..][1..] == c;
    assert b[1..] == [e.month, e.day] + k && b[1..][1..] == [e.day] + k && b[1..][1..][1..] == k;
    assert ValuesLess(a[1..][1..], b[1..][1..]) <==> d.day < e.day || (d.day == e.day && ValuesLess(c, k));
  }

  lemma {:induction false} SecondTextOrder(s: int, t: int)
    requires 0 <= s < FOUR_DIGIT_SECONDS && 0 <= t < FOUR_DIGIT_SECONDS
    ensures TextLess(SecondText(s), SecondText(t)) <==> s < t
    ensures |SecondText(s)| == |SecondText(t)|
    ensures SecondText(s) == SecondText(t) ==> s == t
  {
    SecondFits(s);
    SecondFits(t);
    RenderOrder(SECOND_LAYOUT, SecondFields(s), SecondFields(t));
    SecondOrder(s, t);
    SecondOfFields(s, SecondFields(s));
    SecondOfFields(t, SecondFields(t));
  }

  lemma {:induction false} SecondOrder(s: int, t: int)
    ensures ValuesLess(SecondFields(s), SecondFields(t)) <==> s < t
  {
    var (d, e) := (DateOf(s / SECONDS_PER_DAY), DateOf(t / SECONDS_PER_DAY));
    FieldsOrder(d, ClockFields(s % SECONDS_PER_DAY), e, ClockFields(t % SECONDS_PER_DAY));
    DayNumberOrder(d, e);
    ClockOrder(s % SECONDS_PER_DAY, t % SECONDS_PER_DAY);
  }

  // ----- order of the fractions

  lemma {:induction false} TrimmedZeros(s: string)
    ensures s == TrimZeros(s) + Zeros(|s| - |TrimZeros(s)|)
  {
    if |s| > 0 && s[|s| - 1] == '0' {
      TrimmedZeros(s[..|s| - 1]);
    }
  }

  lemma {:induction false} NothingBelowZeros(s: string)
    requires AllDigits(s)
    ensures !TextLess(s, Zeros(|s|))
  {
    if |s| > 0 {
      assert Zeros(|s|)[1..] == Zeros(|s| - 1);
      NothingBelowZeros(s[1..]);
    }
  }

  lemma PaddedFraction(nano: int)
    requires 0 <= nano < NANOS_PER_SECOND
    ensures Pow10(9) == NANOS_PER_SECOND
    ensures Digits(nano, 9) == Fraction(nano) + Zeros(9 - |Fraction(nano)|)
  {
    Pow10Nine();
    TrimmedZeros(Digits(nano, 9));
  }

  /** How many leading characters two texts share. */
  function CommonPrefix(a: string, b: string): (k: nat)
    ensures k <= |a| && k <= |b| && a[..k] == b[..k]
    ensures k < |a| && k < |b| ==> a[k] != b[k]
  {
    if |a| == 0 || |b| == 0 || a[0] != b[0] then 0
    else
      var k := CommonPrefix(a[1..], b[1..]);
      assert a[..k + 1] == [a[0]] + a[1..][..k] && b[..k + 1] == [b[0]] + b[1..][..k];
      k + 1
  }

  lemma PartingTexts(f: string, g: string, k: nat, x: string, y: string)
    requires k < |f| && k < |g| && f[..k] == g[..k] && f[k] < g[k]
    ensures TextLess(f + x, g + y)
  {
    assert (f + x)[..k] == f[..k] && (g + y)[..k] == g[..k];
    FirstDifference(f + x, g + y, k);
  }

  lemma PartingTails(f: string, g: string, k: nat)
    requires k < |f| && k < |g| && f[..k] == g[..k] && f[k] < g[k]
    ensures TextLess(TailOf(f), TailOf(g))
  {
    assert ("." + f)[..k + 1] == "." + f[..k] && ("." + g)[..k + 1] == "." + g[..k];
    PartingTexts("." + f, "." + g, k + 1, "Z", "Z");
  }

  lemma ContinuedTails(f: string, g: string)
    requires f < g && AllDigits(g)
    ensures TextLess(TailOf(g), TailOf(f))
  {
    if f != "" {
      var x := g[|f|..];
      assert g == f + x;
      assert TailOf(g) == "." + f + (x + "Z") && TailOf(f) == "." + f + "Z";
      FieldOrder("." + f, "." + f, x + "Z", "Z");
    }
  }

  /** A number whose digits are those of another cut off and padded with zeros is the smaller one. */
  lemma PaddedIsLeast(m: int, n: int, f: string, width: nat)
    requires 0 <= m < Pow10(width) && 0 <= n < Pow10(width) && |f| <= width
    requires Digits(m, width) == f + Zeros(width - |f|) && f <= Digits(n, width)
    ensures m <= n
  {
    PaddedNotBelow(f, Digits(n, width));
    DigitsOrder(n, m, width);
  }

  /** A fraction that another continues is the earlier instant. */
  lemma ContinuedIsLater(m: int, n: int)
    requires 0 <= m < NANOS_PER_SECOND && 0 <= n < NANOS_PER_SECOND
    requires Fraction(m) < Fraction(n)
    ensures m < n
  {
    PaddedFraction(m);
    PaddedFraction(n);
    PaddedIsLeast(m, n, Fraction(m), 9);
  }

  lemma {:induction false} PaddedNotBelow(f: string, s: string)
    requires f <= s && AllDigits(s)
    ensures !TextLess(s, f + Zeros(|s| - |f|))
  {
    var x := s[|f|..];
    assert s == f + x;
    NothingBelowZeros(x);
    FieldOrder(f, f, x, Zeros(|s| - |f|));
    TextOrderIsTotal(f, f);
  }

  /** Fractions that part at some digit sort by it as instants, too. */
  lemma PartingIsLater(m: int, n: int, k: nat)
    requires 0 <= m < NANOS_PER_SECOND && 0 <= n < NANOS_PER_SECOND
    requires k < |Fraction(m)| && k < |Fraction(n)|
    requires Fraction(m)[..k] == Fraction(n)[..k] && Fraction(m)[k] < Fraction(n)[k]
    ensures m < n
  {
    PaddedFraction(m);
    PaddedFraction(n);
    PartingTexts(Fraction(m), Fraction(n), k, Zeros(9 - |Fraction(m)|), Zeros(9 - |Fraction(n)|));
    DigitsOrder(m, n, 9);
  }

  lemma TailOrder(m: int, n: int)
    requires 0 <= m < NANOS_PER_SECOND && 0 <= n < NANOS_PER_SECOND
    ensures Fraction(m) < Fraction(n) ==> m < n && TextLess(Tail(n), Tail(m))
    ensures !(Fraction(m) < Fraction(n)) && !(Fraction(n) < Fraction(m)) && m < n ==> TextLess(Tail(m), Tail(n))
  {
    var (f, g) := (Fraction(m), Fraction(n));
    var k := CommonPrefix(f, g);
    if f < g {
      ContinuedIsLater(m, n);
      ContinuedTails(f, g);
    } else if k < |f| && k < |g| {
      if f[k] < g[k] {
        PartingIsLater(m, n, k);
        PartingTails(f, g, k);
      } else {
        PartingIsLater(n, m, k);
      }
    } else if !(g < f) {
      assert f == g;
      PaddedFraction(m);
      PaddedFraction(n);
      DigitsOrder(m, n, 9);
    }
  }

  /**
   * Byte order of stored times against time order: they agree, except that two instants of
   * one second come out reversed when one written fraction continues the other.
   */
  lemma {:induction false} TextOrderAgainstTimeOrder(a: Instant, b: Instant)
    requires a.FourDigitYear() && b.FourDigitYear()
    ensures TextLess(TimeText(a), TimeText(b)) <==> (if FractionsClash(a, b) then Earlier(b, a) else Earlier(a, b))
    ensures TimeText(a) == TimeText(b) <==> a == b
  {
    TailsDecide(a, b);
    TailsDecide(b, a);
    TextOrderIsTotal(TimeText(a), TimeText(b));
    TextOrderIsTotal(Tail(a.nano), Tail(b.nano));
    TailOrder(a.nano, b.nano);
    TailOrder(b.nano, a.nano);
  }

  lemma TailsDecide(a: Instant, b: Instant)
    requires a.FourDigitYear() && b.FourDigitYear()
    ensures TextLess(TimeText(a), TimeText(b))
        <==> a.sec < b.sec || (a.sec == b.sec && TextLess(Tail(a.nano), Tail(b.nano)))
  {
    SecondTextOrder(a.sec, b.sec);
    FieldOrder(SecondText(a.sec), SecondText(b.sec), Tail(a.nano), Tail(b.nano));
  }

  // ----- the order on stored instants

  lemma BeforeByTails(a: Instant, b: Instant)
    requires a.Valid() && b.Valid()
    ensures TextBefore(a, b) <==> a.sec < b.sec || (a.sec == b.sec && TextLess(Tail(a.nano), Tail(b.nano)))
  {
    TextOrderIsTotal(Tail(a.nano), Tail(b.nano));
    TailOrder(a.nano, b.nano);
    TailOrder(b.nano, a.nano);
  }

  lemma TextBeforeIsTotal(a: Instant, b: Instant)
    requires a.Valid() && b.Valid()
    ensures a == b || TextBefore(a, b) || TextBefore(b, a)
    ensures !(TextBefore(a, b) && TextBefore(b, a)) && !TextBefore(a, a)
  {
  }

  lemma TextBeforeIsTransitive(a: Instant, b: Instant, c: Instant)
    requires a.Valid() && b.Valid() && c.Valid()
    requires TextBefore(a, b) && TextBefore(b, c)
    ensures TextBefore(a, c)
  {
    BeforeByTails(a, b);
    BeforeByTails(b, c);
    BeforeByTails(a, c);
    if a.sec == b.sec == c.sec {
      TextOrderIsTransitive(Tail(a.nano), Tail(b.nano), Tail(c.nano));
    }
  }

  /** Text order never contradicts the whole seconds. */
  lemma TextOrderKeepsSeconds(a: Instant, b: Instant)
    requires a.Valid() && b.Valid()
    ensures TextAtMost(a, b) ==> a.sec <= b.sec
    ensures a.sec < b.sec ==> TextBefore(a, b)
  {
  }

  // ----- parsing

  /** Nine digits of the fraction: short ones padded with zeros, long ones cut off. */
  function NineDigits(f: string): (s: string)
    requires AllDigits(f)
    ensures |s| == 9 && AllDigits(s)
  {
    if |f| <= 9 then f + Zeros(9 - |f|) else f[..9]
  }

  function ParseTail(s: string): Option<int> {
    if s == "Z" then Some(0)
    else if |s| >= 3 && s[0] == '.' && s[|s| - 1] == 'Z' && AllDigits(s[1..|s| - 1]) then
      Some(Text.Number(NineDigits(s[1..|s| - 1])))
    else None
  }

  function SecondOf(f: seq<int>): Option<int> {
    if |f| != 6 then None
    else
      var d := Date(f[0], f[1], f[2]);
      if d.Valid() && f[3] < 24 && f[4] < 60 && f[5] < 60 then
        Some(DayNumber(d) * SECONDS_PER_DAY + 3600 * f[3] + 60 * f[4] + f[5])
      else None
  }

  /** `parseTime` on the texts of UTC instants. */
  function ParseTime(s: string): Option<Instant> {
    var scan :- ScanLayout(SECOND_LAYOUT, s);
    var sec :- SecondOf(scan.values);
    var nano :- ParseTail(scan.rest);
    Some(Instant(sec, nano))
  }

  lemma ParseOfTail(nano: int)
    requires 0 <= nano < NANOS_PER_SECOND
    ensures ParseTail(Tail(nano)) == Some(nano)
  {
    var f := Fraction(nano);
    PaddedFraction(nano);
    NumberOfDigits(nano, 9);
    if f == "" {
      assert Digits(nano, 9) == Zeros(9);
      ZerosAreZero(9);
    } else {
      assert Tail(nano)[1..|f| + 1] == f;
      assert NineDigits(f) == Digits(nano, 9);
    }
  }

  lemma {:induction false} ZerosAreZero(k: nat)
    ensures Text.Number(Zeros(k)) == 0
  {
    if k > 0 {
      assert Zeros(k)[..k - 1] == Zeros(k - 1);
      ZerosAreZero(k - 1);
    }
  }

  lemma SecondOfParts(sec: int, f: seq<int>, d: Date, clock: int)
    requires d.Valid() && 0 <= clock < SECONDS_PER_DAY && f == Fields(d, ClockFields(clock))
    requires sec == DayNumber(d) * SECONDS_PER_DAY + clock
    ensures SecondOf(f) == Some(sec)
  {
    ClockFits(clock);
    assert |f| == 6 && Date(f[0], f[1], f[2]) == d;
  }

  lemma SecondOfFields(sec: int, f: seq<int>)
    requires f == SecondFields(sec)
    ensures SecondOf(f) == Some(sec)
  {
    var (day, clock) := (sec / SECONDS_PER_DAY, sec % SECONDS_PER_DAY);
    SecondOfParts(sec, f, DateOf(day), clock);
  }

  /** A stored time reads back as the instant that was written. */
  lemma {:induction false} ParseOfTimeText(t: Instant)
    requires t.FourDigitYear()
    ensures ParseTime(TimeText(t)) == Some(t)
  {
    SecondFits(t.sec);
    ScanOfRender(SECOND_LAYOUT, SecondFields(t.sec), Tail(t.nano));
    SecondOfFields(t.sec, SecondFields(t.sec));
    ParseOfTail(t.nano);
  }

  // ----- an instance of the clash

  /** The fractions of a full and of a half second: nothing, and something. */
  lemma HalfSecondFraction()
    ensures Fraction(0) == "" && Fraction(500_000_000) != ""
  {
    Pow10Nine();
    TrimmedZeros(Digits(0, 9));
    ZeroDigits(9);
    TrimOfZeros(9);
    NumberOfDigits(500_000_000, 9);
    TrimmedZeros(Digits(500_000_000, 9));
    ZerosAreZero(9);
  }

  lemma {:induction false} ZeroDigits(width: nat)
    ensures Pow10(width) > 0 && Digits(0, width) == Zeros(width)
  {
    if width > 0 {
      ZeroDigits(width - 1);
    }
  }

  lemma {:induction false} TrimOfZeros(k: nat)
    ensures TrimZeros(Zeros(k)) == ""
  {
    if k > 0 {
      assert Zeros(k)[..k - 1] == Zeros(k - 1);
      TrimOfZeros(k - 1);
    }
  }
}
