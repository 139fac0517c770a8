/** Dates computed from the time alone (crates/peercove-cli/src/quality.rs, 454-479). */
module Calendar {
  import opened Numerals

  datatype Date = Date(year: int, month: int, day: int)

  const MS_PER_DAY: nat := 86_400_000

  // ----- the source's arithmetic -----

  function YearOf(doe: int): int {
    (doe - doe / 1_460 + doe / 36_524 - doe / 146_096) / 365
  }

  /** The year that the last first of March began, and the days since. */
  function MarchDay(days: nat): (int, int) {
    var z := days + 719_468;
    var era := z / 146_097;
    var doe := z - era * 146_097;
    var yoe := YearOf(doe);
    (yoe + era * 400, doe - (365 * yoe + yoe / 4 - yoe / 100))
  }

  function CivilDate(days: nat): Date {
    FromMarch(MarchDay(days).0, MarchDay(days).1)
  }

  /** The date `doy` days after the first of March of `year`. */
  function FromMarch(year: int, doy: int): Date {
    var mp := (5 * doy + 2) / 153;
    var day := doy - (153 * mp + 2) / 5 + 1;
    var month := mp + if mp < 10 then 3 else -9;
    Date(year + if month <= 2 then 1 else 0, month, day)
  }

  // ----- the Gregorian calendar -----

  predicate Leap(year: int) {
    year % 4 == 0 && (year % 100 != 0 || year % 400 == 0)
  }

  function MonthLength(year: int, month: int): int {
    if month == 2 then if Leap(year) then 29 else 28
    else if month in {4, 6, 9, 11} then 30
    else 31
  }

  predicate Valid(d: Date) {
    1 <= d.month <= 12 && 1 <= d.day <= MonthLength(d.year, d.month)
  }

  function NextDay(d: Date): Date {
    if d.day < MonthLength(d.year, d.month) then d.(day := d.day + 1)
    else if d.month < 12 then Date(d.year, d.month + 1, 1)
    else Date(d.year + 1, 1, 1)
  }

  /** The number of leap days up to the end of `year`. */
  function LeapsThrough(year: int): int {
    year / 4 - year / 100 + year / 400
  }

  function DaysBefore(year: int, month: int): int
    requires 1 <= month
    decreases month
  {
    if month == 1 then 0 else DaysBefore(year, month - 1) + MonthLength(year, month - 1)
  }

  /** Days since the first of January 1970. */
  function DayNumber(d: Date): int
    requires Valid(d)
  {
    365 * (d.year - 1970) + LeapsThrough(d.year - 1) - LeapsThrough(1969) + DaysBefore(d.year, d.month) + d.day - 1
  }

  // ----- the year that begins in March -----

  function StartOf(yoe: int): int {
    365 * yoe + yoe / 4 - yoe / 100
  }

  /** A day of the era: century, four years within it, year within these, day. */
  predicate Parts(c: int, k: int, j: int, d: int) {
    && 0 <= c <= 3 && 0 <= k <= 24 && 0 <= j <= 3 && 0 <= d <= 365
    && (d == 365 ==> j == 3 && (k < 24 || c == 3))
  }

  lemma YearOfParts(c: int, k: int, j: int, d: int)
    requires Parts(c, k, j, d)
    ensures YearOf(36_524 * c + 1_461 * k + 365 * j + d) == 100 * c + 4 * k + j
  {
    var doe := 36_524 * c + 1_461 * k + 365 * j + d;
    var carry := if 24 * c + k + 365 * j + d >= 1_460 then 1 else 0;
    var last := if doe == 146_096 then 1 else 0;
    Quotient(doe, 1_460, 25 * c + k + carry);
    Quotient(doe, 36_524, c + last);
    Quotient(doe, 146_096, last);
    Quotient(365 * (100 * c + 4 * k + j) + d - carry, 365, 100 * c + 4 * k + j);
  }

  lemma StartOfParts(c: int, k: int, j: int)
    requires 0 <= k <= 24 && 0 <= j <= 3
    ensures StartOf(100 * c + 4 * k + j) == 36_524 * c + 1_461 * k + 365 * j
  {
    Quotient(100 * c + 4 * k + j, 4, 25 * c + k);
    Quotient(100 * c + 4 * k + j, 100, c);
  }

  lemma PartsOf(doe: int) returns (c: int, k: int, j: int, d: int)
    requires 0 <= doe < 146_097
    ensures Parts(c, k, j, d) && doe == 36_524 * c + 1_461 * k + 365 * j + d
  {
    c := if doe / 36_524 > 3 then 3 else doe / 36_524;
    var r := doe - 36_524 * c;
    k := r / 1_461;
    var s := r - 1_461 * k;
    j := if s / 365 > 3 then 3 else s / 365;
    d := s - 365 * j;
  }

  /** The source finds day `d` of the year from March that the parts say. */
  lemma MarchDayIs(days: nat, era: int, c: int, k: int, j: int, d: int)
    requires Parts(c, k, j, d) && days + 719_468 == 146_097 * era + 36_524 * c + 1_461 * k + 365 * j + d
    ensures MarchDay(days) == (YearAt(era, c, k, j), d)
  {
    var doe, yoe := 36_524 * c + 1_461 * k + 365 * j + d, 100 * c + 4 * k + j;
    EraIs(days + 719_468, era, doe);
    YearOfParts(c, k, j, d);
    StartOfParts(c, k, j);
    assert MarchDay(days) == (yoe + era * 400, doe - StartOf(yoe));
  }

  lemma EraIs(z: int, era: int, doe: int)
    requires 0 <= doe < 146_097 && z == 146_097 * era + doe
    ensures z / 146_097 == era && z - z / 146_097 * 146_097 == doe
  {
    Quotient(z, 146_097, era);
  }

  /** The year from March has a leap day at its end. */
  predicate LongYear(year: int) {
    Leap(year + 1)
  }

  lemma LongYearOfParts(era: int, c: int, k: int, j: int)
    requires 0 <= c <= 3 && 0 <= k <= 24 && 0 <= j <= 3
    ensures LongYear(400 * era + 100 * c + 4 * k + j) <==> j == 3 && (k < 24 || c == 3)
  {
    var y := 400 * era + 100 * c + 4 * k + j + 1;
    Remainder(y, 4, 100 * era + 25 * c + k + if j == 3 then 1 else 0, if j == 3 then 0 else j + 1);
    if j == 3 {
      if k < 24 {
        Remainder(y, 100, 4 * era + c, 4 * k + 4);
      } else {
        Remainder(y, 100, 4 * era + c + 1, 0);
        Remainder(y, 400, era + if c == 3 then 1 else 0, if c == 3 then 0 else 100 * (c + 1));
      }
    }
  }

  lemma Remainder(x: int, n: int, q: int, r: int)
    requires 0 <= r < n && x == q * n + r
    ensures x % n == r
  {
    Quotient(x, n, q);
  }

  /** The lengths of the months from March on, and where they begin. */
  lemma MarchMonth(doy: int)
    requires 0 <= doy <= 365
    ensures
      var mp := (5 * doy + 2) / 153;
      var first := (153 * mp + 2) / 5;
      && 0 <= mp <= 11 && first <= doy
      && (mp == 11 ==> first == 337) && (mp < 11 ==> doy < first + if mp in {1, 3, 6, 8} then 30 else 31)
      && (mp < 11 ==> (153 * (mp + 1) + 2) / 5 == first + if mp in {1, 3, 6, 8} then 30 else 31)
  {
  }

  /** The day after is in the same month or begins the next one. */
  lemma NextMonth(doy: int)
    requires 0 <= doy <= 364
    ensures
      var mp, mp' := (5 * doy + 2) / 153, (5 * (doy + 1) + 2) / 153;
      mp' == mp || (mp' == mp + 1 && (153 * mp' + 2) / 5 == doy + 1)
  {
  }

  lemma StepInYear(year: int, doy: int)
    requires 0 <= doy < 364 || (doy == 364 && LongYear(year))
    ensures Valid(FromMarch(year, doy)) && FromMarch(year, doy + 1) == NextDay(FromMarch(year, doy))
  {
    MarchMonth(doy);
    MarchMonth(doy + 1);
    NextMonth(doy);
  }

  lemma StepToNextYear(year: int, doy: int)
    requires doy == if LongYear(year) then 365 else 364
    ensures Valid(FromMarch(year, doy)) && FromMarch(year + 1, 0) == NextDay(FromMarch(year, doy))
  {
  }

  predicate EndsLong(c: int, k: int, j: int) {
    j == 3 && (k < 24 || c == 3)
  }

  function YearAt(era: int, c: int, k: int, j: int): int {
    400 * era + 100 * c + 4 * k + j
  }

  /** The day after, in parts. */
  lemma NextParts(z: int, era: int, c: int, k: int, j: int, d: int) returns (era': int, c': int, k': int, j': int, d': int)
    requires Parts(c, k, j, d) && z == 146_097 * era + 36_524 * c + 1_461 * k + 365 * j + d
    ensures Parts(c', k', j', d') && z + 1 == 146_097 * era' + 36_524 * c' + 1_461 * k' + 365 * j' + d'
    ensures
      if d < 364 || (d == 364 && EndsLong(c, k, j)) then YearAt(era', c', k', j') == YearAt(era, c, k, j) && d' == d + 1
      else YearAt(era', c', k', j') == YearAt(era, c, k, j) + 1 && d' == 0
  {
    if d < 364 || (d == 364 && EndsLong(c, k, j)) {
      return era, c, k, j, d + 1;
    } else if j < 3 {
      return era, c, k, j + 1, 0;
    } else if k < 24 {
      return era, c, k + 1, 0, 0;
    } else if c < 3 {
      return era, c + 1, 0, 0, 0;
    } else {
      return era + 1, 0, 0, 0, 0;
    }
  }

  lemma DayByDay(era: int, c: int, k: int, j: int, d: int)
    requires Parts(c, k, j, d)
    ensures Valid(FromMarch(YearAt(era, c, k, j), d))
    ensures NextDay(FromMarch(YearAt(era, c, k, j), d)) ==
      if d < 364 || (d == 364 && EndsLong(c, k, j)) then FromMarch(YearAt(era, c, k, j), d + 1)
      else FromMarch(YearAt(era, c, k, j) + 1, 0)
  {
    LongYearOfParts(era, c, k, j);
    if d < 364 || (d == 364 && EndsLong(c, k, j)) {
      StepInYear(YearAt(era, c, k, j), d);
    } else {
      StepToNextYear(YearAt(era, c, k, j), d);
    }
  }

  /** A day and the one after it, in parts. */
  lemma TwoDays(days: nat) returns (era: int, c: int, k: int, j: int, d: int)
    ensures Parts(c, k, j, d) && MarchDay(days) == (YearAt(era, c, k, j), d)
    ensures MarchDay(days + 1) ==
      if d < 364 || (d == 364 && EndsLong(c, k, j)) then (YearAt(era, c, k, j), d + 1) else (YearAt(era, c, k, j) + 1, 0)
  {
    var z := days + 719_468;
    era := z / 146_097;
    c, k, j, d := PartsOf(z - era * 146_097);
    var era', c', k', j', d' := NextParts(z, era, c, k, j, d);
    MarchDayIs(days, era, c, k, j, d);
    MarchDayIs(days + 1, era', c', k', j', d');
  }

  /** Every day number gives a date of the calendar, and the next one the date after it. */
  lemma CivilDateSteps(days: nat)
    ensures Valid(CivilDate(days)) && CivilDate(days + 1) == NextDay(CivilDate(days))
  {
    var era, c, k, j, d := TwoDays(days);
    DayByDay(era, c, k, j, d);
  }

  lemma FirstDay()
    ensures CivilDate(0) == Date(1970, 1, 1)
  {
    MarchDayIs(0, 4, 3, 17, 1, 306);
  }

  /** The date found by counting day after day from the first of January 1970. */
  ghost function Nth(days: nat): Date {
    if days == 0 then Date(1970, 1, 1) else NextDay(Nth(days - 1))
  }

  ghost predicate StepsAt(f: nat -> Date, days: nat) {
    f(days + 1) == NextDay(f(days))
  }

  lemma {:induction false} Counted(f: nat -> Date, days: nat)
    requires f(0) == Date(1970, 1, 1) && forall i: nat :: StepsAt(f, i)
    ensures f(days) == Nth(days)
  {
    if days > 0 {
      Counted(f, days - 1);
      assert StepsAt(f, days - 1);
    }
  }

  lemma CivilDateIsNth(days: nat)
    ensures CivilDate(days) == Nth(days)
  {
    FirstDay();
    forall i: nat
      ensures StepsAt(CivilDate, i)
    {
      CivilDateSteps(i);
    }
    Counted(CivilDate, days);
  }

  // ----- back to the day number -----

  lemma LeapsStep(year: int)
    ensures LeapsThrough(year) == LeapsThrough(year - 1) + if Leap(year) then 1 else 0
  {
    QuotientStep(year, 4);
    QuotientStep(year, 100);
    QuotientStep(year, 400);
    assert year % 400 == 0 ==> year % 100 == 0;
    assert year % 100 == 0 ==> year % 4 == 0;
  }

  lemma QuotientStep(x: int, n: int)
    requires n > 1
    ensures x / n == (x - 1) / n + if x % n == 0 then 1 else 0
  {
    if x % n == 0 {
      Quotient(x - 1, n, x / n - 1);
    } else {
      Quotient(x - 1, n, x / n);
    }
  }

  lemma YearBeforeDecember(year: int)
    ensures DaysBefore(year, 12) == 334 + if Leap(year) then 1 else 0
  {
    assert DaysBefore(year, 4) == 90 + if Leap(year) then 1 else 0;
    assert DaysBefore(year, 8) == DaysBefore(year, 4) + 122;
    assert DaysBefore(year, 12) == DaysBefore(year, 8) + 122;
  }

  lemma NextDayNumber(d: Date)
    requires Valid(d)
    ensures Valid(NextDay(d)) && DayNumber(NextDay(d)) == DayNumber(d) + 1
  {
    if d.day == MonthLength(d.year, d.month) && d.month == 12 {
      YearBeforeDecember(d.year);
      LeapsStep(d.year);
    }
  }

  lemma {:induction false} DayNumberOfNth(days: nat)
    ensures Valid(Nth(days)) && DayNumber(Nth(days)) == days
  {
    if days > 0 {
      DayNumberOfNth(days - 1);
      NextDayNumber(Nth(days - 1));
    }
  }

  /** The date gives the day number back. */
  lemma DayNumberOfCivilDate(days: nat)
    ensures Valid(CivilDate(days)) && DayNumber(CivilDate(days)) == days
  {
    CivilDateIsNth(days);
    DayNumberOfNth(days);
  }

  // ----- the order of dates and of their names -----

  predicate Earlier(a: Date, b: Date) {
    a.year < b.year || (a.year == b.year && (a.month < b.month || (a.month == b.month && a.day < b.day)))
  }

  lemma NextDayIsLater(d: Date, from: Date)
    requires Valid(d) && (from == d || Earlier(from, d))
    ensures Earlier(from, NextDay(d))
  {
  }

  lemma {:induction false} LaterDays(m: nat, n: nat)
    requires m < n
    ensures Earlier(Nth(m), Nth(n))
    decreases n - m
  {
    DayNumberOfNth(n - 1);
    if m < n - 1 {
      LaterDays(m, n - 1);
    }
    NextDayIsLater(Nth(n - 1), Nth(m));
  }

  /** The last `k` digits, with zeros in front. */
  function Padded(n: int, k: nat): (s: string)
    requires n >= 0
    ensures |s| == k
  {
    if k == 0 then "" else Padded(n / 10, k - 1) + [Digit(n % 10)]
  }

  /** A year is widened to four digits; later years take more. */
  function NameOf(d: Date): string
    requires d.year >= 0 && Valid(d)
  {
    (if d.year < 10_000 then Padded(d.year, 4) else Decimal(d.year)) + "-" + Padded(d.month, 2) + "-" + Padded(d.day, 2)
  }

  /** The order of strings by their characters. */
  predicate Before(a: string, b: string) {
    b != [] && (a == [] || a[0] < b[0] || (a[0] == b[0] && Before(a[1..], b[1..])))
  }

  function Power(k: nat): nat {
    if k == 0 then 1 else 10 * Power(k - 1)
  }

  lemma {:induction false} PrefixesCancel(p: string, a: string, b: string)
    ensures Before(p + a, p + b) <==> Before(a, b)
  {
    if p == [] {
      assert p + a == a && p + b == b;
    } else {
      PrefixesCancel(p[1..], a, b);
      assert (p + a)[1..] == p[1..] + a && (p + b)[1..] == p[1..] + b;
    }
  }

  lemma DigitsOrder(x: nat, y: nat, a: string, b: string)
    requires x < 10 && y < 10
    ensures Before([Digit(x)] + a, [Digit(y)] + b) <==> x < y || (x == y && Before(a, b))
  {
    assert ([Digit(x)] + a)[1..] == a && ([Digit(y)] + b)[1..] == b;
  }

  lemma LastDigitOn(n: int, k: nat, a: string)
    requires n >= 0 && k > 0
    ensures Padded(n, k) + a == Padded(n / 10, k - 1) + ([Digit(n % 10)] + a)
  {
  }

  /** Numbers of equal width order as their digits do. */
  lemma {:induction false} PaddedOrder(m: int, n: int, k: nat, a: string, b: string)
    requires 0 <= m && 0 <= n && m < Power(k) && n < Power(k)
    ensures Before(Padded(m, k) + a, Padded(n, k) + b) <==> m < n || (m == n && Before(a, b))
  {
    if k == 0 {
      assert Padded(m, 0) + a == a && Padded(n, 0) + b == b;
    } else {
      LastDigitOn(m, k, a);
      LastDigitOn(n, k, b);
      DigitsOrder(m % 10, n % 10, a, b);
      PaddedOrder(m / 10, n / 10, k - 1, [Digit(m % 10)] + a, [Digit(n % 10)] + b);
    }
  }

  function DayTail(d: Date): string
    requires Valid(d)
  {
    "-" + Padded(d.day, 2)
  }

  function MonthTail(d: Date): string
    requires Valid(d)
  {
    "-" + (Padded(d.month, 2) + DayTail(d))
  }

  lemma DayTailsOrder(a: Date, b: Date)
    requires Valid(a) && Valid(b)
    ensures Before(DayTail(a), DayTail(b)) <==> a.day < b.day
  {
    assert Power(2) == 100;
    PaddedOrder(a.day, b.day, 2, [], []);
    assert Padded(a.day, 2) + [] == Padded(a.day, 2) && Padded(b.day, 2) + [] == Padded(b.day, 2);
    PrefixesCancel("-", Padded(a.day, 2), Padded(b.day, 2));
  }

  lemma MonthTailsOrder(a: Date, b: Date)
    requires Valid(a) && Valid(b)
    ensures Before(MonthTail(a), MonthTail(b)) <==> a.month < b.month || (a.month == b.month && a.day < b.day)
  {
    assert Power(2) == 100;
    DayTailsOrder(a, b);
    PaddedOrder(a.month, b.month, 2, DayTail(a), DayTail(b));
    PrefixesCancel("-", Padded(a.month, 2) + DayTail(a), Padded(b.month, 2) + DayTail(b));
  }

  lemma NameInParts(d: Date)
    requires Valid(d) && 0 <= d.year < 10_000
    ensures NameOf(d) == Padded(d.year, 4) + MonthTail(d) && |NameOf(d)| == 10
  {
  }

  lemma NamesOrder(a: Date, b: Date)
    requires Valid(a) && Valid(b) && 0 <= a.year < 10_000 && 0 <= b.year < 10_000
    ensures Before(NameOf(a), NameOf(b)) <==> Earlier(a, b)
  {
    assert Power(2) == 100 && Power(4) == 100 * Power(2);
    NameInParts(a);
    NameInParts(b);
    MonthTailsOrder(a, b);
    PaddedOrder(a.year, b.year, 4, MonthTail(a), MonthTail(b));
  }

  /** The order of strings is total. */
  lemma {:induction false} Trichotomy(a: string, b: string)
    ensures Before(a, b) || a == b || Before(b, a)
    ensures !(Before(a, b) && Before(b, a)) && !Before(a, a)
  {
    if a != [] && b != [] {
      Trichotomy(a[1..], b[1..]);
      assert a == [a[0]] + a[1..] && b == [b[0]] + b[1..];
    } else if a != [] {
      Trichotomy(a[1..], a[1..]);
    }
  }

  lemma {:induction false} BeforeThrough(a: string, b: string, c: string)
    requires Before(a, b) && Before(b, c)
    ensures Before(a, c)
  {
    if a != [] && a[0] == b[0] == c[0] {
      BeforeThrough(a[1..], b[1..], c[1..]);
    }
  }

  lemma {:induction false} SuffixesCancel(a: string, b: string, end: string)
    requires |a| == |b|
    ensures Before(a + end, b + end) <==> Before(a, b)
  {
    if a == [] {
      assert a + end == end && b + end == end;
      Trichotomy(end, end);
    } else {
      SuffixesCancel(a[1..], b[1..], end);
      assert (a + end)[1..] == a[1..] + end && (b + end)[1..] == b[1..] + end;
    }
  }

  lemma YearsFrom1970(days: nat)
    ensures Valid(Nth(days)) && Nth(days).year >= 1970
  {
    DayNumberOfNth(days);
    if days > 0 {
      LaterDays(0, days);
    }
  }

  /** Up to the year 9999 the names order exactly as the days do. */
  lemma NamesOrderAsDays(m: nat, n: nat)
    requires CivilDate(m).year < 10_000 && CivilDate(n).year < 10_000
    ensures Valid(CivilDate(m)) && Valid(CivilDate(n)) && CivilDate(m).year >= 0 && CivilDate(n).year >= 0
    ensures Before(NameOf(CivilDate(m)), NameOf(CivilDate(n))) <==> m < n
  {
    CivilDateIsNth(m);
    CivilDateIsNth(n);
    NthNamesOrder(m, n);
  }

  lemma NthNamesOrder(m: nat, n: nat)
    requires Nth(m).year < 10_000 && Nth(n).year < 10_000
    ensures Valid(Nth(m)) && Valid(Nth(n)) && Nth(m).year >= 0 && Nth(n).year >= 0
    ensures Before(NameOf(Nth(m)), NameOf(Nth(n))) <==> m < n
  {
    YearsFrom1970(m);
    YearsFrom1970(n);
    NamesOrder(Nth(m), Nth(n));
    if m < n {
      LaterDays(m, n);
    } else if n < m {
      LaterDays(n, m);
    }
  }

  /** With the year 10000 the order of names turns over. */
  lemma NamesTurnOver()
    ensures Before(NameOf(Date(10_000, 1, 1)), NameOf(Date(9_999, 12, 31)))
    ensures NextDay(Date(9_999, 12, 31)) == Date(10_000, 1, 1)
  {
    var late, early := NameOf(Date(10_000, 1, 1)), NameOf(Date(9_999, 12, 31));
    assert Decimal(10) == [Digit(1)] + [Digit(0)];
    assert Decimal(10_000)[0] == Digit(1);
    assert Padded(9, 1)[0] == Digit(9);
    assert Padded(9_999, 4)[0] == Digit(9);
    assert late[0] == Digit(1) && early[0] == Digit(9);
  }
}
