/** Calendar dates of benchmark runs, from seconds since the epoch. */
module Calendar {
  import opened Wrappers
  import opened Bytes
  import opened TextLines
  import opened Decimals

  const SECONDS_PER_DAY := 86400
  const LAST_YEAR: int := 0x7FFF_FFFF

  datatype Timestamp = Timestamp(year: i32, month: nat, day: nat, hour: nat, minute: nat)

  predicate IsLeapYear(year: int) {
    (year % 4 == 0 && year % 100 != 0) || year % 400 == 0
  }

  function YearDays(year: int): nat {
    if IsLeapYear(year) then 366 else 365
  }

  function DaysInMonth(year: int, month: nat): nat {
    match month
    case 1 => 31
    case 2 => if IsLeapYear(year) then 29 else 28
    case 3 => 31
    case 4 => 30
    case 5 => 31
    case 6 => 30
    case 7 => 31
    case 8 => 31
    case 9 => 30
    case 10 => 31
    case 11 => 30
    case 12 => 31
    case _ => 0
  }

  // ---------------------------------------------------------------- closed forms

  /** Leap years from year 1 up to and including this one. */
  function LeapYearsThrough(year: nat): nat {
    year / 4 - year / 100 + year / 400
  }

  /** Days from the epoch to the first of January. */
  function DaysBeforeYear(year: nat): int
    requires year >= 1970
  {
    365 * (year - 1970) + LeapYearsThrough(year - 1) - LeapYearsThrough(1969)
  }

  /** Days from the first of January to the first of a month, by the almanac's closed formula;
      month 13 is the next January. The month lengths of the source do not enter it. */
  function DaysBeforeMonth(year: int, month: nat): int {
    275 * month / 9 - (if IsLeapYear(year) then 1 else 2) * ((month + 9) / 12) - 30
  }

  predicate ValidDate(t: Timestamp) {
    && 1970 <= t.year
    && 1 <= t.month <= 12
    && 1 <= t.day <= DaysBeforeMonth(t.year, t.month + 1) - DaysBeforeMonth(t.year, t.month)
    && t.hour < 24 && t.minute < 60
  }

  function DayNumber(t: Timestamp): int
    requires ValidDate(t)
  {
    DaysBeforeYear(t.year) + DaysBeforeMonth(t.year, t.month) + t.day - 1
  }

  /** The first second of the timestamp's minute. */
  function FirstSecond(t: Timestamp): int
    requires ValidDate(t)
  {
    DayNumber(t) * SECONDS_PER_DAY + t.hour * 3600 + t.minute * 60
  }

  lemma FourYears(year: nat)
    requires year >= 1
    ensures year / 4 - (year - 1) / 4 == if year % 4 == 0 then 1 else 0
    ensures year / 100 - (year - 1) / 100 == if year % 100 == 0 then 1 else 0
  {
  }

  lemma FourHundredYears(year: nat)
    requires year >= 1
    ensures year / 400 - (year - 1) / 400 == if year % 400 == 0 then 1 else 0
  {
  }

  lemma CenturyRules(year: nat)
    ensures year % 100 == 0 ==> year % 4 == 0
    ensures year % 400 == 0 ==> year % 100 == 0
  {
    if year % 100 == 0 {
      MultiplesOf(25 * (year / 100), 4);
    }
    if year % 400 == 0 {
      MultiplesOf(4 * (year / 400), 100);
    }
  }

  lemma MultiplesOf(k: nat, n: nat)
    requires n == 4 || n == 100
    ensures n * k % n == 0
  {
  }

  lemma NextYear(year: nat)
    requires year >= 1970
    ensures DaysBeforeYear(year + 1) == DaysBeforeYear(year) + YearDays(year)
  {
    FourYears(year);
    FourHundredYears(year);
    CenturyRules(year);
  }

  /** The source's month lengths are the steps of the closed formula, from the first of January to
      the end of the year, and no other number is a month. */
  lemma MonthLengths(year: int, month: nat)
    ensures DaysBeforeMonth(year, 1) == 0 && DaysBeforeMonth(year, 13) == YearDays(year)
    ensures 1 <= month <= 12
        ==> DaysInMonth(year, month) == DaysBeforeMonth(year, month + 1) - DaysBeforeMonth(year, month)
    ensures !(1 <= month <= 12) ==> DaysInMonth(year, month) == 0
  {
  }

  // ---------------------------------------------------------------- the timestamp of a second

  /** `BenchmarkTimestamp::now` at a given time. Years are 32-bit: beyond the last one there is
      no timestamp. */
  method Now(totalSeconds: u64) returns (r: Option<Timestamp>)
    ensures r.Some? <==> totalSeconds / SECONDS_PER_DAY < DaysBeforeYear(LAST_YEAR + 1)
    ensures r.Some? ==> ValidDate(r.value)
    ensures r.Some? ==> FirstSecond(r.value) <= totalSeconds < FirstSecond(r.value) + 60
  {
    var secondsToday := totalSeconds % SECONDS_PER_DAY;
    var days := totalSeconds / SECONDS_PER_DAY;
    var year: i32 := 1970;
    while days >= YearDays(year)
      invariant year >= 1970 && days >= 0
      invariant DaysBeforeYear(year) + days == totalSeconds / SECONDS_PER_DAY
      decreases days
    {
      NextYear(year);
      if year == LAST_YEAR {
        return None;
      }
      days := days - YearDays(year);
      year := year + 1;
    }
    YearsInOrder(year + 1, LAST_YEAR + 1);
    NextYear(year);

    ghost var dayOfYear := days;
    var month := 1;
    MonthLengths(year, month);
    while days >= DaysInMonth(year, month)
      invariant 1 <= month <= 12 && days >= 0
      invariant DaysBeforeMonth(year, month) + days == dayOfYear < YearDays(year)
      decreases 12 - month
    {
      MonthLengths(year, month);
      days := days - DaysInMonth(year, month);
      month := month + 1;
    }
    MonthLengths(year, month);
    return Some(Timestamp(year, month, days + 1, secondsToday / 3600, secondsToday % 3600 / 60));
  }

  // ---------------------------------------------------------------- order

  lemma {:induction false} YearsInOrder(a: nat, b: nat)
    requires 1970 <= a <= b
    ensures DaysBeforeYear(a) + 365 * (b - a) <= DaysBeforeYear(b)
    decreases b - a
  {
    if a < b {
      NextYear(a);
      YearsInOrder(a + 1, b);
    }
  }

  lemma {:induction false} MonthsInOrder(year: int, m: nat, n: nat)
    requires 1 <= m < n <= 13
    ensures DaysBeforeMonth(year, m + 1) <= DaysBeforeMonth(year, n)
    decreases n
  {
    if m < n - 1 {
      MonthLengths(year, n - 1);
      MonthsInOrder(year, m, n - 1);
    }
  }

  predicate Earlier(a: Timestamp, b: Timestamp) {
    || a.year < b.year
    || (a.year == b.year && a.month < b.month)
    || (a.year == b.year && a.month == b.month && a.day < b.day)
    || (a.year == b.year && a.month == b.month && a.day == b.day && a.hour < b.hour)
    || (a.year == b.year && a.month == b.month && a.day == b.day && a.hour == b.hour && a.minute < b.minute)
  }

  lemma MonthsAfterNewYear(year: int, month: nat)
    requires 1 <= month <= 13
    ensures DaysBeforeMonth(year, month) >= 0
  {
  }

  lemma DaysInOrder(a: Timestamp, b: Timestamp)
    requires ValidDate(a) && ValidDate(b)
    ensures a.year < b.year || (a.year == b.year && a.month < b.month) ==> DayNumber(a) < DayNumber(b)
  {
    hide DaysBeforeMonth, DaysBeforeYear;
    MonthsAfterNewYear(b.year, b.month);
    if a.year < b.year {
      MonthLengths(a.year, a.month);
      NextYear(a.year);
      YearsInOrder(a.year + 1, b.year);
      if a.month < 12 {
        MonthsInOrder(a.year, a.month, 13);
      }
    } else if a.year == b.year && a.month < b.month {
      MonthsInOrder(a.year, a.month, b.month);
    }
  }

  /** Earlier timestamps begin at least a minute before later ones. */
  lemma EarlierBegins(a: Timestamp, b: Timestamp)
    requires ValidDate(a) && ValidDate(b) && Earlier(a, b)
    ensures FirstSecond(a) + 60 <= FirstSecond(b)
  {
    hide DaysBeforeMonth, DaysBeforeYear;
    DaysInOrder(a, b);
  }

  /** Time never runs backwards: a second in the minute of `a` is not after one in the minute
      of `b` unless `b` is the same timestamp or an earlier one. Two timestamps that hold one
      second are the same. */
  lemma LaterTimesLaterStamps(s: nat, t: nat, a: Timestamp, b: Timestamp)
    requires ValidDate(a) && FirstSecond(a) <= s < FirstSecond(a) + 60
    requires ValidDate(b) && FirstSecond(b) <= t < FirstSecond(b) + 60
    ensures s <= t ==> a == b || Earlier(a, b)
    ensures s == t ==> a == b
  {
    hide FirstSecond;
    if Earlier(b, a) {
      EarlierBegins(b, a);
    }
    if Earlier(a, b) {
      EarlierBegins(a, b);
    }
  }

  // ---------------------------------------------------------------- month keys

  /** `format!("{:04}-{:02}")` of a year since the epoch. */
  function MonthKey(year: nat, month: nat): string {
    Padded(year, 4) + ['-'] + Padded(month, 2)
  }

  lemma PaddedFits(n: nat, width: nat)
    requires width >= 1 && n < Power10(width)
    ensures Padded(n, width) == Digits(n, width)
  {
    WidthMonotone(n, width);
  }

  /** The seven characters of a key up to the year 9999. */
  lemma MonthKeyText(year: nat, month: nat)
    requires year <= 9999 && month <= 99
    ensures MonthKey(year, month)
         == [Digit(year / 1000), Digit(year / 100 % 10), Digit(year / 10 % 10), Digit(year % 10), '-',
             Digit(month / 10), Digit(month % 10)]
  {
    assert Power10(4) == 10_000 && Power10(2) == 100;
    PaddedFits(year, 4);
    PaddedFits(month, 2);
    assert year / 10 / 10 == year / 100 && year / 100 / 10 == year / 1000;
    assert Digits(year / 1000, 1) == [Digit(year / 1000)];
    assert Digits(year / 100, 2) == [Digit(year / 1000), Digit(year / 100 % 10)];
    assert Digits(year / 10, 3) == [Digit(year / 1000), Digit(year / 100 % 10), Digit(year / 10 % 10)];
    assert Digits(month / 10, 1) == [Digit(month / 10)];
  }

  /** How many digits of the year a key shows. */
  function YearWidth(year: nat): (w: nat)
    ensures w >= 4
  {
    if Width(year) < 4 then 4 else Width(year)
  }

  lemma YearFits(year: nat)
    ensures year < Power10(YearWidth(year)) && Padded(year, 4) == Digits(year, YearWidth(year))
  {
    assert Power10(4) == 10_000;
    WidthBounds(year);
    if Width(year) < 4 {
      PowersGrow(Width(year), 4);
    }
  }

  lemma {:induction false} PowersGrow(a: nat, b: nat)
    requires a <= b
    ensures Power10(a) <= Power10(b)
    decreases b - a
  {
    if a < b {
      PowersGrow(a, b - 1);
    }
  }

  /** Keys that show equally many digits of the year, so all keys up to the year 9999, compare
      as the months do. */
  lemma MonthKeysInOrder(y: nat, m: nat, z: nat, n: nat)
    requires YearWidth(y) == YearWidth(z) && m <= 12 && n <= 12
    ensures TextLeq(MonthKey(y, m), MonthKey(z, n)) <==> y < z || (y == z && m <= n)
  {
    hide TextLeq, Digits, Padded;
    var w := YearWidth(y);
    assert Power10(2) == 100;
    YearFits(y);
    YearFits(z);
    PaddedFits(m, 2);
    PaddedFits(n, 2);
    DigitsOrder(y, z, w);
    DigitsOrder(m, n, 2);
    LexOfLast(Digits(y, w), Digits(z, w), '-', '-');
    LexOfConcat(Digits(y, w) + ['-'], Digits(z, w) + ['-'], Digits(m, 2), Digits(n, 2));
    if Digits(y, w) + ['-'] == Digits(z, w) + ['-'] {
      assert (Digits(y, w) + ['-'])[..w] == (Digits(z, w) + ['-'])[..w];
    }
  }

  lemma FourDigitYears(year: nat)
    ensures YearWidth(year) == 4 <==> year <= 9999
  {
    assert Power10(4) == 10_000;
    WidthBounds(year);
    if year <= 9999 {
      WidthMonotone(year, 4);
    }
  }

  /** A key with fewer digits belongs to an earlier year, yet it sorts first only if its year is
      at most the leading digits of the other's. */
  lemma ShorterKeySortsFirstExactly(y: nat, m: nat, z: nat, n: nat)
    requires YearWidth(y) < YearWidth(z)
    ensures TextLeq(MonthKey(y, m), MonthKey(z, n))
       <==> y <= Leading(z, YearWidth(z) - YearWidth(y))
  {
    hide TextLeq, Digits, Padded, Power10, Width, Leading;
    var w, k := YearWidth(y), YearWidth(z) - YearWidth(y);
    var lead := Leading(z, k);
    YearFits(y);
    YearFits(z);
    var rest := DigitsSplit(z, w, k);
    var left, right := ['-'] + Padded(m, 2), rest + ['-'] + Padded(n, 2);
    assert MonthKey(y, m) == Digits(y, w) + left;
    assert MonthKey(z, n) == Digits(lead, w) + right;
    LexOfConcat(Digits(y, w), Digits(lead, w), left, right);
    LeadingFits(z, w, k);
    DigitsOrder(y, lead, w);
    DashFirst(left, right);
  }

  lemma DashFirst(left: string, right: string)
    requires left != [] && right != [] && left[0] == '-' && '0' <= right[0] <= '9'
    ensures TextLeq(left, right)
  {
  }

  /** From the year 10000 on they no longer do. */
  lemma FiveDigitYearSortsFirst()
    ensures TextLeq(MonthKey(10_000, 1), MonthKey(9_999, 12)) && !TextLeq(MonthKey(9_999, 12), MonthKey(10_000, 1))
  {
    assert Width(10_000) == 5;
    assert Width(9_999) == 4;
    assert Digits(10, 2)[0] == '1' && Digits(1_000, 4)[0] == Digits(10, 2)[0] && Digits(10_000, 5)[0] == '1';
    assert Digits(99, 2)[0] == '9' && Digits(9_999, 4)[0] == '9';
  }
}
