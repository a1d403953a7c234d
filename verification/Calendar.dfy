/** Clocks of a fixed offset read Gregorian dates in the order of the instants. */
module Calendar {
  import opened Timeline

  predicate Leap(year: nat) {
    year % 4 == 0 && (year % 100 != 0 || year % 400 == 0)
  }

  function MonthDays(year: nat, month: nat): nat {
    if month in {4, 6, 9, 11} then 30
    else if month == 2 then if Leap(year) then 29 else 28
    else 31
  }

  /** The days of the year before the month; for month 13, the days of the year. */
  function DaysBeforeMonth(year: nat, month: nat): nat {
    if month <= 1 then 0 else DaysBeforeMonth(year, month - 1) + MonthDays(year, month - 1)
  }

  /** The days before the year, from the start of year 0. */
  function DaysBeforeYear(year: nat): nat {
    if year == 0 then 0 else DaysBeforeYear(year - 1) + DaysBeforeMonth(year - 1, 13)
  }

  /** A date and time of the calendar. */
  predicate Valid(c: Civil) {
    && 1 <= c.month <= 12 && 1 <= c.day <= MonthDays(c.year, c.month)
    && c.hour < 24 && c.minute < 60 && c.second < 60 && c.nano < 1_000_000_000
  }

  function DayNumber(c: Civil): int {
    DaysBeforeYear(c.year) + DaysBeforeMonth(c.year, c.month) + c.day
  }

  function Nanos(c: Civil): int {
    (((DayNumber(c) * 24 + c.hour) * 60 + c.minute) * 60 + c.second) * 1_000_000_000 + c.nano
  }

  /** The days before a month, counted: from March on the months have 30.6 days each, rounded. */
  lemma {:induction false} MonthsCounted(year: nat, month: nat)
    requires 1 <= month <= 13
    ensures
      var leap := if year % 4 == 0 && (year % 100 != 0 || year % 400 == 0) then 1 else 0;
      DaysBeforeMonth(year, month) ==
        if month <= 2 then 31 * (month - 1) else 59 + leap + (153 * (month - 3) + 2) / 5
  {
    if month > 1 { MonthsCounted(year, month - 1); }
  }

  lemma EveryFourth(n: nat)
    ensures (n + 4) / 4 == (n + 3) / 4 + (if n % 4 == 0 then 1 else 0)
  {
  }

  lemma EveryHundredth(n: nat)
    ensures (n + 100) / 100 == (n + 99) / 100 + (if n % 100 == 0 then 1 else 0)
  {
  }

  lemma EveryFourHundredth(n: nat)
    ensures (n + 400) / 400 == (n + 399) / 400 + (if n % 400 == 0 then 1 else 0)
  {
  }

  /** How many years before this one are leap years, by counting fourths, hundredths and four hundredths. */
  function LeapYears(year: nat): int {
    (year + 3) / 4 - (year + 99) / 100 + (year + 399) / 400
  }

  lemma Multiples(n: nat)
    ensures n % 400 == 0 ==> n % 100 == 0
    ensures n % 100 == 0 ==> n % 4 == 0
  {
    if n % 400 == 0 { assert n == 100 * (4 * (n / 400)); }
    if n % 100 == 0 { assert n == 4 * (25 * (n / 100)); }
  }

  lemma OneMoreYear(n: nat)
    ensures LeapYears(n + 1) == LeapYears(n) + (if n % 4 == 0 && (n % 100 != 0 || n % 400 == 0) then 1 else 0)
  {
    EveryFourth(n);
    EveryHundredth(n);
    EveryFourHundredth(n);
    Multiples(n);
  }

  lemma YearLength(n: nat)
    ensures DaysBeforeMonth(n, 13) == 365 + (if n % 4 == 0 && (n % 100 != 0 || n % 400 == 0) then 1 else 0)
  {
    MonthsCounted(n, 13);
  }

  /** The days before a year, counted: 365 a year, and one for each leap year before it. */
  lemma {:induction false} YearsCounted(year: nat)
    ensures DaysBeforeYear(year) == 365 * year + LeapYears(year)
  {
    if year > 0 {
      var n := year - 1;
      YearsCounted(n);
      YearLength(n);
      OneMoreYear(n);
    }
  }

  lemma {:induction false} MonthsAscend(year: nat, m: nat, n: nat)
    requires 1 <= m < n
    ensures DaysBeforeMonth(year, m) + MonthDays(year, m) <= DaysBeforeMonth(year, n)
  {
    if m < n - 1 { MonthsAscend(year, m, n - 1); }
  }

  lemma {:induction false} YearsAscend(y: nat, z: nat)
    requires y < z
    ensures DaysBeforeYear(y) + DaysBeforeMonth(y, 13) <= DaysBeforeYear(z)
  {
    if y < z - 1 { YearsAscend(y, z - 1); }
  }

  predicate EarlierDay(c: Civil, d: Civil) {
    c.year < d.year || (c.year == d.year && (c.month < d.month || (c.month == d.month && c.day < d.day)))
  }

  lemma DaysAscend(c: Civil, d: Civil)
    requires Valid(c) && Valid(d) && EarlierDay(c, d)
    ensures DayNumber(c) < DayNumber(d)
  {
    if c.year < d.year {
      MonthsAscend(c.year, c.month, 13);
      YearsAscend(c.year, d.year);
    } else if c.month < d.month {
      MonthsAscend(c.year, c.month, d.month);
    }
  }

  /** The calendar is strictly monotone: counting nanoseconds orders valid readings as their fields do. */
  lemma NanosOrder(c: Civil, d: Civil)
    requires Valid(c) && Valid(d)
    ensures Nanos(c) < Nanos(d) <==> Earlier(c, d)
  {
    if EarlierDay(c, d) { DaysAscend(c, d); }
    if EarlierDay(d, c) { DaysAscend(d, c); }
  }

  /** The next day, over the ends of months and years. */
  function Tomorrow(c: Civil): Civil {
    if c.day < MonthDays(c.year, c.month) then c.(day := c.day + 1)
    else if c.month < 12 then c.(month := c.month + 1, day := 1)
    else c.(year := c.year + 1, month := 1, day := 1)
  }

  /** What the clock reads one nanosecond later. */
  function Ticked(c: Civil): Civil {
    if c.nano < 999_999_999 then c.(nano := c.nano + 1)
    else if c.second < 59 then c.(nano := 0, second := c.second + 1)
    else if c.minute < 59 then c.(nano := 0, second := 0, minute := c.minute + 1)
    else if c.hour < 23 then c.(nano := 0, second := 0, minute := 0, hour := c.hour + 1)
    else Tomorrow(c.(nano := 0, second := 0, minute := 0, hour := 0))
  }

  lemma TomorrowIsNext(c: Civil)
    requires Valid(c)
    ensures Valid(Tomorrow(c)) && DayNumber(Tomorrow(c)) == DayNumber(c) + 1
  {
    if c.day == MonthDays(c.year, c.month) && c.month == 12 {
      assert DaysBeforeMonth(c.year, 13) == DaysBeforeMonth(c.year, 12) + 31;
    }
  }

  /** The nanoseconds since midnight. */
  function SinceMidnight(c: Civil): int {
    ((c.hour * 60 + c.minute) * 60 + c.second) * 1_000_000_000 + c.nano
  }

  lemma NanosSplit(c: Civil)
    ensures Nanos(c) == DayNumber(c) * 86_400_000_000_000 + SinceMidnight(c)
  {
  }

  lemma TickedInDay(c: Civil)
    requires Valid(c) && !(c.nano == 999_999_999 && c.second == 59 && c.minute == 59 && c.hour == 23)
    ensures Valid(Ticked(c)) && DayNumber(Ticked(c)) == DayNumber(c)
    ensures SinceMidnight(Ticked(c)) == SinceMidnight(c) + 1
  {
  }

  /** Counted nanoseconds go up by one with every tick of the clock, over all its carries. */
  lemma ClockTicks(c: Civil)
    requires Valid(c)
    ensures Valid(Ticked(c)) && Nanos(Ticked(c)) == Nanos(c) + 1
  {
    NanosSplit(c);
    NanosSplit(Ticked(c));
    if c.nano == 999_999_999 && c.second == 59 && c.minute == 59 && c.hour == 23 {
      var midnight := c.(nano := 0, second := 0, minute := 0, hour := 0);
      TomorrowIsNext(midnight);
      assert Ticked(c) == Tomorrow(midnight) && SinceMidnight(Ticked(c)) == 0;
    } else {
      TickedInDay(c);
    }
  }

  /** The clock reads the instant, counted in nanoseconds of UTC from the start of year 0, at this offset. */
  predicate Reads(t: Time, offset: int) {
    Valid(t.local) && t.local.year < 10000 && t.instant + offset == Nanos(t.local)
  }

  /** So times read at one fixed offset satisfy what the timeline needs. */
  lemma FixedOffset(s: seq<Entry>, offset: int)
    requires forall e | e in s :: Reads(e.date, offset)
    ensures AllInRange(s) && OneZone(s) && ClocksAgree(s)
  {
    forall e, f | e in s && f in s
      ensures e.date.instant < f.date.instant <==> Earlier(e.date.local, f.date.local)
    {
      NanosOrder(e.date.local, f.date.local);
    }
    OneZoneClocksAgree(s);
  }

  /** At one offset, then, the tool and the command always show one date column. */
  lemma OneOffsetSameDates(s: seq<Entry>, offset: int)
    requires forall e | e in s :: Reads(e.date, offset)
    ensures AlwaysSameDates(s)
  {
    FixedOffset(s, offset);
    SameColumnIff(s);
  }
}
