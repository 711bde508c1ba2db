/** Instants, the UTC calendar and the parts of the platform the scheduler asks about. */
module CronTime {

  /** Nanoseconds since Go's zero time, 0001-01-01T00:00:00Z; the zero time itself is 0. */
  type Instant = int

  const MICROSECOND := 1_000
  const MINUTE := 60_000_000_000
  const MINUTES_PER_DAY := 1_440
  const DAY := 86_400_000_000_000

  /** Time.Truncate, which rounds down toward the zero time's grid. */
  function TruncateTo(t: Instant, unit: int): Instant
    requires unit > 0
  {
    t - t % unit
  }

  /** Ordering at the microsecond precision of the durable stores. */
  predicate DurablyAfter(later: Instant, earlier: Instant) {
    TruncateTo(later, MICROSECOND) > TruncateTo(earlier, MICROSECOND)
  }

  lemma DurablyAfterExactly(later: Instant, earlier: Instant)
    ensures DurablyAfter(later, earlier) <==> later / 1000 > earlier / 1000
  {
    assert TruncateTo(later, MICROSECOND) == later / 1000 * 1000;
    assert TruncateTo(earlier, MICROSECOND) == earlier / 1000 * 1000;
  }

  datatype Date = Date(year: int, month: int, day: int)

  /** The civil fields a schedule looks at; Sunday is weekday 0. */
  datatype Civil = Civil(date: Date, weekday: int, hour: int, minute: int)

  /** Time-zone data, the raw cron parser and the identity hash's text, none of which is part of this model. */
  datatype World = World(
    knownZone: string -> bool,
    civilIn: (string, Instant) -> Civil,
    lastDayIn: (string, int, int) -> int,
    rawParses: string -> bool,
    rawNext: (string, string, Instant) -> Instant,
    identityText: (string, Instant) -> string)

  predicate Leap(year: int) {
    year % 4 == 0 && (year % 100 != 0 || year % 400 == 0)
  }

  function DaysInMonth(year: int, month: int): (d: int)
    requires 1 <= month <= 12
    ensures 28 <= d <= 31
    ensures d == 31 || (month < 12 && DaysInMonth(year, month + 1) == 31)
    decreases 12 - month
  {
    if month == 2 then (if Leap(year) then 29 else 28)
    else if month == 4 || month == 6 || month == 9 || month == 11 then 30
    else 31
  }

  predicate ValidDate(d: Date) {
    1 <= d.month <= 12 && 1 <= d.day <= DaysInMonth(d.year, d.month)
  }

  /** Days before the first of a month within its year. */
  function DaysBeforeMonth(year: int, month: int): int
    requires 1 <= month <= 12
  {
    if month == 1 then 0 else DaysBeforeMonth(year, month - 1) + DaysInMonth(year, month - 1)
  }

  function DaysBeforeYear(year: int): int {
    365 * (year - 1) + (year - 1) / 4 - (year - 1) / 100 + (year - 1) / 400
  }

  /** Days since 0001-01-01; a day past the end of its month counts on into the next, as time.Date does. */
  function DayNumber(d: Date): int
    requires 1 <= d.month <= 12
  {
    DaysBeforeYear(d.year) + DaysBeforeMonth(d.year, d.month) + d.day - 1
  }

  function DayAfter(d: Date): (r: Date)
    requires ValidDate(d)
    ensures ValidDate(r)
  {
    if d.day < DaysInMonth(d.year, d.month) then d.(day := d.day + 1)
    else if d.month < 12 then Date(d.year, d.month + 1, 1)
    else Date(d.year + 1, 1, 1)
  }

  function DayBefore(d: Date): (r: Date)
    requires ValidDate(d)
    ensures ValidDate(r) && DayAfter(r) == d
  {
    if d.day > 1 then d.(day := d.day - 1)
    else if d.month > 1 then Date(d.year, d.month - 1, DaysInMonth(d.year, d.month - 1))
    else Date(d.year - 1, 12, 31)
  }

  /** The date of a day number. */
  function DateOf(day: int): (d: Date)
    ensures ValidDate(d)
    decreases if day < 0 then -day else day
  {
    if day == 0 then Date(1, 1, 1)
    else if day > 0 then DayAfter(DateOf(day - 1))
    else DayBefore(DateOf(day + 1))
  }

  lemma YearLength(year: int)
    ensures DaysBeforeYear(year + 1) == DaysBeforeYear(year) + (if Leap(year) then 366 else 365)
  {
    assert year / 4 == (year - 1) / 4 + (if year % 4 == 0 then 1 else 0);
    assert year / 100 == (year - 1) / 100 + (if year % 100 == 0 then 1 else 0);
    assert year / 400 == (year - 1) / 400 + (if year % 400 == 0 then 1 else 0);
    assert year % 400 == 0 ==> year % 100 == 0;
    assert year % 100 == 0 ==> year % 4 == 0;
  }

  lemma MonthsFillTheYear(year: int)
    ensures DaysBeforeMonth(year, 12) + 31 == if Leap(year) then 366 else 365
  {
    assert DaysBeforeMonth(year, 2) == 31;
    assert DaysBeforeMonth(year, 4) == 62 + DaysInMonth(year, 2);
    assert DaysBeforeMonth(year, 6) == 123 + DaysInMonth(year, 2);
    assert DaysBeforeMonth(year, 8) == 184 + DaysInMonth(year, 2);
    assert DaysBeforeMonth(year, 10) == 245 + DaysInMonth(year, 2);
  }

  lemma DayAfterNumber(d: Date)
    requires ValidDate(d)
    ensures DayNumber(DayAfter(d)) == DayNumber(d) + 1
  {
    if d.day == DaysInMonth(d.year, d.month) && d.month == 12 {
      YearLength(d.year);
      MonthsFillTheYear(d.year);
    }
  }

  // DateOf and DayNumber are inverse, and consecutive day numbers are consecutive dates.
  lemma {:induction false} DateOfNumber(day: int)
    ensures DayNumber(DateOf(day)) == day
    decreases if day < 0 then -day else day
  {
    if day > 0 {
      DateOfNumber(day - 1);
      DayAfterNumber(DateOf(day - 1));
    } else if day < 0 {
      DateOfNumber(day + 1);
      DayAfterNumber(DateOf(day));
    }
  }

  lemma DateOfNext(day: int)
    ensures DateOf(day + 1) == DayAfter(DateOf(day))
  {
  }

  function UtcCivil(t: Instant): Civil {
    var day := t / DAY;
    var minute := (t % DAY) / MINUTE;
    Civil(DateOf(day), (day + 1) % 7, minute / 60, minute % 60)
  }

  function CivilFields(world: World, zone: string, t: Instant): Civil {
    if zone == "UTC" then UtcCivil(t) else world.civilIn(zone, t)
  }

  function LastDayOfMonth(world: World, zone: string, year: int, month: int): int {
    if zone == "UTC" && 1 <= month <= 12 then DaysInMonth(year, month) else world.lastDayIn(zone, year, month)
  }

  /** AddDate(years, 0, 0) on a UTC instant. */
  function AddYears(t: Instant, years: int): Instant {
    var date := DateOf(t / DAY);
    DayNumber(date.(year := date.year + years)) * DAY + t % DAY
  }
}
