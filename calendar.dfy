/** Calendar dates as proleptic Gregorian day numbers, numbered as Python's
    date.toordinal() numbers them: 1 January of year 1 is day 1. A pandas
    Timestamp normalised to midnight and a datetime.date both stand for one
    such number; comparing two of them compares the numbers. */
module Calendar {

  type Day = n: int | n >= 1 witness 1

  predicate IsLeap(y: int) {
    y % 4 == 0 && (y % 100 != 0 || y % 400 == 0)
  }

  function DaysInYear(y: int): int {
    if IsLeap(y) then 366 else 365
  }

  /** The day number of 1 January of year `y` (pd.to_datetime(f"{y}-01-01")). */
  function YearStart(y: int): int
    requires y >= 1
  {
    var k := y - 1;
    365 * k + k / 4 - k / 100 + k / 400 + 1
  }

  /** Consecutive new years are a year's length apart. */
  lemma YearStartStep(y: int)
    requires y >= 1
    ensures YearStart(y + 1) == YearStart(y) + DaysInYear(y)
  {
    var k := y - 1;
    assert (k + 1) / 4 == k / 4 + (if y % 4 == 0 then 1 else 0);
    assert (k + 1) / 100 == k / 100 + (if y % 100 == 0 then 1 else 0);
    assert (k + 1) / 400 == k / 400 + (if y % 400 == 0 then 1 else 0);
  }

  /** New years grow by at least 365 days a year. */
  lemma {:induction false} YearStartMonotone(a: int, b: int)
    requires 1 <= a <= b
    ensures YearStart(a) + 365 * (b - a) <= YearStart(b)
    decreases b - a
  {
    if a < b {
      YearStartMonotone(a, b - 1);
      YearStartStep(b - 1);
    }
  }

  /** The year holding day `n`, searched for upward from year `y`. */
  function FindYear(y: int, n: int): (r: int)
    requires 1 <= y && YearStart(y) <= n
    ensures y <= r && YearStart(r) <= n < YearStart(r + 1)
    decreases n - YearStart(y)
  {
    YearStartStep(y);
    if n < YearStart(y + 1) then y else FindYear(y + 1, n)
  }

  /** Timestamp.year / date.year of day `n`. */
  function YearOf(n: Day): (y: int)
    ensures 1 <= y && YearStart(y) <= n < YearStart(y + 1)
  {
    FindYear(1, n)
  }

  /** A day lies in exactly one year. */
  lemma YearOfUnique(n: Day, y: int)
    requires 1 <= y && YearStart(y) <= n < YearStart(y + 1)
    ensures YearOf(n) == y
  {
    var z := YearOf(n);
    if z < y {
      YearStartMonotone(z + 1, y);
    } else if y < z {
      YearStartMonotone(y + 1, z);
    }
  }

  /** A later day never lies in an earlier year. */
  lemma YearOfMonotone(m: Day, n: Day)
    requires m <= n
    ensures YearOf(m) <= YearOf(n)
  {
    if YearOf(n) < YearOf(m) {
      YearStartMonotone(YearOf(n) + 1, YearOf(m));
    }
  }

  /** Monday = 0, ..., Sunday = 6. */
  type WeekdayIndex = i: int | 0 <= i < 7

  /** date.weekday() of day `n`: day 1 was a Monday. */
  function Weekday(n: Day): WeekdayIndex {
    (n + 6) % 7
  }

  const WeekdayNames: seq<string> :=
    ["Monday", "Tuesday", "Wednesday", "Thursday", "Friday", "Saturday", "Sunday"]

  /** strftime('%A'): the English name of the day of the week. */
  function WeekdayName(n: Day): (name: string)
    ensures name in WeekdayNames
  {
    WeekdayNames[Weekday(n)]
  }

  /** Seven days on, the weekday and its name come round again; the next day is the next weekday. */
  lemma WeekdayCycle(n: Day)
    ensures WeekdayName(n + 7) == WeekdayName(n)
    ensures Weekday(n + 1) == (Weekday(n) + 1) % 7
  {
  }
}
