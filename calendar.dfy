/** The proleptic Gregorian calendar on day numbers (days since 1970-01-01),
    giving the values of pandas' `.dt.month`, `.dt.dayofweek` and `.dt.dayofyear`. */
module Calendar {
  import opened Table

  predicate IsLeap(y: int)
  {
    y % 4 == 0 && (y % 100 != 0 || y % 400 == 0)
  }

  function DaysInYear(y: int): int
  {
    if IsLeap(y) then 366 else 365
  }

  /** Number of leap years among 1..n (counted the same way for n < 1). */
  function LeapsThrough(n: int): int
  {
    n / 4 - n / 100 + n / 400
  }

  /** Day number of January 1st of year `y`. */
  function YearStart(y: int): int
  {
    365 * (y - 1970) + LeapsThrough(y - 1) - LeapsThrough(1969)
  }

  /** Floor division by 4, 100 and 400 steps up by one exactly at the multiples. */
  lemma DivStep4(y: int)
    ensures y / 4 - (y - 1) / 4 == if y % 4 == 0 then 1 else 0
  {
  }

  lemma DivStep100(y: int)
    ensures y / 100 - (y - 1) / 100 == if y % 100 == 0 then 1 else 0
  {
  }

  lemma DivStep400(y: int)
    ensures y / 400 - (y - 1) / 400 == if y % 400 == 0 then 1 else 0
  {
  }

  lemma LeapsStep(y: int)
    ensures LeapsThrough(y) - LeapsThrough(y - 1) == if IsLeap(y) then 1 else 0
  {
    DivStep4(y);
    DivStep100(y);
    DivStep400(y);
  }

  lemma YearStartStep(y: int)
    ensures YearStart(y + 1) == YearStart(y) + DaysInYear(y)
  {
    LeapsStep(y);
  }

  /** The year holding day `d` and the zero-based position of `d` in that year,
      walking year by year from year `y`, whose first day is day `YearStart(y)`;
      `d` here counts from that first day. */
  function YearOrdinalFrom(y: int, d: int): (r: (int, int))
    ensures 0 <= r.1 < DaysInYear(r.0)
    ensures YearStart(r.0) + r.1 == YearStart(y) + d
    decreases d < 0, if d < 0 then -d else d
  {
    if d < 0 then
      YearStartStep(y - 1);
      YearOrdinalFrom(y - 1, d + DaysInYear(y - 1))
    else if d < DaysInYear(y) then (y, d)
    else
      YearStartStep(y);
      YearOrdinalFrom(y + 1, d - DaysInYear(y))
  }

  function Year(d: Date): int
  {
    YearOrdinalFrom(1970, d).0
  }

  /** Zero-based day within its year. */
  function Ordinal(d: Date): (o: int)
    ensures 0 <= o < DaysInYear(Year(d))
    ensures YearStart(Year(d)) + o == d
  {
    YearOrdinalFrom(1970, d).1
  }

  /** Zero-based day of the year on which month `m` (1..13) starts; 13 stands for
      the end of the year. */
  function MonthStart(y: int, m: int): int
    requires 1 <= m <= 13
  {
    var leap := if IsLeap(y) then 1 else 0;
    if m == 1 then 0
    else if m == 2 then 31
    else if m == 3 then 59 + leap
    else if m == 4 then 90 + leap
    else if m == 5 then 120 + leap
    else if m == 6 then 151 + leap
    else if m == 7 then 181 + leap
    else if m == 8 then 212 + leap
    else if m == 9 then 243 + leap
    else if m == 10 then 273 + leap
    else if m == 11 then 304 + leap
    else if m == 12 then 334 + leap
    else 365 + leap
  }

  /** The month (1..12) holding zero-based day `o` of year `y`. */
  function MonthOf(y: int, o: int): (m: int)
    requires 0 <= o < DaysInYear(y)
    ensures 1 <= m <= 12
    ensures MonthStart(y, m) <= o < MonthStart(y, m + 1)
  {
    if o < MonthStart(y, 2) then 1
    else if o < MonthStart(y, 3) then 2
    else if o < MonthStart(y, 4) then 3
    else if o < MonthStart(y, 5) then 4
    else if o < MonthStart(y, 6) then 5
    else if o < MonthStart(y, 7) then 6
    else if o < MonthStart(y, 8) then 7
    else if o < MonthStart(y, 9) then 8
    else if o < MonthStart(y, 10) then 9
    else if o < MonthStart(y, 11) then 10
    else if o < MonthStart(y, 12) then 11
    else 12
  }

  /** `.dt.month`. */
  function Month(d: Date): (m: int)
    ensures 1 <= m <= 12
  {
    MonthOf(Year(d), Ordinal(d))
  }

  /** Day of the month, 1-based. */
  function DayOfMonth(d: Date): (dd: int)
    ensures 1 <= dd <= MonthStart(Year(d), Month(d) + 1) - MonthStart(Year(d), Month(d))
  {
    Ordinal(d) - MonthStart(Year(d), Month(d)) + 1
  }

  /** `.dt.dayofweek`: Monday is 0; 1970-01-01 was a Thursday. */
  function DayOfWeek(d: Date): (w: int)
    ensures 0 <= w <= 6
  {
    (d + 3) % 7
  }

  /** Consecutive days have consecutive weekdays. */
  lemma DayOfWeekNext(d: Date)
    ensures DayOfWeek(d + 1) == (DayOfWeek(d) + 1) % 7
  {
  }

  /** `.dt.dayofyear`: 1-based. */
  function DayOfYear(d: Date): (n: int)
    ensures 1 <= n <= 366
    ensures n <= 365 || IsLeap(Year(d))
  {
    Ordinal(d) + 1
  }

  /** Day number of a calendar date. */
  function FromCivil(y: int, m: int, dd: int): Date
    requires 1 <= m <= 12
  {
    YearStart(y) + MonthStart(y, m) + dd - 1
  }

  /** A calendar date is valid when its day lies within its month. */
  predicate ValidCivil(y: int, m: int, dd: int)
  {
    1 <= m <= 12 && 1 <= dd <= MonthStart(y, m + 1) - MonthStart(y, m)
  }

  /** Day number -> calendar date -> day number is the identity. */
  lemma CivilRoundTrip(d: Date)
    ensures ValidCivil(Year(d), Month(d), DayOfMonth(d))
    ensures FromCivil(Year(d), Month(d), DayOfMonth(d)) == d
  {
  }

  lemma {:induction false} YearStartMonotone(y: int, z: int)
    requires y < z
    ensures YearStart(y) + DaysInYear(y) <= YearStart(z)
    decreases z - y
  {
    YearStartStep(y);
    if y + 1 < z {
      YearStartMonotone(y + 1, z);
    }
  }

  /** Calendar date -> day number -> calendar date is the identity on valid dates. */
  lemma CivilFromDays(y: int, m: int, dd: int)
    requires ValidCivil(y, m, dd)
    ensures Year(FromCivil(y, m, dd)) == y
    ensures Month(FromCivil(y, m, dd)) == m
    ensures DayOfMonth(FromCivil(y, m, dd)) == dd
  {
    var d := FromCivil(y, m, dd);
    YearOfCivil(y, m, dd);
    assert Ordinal(d) == MonthStart(y, m) + dd - 1;
    MonthOfCivil(y, m, dd);
  }

  lemma YearOfCivil(y: int, m: int, dd: int)
    requires ValidCivil(y, m, dd)
    ensures Year(FromCivil(y, m, dd)) == y
  {
    var z := Year(FromCivil(y, m, dd));
    if z < y { YearStartMonotone(z, y); }
    if y < z { YearStartMonotone(y, z); }
  }

  /** The month of a day within month `m` is `m`. */
  lemma MonthOfCivil(y: int, m: int, dd: int)
    requires ValidCivil(y, m, dd)
    ensures MonthStart(y, m) + dd - 1 < DaysInYear(y)
    ensures MonthOf(y, MonthStart(y, m) + dd - 1) == m
  {
  }

  lemma EpochDate()
    ensures Year(0) == 1970 && Month(0) == 1 && DayOfMonth(0) == 1
    ensures DayOfWeek(0) == 3 && DayOfYear(0) == 1
  {
  }

  /** 1969-12-31, a Wednesday, is day 365 of its year. */
  lemma DayBeforeEpoch()
    ensures Year(-1) == 1969 && Month(-1) == 12 && DayOfMonth(-1) == 31
    ensures DayOfWeek(-1) == 2 && DayOfYear(-1) == 365
  {
    YearStartStep(1969);
  }
}
