/** The Gregorian calendar in UTC, as far as a timestamp to the second needs it. */
module Calendar {
  import opened Common

  predicate Leap(year: nat) {
    year % 4 == 0 && (year % 100 != 0 || year % 400 == 0)
  }

  function YearLength(year: nat): nat {
    if Leap(year) then 366 else 365
  }

  function DaysBeforeYear(year: nat): nat {
    if year == 0 then 0 else DaysBeforeYear(year - 1) + YearLength(year - 1)
  }

  /** Days of a common year before each month, and before the next year. */
  const MONTH_STARTS: seq<nat> := [0, 31, 59, 90, 120, 151, 181, 212, 243, 273, 304, 334, 365]

  /** Days of the year before a month; month 13 stands for the next January. */
  function DaysBeforeMonth(year: nat, month: nat): nat
    requires 1 <= month <= 13
  {
    MONTH_STARTS[month - 1] + if month > 2 && Leap(year) then 1 else 0
  }

  /** A time in UTC to the second. */
  datatype Civil = Civil(year: nat, month: nat, day: nat, hour: nat, minute: nat, second: nat) {
    predicate Valid() {
      && 1 <= month <= 12
      && 1 <= day <= DaysBeforeMonth(year, month + 1) - DaysBeforeMonth(year, month)
      && hour < 24 && minute < 60 && second < 60
    }

    predicate Before(other: Civil) {
      if year != other.year then year < other.year
      else if month != other.month then month < other.month
      else if day != other.day then day < other.day
      else if hour != other.hour then hour < other.hour
      else if minute != other.minute then minute < other.minute
      else second < other.second
    }

    /** Days since the first of January of year zero. */
    function Day(): nat
      requires Valid()
    {
      DaysBeforeYear(year) + DaysBeforeMonth(year, month) + day - 1
    }

    function Seconds(): nat
      requires Valid()
    {
      Day() * 86400 + hour * 3600 + minute * 60 + second
    }
  }

  /** The count of days without the recursion: every fourth year is a leap year, save
      the centuries that 400 does not divide. */
  lemma {:induction false} DaysBeforeYearCounted(year: nat)
    ensures DaysBeforeYear(year) == 365 * year + RoundedUp(year, 4) - RoundedUp(year, 100) + RoundedUp(year, 400)
  {
    hide RoundedUp;
    if year == 0 {
      NoneRoundedUp();
    } else {
      DaysBeforeYearCounted(year - 1);
      RoundedUpNext(year - 1, 4);
      RoundedUpNext(year - 1, 100);
      RoundedUpNext(year - 1, 400);
      CenturiesNest(year - 1);
    }
  }

  /** How many of the numbers below y are multiples of d. */
  function RoundedUp(y: nat, d: nat): nat
    requires d > 0
  {
    (y + d - 1) / d
  }

  lemma NoneRoundedUp()
    ensures RoundedUp(0, 4) == RoundedUp(0, 100) == RoundedUp(0, 400) == 0
  {
  }

  lemma RoundedUpNext(y: nat, d: nat)
    requires d > 0
    ensures RoundedUp(y + 1, d) == RoundedUp(y, d) + if y % d == 0 then 1 else 0
  {
    var q, r := y / d, y % d;
    DivMod(y, d);
    assert d * (q + 1) == d * q + d;
    QuotientUnique(y + d, d, q + 1, r);
    if r == 0 {
      QuotientUnique(y + d - 1, d, q, d - 1);
    } else {
      QuotientUnique(y + d - 1, d, q + 1, r - 1);
    }
  }

  lemma CenturiesNest(y: nat)
    ensures y % 400 == 0 ==> y % 100 == 0
    ensures y % 100 == 0 ==> y % 4 == 0
  {
    DivMod(y, 400);
    DivMod(y, 100);
    if y % 400 == 0 {
      QuotientUnique(y, 100, 4 * (y / 400), 0);
    }
    if y % 100 == 0 {
      QuotientUnique(y, 4, 25 * (y / 100), 0);
    }
  }

  // ---- the order of civil times is the order of their seconds ----

  lemma {:induction false} YearsInOrder(y: nat, z: nat)
    requires y < z
    ensures DaysBeforeYear(y) + YearLength(y) <= DaysBeforeYear(z)
  {
    hide YearLength;
    if y + 1 < z {
      YearsInOrder(y, z - 1);
    }
  }

  lemma MonthsInOrder(year: nat, m: nat, n: nat)
    requires 1 <= m < n <= 13
    ensures DaysBeforeMonth(year, m + 1) <= DaysBeforeMonth(year, n)
    ensures DaysBeforeMonth(year, 13) == YearLength(year)
  {
    hide Leap;
  }

  lemma DaysInOrder(a: Civil, b: Civil)
    requires a.Valid() && b.Valid()
    requires a.year < b.year || (a.year == b.year && a.month < b.month)
    ensures a.Day() < b.Day()
  {
    hide DaysBeforeMonth, DaysBeforeYear, YearLength;
    if a.year < b.year {
      YearsInOrder(a.year, b.year);
      MonthsInOrder(a.year, a.month, 13);
    } else {
      MonthsInOrder(a.year, a.month, b.month);
    }
  }

  lemma EarlierSeconds(a: Civil, b: Civil)
    requires a.Valid() && b.Valid() && a.Before(b)
    ensures a.Seconds() < b.Seconds()
  {
    hide DaysBeforeMonth, DaysBeforeYear;
    if a.year != b.year || a.month != b.month {
      DaysInOrder(a, b);
    }
    hide Civil.Day;
  }

  lemma BeforeOrAfter(a: Civil, b: Civil)
    ensures a.Before(b) || a == b || b.Before(a)
  {
  }

  /** Civil times are ordered, field by field, as the seconds they name; so each second
      has one name. */
  lemma BeforeIsEarlier(a: Civil, b: Civil)
    requires a.Valid() && b.Valid()
    ensures a.Before(b) <==> a.Seconds() < b.Seconds()
    ensures a == b <==> a.Seconds() == b.Seconds()
  {
    hide Civil.Valid, Civil.Seconds, Civil.Before;
    BeforeOrAfter(a, b);
    if a.Before(b) {
      EarlierSeconds(a, b);
    }
    if b.Before(a) {
      EarlierSeconds(b, a);
    }
  }

  // ---- the civil time of a second ----

  /** The year a day falls in, searched from one it does not precede. */
  function YearFrom(day: nat, from: nat): (year: nat)
    requires DaysBeforeYear(from) <= day
    ensures DaysBeforeYear(year) <= day < DaysBeforeYear(year) + YearLength(year)
    decreases day - DaysBeforeYear(from)
  {
    if day < DaysBeforeYear(from) + YearLength(from) then from else YearFrom(day, from + 1)
  }

  function MonthFrom(year: nat, day: nat, from: nat): (month: nat)
    requires 1 <= from <= 12
    requires DaysBeforeMonth(year, from) <= day < DaysBeforeMonth(year, 13)
    ensures 1 <= month <= 12
    ensures DaysBeforeMonth(year, month) <= day < DaysBeforeMonth(year, month + 1)
    decreases 13 - from
  {
    if day < DaysBeforeMonth(year, from + 1) then from else MonthFrom(year, day, from + 1)
  }

  lemma WholeYear(year: nat)
    ensures DaysBeforeMonth(year, 1) == 0 && DaysBeforeMonth(year, 13) == YearLength(year)
  {
    hide Leap;
  }

  lemma ClockOfDay(second: nat)
    requires second < 86400
    ensures second / 3600 < 24 && second / 60 % 60 < 60 && second % 60 < 60
    ensures second == second / 3600 * 3600 + second / 60 % 60 * 60 + second % 60
  {
    assert second / 3600 == second / 60 / 60;
  }

  /** The civil time of a count of seconds since year zero. */
  function CivilOf(seconds: nat): (c: Civil)
    ensures c.Valid() && c.Seconds() == seconds
  {
    var day, second := seconds / 86400, seconds % 86400;
    var year := YearFrom(day, 0);
    WholeYear(year);
    var rest := day - DaysBeforeYear(year);
    var month := MonthFrom(year, rest, 1);
    ClockOfDay(second);
    Civil(year, month, rest - DaysBeforeMonth(year, month) + 1, second / 3600, second / 60 % 60, second % 60)
  }

  // ---- instants ----

  /** Seconds from year zero to the start of 1970. */
  const UNIX_EPOCH: nat := 62167219200

  lemma EpochIs1970()
    ensures Civil(1970, 1, 1, 0, 0, 0).Valid()
    ensures Civil(1970, 1, 1, 0, 0, 0).Seconds() == UNIX_EPOCH
  {
    DaysBeforeYearCounted(1970);
    hide DaysBeforeYear;
  }

  /** The second an instant falls in, counted from year zero. */
  function SecondOf(t: int): int {
    t / SECOND + UNIX_EPOCH
  }

  /** A second is 1 000 000 000 nanoseconds, and instants before 1970 round down too. */
  lemma SecondsCounted(t: int, s: int)
    ensures SecondOf(t) == s + UNIX_EPOCH <==> s * 1_000_000_000 <= t < (s + 1) * 1_000_000_000
  {
  }

  /** Instants of different seconds are ordered as their seconds. */
  lemma SecondsInOrder(t: int, u: int)
    requires SecondOf(t) != SecondOf(u)
    ensures t < u <==> SecondOf(t) < SecondOf(u)
  {
  }

  /** The years whose timestamps have four digits. */
  predicate InEra(t: int) {
    0 <= SecondOf(t) && CivilOf(SecondOf(t)).year < 10000
  }

  /** Thirty days have September, April, June and November. */
  lemma MonthLengths(year: nat, month: nat)
    requires 1 <= month <= 12
    ensures DaysBeforeMonth(year, 1) == 0
    ensures DaysBeforeMonth(year, month + 1) - DaysBeforeMonth(year, month) ==
            if month == 2 then (if year % 4 == 0 && (year % 100 != 0 || year % 400 == 0) then 29 else 28)
            else if month == 4 || month == 6 || month == 9 || month == 11 then 30
            else 31
  {
  }
}
