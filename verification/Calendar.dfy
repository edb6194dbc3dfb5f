/** Dates by the Gregorian rules, for all years, and how many days each is from
    1970-01-01. */
module Calendar {
  import opened Quotients

  datatype Date = Date(year: int, month: int, day: int)

  predicate LeapYear(year: int) {
    year % 4 == 0 && (year % 100 != 0 || year % 400 == 0)
  }

  function DaysInMonth(year: int, month: int): int {
    if month == 2 then if LeapYear(year) then 29 else 28
    else if month == 4 || month == 6 || month == 9 || month == 11 then 30
    else 31
  }

  /** A month of the year, and a day that month has. */
  predicate IsDate(d: Date) {
    1 <= d.month <= 12 && 1 <= d.day <= DaysInMonth(d.year, d.month)
  }

  function DaysFromCivil(d: Date): int {
    var year := if d.month <= 2 then d.year - 1 else d.year;
    var era := year / 400;
    var yearOfEra := year - era * 400;
    var dayOfYear := (153 * (if d.month > 2 then d.month - 3 else d.month + 9) + 2) / 5 + d.day - 1;
    var dayOfEra := yearOfEra * 365 + yearOfEra / 4 - yearOfEra / 100 + dayOfYear;
    era * 146_097 + dayOfEra - 719_468
  }

  function YearOfEra(dayOfEra: int): int {
    (dayOfEra - dayOfEra / 1460 + dayOfEra / 36_524 - dayOfEra / 146_096) / 365
  }

  function CivilFromDays(n: int): Date {
    var days := n + 719_468;
    var era := days / 146_097;
    CivilInEra(era, days - era * 146_097)
  }

  function CivilInEra(era: int, dayOfEra: int): Date {
    var yearOfEra := YearOfEra(dayOfEra);
    var dayOfYear := dayOfEra - (365 * yearOfEra + yearOfEra / 4 - yearOfEra / 100);
    var shiftedMonth := (5 * dayOfYear + 2) / 153;
    var day := dayOfYear - (153 * shiftedMonth + 2) / 5 + 1;
    var month := if shiftedMonth < 10 then shiftedMonth + 3 else shiftedMonth - 9;
    Date(yearOfEra + era * 400 + (if month <= 2 then 1 else 0), month, day)
  }

  // ----- years that start in March

  /** Days of the era before its year `y`, counting years from March. */
  function YearStart(y: int): int {
    365 * y + y / 4 - y / 100
  }

  /** Whether year `y` from March ends with a 29 February. */
  predicate EndsLeap(y: int) {
    LeapYear(y + 1)
  }

  /** Days from March 1 to the start of a month counted from March. */
  function MonthStart(m: int): int {
    (153 * m + 2) / 5
  }

  /** `YearOfEra` finds the year whose days hold the day given. */
  lemma YearOfEraIs(c: int, q: int, z: int, d: int)
    requires 0 <= c < 4 && 0 <= q < 25 && 0 <= z < 4 && 0 <= d <= 365
    requires d == 365 ==> z == 3 && (q < 24 || c == 3)
    ensures
      var y := 100 * c + 4 * q + z;
      YearStart(y) + d == 36_524 * c + 1461 * q + 365 * z + d && YearOfEra(YearStart(y) + d) == y
  {
    var y := 100 * c + 4 * q + z;
    YearStartIs(c, q, z);
    var over := 24 * c + q + 365 * z + d;
    var e := if over >= 1460 then 1 else 0;
    QuotientIs(YearStart(y) + d, 1460, 25 * c + q + e, over - 1460 * e);
    CenturiesOf(c, q, z, d);
    QuotientIs(365 * y + (d - e), 365, y, d - e);
  }

  lemma YearStartIs(c: int, q: int, z: int)
    requires 0 <= c < 4 && 0 <= q < 25 && 0 <= z < 4
    ensures YearStart(100 * c + 4 * q + z) == 36_524 * c + 1461 * q + 365 * z
  {
    var y := 100 * c + 4 * q + z;
    QuotientIs(y, 100, c, 4 * q + z);
    QuotientIs(y, 4, 25 * c + q, z);
  }

  /** Only the last day of an era makes a fifth century of it. */
  lemma CenturiesOf(c: int, q: int, z: int, d: int)
    requires 0 <= c < 4 && 0 <= q < 25 && 0 <= z < 4 && 0 <= d <= 365
    requires d == 365 ==> z == 3 && (q < 24 || c == 3)
    ensures
      var doe := 36_524 * c + 1461 * q + 365 * z + d;
      doe / 36_524 - doe / 146_096 == c
  {
    var r := 1461 * q + 365 * z + d;
    if r < 36_524 {
      QuotientIs(36_524 * c + r, 36_524, c, r);
    }
  }

  /** Every day of an era is a day of one of its years. */
  lemma DayHasYear(doe: int)
    requires 0 <= doe < 146_097
    ensures
      var y := YearOfEra(doe);
      && 0 <= y < 400 && 0 <= doe - YearStart(y) <= 365
      && (doe - YearStart(y) == 365 ==> EndsLeap(y))
  {
    var c := if doe == 146_096 then 3 else doe / 36_524;
    var r := doe - 36_524 * c;
    var q := r / 1461;
    var s := r - 1461 * q;
    var z := if s == 1460 then 3 else s / 365;
    YearOfEraIs(c, q, z, s - 365 * z);
  }

  /** The days of a year from March, month by month. */
  lemma DayHasMonth(doy: int)
    requires 0 <= doy <= 365
    ensures
      var m := (5 * doy + 2) / 153;
      && 0 <= m < 12 && MonthStart(m) <= doy
      && (m < 11 ==> doy < MonthStart(m + 1)) && MonthStart(11) == 337
  {
    var m := (5 * doy + 2) / 153;
    assert 153 * m <= 5 * doy + 2 < 153 * (m + 1);
  }

  /** A date by its year and month from March, and how far into the month. */
  function FromMarch(year: int, m: int, k: int): Date {
    Date(if m < 10 then year else year + 1, if m < 10 then m + 3 else m - 9, k + 1)
  }

  lemma CivilFromMarch(era: int, yoe: int, doy: int)
    requires 0 <= yoe < 400 && 0 <= doy <= 365 && (doy == 365 ==> EndsLeap(yoe))
    ensures
      var m := (5 * doy + 2) / 153;
      var date := FromMarch(yoe + era * 400, m, doy - MonthStart(m));
      IsDate(date) && DaysFromCivil(date) == era * 146_097 + YearStart(yoe) + doy - 719_468
  {
    DayHasMonth(doy);
    var m := (5 * doy + 2) / 153;
    var date := FromMarch(yoe + era * 400, m, doy - MonthStart(m));
    QuotientIs(yoe + era * 400, 400, era, yoe);
    SameLeap(yoe + 1, era);
    MonthLength(date.year, m);
  }

  /** The date of a day of an era, by the year and month it is in. */
  lemma CivilIs(era: int, doe: int)
    requires 0 <= doe < 146_097
    ensures
      var yoe := YearOfEra(doe);
      var doy := doe - YearStart(yoe);
      var m := (5 * doy + 2) / 153;
      CivilInEra(era, doe) == FromMarch(yoe + era * 400, m, doy - MonthStart(m))
  {
    hide YearOfEra;
    DayHasYear(doe);
    DayHasMonth(doe - YearStart(YearOfEra(doe)));
  }

  /** Every integer counts a day of the calendar, and that day counts to it. */
  lemma DaysRoundTrip(n: int)
    ensures IsDate(CivilFromDays(n)) && DaysFromCivil(CivilFromDays(n)) == n
  {
    hide IsDate, DaysFromCivil, YearOfEra, LeapYear, CivilInEra, YearStart, MonthStart, FromMarch;
    var era := (n + 719_468) / 146_097;
    var doe := n + 719_468 - era * 146_097;
    CivilIs(era, doe);
    DayHasYear(doe);
    CivilFromMarch(era, YearOfEra(doe), doe - YearStart(YearOfEra(doe)));
  }

  /** Leap years repeat every era. */
  lemma SameLeap(y: int, era: int)
    ensures LeapYear(y + era * 400) <==> LeapYear(y)
  {
    QuotientIs(y + era * 400, 4, y / 4 + 100 * era, y % 4);
    QuotientIs(y + era * 400, 100, y / 100 + 4 * era, y % 100);
    QuotientIs(y + era * 400, 400, y / 400 + era, y % 400);
  }

  /** The months from March have the lengths their starts leave them. */
  lemma MonthLength(year: int, m: int)
    requires 0 <= m < 12
    ensures
      var month := if m < 10 then m + 3 else m - 9;
      DaysInMonth(year, month) ==
      if m < 11 then MonthStart(m + 1) - MonthStart(m) else if LeapYear(year) then 29 else 28
  {
  }

  // ----- the count is the calendar's

  /** The day after a date, by the lengths of its months. */
  function Next(d: Date): Date {
    if d.day < DaysInMonth(d.year, d.month) then d.(day := d.day + 1)
    else if d.month < 12 then Date(d.year, d.month + 1, 1)
    else Date(d.year + 1, 1, 1)
  }

  /** Days before a year from March, over all eras. */
  function EraDays(year: int): int {
    year / 400 * 146_097 + YearStart(year - year / 400 * 400)
  }

  lemma EraDaysStep(year: int)
    ensures EraDays(year + 1) == EraDays(year) + 365 + if LeapYear(year + 1) then 1 else 0
  {
    var era := year / 400;
    var y := year - era * 400;
    SameLeap(y + 1, era);
    if y < 399 {
      QuotientIs(year + 1, 400, era, y + 1);
      YearStartStep(y);
    } else {
      QuotientIs(year + 1, 400, era + 1, 0);
    }
  }

  lemma YearStartStep(y: int)
    requires 0 <= y < 399
    ensures YearStart(y + 1) == YearStart(y) + 365 + if EndsLeap(y) then 1 else 0
  {
    var c, q, z := y / 100, y % 100 / 4, y % 4;
    assert y == 100 * c + 4 * q + z;
    YearStartIs(c, q, z);
    if z < 3 {
      YearStartIs(c, q, z + 1);
    } else if q < 24 {
      YearStartIs(c, q + 1, 0);
    } else {
      YearStartIs(c + 1, 0, 0);
    }
  }

  lemma {:induction false} EraDaysRise(a: int, b: int)
    requires a <= b
    ensures EraDays(a) + 365 * (b - a) <= EraDays(b)
    decreases b - a
  {
    if a == b {
    } else {
      EraDaysRise(a, b - 1);
      EraDaysStep(b - 1);
    }
  }

  /** A date by its year and month from March. */
  function MarchYear(d: Date): int {
    if d.month <= 2 then d.year - 1 else d.year
  }

  function MarchMonth(d: Date): int {
    if d.month > 2 then d.month - 3 else d.month + 9
  }

  lemma DaysByMarch(d: Date)
    requires IsDate(d)
    ensures DaysFromCivil(d) == EraDays(MarchYear(d)) + MonthStart(MarchMonth(d)) + d.day - 1 - 719_468
    ensures 0 <= MonthStart(MarchMonth(d)) + d.day - 1 < EraDays(MarchYear(d) + 1) - EraDays(MarchYear(d))
    ensures MarchMonth(d) < 11 ==> MonthStart(MarchMonth(d)) + d.day - 1 < MonthStart(MarchMonth(d) + 1)
    ensures 0 <= MarchMonth(d) < 12
  {
    MonthLength(d.year, MarchMonth(d));
    EraDaysStep(MarchYear(d));
  }

  /** 1970-01-01 is day 0, and each day counts one more than the day before
      it: so the count is the calendar's, whatever the arithmetic. */
  lemma CountIsTheCalendar(d: Date)
    requires IsDate(d)
    ensures DaysFromCivil(Date(1970, 1, 1)) == 0
    ensures IsDate(Next(d)) && DaysFromCivil(Next(d)) == DaysFromCivil(d) + 1
  {
    hide DaysFromCivil, EraDays;
    var next := Next(d);
    DaysByMarch(d);
    DaysByMarch(next);
    MonthLength(d.year, MarchMonth(d));
    assert DaysFromCivil(Date(1970, 1, 1)) == 0 by {
      EpochIsZero();
    }
    if MarchYear(next) == MarchYear(d) {
      assert MarchMonth(next) == MarchMonth(d) || MarchMonth(next) == MarchMonth(d) + 1;
    } else {
      assert d.month == 2 && MarchYear(next) == MarchYear(d) + 1;
      EraDaysStep(MarchYear(d));
    }
  }

  lemma EpochIsZero()
    ensures DaysFromCivil(Date(1970, 1, 1)) == 0
  {
  }

  predicate Earlier(a: Date, b: Date) {
    a.year < b.year || (a.year == b.year && (a.month < b.month || (a.month == b.month && a.day < b.day)))
  }

  lemma MonthsRise(a: int, b: int)
    requires 0 <= a < b < 12
    ensures MonthStart(a + 1) <= MonthStart(b)
  {
  }

  /** The count rises strictly with the date. */
  lemma CountRises(a: Date, b: Date)
    requires IsDate(a) && IsDate(b) && Earlier(a, b)
    ensures DaysFromCivil(a) < DaysFromCivil(b)
  {
    hide DaysFromCivil, EraDays, DaysInMonth;
    DaysByMarch(a);
    DaysByMarch(b);
    if MarchYear(a) < MarchYear(b) {
      EraDaysRise(MarchYear(a) + 1, MarchYear(b));
    } else if MarchMonth(a) < MarchMonth(b) {
      MonthsRise(MarchMonth(a), MarchMonth(b));
    }
  }

  /** Every date comes back from its count. */
  lemma DateRoundTrip(d: Date)
    requires IsDate(d)
    ensures CivilFromDays(DaysFromCivil(d)) == d
  {
    hide DaysFromCivil, CivilFromDays, IsDate;
    var back := CivilFromDays(DaysFromCivil(d));
    DaysRoundTrip(DaysFromCivil(d));
    if Earlier(back, d) {
      CountRises(back, d);
    } else if Earlier(d, back) {
      CountRises(d, back);
    }
  }

  /** So the date of the next day is the calendar's next date. */
  lemma NextDayIsNextDate(n: int)
    ensures CivilFromDays(n + 1) == Next(CivilFromDays(n))
  {
    hide DaysFromCivil, CivilFromDays, Next, IsDate;
    DaysRoundTrip(n);
    CountIsTheCalendar(CivilFromDays(n));
    DateRoundTrip(Next(CivilFromDays(n)));
  }
}
