/** Gregorian dates as day numbers; ISO weeks. */
module Calendar {

  /** C division and remainder: the quotient is truncated toward zero. */
  function TruncDiv(a: int, b: int): int
    requires b != 0
  {
    if b < 0 then (if a >= 0 then -(a / (-b)) else (-a) / (-b))
    else if a >= 0 then a / b
    else -((-a) / b)
  }

  function TruncMod(a: int, b: int): int
    requires b != 0
  {
    a - TruncDiv(a, b) * b
  }

  /** Remainder with the sign of the divisor. */
  function FloorMod(a: int, b: int): (r: int)
    requires b != 0
    ensures b > 0 ==> r == a % b
    ensures b < 0 ==> r == -((-a) % (-b))
  {
    var r := TruncMod(a, b);
    SignedRemainder(a, b);
    if r != 0 && (r < 0) != (b < 0) then r + b else r
  }

  /** The truncated remainder has the sign of the dividend, and is the Euclidean one but for a divisor. */
  lemma SignedRemainder(a: int, b: int)
    requires b != 0
    ensures b > 0 && a >= 0 ==> TruncMod(a, b) == a % b
    ensures b > 0 && a < 0 ==> a % b == if TruncMod(a, b) == 0 then 0 else TruncMod(a, b) + b
    ensures b > 0 && a < 0 ==> TruncMod(a, b) <= 0
    ensures b < 0 && a <= 0 ==> TruncMod(a, b) == -((-a) % (-b))
    ensures b < 0 && a > 0 ==> (-a) % (-b) == if TruncMod(a, b) == 0 then 0 else -TruncMod(a, b) - b
    ensures b < 0 && a > 0 ==> TruncMod(a, b) >= 0
  {
    if b > 0 {
      NegativeRemainder(a, b);
    } else {
      NegativeRemainder(-a, -b);
      assert TruncDiv(-a, -b) == TruncDiv(a, b);
    }
  }

  lemma NegativeRemainder(a: int, b: int)
    requires b > 0
    ensures a >= 0 ==> TruncMod(a, b) == a % b
    ensures a < 0 ==> TruncMod(a, b) <= 0 && a % b == if TruncMod(a, b) == 0 then 0 else TruncMod(a, b) + b
  {
    if a < 0 {
      var q, r := (-a) / b, (-a) % b;
      assert -a == b * q + r;
      if r == 0 {
        assert a == b * (-q);
        UniqueRemainder(a, b, -q, 0);
      } else {
        assert a == b * (-q - 1) + (b - r);
        UniqueRemainder(a, b, -q - 1, b - r);
      }
    }
  }

  lemma UniqueRemainder(a: int, b: int, q: int, r: int)
    requires b > 0 && a == b * q + r && 0 <= r < b
    ensures a / b == q && a % b == r
  {
    var k := a / b - q;
    assert b * k == r - a % b;
    MultipleBounds(b, k);
  }

  lemma MultipleBounds(b: int, k: int)
    requires b > 0
    ensures (k >= 1 ==> b * k >= b) && (k <= -1 ==> b * k <= -b)
  {}

  datatype Date = Date(year: int, month: int, day: int)

  function DaysFromCivil(y: int, m: int, d: int): int {
    var yy := y - (if m <= 2 then 1 else 0);
    var era := TruncDiv(if yy >= 0 then yy else yy - 399, 400);
    var yoe := yy - era * 400;
    var doy := (153 * (m + (if m > 2 then -3 else 9)) + 2) / 5 + d - 1;
    var doe := yoe * 365 + yoe / 4 - yoe / 100 + doy;
    era * 146097 + doe - 719468
  }

  function CivilFromDays(days: int): Date {
    var z := days + 719468;
    var era := TruncDiv(if z >= 0 then z else z - 146096, 146097);
    CivilInEra(era, z - era * 146097)
  }

  /** The date of day `doe` of the 400-year era `era`. */
  function CivilInEra(era: int, doe: int): Date {
    var yoe := (doe - doe / 1460 + doe / 36524 - doe / 146096) / 365;
    var yy := yoe + era * 400;
    var doy := doe - (365 * yoe + yoe / 4 - yoe / 100);
    var mp := (5 * doy + 2) / 153;
    var dd := doy - (153 * mp + 2) / 5 + 1;
    var mm := mp + (if mp < 10 then 3 else -9);
    Date(yy + (if mm <= 2 then 1 else 0), mm, dd)
  }

  predicate Leap(y: int) {
    TruncMod(y, 4) == 0 && (TruncMod(y, 100) != 0 || TruncMod(y, 400) == 0)
  }

  function DaysInMonth(y: int, m: int): int {
    if m < 1 || m > 12 then 0
    else if m == 2 then if Leap(y) then 29 else 28
    else [31, 28, 31, 30, 31, 30, 31, 31, 30, 31, 30, 31][m - 1]
  }

  predicate ValidDate(t: Date) {
    1 <= t.month <= 12 && 1 <= t.day <= DaysInMonth(t.year, t.month)
  }

  // ----- the 400-year cycle, in years that start in March -----

  lemma TruncIsFloor(a: int, b: int)
    requires b > 0
    ensures TruncDiv(if a >= 0 then a else a - (b - 1), b) == a / b
  {
    if a < 0 {
      var q, r := a / b, a % b;
      assert a == b * q + r && 0 <= r < b;
      assert -(a - (b - 1)) == b * (-q) + (b - 1 - r);
      UniqueRemainder(-(a - (b - 1)), b, -q, b - 1 - r);
    }
  }

  lemma TruncModIsZero(a: int)
    ensures TruncMod(a, 4) == 0 <==> a % 4 == 0
    ensures TruncMod(a, 100) == 0 <==> a % 100 == 0
    ensures TruncMod(a, 400) == 0 <==> a % 400 == 0
  {}

  /** Whether the year of the cycle that starts in March ends with a leap day. */
  predicate LongYear(yoe: int) {
    (yoe + 1) % 4 == 0 && ((yoe + 1) % 100 != 0 || yoe + 1 == 400)
  }

  lemma LeapOfCycle(yy: int)
    ensures Leap(yy + 1) <==> LongYear(yy % 400)
  {
    hide TruncMod;
    TruncModIsZero(yy + 1);
    ShiftByCycles(yy / 400, yy % 400 + 1);
  }

  lemma ShiftByCycles(q: int, k: int)
    ensures (400 * q + k) % 4 == k % 4
    ensures (400 * q + k) % 100 == k % 100
    ensures (400 * q + k) % 400 == k % 400
  {
    UniqueRemainder(400 * q + k, 4, 100 * q + k / 4, k % 4);
    UniqueRemainder(400 * q + k, 100, 4 * q + k / 100, k % 100);
    UniqueRemainder(400 * q + k, 400, q + k / 400, k % 400);
  }

  function YearStart(yoe: int): int {
    yoe * 365 + yoe / 4 - yoe / 100
  }

  predicate DayOfCycle(yoe: int, doy: int) {
    0 <= yoe < 400 && 0 <= doy <= if LongYear(yoe) then 365 else 364
  }

  /** The day number within the cycle stays inside it, and the closed formula recovers the year. */
  lemma YearOfDay(yoe: int, doy: int)
    requires DayOfCycle(yoe, doy)
    ensures var doe := YearStart(yoe) + doy;
            0 <= doe < 146097 && (doe - doe / 1460 + doe / 36524 - doe / 146096) / 365 == yoe
  {
    var c, r := yoe / 100, yoe % 100;
    var q, a := r / 4, r % 4;
    var doe := YearStart(yoe) + doy;
    var t := 24 * c + q + 365 * a + doy;
    assert yoe == 100 * c + 4 * q + a && yoe / 4 == 25 * c + q;
    assert doe == 1460 * (25 * c + q) + t;
    assert doe == 36524 * c + 1461 * q + 365 * a + doy;
    CycleQuotients(c, q, a, doy);
  }

  lemma CycleQuotients(c: int, q: int, a: int, doy: int)
    requires 0 <= c < 4 && 0 <= q < 25 && 0 <= a < 4 && DayOfCycle(100 * c + 4 * q + a, doy)
    ensures var doe := 36524 * c + 1461 * q + 365 * a + doy;
            && 0 <= doe < 146097
            && (doe - doe / 1460 + doe / 36524 - doe / 146096) / 365 == 100 * c + 4 * q + a
  {
    hide LongYear;
    LongYearOf(c, q, a);
    var doe, t := 36524 * c + 1461 * q + 365 * a + doy, 24 * c + q + 365 * a + doy;
    assert doe == 1460 * (25 * c + q) + t;
    assert doe / 1460 == 25 * c + q + (if t >= 1460 then 1 else 0);
    assert doe / 36524 == c + (if 1461 * q + 365 * a + doy >= 36524 then 1 else 0);
  }

  lemma LongYearOf(c: int, q: int, a: int)
    requires 0 <= c < 4 && 0 <= q < 25 && 0 <= a < 4
    ensures LongYear(100 * c + 4 * q + a) <==> a == 3 && (q != 24 || c == 3)
  {
    var yoe := 100 * c + 4 * q + a;
    assert (yoe + 1) % 4 == (a + 1) % 4;
    assert (yoe + 1) % 100 == 0 <==> a == 3 && q == 24;
  }

  /** Every day of the cycle is a day of one of its years. */
  lemma DayHasYear(doe: int) returns (yoe: int, doy: int)
    requires 0 <= doe < 146097
    ensures DayOfCycle(yoe, doy) && doe == YearStart(yoe) + doy
  {
    hide LongYear;
    var c := if doe == 146096 then 3 else doe / 36524;
    var e := doe - 36524 * c;
    var q := if e == 36524 then 24 else e / 1461;
    var f := e - 1461 * q;
    var a := if f >= 1460 then 3 else f / 365;
    yoe, doy := 100 * c + 4 * q + a, f - 365 * a;
    assert yoe / 100 == c && yoe / 4 == 25 * c + q;
    LongYearOf(c, q, a);
  }

  /** Day of the March year on which month `mp` starts (March is 0). */
  function MonthStart(mp: int): int { (153 * mp + 2) / 5 }

  predicate MonthOk(yoe: int, mp: int, day: int) {
    && 0 <= mp < 12 && 1 <= day
    && day <= if mp == 11 then (if LongYear(yoe) then 29 else 28) else if mp in {1, 3, 6, 8} then 30 else 31
  }

  lemma MonthOfDay(yoe: int, mp: int, day: int)
    requires MonthOk(yoe, mp, day)
    ensures var doy := MonthStart(mp) + day - 1;
            && 0 <= doy <= (if LongYear(yoe) then 365 else 364)
            && (5 * doy + 2) / 153 == mp
  {
    assert mp == 0 || mp == 1 || mp == 2 || mp == 3 || mp == 4 || mp == 5
        || mp == 6 || mp == 7 || mp == 8 || mp == 9 || mp == 10 || mp == 11;
  }

  lemma DayHasMonth(yoe: int, doy: int)
    requires DayOfCycle(yoe, doy)
    ensures var mp := (5 * doy + 2) / 153; MonthOk(yoe, mp, doy - MonthStart(mp) + 1)
  {
    var mp := (5 * doy + 2) / 153;
    assert mp == 0 || mp == 1 || mp == 2 || mp == 3 || mp == 4 || mp == 5
        || mp == 6 || mp == 7 || mp == 8 || mp == 9 || mp == 10 || mp == 11;
  }

  // ----- the two conversions are inverse -----

  /** Date in March-year coordinates: era, year of era, month from March, day. */
  lemma DaysOfMarchDate(y: int, m: int, d: int)
    requires 1 <= m <= 12
    ensures var yy := y - (if m <= 2 then 1 else 0);
            DaysFromCivil(y, m, d) == yy / 400 * 146097 + YearStart(yy % 400)
              + MonthStart(m + (if m > 2 then -3 else 9)) + d - 1 - 719468
  {
    var yy := y - (if m <= 2 then 1 else 0);
    TruncIsFloor(yy, 400);
    assert yy - yy / 400 * 400 == yy % 400;
  }

  lemma DateOfDay(era: int, yoe: int, doy: int)
    requires DayOfCycle(yoe, doy)
    ensures var mp := (5 * doy + 2) / 153;
            var mm := mp + (if mp < 10 then 3 else -9);
            CivilFromDays(era * 146097 + YearStart(yoe) + doy - 719468)
            == Date(yoe + era * 400 + (if mm <= 2 then 1 else 0), mm, doy - MonthStart(mp) + 1)
  {
    hide TruncDiv;
    YearOfDay(yoe, doy);
    EraOfDay(era, YearStart(yoe) + doy);
    DateInEra(era, yoe, doy);
    hide CivilInEra;
    hide YearStart;
  }

  lemma DateInEra(era: int, yoe: int, doy: int)
    requires DayOfCycle(yoe, doy)
    ensures var mp := (5 * doy + 2) / 153;
            var mm := mp + (if mp < 10 then 3 else -9);
            CivilInEra(era, YearStart(yoe) + doy)
            == Date(yoe + era * 400 + (if mm <= 2 then 1 else 0), mm, doy - MonthStart(mp) + 1)
  {
    YearOfDay(yoe, doy);
  }

  lemma EraOfDay(era: int, doe: int)
    requires 0 <= doe < 146097
    ensures var z := era * 146097 + doe; TruncDiv(if z >= 0 then z else z - 146096, 146097) == era
  {
    var z := era * 146097 + doe;
    TruncIsFloor(z, 146097);
    UniqueRemainder(z, 146097, era, doe);
  }

  /** Every valid date comes back from its day number. */
  lemma CivilOfDaysOfCivil(t: Date)
    requires ValidDate(t)
    ensures CivilFromDays(DaysFromCivil(t.year, t.month, t.day)) == t
  {
    hide DaysFromCivil;
    hide CivilFromDays;
    hide YearStart;
    hide LongYear;
    hide Leap;
    var yy := t.year - (if t.month <= 2 then 1 else 0);
    var mp := t.month + (if t.month > 2 then -3 else 9);
    var yoe := yy % 400;
    LeapOfCycle(yy);
    assert yy + 1 == t.year || t.month != 2;
    assert MonthOk(yoe, mp, t.day);
    MonthOfDay(yoe, mp, t.day);
    DaysOfMarchDate(t.year, t.month, t.day);
    DateOfDay(yy / 400, yoe, MonthStart(mp) + t.day - 1);
  }

  /** Every day number is the day number of the valid date it is converted to. */
  lemma DaysOfCivilOfDays(z: int)
    ensures var t := CivilFromDays(z); ValidDate(t) && DaysFromCivil(t.year, t.month, t.day) == z
  {
    hide DaysFromCivil;
    hide CivilFromDays;
    hide YearStart;
    hide LongYear;
    hide Leap;
    var era, doe := (z + 719468) / 146097, (z + 719468) % 146097;
    var yoe, doy := DayHasYear(doe);
    DateOfDay(era, yoe, doy);
    DayHasMonth(yoe, doy);
    var t := CivilFromDays(z);
    var yy := yoe + era * 400;
    UniqueRemainder(yy, 400, era, yoe);
    LeapOfCycle(yy);
    DaysOfMarchDate(t.year, t.month, t.day);
  }

  /** The calendar's own notion of the following day. */
  function NextDate(t: Date): Date {
    if t.day < DaysInMonth(t.year, t.month) then t.(day := t.day + 1)
    else if t.month < 12 then Date(t.year, t.month + 1, 1)
    else Date(t.year + 1, 1, 1)
  }

  lemma NextDateIsValid(t: Date)
    requires ValidDate(t)
    ensures ValidDate(NextDate(t))
  {
    hide Leap;
  }

  lemma EpochIsDayZero()
    ensures DaysFromCivil(1970, 1, 1) == 0
  {}

  /** Consecutive dates have consecutive day numbers, and day 0 is 1970-01-01: the day number
      of every date is thereby determined. */
  lemma NextDateIsNextDay(t: Date)
    requires ValidDate(t)
    ensures ValidDate(NextDate(t))
    ensures var n := NextDate(t); DaysFromCivil(n.year, n.month, n.day) == DaysFromCivil(t.year, t.month, t.day) + 1
    ensures DaysFromCivil(1970, 1, 1) == 0
  {
    hide DaysFromCivil;
    hide DaysInMonth;
    NextDateIsValid(t);
    EpochIsDayZero();
    if t.day < DaysInMonth(t.year, t.month) {
      NextInMonth(t);
    } else if t.month == 2 {
      LastOfFebruary(t);
    } else {
      LastOfOtherMonth(t);
    }
  }

  lemma NextInMonth(t: Date)
    ensures DaysFromCivil(t.year, t.month, t.day + 1) == DaysFromCivil(t.year, t.month, t.day) + 1
  {}

  lemma LastOfOtherMonth(t: Date)
    requires 1 <= t.month <= 12 && t.month != 2 && t.day == DaysInMonth(t.year, t.month)
    ensures var n := if t.month < 12 then Date(t.year, t.month + 1, 1) else Date(t.year + 1, 1, 1);
            DaysFromCivil(n.year, n.month, n.day) == DaysFromCivil(t.year, t.month, t.day) + 1
  {
    hide DaysFromCivil;
    hide YearStart;
    hide MonthStart;
    var mp := t.month + (if t.month > 2 then -3 else 9);
    assert t.day == if mp in {1, 3, 6, 8} then 30 else 31;
    hide DaysInMonth;
    var n := if t.month < 12 then Date(t.year, t.month + 1, 1) else Date(t.year + 1, 1, 1);
    DaysOfMarchDate(t.year, t.month, t.day);
    DaysOfMarchDate(n.year, n.month, n.day);
    MonthLengths(mp);
  }

  lemma LastOfFebruary(t: Date)
    requires t.month == 2 && t.day == DaysInMonth(t.year, 2)
    ensures DaysFromCivil(t.year, 3, 1) == DaysFromCivil(t.year, t.month, t.day) + 1
  {
    hide DaysFromCivil;
    hide YearStart;
    hide Leap;
    hide MonthStart;
    DaysOfMarchDate(t.year, 2, t.day);
    DaysOfMarchDate(t.year, 3, 1);
    NewMarchYear(t.year - 1);
    MonthLengths(0);
  }

  lemma MonthLengths(mp: int)
    requires 0 <= mp < 12
    ensures MonthStart(0) == 0 && MonthStart(11) == 337
    ensures mp < 11 ==> MonthStart(mp + 1) - MonthStart(mp) == if mp in {1, 3, 6, 8} then 30 else 31
  {}

  lemma NewMarchYear(yy: int)
    ensures (yy + 1) / 400 * 146097 + YearStart((yy + 1) % 400)
         == yy / 400 * 146097 + YearStart(yy % 400) + (if Leap(yy + 1) then 366 else 365)
  {
    hide Leap;
    hide YearStart;
    LeapOfCycle(yy);
    var k := yy % 400;
    NextYearStart(k);
    if k == 399 {
      UniqueRemainder(yy + 1, 400, yy / 400 + 1, 0);
    } else {
      UniqueRemainder(yy + 1, 400, yy / 400, k + 1);
    }
  }

  lemma NextYearStart(k: int)
    requires 0 <= k < 400
    ensures YearStart(k) + (if LongYear(k) then 366 else 365) == if k == 399 then 146097 + YearStart(0) else YearStart(k + 1)
  {
    QuotientSteps4(k + 1);
    QuotientSteps100(k + 1);
  }

  // ----- ISO 8601 weeks -----

  /** Day of the week of December 31 of year `y`, as the source computes it. */
  function DecemberWeekday(y: int): int {
    TruncMod(y + TruncDiv(y, 4) - TruncDiv(y, 100) + TruncDiv(y, 400), 7)
  }

  function IsoWeeksInYear(y: int): int {
    if DecemberWeekday(y) == 4 || DecemberWeekday(y - 1) == 3 then 53 else 52
  }

  function IsoWeek1Monday(y: int): int {
    var jan4 := DaysFromCivil(y, 1, 4);
    jan4 - FloorMod(jan4 + 3, 7)
  }

  /** January 4 of year y, counted from year 1. */
  lemma January4(y: int)
    requires y >= 1
    ensures DaysFromCivil(y, 1, 4) == 364 * (y - 1) + WeekdaySum(y - 1) - 719159
  {
    var k := y - 1;
    DaysOfMarchDate(y, 1, 4);
    var c, yoe := k / 400, k % 400;
    assert k == 400 * c + yoe;
    assert k / 4 == 100 * c + yoe / 4 && k / 100 == 4 * c + yoe / 100;
  }

  /** Week-years are whole weeks long, and the source counts them right. */
  lemma IsoWeekIdentity(y: int)
    requires y >= 1
    ensures IsoWeek1Monday(y + 1) - IsoWeek1Monday(y) == 7 * IsoWeeksInYear(y)
  {
    hide DaysFromCivil;
    hide IsoWeeksInYear;
    hide IsoWeek1Monday;
    hide WeekdaySum;
    January4(y);
    January4(y + 1);
    MondayOf(y);
    MondayOf(y + 1);
    WeekdaySumSteps(y);
    WeekdaySums(y);
    WeekLength(y - 1, WeekdaySum(y - 1), WeekdaySum(y), DaysFromCivil(y, 1, 4), DaysFromCivil(y + 1, 1, 4));
  }

  lemma MondayOf(y: int)
    ensures var j := DaysFromCivil(y, 1, 4); IsoWeek1Monday(y) == j - (j + 3) % 7
  {
    hide DaysFromCivil;
    hide TruncMod;
  }

  function WeekdaySum(y: int): int { y + y / 4 - y / 100 + y / 400 }

  lemma WeekdaySums(y: int)
    requires y >= 1
    ensures IsoWeeksInYear(y) == if WeekdaySum(y) % 7 == 4 || WeekdaySum(y - 1) % 7 == 3 then 53 else 52
  {
    DecemberWeekdayIsSum(y);
    DecemberWeekdayIsSum(y - 1);
    hide DecemberWeekday;
    hide WeekdaySum;
  }

  lemma DecemberWeekdayIsSum(y: int)
    requires y >= 0
    ensures DecemberWeekday(y) == WeekdaySum(y) % 7
  {
    TruncNonNegative(WeekdaySum(y), 7);
  }

  lemma TruncNonNegative(a: int, b: int)
    requires a >= 0 && b > 0
    ensures TruncMod(a, b) == a % b
  {
    UniqueRemainder(a, b, a / b, a % b);
  }

  lemma WeekdaySumSteps(y: int)
    ensures 1 <= WeekdaySum(y) - WeekdaySum(y - 1) <= 2
  {
    QuotientSteps4(y);
    QuotientSteps100(y);
    QuotientSteps400(y);
  }

  lemma QuotientSteps4(y: int)
    ensures y / 4 - (y - 1) / 4 == if y % 4 == 0 then 1 else 0
  {
    UniqueRemainder(y - 1, 4, if y % 4 == 0 then y / 4 - 1 else y / 4, if y % 4 == 0 then 3 else y % 4 - 1);
  }

  lemma QuotientSteps100(y: int)
    ensures y / 100 - (y - 1) / 100 == if y % 100 == 0 then 1 else 0
    ensures y % 100 == 0 ==> y % 4 == 0
  {
    UniqueRemainder(y - 1, 100, if y % 100 == 0 then y / 100 - 1 else y / 100, if y % 100 == 0 then 99 else y % 100 - 1);
  }

  lemma QuotientSteps400(y: int)
    ensures y / 400 - (y - 1) / 400 == if y % 400 == 0 then 1 else 0
    ensures y % 400 == 0 ==> y % 100 == 0
  {
    UniqueRemainder(y - 1, 400, if y % 400 == 0 then y / 400 - 1 else y / 400, if y % 400 == 0 then 399 else y % 400 - 1);
  }

  /** With p and q the weekday sums of two consecutive years. */
  lemma WeekLength(k: int, p: int, q: int, a: int, b: int)
    requires q == p + 1 || q == p + 2
    requires a == 364 * k + p - 719159 && b == 364 * (k + 1) + q - 719159
    ensures (b - (b + 3) % 7) - (a - (a + 3) % 7) == 7 * (if q % 7 == 4 || p % 7 == 3 then 53 else 52)
  {
    UniqueRemainder(a + 3, 7, 52 * k - 102737 + (p + 3) / 7, (p + 3) % 7);
    UniqueRemainder(b + 3, 7, 52 * (k + 1) - 102737 + (q + 3) / 7, (q + 3) % 7);
    WeekdayStep(p, q);
  }

  lemma WeekdayStep(p: int, q: int)
    requires q == p + 1 || q == p + 2
    ensures 364 + q - p - (q + 3) % 7 + (p + 3) % 7 == 7 * (if q % 7 == 4 || p % 7 == 3 then 53 else 52)
  {
    var k, m := p / 7, p % 7;
    assert p == 7 * k + m && 0 <= m < 7;
    var d := q - p;
    UniqueRemainder(p + 3, 7, k + (m + 3) / 7, (m + 3) % 7);
    UniqueRemainder(q, 7, k + (m + d) / 7, (m + d) % 7);
    UniqueRemainder(q + 3, 7, k + (m + d + 3) / 7, (m + d + 3) % 7);
  }
}
