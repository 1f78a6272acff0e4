/** Form values that are written read back. */
module FormRoundTrips {
  import opened Options
  import opened Calendar
  import opened FormValues

  predicate Stands(s: string, p: nat, t: string) {
    p + |t| <= |s| && s[p..p + |t|] == t
  }

  lemma StandsSplit(s: string, p: nat, a: string, b: string)
    requires Stands(s, p, a + b)
    ensures Stands(s, p, a) && Stands(s, p + |a|, b)
  {
    assert (a + b)[..|a|] == a && (a + b)[|a|..] == b;
    assert s[p..p + |a + b|][..|a|] == s[p..p + |a|];
    assert s[p..p + |a + b|][|a|..] == s[p + |a|..p + |a| + |b|];
  }

  lemma CharStands(s: string, p: nat, c: char)
    requires Stands(s, p, [c])
    ensures CharAt(s, p) == c
  {
    assert s[p..p + 1][0] == s[p];
  }

  // ----- padded numbers -----

  lemma {:induction false} DigitValueMoves(s: string, p: nat, t: string, n: nat)
    requires Stands(s, p, t) && n <= |t| && AllDigits(t, 0, n)
    ensures AllDigits(s, p, n) && DigitValue(s, p, n) == DigitValue(t, 0, n)
  {
    if n > 0 {
      DigitValueMoves(s, p, t, n - 1);
      assert s[p..p + |t|][n - 1] == s[p + n - 1];
    }
  }

  lemma {:induction false} DigitsSpell(n: nat)
    ensures var d := Digits(n); AllDigits(d, 0, |d|) && DigitValue(d, 0, |d|) == n
    ensures |Digits(n)| >= 1
  {
    if n >= 10 {
      DigitsSpell(n / 10);
      var front, d := Digits(n / 10), Digits(n);
      assert d[0..|front|] == front;
      DigitValueMoves(d, 0, front, |front|);
      assert d[|d| - 1] == ('0' as int + n % 10) as char;
    }
  }

  lemma {:induction false} ZerosSpell(k: nat, d: string, n: nat)
    requires AllDigits(d, 0, |d|) && DigitValue(d, 0, |d|) == n
    ensures var z := Zeros(k) + d; AllDigits(z, 0, |z|) && DigitValue(z, 0, |z|) == n
    ensures |Zeros(k)| == k
  {
    if k == 0 {
      assert Zeros(0) + d == d;
    } else {
      ZerosSpell(k - 1, d, n);
      var z := Zeros(k - 1) + d;
      assert Zeros(k) + d == "0" + z;
      LeadingZero(z);
    }
  }

  lemma LeadingZero(z: string)
    requires AllDigits(z, 0, |z|)
    ensures AllDigits("0" + z, 0, |z| + 1) && DigitValue("0" + z, 0, |z| + 1) == DigitValue(z, 0, |z|)
  {
    assert AllDigits("0" + z, 0, |z| + 1);
    LeadingZeroPrefix(z, |z|);
  }

  lemma {:induction false} LeadingZeroPrefix(z: string, n: nat)
    requires n <= |z| && AllDigits(z, 0, |z|) && AllDigits("0" + z, 0, |z| + 1)
    ensures DigitValue("0" + z, 0, n + 1) == DigitValue(z, 0, n)
  {
    if n > 0 {
      LeadingZeroPrefix(z, n - 1);
      assert ("0" + z)[n] == z[n - 1];
    }
  }

  lemma PadSpells(n: nat, width: nat)
    ensures var d := Pad(n, width); |d| >= width && AllDigits(d, 0, |d|) && DigitValue(d, 0, |d|) == n
  {
    DigitsSpell(n);
    var d := Digits(n);
    if |d| < width {
      ZerosSpell(width - |d|, d, n);
    }
  }

  lemma PadWidths(n: nat)
    ensures n < 100 ==> |Pad(n, 2)| == 2
    ensures n < 1000 ==> |Pad(n, 3)| == 3
    ensures n < 1000000 ==> 4 <= |Pad(n, 4)| <= 6
  {
    PadSpells(n, 2);
    PadSpells(n, 3);
    PadSpells(n, 4);
    DigitsLength(n);
    if |Digits(n)| < 2 { ZerosSpell(2 - |Digits(n)|, "0", 0); }
    if |Digits(n)| < 3 { ZerosSpell(3 - |Digits(n)|, "0", 0); }
    if |Digits(n)| < 4 { ZerosSpell(4 - |Digits(n)|, "0", 0); }
  }

  lemma DigitsLength(n: nat)
    ensures n < 100 ==> |Digits(n)| <= 2
    ensures n < 1000 ==> |Digits(n)| <= 3
    ensures n < 1000000 ==> |Digits(n)| <= 6
  {
    if n >= 10 {
      DigitsLength(n / 10);
      if n < 1000000 && n >= 1000 {
        DigitsLength(n / 1000);
        assert n / 10 / 10 / 10 == n / 1000;
      }
    }
  }

  /** A padded number is read back whole. */
  lemma PadIsRead(s: string, p: nat, n: nat, width: nat, max: nat)
    requires Stands(s, p, Pad(n, width)) && |Pad(n, width)| <= max
    requires |Pad(n, width)| == max || !IsDigit(CharAt(s, p + |Pad(n, width)|))
    ensures ReadDigits(s, p, width, max) == Match(n, p + |Pad(n, width)|)
  {
    var d := Pad(n, width);
    PadSpells(n, width);
    DigitValueMoves(s, p, d, |d|);
    DigitRunStops(s, p, |d|, max);
  }

  // ----- dates -----

  lemma DateIsRead(s: string, p: nat, t: Date)
    requires ValidDate(t) && 1 <= t.year <= MAX_YEAR && Stands(s, p, WriteDate(t))
    ensures ReadDate(s, p) == Match(t, p + |WriteDate(t)|)
  {
    hide Pad;
    hide ReadDigits;
    hide Stands;
    SmallFields(t);
    hide ValidDate;
    var y, m, d := Pad(t.year, 4), Pad(t.month, 2), Pad(t.day, 2);
    PadWidths(t.year);
    PadWidths(t.month);
    PadWidths(t.day);
    StandsSplit(s, p, y + "-" + m + "-", d);
    StandsSplit(s, p, y + "-" + m, "-");
    StandsSplit(s, p, y + "-", m);
    StandsSplit(s, p, y, "-");
    CharStands(s, p + |y|, '-');
    CharStands(s, p + |y| + 3, '-');
    PadIsRead(s, p, t.year, 4, 9);
    PadIsRead(s, p + |y| + 1, t.month, 2, 2);
    PadIsRead(s, p + |y| + 4, t.day, 2, 2);
  }

  lemma SmallFields(t: Date)
    requires ValidDate(t)
    ensures 1 <= t.month <= 12 && 1 <= t.day <= 31
  {}

  // ----- times -----

  function ClockOf(ms: nat): Clock {
    Clock(ms / 3600000, ms / 60000 % 60, ms / 1000 % 60, ms % 1000)
  }

  lemma ClockParts(ms: nat)
    requires ms < DAY_MS
    ensures ClockOf(ms).Valid() && ClockOf(ms).Millis() == ms
  {
    assert ms / 60000 == ms / 3600000 * 60 + ms / 60000 % 60;
    assert ms / 1000 == ms / 60000 * 60 + ms / 1000 % 60;
    assert ms == ms / 1000 * 1000 + ms % 1000;
  }

  lemma SkipStops(s: string, p: nat)
    requires !IsDigit(CharAt(s, p))
    ensures SkipDigits(s, p) == p
  {}

  /** The optional seconds, read back from where the colon stands. */
  lemma SecondsAreRead(s: string, p: nat, se: nat, frac: nat)
    requires se < 60 && frac < 1000
    requires Stands(s, p, Pad(se, 2) + (if frac != 0 then "." + Pad(frac, 3) else ""))
    requires p + |Pad(se, 2) + (if frac != 0 then "." + Pad(frac, 3) else "")| == |s|
    ensures ReadSeconds(s, p) == Match((se, frac), |s|)
  {
    hide Pad;
    hide ReadDigits;
    var fs := if frac != 0 then "." + Pad(frac, 3) else "";
    PadWidths(se);
    PadWidths(frac);
    StandsSplit(s, p, Pad(se, 2), fs);
    PadIsRead(s, p, se, 2, 2);
    if frac != 0 {
      StandsSplit(s, p + 2, ".", Pad(frac, 3));
      CharStands(s, p + 2, '.');
      FractionIsRead(s, p + 3, frac);
    }
  }

  lemma FractionIsRead(s: string, p: nat, frac: nat)
    requires frac < 1000 && Stands(s, p, Pad(frac, 3)) && p + 3 == |s|
    ensures ReadFraction(s, p) == Match(frac, |s|)
  {
    hide Pad;
    PadWidths(frac);
    PadIsRead(s, p, frac, 3, 3);
    SkipStops(s, p + 3);
  }

  lemma TimeIsRead(s: string, p: nat, ms: nat)
    requires ms < DAY_MS && Stands(s, p, WriteTime(ms)) && p + |WriteTime(ms)| == |s|
    ensures ReadTime(s, p) == Match(ms, |s|)
  {
    hide Pad;
    hide ReadDigits;
    hide ReadSeconds;
    hide ReadTime;
    hide WriteTime;
    hide ClockOf;
    hide Stands;
    ClockParts(ms);
    var c := ClockOf(ms);
    var h, mi, tail := Pad(c.hour, 2), Pad(c.minute, 2), SecondsText(c);
    TimeText(ms);
    PadWidths(c.hour);
    PadWidths(c.minute);
    StandsSplit(s, p, h + ":" + mi, tail);
    StandsSplit(s, p, h + ":", mi);
    StandsSplit(s, p, h, ":");
    CharStands(s, p + 2, ':');
    CharOfTail(s, p + 5, c);
    PadIsRead(s, p, c.hour, 2, 2);
    PadIsRead(s, p + 3, c.minute, 2, 2);
    TailIsRead(s, p + 5, c);
    TimeByParts(s, p, c);
  }

  /** The optional seconds and milliseconds. */
  function SecondsText(c: Clock): string
    requires c.second >= 0 && c.millis >= 0
  {
    if c.second != 0 || c.millis != 0 then ":" + (Pad(c.second, 2) + (if c.millis != 0 then "." + Pad(c.millis, 3) else "")) else ""
  }

  lemma TimeText(ms: nat)
    requires ClockOf(ms).Valid()
    ensures var c := ClockOf(ms); WriteTime(ms) == Pad(c.hour, 2) + ":" + Pad(c.minute, 2) + SecondsText(c)
  {
    hide Pad;
  }

  lemma CharOfTail(s: string, p: nat, c: Clock)
    requires c.Valid() && Stands(s, p, SecondsText(c)) && p + |SecondsText(c)| == |s|
    ensures CharAt(s, p) == ':' <==> SecondsText(c) != ""
    ensures !IsDigit(CharAt(s, p))
  {
    hide Pad;
    if SecondsText(c) != "" {
      var sec := Pad(c.second, 2) + (if c.millis != 0 then "." + Pad(c.millis, 3) else "");
      StandsSplit(s, p, ":", sec);
      CharStands(s, p, ':');
    }
  }

  lemma TailIsRead(s: string, p: nat, c: Clock)
    requires c.Valid() && Stands(s, p, SecondsText(c)) && p + |SecondsText(c)| == |s|
    ensures (if CharAt(s, p) == ':' then ReadSeconds(s, p + 1) else Match((0, 0), p)) == Match((c.second, c.millis), |s|)
  {
    hide Pad;
    hide ReadSeconds;
    CharOfTail(s, p, c);
    if c.second != 0 || c.millis != 0 {
      StandsSplit(s, p, ":", Pad(c.second, 2) + (if c.millis != 0 then "." + Pad(c.millis, 3) else ""));
      SecondsAreRead(s, p + 1, c.second, c.millis);
    }
  }

  lemma TimeByParts(s: string, p: nat, c: Clock)
    requires c.Valid() && ReadDigits(s, p, 2, 2) == Match(c.hour as nat, p + 2) && CharAt(s, p + 2) == ':'
    requires ReadDigits(s, p + 3, 2, 2) == Match(c.minute as nat, p + 5)
    requires (if CharAt(s, p + 5) == ':' then ReadSeconds(s, p + 6) else Match((0, 0), p + 5)) == Match((c.second, c.millis), |s|)
    ensures ReadTime(s, p) == Match(c.Millis(), |s|)
  {
    hide ReadDigits;
    hide ReadSeconds;
  }

  // ----- week years -----

  function January1(y: int): int { DaysFromCivil(y, 1, 1) }

  lemma YearLength(y: int)
    ensures January1(y) + 365 <= January1(y + 1)
  {
    hide DaysFromCivil;
    hide YearStart;
    hide Leap;
    DaysOfMarchDate(y, 1, 1);
    DaysOfMarchDate(y + 1, 1, 1);
    NewMarchYear(y - 1);
  }

  lemma {:induction false} YearsIncrease(y: int, y': int)
    requires y < y'
    ensures January1(y + 1) <= January1(y')
    decreases y' - y
  {
    hide January1;
    if y + 1 < y' {
      YearsIncrease(y + 1, y');
      YearLength(y + 1);
    }
  }

  lemma DateInItsYear(t: Date)
    requires ValidDate(t)
    ensures January1(t.year) <= DaysFromCivil(t.year, t.month, t.day) < January1(t.year + 1)
  {
    hide DaysFromCivil;
    hide YearStart;
    hide MonthStart;
    SmallFields(t);
    hide ValidDate;
    DaysOfMarchDate(t.year, 1, 1);
    DaysOfMarchDate(t.year, t.month, t.day);
    DaysOfMarchDate(t.year + 1, 1, 1);
    NewMarchYear(t.year - 1);
    MonthStarts(t.month + (if t.month > 2 then -3 else 9));
  }

  lemma MonthStarts(mp: int)
    requires 0 <= mp < 12
    ensures MonthStart(10) == 306 && MonthStart(11) == 337 && MonthStart(0) == 0
    ensures mp <= 9 ==> 0 <= MonthStart(mp) <= 275
  {}

  /** A day between two January firsts belongs to the year in between. */
  lemma YearOfDayNumber(z: int, y: int)
    requires January1(y) <= z < January1(y + 1)
    ensures CivilFromDays(z).year == y
  {
    hide January1;
    hide CivilFromDays;
    var t := CivilFromDays(z);
    DaysOfCivilOfDays(z);
    DateInItsYear(t);
    if t.year < y {
      YearsIncrease(t.year, y);
    } else if t.year > y {
      YearsIncrease(y, t.year);
    }
  }

  /** The Thursday of every ISO week lies in its week-year. */
  lemma ThursdayInYear(y: int, w: int)
    requires y >= 1 && 1 <= w <= IsoWeeksInYear(y)
    ensures CivilFromDays(IsoWeek1Monday(y) + (w - 1) * 7 + 3).year == y
  {
    hide CivilFromDays;
    hide DaysFromCivil;
    hide IsoWeeksInYear;
    MondayOf(y);
    MondayOf(y + 1);
    IsoWeekIdentity(y);
    hide IsoWeek1Monday;
    DaysInJanuary(y);
    DaysInJanuary(y + 1);
    YearOfDayNumber(IsoWeek1Monday(y) + (w - 1) * 7 + 3, y);
  }

  lemma DaysInJanuary(y: int)
    ensures DaysFromCivil(y, 1, 4) == DaysFromCivil(y, 1, 1) + 3
  {}

  lemma MondaysAreMondays(y: int)
    ensures (IsoWeek1Monday(y) + 3) % 7 == 0
  {
    hide DaysFromCivil;
    MondayOf(y);
    hide IsoWeek1Monday;
    var j := DaysFromCivil(y, 1, 4);
    UniqueRemainder(IsoWeek1Monday(y) + 3, 7, (j + 3) / 7, 0);
  }

  // ----- the round trip, kind by kind -----

  /** What the number of a control's value is written as. */
  predicate ReadsBack(kind: InputKind, n: int) {
    var t := NumberToValue(kind, n as real);
    t.Some? && ValueToNumber(kind, t.value) == Some(n)
  }

  lemma FloorOfWhole(n: int)
    ensures Nearest(n as real) == n
    ensures NearestDay((n * DAY_MS) as real) == n
  {
    assert (n * DAY_MS) as real / 86400000.0 == n as real;
  }

  lemma DateReadsBack(t: Date)
    requires ValidDate(t) && 1 <= t.year <= MAX_YEAR
    ensures ReadsBack(InputDate, DaysFromCivil(t.year, t.month, t.day) * DAY_MS)
  {
    hide DaysFromCivil;
    hide CivilFromDays;
    hide WriteDate;
    var days := DaysFromCivil(t.year, t.month, t.day);
    FloorOfWhole(days);
    hide NearestDay;
    CivilOfDaysOfCivil(t);
    var s := WriteDate(t);
    assert s[0..|s|] == s;
    DateIsRead(s, 0, t);
  }

  lemma MonthReadsBack(y: int, m: int)
    requires 1 <= y <= MAX_YEAR && 1 <= m <= 12
    ensures ReadsBack(InputMonth, (y - 1970) * 12 + (m - 1))
  {
    var months := (y - 1970) * 12 + (m - 1);
    FloorOfWhole(months);
    hide Nearest;
    hide ValueToNumber;
    MonthArithmetic(y, m);
    MonthIsRead(y, m);
    hide FloorMod;
    hide ReadDigits;
    hide Pad;
  }

  lemma MonthArithmetic(y: int, m: int)
    requires 1 <= m <= 12
    ensures var months := (y - 1970) * 12 + (m - 1);
            && 1970 + (if months >= 0 then TruncDiv(months, 12) else -TruncDiv(-months + 11, 12)) == y
            && FloorMod(months, 12) + 1 == m
  {
    hide FloorMod;
    var months := (y - 1970) * 12 + (m - 1);
    UniqueRemainder(months, 12, y - 1970, m - 1);
    if months < 0 {
      UniqueRemainder(-months + 11, 12, 1970 - y, 12 - m);
    }
  }

  lemma MonthIsRead(y: nat, m: nat)
    requires 1 <= y <= MAX_YEAR && 1 <= m <= 12
    ensures ValueToNumber(InputMonth, Pad(y, 4) + "-" + Pad(m, 2)) == Some((y - 1970) * 12 + (m - 1))
  {
    hide Pad;
    hide ReadDigits;
    var ys, ms := Pad(y, 4), Pad(m, 2);
    var s := ys + "-" + ms;
    PadWidths(y);
    PadWidths(m);
    assert s[0..|s|] == s;
    StandsSplit(s, 0, ys + "-", ms);
    StandsSplit(s, 0, ys, "-");
    CharStands(s, |ys|, '-');
    PadIsRead(s, 0, y, 4, 9);
    PadIsRead(s, |ys| + 1, m, 2, 2);
  }

  lemma WeekReadsBack(y: int, w: int)
    requires 1 <= y <= MAX_YEAR && 1 <= w <= IsoWeeksInYear(y)
    ensures ReadsBack(InputWeek, (IsoWeek1Monday(y) + (w - 1) * 7) * DAY_MS)
  {
    hide IsoWeek1Monday;
    hide IsoWeeksInYear;
    hide ValueToNumber;
    hide WriteWeek;
    hide NearestMonday;
    hide Pad;
    var monday := IsoWeek1Monday(y) + (w - 1) * 7;
    WeekIsWritten(y, w);
    WeekIsRead(y, w);
    MondaysAreMondays(y);
    UniqueRemainder(monday + 3, 7, (IsoWeek1Monday(y) + 3) / 7 + w - 1, 0);
    WeekNumber(monday);
  }

  lemma WeekIsWritten(y: nat, w: nat)
    requires 1 <= y <= MAX_YEAR && 1 <= w <= IsoWeeksInYear(y)
    ensures WriteWeek(IsoWeek1Monday(y) + (w - 1) * 7) == Some(Pad(y, 4) + "-W" + Pad(w, 2))
  {
    ThursdayInYear(y, w);
    hide IsoWeek1Monday;
    hide IsoWeeksInYear;
    hide CivilFromDays;
    hide Pad;
    WholeWeeks(IsoWeek1Monday(y) + (w - 1) * 7 - IsoWeek1Monday(y), w - 1);
    hide TruncDiv;
  }

  lemma WholeWeeks(days: int, w: int)
    requires w >= 0 && days == w * 7
    ensures TruncDiv(days, 7) == w
  {}

  lemma WeekNumber(monday: int)
    requires (monday + 3) % 7 == 0
    ensures NearestMonday((monday * DAY_MS) as real) == monday
  {
    var k := (monday + 3) / 7;
    assert monday == 7 * k - 3;
    var x := (monday * DAY_MS) as real / 604800000.0 + 0.5;
    assert x == k as real - 3.0 / 7.0 + 0.5;
    assert x.Floor == k;
  }

  lemma WeeksBound(y: int)
    ensures IsoWeeksInYear(y) <= 53
  {
    hide DecemberWeekday;
  }

  lemma WholeStands(s: string)
    ensures Stands(s, 0, s)
  {
    assert s[0..|s|] == s;
  }

  lemma WeekIsRead(y: nat, w: nat)
    requires 1 <= y <= MAX_YEAR && 1 <= w <= IsoWeeksInYear(y)
    ensures ValueToNumber(InputWeek, Pad(y, 4) + "-W" + Pad(w, 2)) == Some((IsoWeek1Monday(y) + (w - 1) * 7) * DAY_MS)
  {
    WeeksBound(y);
    hide Pad;
    hide ReadDigits;
    hide Stands;
    hide IsoWeeksInYear;
    hide IsoWeek1Monday;
    var ys, ws := Pad(y, 4), Pad(w, 2);
    var s := ys + "-W" + ws;
    PadWidths(y);
    PadWidths(w);
    WholeStands(s);
    assert ys + "-W" == ys + "-" + "W";
    StandsSplit(s, 0, ys + "-W", ws);
    StandsSplit(s, 0, ys + "-", "W");
    StandsSplit(s, 0, ys, "-");
    CharStands(s, |ys|, '-');
    CharStands(s, |ys| + 1, 'W');
    PadIsRead(s, 0, y, 4, 9);
    PadIsRead(s, |ys| + 2, w, 2, 2);
  }

  lemma TimeReadsBack(ms: nat)
    requires ms < DAY_MS
    ensures ReadsBack(InputTime, ms)
  {
    hide WriteTime;
    hide ReadTime;
    hide TruncMod;
    FloorOfWhole(ms);
    hide Nearest;
    var s := WriteTime(ms);
    assert s[0..|s|] == s;
    TimeIsRead(s, 0, ms);
  }

  lemma DateTimeReadsBack(t: Date, ms: nat)
    requires ValidDate(t) && 1 <= t.year <= MAX_YEAR && ms < DAY_MS
    ensures ReadsBack(InputDateTime, DaysFromCivil(t.year, t.month, t.day) * DAY_MS + ms)
  {
    hide DaysFromCivil;
    hide CivilFromDays;
    hide WriteDate;
    hide WriteTime;
    hide ReadDate;
    hide ReadTime;
    var days := DaysFromCivil(t.year, t.month, t.day);
    var total := days * DAY_MS + ms;
    FloorOfWhole(total);
    hide Nearest;
    assert (total as real / 86400000.0).Floor == days by {
      assert total as real / 86400000.0 == days as real + ms as real / 86400000.0;
      assert 0.0 <= ms as real / 86400000.0 < 1.0;
    }
    CivilOfDaysOfCivil(t);
    var ds, ts := WriteDate(t), WriteTime(ms);
    var s := ds + "T" + ts;
    assert s[0..|s|] == s;
    StandsSplit(s, 0, ds + "T", ts);
    StandsSplit(s, 0, ds, "T");
    CharStands(s, |ds|, 'T');
    DateIsRead(s, 0, t);
    TimeIsRead(s, |ds| + 1, ms);
  }

  // ----- all kinds -----

  lemma ReadDateIsValid(s: string, p: nat)
    ensures ReadDate(s, p).Match? ==>
              var t := ReadDate(s, p).value; ValidDate(t) && 1 <= t.year <= MAX_YEAR
  {}

  lemma ReadTimeIsValid(s: string, p: nat)
    ensures ReadTime(s, p).Match? ==> 0 <= ReadTime(s, p).value < DAY_MS
  {
    hide ReadDigits;
    hide ReadSeconds;
    SecondsBound(s);
  }

  lemma SecondsBound(s: string)
    ensures forall p :: ReadSeconds(s, p).Match? ==> ReadSeconds(s, p).value.1 <= 999
  {
    hide ReadDigits;
    forall p | ReadSeconds(s, p).Match? ensures ReadSeconds(s, p).value.1 <= 999 {
      FractionBound(s);
    }
  }

  lemma FractionBound(s: string)
    ensures forall p :: ReadFraction(s, p).Match? ==> ReadFraction(s, p).value <= 999
  {
    forall p: nat | ReadFraction(s, p).Match? ensures ReadFraction(s, p).value <= 999 {
      var n := DigitRun(s, p, 3);
      if n >= 1 { assert DigitValue(s, p, 1) <= 9; }
      if n >= 2 { assert DigitValue(s, p, 2) <= 99; }
    }
  }

  /** Every string that denotes a number is rewritten to a string that denotes the same
      number: number to value inverts value to number on every value a control accepts. */
  lemma NumberToValueInverts(kind: InputKind, s: string)
    requires ValueToNumber(kind, s).Some?
    ensures ReadsBack(kind, ValueToNumber(kind, s).value)
  {
    hide ReadsBack;
    hide ReadDate;
    hide ReadTime;
    hide ReadDigits;
    hide DaysFromCivil;
    hide IsoWeek1Monday;
    hide IsoWeeksInYear;
    ReadDateIsValid(s, 0);
    match kind
    case InputDate => DateReadsBack(ReadDate(s, 0).value);
    case InputMonth =>
      var y := ReadDigits(s, 0, 4, 9);
      MonthReadsBack(y.value, ReadDigits(s, y.next + 1, 2, 2).value);
    case InputWeek =>
      var y := ReadDigits(s, 0, 4, 9);
      WeekReadsBack(y.value, ReadDigits(s, y.next + 2, 2, 2).value);
    case InputTime =>
      ReadTimeIsValid(s, 0);
      TimeReadsBack(ReadTime(s, 0).value);
    case InputDateTime =>
      var t := ReadDate(s, 0);
      ReadTimeIsValid(s, t.next + 1);
      DateTimeReadsBack(t.value, ReadTime(s, t.next + 1).value);
  }

  // ----- any number, there and back -----

  /** The number a control shows for `v`: the nearest day, month or millisecond, the time of day of the
      nearest millisecond, or the Monday of the week of the nearest day. */
  function Represented(kind: InputKind, v: real): int {
    match kind
    case InputDate => NearestDay(v) * DAY_MS
    case InputMonth => Nearest(v)
    case InputWeek => NearestMonday(v) * DAY_MS
    case InputTime => Nearest(v) % DAY_MS
    case InputDateTime => Nearest(v)
  }

  lemma RepresentedIsNearest(kind: InputKind, v: real)
    ensures kind == InputMonth || kind == InputDateTime ==> -0.5 < Represented(kind, v) as real - v <= 0.5
    ensures kind == InputDate ==> -43200000.0 < Represented(kind, v) as real - v <= 43200000.0
    ensures kind == InputTime ==>
              0 <= Represented(kind, v) < DAY_MS
              && exists day: int :: -0.5 < (Represented(kind, v) + day * DAY_MS) as real - v <= 0.5
    ensures kind == InputWeek ==>
              NearestMonday(v) <= NearestDay(v) < NearestMonday(v) + 7 && (NearestMonday(v) + 3) % 7 == 0
  {
    if kind == InputTime {
      var n := Nearest(v);
      assert n % DAY_MS + n / DAY_MS * DAY_MS == n;
    } else if kind == InputWeek {
      var k, d := (v / 604800000.0 + 0.5).Floor, NearestDay(v);
      assert v / 604800000.0 == v / 86400000.0 / 7.0;
      var x := v / 86400000.0;
      assert 7.0 * (k as real) <= x + 3.5 < 7.0 * (k as real) + 7.0;
    }
  }

  lemma RepresentedOfWhole(kind: InputKind, v: real)
    ensures Represented(kind, Represented(kind, v) as real) == Represented(kind, v)
    ensures NumberToValue(kind, Represented(kind, v) as real) == NumberToValue(kind, v)
  {
    hide CivilFromDays;
    hide WriteWeek;
    hide WriteDate;
    hide WriteTime;
    hide Pad;
    hide TruncDiv;
    hide FloorMod;
    hide Nearest;
    hide NearestDay;
    hide NearestMonday;
    match kind
    case InputWeek =>
      MondayOfWeek(v);
      WeekNumber(NearestMonday(v));
    case InputTime =>
      FloorOfWhole(Nearest(v) % DAY_MS);
      DayRemainder(Nearest(v));
    case InputDate => FloorOfWhole(NearestDay(v));
    case _ => FloorOfWhole(Nearest(v));
  }

  lemma MondayOfWeek(v: real)
    ensures (NearestMonday(v) + 3) % 7 == 0
  {}

  lemma DayRemainder(n: int)
    ensures FloorMod(n, DAY_MS) == n % DAY_MS == FloorMod(n % DAY_MS, DAY_MS)
  {}

  lemma WrittenDate(v: real)
    requires NumberToValue(InputDate, v).Some?
    ensures ReadsBack(InputDate, Represented(InputDate, v))
  {
    hide ReadsBack;
    hide CivilFromDays;
    hide DaysFromCivil;
    DaysOfCivilOfDays(NearestDay(v));
    DateReadsBack(CivilFromDays(NearestDay(v)));
  }

  lemma WrittenMonth(v: real)
    requires NumberToValue(InputMonth, v).Some?
    ensures ReadsBack(InputMonth, Represented(InputMonth, v))
  {
    hide ReadsBack;
    hide TruncDiv;
    hide FloorMod;
    var months := Nearest(v);
    MonthOfNumber(months);
    MonthReadsBack(1970 + months / 12, months % 12 + 1);
  }

  lemma WrittenWeek(v: real)
    requires NumberToValue(InputWeek, v).Some?
    ensures ReadsBack(InputWeek, Represented(InputWeek, v))
  {
    hide ReadsBack;
    hide CivilFromDays;
    hide IsoWeek1Monday;
    hide IsoWeeksInYear;
    hide TruncDiv;
    RepresentedIsNearest(InputWeek, v);
    hide NearestMonday;
    var monday := NearestMonday(v);
    var y := CivilFromDays(monday + 3).year;
    WeekOfMonday(monday, y);
    WeekReadsBack(y, TruncDiv(monday - IsoWeek1Monday(y), 7) + 1);
  }

  lemma WrittenDateTime(v: real)
    requires NumberToValue(InputDateTime, v).Some?
    ensures ReadsBack(InputDateTime, Represented(InputDateTime, v))
  {
    hide ReadsBack;
    hide CivilFromDays;
    hide DaysFromCivil;
    hide Nearest;
    var total := Nearest(v);
    var days := (total as real / 86400000.0).Floor;
    DaysOfCivilOfDays(days);
    DateTimeReadsBack(CivilFromDays(days), total - days * DAY_MS);
  }

  /** What is written for a number reads as what the control shows for it. */
  lemma WrittenReadsAsNearest(kind: InputKind, v: real)
    requires NumberToValue(kind, v).Some?
    ensures ValueToNumber(kind, NumberToValue(kind, v).value) == Some(Represented(kind, v))
  {
    hide NumberToValue;
    hide ValueToNumber;
    RepresentedOfWhole(kind, v);
    match kind {
      case InputDate => WrittenDate(v);
      case InputMonth => WrittenMonth(v);
      case InputWeek => WrittenWeek(v);
      case InputTime => TimeReadsBack(Nearest(v) % DAY_MS);
      case InputDateTime => WrittenDateTime(v);
    }
  }

  lemma MonthOfNumber(months: int)
    ensures 1970 + (if months >= 0 then TruncDiv(months, 12) else -TruncDiv(-months + 11, 12)) == 1970 + months / 12
    ensures FloorMod(months, 12) == months % 12 && (1970 + months / 12 - 1970) * 12 + months % 12 == months
  {}

  lemma WeekOfMonday(monday: int, y: int)
    requires (monday + 3) % 7 == 0
    ensures IsoWeek1Monday(y) + TruncDiv(monday - IsoWeek1Monday(y), 7) * 7 == monday
  {
    hide IsoWeek1Monday;
    MondaysAreMondays(y);
    var d := monday - IsoWeek1Monday(y);
    assert d % 7 == 0;
  }

  /** A number is written if and only if some string stands for what the control shows for it. */
  lemma WrittenIffRepresentable(kind: InputKind, v: real)
    ensures NumberToValue(kind, v).Some? <==> exists s :: ValueToNumber(kind, s) == Some(Represented(kind, v))
  {
    hide NumberToValue;
    hide ValueToNumber;
    hide Represented;
    if NumberToValue(kind, v).Some? { WrittenReadsAsNearest(kind, v); }
    if s :| ValueToNumber(kind, s) == Some(Represented(kind, v)) {
      NumberToValueInverts(kind, s);
      RepresentedOfWhole(kind, v);
    }
  }

  // ----- nothing more than needed is written -----

  lemma DigitCount(n: nat)
    requires n < 1000000
    ensures |Digits(n)| == if n < 10 then 1 else if n < 100 then 2 else if n < 1000 then 3 else if n < 10000 then 4
                           else if n < 100000 then 5 else 6
  {
    if n >= 10 { DigitCount(n / 10); }
  }

  lemma PaddedLength(n: nat, width: nat)
    requires n < 1000000
    ensures |Pad(n, width)| == if |Digits(n)| >= width then |Digits(n)| else width
  {
    PadSpells(n, width);
    if |Digits(n)| < width {
      DigitsSpell(n);
      ZerosSpell(width - |Digits(n)|, Digits(n), n);
    }
  }

  /** Years have four digits, more only if they need them. */
  lemma WrittenDateLength(t: Date)
    requires ValidDate(t) && 1 <= t.year <= MAX_YEAR
    ensures |WriteDate(t)| == 6 + (if t.year < 10000 then 4 else if t.year < 100000 then 5 else 6)
  {
    hide Pad;
    hide Digits;
    SmallFields(t);
    hide ValidDate;
    PaddedLength(t.year, 4);
    PaddedLength(t.month, 2);
    PaddedLength(t.day, 2);
    DigitCount(t.year);
    DigitCount(t.month);
    DigitCount(t.day);
  }

  /** Seconds are written only where the minute is not full, and their fraction only where they are not. */
  lemma WrittenTimeLength(ms: nat)
    requires ms < DAY_MS
    ensures |WriteTime(ms)| == if ms % 1000 != 0 then 12 else if ms % 60000 != 0 then 8 else 5
  {
    hide Pad;
    ClockParts(ms);
    PadWidths(ms / 3600000);
    PadWidths(ms / 60000 % 60);
    PadWidths(ms / 1000 % 60);
    PadWidths(ms % 1000);
    FullMinutes(ms);
  }

  lemma FullMinutes(ms: nat)
    ensures ms % 60000 == 0 <==> ms % 1000 == 0 && ms / 1000 % 60 == 0
  {
    assert ms == ms / 1000 * 1000 + ms % 1000;
    assert ms / 1000 == ms / 60000 * 60 + ms / 1000 % 60;
  }

  /** A local date and time is a written date, a T, and a written time of day. */
  lemma WrittenWithT(v: real) returns (t: Date, ms: nat)
    requires NumberToValue(InputDateTime, v).Some?
    ensures ValidDate(t) && 1 <= t.year <= MAX_YEAR && ms < DAY_MS
    ensures NumberToValue(InputDateTime, v).value == WriteDate(t) + "T" + WriteTime(ms)
  {
    hide WriteTime;
    hide WriteDate;
    hide CivilFromDays;
    hide DaysFromCivil;
    hide Nearest;
    var total := Nearest(v);
    var days := (total as real / 86400000.0).Floor;
    t := CivilFromDays(days);
    DaysOfCivilOfDays(days);
    ms := total - days * DAY_MS;
  }

  // ----- weeks -----

  /** Week 1 starts on a Monday and has January 4 in it; day 0 was a Thursday. */
  lemma FirstWeekHasJanuary4(y: int)
    ensures IsoWeek1Monday(y) <= DaysFromCivil(y, 1, 4) < IsoWeek1Monday(y) + 7
    ensures (IsoWeek1Monday(y) + 3) % 7 == 0
  {
    hide DaysFromCivil;
    MondayOf(y);
    MondaysAreMondays(y);
  }
}
