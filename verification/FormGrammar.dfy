/** What form controls accept. */
module FormGrammar {
  import opened Options
  import opened Calendar
  import opened FormValues

  // ----- numerals -----

  predicate Numeral(t: string) {
    forall k :: 0 <= k < |t| ==> IsDigit(t[k])
  }

  function Pow10(n: nat): (p: nat)
    ensures p >= 1
  {
    if n == 0 then 1 else 10 * Pow10(n - 1)
  }

  /** The number a numeral denotes, by the places of its digits. */
  function Worth(t: string): nat
    requires Numeral(t)
  {
    if t == "" then 0 else DigitOf(t[0]) * Pow10(|t| - 1) + Worth(t[1..])
  }

  // ----- the accepted strings -----

  predicate TwoDigits(t: string, v: int) {
    |t| == 2 && Numeral(t) && Worth(t) == v
  }

  predicate YearText(t: string, v: int) {
    4 <= |t| <= 9 && Numeral(t) && Worth(t) == v && 1 <= v <= MAX_YEAR
  }

  predicate DateParts(t: string, d: Date, year: string, month: string, day: string) {
    && t == year + "-" + month + "-" + day
    && YearText(year, d.year) && TwoDigits(month, d.month) && TwoDigits(day, d.day) && ValidDate(d)
  }

  ghost predicate SpellsDate(t: string, d: Date) {
    exists year, month, day :: DateParts(t, d, year, month, day)
  }

  /** Any number of digits, cut to milliseconds. */
  predicate FractionText(t: string, millis: int) {
    t != "" && Numeral(t) && millis == 1000 * Worth(t) / Pow10(|t|)
  }

  /** Hours and minutes, then seconds if there are any, then a fraction if there is one. */
  predicate TimeParts(t: string, c: Clock, hour: string, minute: string, second: string, fraction: string) {
    && c.Valid() && TwoDigits(hour, c.hour) && TwoDigits(minute, c.minute)
    && (second == "" ==> fraction == "" && c.second == 0)
    && (second != "" ==> TwoDigits(second, c.second))
    && (if fraction == "" then c.millis == 0 else FractionText(fraction, c.millis))
    && t == hour + ":" + minute + (if second == "" then "" else ":" + second) + (if fraction == "" then "" else "." + fraction)
  }

  ghost predicate SpellsTime(t: string, ms: int) {
    exists c: Clock, hour, minute, second, fraction ::
      TimeParts(t, c, hour, minute, second, fraction) && ms == c.Millis()
  }

  predicate MonthParts(t: string, n: int, year: string, month: string, y: int, m: int) {
    && t == year + "-" + month && YearText(year, y) && TwoDigits(month, m)
    && 1 <= m <= 12 && n == (y - 1970) * 12 + (m - 1)
  }

  predicate WeekParts(t: string, n: int, year: string, week: string, y: int, w: int) {
    && t == year + "-W" + week && YearText(year, y) && TwoDigits(week, w)
    && 1 <= w <= IsoWeeksInYear(y) && n == (IsoWeek1Monday(y) + (w - 1) * 7) * DAY_MS
  }

  predicate IsSeparator(c: char) { c == 'T' || c == ' ' }

  ghost predicate DateTimeParts(t: string, n: int, date: string, between: char, time: string, d: Date, ms: int) {
    && t == date + [between] + time && IsSeparator(between) && SpellsDate(date, d) && SpellsTime(time, ms)
    && n == DaysFromCivil(d.year, d.month, d.day) * DAY_MS + ms
  }

  /** The string is a value of the control and stands for the number. */
  ghost predicate Spells(kind: InputKind, s: string, n: int) {
    match kind
    case InputDate => exists d :: SpellsDate(s, d) && n == DaysFromCivil(d.year, d.month, d.day) * DAY_MS
    case InputMonth => exists year, month, y, m :: MonthParts(s, n, year, month, y, m)
    case InputWeek => exists year, week, y, w :: WeekParts(s, n, year, week, y, w)
    case InputTime => SpellsTime(s, n)
    case InputDateTime => exists date, between, time, d, ms :: DateTimeParts(s, n, date, between, time, d, ms)
  }

  // ----- digits -----

  lemma TimesTen(d: nat, p: nat)
    ensures d * (10 * p) == d * p * 10
  {}

  lemma {:induction false} WorthSnoc(t: string, c: char)
    requires Numeral(t) && IsDigit(c)
    ensures Numeral(t + [c]) && Worth(t + [c]) == Worth(t) * 10 + DigitOf(c)
  {
    var u := t + [c];
    assert Numeral(u);
    if t == "" {
      assert u[1..] == "";
    } else {
      assert u[1..] == t[1..] + [c] && u[0] == t[0];
      WorthSnoc(t[1..], c);
      hide Worth;
      LeadingDigit(t);
      LeadingDigit(u);
      TimesTen(DigitOf(t[0]), Pow10(|t| - 1));
    }
  }

  lemma {:induction false} DigitsAreWorth(s: string, p: nat, n: nat)
    requires p <= |s| && AllDigits(s, p, n)
    ensures p + n <= |s| && Numeral(s[p..p + n]) && DigitValue(s, p, n) == Worth(s[p..p + n])
  {
    if n > 0 {
      DigitsAreWorth(s, p, n - 1);
      WorthSnoc(s[p..p + n - 1], s[p + n - 1]);
      assert s[p..p + n - 1] + [s[p + n - 1]] == s[p..p + n];
    }
  }

  lemma {:induction false} RunIsLongest(s: string, p: nat, max: nat)
    requires p <= |s|
    ensures var n := DigitRun(s, p, max); n == max || p + n == |s| || (p + n < |s| && !IsDigit(s[p + n]))
    decreases max
  {
    if max > 0 && IsDigit(CharAt(s, p)) {
      RunIsLongest(s, p + 1, max - 1);
    }
  }

  /** Where a numeral can end. */
  predicate Ends(s: string, p: nat, next: nat, max: nat)
    requires p <= next <= |s|
  {
    next - p == max || next == |s| || !IsDigit(s[next])
  }

  lemma DigitsMean(s: string, p: nat, min: nat, max: nat)
    requires p <= |s|
    ensures var r := ReadDigits(s, p, min, max);
            r.Match? ==>
              && p <= r.next <= |s| && min <= r.next - p <= max && Numeral(s[p..r.next])
              && r.value == Worth(s[p..r.next])
  {
    DigitsAreWorth(s, p, DigitRun(s, p, max));
  }

  lemma NumeralIsRead(s: string, p: nat, next: nat, min: nat, max: nat)
    requires p <= next <= |s| && min <= next - p <= max && Numeral(s[p..next]) && Ends(s, p, next, max)
    ensures ReadDigits(s, p, min, max) == Match(Worth(s[p..next]), next)
  {
    assert forall k :: p <= k < next ==> s[k] == s[p..next][k - p];
    DigitRunStops(s, p, next - p, max);
    DigitsAreWorth(s, p, next - p);
  }

  // ----- dates -----

  lemma Split(s: string, p: nat, next: nat, a: string, b: string)
    requires p <= next <= |s| && s[p..next] == a + b
    ensures p + |a| + |b| == next && s[p..p + |a|] == a && s[p + |a|..next] == b
  {
    assert s[p..next][..|a|] == a && s[p..next][|a|..] == b;
  }

  lemma CharIs(s: string, p: nat, c: char)
    requires p + 1 <= |s| && s[p..p + 1] == [c]
    ensures s[p] == c == CharAt(s, p)
  {
    assert s[p..p + 1][0] == s[p];
  }

  lemma Together(s: string, p: nat, q: nat, next: nat)
    requires p <= q < next <= |s|
    ensures s[p..next] == s[p..q] + [s[q]] + s[q + 1..next]
  {}

  lemma DateIsSpelled(s: string, p: nat)
    requires p <= |s|
    ensures var r := ReadDate(s, p); r.Match? ==> p <= r.next <= |s| && SpellsDate(s[p..r.next], r.value)
  {
    hide ReadDigits;
    hide ValidDate;
    var r := ReadDate(s, p);
    if r.Match? {
      var y := ReadDigits(s, p, 4, 9);
      DigitsMean(s, p, 4, 9);
      var m := ReadDigits(s, y.next + 1, 2, 2);
      DigitsMean(s, y.next + 1, 2, 2);
      DigitsMean(s, m.next + 1, 2, 2);
      Together(s, p, y.next, m.next);
      Together(s, p, m.next, r.next);
      assert DateParts(s[p..r.next], r.value, s[p..y.next], s[y.next + 1..m.next], s[m.next + 1..r.next]);
    }
  }

  lemma SpelledDateIsRead(s: string, p: nat, next: nat, d: Date)
    requires p <= next <= |s| && SpellsDate(s[p..next], d)
    ensures ReadDate(s, p) == Match(d, next)
  {
    hide ReadDigits;
    hide ValidDate;
    hide Numeral;
    hide Worth;
    var year, month, day :| DateParts(s[p..next], d, year, month, day);
    Split(s, p, next, year + "-" + month + "-", day);
    Split(s, p, next - 2, year + "-" + month, "-");
    Split(s, p, next - 3, year + "-", month);
    Split(s, p, next - 5, year, "-");
    CharIs(s, next - 3, '-');
    CharIs(s, next - 6, '-');
    NumeralIsRead(s, p, next - 6, 4, 9);
    NumeralIsRead(s, next - 5, next - 3, 2, 2);
    NumeralIsRead(s, next - 2, next, 2, 2);
  }

  // ----- fractions -----

  lemma {:induction false} PowerSum(a: nat, b: nat)
    ensures Pow10(a + b) == Pow10(a) * Pow10(b)
  {
    if a > 0 {
      PowerSum(a - 1, b);
    }
  }

  lemma AtMostNine(d: nat, p: nat)
    requires d <= 9
    ensures d * p <= 9 * p
  {}

  lemma {:induction false} WorthBound(t: string)
    requires Numeral(t)
    ensures Worth(t) < Pow10(|t|)
  {
    if t != "" {
      WorthBound(t[1..]);
      hide Worth;
      LeadingDigit(t);
      AtMostNine(DigitOf(t[0]), Pow10(|t| - 1));
    }
  }

  lemma EmptyWorth()
    ensures Worth("") == 0 && Pow10(0) == 1
  {}

  lemma LeadingDigit(t: string)
    requires Numeral(t) && t != ""
    ensures Numeral(t[1..]) && Worth(t) == DigitOf(t[0]) * Pow10(|t| - 1) + Worth(t[1..])
  {}

  lemma Distribute(d: nat, p: nat, w: nat, q: nat)
    ensures (d * p + w) * q == d * (p * q) + w * q
  {}

  lemma {:induction false} WorthConcat(a: string, b: string)
    requires Numeral(a) && Numeral(b)
    ensures Numeral(a + b) && Worth(a + b) == Worth(a) * Pow10(|b|) + Worth(b)
  {
    hide Worth;
    hide Pow10;
    assert Numeral(a + b);
    if a == "" {
      assert a + b == b;
      EmptyWorth();
    } else {
      var c := a + b;
      assert c[1..] == a[1..] + b && c[0] == a[0];
      WorthConcat(a[1..], b);
      PowerSum(|a| - 1, |b|);
      LeadingDigit(a);
      LeadingDigit(c);
      Distribute(DigitOf(a[0]), Pow10(|a| - 1), Worth(a[1..]), Pow10(|b|));
    }
  }

  lemma DivideOut(w: nat, r: nat, m: nat, k: nat)
    requires m > 0 && k > 0 && r < m
    ensures k * (w * m + r) / (k * m) == w
  {
    var n := w * m + r;
    assert k * n == (k * m) * w + k * r;
    assert 0 <= k * r < k * m;
    UniqueRemainder(k * n, k * m, w, k * r);
  }

  /** Cut to milliseconds: the digits after the third do not count. */
  lemma LongFraction(t: string)
    requires Numeral(t) && |t| >= 3
    ensures 1000 * Worth(t) / Pow10(|t|) == Worth(t[..3])
  {
    hide Worth;
    var a, b := t[..3], t[3..];
    assert t == a + b;
    WorthConcat(a, b);
    WorthBound(b);
    PowerSum(3, |b|);
    Thousand();
    DivideOut(Worth(a), Worth(b), Pow10(|b|), 1000);
  }

  lemma Thousand()
    ensures Pow10(3) == 1000 && Pow10(2) == 100 && Pow10(1) == 10
  {}

  lemma ShortFraction(t: string)
    requires Numeral(t) && 1 <= |t| <= 2
    ensures 1000 * Worth(t) / Pow10(|t|) == if |t| == 1 then Worth(t) * 100 else Worth(t) * 10
  {
    hide Worth;
    Thousand();
  }

  lemma {:induction false} SkipsDigits(s: string, p: nat)
    requires p <= |s|
    ensures var q := SkipDigits(s, p); p <= q <= |s| && Numeral(s[p..q]) && (q == |s| || !IsDigit(s[q]))
    decreases |s| - p
  {
    if p < |s| && IsDigit(s[p]) {
      SkipsDigits(s, p + 1);
      var q := SkipDigits(s, p + 1);
      assert s[p..q] == [s[p]] + s[p + 1..q];
    }
  }

  lemma FractionMeans(s: string, p: nat)
    requires p <= |s|
    ensures var r := ReadFraction(s, p);
            && (r.Match? ==> p <= r.next <= |s| && FractionText(s[p..r.next], r.value) && (r.next == |s| || !IsDigit(s[r.next])))
            && (r.NoMatch? ==> !IsDigit(CharAt(s, p)))
  {
    hide Worth;
    var n := DigitRun(s, p, 3);
    RunIsLongest(s, p, 3);
    DigitsAreWorth(s, p, n);
    SkipsDigits(s, p + n);
    if n > 0 {
      var q := SkipDigits(s, p + n);
      var t := s[p..q];
      assert t == s[p..p + n] + s[p + n..q];
      assert Numeral(t);
      if n == 3 {
        LongFraction(t);
        assert t[..3] == s[p..p + 3];
      } else {
        assert q == p + n;
        ShortFraction(t);
      }
    }
  }

  lemma FractionIsTaken(s: string, p: nat, t: string)
    requires p <= |s| && s[p..] == t && Numeral(t) && t != ""
    ensures ReadFraction(s, p) == Match(1000 * Worth(t) / Pow10(|t|), |s|)
  {
    hide Worth;
    hide Pow10;
    hide ReadFraction;
    FractionMeans(s, p);
    assert s[p] == t[0];
    var r := ReadFraction(s, p);
    assert forall k :: p <= k < |s| ==> s[k] == t[k - p];
    assert s[p..|s|] == t;
  }

  // ----- times -----

  /** What may follow the minutes at the end of a string. */
  predicate SecondsText(t: string, se: int, millis: int, second: string, fraction: string) {
    && TwoDigits(second, se) && t == second + (if fraction == "" then "" else "." + fraction)
    && (if fraction == "" then millis == 0 else FractionText(fraction, millis))
  }

  lemma SecondsMean(s: string, p: nat) returns (second: string, fraction: string)
    requires p <= |s|
    ensures var r := ReadSeconds(s, p);
            r.Match? && r.next == |s| ==> second != "" && SecondsText(s[p..], r.value.0, r.value.1, second, fraction)
  {
    hide ReadDigits;
    hide ReadFraction;
    hide Worth;
    hide Pow10;
    second, fraction := "", "";
    var se := ReadDigits(s, p, 2, 2);
    DigitsMean(s, p, 2, 2);
    if se.Match? {
      second := s[p..se.next];
      if CharAt(s, se.next) == '.' {
        FractionMeans(s, se.next + 1);
        var f := ReadFraction(s, se.next + 1);
        if f.Match? && f.next == |s| {
          fraction := s[se.next + 1..f.next];
          Together(s, p, se.next, |s|);
          assert [s[se.next]] + fraction == "." + fraction;
          assert s[p..] == s[p..|s|];
        }
      } else if se.next == |s| {
        assert s[p..] == second + "";
      }
    }
  }

  lemma SecondsAreTaken(s: string, p: nat, se: nat, millis: nat, second: string, fraction: string)
    requires p <= |s| && SecondsText(s[p..], se, millis, second, fraction)
    ensures ReadSeconds(s, p) == Match((se, millis), |s|)
  {
    hide ReadDigits;
    hide ReadFraction;
    hide Worth;
    hide Pow10;
    var tail := if fraction == "" then "" else "." + fraction;
    assert s[p..] == s[p..|s|];
    Split(s, p, |s|, second, tail);
    NumeralIsRead(s, p, p + 2, 2, 2);
    if fraction != "" {
      Split(s, p + 2, |s|, ".", fraction);
      CharIs(s, p + 2, '.');
      assert s[p + 3..] == s[p + 3..|s|];
      FractionIsTaken(s, p + 3, fraction);
    }
  }

  lemma LessThan(w: nat, p: nat, k: nat)
    requires w < p
    ensures k > 0 ==> k * w / p < k
  {
    if k > 0 {
      var q := k * w / p;
      assert p * q <= k * w;
      Fewer(w, p, k);
      SmallerFactor(p, q, k);
    }
  }

  lemma Fewer(w: nat, p: nat, k: nat)
    requires w < p && k > 0
    ensures k * w < p * k
  {}

  lemma SmallerFactor(p: nat, q: nat, k: nat)
    requires p * q < p * k
    ensures q < k
  {
    if q >= k { MoreIsMore(p, q, k); }
  }

  lemma MoreIsMore(p: nat, q: nat, k: nat)
    requires q >= k
    ensures p * q >= p * k
  {}

  lemma MillisBound(fraction: string, millis: int)
    requires FractionText(fraction, millis)
    ensures 0 <= millis <= 999
  {
    hide Worth;
    hide Pow10;
    WorthBound(fraction);
    LessThan(Worth(fraction), Pow10(|fraction|), 1000);
  }

  lemma TimeIsSpelled(s: string, p: nat)
    requires p <= |s|
    ensures var r := ReadTime(s, p); r.Match? && r.next == |s| ==> SpellsTime(s[p..], r.value)
  {
    hide ReadDigits;
    hide ReadSeconds;
    hide Worth;
    hide Pow10;
    hide FractionText;
    var r := ReadTime(s, p);
    if r.Match? && r.next == |s| {
      var h := ReadDigits(s, p, 2, 2);
      DigitsMean(s, p, 2, 2);
      var mi := ReadDigits(s, h.next + 1, 2, 2);
      DigitsMean(s, h.next + 1, 2, 2);
      var hour, minute := s[p..h.next], s[h.next + 1..mi.next];
      Together(s, p, h.next, mi.next);
      assert [s[h.next]] == ":";
      assert hour + ":" + minute == s[p..mi.next];
      assert s[p..] == s[p..mi.next] + s[mi.next..];
      if CharAt(s, mi.next) == ':' {
        var second, fraction := SecondsMean(s, mi.next + 1);
        var se := ReadSeconds(s, mi.next + 1);
        var c := Clock(h.value, mi.value, se.value.0, se.value.1);
        if fraction != "" { MillisBound(fraction, c.millis); }
        assert s[mi.next..] == ":" + s[mi.next + 1..];
        JoinTime(hour + ":" + minute, second, fraction);
        assert TimeParts(s[p..], c, hour, minute, second, fraction);
      } else {
        var c := Clock(h.value, mi.value, 0, 0);
        assert TimeParts(s[p..], c, hour, minute, "", "");
      }
    }
  }

  lemma JoinTime(front: string, second: string, fraction: string)
    requires second != ""
    ensures front + (":" + (second + (if fraction == "" then "" else "." + fraction)))
         == front + (if second == "" then "" else ":" + second) + (if fraction == "" then "" else "." + fraction)
  {
    var f := if fraction == "" then "" else "." + fraction;
    assert ":" + (second + f) == (":" + second) + f;
  }

  lemma SpelledTimeIsRead(s: string, p: nat, c: Clock, hour: string, minute: string, second: string, fraction: string)
    requires p <= |s| && TimeParts(s[p..], c, hour, minute, second, fraction)
    ensures ReadTime(s, p) == Match(c.Millis(), |s|)
  {
    hide ReadDigits;
    hide ReadSeconds;
    hide Worth;
    hide Pow10;
    hide FractionText;
    var front := hour + ":" + minute;
    var tail := (if second == "" then "" else ":" + second) + (if fraction == "" then "" else "." + fraction);
    assert s[p..] == front + tail == s[p..|s|];
    Split(s, p, |s|, front, tail);
    Split(s, p, p + 5, hour + ":", minute);
    Split(s, p, p + 3, hour, ":");
    CharIs(s, p + 2, ':');
    NumeralIsRead(s, p, p + 2, 2, 2);
    NumeralIsRead(s, p + 3, p + 5, 2, 2);
    if second != "" {
      JoinTime("", second, fraction);
      var rest := second + (if fraction == "" then "" else "." + fraction);
      assert tail == ":" + rest;
      Split(s, p + 5, |s|, ":", rest);
      CharIs(s, p + 5, ':');
      assert s[p + 6..] == s[p + 6..|s|];
      SecondsAreTaken(s, p + 6, c.second, c.millis, second, fraction);
    }
  }

  // ----- whole values -----

  lemma WholeSlice(s: string)
    ensures s[0..|s|] == s[0..] == s
  {}

  lemma DateIff(s: string, n: int)
    ensures ValueToNumber(InputDate, s) == Some(n) <==> Spells(InputDate, s, n)
  {
    hide DaysFromCivil;
    hide ReadDate;
    hide SpellsDate;
    WholeSlice(s);
    DateIsSpelled(s, 0);
    forall d | SpellsDate(s, d) ensures ReadDate(s, 0) == Match(d, |s|) { SpelledDateIsRead(s, 0, |s|, d); }
  }

  lemma MonthIff(s: string, n: int)
    ensures ValueToNumber(InputMonth, s) == Some(n) <==> Spells(InputMonth, s, n)
  {
    hide ReadDigits;
    hide Worth;
    hide Numeral;
    if ValueToNumber(InputMonth, s) == Some(n) {
      var y := ReadDigits(s, 0, 4, 9);
      DigitsMean(s, 0, 4, 9);
      var m := ReadDigits(s, y.next + 1, 2, 2);
      DigitsMean(s, y.next + 1, 2, 2);
      WholeSlice(s);
      Together(s, 0, y.next, |s|);
      assert MonthParts(s, n, s[0..y.next], s[y.next + 1..|s|], y.value, m.value);
    }
    if Spells(InputMonth, s, n) {
      var year, month, y, m :| MonthParts(s, n, year, month, y, m);
      WholeSlice(s);
      Split(s, 0, |s|, year + "-", month);
      Split(s, 0, |s| - 2, year, "-");
      CharIs(s, |s| - 3, '-');
      NumeralIsRead(s, 0, |s| - 3, 4, 9);
      NumeralIsRead(s, |s| - 2, |s|, 2, 2);
    }
  }

  lemma WeekIsSpelled(s: string, n: int)
    requires ValueToNumber(InputWeek, s) == Some(n)
    ensures Spells(InputWeek, s, n)
  {
    hide ReadDigits;
    hide YearText;
    hide TwoDigits;
    hide IsoWeek1Monday;
    hide IsoWeeksInYear;
    var y := ReadDigits(s, 0, 4, 9);
    DigitsMean(s, 0, 4, 9);
    var w := ReadDigits(s, y.next + 2, 2, 2);
    DigitsMean(s, y.next + 2, 2, 2);
    var year, week := s[0..y.next], s[y.next + 2..|s|];
    WeekPieces(s, y.next);
    assert YearText(year, y.value) by { IsYear(year, y.value); }
    assert TwoDigits(week, w.value) by { AreTwoDigits(week, w.value); }
    assert WeekParts(s, n, year, week, y.value, w.value);
  }

  lemma IsYear(t: string, v: nat)
    requires Numeral(t) && Worth(t) == v && 4 <= |t| <= 9 && 1 <= v <= MAX_YEAR
    ensures YearText(t, v)
  {}

  lemma AreTwoDigits(t: string, v: nat)
    requires Numeral(t) && Worth(t) == v && |t| == 2
    ensures TwoDigits(t, v)
  {}

  lemma WeekPieces(s: string, p: nat)
    requires p + 2 <= |s| && s[p] == '-' && s[p + 1] == 'W'
    ensures s == s[0..p] + "-W" + s[p + 2..|s|]
  {
    assert s[p..p + 2] == "-W";
  }

  lemma SpelledWeekIsRead(s: string, n: int)
    requires Spells(InputWeek, s, n)
    ensures ValueToNumber(InputWeek, s) == Some(n)
  {
    hide ReadDigits;
    hide Worth;
    hide Numeral;
    hide IsoWeek1Monday;
    hide IsoWeeksInYear;
    var year, week, y, w :| WeekParts(s, n, year, week, y, w);
    WholeSlice(s);
    assert year + "-W" == (year + "-") + "W";
    Split(s, 0, |s|, year + "-W", week);
    Split(s, 0, |s| - 2, year + "-", "W");
    Split(s, 0, |s| - 3, year, "-");
    CharIs(s, |s| - 4, '-');
    CharIs(s, |s| - 3, 'W');
    NumeralIsRead(s, 0, |s| - 4, 4, 9);
    NumeralIsRead(s, |s| - 2, |s|, 2, 2);
  }

  lemma WeekIff(s: string, n: int)
    ensures ValueToNumber(InputWeek, s) == Some(n) <==> Spells(InputWeek, s, n)
  {
    hide ValueToNumber;
    hide Spells;
    if ValueToNumber(InputWeek, s) == Some(n) { WeekIsSpelled(s, n); }
    if Spells(InputWeek, s, n) { SpelledWeekIsRead(s, n); }
  }

  lemma TimeIff(s: string, p: nat, ms: int)
    requires p <= |s|
    ensures ReadTime(s, p) == Match(ms, |s|) <==> SpellsTime(s[p..], ms)
  {
    hide ReadTime;
    hide TimeParts;
    TimeIsSpelled(s, p);
    forall c: Clock, hour, minute, second, fraction | TimeParts(s[p..], c, hour, minute, second, fraction)
      ensures ReadTime(s, p) == Match(c.Millis(), |s|)
    {
      SpelledTimeIsRead(s, p, c, hour, minute, second, fraction);
    }
  }

  lemma DateTimeIff(s: string, n: int)
    ensures ValueToNumber(InputDateTime, s) == Some(n) <==> Spells(InputDateTime, s, n)
  {
    hide ReadDate;
    hide ReadTime;
    hide SpellsDate;
    hide SpellsTime;
    hide DaysFromCivil;
    if ValueToNumber(InputDateTime, s) == Some(n) {
      var t := ReadDate(s, 0);
      DateIsSpelled(s, 0);
      var ms := ReadTime(s, t.next + 1).value;
      TimeIff(s, t.next + 1, ms);
      WholeSlice(s);
      Together(s, 0, t.next, |s|);
      assert s[t.next + 1..] == s[t.next + 1..|s|];
      assert DateTimeParts(s, n, s[0..t.next], s[t.next], s[t.next + 1..], t.value, ms);
    }
    if Spells(InputDateTime, s, n) {
      var date, between, time, d, ms :| DateTimeParts(s, n, date, between, time, d, ms);
      WholeSlice(s);
      Split(s, 0, |s|, date + [between], time);
      Split(s, 0, |date| + 1, date, [between]);
      CharIs(s, |date|, between);
      SpelledDateIsRead(s, 0, |date|, d);
      assert s[|date| + 1..] == s[|date| + 1..|s|];
      TimeIff(s, |date| + 1, ms);
    }
  }

  /** Each control accepts exactly its grammar, and a string stands for the number its parts say. */
  lemma AcceptsItsGrammar(kind: InputKind, s: string, n: int)
    ensures ValueToNumber(kind, s) == Some(n) <==> Spells(kind, s, n)
  {
    hide ValueToNumber;
    hide Spells;
    match kind {
      case InputDate => DateIff(s, n);
      case InputMonth => MonthIff(s, n);
      case InputWeek => WeekIff(s, n);
      case InputTime => TimeValueIff(s, n);
      case InputDateTime => DateTimeIff(s, n);
    }
  }

  lemma TimeValueIff(s: string, n: int)
    ensures ValueToNumber(InputTime, s) == Some(n) <==> Spells(InputTime, s, n)
  {
    hide ReadTime;
    hide SpellsTime;
    WholeSlice(s);
    TimeIff(s, 0, n);
  }

  // ----- fractions of any length -----

  /** A zero more, or any digit after the third, leaves a fraction as it is. */
  lemma FractionsAgree(t: string, c: char)
    requires t != "" && Numeral(t) && IsDigit(c) && (|t| >= 3 || c == '0')
    ensures forall millis :: FractionText(t + [c], millis) <==> FractionText(t, millis)
  {
    hide Worth;
    hide Pow10;
    WorthSnoc(t, c);
    if |t| >= 3 {
      LongFraction(t);
      LongFraction(t + [c]);
      assert (t + [c])[..3] == t[..3];
    } else {
      ShortFraction(t);
      if |t| == 1 { ShortFraction(t + [c]); } else { LongFraction(t + [c]); assert (t + [c])[..3] == t + [c]; }
    }
  }

  /** Two fractions of the same number of milliseconds. */
  ghost predicate SameFraction(t: string, u: string) {
    && t != "" && u != "" && Numeral(t) && Numeral(u)
    && forall millis :: FractionText(t, millis) <==> FractionText(u, millis)
  }

  /** The point of a time stands in front of its fraction. */
  lemma PointPlace(s: string, c: Clock, hour: string, minute: string, second: string, fraction: string, i: nat)
    requires TimeParts(s, c, hour, minute, second, fraction) && i < |s| && s[i] == '.'
    ensures fraction != "" && i == 8 && s == s[..9] + fraction && second != ""
    ensures s[..9] == hour + ":" + minute + ":" + second + "."
  {
    hide Worth;
    hide FractionText;
    var front := hour + ":" + minute + (if second == "" then "" else ":" + second);
    assert forall k :: 0 <= k < |front| && s[k] != ':' ==> IsDigit(s[k]);
    if fraction != "" {
      assert s == front + "." + fraction;
      assert front == hour + ":" + minute + ":" + second;
      assert Numeral(fraction) by { FractionIsNumeral(fraction, c.millis); }
      assert forall k :: 9 <= k < |s| ==> s[k] == fraction[k - 9];
    }
    assert fraction == "" ==> s == front;
  }

  lemma FractionIsNumeral(t: string, millis: int)
    requires FractionText(t, millis)
    ensures Numeral(t)
  {}

  lemma OtherFraction(front: string, t: string, u: string, ms: int)
    requires front != "" && front[|front| - 1] == '.' && SameFraction(t, u) && SpellsTime(front + t, ms)
    ensures SpellsTime(front + u, ms)
  {
    hide Worth;
    hide Numeral;
    hide FractionText;
    var s := front + t;
    var c: Clock, hour, minute, second, fraction :| TimeParts(s, c, hour, minute, second, fraction) && ms == c.Millis();
    assert s[|front| - 1] == front[|front| - 1];
    PointPlace(s, c, hour, minute, second, fraction, |front| - 1);
    assert front == s[..9] && t == s[9..] == fraction;
    assert front + u == hour + ":" + minute + (":" + second) + ("." + u);
    assert TimeParts(front + u, c, hour, minute, second, u);
  }

  lemma NoPointInDate(t: string, d: Date, k: nat)
    requires SpellsDate(t, d) && k < |t|
    ensures t[k] != '.'
  {
    hide Worth;
    var year, month, day :| DateParts(t, d, year, month, day);
  }

  lemma OtherFractionOfBoth(front: string, t: string, u: string, n: int)
    requires front != "" && front[|front| - 1] == '.' && SameFraction(t, u) && Spells(InputDateTime, front + t, n)
    ensures Spells(InputDateTime, front + u, n)
  {
    hide SpellsTime;
    hide SpellsDate;
    hide SameFraction;
    var s := front + t;
    var date, between, time, d, ms :| DateTimeParts(s, n, date, between, time, d, ms);
    var i := |front| - 1;
    assert s[i] == '.';
    forall k | 0 <= k < |date| ensures s[k] != '.' { NoPointInDate(date, d, k); }
    assert s[|date|] == between;
    var inner := front[|date| + 1..];
    assert time == s[|date| + 1..] == inner + t;
    OtherFraction(inner, t, u, ms);
    assert s[..|date| + 1] == front[..|date| + 1] == date + [between];
    assert front + u == date + [between] + (inner + u);
    assert DateTimeParts(front + u, n, date, between, inner + u, d, ms);
  }

  lemma OtherFractionIsAccepted(kind: InputKind, front: string, t: string, u: string)
    requires kind == InputTime || kind == InputDateTime
    requires front != "" && front[|front| - 1] == '.' && SameFraction(t, u)
    ensures ValueToNumber(kind, front + t).Some? ==> ValueToNumber(kind, front + u) == ValueToNumber(kind, front + t)
  {
    hide ValueToNumber;
    hide SameFraction;
    if ValueToNumber(kind, front + t).Some? {
      var n := ValueToNumber(kind, front + t).value;
      AcceptsItsGrammar(kind, front + t, n);
      if kind == InputTime { OtherFraction(front, t, u, n); } else { OtherFractionOfBoth(front, t, u, n); }
      AcceptsItsGrammar(kind, front + u, n);
    }
  }

  /** A zero written after a fraction, or any digit written after its third, leaves the value. */
  lemma DigitsBeyondMillis(kind: InputKind, front: string, t: string, c: char)
    requires kind == InputTime || kind == InputDateTime
    requires front != "" && front[|front| - 1] == '.'
    requires t != "" && Numeral(t) && IsDigit(c) && (|t| >= 3 || c == '0')
    ensures ValueToNumber(kind, front + (t + [c])) == ValueToNumber(kind, front + t)
  {
    hide ValueToNumber;
    hide FractionText;
    FractionsAgree(t, c);
    OtherFractionIsAccepted(kind, front, t, t + [c]);
    OtherFractionIsAccepted(kind, front, t + [c], t);
  }
}
