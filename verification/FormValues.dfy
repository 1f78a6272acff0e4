/** Date and time strings of form controls, their numeric values, and the way back. */
module FormValues {
  import opened Options
  import opened Calendar

  const MAX_YEAR := 275760

  // ----- reading -----

  /** The character at an offset; the terminating NUL past the end. */
  function CharAt(s: string, p: nat): char {
    if p < |s| then s[p] else '\0'
  }

  predicate IsDigit(c: char) { '0' <= c <= '9' }

  function DigitOf(c: char): int
    requires IsDigit(c)
  {
    c as int - '0' as int
  }

  predicate AllDigits(s: string, p: nat, n: nat) {
    (n > 0 ==> p + n <= |s|) && forall k :: p <= k < p + n ==> IsDigit(s[k])
  }

  /** How many digits stand at `p`, up to `max`. */
  function DigitRun(s: string, p: nat, max: nat): (n: nat)
    ensures n <= max
    ensures AllDigits(s, p, n)
    decreases max
  {
    if max == 0 || !IsDigit(CharAt(s, p)) then 0 else 1 + DigitRun(s, p + 1, max - 1)
  }

  /** The number written by the `n` digits at `p`. */
  function DigitValue(s: string, p: nat, n: nat): nat
    requires AllDigits(s, p, n)
  {
    if n == 0 then 0 else DigitValue(s, p, n - 1) * 10 + DigitOf(s[p + n - 1])
  }

  datatype Read<+T> = NoMatch | Match(value: T, next: nat)

  function ReadDigits(s: string, p: nat, min: nat, max: nat): Read<nat> {
    var n := DigitRun(s, p, max);
    if n < min then NoMatch else Match(DigitValue(s, p, n), p + n)
  }

  lemma {:induction false} DigitRunStops(s: string, p: nat, n: nat, max: nat)
    requires n <= max
    requires AllDigits(s, p, n)
    requires n == max || !IsDigit(CharAt(s, p + n))
    ensures DigitRun(s, p, max) == n
    decreases max
  {
    if n > 0 {
      DigitRunStops(s, p + 1, n - 1, max - 1);
    }
  }

  /** The moving-pointer loop; `next` is -1 where the source returns NULL. */
  method RdDigits(s: string, p: nat, min: nat, max: nat) returns (next: int, out: nat)
    ensures ReadDigits(s, p, min, max) == if next < 0 then NoMatch else Match(out, next)
  {
    var val, cnt := 0, 0;
    while IsDigit(CharAt(s, p + cnt)) && cnt < max
      invariant cnt <= max
      invariant AllDigits(s, p, cnt)
      invariant val == DigitValue(s, p, cnt)
      decreases max - cnt
    {
      val := val * 10 + DigitOf(s[p + cnt]);
      cnt := cnt + 1;
    }
    DigitRunStops(s, p, cnt, max);
    if cnt < min { return -1, 0; }
    return p + cnt, val;
  }

  function ReadDate(s: string, p: nat): Read<Date> {
    var y := ReadDigits(s, p, 4, 9);
    if y.NoMatch? || CharAt(s, y.next) != '-' then NoMatch
    else
      var m := ReadDigits(s, y.next + 1, 2, 2);
      if m.NoMatch? || CharAt(s, m.next) != '-' then NoMatch
      else
        var d := ReadDigits(s, m.next + 1, 2, 2);
        if d.NoMatch? then NoMatch
        else if y.value < 1 || y.value > MAX_YEAR || !ValidDate(Date(y.value, m.value, d.value)) then NoMatch
        else Match(Date(y.value, m.value, d.value), d.next)
  }

  lemma ValidDateMeans(t: Date)
    ensures ValidDate(t) <==> 1 <= t.month <= 12 && 1 <= t.day <= DaysInMonth(t.year, t.month)
  {}

  method RdDate(s: string, p: nat) returns (next: int, t: Date)
    ensures ReadDate(s, p) == if next < 0 then NoMatch else Match(t, next)
  {
    hide ReadDigits;
    hide ValidDate;
    var y, m, d;
    t := Date(0, 0, 0);
    next, y := RdDigits(s, p, 4, 9);
    if next < 0 || CharAt(s, next) != '-' { return -1, t; }
    next, m := RdDigits(s, next + 1, 2, 2);
    if next < 0 || CharAt(s, next) != '-' { return -1, t; }
    next, d := RdDigits(s, next + 1, 2, 2);
    if next < 0 { return -1, t; }
    t := Date(y, m, d);
    assert ValidDate(t) <==> 1 <= m <= 12 && 1 <= d <= DaysInMonth(y, m) by { ValidDateMeans(t); }
    if y < 1 || y > MAX_YEAR || m < 1 || m > 12 || d < 1 || d > DaysInMonth(y, m) { return -1, t; }
  }

  /** A fraction of a second: the first three digits count, further ones are skipped. */
  function ReadFraction(s: string, p: nat): Read<nat> {
    var n := DigitRun(s, p, 3);
    if n == 0 then NoMatch
    else
      var v := DigitValue(s, p, n);
      Match(if n == 1 then v * 100 else if n == 2 then v * 10 else v, SkipDigits(s, p + n))
  }

  function SkipDigits(s: string, p: nat): nat
    decreases |s| - p
  {
    if p < |s| && IsDigit(s[p]) then SkipDigits(s, p + 1) else p
  }

  datatype Clock = Clock(hour: int, minute: int, second: int, millis: int) {
    predicate Valid() {
      0 <= hour <= 23 && 0 <= minute <= 59 && 0 <= second <= 59 && 0 <= millis <= 999
    }

    function Millis(): int {
      ((hour * 60 + minute) * 60 + second) * 1000 + millis
    }
  }

  function ReadSeconds(s: string, p: nat): Read<(nat, nat)> {
    var se := ReadDigits(s, p, 2, 2);
    if se.NoMatch? then NoMatch
    else if CharAt(s, se.next) != '.' then Match((se.value, 0), se.next)
    else
      var frac := ReadFraction(s, se.next + 1);
      if frac.NoMatch? then NoMatch else Match((se.value, frac.value), frac.next)
  }

  function ReadTime(s: string, p: nat): Read<int> {
    var h := ReadDigits(s, p, 2, 2);
    if h.NoMatch? || CharAt(s, h.next) != ':' then NoMatch
    else
      var mi := ReadDigits(s, h.next + 1, 2, 2);
      if mi.NoMatch? then NoMatch
      else
        var se := if CharAt(s, mi.next) == ':' then ReadSeconds(s, mi.next + 1) else Match((0, 0), mi.next);
        if se.NoMatch? || h.value > 23 || mi.value > 59 || se.value.0 > 59 then NoMatch
        else Match(Clock(h.value, mi.value, se.value.0, se.value.1).Millis(), se.next)
  }

  method RdTime(s: string, start: nat) returns (next: int, ms: int)
    ensures ReadTime(s, start) == if next < 0 then NoMatch else Match(ms, next)
  {
    hide ReadDigits;
    hide ReadFraction;
    var h, mi, se, frac := 0, 0, 0, 0;
    ms := 0;
    next, h := RdDigits(s, start, 2, 2);
    if next < 0 || CharAt(s, next) != ':' { return -1, 0; }
    next, mi := RdDigits(s, next + 1, 2, 2);
    if next < 0 { return -1, 0; }
    if CharAt(s, next) == ':' {
      next, se := RdDigits(s, next + 1, 2, 2);
      if next < 0 { return -1, 0; }
      if CharAt(s, next) == '.' {
        next, frac := RdFraction(s, next + 1);
        if next < 0 { return -1, 0; }
      }
    }
    if h > 23 || mi > 59 || se > 59 { return -1, 0; }
    ms := ((h * 60 + mi) * 60 + se) * 1000 + frac;
  }

  method RdFraction(s: string, start: nat) returns (next: int, frac: nat)
    ensures ReadFraction(s, start) == if next < 0 then NoMatch else Match(frac, next)
  {
    var p, v, c := start, 0, 0;
    while IsDigit(CharAt(s, p)) && c < 3
      invariant c <= 3 && p == start + c
      invariant AllDigits(s, start, c)
      invariant v == DigitValue(s, start, c)
      decreases 3 - c
    {
      v := v * 10 + DigitOf(s[p]);
      p := p + 1;
      c := c + 1;
    }
    DigitRunStops(s, start, c, 3);
    if c == 0 { return -1, 0; }
    ghost var n, value := c, v;
    while c < 3
      invariant n <= c <= 3
      invariant v == if c == n then value else if c == n + 1 then value * 10 else value * 100
    {
      v := v * 10;
      c := c + 1;
    }
    while IsDigit(CharAt(s, p))
      invariant p <= |s|
      invariant SkipDigits(s, p) == SkipDigits(s, start + n)
      decreases |s| - p
    {
      p := p + 1;
    }
    return p, v;
  }

  // ----- values -----

  datatype InputKind = InputDate | InputMonth | InputWeek | InputTime | InputDateTime

  const DAY_MS := 86400000

  /** The number a control's value stands for: milliseconds, or months since January 1970. */
  function ValueToNumber(kind: InputKind, s: string): Option<int> {
    match kind
    case InputDate =>
      var t := ReadDate(s, 0);
      if t.NoMatch? || t.next != |s| then None
      else Some(DaysFromCivil(t.value.year, t.value.month, t.value.day) * DAY_MS)
    case InputMonth =>
      var y := ReadDigits(s, 0, 4, 9);
      if y.NoMatch? || CharAt(s, y.next) != '-' then None
      else
        var m := ReadDigits(s, y.next + 1, 2, 2);
        if m.NoMatch? || m.next != |s| || y.value < 1 || y.value > MAX_YEAR || m.value < 1 || m.value > 12 then None
        else Some((y.value - 1970) * 12 + (m.value - 1))
    case InputWeek =>
      var y := ReadDigits(s, 0, 4, 9);
      if y.NoMatch? || CharAt(s, y.next) != '-' || CharAt(s, y.next + 1) != 'W' then None
      else
        var w := ReadDigits(s, y.next + 2, 2, 2);
        if w.NoMatch? || w.next != |s| || y.value < 1 || y.value > MAX_YEAR || w.value < 1
           || w.value > IsoWeeksInYear(y.value) then None
        else Some((IsoWeek1Monday(y.value) + (w.value - 1) * 7) * DAY_MS)
    case InputTime =>
      var t := ReadTime(s, 0);
      if t.NoMatch? || t.next != |s| then None else Some(t.value)
    case InputDateTime =>
      var t := ReadDate(s, 0);
      if t.NoMatch? || (CharAt(s, t.next) != 'T' && CharAt(s, t.next) != ' ') then None
      else
        var ms := ReadTime(s, t.next + 1);
        if ms.NoMatch? || ms.next != |s| then None
        else Some(DaysFromCivil(t.value.year, t.value.month, t.value.day) * DAY_MS + ms.value)
  }

  // ----- writing -----

  function Digits(n: nat): string {
    if n < 10 then [('0' as int + n) as char] else Digits(n / 10) + [('0' as int + n % 10) as char]
  }

  function Zeros(n: nat): string {
    if n == 0 then "" else "0" + Zeros(n - 1)
  }

  /** Decimal digits, zero-padded to `width`. */
  function Pad(n: nat, width: nat): string {
    var d := Digits(n);
    if |d| >= width then d else Zeros(width - |d|) + d
  }

  function WriteDate(t: Date): string
    requires t.year >= 0 && t.month >= 0 && t.day >= 0
  {
    Pad(t.year, 4) + "-" + Pad(t.month, 2) + "-" + Pad(t.day, 2)
  }

  /** HH:MM, with seconds and milliseconds only where they are not zero. */
  function WriteTime(ms: nat): string {
    var h, mi, s, frac := ms / 3600000, ms / 60000 % 60, ms / 1000 % 60, ms % 1000;
    Pad(h, 2) + ":" + Pad(mi, 2)
    + (if s != 0 || frac != 0 then ":" + Pad(s, 2) else "")
    + (if frac != 0 then "." + Pad(frac, 3) else "")
  }

  /** The week starting on a Monday, named after the year of its Thursday. */
  function WriteWeek(monday: int): Option<string> {
    var y := CivilFromDays(monday + 3).year;
    var w := TruncDiv(monday - IsoWeek1Monday(y), 7) + 1;
    if 1 <= y <= MAX_YEAR && 1 <= w <= IsoWeeksInYear(y) then Some(Pad(y, 4) + "-W" + Pad(w, 2)) else None
  }

  function Nearest(v: real): int { (v + 0.5).Floor }

  function NearestDay(v: real): int { (v / 86400000.0 + 0.5).Floor }

  /** Mondays are day numbers of the form 7k - 3. */
  function NearestMonday(v: real): int { (v / 604800000.0 + 0.5).Floor * 7 - 3 }

  /** The value string for a number, where there is one. */
  function NumberToValue(kind: InputKind, v: real): Option<string> {
    match kind
    case InputDate =>
      var t := CivilFromDays(NearestDay(v));
      DaysOfCivilOfDays(NearestDay(v));
      if 1 <= t.year <= MAX_YEAR then Some(WriteDate(t)) else None
    case InputMonth =>
      var months := Nearest(v);
      var y := 1970 + (if months >= 0 then TruncDiv(months, 12) else -TruncDiv(-months + 11, 12));
      var m := FloorMod(months, 12) + 1;
      if 1 <= y <= MAX_YEAR then Some(Pad(y, 4) + "-" + Pad(m, 2)) else None
    case InputWeek =>
      WriteWeek(NearestMonday(v))
    case InputTime => Some(WriteTime(FloorMod(Nearest(v), DAY_MS)))
    case InputDateTime =>
      var total := Nearest(v);
      var days := (total as real / 86400000.0).Floor;
      var t := CivilFromDays(days);
      DaysOfCivilOfDays(days);
      assert total - days * DAY_MS >= 0;
      if 1 <= t.year <= MAX_YEAR then Some(WriteDate(t) + "T" + WriteTime(total - days * DAY_MS)) else None
  }
}
