/** Reading a calc() tree from text: each function returns what it leaves unread. */
module CalcText {
  import opened CalcTree
  import opened Chars = CssSyntax

  /** How numbers are printed, and how the longest number at the head of a text is read. */
  datatype Format = Format(spell: real -> string, scan: string -> (real, nat))

  datatype Outcome<T> = Fail | Done(value: T, rest: string)

  const DEPTH_CAP := 32

  function SkipWs(s: string): (r: string)
    ensures |r| <= |s|
  {
    if s != "" && IsWs(s[0]) then SkipWs(s[1..]) else s
  }

  /** The length of the identifier at the head of `s`. */
  function IdentLength(s: string): (n: nat)
    ensures n <= |s|
  {
    if s != "" && IsName(s[0]) then 1 + IdentLength(s[1..]) else 0
  }

  function LowerChar(c: char): char {
    if 'A' <= c <= 'Z' then c + ('a' - 'A') else c
  }

  function Lower(s: string): (r: string)
    ensures |r| == |s|
  {
    seq(|s|, i requires 0 <= i < |s| => LowerChar(s[i]))
  }

  function WordAhead(s: string): string { Lower(s[..IdentLength(s)]) }

  const PI := 3.14159265358979323846
  const EULER := 2.7182818284590452354

  const FONT_UNITS := ["em", "rem", "ex", "rex", "ch", "rch", "cap", "rcap", "ic", "ric", "lh", "rlh", "fr"]

  const VIEWPORT_UNITS := [
    "vw", "vh", "vi", "vb", "vmin", "vmax", "svw", "svh", "svi", "svb", "svmin", "svmax",
    "lvw", "lvh", "lvi", "lvb", "lvmin", "lvmax"]

  const DYNAMIC_UNITS := [
    "dvw", "dvh", "dvi", "dvb", "dvmin", "dvmax", "cqw", "cqh", "cqi", "cqb", "cqmin", "cqmax"]

  predicate IsRelativeUnit(unit: string) {
    unit in FONT_UNITS || unit in VIEWPORT_UNITS || unit in DYNAMIC_UNITS
  }

  function AbsoluteUnit(unit: string): (r: Outcome<real>)
    ensures r.Done? ==> r.rest == "px" || r.rest == "deg" || r.rest == "s" || r.rest == "hz" || r.rest == "dppx"
  {
    if unit == "px" then Done(1.0, "px")
    else if unit == "cm" then Done(96.0 / 2.54, "px")
    else if unit == "mm" then Done(96.0 / 25.4, "px")
    else if unit == "q" then Done(96.0 / 101.6, "px")
    else if unit == "in" then Done(96.0, "px")
    else if unit == "pt" then Done(96.0 / 72.0, "px")
    else if unit == "pc" then Done(16.0, "px")
    else if unit == "deg" then Done(1.0, "deg")
    else if unit == "grad" then Done(0.9, "deg")
    else if unit == "rad" then Done(180.0 / PI, "deg")
    else if unit == "turn" then Done(360.0, "deg")
    else if unit == "s" then Done(1.0, "s")
    else if unit == "ms" then Done(0.001, "s")
    else if unit == "hz" then Done(1.0, "hz")
    else if unit == "khz" then Done(1000.0, "hz")
    else if unit == "dppx" then Done(1.0, "dppx")
    else if unit == "x" then Done(1.0, "dppx")
    else if unit == "dpi" then Done(1.0 / 96.0, "dppx")
    else if unit == "dpcm" then Done(2.54 / 96.0, "dppx")
    else Fail
  }

  /** The unit a numeric is kept in, and the factor to get there; fails for unknown units. */
  function CanonicalUnit(unit: string): Outcome<real> {
    if unit == "" || unit == "%" then Done(1.0, unit)
    else if AbsoluteUnit(unit).Done? then AbsoluteUnit(unit)
    else if IsRelativeUnit(unit) then Done(1.0, unit)
    else Fail
  }

  predicate IsMath(name: string) {
    name in ["calc", "min", "max", "clamp", "round", "mod", "rem", "abs", "sign", "hypot", "pow", "sqrt",
             "sin", "cos", "tan", "asin", "acos", "atan", "atan2", "exp", "log"]
  }

  predicate IsKeyword(name: string, first: bool, word: string) {
    || (name == "round" && first && word in ["nearest", "up", "down", "to-zero"])
    || (name == "clamp" && word == "none")
  }

  function Constant(word: string): Outcome<Num> {
    if word == "e" then Done(Fin(EULER), "")
    else if word == "pi" then Done(Fin(PI), "")
    else if word == "infinity" then Done(Inf(false), "")
    else if word == "-infinity" then Done(Inf(true), "")
    else if word == "nan" then Done(NaN, "")
    else Fail
  }

  predicate NumberAhead(s: string) {
    s != "" && (IsDigit(s[0]) || s[0] == '.' || ((s[0] == '+' || s[0] == '-') && |s| > 1 && (IsDigit(s[1]) || s[1] == '.')))
  }

  /** A number with its unit, brought to the canonical unit. */
  function ParseNumeric(s: string, f: Format): (r: Outcome<Node>)
    ensures r.Done? ==> |r.rest| < |s| && r.value.Numeric?
  {
    var (v, used) := f.scan(s);
    if used == 0 || used > |s| then Fail
    else
      var t := s[used..];
      var percent := t != "" && t[0] == '%';
      var n := if percent then 1 else IdentLength(t);
      var unit := CanonicalUnit(if percent then "%" else WordAhead(t));
      if unit.Fail? then Fail else Done(Numeric(Fin(Prod(v, unit.value)), unit.rest), t[n..])
  }

  function ParseValue(text: string, depth: nat, f: Format): (r: Outcome<Node>)
    ensures r.Done? ==> |r.rest| < |text|
    decreases |text|, 0
  {
    var s := SkipWs(text);
    if s == "" || depth > DEPTH_CAP then Fail
    else if s[0] == '(' then
      var inner := ParseSum(s[1..], depth + 1, f);
      if inner.Fail? then Fail
      else
        var t := SkipWs(inner.rest);
        if t != "" && t[0] == ')' then Done(inner.value, t[1..]) else Fail
    else if NumberAhead(s) then ParseNumeric(s, f)
    else
      var word, t := WordAhead(s), s[IdentLength(s)..];
      if word == "" then Fail
      else if t != "" && t[0] == '(' then
        if !IsMath(word) then Fail
        else
          var args := ParseArgs(t[1..], depth + 1, word, true, f);
          if args.Fail? then Fail else Done(Func(word, args.value), args.rest)
      else
        var c := Constant(word);
        if c.Fail? then Fail else Done(Numeric(c.value, ""), t)
  }

  function ParseArgs(text: string, depth: nat, name: string, first: bool, f: Format): (r: Outcome<seq<Node>>)
    ensures r.Done? ==> |r.rest| < |text| && r.value != []
    decreases |text|, 4
  {
    var s := SkipWs(text);
    var arg := if IsKeyword(name, first, WordAhead(s)) then Done(Opaque(WordAhead(s)), s[IdentLength(s)..])
               else ParseSum(s, depth, f);
    if arg.Fail? then Fail
    else
      var t := SkipWs(arg.rest);
      if t == "" then Fail
      else if t[0] == ',' then
        var more := ParseArgs(t[1..], depth, name, false, f);
        if more.Fail? then Fail else Done([arg.value] + more.value, more.rest)
      else if t[0] == ')' then Done([arg.value], t[1..])
      else Fail
  }

  function ParseProduct(text: string, depth: nat, f: Format): (r: Outcome<Node>)
    ensures r.Done? ==> |r.rest| < |text|
    decreases |text|, 2
  {
    var head := ParseValue(text, depth, f);
    if head.Fail? then Fail
    else
      var tail := ParseFactors(head.rest, depth, f);
      if tail.Fail? then Fail
      else Done(if tail.value == [] then head.value else Product([head.value] + tail.value), tail.rest)
  }

  function ParseFactors(text: string, depth: nat, f: Format): (r: Outcome<seq<Node>>)
    ensures r.Done? ==> |r.rest| <= |text|
    decreases |text|, 1
  {
    var s := SkipWs(text);
    if s == "" || (s[0] != '*' && s[0] != '/') then Done([], text)
    else
      var rhs := ParseValue(s[1..], depth, f);
      if rhs.Fail? then Fail
      else
        var tail := ParseFactors(rhs.rest, depth, f);
        if tail.Fail? then Fail
        else Done([if s[0] == '/' then Invert(rhs.value) else rhs.value] + tail.value, tail.rest)
  }

  function ParseSum(text: string, depth: nat, f: Format): (r: Outcome<Node>)
    ensures r.Done? ==> |r.rest| < |text|
    decreases |text|, 3
  {
    var head := ParseProduct(text, depth, f);
    if head.Fail? then Fail
    else
      var tail := ParseTerms(head.rest, depth, f);
      if tail.Fail? then Fail
      else Done(if tail.value == [] then head.value else Sum([head.value] + tail.value), tail.rest)
  }

  /** The operator of a sum has white space on both sides. */
  function ParseTerms(text: string, depth: nat, f: Format): (r: Outcome<seq<Node>>)
    ensures r.Done? ==> |r.rest| <= |text|
    decreases |text|, 3
  {
    var s := SkipWs(text);
    if s == "" || (s[0] != '+' && s[0] != '-') || |s| == |text| || |s| < 2 || !IsWs(s[1]) then Done([], text)
    else
      var rhs := ParseProduct(s[1..], depth, f);
      if rhs.Fail? then Fail
      else
        var tail := ParseTerms(rhs.rest, depth, f);
        if tail.Fail? then Fail
        else Done([if s[0] == '-' then Negate(rhs.value) else rhs.value] + tail.value, tail.rest)
  }
}
