/** The longest tokens. */
module CssTokens {
  import opened CssSyntax

  // ----- numbers -----

  predicate AreDigits(t: string) {
    t != "" && forall k :: 0 <= k < |t| ==> IsDigit(t[k])
  }

  predicate IsSign(t: string) { t == "" || t == "+" || t == "-" }

  predicate IsFraction(t: string) {
    |t| >= 2 && t[0] == '.' && AreDigits(t[1..])
  }

  predicate IsExponent(t: string) {
    && |t| >= 2 && (t[0] == 'e' || t[0] == 'E')
    && AreDigits(if t[1] == '+' || t[1] == '-' then t[2..] else t[1..])
  }

  /** A sign or none, digits, a fraction or none, an exponent or none; digits or a fraction at least. */
  predicate NumberParts(t: string, sign: string, whole: string, fraction: string, exponent: string) {
    && t == sign + whole + fraction + exponent && IsSign(sign)
    && (whole == "" || AreDigits(whole)) && (fraction == "" || IsFraction(fraction))
    && (exponent == "" || IsExponent(exponent)) && (whole != "" || fraction != "")
  }

  ghost predicate IsNumber(t: string) {
    exists sign, whole, fraction, exponent :: NumberParts(t, sign, whole, fraction, exponent)
  }

  lemma {:induction false} DigitsEndMeans(s: string, p: nat)
    requires p <= |s|
    ensures var e := DigitsEnd(s, p);
            (forall k :: p <= k < e ==> IsDigit(s[k])) && (e == |s| || !IsDigit(s[e]))
    decreases |s| - p
  {
    if p < |s| && IsDigit(s[p]) { DigitsEndMeans(s, p + 1); }
  }

  /** Digits reach no further than the run of digits does. */
  lemma DigitsReach(s: string, p: nat, t: string)
    requires p + |t| <= |s| && s[p..p + |t|] == t && (t == "" || AreDigits(t))
    ensures p + |t| <= DigitsEnd(s, p)
  {
    DigitsEndMeans(s, p);
    var e := DigitsEnd(s, p);
    assert forall k :: p <= k < p + |t| ==> s[k] == t[k - p];
  }

  lemma SliceOf(s: string, p: nat, q: nat, a: string, b: string)
    requires p <= q <= |s| && s[p..q] == a + b
    ensures p + |a| + |b| == q && s[p..p + |a|] == a && s[p + |a|..q] == b
  {
    assert s[p..q][..|a|] == a && s[p..q][|a|..] == b;
  }

  /** Where each part of a number ends. */
  function SignEnd(s: string, p: nat): (e: nat)
    requires p <= |s|
    ensures p <= e <= |s| && e <= p + 1
  {
    if p < |s| && (s[p] == '+' || s[p] == '-') then p + 1 else p
  }

  lemma NumberIsNumber(s: string, p: nat)
    requires StartsNumber(s, p)
    ensures IsNumber(s[p..NumberEnd(s, p)])
  {
    hide IsFraction;
    hide IsExponent;
    hide FractionEnd;
    hide ExponentEnd;
    var a := SignEnd(s, p);
    var b := DigitsEnd(s, a);
    var c := FractionEnd(s, b);
    var e := ExponentEnd(s, c);
    NumberByParts(s, p);
    DigitsAreDigits(s, a);
    FractionFound(s, b);
    ExponentFound(s, c);
    var sign, whole, fraction, exponent := s[p..a], s[a..b], s[b..c], s[c..e];
    FourSlices(s, p, a, b, c, e);
    SomeDigits(s, p);
    assert NumberParts(s[p..e], sign, whole, fraction, exponent);
  }

  lemma FourSlices(s: string, p: nat, a: nat, b: nat, c: nat, e: nat)
    requires p <= a <= b <= c <= e <= |s|
    ensures s[p..e] == s[p..a] + s[a..b] + s[b..c] + s[c..e]
  {
    assert s[p..b] == s[p..a] + s[a..b];
    assert s[p..c] == s[p..b] + s[b..c];
    assert s[p..e] == s[p..c] + s[c..e];
  }

  lemma DigitsAreDigits(s: string, a: nat)
    requires a <= |s|
    ensures var t := s[a..DigitsEnd(s, a)]; t == "" || AreDigits(t)
  {
    DigitsEndMeans(s, a);
  }

  lemma SomeDigits(s: string, p: nat)
    requires StartsNumber(s, p)
    ensures IsSign(s[p..SignEnd(s, p)])
    ensures var a := SignEnd(s, p); var b := DigitsEnd(s, a); a < b || b < FractionEnd(s, b)
  {}

  function FractionEnd(s: string, b: nat): (e: nat)
    requires b <= |s|
    ensures b <= e <= |s|
  {
    if b + 1 < |s| && s[b] == '.' && IsDigit(s[b + 1]) then DigitsEnd(s, b + 1) else b
  }

  function ExponentEnd(s: string, c: nat): (e: nat)
    requires c <= |s|
    ensures c <= e <= |s|
  {
    if c < |s| && (s[c] == 'e' || s[c] == 'E') then
      var x := if c + 1 < |s| && (s[c + 1] == '+' || s[c + 1] == '-') then c + 2 else c + 1;
      if x < |s| && IsDigit(s[x]) then DigitsEnd(s, x + 1) else c
    else c
  }

  lemma NumberByParts(s: string, p: nat)
    requires p <= |s|
    ensures NumberEnd(s, p) == ExponentEnd(s, FractionEnd(s, DigitsEnd(s, SignEnd(s, p))))
  {}

  lemma FractionFound(s: string, b: nat)
    requires b <= |s|
    ensures var t := s[b..FractionEnd(s, b)]; t == "" || IsFraction(t)
  {
    if b < |s| { DigitsEndMeans(s, b + 1); }
  }

  lemma ExponentFound(s: string, c: nat)
    requires c <= |s|
    ensures var t := s[c..ExponentEnd(s, c)]; t == "" || IsExponent(t)
  {
    hide DigitsEnd;
    var e := ExponentEnd(s, c);
    if e > c {
      var x := if s[c + 1] == '+' || s[c + 1] == '-' then c + 2 else c + 1;
      DigitsEndMeans(s, x + 1);
      SpelledExponent(s, c, x, e);
    }
  }

  lemma SpelledExponent(s: string, c: nat, x: nat, e: nat)
    requires c + 1 < e <= |s| && (s[c] == 'e' || s[c] == 'E')
    requires x == (if s[c + 1] == '+' || s[c + 1] == '-' then c + 2 else c + 1) && x < e
    requires forall k :: x <= k < e ==> IsDigit(s[k])
    ensures IsExponent(s[c..e])
  {
    var t := s[c..e];
    SliceAt(s, c, e, t, 0);
    SliceAt(s, c, e, t, 1);
    assert t[x - c..] == s[x..e];
    assert forall k :: 0 <= k < e - x ==> IsDigit(s[x..e][k]);
  }

  lemma SliceAt(s: string, p: nat, q: nat, t: string, k: nat)
    requires p <= q <= |s| && s[p..q] == t && k < |t|
    ensures p + k < q && s[p + k] == t[k]
  {
    assert s[p..q][k] == s[p + k];
  }

  lemma PartsPlaced(s: string, p: nat, q: nat, sign: string, whole: string, fraction: string, exponent: string)
    requires p <= q <= |s| && s[p..q] == sign + whole + fraction + exponent
    ensures var i := q - |exponent|; var j := i - |fraction|; var a := p + |sign|;
            && p <= a <= j <= i && a == j - |whole|
            && s[p..a] == sign && s[a..j] == whole && s[j..i] == fraction && s[i..q] == exponent
  {
    SliceOf(s, p, q, sign + whole + fraction, exponent);
    SliceOf(s, p, q - |exponent|, sign + whole, fraction);
    SliceOf(s, p, q - |exponent| - |fraction|, sign, whole);
  }

  /** No longer piece of the text is a number. */
  lemma NumberIsLongest(s: string, p: nat, q: nat)
    requires p <= q <= |s| && IsNumber(s[p..q])
    ensures q <= NumberEnd(s, p)
  {
    hide IsFraction;
    hide IsExponent;
    hide DigitsEnd;
    hide FractionEnd;
    hide ExponentEnd;
    hide NumberEnd;
    hide SignEnd;
    var sign, whole, fraction, exponent :| NumberParts(s[p..q], sign, whole, fraction, exponent);
    var a, i := p + |sign|, q - |exponent|;
    PartsPlaced(s, p, q, sign, whole, fraction, exponent);
    SignReach(s, p, sign, whole, fraction, exponent, q);
    DigitsReach(s, a, whole);
    FractionReach(s, a, i - |fraction|, fraction, i, exponent, q);
    ExponentReach(s, i, exponent, q);
    NumberByParts(s, p);
    if exponent == "" { ExponentFurther(s, FractionEnd(s, DigitsEnd(s, a))); }
  }

  lemma ExponentFurther(s: string, c: nat)
    requires c <= |s|
    ensures c <= ExponentEnd(s, c)
  {}

  lemma SignReach(s: string, p: nat, sign: string, whole: string, fraction: string, exponent: string, q: nat)
    requires p <= q <= |s| && NumberParts(s[p..q], sign, whole, fraction, exponent)
    ensures SignEnd(s, p) == p + |sign|
  {
    var t := whole + fraction + exponent;
    assert s[p..q] == sign + t by { FourAsTwo(sign, whole, fraction, exponent); }
    SliceOf(s, p, q, sign, t);
    if sign == "" { SliceAt(s, p, q, t, 0); } else { SliceAt(s, p, p + 1, sign, 0); }
  }

  lemma FourAsTwo(a: string, b: string, c: string, d: string)
    ensures a + b + c + d == a + (b + c + d)
  {
    assert a + b + c == a + (b + c);
    assert a + (b + c) + d == a + (b + c + d);
  }

  lemma FractionReach(s: string, a: nat, j: nat, fraction: string, i: nat, exponent: string, q: nat)
    requires a <= j <= i <= q <= |s| && j <= DigitsEnd(s, a)
    requires s[j..i] == fraction && (fraction == "" || IsFraction(fraction))
    requires s[i..q] == exponent && (exponent == "" || IsExponent(exponent))
    ensures i <= FractionEnd(s, DigitsEnd(s, a)) && (exponent != "" ==> i == FractionEnd(s, DigitsEnd(s, a)))
  {
    DigitsEndMeans(s, a);
    if exponent != "" { assert s[i] == exponent[0] && !IsDigit(s[i]); }
    if fraction != "" {
      assert s[j] == fraction[0] == '.' && s[j + 1] == fraction[1];
      assert s[j + 1..i] == fraction[1..];
      DigitsEndMeans(s, j + 1);
      DigitsReach(s, j + 1, fraction[1..]);
    }
  }

  lemma ExponentReach(s: string, i: nat, exponent: string, q: nat)
    requires i <= q <= |s| && s[i..q] == exponent && (exponent == "" || IsExponent(exponent))
    ensures q <= ExponentEnd(s, i)
  {
    hide DigitsEnd;
    if exponent != "" {
      SliceAt(s, i, q, exponent, 0);
      SliceAt(s, i, q, exponent, 1);
      var x := if s[i + 1] == '+' || s[i + 1] == '-' then i + 2 else i + 1;
      var digits := exponent[x - i..];
      assert s[x..q] == digits;
      SliceAt(s, x, q, digits, 0);
      assert s[x + 1..q] == digits[1..];
      DigitsReach(s, x + 1, digits[1..]);
    }
  }

  /** A number starts exactly where some piece of the text is one. */
  lemma StartsNumberMeans(s: string, p: nat)
    requires p <= |s|
    ensures StartsNumber(s, p) <==> exists q :: p <= q <= |s| && IsNumber(s[p..q])
  {
    if StartsNumber(s, p) { NumberIsNumber(s, p); }
    if q :| p <= q <= |s| && IsNumber(s[p..q]) { NumberStarts(s, p, q); }
  }

  lemma DigitsFirst(s: string, a: nat, j: nat, i: nat, whole: string, fraction: string)
    requires a <= j <= i <= |s| && s[a..j] == whole && s[j..i] == fraction && (whole != "" || fraction != "")
    requires (whole == "" || AreDigits(whole)) && (fraction == "" || IsFraction(fraction))
    ensures a < |s| && (IsDigit(s[a]) || (s[a] == '.' && a + 1 < |s| && IsDigit(s[a + 1])))
  {
    if whole != "" {
      SliceAt(s, a, j, whole, 0);
    } else {
      SliceAt(s, a, i, fraction, 0);
      SliceAt(s, a, i, fraction, 1);
      assert IsDigit(fraction[1..][0]);
    }
  }

  lemma NumberStarts(s: string, p: nat, q: nat)
    requires p <= q <= |s| && IsNumber(s[p..q])
    ensures StartsNumber(s, p)
  {
    hide IsExponent;
    hide IsFraction;
    hide AreDigits;
    var sign, whole, fraction, exponent :| NumberParts(s[p..q], sign, whole, fraction, exponent);
    PartsPlaced(s, p, q, sign, whole, fraction, exponent);
    var a, i := p + |sign|, q - |exponent|;
    DigitsFirst(s, a, i - |fraction|, i, whole, fraction);
    if sign != "" { SliceAt(s, p, a, sign, 0); }
  }

  // ----- escapes -----

  /** Behind the backslash at `i`, `h` hexadecimal digits and no more, unless there are six. */
  predicate HexRun(s: string, i: nat, h: nat) {
    && i + 1 + h <= |s| && 1 <= h <= 6 && (forall k :: i < k < i + 1 + h ==> IsHex(s[k]))
    && (h == 6 || i + 1 + h == |s| || !IsHex(s[i + 1 + h]))
  }

  /** One white space at `j` belongs to the escape. */
  function PastWs(s: string, j: nat): nat {
    if j < |s| && IsWs(s[j]) then j + 1 else j
  }

  /** The escape at `i` ends at `j`: a backslash and up to six hexadecimal digits with one white
      space behind them, or one other character that ends no line, or the end of the text. */
  ghost predicate IsEscape(s: string, i: nat, j: nat) {
    && i < j <= |s| && s[i] == '\\'
    && if i + 1 == |s| then j == |s|
       else if IsHex(s[i + 1]) then
         exists h :: HexRun(s, i, h) && j == PastWs(s, i + 1 + h)
       else !IsNewline(s[i + 1]) && j == i + 2
  }

  lemma {:induction false} HexEndMeans(s: string, p: nat, digits: nat)
    requires p <= |s|
    ensures var e := HexEnd(s, p, digits);
            && e - p <= digits && (forall k :: p <= k < e ==> IsHex(s[k]))
            && (e - p == digits || e == |s| || !IsHex(s[e]))
    decreases digits
  {
    if digits > 0 && p < |s| && IsHex(s[p]) { HexEndMeans(s, p + 1, digits - 1); }
  }

  lemma HexRunIsUnique(s: string, i: nat, h: nat, g: nat)
    requires HexRun(s, i, h) && HexRun(s, i, g)
    ensures h == g
  {}

  /** An escape ends where the text says. */
  lemma EscapeEndMeans(s: string, i: nat)
    requires i <= |s|
    ensures EscapeEnd(s, i) != i ==> IsEscape(s, i, EscapeEnd(s, i))
    ensures forall j :: IsEscape(s, i, j) ==> j == EscapeEnd(s, i)
  {
    if i + 1 < |s| && s[i] == '\\' && IsHex(s[i + 1]) {
      HexEndMeans(s, i + 1, 6);
      var h := HexEnd(s, i + 1, 6) - (i + 1);
      assert HexRun(s, i, h);
      forall j | IsEscape(s, i, j) ensures j == EscapeEnd(s, i) {
        var g :| HexRun(s, i, g) && j == PastWs(s, i + 1 + g);
        HexRunIsUnique(s, i, h, g);
      }
    }
  }

  // ----- names -----

  /** Name characters and escapes from `i` to `j`. */
  ghost predicate IsNameSpan(s: string, i: nat, j: nat)
    decreases j - i
  {
    || i == j
    || (i < j <= |s| && IsName(s[i]) && IsNameSpan(s, i + 1, j))
    || exists k :: i < k <= j && IsEscape(s, i, k) && IsNameSpan(s, k, j)
  }

  /** A name takes all it can. */
  lemma {:induction false} NameEndMeans(s: string, p: nat)
    requires p <= |s|
    ensures IsNameSpan(s, p, NameEnd(s, p))
    ensures var e := NameEnd(s, p); e == |s| || (!IsName(s[e]) && forall j :: !IsEscape(s, e, j))
    decreases |s| - p
  {
    EscapeEndMeans(s, p);
    if p < |s| {
      if IsName(s[p]) {
        NameEndMeans(s, p + 1);
      } else if s[p] == '\\' && EscapeEnd(s, p) != p {
        NameEndMeans(s, EscapeEnd(s, p));
      }
    }
  }

  /** No name from `p` reaches further. */
  lemma {:induction false} NameIsLongest(s: string, p: nat, q: nat)
    requires p <= q <= |s| && IsNameSpan(s, p, q)
    ensures q <= NameEnd(s, p)
    decreases q - p
  {
    hide IsEscape;
    hide EscapeEnd;
    if p < q {
      if IsName(s[p]) {
        NameCharIsNoEscape(s, p);
        NameIsLongest(s, p + 1, q);
      } else {
        var k :| p < k <= q && IsEscape(s, p, k) && IsNameSpan(s, k, q);
        EscapeEndMeans(s, p);
        EscapeIsBackslash(s, p, k);
        NameIsLongest(s, k, q);
      }
    }
  }

  lemma NameCharIsNoEscape(s: string, p: nat)
    requires p < |s| && IsName(s[p])
    ensures forall k :: !IsEscape(s, p, k)
  {}

  lemma EscapeIsBackslash(s: string, p: nat, k: nat)
    requires IsEscape(s, p, k)
    ensures p < |s| && s[p] == '\\'
  {}

  /** An identifier: two hyphens, or a name start or a written escape after one hyphen or none;
      then a name. */
  ghost predicate IsIdentSpan(s: string, p: nat, q: nat) {
    p < q <= |s| && exists from :: p < from <= q && IdentHead(s, p, from) && IsNameSpan(s, from, q)
  }

  ghost predicate IdentHead(s: string, p: nat, from: nat) {
    && p < from <= |s|
    && var a := if s[p] == '-' then p + 1 else p;
       || (s[p] == '-' && from == p + 2 && s[p + 1] == '-')
       || (a < |s| && from == a + 1 && IsNameStart(s[a]))
       || (a + 1 < |s| && IsEscape(s, a, from))
  }

  lemma IdentIsFound(s: string, p: nat)
    requires p <= |s| && StartsIdent(s, p)
    ensures IsIdentSpan(s, p, NameEnd(s, p))
  {
    hide StartsIdent;
    hide NameEnd;
    hide IsEscape;
    var from := HeadFound(s, p);
    HeadIsName(s, p, from);
    NameEndMeans(s, from);
  }

  lemma IdentStarts(s: string, p: nat, q: nat)
    requires IsIdentSpan(s, p, q)
    ensures StartsIdent(s, p)
  {
    hide StartsIdent;
    hide IdentHead;
    var from :| p < from <= q && IdentHead(s, p, from) && IsNameSpan(s, from, q);
    HeadStarts(s, p, from);
  }

  lemma StartsIdentMeans(s: string, p: nat)
    requires p <= |s|
    ensures StartsIdent(s, p) <==> exists q :: IsIdentSpan(s, p, q)
  {
    hide StartsIdent;
    hide IsIdentSpan;
    if StartsIdent(s, p) { IdentIsFound(s, p); }
    forall q | IsIdentSpan(s, p, q) ensures StartsIdent(s, p) { IdentStarts(s, p, q); }
  }

  lemma HeadFound(s: string, p: nat) returns (from: nat)
    requires p <= |s| && StartsIdent(s, p)
    ensures IdentHead(s, p, from)
  {
    hide IsEscape;
    hide EscapeEnd;
    var a := if s[p] == '-' then p + 1 else p;
    if a < |s| { ValidEscapeMeans(s, a); }
    from := if a < |s| && s[a] == '\\' && ValidEscape(s, a) then EscapeEnd(s, a) else a + 1;
  }

  lemma HeadStarts(s: string, p: nat, from: nat)
    requires IdentHead(s, p, from)
    ensures StartsIdent(s, p)
  {
    hide IsEscape;
    hide EscapeEnd;
    var a := if s[p] == '-' then p + 1 else p;
    if a < |s| { ValidEscapeMeans(s, a); }
    if a + 1 < |s| && IsEscape(s, a, from) { EscapeIsBackslash(s, a, from); }
  }

  lemma ValidEscapeMeans(s: string, p: nat)
    requires p < |s|
    ensures ValidEscape(s, p) <==> p + 1 < |s| && s[p] == '\\' && EscapeEnd(s, p) != p
    ensures ValidEscape(s, p) <==> p + 1 < |s| && exists j :: IsEscape(s, p, j)
    ensures ValidEscape(s, p) ==> IsEscape(s, p, EscapeEnd(s, p))
  {
    EscapeEndMeans(s, p);
    if p + 1 < |s| && s[p] == '\\' && IsHex(s[p + 1]) { HexEndMeans(s, p + 1, 6); }
  }

  lemma HeadIsName(s: string, p: nat, from: nat)
    requires p < |s| && IdentHead(s, p, from)
    ensures NameEnd(s, p) == NameEnd(s, from)
  {
    hide IsEscape;
    hide EscapeEnd;
    var a := if s[p] == '-' then p + 1 else p;
    if a < |s| { EscapeEndMeans(s, a); }
    if a < |s| && IsEscape(s, a, from) { EscapeIsBackslash(s, a, from); }
  }

  // ----- strings -----

  /** A character of a string that stands for itself; a backslash does only at the end of the text. */
  predicate PlainInString(s: string, i: nat, quote: char)
    requires i < |s|
  {
    s[i] != quote && !IsNewline(s[i]) && (s[i] != '\\' || i + 1 == |s|)
  }

  /** The inside of a string from `i` to `j`. */
  ghost predicate IsStringSpan(s: string, i: nat, j: nat, quote: char)
    decreases j - i
  {
    || i == j
    || (i < j <= |s| && PlainInString(s, i, quote) && IsStringSpan(s, i + 1, j, quote))
    || (i + 1 < |s| && s[i] != quote && exists k :: i < k <= j && IsEscape(s, i, k) && IsStringSpan(s, k, j, quote))
  }

  /** What stops a string before its quote: the end of a line, or a backslash in front of one. */
  predicate StringBreaks(s: string, e: nat)
    requires e < |s|
  {
    IsNewline(s[e]) || (s[e] == '\\' && e + 1 < |s| && IsNewline(s[e + 1]))
  }

  /** Where the scan of a string stops. */
  predicate StringStops(s: string, e: nat, quote: char) {
    e == |s| || (e < |s| && (s[e] == quote || StringBreaks(s, e)))
  }

  lemma EscapeOrBreak(s: string, p: nat)
    requires p + 1 < |s| && s[p] == '\\'
    ensures EscapeEnd(s, p) == p <==> IsNewline(s[p + 1])
    ensures EscapeEnd(s, p) != p ==> EscapeEnd(s, p) > p + 1 && IsEscape(s, p, EscapeEnd(s, p))
  {
    EscapeEndMeans(s, p);
    if IsHex(s[p + 1]) { HexEndMeans(s, p + 1, 6); }
  }

  /** The scan runs over the inside of a string, and its verdict is what stopped it. */
  lemma {:induction false} ScanFindsString(s: string, p: nat, quote: char)
    requires p <= |s| && quote != '\\'
    ensures var r := ScanString(s, p, quote);
            && IsStringSpan(s, p, r.valueEnd, quote) && StringStops(s, r.valueEnd, quote)
            && r.next == (if r.valueEnd == |s| then |s| else r.valueEnd + 1)
            && (r.ok <==> r.valueEnd == |s| || s[r.valueEnd] == quote)
    decreases |s| - p
  {
    hide IsEscape;
    hide EscapeEnd;
    if p < |s| && s[p] != quote && !IsNewline(s[p]) {
      if s[p] == '\\' && p + 1 < |s| {
        EscapeOrBreak(s, p);
        if EscapeEnd(s, p) != p { ScanFindsString(s, EscapeEnd(s, p), quote); }
      } else {
        ScanFindsString(s, p + 1, quote);
      }
    }
  }

  /** Only one place can stop it. */
  lemma {:induction false} StringIsUnique(s: string, p: nat, e: nat, quote: char)
    requires p <= e <= |s| && quote != '\\' && !IsNewline(quote)
    requires IsStringSpan(s, p, e, quote) && StringStops(s, e, quote)
    ensures ScanString(s, p, quote).valueEnd == e
    decreases e - p
  {
    hide IsEscape;
    hide EscapeEnd;
    if p < |s| && s[p] == '\\' && p + 1 < |s| { EscapeOrBreak(s, p); }
    if p < e {
      if PlainInString(s, p, quote) && IsStringSpan(s, p + 1, e, quote) {
        StringIsUnique(s, p + 1, e, quote);
      } else {
        var k :| p < k <= e && IsEscape(s, p, k) && IsStringSpan(s, k, e, quote);
        EscapeIsBackslash(s, p, k);
        EscapeEndMeans(s, p);
        StringIsUnique(s, k, e, quote);
      }
    }
  }

  // ----- the kind of a token -----

  /** The text from `p` to `n` is the longest number there. */
  ghost predicate LongestNumber(s: string, p: nat, n: nat) {
    && p < n <= |s| && IsNumber(s[p..n])
    && forall q :: n < q <= |s| ==> !IsNumber(s[p..q])
  }

  /** The longest name from `p`. */
  ghost predicate LongestName(s: string, p: nat, n: nat) {
    && p <= n <= |s| && IsNameSpan(s, p, n)
    && forall q :: n < q <= |s| ==> !IsNameSpan(s, p, q)
  }

  ghost predicate NumberAt(s: string, p: nat) { exists n: nat :: LongestNumber(s, p, n) }

  ghost predicate IdentAt(s: string, p: nat) { exists q: nat :: IsIdentSpan(s, p, q) }

  ghost predicate EscapeAt(s: string, p: nat) { exists j: nat :: IsEscape(s, p, j) }

  ghost predicate HashAt(s: string, p: nat) {
    p + 1 < |s| && s[p] == '#' && (IsName(s[p + 1]) || (p + 2 < |s| && EscapeAt(s, p + 1)))
  }

  lemma NumberAtMeans(s: string, p: nat)
    requires p < |s|
    ensures NumberAt(s, p) <==> StartsNumber(s, p)
    ensures StartsNumber(s, p) ==> LongestNumber(s, p, NumberEnd(s, p))
  {
    hide IsNumber;
    StartsNumberMeans(s, p);
    if NumberAt(s, p) {
      var n: nat :| LongestNumber(s, p, n);
      NumberStarts(s, p, n);
    }
    if StartsNumber(s, p) {
      NumberIsNumber(s, p);
      NumberAdvances(s, p);
      forall q | NumberEnd(s, p) < q <= |s| ensures !IsNumber(s[p..q]) {
        if IsNumber(s[p..q]) { NumberIsLongest(s, p, q); }
      }
      assert LongestNumber(s, p, NumberEnd(s, p));
    }
  }

  lemma LongestNameMeans(s: string, p: nat)
    requires p <= |s|
    ensures LongestName(s, p, NameEnd(s, p))
  {
    NameEndMeans(s, p);
    forall q | NameEnd(s, p) < q <= |s| ensures !IsNameSpan(s, p, q) {
      if IsNameSpan(s, p, q) { NameIsLongest(s, p, q); }
    }
  }

  lemma HashAtMeans(s: string, p: nat)
    requires p < |s|
    ensures HashAt(s, p) <==> StartsHash(s, p)
  {
    if p + 1 < |s| { ValidEscapeMeans(s, p + 1); }
  }

  /** The kind of the component at `p`, by what stands there. */
  ghost function KindAt(s: string, p: nat): (k: ComponentKind)
    requires p < |s|
  {
    var c := s[p];
    if IsWs(c) then Whitespace
    else if c == '"' || c == '\'' then StringToken
    else if NumberAt(s, p) then
      var n: nat :| LongestNumber(s, p, n);
      if n < |s| && s[n] == '%' then Percentage else if IdentAt(s, n) then Dimension else Number
    else if c == '@' && IdentAt(s, p + 1) then AtKeyword
    else if HashAt(s, p) then Hash
    else if IdentAt(s, p) then
      LongestNameMeans(s, p);
      var n: nat :| LongestName(s, p, n);
      if n < |s| && s[n] == '(' then Function else Ident
    else if IsOpener(c) then Block
    else if c == ':' then Colon
    else if c == ';' then Semicolon
    else if c == ',' then Comma
    else Delim
  }

  /** Its fields: for each kind, the piece of text each holds. */
  ghost predicate FieldsFit(s: string, c: Component) {
    c.start < c.end <= |s| &&
    var p := c.start;
    match c.kind
    case Whitespace => (forall k :: p <= k < c.end ==> IsWs(s[k])) && (c.end == |s| || !IsWs(s[c.end]))
    case StringToken =>
      exists e: nat :: p < e <= |s| && IsStringSpan(s, p + 1, e, s[p]) && StringStops(s, e, s[p])
                  && c.end == (if e == |s| then e else e + 1) && c.value == s[p + 1..e] && c.delimiter == s[p]
    case Number => LongestNumber(s, p, c.end) && c.number == s[p..c.end] && c.value == ""
    case Percentage => LongestNumber(s, p, c.end - 1) && c.number == s[p..c.end - 1] && c.value == "%"
    case Dimension =>
      exists n: nat :: LongestNumber(s, p, n) && n <= c.end && LongestName(s, n, c.end) && c.number == s[p..n] && c.value == s[n..c.end]
    case AtKeyword => LongestName(s, p + 1, c.end) && c.value == s[p + 1..c.end]
    case Hash => LongestName(s, p + 1, c.end) && c.value == s[p + 1..c.end]
    case Ident => LongestName(s, p, c.end) && c.value == s[p..c.end]
    case Function => exists n: nat :: n < c.end && LongestName(s, p, n) && c.value == s[p..n]
    case Block => c.delimiter == Mirror(s[p])
    case _ => c.end == p + 1 && c.delimiter == s[p]
  }

  lemma OneLongestNumber(s: string, p: nat, m: nat, n: nat)
    requires LongestNumber(s, p, m) && LongestNumber(s, p, n)
    ensures m == n
  {}

  lemma OneLongestName(s: string, p: nat, m: nat, n: nat)
    requires LongestName(s, p, m) && LongestName(s, p, n)
    ensures m == n
  {}

  lemma {:induction false} WsIsLongest(s: string, p: nat)
    requires p <= |s|
    ensures WsEnd(s, p) == |s| || !IsWs(s[WsEnd(s, p)])
    decreases |s| - p
  {
    if p < |s| && IsWs(s[p]) { WsIsLongest(s, p + 1); }
  }

  lemma StringIsRight(s: string, p: nat)
    requires p < |s| && (s[p] == '"' || s[p] == '\'')
    ensures var r := ConsumeString(s, p); r.result.kind == StringToken && r.result.start == p && r.result.end == r.next && FieldsFit(s, r.result)
  {
    hide IsStringSpan;
    hide ScanString;
    ScanFindsString(s, p + 1, s[p]);
  }

  lemma NumericIsRight(s: string, p: nat)
    requires p < |s| && StartsNumber(s, p)
    ensures var r := ConsumeNumeric(s, p);
            && r.result.start == p && r.result.end == r.next && FieldsFit(s, r.result)
            && r.result.kind == (var n := NumberEnd(s, p);
                                 if n < |s| && s[n] == '%' then Percentage else if StartsIdent(s, n) then Dimension else Number)
  {
    hide LongestNumber;
    hide LongestName;
    hide NumberEnd;
    hide NameEnd;
    hide StartsIdent;
    var n := NumberEnd(s, p);
    NumberAtMeans(s, p);
    LongestNameMeans(s, n);
  }

  lemma IdentIsRight(s: string, p: nat, depth: nat)
    requires p < |s| && StartsIdent(s, p)
    ensures var r := ConsumeIdent(s, p, Ident, depth);
            && r.result.start == p && r.result.end == r.next && FieldsFit(s, r.result)
            && r.result.kind == (var n := NameEnd(s, p); if n < |s| && s[n] == '(' then Function else Ident)
  {
    hide LongestName;
    hide NameEnd;
    hide StartsIdent;
    hide ParseList;
    LongestNameMeans(s, p);
  }

  lemma MarkedIsRight(s: string, p: nat, kind: ComponentKind, depth: nat)
    requires p < |s| && kind in {AtKeyword, Hash}
    ensures var r := ConsumeIdent(s, p, kind, depth);
            r.result.start == p && r.result.end == r.next && r.result.kind == kind && FieldsFit(s, r.result)
  {
    hide LongestName;
    hide NameEnd;
    hide StartsIdent;
    LongestNameMeans(s, p + 1);
  }

  /** How the parser tells the kinds apart. */
  function KindFound(s: string, p: nat): ComponentKind
    requires p < |s|
  {
    var c := s[p];
    if IsWs(c) then Whitespace
    else if c == '"' || c == '\'' then StringToken
    else if StartsNumber(s, p) then
      var n := NumberEnd(s, p);
      if n < |s| && s[n] == '%' then Percentage else if StartsIdent(s, n) then Dimension else Number
    else if StartsAt(s, p) then AtKeyword
    else if StartsHash(s, p) then Hash
    else if StartsIdent(s, p) then
      var n := NameEnd(s, p);
      if n < |s| && s[n] == '(' then Function else Ident
    else if IsOpener(c) then Block
    else if c == ':' then Colon
    else if c == ';' then Semicolon
    else if c == ',' then Comma
    else Delim
  }

  lemma KindIsRight(s: string, p: nat)
    requires p < |s|
    ensures KindAt(s, p) == KindFound(s, p)
  {
    hide LongestNumber;
    hide LongestName;
    hide IsIdentSpan;
    hide NumberEnd;
    hide NameEnd;
    hide StartsNumber;
    hide StartsIdent;
    hide StartsHash;
    hide HashAt;
    NumberAtMeans(s, p);
    HashAtMeans(s, p);
    StartsIdentMeans(s, p);
    StartsIdentMeans(s, p + 1);
    LongestNameMeans(s, p);
    if StartsNumber(s, p) {
      StartsIdentMeans(s, NumberEnd(s, p));
      forall n: nat | LongestNumber(s, p, n) ensures n == NumberEnd(s, p) { OneLongestNumber(s, p, n, NumberEnd(s, p)); }
    }
    forall n: nat | LongestName(s, p, n) ensures n == NameEnd(s, p) { OneLongestName(s, p, n, NameEnd(s, p)); }
  }

  lemma FieldsAreRight(s: string, p: nat, depth: nat)
    requires p < |s|
    ensures var r := Consume(s, p, depth);
            r.result.start == p && r.result.end == r.next && r.result.kind == KindFound(s, p) && FieldsFit(s, r.result)
  {
    hide ConsumeString;
    hide ConsumeNumeric;
    hide ConsumeIdent;
    hide ParseList;
    hide NumberEnd;
    hide NameEnd;
    hide StartsNumber;
    hide StartsIdent;
    hide StartsHash;
    hide FieldsFit;
    var c := s[p];
    if IsWs(c) {
      SpaceIsRight(s, p);
    } else if c == '"' || c == '\'' {
      StringIsRight(s, p);
    } else if StartsNumber(s, p) {
      NumericIsRight(s, p);
    } else if StartsAt(s, p) {
      MarkedIsRight(s, p, AtKeyword, depth);
    } else if StartsHash(s, p) {
      MarkedIsRight(s, p, Hash, depth);
    } else if StartsIdent(s, p) {
      IdentIsRight(s, p, depth);
    } else {
      OneIsRight(s, Consume(s, p, depth).result);
    }
  }

  lemma SpaceIsRight(s: string, p: nat)
    requires p < |s| && IsWs(s[p])
    ensures FieldsFit(s, Component(Whitespace, p, WsEnd(s, p), "", "", [], '\0'))
  {
    WsIsLongest(s, p);
    WsEndIsWs(s, p);
  }

  lemma OneIsRight(s: string, c: Component)
    requires c.start < c.end <= |s| && c.kind in {Block, Colon, Semicolon, Comma, Delim}
    requires if c.kind == Block then c.delimiter == Mirror(s[c.start]) else c.end == c.start + 1 && c.delimiter == s[c.start]
    ensures FieldsFit(s, c)
  {}

  /** Every component is the token the text calls for, and takes the longest piece of it. */
  lemma TokenIsRight(s: string, p: nat, depth: nat)
    requires p < |s|
    ensures var r := Consume(s, p, depth);
            r.result.start == p && r.result.end == r.next && r.result.kind == KindAt(s, p) && FieldsFit(s, r.result)
  {
    hide Consume;
    hide KindAt;
    hide KindFound;
    hide FieldsFit;
    KindIsRight(s, p);
    FieldsAreRight(s, p, depth);
  }
}
