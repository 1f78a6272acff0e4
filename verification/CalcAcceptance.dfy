/** Which texts have a canonical form. */
module CalcAcceptance {
  import opened Options
  import opened CalcTree
  import opened CalcText
  import opened CalcGrammar
  import opened CalcGrammarReads
  import opened CalcGrammarFinds
  import Print = CalcPrint
  import opened Chars = CssSyntax

  /** The text is a value of the grammar and white space behind it. */
  ghost predicate IsValueText(text: string, t: ValueText, tail: string, f: Format) {
    text == ShowValue(t) + tail && AllWs(tail) && ValueFits(t, 0, tail, f)
  }

  lemma OnlyWs(s: string)
    ensures SkipWs(s) == "" <==> AllWs(s)
  {
    var k := Skipped(s);
    assert s[..|s|] == s;
    if AllWs(s) {
      assert s + "" == s;
      WsIsSkipped(s, "");
    }
  }

  /** A text parses whole exactly when it is such a value, and as the tree of that value. */
  lemma WholeValue(text: string, f: Format)
    ensures (ParseValue(text, 0, f).Done? && SkipWs(ParseValue(text, 0, f).rest) == "")
       <==> exists t, tail :: IsValueText(text, t, tail, f)
    ensures forall t, tail :: IsValueText(text, t, tail, f) ==> ParseValue(text, 0, f) == Done(ValueTree(t), tail)
  {
    hide ParseValue;
    hide ShowValue;
    hide ValueFits;
    hide ValueTree;
    hide AllWs;
    hide SkipWs;
    forall t, tail | IsValueText(text, t, tail, f)
      ensures ParseValue(text, 0, f) == Done(ValueTree(t), tail) && SkipWs(tail) == ""
    {
      ValueIsRead(t, 0, tail, f);
      OnlyWs(tail);
    }
    if ParseValue(text, 0, f).Done? && SkipWs(ParseValue(text, 0, f).rest) == "" {
      var t := ValueFound(text, 0, f);
      OnlyWs(ParseValue(text, 0, f).rest);
      assert IsValueText(text, t, ParseValue(text, 0, f).rest, f);
    }
  }

  /** A math function has a canonical text if and only if it is a value of the grammar whose sums do
      not mix numbers with dimensions and whose simplified numbers all survive printing; the text is
      then that of the simplified tree. */
  lemma AcceptedExactly(text: string, keepCalc: bool, f: Format)
    ensures Print.CanonicalText(text, keepCalc, f).Some?
       <==> exists t, tail :: IsValueText(text, t, tail, f) && Typed(ValueTree(t)) && Print.TextHolds(Simplify(ValueTree(t)), f)
    ensures forall t, tail :: IsValueText(text, t, tail, f) && Print.CanonicalText(text, keepCalc, f).Some? ==>
              Print.CanonicalText(text, keepCalc, f).value == Print.Canonical(Simplify(ValueTree(t)), keepCalc, f)
  {
    hide IsValueText;
    hide ParseValue;
    hide Typed;
    hide Print.TextHolds;
    hide Print.Canonical;
    hide Simplify;
    hide ValueTree;
    hide SkipWs;
    WholeValue(text, f);
  }

  // ----- a whole value of a property -----

  /** Brackets opened and not closed. */
  function Net(s: string): int {
    if s == "" then 0 else Net(s[..|s| - 1]) + (if s[|s| - 1] == '(' then 1 else if s[|s| - 1] == ')' then -1 else 0)
  }

  lemma {:induction false} NetOfHead(s: string)
    requires s != ""
    ensures Net(s) == (if s[0] == '(' then 1 else if s[0] == ')' then -1 else 0) + Net(s[1..])
  {
    if |s| == 1 {
      assert s[..0] == "" == s[1..];
    } else {
      var front := s[..|s| - 1];
      NetOfHead(front);
      assert s[1..][..|s| - 2] == front[1..];
    }
  }

  /** The bracket that takes `depth` and what is opened on the way down to nothing, no quote before it. */
  predicate ClosesAt(s: string, depth: int, k: nat) {
    && k < |s| && s[k] == ')' && depth + Net(s[..k]) == 1
    && forall j :: 0 <= j < k ==> !Print.IsQuote(s[j]) && !(s[j] == ')' && depth + Net(s[..j]) == 1)
  }

  lemma ClosesLater(s: string, depth: int, k: nat)
    requires s != "" && !Print.IsQuote(s[0]) && !(s[0] == ')' && depth == 1)
    ensures ClosesAt(s, depth, k + 1) <==> ClosesAt(s[1..], Print.Deeper(s[0], depth), k)
  {
    forall j | 0 <= j < |s| - 1 ensures s[1..][j] == s[j + 1] && depth + Net(s[..j + 1]) == Print.Deeper(s[0], depth) + Net(s[1..][..j]) {
      NetOfHead(s[..j + 1]);
      assert s[..j + 1][1..] == s[1..][..j];
    }
    assert s[..0] == "";
    if ClosesAt(s[1..], Print.Deeper(s[0], depth), k) {
      forall j | 0 <= j < k + 1 ensures !Print.IsQuote(s[j]) && !(s[j] == ')' && depth + Net(s[..j]) == 1) {
        if j > 0 { assert s[1..][j - 1] == s[j]; }
      }
    }
    if ClosesAt(s, depth, k + 1) {
      forall j | 0 <= j < k ensures !Print.IsQuote(s[1..][j]) { assert s[1..][j] == s[j + 1]; }
    }
  }

  lemma {:induction false} ClosingMeans(s: string, depth: int, k: nat)
    ensures Print.ClosingAt(s, depth) == Some(k) <==> ClosesAt(s, depth, k)
    decreases |s|
  {
    hide ClosesAt;
    if s == "" || Print.IsQuote(s[0]) || (s[0] == ')' && depth == 1) {
      ClosesNow(s, depth, k);
    } else {
      NotHere(s, depth);
      if k > 0 {
        ClosesLater(s, depth, k - 1);
        ClosingMeans(s[1..], Print.Deeper(s[0], depth), k - 1);
      }
    }
  }

  lemma ClosesNow(s: string, depth: int, k: nat)
    requires s == "" || Print.IsQuote(s[0]) || (s[0] == ')' && depth == 1)
    ensures ClosesAt(s, depth, k) <==> s != "" && !Print.IsQuote(s[0]) && k == 0
  {
    if s != "" { assert s[..0] == ""; }
  }

  lemma NotHere(s: string, depth: int)
    requires s != "" && !(s[0] == ')' && depth == 1)
    ensures !ClosesAt(s, depth, 0)
  {
    assert s[..0] == "";
  }

  /** One call of calc(), min(), max() or clamp() that is closed by the last character, with no quote in it. */
  predicate IsOneCall(s: string, n: nat) {
    && 0 < n < |s| && IsWord(s[..n]) && s[n] == '('
    && Lower(s[..n]) in {"calc", "min", "max", "clamp"} && ClosesAt(s[n..], 0, |s| - n - 1)
  }

  /** A property value is brought to canonical form if and only if, white space around it aside, it is
      one such call with a canonical text; calc() is kept only around what was written so. */
  lemma AdmittedExactly(text: string, f: Format)
    ensures var s := Print.Trimmed(text); var n := IdentLength(s);
            Print.ValueCanonical(text, f)
            == if IsOneCall(s, n) then Print.CanonicalText(s, Lower(s[..n]) == "calc", f) else None
  {
    hide Print.CanonicalText;
    hide Print.Trimmed;
    hide Lower;
    hide ClosesAt;
    hide Print.ClosingAt;
    var s := Print.Trimmed(text);
    var n := IdentLength(s);
    var word := WordFound(s);
    if n < |s| { ClosingMeans(s[n..], 0, |s| - n - 1); }
  }

  /** The white space left away is all there is at both ends. */
  lemma TrimmedMeans(text: string) returns (before: string, after: string)
    ensures text == before + Print.Trimmed(text) + after && AllWs(before) && AllWs(after)
    ensures var s := Print.Trimmed(text); s == "" || (!IsWs(s[0]) && !IsWs(s[|s| - 1]))
  {
    var k := Skipped(text);
    before := text[..k];
    after := EndTrimmed(SkipWs(text));
    assert text == before + (Print.Trimmed(text) + after);
    assert Print.Trimmed(text) != "" ==> Print.Trimmed(text)[0] == SkipWs(text)[0];
  }

  lemma {:induction false} EndTrimmed(s: string) returns (after: string)
    ensures s == Print.TrimEnd(s) + after && AllWs(after)
    ensures var t := Print.TrimEnd(s); t == "" || !IsWs(t[|t| - 1])
    decreases |s|
  {
    if s != "" && IsWs(s[|s| - 1]) {
      var more := EndTrimmed(s[..|s| - 1]);
      after := more + [s[|s| - 1]];
      assert s == s[..|s| - 1] + [s[|s| - 1]];
    } else {
      after := "";
      assert s + "" == s;
    }
  }
}
