/** Whatever is read was well formed. */
module CalcGrammarFinds {
  import opened CalcTree
  import opened CalcText
  import opened CalcGrammar
  import opened CalcGrammarReads
  import opened Chars = CssSyntax

  // ----- words -----

  lemma {:induction false} WordLengthMeans(s: string)
    ensures var n := IdentLength(s);
            (forall i :: 0 <= i < n ==> IsName(s[i])) && (n == |s| || !IsName(s[n]))
    decreases |s|
  {
    if s != "" && IsName(s[0]) {
      WordLengthMeans(s[1..]);
      assert forall i :: 1 <= i <= IdentLength(s[1..]) ==> s[i] == s[1..][i - 1];
    }
  }

  lemma WordFound(s: string) returns (word: string)
    ensures word == s[..IdentLength(s)] && (word == "" || IsWord(word)) && WordEnds(s[IdentLength(s)..])
    ensures s == word + s[IdentLength(s)..] && WordAhead(s) == Lower(word)
  {
    hide IdentLength;
    hide Lower;
    WordLengthMeans(s);
    word := s[..IdentLength(s)];
  }

  lemma EmptyLower(word: string)
    ensures Lower(word) == "" <==> word == ""
  {}

  // ----- values -----

  lemma UnitFound(t: string) returns (unit: string, rest: string)
    requires CanonicalUnit(if t != "" && t[0] == '%' then "%" else WordAhead(t)).Done?
    ensures t == unit + rest && UnitFits(unit, rest)
    ensures Lower(unit) == if t != "" && t[0] == '%' then "%" else WordAhead(t)
    ensures rest == t[if t != "" && t[0] == '%' then 1 else IdentLength(t)..]
  {
    hide CanonicalUnit;
    hide Lower;
    hide WordAhead;
    if t != "" && t[0] == '%' {
      PercentIsLower();
      unit, rest := "%", t[1..];
    } else {
      unit := WordFound(t);
      rest := t[IdentLength(t)..];
      PercentIsNoWord(unit);
    }
  }

  lemma PercentIsNoWord(s: string)
    ensures IsWord(s) ==> s != "%"
  {
    if s == "%" { assert s[0] == '%'; }
  }

  lemma NumericFound(space: string, s: string, depth: nat, f: Format) returns (t: ValueText)
    requires NumberAhead(s) && depth <= DEPTH_CAP && AllWs(space) && ParseNumeric(s, f).Done?
    ensures space + s == ShowValue(t) + ParseNumeric(s, f).rest
    ensures ValueFits(t, depth, ParseNumeric(s, f).rest, f) && ValueTree(t) == ParseNumeric(s, f).value
  {
    hide CanonicalUnit;
    hide Lower;
    hide WordAhead;
    hide UnitFits;
    hide AllWs;
    hide NumberAhead;
    var (v, used) := f.scan(s);
    var digits := s[..used];
    var unit, rest := UnitFound(s[used..]);
    FitsAUnit(unit, rest);
    t := NumberText(space, digits, unit, v);
    NumberPieces(space, s, digits, unit, rest);
    assert ShowValue(t) == space + (digits + unit);
  }

  lemma NumberPieces(space: string, s: string, digits: string, unit: string, rest: string)
    requires |digits| <= |s| && digits == s[..|digits|] && s[|digits|..] == unit + rest
    ensures digits + unit + rest == s && space + s == space + (digits + unit) + rest
  {
    assert s == digits + (unit + rest);
    Regroup2(digits, unit, rest);
    Regroup2(space, digits + unit, rest);
  }

  lemma FitsAUnit(unit: string, rest: string)
    requires UnitFits(unit, rest)
    ensures CanonicalUnit(Lower(unit)).Done?
  {}

  lemma ConstantFound(space: string, s: string, depth: nat, f: Format) returns (t: ValueText)
    requires depth <= DEPTH_CAP && AllWs(space) && WordAhead(s) != "" && Constant(WordAhead(s)).Done?
    requires !Opens(s[IdentLength(s)..])
    ensures var rest := s[IdentLength(s)..];
            && space + s == ShowValue(t) + rest && ValueFits(t, depth, rest, f)
            && ValueTree(t) == Numeric(Constant(WordAhead(s)).value, "")
  {
    hide Constant;
    hide Lower;
    hide WordAhead;
    hide AllWs;
    var word := WordFound(s);
    EmptyLower(word);
    t := WordText(space, word);
    Regroup2(space, word, s[IdentLength(s)..]);
  }

  lemma GroupFound(space: string, inner: SumText, depth: nat, after: string, f: Format) returns (t: ValueText)
    requires depth <= DEPTH_CAP && AllWs(space) && SumFits(inner, depth + 1, after, f)
    requires var r := SkipWs(after); r != "" && r[0] == ')'
    ensures var rest := SkipWs(after)[1..];
            && space + ("(" + (ShowSum(inner) + after)) == ShowValue(t) + rest
            && ValueFits(t, depth, rest, f) && ValueTree(t) == SumTree(inner)
  {
    hide SumFits;
    hide ShowSum;
    hide SumTree;
    var k := Skipped(after);
    var gap, rest := after[..k], SkipWs(after)[1..];
    t := GroupText(space, inner, gap);
    assert after == gap + ")" + rest;
    assert ShowValue(t) == space + ("(" + ShowSum(inner) + gap + ")");
    BracketText(space, ShowSum(inner), gap, rest);
  }

  lemma BracketText(space: string, inner: string, gap: string, rest: string)
    ensures space + ("(" + (inner + (gap + ")" + rest))) == space + ("(" + inner + gap + ")") + rest
  {
    var a := "(" + inner + gap + ")";
    Regroup2(space, a, rest);
    assert a + rest == "(" + (inner + (gap + ")" + rest));
  }

  lemma CallFound(space: string, s: string, depth: nat, args: seq<ArgText>, rest: string, f: Format) returns (t: ValueText)
    requires depth <= DEPTH_CAP && AllWs(space) && IsMath(WordAhead(s)) && args != []
    requires s[IdentLength(s)..] == "(" + (ShowArgs(args) + rest)
    requires ArgsFit(args, depth + 1, WordAhead(s), true, rest, f)
    ensures space + s == ShowValue(t) + rest && ValueFits(t, depth, rest, f)
    ensures ValueTree(t) == Func(WordAhead(s), ArgTrees(args))
  {
    hide ArgsFit;
    hide ShowArgs;
    hide ArgTrees;
    hide IsMath;
    hide Lower;
    hide AllWs;
    var word := WordFound(s);
    MathIsNamed(WordAhead(s));
    EmptyLower(word);
    t := CallText(space, word, args);
    assert ShowValue(t) == space + (word + "(" + ShowArgs(args));
    assert word + "(" + ShowArgs(args) + rest == s;
    Regroup2(space, word + "(" + ShowArgs(args), rest);
  }

  lemma MathIsNamed(w: string)
    requires IsMath(w)
    ensures w != ""
  {}

  lemma {:induction false} ValueFound(text: string, depth: nat, f: Format) returns (t: ValueText)
    requires ParseValue(text, depth, f).Done?
    ensures var r := ParseValue(text, depth, f);
            text == ShowValue(t) + r.rest && ValueFits(t, depth, r.rest, f) && ValueTree(t) == r.value
    decreases |text|, 0
  {
    hide SumFits;
    hide ArgsFit;
    hide ShowSum;
    hide ShowArgs;
    hide SumTree;
    hide ArgTrees;
    hide ParseSum;
    hide ParseArgs;
    hide AllWs;
    hide NumberAhead;
    hide ParseNumeric;
    hide Constant;
    hide IsMath;
    hide ShowValue;
    hide ValueTree;
    hide ValueFits;
    hide WordAhead;
    var k := Skipped(text);
    var space, s := text[..k], text[k..];
    assert text == space + s;
    if s[0] == '(' {
      var inner := SumFound(s[1..], depth + 1, f);
      var r := ParseSum(s[1..], depth + 1, f);
      t := GroupFound(space, inner, depth, r.rest, f);
      assert s == "(" + s[1..];
    } else if NumberAhead(s) {
      t := NumericFound(space, s, depth, f);
    } else {
      var behind := s[IdentLength(s)..];
      if Opens(behind) {
        var args := ArgsFound(behind[1..], depth + 1, WordAhead(s), true, f);
        var r := ParseArgs(behind[1..], depth + 1, WordAhead(s), true, f);
        assert behind == "(" + behind[1..];
        t := CallFound(space, s, depth, args, r.rest, f);
      } else {
        t := ConstantFound(space, s, depth, f);
      }
    }
  }

  // ----- arguments -----

  lemma {:induction false} OperandFound(text: string, depth: nat, name: string, first: bool, f: Format) returns (t: OperandText)
    requires ArgAhead(SkipWs(text), depth, name, first, f).Done?
    ensures var r := ArgAhead(SkipWs(text), depth, name, first, f);
            text == ShowOperand(t) + r.rest && OperandFits(t, depth, name, first, r.rest, f) && OperandTree(t) == r.value
    decreases |text|, 5
  {
    hide IsKeyword;
    hide TakesWord;
    hide ParseSum;
    hide ShowSum;
    hide SumTree;
    hide SumFits;
    hide WordAhead;
    var k := Skipped(text);
    var s := text[k..];
    if IsKeyword(name, first, WordAhead(s)) {
      var word := WordFound(s);
      KeywordNames(name, first, WordAhead(s));
      TakesWordMeans(name, first, WordAhead(s));
      EmptyLower(word);
      t := KeywordText(text[..k], word);
      assert text == text[..k] + (word + s[IdentLength(s)..]);
      Regroup2(text[..k], word, s[IdentLength(s)..]);
    } else {
      LeadingWs(text, depth, f);
      var sum := SumFound(text, depth, f);
      t := WholeText(sum);
    }
  }

  lemma KeywordNames(name: string, first: bool, w: string)
    requires IsKeyword(name, first, w)
    ensures w != ""
  {}

  lemma {:induction false} ArgsFound(text: string, depth: nat, name: string, first: bool, f: Format) returns (ts: seq<ArgText>)
    requires ParseArgs(text, depth, name, first, f).Done?
    ensures var r := ParseArgs(text, depth, name, first, f);
            ts != [] && text == ShowArgs(ts) + r.rest && ArgsFit(ts, depth, name, first, r.rest, f) && ArgTrees(ts) == r.value
    decreases |text|, 6
  {
    hide ParseArgs;
    hide ArgAhead;
    hide ShowOperand;
    hide OperandTree;
    hide OperandFits;
    hide ArgsFit;
    hide ArgTrees;
    hide ShowArgs;
    hide SkipWs;
    hide AllWs;
    ArgsByHead(text, depth, name, first, f);
    var body := OperandFound(text, depth, name, first, f);
    var arg := ArgAhead(SkipWs(text), depth, name, first, f);
    var k := Skipped(arg.rest);
    var gap, t := arg.rest[..k], SkipWs(arg.rest);
    assert gap + t == arg.rest;
    var more: seq<ArgText> := [];
    ShorterRest(text, ShowOperand(body), arg.rest);
    if t[0] == ',' { more := ArgsFound(t[1..], depth, name, false, f); }
    ts := [ArgText(body, gap)] + more;
    assert ts[1..] == more;
    ArgsOfHead(ts, depth, name, first, text, t, f);
  }

  lemma ShorterRest(text: string, a: string, rest: string)
    requires text == a + rest
    ensures |rest| <= |text|
  {}

  lemma ArgsOfHead(ts: seq<ArgText>, depth: nat, name: string, first: bool, text: string, t: string, f: Format)
    requires ts != [] && AllWs(ts[0].gap) && t != ""
    requires text == ShowOperand(ts[0].body) + (ts[0].gap + t)
    requires OperandFits(ts[0].body, depth, name, first, ts[0].gap + t, f)
    requires if |ts| == 1 then t[0] == ')'
             else
               && t[0] == ','
               && var r := ParseArgs(t[1..], depth, name, false, f);
                  && r.Done? && t[1..] == ShowArgs(ts[1..]) + r.rest && ArgsFit(ts[1..], depth, name, false, r.rest, f)
                  && ArgTrees(ts[1..]) == r.value
    ensures var rest := if |ts| == 1 then t[1..] else ParseArgs(t[1..], depth, name, false, f).rest;
            && text == ShowArgs(ts) + rest && ArgsFit(ts, depth, name, first, rest, f)
            && ArgTrees(ts) == [OperandTree(ts[0].body)] + (if |ts| == 1 then [] else ArgTrees(ts[1..]))
  {
    hide ParseArgs;
    hide ShowOperand;
    hide OperandTree;
    hide OperandFits;
    hide ShowArgs;
    hide AllWs;
    hide ArgTrees;
    var rest := if |ts| == 1 then t[1..] else ParseArgs(t[1..], depth, name, false, f).rest;
    ArgsText(ts, rest);
    ArgTreesByFirst(ts);
    if |ts| == 1 {
      assert t == ")" + rest && ts[1..] == [];
    } else {
      assert t == "," + t[1..];
      Regroup2(",", ShowArgs(ts[1..]), rest);
    }
  }

  // ----- products and sums -----

  lemma {:induction false} FactorsFound(text: string, depth: nat, f: Format) returns (ts: seq<FactorText>)
    requires ParseFactors(text, depth, f).Done?
    ensures var r := ParseFactors(text, depth, f);
            text == ShowFactors(ts) + r.rest && FactorsFit(ts, depth, r.rest, f) && FactorTrees(ts) == r.value
    decreases |text|, 1
  {
    hide ParseFactors;
    hide SkipWs;
    hide AllWs;
    hide ParseValue;
    hide ShowValue;
    hide ValueTree;
    hide ValueFits;
    hide FactorsFit;
    hide ShowFactors;
    hide FactorTrees;
    var k := Skipped(text);
    var s := text[k..];
    if s == "" || (s[0] != '*' && s[0] != '/') {
      ts := [];
      NoFactors(text, depth, f);
    } else {
      FactorsByTurn(text, s, depth, f);
      var operand := ValueFound(s[1..], depth, f);
      var r := ParseValue(s[1..], depth, f);
      var more := FactorsFound(r.rest, depth, f);
      ts := [FactorText(text[..k], s[0] == '/', operand)] + more;
      assert ts[1..] == more;
      var op := if s[0] == '/' then "/" else "*";
      assert text == text[..k] + (op + s[1..]);
      var last := ParseFactors(r.rest, depth, f).rest;
      FactorsText(ts, last);
      FactorsOfHead(ts, depth, last, f);
    }
  }

  lemma FactorsOfHead(ts: seq<FactorText>, depth: nat, follow: string, f: Format)
    requires ts != [] && AllWs(ts[0].gap) && ValueFits(ts[0].operand, depth, ShowFactors(ts[1..]) + follow, f)
    requires FactorsFit(ts[1..], depth, follow, f)
    ensures FactorsFit(ts, depth, follow, f)
    ensures FactorTrees(ts) == [if ts[0].divide then Invert(ValueTree(ts[0].operand)) else ValueTree(ts[0].operand)] + FactorTrees(ts[1..])
  {
    hide ValueFits;
    hide ValueTree;
    hide ShowValue;
  }

  lemma NoFactors(text: string, depth: nat, f: Format)
    requires var s := SkipWs(text); s == "" || (s[0] != '*' && s[0] != '/')
    ensures ParseFactors(text, depth, f) == Done([], text) && FactorsFit([], depth, text, f) && text == ShowFactors([]) + text
    ensures FactorTrees([]) == []
  {
    FactorAheadMeans(text);
    assert "" + text == text;
  }

  lemma {:induction false} ProductFound(text: string, depth: nat, f: Format) returns (t: ProductText)
    requires ParseProduct(text, depth, f).Done?
    ensures var r := ParseProduct(text, depth, f);
            text == ShowProduct(t) + r.rest && ProductFits(t, depth, r.rest, f) && ProductTree(t) == r.value
    decreases |text|, 2
  {
    hide ParseValue;
    hide ParseFactors;
    hide ShowValue;
    hide ShowFactors;
    hide ValueTree;
    hide FactorTrees;
    hide ValueFits;
    hide FactorsFit;
    var first := ValueFound(text, depth, f);
    var r := ParseValue(text, depth, f);
    var more := FactorsFound(r.rest, depth, f);
    t := ProductText(first, more);
    Regroup2(ShowValue(first), ShowFactors(more), ParseFactors(r.rest, depth, f).rest);
    TreesAsMany(more);
  }

  lemma TreesAsMany(ts: seq<FactorText>)
    ensures FactorTrees(ts) == [] <==> ts == []
  {}

  lemma {:induction false} TermsFound(text: string, depth: nat, f: Format) returns (ts: seq<TermText>)
    requires ParseTerms(text, depth, f).Done?
    ensures var r := ParseTerms(text, depth, f);
            text == ShowTerms(ts) + r.rest && TermsFit(ts, depth, r.rest, f) && TermTrees(ts) == r.value
    decreases |text|, 3
  {
    hide ParseTerms;
    hide SkipWs;
    hide AllWs;
    hide ParseProduct;
    hide ShowProduct;
    hide ProductTree;
    hide ProductFits;
    hide TermAhead;
    hide TermsFit;
    hide ShowTerms;
    hide TermTrees;
    var k := Skipped(text);
    var s := text[k..];
    TermAheadMeans(text);
    if !TermAhead(text) {
      ts := [];
      NoTerms(text, depth, f);
    } else {
      TermsByTurn(text, s, depth, f);
      var operand := ProductFound(s[1..], depth, f);
      var r := ParseProduct(s[1..], depth, f);
      var more := TermsFound(r.rest, depth, f);
      ts := [TermText(text[..k], s[0] == '-', operand)] + more;
      assert ts[1..] == more;
      OperandStarts(operand, depth, s[1..], r.rest, f);
      var op := if s[0] == '-' then "-" else "+";
      assert text == text[..k] + (op + s[1..]);
      var last := ParseTerms(r.rest, depth, f).rest;
      TermsText(ts, last);
      TermsOfHead(ts, depth, last, f);
    }
  }

  lemma TermsOfHead(ts: seq<TermText>, depth: nat, follow: string, f: Format)
    requires ts != [] && ts[0].gap != "" && AllWs(ts[0].gap)
    requires ShowProduct(ts[0].operand) != "" && IsWs(ShowProduct(ts[0].operand)[0])
    requires ProductFits(ts[0].operand, depth, ShowTerms(ts[1..]) + follow, f) && TermsFit(ts[1..], depth, follow, f)
    ensures TermsFit(ts, depth, follow, f)
    ensures TermTrees(ts) == [if ts[0].minus then Negate(ProductTree(ts[0].operand)) else ProductTree(ts[0].operand)] + TermTrees(ts[1..])
  {
    hide ProductFits;
    hide ProductTree;
    hide ShowProduct;
  }

  lemma NoTerms(text: string, depth: nat, f: Format)
    requires !TermAhead(text)
    ensures ParseTerms(text, depth, f) == Done([], text) && TermsFit([], depth, text, f) && text == ShowTerms([]) + text
    ensures TermTrees([]) == []
  {
    TermAheadMeans(text);
    assert "" + text == text;
  }

  lemma OperandStarts(t: ProductText, depth: nat, s: string, rest: string, f: Format)
    requires s == ShowProduct(t) + rest && |rest| < |s|
    ensures ShowProduct(t) != "" && ShowProduct(t)[0] == s[0]
  {
    hide ShowProduct;
  }

  lemma {:induction false} SumFound(text: string, depth: nat, f: Format) returns (t: SumText)
    requires ParseSum(text, depth, f).Done?
    ensures var r := ParseSum(text, depth, f);
            text == ShowSum(t) + r.rest && SumFits(t, depth, r.rest, f) && SumTree(t) == r.value
    decreases |text|, 4
  {
    hide ParseProduct;
    hide ParseTerms;
    hide ShowProduct;
    hide ShowTerms;
    hide ProductTree;
    hide TermTrees;
    hide ProductFits;
    hide TermsFit;
    var first := ProductFound(text, depth, f);
    var r := ParseProduct(text, depth, f);
    var more := TermsFound(r.rest, depth, f);
    t := SumText(first, more);
    Regroup2(ShowProduct(first), ShowTerms(more), ParseTerms(r.rest, depth, f).rest);
    TermsAsMany(more);
  }

  lemma TermsAsMany(ts: seq<TermText>)
    ensures TermTrees(ts) == [] <==> ts == []
  {}

  // ----- the whole -----

  ghost predicate Spells(text: string, n: Node, rest: string, depth: nat, f: Format) {
    exists t: SumText :: text == ShowSum(t) + rest && SumFits(t, depth, rest, f) && SumTree(t) == n
  }

  /** Text is read as a tree exactly when the grammar gives it that tree. */
  lemma ParserFollowsGrammar(text: string, n: Node, rest: string, depth: nat, f: Format)
    ensures ParseSum(text, depth, f) == Done(n, rest) <==> Spells(text, n, rest, depth, f)
  {
    hide ParseSum;
    hide ShowSum;
    hide SumFits;
    hide SumTree;
    if ParseSum(text, depth, f) == Done(n, rest) {
      var t := SumFound(text, depth, f);
    }
    if t: SumText :| text == ShowSum(t) + rest && SumFits(t, depth, rest, f) && SumTree(t) == n {
      SumIsRead(t, depth, rest, f);
    }
  }
}
