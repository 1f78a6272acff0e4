/** Well-formed text is read as its tree. */
module CalcGrammarReads {
  import opened CalcTree
  import opened CalcText
  import opened CalcGrammar
  import opened Chars = CssSyntax

  // ----- white space -----

  lemma {:induction false} WsIsSkipped(a: string, s: string)
    requires AllWs(a) && (s == "" || !IsWs(s[0]))
    ensures SkipWs(a + s) == s
    decreases |a|
  {
    if a == "" {
      assert a + s == s;
    } else {
      assert (a + s)[0] == a[0] && (a + s)[1..] == a[1..] + s;
      WsIsSkipped(a[1..], s);
    }
  }

  /** Where skipping white space stops. */
  lemma {:induction false} Skipped(s: string) returns (k: nat)
    ensures k <= |s| && AllWs(s[..k]) && SkipWs(s) == s[k..] && (k == |s| || !IsWs(s[k]))
    decreases |s|
  {
    k := 0;
    if s != "" && IsWs(s[0]) {
      var n := Skipped(s[1..]);
      k := n + 1;
      assert s[..k] == [s[0]] + s[1..][..n] && s[1..][n..] == s[k..];
    }
  }

  lemma OperatorIsNoWs(s: string, k: nat, j: nat)
    requires j <= |s| && AllWs(s[..j]) && (j == |s| || !IsWs(s[j]))
    requires k < |s| && AllWs(s[..k]) && !IsWs(s[k])
    ensures k == j
  {
    assert forall i :: 0 <= i < k ==> s[..k][i] == s[i];
    assert forall i :: 0 <= i < j ==> s[..j][i] == s[i];
  }

  lemma FactorAheadMeans(s: string)
    ensures FactorAhead(s) <==> var t := SkipWs(s); t != "" && (t[0] == '*' || t[0] == '/')
  {
    var j := Skipped(s);
    forall k | 0 <= k < |s| && AllWs(s[..k]) && (s[k] == '*' || s[k] == '/') ensures k == j { OperatorIsNoWs(s, k, j); }
    assert j < |s| ==> SkipWs(s)[0] == s[j];
  }

  lemma TermAheadMeans(s: string)
    ensures TermAhead(s) <==>
            var t := SkipWs(s); !(t == "" || (t[0] != '+' && t[0] != '-') || |t| == |s| || |t| < 2 || !IsWs(t[1]))
  {
    var j := Skipped(s);
    forall k | 1 <= k < |s| - 1 && AllWs(s[..k]) && (s[k] == '+' || s[k] == '-') && IsWs(s[k + 1]) ensures k == j {
      OperatorIsNoWs(s, k, j);
    }
    assert j < |s| ==> SkipWs(s)[0] == s[j];
    assert j + 1 < |s| ==> SkipWs(s)[1] == s[j + 1];
  }

  /** Only what comes after leading white space matters. */
  lemma LeadingWs(s: string, depth: nat, f: Format)
    ensures ParseSum(SkipWs(s), depth, f) == ParseSum(s, depth, f)
  {
    var k := Skipped(s);
    WsIsSkipped("", SkipWs(s));
    assert "" + SkipWs(s) == SkipWs(s);
    assert ParseValue(SkipWs(s), depth, f) == ParseValue(s, depth, f);
    assert ParseProduct(SkipWs(s), depth, f) == ParseProduct(s, depth, f);
  }

  // ----- words -----

  lemma {:induction false} WordLength(word: string, follow: string)
    requires (word == "" || IsWord(word)) && WordEnds(follow)
    ensures IdentLength(word + follow) == |word|
    decreases |word|
  {
    if word == "" {
      assert word + follow == follow;
    } else {
      assert (word + follow)[0] == word[0] && (word + follow)[1..] == word[1..] + follow;
      WordLength(word[1..], follow);
    }
  }

  lemma WordIsAhead(word: string, follow: string)
    requires (word == "" || IsWord(word)) && WordEnds(follow)
    ensures WordAhead(word + follow) == Lower(word) && (word + follow)[IdentLength(word + follow)..] == follow
  {
    WordLength(word, follow);
    assert (word + follow)[..|word|] == word;
  }

  /** Names of functions, constants and keywords do not look like numbers. */
  lemma WordIsNoNumber(word: string, follow: string)
    requires IsWord(word) && (IsMath(Lower(word)) || Constant(Lower(word)).Done?)
    ensures !NumberAhead(word + follow) && word[0] != '(' && !IsWs(word[0])
  {
    var w := Lower(word);
    assert LowerChar(word[0]) == w[0];
    assert |w| > 1 ==> LowerChar(word[1]) == w[1];
    FirstLetters(w);
  }

  lemma FirstLetters(w: string)
    requires IsMath(w) || Constant(w).Done?
    ensures w != "" && ('a' <= w[0] <= 'z' || (w[0] == '-' && |w| > 1 && w[1] == 'i'))
  {}

  // ----- values -----

  lemma NumberIsRead(t: ValueText, depth: nat, follow: string, f: Format)
    requires t.NumberText? && ValueFits(t, depth, follow, f)
    ensures ParseValue(ShowValue(t) + follow, depth, f) == Done(ValueTree(t), follow)
  {
    hide ParseNumeric;
    hide CanonicalUnit;
    var s := t.digits + t.unit + follow;
    assert ShowValue(t) + follow == t.space + s;
    WsIsSkipped(t.space, s);
    NumericIsRead(t, depth, follow, f);
  }

  lemma NumericIsRead(t: ValueText, depth: nat, follow: string, f: Format)
    requires t.NumberText? && ValueFits(t, depth, follow, f)
    ensures ParseNumeric(t.digits + t.unit + follow, f) == Done(ValueTree(t), follow)
  {
    hide CanonicalUnit;
    hide Lower;
    hide IdentLength;
    hide WordAhead;
    var s := t.digits + t.unit + follow;
    var behind := t.unit + follow;
    assert s[|t.digits|..] == behind;
    UnitIsAhead(t.unit, follow);
  }

  lemma UnitIsAhead(unit: string, follow: string)
    requires UnitFits(unit, follow)
    ensures var t := unit + follow;
            var percent := t != "" && t[0] == '%';
            (if percent then "%" else WordAhead(t)) == Lower(unit) && t[if percent then 1 else IdentLength(t)..] == follow
  {
    hide CanonicalUnit;
    hide Lower;
    hide IdentLength;
    hide WordAhead;
    var t := unit + follow;
    if unit == "%" {
      PercentIsLower();
      assert t[1..] == follow;
    } else {
      WordIsAhead(unit, follow);
      assert unit != "" ==> t[0] == unit[0];
      assert unit == "" ==> t == follow;
    }
  }

  lemma PercentIsLower()
    ensures Lower("%") == "%"
  {}

  lemma WordIsRead(t: ValueText, depth: nat, follow: string, f: Format)
    requires t.WordText? && ValueFits(t, depth, follow, f)
    ensures ParseValue(ShowValue(t) + follow, depth, f) == Done(ValueTree(t), follow)
  {
    hide Constant;
    hide IsMath;
    hide Lower;
    hide ParseNumeric;
    var s := t.word + follow;
    assert ShowValue(t) + follow == t.space + s;
    WordIsNoNumber(t.word, follow);
    WsIsSkipped(t.space, s);
    WordIsAhead(t.word, follow);
    NotEmpty(t.word);
  }

  lemma NotEmpty(s: string)
    requires s != ""
    ensures Lower(s) != ""
  {}

  lemma {:induction false} ValueIsRead(t: ValueText, depth: nat, follow: string, f: Format)
    requires ValueFits(t, depth, follow, f)
    ensures ParseValue(ShowValue(t) + follow, depth, f) == Done(ValueTree(t), follow)
    decreases t, 1
  {
    hide ParseValue;
    hide ShowValue;
    hide ValueTree;
    match t {
      case NumberText(_, _, _, _) => NumberIsRead(t, depth, follow, f);
      case WordText(_, _) => WordIsRead(t, depth, follow, f);
      case GroupText(_, inner, gap) =>
        SumIsRead(inner, depth + 1, gap + ")" + follow, f);
        GroupIsRead(t, depth, follow, f);
      case CallText(_, word, args) =>
        ArgsAreRead(args, depth + 1, Lower(word), true, follow, f);
        CallIsRead(t, depth, follow, f);
    }
  }

  lemma GroupIsRead(t: ValueText, depth: nat, follow: string, f: Format)
    requires t.GroupText? && ValueFits(t, depth, follow, f)
    requires ParseSum(ShowSum(t.inner) + (t.gap + ")" + follow), depth + 1, f) == Done(SumTree(t.inner), t.gap + ")" + follow)
    ensures ParseValue(ShowValue(t) + follow, depth, f) == Done(ValueTree(t), follow)
  {
    hide SumFits;
    hide ParseSum;
    var inner := ShowSum(t.inner) + (t.gap + ")" + follow);
    var s := "(" + inner;
    assert ShowValue(t) + follow == t.space + s && s[1..] == inner;
    WsIsSkipped(t.space, s);
    assert t.gap + ")" + follow == t.gap + (")" + follow);
    WsIsSkipped(t.gap, ")" + follow);
    assert (")" + follow)[1..] == follow;
  }

  lemma CallIsRead(t: ValueText, depth: nat, follow: string, f: Format)
    requires t.CallText? && ValueFits(t, depth, follow, f)
    requires ParseArgs(ShowArgs(t.args) + follow, depth + 1, Lower(t.word), true, f) == Done(ArgTrees(t.args), follow)
    ensures ParseValue(ShowValue(t) + follow, depth, f) == Done(ValueTree(t), follow)
  {
    hide ArgsFit;
    hide ParseArgs;
    hide IsMath;
    hide Lower;
    hide ParseNumeric;
    var behind := "(" + (ShowArgs(t.args) + follow);
    var s := t.word + behind;
    assert ShowValue(t) + follow == t.space + s;
    WordIsNoNumber(t.word, behind);
    WsIsSkipped(t.space, s);
    WordIsAhead(t.word, behind);
    NotEmpty(t.word);
    assert behind[1..] == ShowArgs(t.args) + follow;
  }

  // ----- arguments -----

  /** A keyword does not start a sum. */
  lemma KeywordIsNoSum(name: string, first: bool, s: string, depth: nat, f: Format)
    requires IsKeyword(name, first, WordAhead(s))
    ensures ParseSum(s, depth, f).Fail?
  {
    hide ParseNumeric;
    var w := WordAhead(s);
    assert w[0] == LowerChar(s[0]) && 'a' <= w[0] <= 'z';
    assert !NumberAhead(s) && s[0] != '(' && !IsWs(s[0]);
    assert SkipWs(s) == s;
    KeywordNamesNothing(name, first, w);
    assert ParseValue(s, depth, f).Fail?;
    assert ParseProduct(s, depth, f).Fail?;
  }

  lemma KeywordNamesNothing(name: string, first: bool, w: string)
    requires IsKeyword(name, first, w)
    ensures w != "" && !IsMath(w) && Constant(w).Fail?
  {}

  lemma TakesWordMeans(name: string, first: bool, word: string)
    ensures TakesWord(name, first, word) <==> IsKeyword(name, first, word)
  {}

  /** One argument and the white space behind it. */
  lemma OperandIsRead(t: OperandText, depth: nat, name: string, first: bool, follow: string, f: Format)
    requires OperandFits(t, depth, name, first, follow, f)
    requires t.WholeText? ==> ParseSum(ShowSum(t.sum) + follow, depth, f) == Done(SumTree(t.sum), follow)
    ensures var s := SkipWs(ShowOperand(t) + follow);
            ArgAhead(s, depth, name, first, f) == Done(OperandTree(t), follow)
  {
    hide IsKeyword;
    hide TakesWord;
    hide ParseSum;
    hide SumFits;
    var s := SkipWs(ShowOperand(t) + follow);
    match t {
      case KeywordText(space, word) =>
        assert ShowOperand(t) + follow == space + (word + follow);
        WsIsSkipped(space, word + follow);
        WordIsAhead(word, follow);
        TakesWordMeans(name, first, Lower(word));
      case WholeText(sum) =>
        LeadingWs(ShowSum(sum) + follow, depth, f);
        if IsKeyword(name, first, WordAhead(s)) { KeywordIsNoSum(name, first, s, depth, f); }
    }
  }

  lemma {:induction false} ArgsAreRead(ts: seq<ArgText>, depth: nat, name: string, first: bool, follow: string, f: Format)
    requires ts != [] && ArgsFit(ts, depth, name, first, follow, f)
    ensures ParseArgs(ShowArgs(ts) + follow, depth, name, first, f) == Done(ArgTrees(ts), follow)
    decreases ts, 1
  {
    hide ParseArgs;
    hide ArgAhead;
    hide OperandFits;
    var a, last := ts[0], |ts| == 1;
    var behind := a.gap + (if last then ")" + follow else "," + ShowArgs(ts[1..]) + follow);
    if a.body.WholeText? {
      assert SumFits(a.body.sum, depth, behind, f) by { WholeFits(a.body, depth, name, first, behind, f); }
      SumIsRead(a.body.sum, depth, behind, f);
    }
    OperandIsRead(a.body, depth, name, first, behind, f);
    if !last { ArgsAreRead(ts[1..], depth, name, false, follow, f); }
    ArgsByFirst(ts, depth, name, first, follow, f);
  }

  lemma WholeFits(t: OperandText, depth: nat, name: string, first: bool, follow: string, f: Format)
    requires t.WholeText? && OperandFits(t, depth, name, first, follow, f)
    ensures SumFits(t.sum, depth, follow, f)
  {}

  /** The argument at the head of `s`. */
  function ArgAhead(s: string, depth: nat, name: string, first: bool, f: Format): Outcome<Node> {
    if IsKeyword(name, first, WordAhead(s)) then Done(Opaque(WordAhead(s)), s[IdentLength(s)..]) else ParseSum(s, depth, f)
  }

  lemma ArgsByHead(text: string, depth: nat, name: string, first: bool, f: Format)
    ensures ParseArgs(text, depth, name, first, f) ==
            var arg := ArgAhead(SkipWs(text), depth, name, first, f);
            if arg.Fail? then Fail
            else
              var t := SkipWs(arg.rest);
              if t == "" then Fail
              else if t[0] == ',' then
                var more := ParseArgs(t[1..], depth, name, false, f);
                if more.Fail? then Fail else Done([arg.value] + more.value, more.rest)
              else if t[0] == ')' then Done([arg.value], t[1..])
              else Fail
  {
    hide IsKeyword;
    hide ParseSum;
    hide WordAhead;
    hide IdentLength;
  }

  lemma ArgsByFirst(ts: seq<ArgText>, depth: nat, name: string, first: bool, follow: string, f: Format)
    requires ts != [] && AllWs(ts[0].gap)
    requires var behind := ts[0].gap + (if |ts| == 1 then ")" + follow else "," + ShowArgs(ts[1..]) + follow);
             ArgAhead(SkipWs(ShowOperand(ts[0].body) + behind), depth, name, first, f) == Done(OperandTree(ts[0].body), behind)
    requires |ts| > 1 ==> ParseArgs(ShowArgs(ts[1..]) + follow, depth, name, false, f) == Done(ArgTrees(ts[1..]), follow)
    ensures ParseArgs(ShowArgs(ts) + follow, depth, name, first, f) == Done(ArgTrees(ts), follow)
  {
    hide ArgAhead;
    hide ParseArgs;
    hide ShowOperand;
    hide OperandTree;
    hide SkipWs;
    hide ShowArgs;
    ArgsText(ts, follow);
    ArgsByHead(ShowArgs(ts) + follow, depth, name, first, f);
    ArgTreesByFirst(ts);
    if |ts| == 1 {
      WsIsSkipped(ts[0].gap, ")" + follow);
      assert (")" + follow)[1..] == follow;
    } else {
      var more := ShowArgs(ts[1..]) + follow;
      assert "," + ShowArgs(ts[1..]) + follow == "," + more;
      WsIsSkipped(ts[0].gap, "," + more);
      assert ("," + more)[1..] == more;
    }
  }

  lemma ArgTreesByFirst(ts: seq<ArgText>)
    requires ts != []
    ensures ArgTrees(ts) == [OperandTree(ts[0].body)] + ArgTrees(ts[1..])
    ensures |ts| == 1 ==> ArgTrees(ts) == [OperandTree(ts[0].body)]
  {
    hide OperandTree;
    if |ts| == 1 {
      assert ts[1..] == [];
      NoTrees();
      var a := [OperandTree(ts[0].body)];
      assert a + [] == a;
    }
  }

  lemma NoTrees()
    ensures ArgTrees([]) == []
  {}

  lemma ArgsText(ts: seq<ArgText>, follow: string)
    requires ts != []
    ensures ShowArgs(ts) + follow
         == ShowOperand(ts[0].body) + (ts[0].gap + (if |ts| == 1 then ")" + follow else "," + ShowArgs(ts[1..]) + follow))
  {
    hide ShowOperand;
    var a, b := ShowOperand(ts[0].body), ts[0].gap;
    var c := if |ts| == 1 then ")" else "," + ShowArgs(ts[1..]);
    Regroup3(a, b, c, follow);
  }

  lemma Regroup3(a: string, b: string, c: string, d: string)
    ensures a + b + c + d == a + (b + (c + d))
  {}

  // ----- products and sums -----

  lemma {:induction false} FactorsAreRead(ts: seq<FactorText>, depth: nat, follow: string, f: Format)
    requires FactorsFit(ts, depth, follow, f)
    ensures ParseFactors(ShowFactors(ts) + follow, depth, f) == Done(FactorTrees(ts), follow)
    decreases ts, 1
  {
    hide ParseValue;
    hide ValueFits;
    hide FactorAhead;
    hide ValueTree;
    if ts == [] {
      assert "" + follow == follow;
      FactorAheadMeans(follow);
    } else {
      var behind := ShowFactors(ts[1..]) + follow;
      ValueIsRead(ts[0].operand, depth, behind, f);
      FactorsAreRead(ts[1..], depth, follow, f);
      FactorIsRead(ts, depth, follow, f);
    }
  }

  lemma FactorIsRead(ts: seq<FactorText>, depth: nat, follow: string, f: Format)
    requires ts != [] && AllWs(ts[0].gap)
    requires var behind := ShowFactors(ts[1..]) + follow;
             && ParseValue(ShowValue(ts[0].operand) + behind, depth, f) == Done(ValueTree(ts[0].operand), behind)
             && ParseFactors(behind, depth, f) == Done(FactorTrees(ts[1..]), follow)
    ensures ParseFactors(ShowFactors(ts) + follow, depth, f) == Done(FactorTrees(ts), follow)
  {
    hide ParseValue;
    hide ValueTree;
    hide ShowValue;
    hide ShowFactors;
    hide AllWs;
    var rhs := ShowValue(ts[0].operand) + (ShowFactors(ts[1..]) + follow);
    var s := (if ts[0].divide then "/" else "*") + rhs;
    FactorsText(ts, follow);
    WsIsSkipped(ts[0].gap, s);
    assert s[1..] == rhs;
    FactorsByTurn(ts[0].gap + s, s, depth, f);
  }

  lemma FactorsText(ts: seq<FactorText>, follow: string)
    requires ts != []
    ensures ShowFactors(ts) + follow
         == ts[0].gap + ((if ts[0].divide then "/" else "*") + (ShowValue(ts[0].operand) + (ShowFactors(ts[1..]) + follow)))
  {
    hide ShowValue;
    var op, rhs := if ts[0].divide then "/" else "*", ShowValue(ts[0].operand);
    Regroup3(ts[0].gap, op, rhs, ShowFactors(ts[1..]));
    Regroup3(ts[0].gap, op, rhs, ShowFactors(ts[1..]) + follow);
    Regroup2(ts[0].gap + op + rhs, ShowFactors(ts[1..]), follow);
  }

  /** One turn of a product. */
  lemma FactorsByTurn(text: string, s: string, depth: nat, f: Format)
    requires SkipWs(text) == s && s != "" && (s[0] == '*' || s[0] == '/')
    ensures ParseFactors(text, depth, f) ==
            var rhs := ParseValue(s[1..], depth, f);
            if rhs.Fail? then Fail
            else
              var tail := ParseFactors(rhs.rest, depth, f);
              if tail.Fail? then Fail
              else Done([if s[0] == '/' then Invert(rhs.value) else rhs.value] + tail.value, tail.rest)
  {
    hide ParseValue;
  }

  lemma {:induction false} ProductIsRead(t: ProductText, depth: nat, follow: string, f: Format)
    requires ProductFits(t, depth, follow, f)
    ensures ParseProduct(ShowProduct(t) + follow, depth, f) == Done(ProductTree(t), follow)
    decreases t, 1
  {
    hide ParseValue;
    hide ParseFactors;
    hide ValueFits;
    hide ValueTree;
    hide FactorsFit;
    var behind := ShowFactors(t.more) + follow;
    ValueIsRead(t.first, depth, behind, f);
    FactorsAreRead(t.more, depth, follow, f);
    assert ShowProduct(t) + follow == ShowValue(t.first) + behind;
  }

  lemma {:induction false} TermsAreRead(ts: seq<TermText>, depth: nat, follow: string, f: Format)
    requires TermsFit(ts, depth, follow, f)
    ensures ParseTerms(ShowTerms(ts) + follow, depth, f) == Done(TermTrees(ts), follow)
    decreases ts, 1
  {
    hide ParseProduct;
    hide ProductFits;
    hide TermAhead;
    hide ProductTree;
    if ts == [] {
      assert "" + follow == follow;
      TermAheadMeans(follow);
    } else {
      var behind := ShowTerms(ts[1..]) + follow;
      ProductIsRead(ts[0].operand, depth, behind, f);
      TermsAreRead(ts[1..], depth, follow, f);
      TermIsRead(ts, depth, follow, f);
    }
  }

  lemma TermIsRead(ts: seq<TermText>, depth: nat, follow: string, f: Format)
    requires ts != [] && ts[0].gap != "" && AllWs(ts[0].gap)
    requires ShowProduct(ts[0].operand) != "" && IsWs(ShowProduct(ts[0].operand)[0])
    requires var behind := ShowTerms(ts[1..]) + follow;
             && ParseProduct(ShowProduct(ts[0].operand) + behind, depth, f) == Done(ProductTree(ts[0].operand), behind)
             && ParseTerms(behind, depth, f) == Done(TermTrees(ts[1..]), follow)
    ensures ParseTerms(ShowTerms(ts) + follow, depth, f) == Done(TermTrees(ts), follow)
  {
    hide ParseProduct;
    hide ProductTree;
    hide ShowProduct;
    hide ShowTerms;
    hide AllWs;
    var rhs := ShowProduct(ts[0].operand) + (ShowTerms(ts[1..]) + follow);
    var s := (if ts[0].minus then "-" else "+") + rhs;
    TermsText(ts, follow);
    WsIsSkipped(ts[0].gap, s);
    assert s[1..] == rhs && s[1] == ShowProduct(ts[0].operand)[0];
    TermsByTurn(ts[0].gap + s, s, depth, f);
  }

  lemma TermsText(ts: seq<TermText>, follow: string)
    requires ts != []
    ensures ShowTerms(ts) + follow
         == ts[0].gap + ((if ts[0].minus then "-" else "+") + (ShowProduct(ts[0].operand) + (ShowTerms(ts[1..]) + follow)))
  {
    hide ShowProduct;
    var op, rhs := if ts[0].minus then "-" else "+", ShowProduct(ts[0].operand);
    Regroup3(ts[0].gap, op, rhs, ShowTerms(ts[1..]));
    Regroup3(ts[0].gap, op, rhs, ShowTerms(ts[1..]) + follow);
    Regroup2(ts[0].gap + op + rhs, ShowTerms(ts[1..]), follow);
  }

  lemma Regroup2(a: string, b: string, c: string)
    ensures a + b + c == a + (b + c)
  {}

  /** One turn of a sum whose operator has white space on both sides. */
  lemma TermsByTurn(text: string, s: string, depth: nat, f: Format)
    requires SkipWs(text) == s && |s| < |text| && |s| >= 2 && (s[0] == '+' || s[0] == '-') && IsWs(s[1])
    ensures ParseTerms(text, depth, f) ==
            var rhs := ParseProduct(s[1..], depth, f);
            if rhs.Fail? then Fail
            else
              var tail := ParseTerms(rhs.rest, depth, f);
              if tail.Fail? then Fail
              else Done([if s[0] == '-' then Negate(rhs.value) else rhs.value] + tail.value, tail.rest)
  {
    hide ParseProduct;
  }

  lemma {:induction false} SumIsRead(t: SumText, depth: nat, follow: string, f: Format)
    requires SumFits(t, depth, follow, f)
    ensures ParseSum(ShowSum(t) + follow, depth, f) == Done(SumTree(t), follow)
    decreases t, 1
  {
    hide ParseProduct;
    hide ParseTerms;
    hide ProductFits;
    hide ProductTree;
    hide TermsFit;
    var behind := ShowTerms(t.more) + follow;
    ProductIsRead(t.first, depth, behind, f);
    TermsAreRead(t.more, depth, follow, f);
    assert ShowSum(t) + follow == ShowProduct(t.first) + behind;
  }
}
