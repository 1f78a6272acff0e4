/** What the parser does with each piece of printed text, one step at a time. */
module CalcSteps {
  import opened CalcTree
  import opened CalcText
  import opened CalcPrint
  import opened Chars = CssSyntax

  /** What may follow a printed operand. */
  predicate Ends(rest: string) { rest == "" || rest[0] == ' ' || rest[0] == ')' || rest[0] == ',' }

  /** What may follow a printed sum. */
  predicate Closes(rest: string) { rest == "" || rest[0] == ')' || rest[0] == ',' }

  /** Lower-cased identifier characters only. */
  predicate IsPlain(word: string) {
    forall i :: 0 <= i < |word| ==> IsName(word[i]) && LowerChar(word[i]) == word[i]
  }

  /** A unit that is its own canonical unit. */
  predicate IsFixedUnit(unit: string) {
    CanonicalUnit(unit) == Done(1.0, unit) && (unit == "%" || IsPlain(unit))
  }

  /** The printed number is read back exactly, whatever unit and text follow. */
  ghost predicate Exact(f: Format, v: real) {
    var t := NumberText(Fin(v), f);
    && NumberAhead(t) && t[0] != '+'
    && forall unit: string, rest: string :: IsFixedUnit(unit) && Ends(rest) ==> f.scan(t + unit + rest) == (v, |t|)
  }

  /** The two numbers the printer writes out itself. */
  ghost predicate Sane(f: Format) {
    Exact(f, 1.0) && Exact(f, -1.0) && f.spell(1.0) == "1" && f.spell(-1.0) == "-1"
  }

  // ----- words and white space -----

  lemma {:induction false} WordIsRead(word: string, rest: string)
    requires IsPlain(word) && (rest == "" || !IsName(rest[0]))
    ensures IdentLength(word + rest) == |word|
    decreases |word|
  {
    if word == "" {
      assert word + rest == rest;
    } else {
      assert (word + rest)[1..] == word[1..] + rest && (word + rest)[0] == word[0];
      WordIsRead(word[1..], rest);
    }
  }

  lemma WordIsWord(word: string, rest: string)
    requires IsPlain(word) && (rest == "" || !IsName(rest[0]))
    ensures WordAhead(word + rest) == word && (word + rest)[IdentLength(word + rest)..] == rest
  {
    WordIsRead(word, rest);
    assert (word + rest)[..|word|] == word;
  }

  lemma NoWs(s: string)
    requires s != "" && !IsWs(s[0])
    ensures SkipWs(s) == s && SkipWs(" " + s) == s
  {
    assert (" " + s)[1..] == s;
  }

  /** Leading white space does not matter. */
  lemma LeadingSpace(s: string, depth: nat, f: Format)
    requires s != "" && !IsWs(s[0])
    ensures ParseValue(" " + s, depth, f) == ParseValue(s, depth, f)
    ensures ParseProduct(" " + s, depth, f) == ParseProduct(s, depth, f)
    ensures ParseSum(" " + s, depth, f) == ParseSum(s, depth, f)
  {
    NoWs(s);
  }

  // ----- operands -----

  lemma NumericIsRead(v: real, unit: string, rest: string, depth: nat, f: Format)
    requires Exact(f, v) && IsFixedUnit(unit) && Ends(rest) && depth <= DEPTH_CAP
    ensures ParseValue(NumericText(Fin(v), unit, f) + rest, depth, f) == Done(Numeric(Fin(v), unit), rest)
  {
    hide Exact;
    hide IsFixedUnit;
    hide ParseNumeric;
    hide ParseValue;
    var t := NumberText(Fin(v), f);
    assert t + unit + rest == t + (unit + rest);
    NumberStands(v, unit + rest, f);
    NumberScans(v, unit, rest, f);
    UnitIsRead(v, |t|, t + unit + rest, unit, rest, f);
    NumberValue(t + unit + rest, depth, f);
  }

  lemma NumberStands(v: real, more: string, f: Format)
    requires Exact(f, v)
    ensures NumberAhead(NumberText(Fin(v), f) + more)
  {
    var t := NumberText(Fin(v), f);
    assert (t + more)[0] == t[0] && (|t| > 1 ==> (t + more)[1] == t[1]);
  }

  lemma NumberScans(v: real, unit: string, rest: string, f: Format)
    requires Exact(f, v) && IsFixedUnit(unit) && Ends(rest)
    ensures f.scan(NumberText(Fin(v), f) + unit + rest) == (v, |NumberText(Fin(v), f)|) && NumberText(Fin(v), f) != ""
  {}

  /** Where a number stands, it is read. */
  lemma NumberValue(s: string, depth: nat, f: Format)
    requires NumberAhead(s) && depth <= DEPTH_CAP
    ensures ParseValue(s, depth, f) == ParseNumeric(s, f)
  {
    hide ParseNumeric;
    NoWs(s);
  }

  /** A scanned number with its unit behind it. */
  lemma UnitIsRead(v: real, used: nat, s: string, unit: string, rest: string, f: Format)
    requires f.scan(s) == (v, used) && 0 < used <= |s| && s[used..] == unit + rest && IsFixedUnit(unit) && Ends(rest)
    ensures ParseNumeric(s, f) == Done(Numeric(Fin(v), unit), rest)
  {
    hide CanonicalUnit;
    hide WordAhead;
    hide IdentLength;
    var t := unit + rest;
    if unit == "%" {
      assert t[1..] == rest;
    } else {
      WordIsWord(unit, rest);
      assert t == "" || t[0] != '%';
    }
    assert Prod(v, 1.0) == v;
  }

  lemma BracketIsRead(inner: string, rest: string, depth: nat, f: Format, m: Node)
    requires depth <= DEPTH_CAP && ParseSum(inner + (")" + rest), depth + 1, f) == Done(m, ")" + rest)
    ensures ParseValue("(" + inner + ")" + rest, depth, f) == Done(m, rest)
  {
    var s := "(" + inner + ")" + rest;
    assert s[1..] == inner + (")" + rest);
    NoWs(s);
    NoWs(")" + rest);
    assert (")" + rest)[1..] == rest;
  }

  lemma CallIsRead(name: string, args: string, rest: string, depth: nat, f: Format, ms: seq<Node>)
    requires depth <= DEPTH_CAP && IsMath(name) && IsPlain(name) && name != "" && !IsDigit(name[0]) && name[0] != '-'
    requires ParseArgs(args + (")" + rest), depth + 1, name, true, f) == Done(ms, rest)
    ensures ParseValue(name + "(" + args + ")" + rest, depth, f) == Done(Func(name, ms), rest)
  {
    hide IsMath;
    hide IsPlain;
    hide ParseArgs;
    hide ParseSum;
    var s := name + "(" + args + ")" + rest;
    var t := "(" + args + ")" + rest;
    assert s == name + t;
    WordIsWord(name, t);
    assert t[1..] == args + (")" + rest);
    assert s[0] == name[0];
    NoWs(s);
  }

  // ----- chains -----

  /** Nothing that follows an operand is taken for another factor. */
  predicate NoFactor(rest: string) {
    Ends(rest) && var s := SkipWs(rest); s == "" || (s[0] != '*' && s[0] != '/')
  }

  lemma ClosesEndsBoth(rest: string, depth: nat, f: Format)
    requires Closes(rest)
    ensures NoFactor(rest) && ParseTerms(rest, depth, f) == Done([], rest)
  {}

  lemma FactorIsRead(divide: bool, operand: string, rest: string, depth: nat, f: Format)
    requires operand != "" && !IsWs(operand[0])
    ensures var s := (if divide then " / " else " * ") + operand + rest;
            var r := ParseValue(operand + rest, depth, f);
            ParseFactors(s, depth, f) ==
            if r.Fail? then Fail
            else
              var tail := ParseFactors(r.rest, depth, f);
              if tail.Fail? then Fail else Done([if divide then Invert(r.value) else r.value] + tail.value, tail.rest)
  {
    var op := if divide then "/ " else "* ";
    var s := (if divide then " / " else " * ") + operand + rest;
    assert s == " " + (op + operand + rest);
    var t := op + operand + rest;
    NoWs(t);
    assert t[1..] == " " + (operand + rest);
    LeadingSpace(operand + rest, depth, f);
  }

  lemma TermIsRead(minus: bool, operand: string, rest: string, depth: nat, f: Format)
    requires operand != "" && !IsWs(operand[0])
    ensures var s := (if minus then " - " else " + ") + operand + rest;
            var r := ParseProduct(operand + rest, depth, f);
            ParseTerms(s, depth, f) ==
            if r.Fail? then Fail
            else
              var tail := ParseTerms(r.rest, depth, f);
              if tail.Fail? then Fail else Done([if minus then Negate(r.value) else r.value] + tail.value, tail.rest)
  {
    var op := if minus then "- " else "+ ";
    var s := (if minus then " - " else " + ") + operand + rest;
    assert s == " " + (op + operand + rest);
    var t := op + operand + rest;
    NoWs(t);
    assert t[1..] == " " + (operand + rest);
    LeadingSpace(operand + rest, depth, f);
  }

  /** The text behind an operand of a sum stops its product. */
  lemma TermStopsProduct(minus: bool, more: string)
    ensures NoFactor((if minus then " - " else " + ") + more)
  {
    var s := (if minus then " - " else " + ") + more;
    var t := (if minus then "- " else "+ ") + more;
    assert s == " " + t;
    NoWs(t);
  }

  lemma LoneFactor(operand: string, rest: string, depth: nat, f: Format)
    requires NoFactor(rest) && var r := ParseValue(operand + rest, depth, f); r.Done? && r.rest == rest
    ensures ParseProduct(operand + rest, depth, f) == ParseValue(operand + rest, depth, f)
  {}

  lemma LoneTerm(operand: string, rest: string, depth: nat, f: Format)
    requires Closes(rest) && var r := ParseProduct(operand + rest, depth, f); r.Done? && r.rest == rest
    ensures ParseSum(operand + rest, depth, f) == ParseProduct(operand + rest, depth, f)
  {
    ClosesEndsBoth(rest, depth, f);
  }

  // ----- arguments -----

  lemma ArgumentIsRead(text: string, depth: nat, name: string, first: bool, f: Format)
    requires text != "" && !IsWs(text[0]) && !IsKeyword(name, first, WordAhead(text))
    ensures var r := ParseSum(text, depth, f);
            r.Done? && r.rest != "" && r.rest[0] == ')' ==> ParseArgs(text, depth, name, first, f) == Done([r.value], r.rest[1..])
    ensures var r := ParseSum(text, depth, f);
            r.Done? && r.rest != "" && r.rest[0] == ',' ==>
              ParseArgs(text, depth, name, first, f) ==
              var more := ParseArgs(r.rest[1..], depth, name, false, f);
              if more.Fail? then Fail else Done([r.value] + more.value, more.rest)
  {
    hide IsKeyword;
    NoWs(text);
    var r := ParseSum(text, depth, f);
    if r.Done? && r.rest != "" && !IsWs(r.rest[0]) { NoWs(r.rest); }
  }

  lemma KeywordIsRead(word: string, rest: string, depth: nat, name: string, first: bool, f: Format)
    requires IsPlain(word) && word != "" && IsKeyword(name, first, word) && rest != "" && (rest[0] == ')' || rest[0] == ',')
    ensures rest[0] == ')' ==> ParseArgs(word + rest, depth, name, first, f) == Done([Opaque(word)], rest[1..])
    ensures rest[0] == ',' ==>
              ParseArgs(word + rest, depth, name, first, f) ==
              var more := ParseArgs(rest[1..], depth, name, false, f);
              if more.Fail? then Fail else Done([Opaque(word)] + more.value, more.rest)
  {
    hide IsKeyword;
    WordIsWord(word, rest);
    assert (word + rest)[0] == word[0];
    NoWs(word + rest);
    NoWs(rest);
  }

  lemma ArgsAfterSpace(s: string, depth: nat, name: string, first: bool, f: Format)
    requires s != "" && !IsWs(s[0])
    ensures ParseArgs(" " + s, depth, name, first, f) == ParseArgs(s, depth, name, first, f)
  {
    hide IsKeyword;
    NoWs(s);
    LeadingSpace(s, depth, f);
  }
}
