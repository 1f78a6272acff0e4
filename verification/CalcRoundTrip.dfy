/** Printed trees read back with their meaning. */
module CalcRoundTrip {
  import opened CalcTree
  import opened CalcMeaning
  import opened CalcText
  import opened CalcPrint
  import opened CalcOrder
  import opened CalcSteps
  import opened Chars = CssSyntax

  lemma MathIsPlain(name: string)
    requires IsMath(name)
    ensures name != "" && IsPlain(name) && 'a' <= name[0] <= 'z'
  {
    hide IsPlain;
    if name in ["calc", "min", "max", "clamp", "round", "mod", "rem"] {
      ComparisonIsPlain(name);
    } else if name in ["abs", "sign", "hypot", "pow", "sqrt"] {
      PowerIsPlain(name);
    } else {
      CurveIsPlain(name);
    }
  }

  lemma ComparisonIsPlain(name: string)
    requires name in ["calc", "min", "max", "clamp", "round", "mod", "rem"]
    ensures name != "" && IsPlain(name) && 'a' <= name[0] <= 'z'
  {}

  lemma PowerIsPlain(name: string)
    requires name in ["abs", "sign", "hypot", "pow", "sqrt"]
    ensures name != "" && IsPlain(name) && 'a' <= name[0] <= 'z'
  {}

  lemma CurveIsPlain(name: string)
    requires name in ["sin", "cos", "tan", "asin", "acos", "atan", "atan2", "exp", "log"]
    ensures name != "" && IsPlain(name) && 'a' <= name[0] <= 'z'
  {}



  lemma MathIsNoKeyword(name: string, first: bool, word: string)
    requires IsMath(word)
    ensures !IsKeyword(name, first, word)
  {}

  lemma KeywordStarts(name: string, first: bool, word: string)
    requires IsKeyword(name, first, word)
    ensures word != "" && 'a' <= word[0] <= 'z'
  {}

  /** An argument of a function: a word where the parser takes one, or any printable tree. */
  ghost predicate PrintableArg(name: string, first: bool, n: Node, f: Format)
    decreases n, 1
  {
    if n.Opaque? then IsKeyword(name, first, n.text) && IsPlain(n.text) else Printable(n, f)
  }

  /** Finite, exactly printed numbers in canonical units, in a tree as the parser builds them. */
  ghost predicate Printable(n: Node, f: Format)
    decreases n, 0
  {
    match n
    case Numeric(value, unit) => value.Fin? && IsFixedUnit(unit) && Exact(f, value.v) && Exact(f, -value.v)
    case Opaque(_) => false
    case Sum(kids) => |kids| >= 2 && forall i :: 0 <= i < |kids| ==> Printable(kids[i], f)
    case Product(kids) => |kids| >= 2 && forall i :: 0 <= i < |kids| ==> Printable(kids[i], f)
    case Negate(kid) => Printable(kid, f)
    case Invert(kid) => Printable(kid, f)
    case Func(name, args) => IsMath(name) && args != [] && forall i :: 0 <= i < |args| ==> PrintableArg(name, i == 0, args[i], f)
  }

  // ----- how printed text starts -----

  /** The head of a call of a math function. */
  predicate CallAhead(s: string) {
    var k := IdentLength(s);
    0 < k < |s| && s[k] == '(' && IsMath(WordAhead(s)) && 'a' <= s[0] <= 'z'
  }

  predicate Leading(s: string) {
    s != "" && (s[0] == '(' || (NumberAhead(s) && s[0] != '+') || CallAhead(s))
  }

  lemma LeadingIsNoKeyword(s: string, name: string, first: bool)
    requires Leading(s)
    ensures !IsWs(s[0]) && !IsKeyword(name, first, WordAhead(s))
  {
    hide IsMath;
    hide IsKeyword;
    if IsKeyword(name, first, WordAhead(s)) {
      KeywordStarts(name, first, WordAhead(s));
      assert WordAhead(s)[0] == LowerChar(s[0]);
      if CallAhead(s) { MathIsNoKeyword(name, first, WordAhead(s)); }
    }
  }

  lemma {:induction false} TextLeads(n: Node, rest: string, f: Format)
    requires Printable(n, f)
    ensures Text(n, f) != "" && Leading(Text(n, f) + rest) && Leading(Text(n, f))
  {
    hide IsMath;
    hide Exact;
    var t := Text(n, f);
    match n
    case Numeric(value, unit) =>
      NumberLeads(value.v, unit + rest, f);
      NumberLeads(value.v, unit, f);
      assert t + rest == NumberText(value, f) + (unit + rest);
    case Func(name, args) =>
      var inner := ArgsText(args, true, f, Deepest(args)) + ")";
      CallLeads(name, inner);
      CallLeads(name, inner + rest);
      assert t == name + "(" + inner && t + rest == name + "(" + (inner + rest);
    case Sum(_) =>
    case Product(_) =>
    case Negate(_) =>
    case Invert(_) =>
  }

  lemma CallLeads(name: string, more: string)
    requires IsMath(name)
    ensures Leading(name + "(" + more)
  {
    MathIsPlain(name);
    hide IsMath;
    hide IsPlain;
    var tail := "(" + more;
    assert name + "(" + more == name + tail;
    WordIsWord(name, tail);
    WordIsRead(name, tail);
    assert (name + tail)[|name|] == '(' && (name + tail)[0] == name[0];
  }

  lemma NumberLeads(v: real, rest: string, f: Format)
    requires Exact(f, v)
    ensures Leading(NumberText(Fin(v), f) + rest)
  {
    var t := NumberText(Fin(v), f);
    assert (t + rest)[0] == t[0] && (|t| > 1 ==> (t + rest)[1] == t[1]);
  }

  // ----- text without its outer brackets -----

  function Inside(n: Node, f: Format): string {
    match n
    case Sum(kids) => TermsText(Sorted(kids), true, f, Deepest(kids))
    case Product(kids) => FactorsText(Sorted(kids), true, f, Deepest(kids))
    case Negate(kid) => "-1 * " + Text(kid, f)
    case Invert(kid) => "1 / " + Text(kid, f)
    case _ => Text(n, f)
  }

  predicate Bracketed(n: Node) { n.Sum? || n.Product? || n.Negate? || n.Invert? }

  lemma StripBrackets(inner: string)
    ensures Stripped("(" + inner + ")") == inner
  {}

  lemma StrippedIsInside(n: Node, f: Format)
    requires Printable(n, f)
    ensures Stripped(Text(n, f)) == Inside(n, f)
    ensures Bracketed(n) ==> Text(n, f) == "(" + Inside(n, f) + ")"
  {
    hide IsMath;
    hide Exact;
    hide Stripped;
    if Bracketed(n) {
      BracketsInside(n, f);
      StripBrackets(Inside(n, f));
    } else {
      NothingToStrip(n, f);
    }
  }

  lemma BracketsInside(n: Node, f: Format)
    requires Bracketed(n)
    ensures Text(n, f) == "(" + Inside(n, f) + ")"
  {
    match n
    case Negate(kid) => assert "(-1 * " == "(" + "-1 * ";
    case Invert(kid) => assert "(1 / " == "(" + "1 / ";
    case _ =>
  }

  lemma NothingToStrip(n: Node, f: Format)
    requires Printable(n, f) && !Bracketed(n)
    ensures Stripped(Text(n, f)) == Text(n, f)
  {
    hide IsMath;
    var t := Text(n, f);
    if n.Func? {
      MathIsPlain(n.name);
      assert t[0] == n.name[0];
    } else {
      assert t[0] == NumberText(n.value, f)[0];
    }
  }

  /** The first operand stands bare in front of the others. */
  lemma FirstBare(ks: seq<Node>, f: Format, deep: nat)
    requires ks != [] && forall n :: n in ks ==> Nesting(n) <= deep
    ensures TermsText(ks, true, f, deep) == Text(ks[0], f) + TermsText(ks[1..], false, f, deep)
    ensures FactorsText(ks, true, f, deep) == Text(ks[0], f) + FactorsText(ks[1..], false, f, deep)
  {
    assert "" + Text(ks[0], f) == Text(ks[0], f);
  }

  lemma {:induction false} SomeOperand(ks: seq<Node>)
    requires |ks| >= 2
    ensures |Sorted(ks)| == |ks|
  {
    SortedPermutes(ks);
    assert |multiset(ks)| == |ks| && |multiset(Sorted(ks))| == |Sorted(ks)|;
  }

  lemma InsideLeads(n: Node, rest: string, f: Format)
    requires Printable(n, f)
    ensures Inside(n, f) != "" && Leading(Inside(n, f) + rest)
  {
    hide Leading;
    match n
    case Sum(kids) =>
      SomeOperand(kids);
      OperandsLead(Sorted(kids), rest, f, Deepest(kids));
    case Product(kids) =>
      SomeOperand(kids);
      OperandsLead(Sorted(kids), rest, f, Deepest(kids));
    case Negate(_) => LiteralLeads("-1 * " + Text(n.kid, f) + rest);
    case Invert(_) => LiteralLeads("1 / " + Text(n.kid, f) + rest);
    case _ => TextLeads(n, rest, f);
  }

  lemma LiteralLeads(s: string)
    requires |s| >= 2 && (s[0] == '1' || (s[0] == '-' && s[1] == '1'))
    ensures Leading(s)
  {}

  lemma OperandsLead(ks: seq<Node>, rest: string, f: Format, deep: nat)
    requires ks != [] && AllPrintable(ks, f, deep)
    ensures TermsText(ks, true, f, deep) != "" && Leading(TermsText(ks, true, f, deep) + rest)
    ensures FactorsText(ks, true, f, deep) != "" && Leading(FactorsText(ks, true, f, deep) + rest)
  {
    hide Leading;
    hide Printable;
    hide Text;
    hide TermsText;
    hide FactorsText;
    FirstBare(ks, f, deep);
    var t, terms, factors := Text(ks[0], f), TermsText(ks[1..], false, f, deep), FactorsText(ks[1..], false, f, deep);
    TextLeads(ks[0], terms + rest, f);
    TextLeads(ks[0], factors + rest, f);
    assert t + terms + rest == t + (terms + rest) && t + factors + rest == t + (factors + rest);
  }

  ghost predicate AllPrintable(ks: seq<Node>, f: Format, deep: nat) {
    forall n :: n in ks ==> Printable(n, f) && Nesting(n) <= deep
  }

  // ----- the tree a printed tree is read as -----

  /** The operand a factor is printed with. */
  function Divisor(k: Node): (r: Node)
    ensures Nesting(r) <= Nesting(k)
  {
    if k.Invert? then k.kid else k
  }

  /** The operand a term is printed with, and whether a minus stands before it. */
  function Operand(k: Node): (r: (bool, Node))
    ensures Nesting(r.1) <= Nesting(k)
  {
    if k.Negate? then (true, k.kid)
    else if IsNegative(k) then (true, Numeric(Neg(k.value), k.unit))
    else (false, k)
  }

  /** What the parser makes of the text of `n`: operands in printed order, a sign or an inverse in front as a product. */
  function Reparsed(n: Node): Node
    decreases Nesting(n), 0, 0
  {
    match n
    case Numeric(_, _) => n
    case Opaque(_) => n
    case Func(name, args) => Func(name, ReparsedArgs(args, Deepest(args)))
    case Negate(kid) => Product([Numeric(Fin(-1.0), ""), Reparsed(kid)])
    case Invert(kid) => Product([Numeric(Fin(1.0), ""), Invert(Reparsed(kid))])
    case Sum(kids) => Sum(ReparsedTerms(Sorted(kids), true, Deepest(kids)))
    case Product(kids) => Product(ReparsedFactors(Sorted(kids), true, Deepest(kids)))
  }

  function ReparsedArgs(ks: seq<Node>, deep: nat): (r: seq<Node>)
    requires forall n :: n in ks ==> Nesting(n) <= deep
    ensures |r| == |ks| && forall i :: 0 <= i < |ks| ==> r[i] == Reparsed(ks[i])
    decreases deep, 2, |ks|
  {
    if ks == [] then [] else [Reparsed(ks[0])] + ReparsedArgs(ks[1..], deep)
  }

  lemma ReparsedFirst(ks: seq<Node>, deep: nat)
    requires ks != [] && forall n :: n in ks ==> Nesting(n) <= deep
    ensures ReparsedArgs(ks, deep) == [Reparsed(ks[0])] + ReparsedArgs(ks[1..], deep)
    ensures |ks| == 1 ==> ReparsedArgs(ks, deep) == [Reparsed(ks[0])]
  {}

  function ReparsedTerm(k: Node, first: bool): Node
    decreases Nesting(k), 1, 0
  {
    if first || !Operand(k).0 then Reparsed(k) else Negate(Reparsed(Operand(k).1))
  }

  function ReparsedTerms(ks: seq<Node>, first: bool, deep: nat): (r: seq<Node>)
    requires forall n :: n in ks ==> Nesting(n) <= deep
    ensures |r| == |ks| && forall i :: 0 <= i < |ks| ==> r[i] == ReparsedTerm(ks[i], first && i == 0)
    decreases deep, 2, |ks|
  {
    if ks == [] then [] else [ReparsedTerm(ks[0], first)] + ReparsedTerms(ks[1..], false, deep)
  }

  function ReparsedFactor(k: Node, first: bool): Node
    decreases Nesting(k), 1, 0
  {
    if first || !k.Invert? then Reparsed(k) else Invert(Reparsed(k.kid))
  }

  function ReparsedFactors(ks: seq<Node>, first: bool, deep: nat): (r: seq<Node>)
    requires forall n :: n in ks ==> Nesting(n) <= deep
    ensures |r| == |ks| && forall i :: 0 <= i < |ks| ==> r[i] == ReparsedFactor(ks[i], first && i == 0)
    decreases deep, 2, |ks|
  {
    if ks == [] then [] else [ReparsedFactor(ks[0], first)] + ReparsedFactors(ks[1..], false, deep)
  }

  // ----- reading back -----

  predicate Shallow(n: Node, depth: nat) { depth + Nesting(n) <= DEPTH_CAP }

  lemma {:induction false} ValueIsRead(n: Node, rest: string, depth: nat, f: Format)
    requires Sane(f) && Printable(n, f) && Ends(rest) && Shallow(n, depth)
    ensures ParseValue(Text(n, f) + rest, depth, f) == Done(Reparsed(n), rest)
    decreases Nesting(n), 3, 0
  {
    hide IsMath;
    hide Exact;
    hide ParseValue;
    hide ParseSum;
    hide ParseArgs;
    hide Inside;
    if n.Numeric? {
      NumericIsRead(n.value.v, n.unit, rest, depth, f);
    } else if n.Func? {
      FuncIsRead(n, rest, depth, f);
    } else {
      hide Text;
      hide Reparsed;
      BracketsInside(n, f);
      InsideIsRead(n, ")" + rest, depth + 1, f);
      BracketIsRead(Inside(n, f), rest, depth, f, Reparsed(n));
    }
  }

  lemma {:induction false} FuncIsRead(n: Node, rest: string, depth: nat, f: Format)
    requires Sane(f) && Printable(n, f) && n.Func? && Ends(rest) && Shallow(n, depth)
    ensures ParseValue(Text(n, f) + rest, depth, f) == Done(Reparsed(n), rest)
    decreases Nesting(n), 2, 0
  {
    hide IsMath;
    hide IsPlain;
    hide Exact;
    hide ParseValue;
    hide ParseArgs;
    hide ArgsText;
    hide ArgsTail;
    hide ReparsedArgs;
    MathIsPlain(n.name);
    var text := ArgsText(n.args, true, f, Deepest(n.args));
    ArgsAreRead(n.args, true, rest, depth + 1, n.name, f, Deepest(n.args));
    FirstArgBare(n.args, rest, f, Deepest(n.args));
    CallIsRead(n.name, text, rest, depth, f, ReparsedArgs(n.args, Deepest(n.args)));
  }

  lemma {:induction false} InsideIsRead(n: Node, rest: string, depth: nat, f: Format)
    requires Sane(f) && Printable(n, f) && Bracketed(n) && Closes(rest)
    requires depth + Nesting(n) <= DEPTH_CAP + 1
    ensures ParseSum(Inside(n, f) + rest, depth, f) == Done(Reparsed(n), rest)
    decreases Nesting(n), 2, 0
  {
    match n
    case Sum(kids) =>
      SomeOperand(kids);
      SumIsRead(Sorted(kids), rest, depth, f, Deepest(kids));
    case Product(kids) =>
      SomeOperand(kids);
      ProductIsRead(Sorted(kids), rest, depth, f, Deepest(kids));
    case Negate(kid) => ScaledIsRead(-1.0, false, kid, rest, depth, f);
    case Invert(kid) => ScaledIsRead(1.0, true, kid, rest, depth, f);
  }

  // ----- a sign or an inverse -----

  /** A number and one more factor, read as a product of the two. */
  lemma PairIsRead(number: string, v: Node, divide: bool, operand: string, m: Node, rest: string, depth: nat, f: Format)
    requires Closes(rest) && operand != "" && !IsWs(operand[0])
    requires var more := (if divide then " / " else " * ") + operand + rest;
             ParseValue(number + more, depth, f) == Done(v, more)
    requires ParseValue(operand + rest, depth, f) == Done(m, rest)
    ensures ParseSum(number + ((if divide then " / " else " * ") + operand + rest), depth, f)
         == Done(Product([v, if divide then Invert(m) else m]), rest)
  {
    hide ParseValue;
    hide ParseFactors;
    hide ParseProduct;
    hide ParseTerms;
    hide ParseSum;
    hide NoFactor;
    hide Closes;
    var more := (if divide then " / " else " * ") + operand + rest;
    var second := if divide then Invert(m) else m;
    FactorIsRead(divide, operand, rest, depth, f);
    ClosesEndsBoth(rest, depth, f);
    NothingMore(rest, depth, f);
    assert [second] + [] == [second] && [v] + [second] == [v, second];
    ProductFrom(number + more, depth, f);
    TermAlone(number + more, rest, depth, f);
  }

  /** A product with nothing behind it that goes on is the whole sum. */
  lemma TermAlone(text: string, rest: string, depth: nat, f: Format)
    requires Closes(rest) && var r := ParseProduct(text, depth, f); r.Done? && r.rest == rest
    ensures ParseSum(text, depth, f) == ParseProduct(text, depth, f)
  {
    ClosesEndsBoth(rest, depth, f);
    hide ParseProduct;
    hide ParseTerms;
    hide Closes;
  }

  lemma {:induction false} ScaledIsRead(v: real, divide: bool, kid: Node, rest: string, depth: nat, f: Format)
    requires Sane(f) && Printable(kid, f) && Closes(rest) && Shallow(kid, depth)
    requires v == if divide then 1.0 else -1.0
    ensures ParseSum((if divide then "1 / " else "-1 * ") + Text(kid, f) + rest, depth, f)
         == Done(Product([Numeric(Fin(v), ""), if divide then Invert(Reparsed(kid)) else Reparsed(kid)]), rest)
    decreases Nesting(kid), 10, 0
  {
    hide Exact;
    hide ParseSum;
    hide ParseValue;
    hide Text;
    hide NumericText;
    hide Leading;
    hide IsFixedUnit;
    hide Printable;
    hide Reparsed;
    hide CanonicalUnit;
    PlainUnit();
    var number, operand := if divide then "1" else "-1", Text(kid, f);
    var more := (if divide then " / " else " * ") + operand + rest;
    LiteralText(v, f);
    NumericIsRead(v, "", more, depth, f);
    ValueIsRead(kid, rest, depth, f);
    TextLeads(kid, "", f);
    LeadingIsNoKeyword(operand, "", false);
    PairIsRead(number, Numeric(Fin(v), ""), divide, operand, Reparsed(kid), rest, depth, f);
    assert (if divide then "1 / " else "-1 * ") + operand + rest == number + more;
  }

  lemma PlainUnit()
    ensures IsFixedUnit("")
  {}

  lemma LiteralText(v: real, f: Format)
    requires Sane(f) && (v == 1.0 || v == -1.0)
    ensures NumericText(Fin(v), "", f) == if v == 1.0 then "1" else "-1"
    ensures Exact(f, v)
  {
    assert "1" + "" == "1" && "-1" + "" == "-1";
  }

  // ----- products -----

  lemma {:induction false} FactorsAreRead(ks: seq<Node>, rest: string, depth: nat, f: Format, deep: nat)
    requires Sane(f) && AllPrintable(ks, f, deep) && depth + deep <= DEPTH_CAP && NoFactor(rest)
    ensures ParseFactors(FactorsText(ks, false, f, deep) + rest, depth, f) == Done(ReparsedFactors(ks, false, deep), rest)
    decreases deep, 10, |ks|
  {
    hide Exact;
    hide ParseValue;
    hide ParseFactors;
    hide NoFactor;
    hide Text;
    hide Leading;
    if ks == [] {
      NothingMore(rest, depth, f);
    } else {
      var k := ks[0];
      var operand := Divisor(k);
      var more := FactorsText(ks[1..], false, f, deep) + rest;
      FactorsEnd(ks[1..], rest, f, deep);
      ValueIsRead(operand, more, depth, f);
      FactorsAreRead(ks[1..], rest, depth, f, deep);
      TextLeads(operand, "", f);
      LeadingIsNoKeyword(Text(operand, f), "", false);
      FactorIsRead(k.Invert?, Text(operand, f), more, depth, f);
      assert FactorsText(ks, false, f, deep) + rest
          == (if k.Invert? then " / " else " * ") + Text(operand, f) + more;
    }
  }

  lemma NothingMore(rest: string, depth: nat, f: Format)
    requires NoFactor(rest)
    ensures "" + rest == rest && ParseFactors(rest, depth, f) == Done([], rest) && Ends(rest)
  {}

  lemma FactorsEnd(ks: seq<Node>, rest: string, f: Format, deep: nat)
    requires NoFactor(rest) && forall n :: n in ks ==> Nesting(n) <= deep
    ensures Ends(FactorsText(ks, false, f, deep) + rest)
  {
    if ks == [] { assert "" + rest == rest; }
  }

  lemma {:induction false} ProductIsRead(ks: seq<Node>, rest: string, depth: nat, f: Format, deep: nat)
    requires Sane(f) && AllPrintable(ks, f, deep) && depth + deep <= DEPTH_CAP && Closes(rest)
    requires |ks| >= 2
    ensures ParseSum(FactorsText(ks, true, f, deep) + rest, depth, f) == Done(Product(ReparsedFactors(ks, true, deep)), rest)
    decreases deep, 11, 0
  {
    hide Exact;
    hide ParseValue;
    hide ParseProduct;
    hide ParseSum;
    hide ParseFactors;
    hide Text;
    hide FactorsText;
    hide NoFactor;
    var operand, more := Text(ks[0], f), FactorsText(ks[1..], false, f, deep) + rest;
    FirstBare(ks, f, deep);
    ClosesEndsBoth(rest, depth, f);
    FactorsEnd(ks[1..], rest, f, deep);
    ValueIsRead(ks[0], more, depth, f);
    FactorsAreRead(ks[1..], rest, depth, f, deep);
    ProductFrom(operand + more, depth, f);
    assert operand + FactorsText(ks[1..], false, f, deep) + rest == operand + more;
    LoneTerm(operand + FactorsText(ks[1..], false, f, deep), rest, depth, f);
  }

  lemma ProductFrom(text: string, depth: nat, f: Format)
    ensures var h := ParseValue(text, depth, f);
            h.Done? ==>
              var t := ParseFactors(h.rest, depth, f);
              t.Done? && t.value != [] ==> ParseProduct(text, depth, f) == Done(Product([h.value] + t.value), t.rest)
  {}

  lemma SumFrom(text: string, depth: nat, f: Format)
    ensures var h := ParseProduct(text, depth, f);
            h.Done? ==>
              var t := ParseTerms(h.rest, depth, f);
              t.Done? && t.value != [] ==> ParseSum(text, depth, f) == Done(Sum([h.value] + t.value), t.rest)
  {}

  // ----- sums -----

  lemma OperandPrints(k: Node, f: Format)
    requires Printable(k, f)
    ensures Printable(Operand(k).1, f)
    ensures TermText(k, false, f) == (if Operand(k).0 then " - " else " + ") + Text(Operand(k).1, f)
  {
    hide Exact;
    if IsNegative(k) { assert -(-k.value.v) == k.value.v; }
  }

  lemma TermsStopProduct(ks: seq<Node>, rest: string, depth: nat, f: Format, deep: nat)
    requires Closes(rest) && AllPrintable(ks, f, deep)
    ensures NoFactor(TermsText(ks, false, f, deep) + rest)
  {
    hide NoFactor;
    hide Text;
    hide Printable;
    hide Operand;
    if ks == [] {
      assert "" + rest == rest;
      ClosesEndsBoth(rest, depth, f);
    } else {
      OperandPrints(ks[0], f);
      var (minus, n) := Operand(ks[0]);
      var more := Text(n, f) + TermsText(ks[1..], false, f, deep) + rest;
      TermStopsProduct(minus, more);
      assert TermsText(ks, false, f, deep) + rest == (if minus then " - " else " + ") + more;
    }
  }

  lemma {:induction false} TermsAreRead(ks: seq<Node>, rest: string, depth: nat, f: Format, deep: nat)
    requires Sane(f) && AllPrintable(ks, f, deep) && depth + deep <= DEPTH_CAP && Closes(rest)
    ensures ParseTerms(TermsText(ks, false, f, deep) + rest, depth, f) == Done(ReparsedTerms(ks, false, deep), rest)
    decreases deep, 10, |ks|
  {
    hide Exact;
    hide ParseValue;
    hide ParseProduct;
    hide ParseTerms;
    hide NoFactor;
    hide Text;
    hide Leading;
    if ks == [] {
      assert "" + rest == rest;
      ClosesEndsBoth(rest, depth, f);
    } else {
      var k := ks[0];
      var (minus, n) := Operand(k);
      var more := TermsText(ks[1..], false, f, deep) + rest;
      OperandPrints(k, f);
      TermsStopProduct(ks[1..], rest, depth, f, deep);
      StoppedEnds(more);
      ValueIsRead(n, more, depth, f);
      LoneFactor(Text(n, f), more, depth, f);
      TermsAreRead(ks[1..], rest, depth, f, deep);
      TextLeads(n, "", f);
      LeadingIsNoKeyword(Text(n, f), "", false);
      TermIsRead(minus, Text(n, f), more, depth, f);
      assert TermsText(ks, false, f, deep) + rest == (if minus then " - " else " + ") + Text(n, f) + more;
    }
  }

  lemma StoppedEnds(rest: string)
    requires NoFactor(rest)
    ensures Ends(rest)
  {}

  lemma {:induction false} SumIsRead(ks: seq<Node>, rest: string, depth: nat, f: Format, deep: nat)
    requires Sane(f) && AllPrintable(ks, f, deep) && depth + deep <= DEPTH_CAP && Closes(rest)
    requires |ks| >= 2
    ensures ParseSum(TermsText(ks, true, f, deep) + rest, depth, f) == Done(Sum(ReparsedTerms(ks, true, deep)), rest)
    decreases deep, 11, 0
  {
    hide Exact;
    hide ParseValue;
    hide ParseProduct;
    hide ParseTerms;
    hide ParseSum;
    hide NoFactor;
    hide Text;
    hide TermsText;
    var operand, more := Text(ks[0], f), TermsText(ks[1..], false, f, deep) + rest;
    FirstBare(ks, f, deep);
    TermsStopProduct(ks[1..], rest, depth, f, deep);
    StoppedEnds(more);
    ValueIsRead(ks[0], more, depth, f);
    LoneFactor(operand, more, depth, f);
    TermsAreRead(ks[1..], rest, depth, f, deep);
    SumFrom(operand + more, depth, f);
    assert TermsText(ks, true, f, deep) + rest == operand + more;
  }

  // ----- arguments -----

  /** The text behind an argument. */
  function ArgsTail(ks: seq<Node>, rest: string, f: Format, deep: nat): (s: string)
    requires forall n :: n in ks ==> Nesting(n) <= deep
  {
    ArgsText(ks, false, f, deep) + (")" + rest)
  }

  ghost predicate AllArgs(name: string, first: bool, ks: seq<Node>, f: Format, deep: nat) {
    && (forall n :: n in ks ==> Nesting(n) <= deep)
    && forall i :: 0 <= i < |ks| ==> PrintableArg(name, first && i == 0, ks[i], f)
  }

  /** The tail starts with the bracket, or with a comma and the next argument. */
  lemma TailStarts(ks: seq<Node>, rest: string, f: Format, deep: nat)
    requires forall n :: n in ks ==> Nesting(n) <= deep
    ensures ks == [] ==> ArgsTail(ks, rest, f, deep) == ")" + rest
    ensures ks != [] ==>
              ArgsTail(ks, rest, f, deep) == ", " + (Stripped(Text(ks[0], f)) + ArgsTail(ks[1..], rest, f, deep))
  {}

  lemma {:induction false} ArgsAreRead(ks: seq<Node>, first: bool, rest: string, depth: nat, name: string, f: Format, deep: nat)
    requires Sane(f) && ks != [] && Ends(rest) && depth + deep <= DEPTH_CAP
    requires AllArgs(name, first, ks, f, deep)
    ensures ParseArgs(Stripped(Text(ks[0], f)) + ArgsTail(ks[1..], rest, f, deep), depth, name, first, f)
         == Done(ReparsedArgs(ks, deep), rest)
    decreases deep, 10, |ks|
  {
    hide Exact;
    hide IsKeyword;
    hide ParseArgs;
    hide ParseSum;
    hide ArgsTail;
    hide Stripped;
    hide Text;
    var k, tail := ks[0], ArgsTail(ks[1..], rest, f, deep);
    TailStarts(ks[1..], rest, f, deep);
    ReparsedFirst(ks, deep);
    OneArgIsRead(k, first, tail, depth, name, f, deep);
    if |ks| > 1 {
      var next := Stripped(Text(ks[1], f)) + ArgsTail(ks[2..], rest, f, deep);
      assert ks[1..][0] == ks[1] && ks[1..][1..] == ks[2..];
      ArgsAreRead(ks[1..], false, rest, depth, name, f, deep);
      ArgLeads(ks[1], false, ArgsTail(ks[2..], rest, f, deep), name, f);
      assert tail[1..] == " " + next;
      ArgsAfterSpace(next, depth, name, false, f);
    }
  }

  lemma FirstArgBare(ks: seq<Node>, rest: string, f: Format, deep: nat)
    requires ks != [] && forall n :: n in ks ==> Nesting(n) <= deep
    ensures ArgsText(ks, true, f, deep) + (")" + rest) == Stripped(Text(ks[0], f)) + ArgsTail(ks[1..], rest, f, deep)
  {
    hide Text;
    hide Stripped;
    var a, b, c := Stripped(Text(ks[0], f)), ArgsText(ks[1..], false, f, deep), ")" + rest;
    assert ArgsText(ks, true, f, deep) == "" + a + b;
    assert "" + a + b + c == a + (b + c);
  }

  lemma ArgLeads(k: Node, first: bool, tail: string, name: string, f: Format)
    requires PrintableArg(name, first, k, f)
    ensures Stripped(Text(k, f)) != "" && !IsWs((Stripped(Text(k, f)) + tail)[0])
    ensures k.Opaque? ==> Stripped(Text(k, f)) == k.text && IsPlain(k.text) && IsKeyword(name, first, k.text)
    ensures !k.Opaque? ==> !IsKeyword(name, first, WordAhead(Stripped(Text(k, f)) + tail))
  {
    hide IsKeyword;
    hide Exact;
    hide Leading;
    hide Inside;
    if k.Opaque? {
      KeywordStarts(name, first, k.text);
    } else {
      StrippedIsInside(k, f);
      InsideLeads(k, tail, f);
      LeadingIsNoKeyword(Inside(k, f) + tail, name, first);
    }
  }

  /** One argument read, the rest left to the call for the next. */
  lemma {:induction false} OneArgIsRead(k: Node, first: bool, tail: string, depth: nat, name: string, f: Format, deep: nat)
    requires Sane(f) && depth + deep <= DEPTH_CAP
    requires PrintableArg(name, first, k, f) && Nesting(k) <= deep && tail != "" && (tail[0] == ')' || tail[0] == ',')
    ensures var text := Stripped(Text(k, f)) + tail;
            tail[0] == ')' ==> ParseArgs(text, depth, name, first, f) == Done([Reparsed(k)], tail[1..])
    ensures var text := Stripped(Text(k, f)) + tail;
            tail[0] == ',' ==>
              var r, more := ParseArgs(text, depth, name, first, f), ParseArgs(tail[1..], depth, name, false, f);
              more.Done? ==> r == Done([Reparsed(k)] + more.value, more.rest)
    decreases deep, 9, 0
  {
    hide Exact;
    hide IsKeyword;
    hide ParseArgs;
    hide ParseSum;
    hide Stripped;
    hide Text;
    ArgLeads(k, first, tail, name, f);
    var text := Stripped(Text(k, f)) + tail;
    if k.Opaque? {
      KeywordIsRead(k.text, tail, depth, name, first, f);
    } else {
      StrippedIsInside(k, f);
      if Bracketed(k) {
        InsideIsRead(k, tail, depth, f);
      } else {
        ValueIsRead(k, tail, depth, f);
        ClosesEndsBoth(tail, depth, f);
        LoneFactor(Text(k, f), tail, depth, f);
        LoneTerm(Text(k, f), tail, depth, f);
      }
      ArgumentIsRead(text, depth, name, first, f);
    }
  }

  // ----- what the tree read back means -----

  lemma PairMeans(v: real, divide: bool, kid: Node, m: Node, w: World)
    requires w.unit("") == 1.0 && v == (if divide then 1.0 else -1.0) && Eval(m, w) == Eval(kid, w)
    ensures Eval(Product([Numeric(Fin(v), ""), if divide then Invert(m) else m]), w) == Eval(if divide then Invert(kid) else Negate(kid), w)
  {
    var second := if divide then Invert(m) else m;
    TwoFactors(v, second, w);
    if Eval(second, w).Amount? { SignRule(Eval(second, w).v); }
  }

  lemma SignRule(a: real)
    ensures Prod(1.0, a) == a && Prod(-1.0, a) == -a
  {}

  lemma TwoFactors(v: real, n: Node, w: World)
    requires w.unit("") == 1.0
    ensures Eval(Product([Numeric(Fin(v), ""), n]), w) == if Eval(n, w).Amount? then Amount(Prod(v, Eval(n, w).v)) else Undefined
  {
    hide Prod;
    ProdRules(v, 0.0, 0.0);
    var a := Numeric(Fin(v), "");
    SumsConcat([a], [n], w);
    OneOperand(a, w);
    OneOperand(n, w);
    assert [a, n] == [a] + [n];
  }

  lemma OperandMeans(k: Node, m: Node, w: World)
    requires Eval(m, w) == Eval(Operand(k).1, w) && (k.Numeric? ==> k.value.Fin?)
    ensures Eval(if Operand(k).0 then Negate(m) else m, w) == Eval(k, w)
  {
    if IsNegative(k) { UnitNegates(k.value.v, w.unit(k.unit)); }
  }

  lemma {:induction false} ReparsedMeans(n: Node, f: Format, w: World)
    requires w.unit("") == 1.0 && Printable(n, f)
    ensures Eval(Reparsed(n), w) == Eval(n, w)
    decreases Nesting(n), 5, 0
  {
    hide Exact;
    hide IsMath;
    hide IsKeyword;
    hide IsFixedUnit;
    hide Sorted;
    hide Total;
    hide Multiple;
    hide EvalAll;
    hide ReparsedArgs;
    hide ReparsedTerms;
    hide ReparsedFactors;
    match n
    case Numeric(_, _) =>
    case Negate(kid) =>
      ReparsedMeans(kid, f, w);
      PairMeans(-1.0, false, kid, Reparsed(kid), w);
    case Invert(kid) =>
      ReparsedMeans(kid, f, w);
      PairMeans(1.0, true, kid, Reparsed(kid), w);
    case Sum(kids) =>
      ChainsMean(Sorted(kids), f, w, Deepest(kids));
      SortedKeepsMeaning(kids, w);
    case Product(kids) =>
      ChainsMean(Sorted(kids), f, w, Deepest(kids));
      SortedKeepsMeaning(kids, w);
    case Func(name, args) => ArgsMean(name, args, f, w, Deepest(args));
  }

  lemma {:induction false} ArgsMean(name: string, args: seq<Node>, f: Format, w: World, deep: nat)
    requires w.unit("") == 1.0 && AllArgs(name, true, args, f, deep)
    ensures EvalAll(ReparsedArgs(args, deep), w) == EvalAll(args, w)
    decreases deep, 7, 0
  {
    hide Exact;
    hide IsMath;
    hide IsKeyword;
    hide IsFixedUnit;
    hide Printable;
    hide Reparsed;
    forall i | 0 <= i < |args| ensures Eval(Reparsed(args[i]), w) == Eval(args[i], w) {
      assert PrintableArg(name, i == 0, args[i], f);
      if args[i].Opaque? { WordStays(args[i]); } else { ReparsedMeans(args[i], f, w); }
    }
  }

  lemma WordStays(n: Node)
    requires n.Opaque?
    ensures Reparsed(n) == n
  {}

  lemma {:induction false} ChainsMean(ks: seq<Node>, f: Format, w: World, deep: nat)
    requires w.unit("") == 1.0 && AllPrintable(ks, f, deep)
    ensures Sums(ReparsedTerms(ks, true, deep), w) == Sums(ks, w)
    ensures Multiples(ReparsedFactors(ks, true, deep), w) == Multiples(ks, w)
    decreases deep, 7, 0
  {
    hide Printable;
    hide Reparsed;
    hide ReparsedTerm;
    hide ReparsedFactor;
    hide Sums;
    hide Multiples;
    hide Eval;
    var terms, factors := ReparsedTerms(ks, true, deep), ReparsedFactors(ks, true, deep);
    forall i | 0 <= i < |ks| ensures Eval(terms[i], w) == Eval(ks[i], w) && Eval(factors[i], w) == Eval(ks[i], w) {
      OperandsMean(ks[i], f, w, deep);
    }
    SameMeanings(terms, ks, w);
    SameMeanings(factors, ks, w);
  }

  lemma {:induction false} OperandsMean(k: Node, f: Format, w: World, deep: nat)
    requires w.unit("") == 1.0 && Printable(k, f) && Nesting(k) <= deep
    ensures forall first :: Eval(ReparsedTerm(k, first), w) == Eval(ReparsedFactor(k, first), w) == Eval(k, w)
    decreases deep, 6, 0
  {
    hide Exact;
    hide IsMath;
    hide IsFixedUnit;
    ReparsedMeans(k, f, w);
    OperandPrints(k, f);
    ReparsedMeans(Operand(k).1, f, w);
    OperandMeans(k, Reparsed(Operand(k).1), w);
    if k.Invert? { ReparsedMeans(k.kid, f, w); }
  }

  lemma SameMeanings(a: seq<Node>, b: seq<Node>, w: World)
    requires |a| == |b| && forall i :: 0 <= i < |a| ==> Eval(a[i], w) == Eval(b[i], w)
    ensures Sums(a, w) == Sums(b, w) && Multiples(a, w) == Multiples(b, w)
  {
    assert EvalAll(a, w) == EvalAll(b, w);
  }
}
