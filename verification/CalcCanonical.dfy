/** Canonical text reads back with its meaning. */
module CalcCanonical {
  import opened CalcTree
  import opened CalcMeaning
  import opened CalcText
  import opened CalcPrint
  import opened CalcSteps
  import opened CalcRoundTrip

  // ----- the trees that occur -----

  predicate BuiltArg(name: string, first: bool, n: Node)
    decreases n, 1
  {
    if n.Opaque? then IsKeyword(name, first, n.text) else Built(n)
  }

  /** Canonical units, chains of at least two operands, known functions, words only as arguments. */
  predicate Built(n: Node)
    decreases n, 0
  {
    match n
    case Numeric(_, unit) => IsFixedUnit(unit)
    case Opaque(_) => false
    case Sum(kids) => |kids| >= 2 && forall i :: 0 <= i < |kids| ==> Built(kids[i])
    case Product(kids) => |kids| >= 2 && forall i :: 0 <= i < |kids| ==> Built(kids[i])
    case Negate(kid) => Built(kid)
    case Invert(kid) => Built(kid)
    case Func(name, args) => IsMath(name) && args != [] && forall i :: 0 <= i < |args| ==> BuiltArg(name, i == 0, args[i])
  }

  predicate AllBuilt(ks: seq<Node>) {
    forall i :: 0 <= i < |ks| ==> Built(ks[i])
  }

  /** Every number of the tree is finite and printed exactly, with either sign. */
  ghost predicate ExactNumbers(n: Node, f: Format)
    decreases n
  {
    match n
    case Numeric(value, _) => value.Fin? && Exact(f, value.v) && Exact(f, -value.v)
    case Opaque(_) => true
    case Sum(kids) => forall i :: 0 <= i < |kids| ==> ExactNumbers(kids[i], f)
    case Product(kids) => forall i :: 0 <= i < |kids| ==> ExactNumbers(kids[i], f)
    case Negate(kid) => ExactNumbers(kid, f)
    case Invert(kid) => ExactNumbers(kid, f)
    case Func(_, args) => forall i :: 0 <= i < |args| ==> ExactNumbers(args[i], f)
  }

  lemma KeywordIsPlain(name: string, first: bool, word: string)
    requires IsKeyword(name, first, word)
    ensures IsPlain(word)
  {}

  lemma {:induction false} BuiltIsPrintable(n: Node, f: Format)
    requires Built(n) && ExactNumbers(n, f)
    ensures Printable(n, f)
    decreases n
  {
    hide IsMath;
    hide IsKeyword;
    hide IsPlain;
    hide Exact;
    match n
    case Numeric(_, _) =>
    case Sum(kids) => forall i | 0 <= i < |kids| ensures Printable(kids[i], f) { BuiltIsPrintable(kids[i], f); }
    case Product(kids) => forall i | 0 <= i < |kids| ensures Printable(kids[i], f) { BuiltIsPrintable(kids[i], f); }
    case Negate(kid) => BuiltIsPrintable(kid, f);
    case Invert(kid) => BuiltIsPrintable(kid, f);
    case Func(name, args) =>
      forall i | 0 <= i < |args| ensures PrintableArg(name, i == 0, args[i], f) {
        if args[i].Opaque? { KeywordIsPlain(name, i == 0, args[i].text); } else { BuiltIsPrintable(args[i], f); }
      }
  }

  // ----- the parser builds them -----

  lemma CanonicalIsFixed(unit: string)
    requires CanonicalUnit(unit).Done?
    ensures IsFixedUnit(CanonicalUnit(unit).rest)
  {
    hide IsPlain;
    hide AbsoluteUnit;
    hide IsRelativeUnit;
    BasicUnitsAreFixed();
    if IsRelativeUnit(unit) { RelativeIsPlain(unit); }
  }

  lemma BasicUnitsAreFixed()
    ensures IsFixedUnit("") && IsFixedUnit("%") && IsFixedUnit("px") && IsFixedUnit("deg")
    ensures IsFixedUnit("s") && IsFixedUnit("hz") && IsFixedUnit("dppx")
  {}

  lemma RelativeIsPlain(unit: string)
    requires IsRelativeUnit(unit)
    ensures IsPlain(unit)
  {
    if unit in FONT_UNITS {
      FontUnitIsPlain(unit);
    } else if unit in VIEWPORT_UNITS {
      ViewportUnitIsPlain(unit);
    }
  }

  lemma FontUnitIsPlain(unit: string)
    requires unit in FONT_UNITS
    ensures IsPlain(unit)
  {}

  lemma ViewportUnitIsPlain(unit: string)
    requires unit in VIEWPORT_UNITS
    ensures IsPlain(unit)
  {}

  lemma {:induction false} ValueIsBuilt(text: string, depth: nat, f: Format)
    ensures var r := ParseValue(text, depth, f); r.Done? ==> Built(r.value)
    decreases |text|, 0
  {
    hide CanonicalUnit;
    hide IsMath;
    hide IsKeyword;
    hide IsFixedUnit;
    var s := SkipWs(text);
    if s == "" || depth > DEPTH_CAP {
    } else if s[0] == '(' {
      SumIsBuilt(s[1..], depth + 1, f);
    } else if NumberAhead(s) {
      NumericIsBuilt(s, f);
    } else {
      var word, t := WordAhead(s), s[IdentLength(s)..];
      PlainUnit();
      if word != "" && t != "" && t[0] == '(' {
        ArgsAreBuilt(t[1..], depth + 1, word, true, f);
      }
    }
  }

  lemma NumericIsBuilt(s: string, f: Format)
    ensures var r := ParseNumeric(s, f); r.Done? ==> Built(r.value)
  {
    var (v, used) := f.scan(s);
    if used != 0 && used <= |s| {
      var t := s[used..];
      var unit := if t != "" && t[0] == '%' then "%" else WordAhead(t);
      if CanonicalUnit(unit).Done? { CanonicalIsFixed(unit); }
    }
  }

  lemma {:induction false} ArgsAreBuilt(text: string, depth: nat, name: string, first: bool, f: Format)
    ensures var r := ParseArgs(text, depth, name, first, f);
            r.Done? ==> forall i :: 0 <= i < |r.value| ==> BuiltArg(name, first && i == 0, r.value[i])
    decreases |text|, 4
  {
    hide IsKeyword;
    hide ParseSum;
    var s := SkipWs(text);
    var keyword := IsKeyword(name, first, WordAhead(s));
    if !keyword { SumIsBuilt(s, depth, f); }
    var arg := if keyword then Done(Opaque(WordAhead(s)), s[IdentLength(s)..]) else ParseSum(s, depth, f);
    if arg.Done? {
      var t := SkipWs(arg.rest);
      assert keyword ==> WordAhead(s) != "" by { if keyword { KeywordStarts(name, first, WordAhead(s)); } }
      if t != "" && t[0] == ',' {
        ArgsAreBuilt(t[1..], depth, name, false, f);
        var more := ParseArgs(t[1..], depth, name, false, f);
        if more.Done? {
          forall i | 0 <= i < |more.value| ensures BuiltArg(name, false, more.value[i]) {}
        }
      }
    }
  }

  lemma {:induction false} ProductIsBuilt(text: string, depth: nat, f: Format)
    ensures var r := ParseProduct(text, depth, f); r.Done? ==> Built(r.value)
    decreases |text|, 2
  {
    ValueIsBuilt(text, depth, f);
    var head := ParseValue(text, depth, f);
    if head.Done? { FactorsAreBuilt(head.rest, depth, f); }
  }

  lemma {:induction false} FactorsAreBuilt(text: string, depth: nat, f: Format)
    ensures var r := ParseFactors(text, depth, f); r.Done? ==> AllBuilt(r.value)
    decreases |text|, 1
  {
    var s := SkipWs(text);
    if s != "" && (s[0] == '*' || s[0] == '/') {
      ValueIsBuilt(s[1..], depth, f);
      var rhs := ParseValue(s[1..], depth, f);
      if rhs.Done? { FactorsAreBuilt(rhs.rest, depth, f); }
    }
  }

  lemma {:induction false} SumIsBuilt(text: string, depth: nat, f: Format)
    ensures var r := ParseSum(text, depth, f); r.Done? ==> Built(r.value)
    decreases |text|, 3
  {
    ProductIsBuilt(text, depth, f);
    var head := ParseProduct(text, depth, f);
    if head.Done? { TermsAreBuilt(head.rest, depth, f); }
  }

  lemma {:induction false} TermsAreBuilt(text: string, depth: nat, f: Format)
    ensures var r := ParseTerms(text, depth, f); r.Done? ==> AllBuilt(r.value)
    decreases |text|, 3
  {
    var s := SkipWs(text);
    if s != "" && (s[0] == '+' || s[0] == '-') && |s| < |text| {
      ProductIsBuilt(s[1..], depth, f);
      var rhs := ParseProduct(s[1..], depth, f);
      if rhs.Done? { TermsAreBuilt(rhs.rest, depth, f); }
    }
  }

  // ----- simplification keeps them so -----

  lemma {:induction false} FlatIsBuilt(sum: bool, ks: seq<Node>)
    requires AllBuilt(ks)
    ensures AllBuilt(Flat(sum, ks)) && |Flat(sum, ks)| >= |ks|
    decreases |ks|
  {
    if ks != [] { FlatIsBuilt(sum, ks[1..]); }
  }

  lemma {:induction false} UnlikeIsBuilt(ks: seq<Node>, unit: string)
    requires AllBuilt(ks)
    ensures AllBuilt(Unlike(ks, unit))
    decreases |ks|
  {
    if ks != [] { UnlikeIsBuilt(ks[1..], unit); }
  }

  lemma {:induction false} MergedIsBuilt(ks: seq<Node>)
    requires AllBuilt(ks)
    ensures AllBuilt(Merged(ks)) && (ks != [] ==> Merged(ks) != [])
    decreases |ks|
  {
    if ks != [] {
      if ks[0].Numeric? {
        UnlikeIsBuilt(ks[1..], ks[0].unit);
        MergedIsBuilt(Unlike(ks[1..], ks[0].unit));
      } else {
        MergedIsBuilt(ks[1..]);
      }
    }
  }

  lemma {:induction false} RestIsBuilt(ks: seq<Node>)
    requires AllBuilt(ks)
    ensures AllBuilt(Rest(ks))
    decreases |ks|
  {
    if ks != [] { RestIsBuilt(ks[1..]); }
  }

  lemma SimpleSumIsBuilt(ks: seq<Node>)
    requires AllBuilt(ks) && ks != []
    ensures Built(SimpleSum(ks))
  {
    FlatIsBuilt(true, ks);
    MergedIsBuilt(Flat(true, ks));
  }

  lemma ScaledIsBuilt(ks: seq<Node>, f: Num)
    requires AllBuilt(ks) && AllNumeric(ks)
    ensures AllBuilt(Scaled(ks, f))
  {
    hide IsFixedUnit;
    forall i | 0 <= i < |ks| ensures Built(Scaled(ks, f)[i]) { assert Built(ks[i]); }
  }

  lemma SimpleProductIsBuilt(ks: seq<Node>)
    requires AllBuilt(ks) && ks != []
    ensures Built(SimpleProduct(ks))
  {
    hide IsFixedUnit;
    FlatIsBuilt(false, ks);
    RestIsBuilt(Flat(false, ks));
    PlainUnit();
    var f, rest := Factor(Fin(1.0), Flat(false, ks)), Rest(Flat(false, ks));
    if |rest| == 1 && rest[0].Sum? && AllNumeric(rest[0].kids) { ScaledIsBuilt(rest[0].kids, f); }
    forall i | 0 <= i < |[Numeric(f, "")] + rest| ensures Built(([Numeric(f, "")] + rest)[i]) {}
  }

  lemma SimpleFuncIsBuilt(name: string, ks: seq<Node>)
    requires Built(Func(name, ks))
    ensures Built(SimpleFunc(name, ks))
  {
    hide IsFixedUnit;
    hide IsMath;
    assert BuiltArg(name, true, ks[0]);
  }

  lemma {:induction false} SimplifyKeepsBuilt(n: Node)
    requires Built(n)
    ensures Built(Simplify(n))
    decreases n
  {
    hide IsFixedUnit;
    hide IsMath;
    hide IsKeyword;
    match n
    case Numeric(_, _) =>
    case Sum(kids) =>
      forall i | 0 <= i < |kids| ensures Built(Simplify(kids[i])) { SimplifyKeepsBuilt(kids[i]); }
      SimpleSumIsBuilt(SimplifyAll(kids));
    case Product(kids) =>
      forall i | 0 <= i < |kids| ensures Built(Simplify(kids[i])) { SimplifyKeepsBuilt(kids[i]); }
      SimpleProductIsBuilt(SimplifyAll(kids));
    case Negate(kid) => SimplifyKeepsBuilt(kid);
    case Invert(kid) =>
      SimplifyKeepsBuilt(kid);
      PlainUnit();
    case Func(name, args) =>
      forall i | 0 <= i < |args| ensures BuiltArg(name, i == 0, Simplify(args[i])) {
        assert BuiltArg(name, i == 0, args[i]);
        if !args[i].Opaque? { SimplifyKeepsBuilt(args[i]); }
      }
      SimpleFuncIsBuilt(name, SimplifyAll(args));
  }

  // ----- the whole way round -----

  /** The canonical text is wrapped in a `calc()`. */
  predicate Wrapped(n: Node, keepCalc: bool) {
    !(n.Func? && (!keepCalc || IsMinMax(n.name) || n.name == "clamp"))
  }

  /** The tree the canonical text of `n` is read as. */
  function CanonicalTree(n: Node, keepCalc: bool): Node {
    if Wrapped(n, keepCalc) then Func("calc", [Reparsed(n)]) else Reparsed(n)
  }

  /** The canonical text of a printable tree is read back whole. */
  lemma CanonicalIsRead(n: Node, keepCalc: bool, f: Format)
    requires Sane(f) && Printable(n, f) && Nesting(n) < DEPTH_CAP
    ensures ParseValue(Canonical(n, keepCalc, f), 0, f) == Done(CanonicalTree(n, keepCalc), "")
  {
    hide Exact;
    hide ParseValue;
    hide ParseArgs;
    if Wrapped(n, keepCalc) {
      CalcCallIsRead(n, f);
    } else {
      ValueIsRead(n, "", 0, f);
      assert Text(n, f) + "" == Text(n, f);
    }
  }

  lemma CalcCallIsRead(n: Node, f: Format)
    requires Sane(f) && Printable(n, f) && Nesting(n) < DEPTH_CAP
    ensures ParseValue("calc(" + Stripped(Text(n, f)) + ")", 0, f) == Done(Func("calc", [Reparsed(n)]), "")
  {
    hide Exact;
    hide IsMath;
    hide IsPlain;
    hide ParseValue;
    hide ParseArgs;
    hide Stripped;
    hide Text;
    hide Printable;
    hide PrintableArg;
    hide Reparsed;
    hide ReparsedArgs;
    hide ArgsTail;
    var inner := Stripped(Text(n, f));
    CalcIsMath(n, f);
    assert [n][1..] == [];
    ArgsAreRead([n], true, "", 1, "calc", f, Nesting(n));
    ReparsedFirst([n], Nesting(n));
    TailStarts([], "", f, Nesting(n));
    CallIsRead("calc", inner, "", 0, f, [Reparsed(n)]);
    assert "calc" + "(" + inner + ")" + "" == "calc(" + inner + ")";
  }

  lemma CanonicalMeans(n: Node, keepCalc: bool, f: Format, w: World)
    requires w.unit("") == 1.0 && Printable(n, f)
    ensures Eval(CanonicalTree(n, keepCalc), w) == Eval(n, w)
  {
    hide Printable;
    hide Reparsed;
    ReparsedMeans(n, f, w);
    OneArgument([Reparsed(n)], n, w);
  }

  lemma CalcIsMath(n: Node, f: Format)
    requires Printable(n, f)
    ensures IsMath("calc") && IsPlain("calc") && PrintableArg("calc", true, n, f)
  {
    hide Exact;
    MathIsPlain("calc");
  }

  lemma OneArgument(ms: seq<Node>, n: Node, w: World)
    requires |ms| == 1 && Eval(ms[0], w) == Eval(n, w)
    ensures Eval(Func("calc", ms), w) == Eval(n, w)
  {
    assert EvalAll([n], w) == [Eval(n, w)];
  }

  lemma ExactHolds(v: real, f: Format)
    requires Exact(f, v)
    ensures NumberHolds(Fin(v), f)
  {
    hide IsFixedUnit;
    PlainUnit();
    var t := NumberText(Fin(v), f);
    assert Ends("") && f.scan(t + "" + "") == (v, |t|);
    assert t + "" + "" == t;
  }

  /** Numbers that are printed exactly do not keep the text from being returned. */
  lemma {:induction false} ExactIsKept(n: Node, f: Format)
    requires ExactNumbers(n, f)
    ensures TextHolds(n, f)
    decreases Nesting(n), 0
  {
    hide Exact;
    hide NumberHolds;
    match n
    case Numeric(value, _) => ExactHolds(value.v, f);
    case Opaque(_) =>
    case Func(_, args) => forall i | 0 <= i < |args| ensures TextHolds(args[i], f) { ExactIsKept(args[i], f); }
    case Negate(kid) => ExactIsKept(kid, f);
    case Invert(kid) => ExactIsKept(kid, f);
    case Sum(kids) =>
      forall k | k in Sorted(kids) ensures TermHolds(k, true, f) && TermHolds(k, false, f) { OperandIsKept(k, f, Deepest(kids)); }
    case Product(kids) =>
      forall k | k in Sorted(kids) ensures FactorHolds(k, true, f) && FactorHolds(k, false, f) { OperandIsKept(k, f, Deepest(kids)); }
  }

  lemma {:induction false} OperandIsKept(k: Node, f: Format, deep: nat)
    requires ExactNumbers(k, f) && Nesting(k) <= deep
    ensures forall first :: TermHolds(k, first, f) && FactorHolds(k, first, f)
    decreases deep, 1
  {
    hide Exact;
    hide NumberHolds;
    ExactIsKept(k, f);
    if k.Negate? { ExactIsKept(k.kid, f); }
    if k.Invert? { ExactIsKept(k.kid, f); }
    if k.Numeric? { ExactHolds(-k.value.v, f); }
  }

  /** From any text to its canonical text and back: accepted again, meaning what it meant. */
  lemma CanonicalKeepsMeaning(text: string, keepCalc: bool, f: Format, w: World)
    requires Sane(f) && Proper(w)
    requires var r := ParseValue(text, 0, f);
             r.Done? && Eval(r.value, w) != Undefined
             && ExactNumbers(Simplify(r.value), f) && Nesting(Simplify(r.value)) < DEPTH_CAP
    ensures var n := ParseValue(text, 0, f).value;
            var again := ParseValue(Canonical(Simplify(n), keepCalc, f), 0, f);
            again.Done? && again.rest == "" && Eval(again.value, w) == Eval(n, w)
    ensures TextHolds(Simplify(ParseValue(text, 0, f).value), f)
  {
    hide ParseValue;
    var n := ParseValue(text, 0, f).value;
    ValueIsBuilt(text, 0, f);
    SimplifyKeepsBuilt(n);
    BuiltIsPrintable(Simplify(n), f);
    CanonicalIsRead(Simplify(n), keepCalc, f);
    CanonicalMeans(Simplify(n), keepCalc, f, w);
    SimplifyKeepsMeaning(n, w);
    ExactIsKept(Simplify(n), f);
  }
}
