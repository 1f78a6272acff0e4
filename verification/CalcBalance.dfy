/** Printed text closes its brackets. */
module CalcBalance {
  import opened Options
  import opened CalcTree
  import opened CalcText
  import opened CalcPrint
  import opened CalcSteps
  import opened CalcRoundTrip

  predicate IsPlainChar(c: char) { c != '(' && c != ')' && !IsQuote(c) }

  predicate AllPlain(s: string) { forall i :: 0 <= i < |s| ==> IsPlainChar(s[i]) }

  /** Numbers are spelled without brackets and quotes. */
  ghost predicate PlainSpelling(f: Format) {
    forall v: real :: AllPlain(f.spell(v))
  }

  function Later(at: Option<nat>, n: nat): Option<nat> {
    if at.None? then None else Some(at.value + n)
  }

  /** Scanning goes through `s` and comes out as deep as it went in. */
  ghost predicate Passes(s: string) {
    forall rest: string, depth: int :: depth >= 1 ==> ClosingAt(s + rest, depth) == Later(ClosingAt(rest, depth), |s|)
  }

  lemma {:induction false} PlainStep(s: string, rest: string, depth: int)
    requires AllPlain(s)
    ensures ClosingAt(s + rest, depth) == Later(ClosingAt(rest, depth), |s|)
    decreases |s|
  {
    if s == "" {
      assert s + rest == rest;
    } else {
      assert (s + rest)[1..] == s[1..] + rest && (s + rest)[0] == s[0];
      PlainStep(s[1..], rest, depth);
    }
  }

  lemma PlainPasses(s: string)
    requires AllPlain(s)
    ensures Passes(s)
  {
    forall rest: string, depth: int | depth >= 1 ensures ClosingAt(s + rest, depth) == Later(ClosingAt(rest, depth), |s|) {
      PlainStep(s, rest, depth);
    }
  }

  lemma Passing(s: string, rest: string, depth: int)
    requires Passes(s) && depth >= 1
    ensures ClosingAt(s + rest, depth) == Later(ClosingAt(rest, depth), |s|)
  {}

  lemma BothPass(a: string, b: string)
    requires Passes(a) && Passes(b)
    ensures Passes(a + b)
  {
    hide ClosingAt;
    forall rest: string, depth: int | depth >= 1
      ensures ClosingAt(a + b + rest, depth) == Later(ClosingAt(rest, depth), |a + b|)
    {
      hide Passes;
      assert a + b + rest == a + (b + rest);
      Passing(a, b + rest, depth);
      Passing(b, rest, depth);
    }
  }

  lemma BracketStep(s: string, rest: string, depth: int)
    requires Passes(s) && depth >= 0
    ensures ClosingAt("(" + s + (")" + rest), depth) ==
            if depth == 0 then Some(|s| + 1) else Later(ClosingAt(rest, depth), |s| + 2)
  {
    hide ClosingAt;
    hide Passes;
    var t := s + (")" + rest);
    assert "(" + s + (")" + rest) == "(" + t;
    OpenStep(t, depth);
    Passing(s, ")" + rest, depth + 1);
    CloseStep(rest, depth + 1);
  }

  lemma OpenStep(t: string, depth: int)
    ensures ClosingAt("(" + t, depth) == Later(ClosingAt(t, depth + 1), 1)
  {
    assert ("(" + t)[1..] == t;
  }

  lemma CloseStep(rest: string, depth: int)
    ensures ClosingAt(")" + rest, depth) == if depth == 1 then Some(0) else Later(ClosingAt(rest, depth - 1), 1)
  {
    assert (")" + rest)[1..] == rest;
  }

  lemma BracketsPass(s: string)
    requires Passes(s)
    ensures Passes("(" + s + ")")
  {
    hide ClosingAt;
    forall rest: string, depth: int | depth >= 1
      ensures ClosingAt("(" + s + ")" + rest, depth) == Later(ClosingAt(rest, depth), |"(" + s + ")"|)
    {
      assert "(" + s + ")" + rest == "(" + s + (")" + rest);
      BracketStep(s, rest, depth);
    }
  }

  // ----- what is printed passes -----

  lemma NameIsPlain(word: string)
    requires IsPlain(word)
    ensures AllPlain(word)
  {}

  lemma NumberPasses(v: real, unit: string, f: Format)
    requires PlainSpelling(f) && IsFixedUnit(unit)
    ensures Passes(NumericText(Fin(v), unit, f))
  {
    hide IsFixedUnit;
    hide Passes;
    UnitIsPlain(unit);
    assert AllPlain("0") && AllPlain(f.spell(v));
    PlainPasses(NumberText(Fin(v), f) + unit);
  }

  lemma UnitIsPlain(unit: string)
    requires IsFixedUnit(unit)
    ensures AllPlain(unit)
  {
    hide CanonicalUnit;
    if unit != "%" { NameIsPlain(unit); }
  }

  lemma {:induction false} TextPasses(n: Node, f: Format)
    requires Printable(n, f) && PlainSpelling(f)
    ensures Passes(Text(n, f)) && Passes(Inside(n, f))
    decreases Nesting(n), 1, 0
  {
    hide Exact;
    hide IsMath;
    hide IsFixedUnit;
    hide Passes;
    hide PlainSpelling;
    match n
    case Numeric(value, unit) => NumberPasses(value.v, unit, f);
    case Func(name, args) => CallPasses(n, f);
    case _ =>
      hide Printable;
      InsidePasses(n, f);
      BracketsInside(n, f);
      BracketsPass(Inside(n, f));
  }

  lemma {:induction false} CallPasses(n: Node, f: Format)
    requires Printable(n, f) && PlainSpelling(f) && n.Func?
    ensures Passes(Text(n, f))
    decreases Nesting(n), 0, 0
  {
    hide Exact;
    hide IsMath;
    hide IsPlain;
    hide Passes;
    hide ArgsText;
    MathIsPlain(n.name);
    NameIsPlain(n.name);
    PlainPasses(n.name);
    var inner := ArgsText(n.args, true, f, Deepest(n.args));
    ArgsPass(n.name, n.args, true, f, Deepest(n.args));
    BracketsPass(inner);
    BothPass(n.name, "(" + inner + ")");
    assert n.name + "(" + inner + ")" == n.name + ("(" + inner + ")");
  }

  lemma {:induction false} InsidePasses(n: Node, f: Format)
    requires Printable(n, f) && PlainSpelling(f) && Bracketed(n)
    ensures Passes(Inside(n, f))
    decreases Nesting(n), 0, 0
  {
    hide Exact;
    hide Passes;
    hide PlainSpelling;
    hide Sorted;
    match n
    case Negate(kid) =>
      TextPasses(kid, f);
      PlainPasses("-1 * ");
      BothPass("-1 * ", Text(kid, f));
    case Invert(kid) =>
      TextPasses(kid, f);
      PlainPasses("1 / ");
      BothPass("1 / ", Text(kid, f));
    case Sum(kids) => TermsPass(Sorted(kids), true, f, Deepest(kids));
    case Product(kids) => FactorsPass(Sorted(kids), true, f, Deepest(kids));
  }

  lemma {:induction false} TermsPass(ks: seq<Node>, first: bool, f: Format, deep: nat)
    requires AllPrintable(ks, f, deep) && PlainSpelling(f)
    ensures Passes(TermsText(ks, first, f, deep))
    decreases deep, 2, |ks|
  {
    hide Printable;
    hide Passes;
    hide PlainSpelling;
    hide Text;
    hide TermText;
    if ks == [] {
      PlainPasses("");
    } else {
      OneTermPasses(ks[0], first, f, deep);
      TermsPass(ks[1..], false, f, deep);
      BothPass(TermText(ks[0], first, f), TermsText(ks[1..], false, f, deep));
    }
  }

  lemma {:induction false} OneTermPasses(k: Node, first: bool, f: Format, deep: nat)
    requires Printable(k, f) && PlainSpelling(f) && Nesting(k) <= deep
    ensures Passes(TermText(k, first, f))
    decreases deep, 2, 0
  {
    hide Printable;
    hide Passes;
    hide PlainSpelling;
    hide Text;
    if first {
      TextPasses(k, f);
      assert "" + Text(k, f) == Text(k, f);
    } else {
      hide TermText;
      var (minus, n) := Operand(k);
      OperandPrints(k, f);
      TextPasses(n, f);
      PlainPasses(if minus then " - " else " + ");
      BothPass(if minus then " - " else " + ", Text(n, f));
    }
  }

  lemma {:induction false} FactorsPass(ks: seq<Node>, first: bool, f: Format, deep: nat)
    requires AllPrintable(ks, f, deep) && PlainSpelling(f)
    ensures Passes(FactorsText(ks, first, f, deep))
    decreases deep, 2, |ks|
  {
    hide Printable;
    hide Passes;
    hide PlainSpelling;
    hide Text;
    hide FactorText;
    if ks == [] {
      PlainPasses("");
    } else {
      OneFactorPasses(ks[0], first, f, deep);
      FactorsPass(ks[1..], false, f, deep);
      BothPass(FactorText(ks[0], first, f), FactorsText(ks[1..], false, f, deep));
    }
  }

  lemma {:induction false} OneFactorPasses(k: Node, first: bool, f: Format, deep: nat)
    requires Printable(k, f) && PlainSpelling(f) && Nesting(k) <= deep
    ensures Passes(FactorText(k, first, f))
    decreases deep, 2, 0
  {
    hide Exact;
    hide Passes;
    hide PlainSpelling;
    hide Text;
    var operator := if first then "" else if k.Invert? then " / " else " * ";
    var n := if first then k else Divisor(k);
    TextPasses(n, f);
    PlainPasses(operator);
    BothPass(operator, Text(n, f));
  }

  lemma {:induction false} ArgsPass(name: string, ks: seq<Node>, first: bool, f: Format, deep: nat)
    requires AllArgs(name, first, ks, f, deep) && PlainSpelling(f)
    ensures Passes(ArgsText(ks, first, f, deep))
    decreases deep, 2, |ks|
  {
    hide PrintableArg;
    hide Passes;
    hide PlainSpelling;
    hide Text;
    hide Stripped;
    if ks == [] {
      PlainPasses("");
    } else {
      var comma, arg := if first then "" else ", ", Stripped(Text(ks[0], f));
      OneArgPasses(name, first, ks[0], f, deep);
      ArgsPass(name, ks[1..], false, f, deep);
      PlainPasses(comma);
      BothPass(comma, arg);
      BothPass(comma + arg, ArgsText(ks[1..], false, f, deep));
    }
  }

  lemma {:induction false} OneArgPasses(name: string, first: bool, k: Node, f: Format, deep: nat)
    requires PrintableArg(name, first, k, f) && PlainSpelling(f) && Nesting(k) <= deep
    ensures Passes(Stripped(Text(k, f)))
    decreases deep, 2, 0
  {
    hide Exact;
    hide IsKeyword;
    hide IsPlain;
    hide Passes;
    hide PlainSpelling;
    hide Printable;
    if k.Opaque? {
      ArgLeads(k, first, "", name, f);
      NameIsPlain(k.text);
      PlainPasses(k.text);
    } else {
      hide Text;
      hide Stripped;
      StrippedIsInside(k, f);
      TextPasses(k, f);
    }
  }

  /** A call closes where it ends. */
  lemma CallCloses(inner: string)
    requires Passes(inner)
    ensures ClosingAt("(" + inner + ")", 0) == Some(|inner| + 1)
  {
    BracketStep(inner, "", 0);
    assert ")" + "" == ")";
  }
}
