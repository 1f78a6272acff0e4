/** Printing a calc() tree: the canonical order of operands, and the text. */
module CalcPrint {
  import opened CalcTree
  import opened CalcText
  import opened Options
  import opened Chars = CssSyntax

  // ----- canonical order -----

  function Rank(n: Node): nat {
    if !n.Numeric? then 3 else if n.unit == "" then 0 else if n.unit == "%" then 1 else 2
  }

  function Ranked(ks: seq<Node>, rank: nat): (r: seq<Node>)
    ensures forall n :: n in r <==> n in ks && Rank(n) == rank
  {
    if ks == [] then [] else (if Rank(ks[0]) == rank then [ks[0]] else []) + Ranked(ks[1..], rank)
  }

  /** `a` comes no later than `b` in the order of their lower-cased characters. */
  predicate NoLater(a: string, b: string) {
    if a == "" then true
    else if b == "" then false
    else if LowerChar(a[0]) != LowerChar(b[0]) then LowerChar(a[0]) < LowerChar(b[0])
    else NoLater(a[1..], b[1..])
  }

  /** `n` placed behind the last of `ks` whose unit comes no later. */
  function InsertByUnit(ks: seq<Node>, n: Node): (r: seq<Node>)
    requires AllNumeric(ks) && n.Numeric?
    ensures AllNumeric(r) && forall x :: x in r <==> x in ks || x == n
  {
    if ks == [] || NoLater(ks[|ks| - 1].unit, n.unit) then ks + [n]
    else InsertByUnit(ks[..|ks| - 1], n) + [ks[|ks| - 1]]
  }

  function ByUnit(ks: seq<Node>): (r: seq<Node>)
    requires AllNumeric(ks)
    ensures AllNumeric(r) && forall x :: x in r <==> x in ks
  {
    if ks == [] then [] else InsertByUnit(ByUnit(ks[..|ks| - 1]), ks[|ks| - 1])
  }

  function Sorted(ks: seq<Node>): (r: seq<Node>)
    ensures forall x :: x in r <==> x in ks
  {
    assert forall i :: 0 <= i < |Ranked(ks, 2)| ==> Ranked(ks, 2)[i] in Ranked(ks, 2);
    Ranked(ks, 0) + Ranked(ks, 1) + ByUnit(Ranked(ks, 2)) + Ranked(ks, 3)
  }

  // ----- text -----

  function NumberText(v: Num, f: Format): string {
    match v
    case NaN => "NaN"
    case Inf(negative) => if negative then "-infinity" else "infinity"
    case Fin(r) => if r == 0.0 then "0" else f.spell(r)
  }

  function NumericText(v: Num, unit: string, f: Format): string {
    if !v.Fin? && unit != "" then NumberText(v, f) + " * 1" + unit
    else NumberText(v, f) + unit
  }

  /** How many brackets deep a node's own text goes. */
  function Nesting(n: Node): nat
    decreases n, 1
  {
    match n
    case Numeric(_, _) => 0
    case Opaque(_) => 0
    case Sum(kids) => 1 + Deepest(kids)
    case Product(kids) => 1 + Deepest(kids)
    case Negate(kid) => 1 + Nesting(kid)
    case Invert(kid) => 1 + Nesting(kid)
    case Func(_, args) => 1 + Deepest(args)
  }

  function Deepest(ks: seq<Node>): (d: nat)
    ensures forall n :: n in ks ==> Nesting(n) <= d
    decreases ks, 0
  {
    if ks == [] then 0
    else if Nesting(ks[0]) > Deepest(ks[1..]) then Nesting(ks[0]) else Deepest(ks[1..])
  }

  /** One pair of outer brackets less. */
  function Stripped(s: string): string {
    if |s| >= 2 && s[0] == '(' && s[|s| - 1] == ')' then s[1..|s| - 1] else s
  }

  function Text(n: Node, f: Format): string
    decreases Nesting(n), 0, 0
  {
    match n
    case Numeric(value, unit) => NumericText(value, unit, f)
    case Opaque(text) => text
    case Func(name, args) => name + "(" + ArgsText(args, true, f, Deepest(args)) + ")"
    case Negate(kid) => "(-1 * " + Text(kid, f) + ")"
    case Invert(kid) => "(1 / " + Text(kid, f) + ")"
    case Sum(kids) => "(" + TermsText(Sorted(kids), true, f, Deepest(kids)) + ")"
    case Product(kids) => "(" + FactorsText(Sorted(kids), true, f, Deepest(kids)) + ")"
  }

  function ArgsText(ks: seq<Node>, first: bool, f: Format, deep: nat): string
    requires forall n :: n in ks ==> Nesting(n) <= deep
    decreases deep, |ks|, 1
  {
    if ks == [] then ""
    else (if first then "" else ", ") + Stripped(Text(ks[0], f)) + ArgsText(ks[1..], false, f, deep)
  }

  predicate IsNegative(n: Node) { n.Numeric? && Sign(n.value) < 0 }

  function TermText(n: Node, first: bool, f: Format): string
    decreases Nesting(n), 1, 0
  {
    if !first && n.Negate? then " - " + Text(n.kid, f)
    else if !first && IsNegative(n) then " - " + NumericText(Neg(n.value), n.unit, f)
    else (if first then "" else " + ") + Text(n, f)
  }

  function TermsText(ks: seq<Node>, first: bool, f: Format, deep: nat): string
    requires forall n :: n in ks ==> Nesting(n) <= deep
    decreases deep, |ks|, 1
  {
    if ks == [] then "" else TermText(ks[0], first, f) + TermsText(ks[1..], false, f, deep)
  }

  function FactorText(n: Node, first: bool, f: Format): string
    decreases Nesting(n), 1, 0
  {
    if !first && n.Invert? then " / " + Text(n.kid, f)
    else (if first then "" else " * ") + Text(n, f)
  }

  function FactorsText(ks: seq<Node>, first: bool, f: Format, deep: nat): string
    requires forall n :: n in ks ==> Nesting(n) <= deep
    decreases deep, |ks|, 1
  {
    if ks == [] then "" else FactorText(ks[0], first, f) + FactorsText(ks[1..], false, f, deep)
  }

  // ----- numbers that survive printing -----

  function Distance(a: real, b: real): real { if a < b then b - a else a - b }

  /** The number is read back to within a part in 10^9. */
  predicate NumberHolds(v: Num, f: Format) {
    v.Fin? && v.v != 0.0 ==> Distance(f.scan(f.spell(v.v)).0, v.v) <= Distance(v.v, 0.0) * 0.000000001
  }

  /** Every number printed for `n` holds. */
  predicate TextHolds(n: Node, f: Format)
    decreases Nesting(n), 0
  {
    match n
    case Numeric(value, _) => NumberHolds(value, f)
    case Opaque(_) => true
    case Func(_, args) => forall i :: 0 <= i < |args| ==> TextHolds(args[i], f)
    case Negate(kid) => TextHolds(kid, f)
    case Invert(kid) => TextHolds(kid, f)
    case Sum(kids) => var s := Sorted(kids); forall i :: 0 <= i < |s| ==> TermHolds(s[i], i == 0, f)
    case Product(kids) => var s := Sorted(kids); forall i :: 0 <= i < |s| ==> FactorHolds(s[i], i == 0, f)
  }

  predicate TermHolds(n: Node, first: bool, f: Format)
    decreases Nesting(n), 1
  {
    if !first && n.Negate? then TextHolds(n.kid, f)
    else if !first && IsNegative(n) then NumberHolds(Neg(n.value), f)
    else TextHolds(n, f)
  }

  predicate FactorHolds(n: Node, first: bool, f: Format)
    decreases Nesting(n), 1
  {
    if !first && n.Invert? then TextHolds(n.kid, f) else TextHolds(n, f)
  }

  /** The text of a whole simplified value. */
  function Canonical(root: Node, keepCalc: bool, f: Format): string {
    if root.Func? && (!keepCalc || IsMinMax(root.name) || root.name == "clamp") then Text(root, f)
    else "calc(" + Stripped(Text(root, f)) + ")"
  }

  /** A math function's text in canonical form, if it parses, has a type, and prints without loss. */
  function CanonicalText(text: string, keepCalc: bool, f: Format): Option<string> {
    var root := ParseValue(text, 0, f);
    if root.Fail? || SkipWs(root.rest) != "" || !Typed(root.value) || !TextHolds(Simplify(root.value), f) then None
    else Some(Canonical(Simplify(root.value), keepCalc, f))
  }

  // ----- a whole value -----

  function TrimEnd(s: string): (r: string)
    ensures |r| <= |s|
  {
    if s != "" && IsWs(s[|s| - 1]) then TrimEnd(s[..|s| - 1]) else s
  }

  function Trimmed(s: string): string { TrimEnd(SkipWs(s)) }

  predicate IsQuote(c: char) { c == '"' || c == '\'' }

  function Deeper(c: char, depth: int): int {
    if c == '(' then depth + 1 else if c == ')' then depth - 1 else depth
  }

  /** Where the outermost of `depth` open brackets is closed; nowhere behind a quote. */
  function ClosingAt(s: string, depth: int): (at: Option<nat>)
    ensures at.Some? ==> at.value < |s|
  {
    if s == "" || IsQuote(s[0]) then None
    else if s[0] == ')' && depth == 1 then Some(0)
    else
      var rest := ClosingAt(s[1..], Deeper(s[0], depth));
      if rest.None? then None else Some(1 + rest.value)
  }

  predicate IsComparison(name: string) { IsMinMax(name) || name == "clamp" }

  /** The text is one call of calc() or a comparison; the function decides whether a `calc()` is kept
      around the result. */
  function ValueCanonical(text: string, f: Format): Option<string> {
    var s := Trimmed(text);
    var n, word := IdentLength(s), WordAhead(s);
    if n == 0 || n == |s| || s[n] != '(' || !(word == "calc" || IsComparison(word)) then None
    else if ClosingAt(s[n..], 0) != Some(|s| - n - 1) then None
    else CanonicalText(s, word == "calc", f)
  }
}
