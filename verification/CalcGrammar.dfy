/** The concrete syntax of math functions. */
module CalcGrammar {
  import opened CalcTree
  import opened CalcText
  import opened Chars = CssSyntax

  // ----- trees of text -----

  datatype SumText = SumText(first: ProductText, more: seq<TermText>)
  datatype TermText = TermText(gap: string, minus: bool, operand: ProductText)
  datatype ProductText = ProductText(first: ValueText, more: seq<FactorText>)
  datatype FactorText = FactorText(gap: string, divide: bool, operand: ValueText)

  datatype ValueText =
    | NumberText(space: string, digits: string, unit: string, amount: real)
    | WordText(space: string, word: string)
    | GroupText(space: string, inner: SumText, gap: string)
    | CallText(space: string, word: string, args: seq<ArgText>)

  datatype ArgText = ArgText(body: OperandText, gap: string)
  datatype OperandText = KeywordText(space: string, word: string) | WholeText(sum: SumText)

  // ----- the text they stand for -----

  function ShowSum(t: SumText): string
    decreases t, 0
  {
    ShowProduct(t.first) + ShowTerms(t.more)
  }

  function ShowTerms(ts: seq<TermText>): string
    decreases ts, 0
  {
    if ts == [] then "" else ts[0].gap + (if ts[0].minus then "-" else "+") + ShowProduct(ts[0].operand) + ShowTerms(ts[1..])
  }

  function ShowProduct(t: ProductText): string
    decreases t, 0
  {
    ShowValue(t.first) + ShowFactors(t.more)
  }

  function ShowFactors(ts: seq<FactorText>): string
    decreases ts, 0
  {
    if ts == [] then "" else ts[0].gap + (if ts[0].divide then "/" else "*") + ShowValue(ts[0].operand) + ShowFactors(ts[1..])
  }

  function ShowValue(t: ValueText): string
    decreases t, 0
  {
    t.space + match t
              case NumberText(_, digits, unit, _) => digits + unit
              case WordText(_, word) => word
              case GroupText(_, inner, gap) => "(" + ShowSum(inner) + gap + ")"
              case CallText(_, word, args) => word + "(" + ShowArgs(args)
  }

  /** Arguments with the commas between them and the bracket after them. */
  function ShowArgs(ts: seq<ArgText>): string
    decreases ts, 0
  {
    if ts == [] then "" else ShowOperand(ts[0].body) + ts[0].gap + (if |ts| == 1 then ")" else "," + ShowArgs(ts[1..]))
  }

  function ShowOperand(t: OperandText): string
    decreases t, 0
  {
    match t
    case KeywordText(space, word) => space + word
    case WholeText(sum) => ShowSum(sum)
  }

  // ----- the tree they mean -----

  function SumTree(t: SumText): Node
    decreases t, 0
  {
    if t.more == [] then ProductTree(t.first) else Sum([ProductTree(t.first)] + TermTrees(t.more))
  }

  function TermTrees(ts: seq<TermText>): seq<Node>
    decreases ts, 0
  {
    if ts == [] then []
    else [if ts[0].minus then Negate(ProductTree(ts[0].operand)) else ProductTree(ts[0].operand)] + TermTrees(ts[1..])
  }

  function ProductTree(t: ProductText): Node
    decreases t, 0
  {
    if t.more == [] then ValueTree(t.first) else Product([ValueTree(t.first)] + FactorTrees(t.more))
  }

  function FactorTrees(ts: seq<FactorText>): seq<Node>
    decreases ts, 0
  {
    if ts == [] then []
    else [if ts[0].divide then Invert(ValueTree(ts[0].operand)) else ValueTree(ts[0].operand)] + FactorTrees(ts[1..])
  }

  function ValueTree(t: ValueText): Node
    decreases t, 0
  {
    match t
    case NumberText(_, _, unit, amount) =>
      var u := CanonicalUnit(Lower(unit));
      if u.Done? then Numeric(Fin(Prod(amount, u.value)), u.rest) else Opaque(unit)
    case WordText(_, word) =>
      var c := Constant(Lower(word));
      if c.Done? then Numeric(c.value, "") else Opaque(word)
    case GroupText(_, inner, _) => SumTree(inner)
    case CallText(_, word, args) => Func(Lower(word), ArgTrees(args))
  }

  function ArgTrees(ts: seq<ArgText>): seq<Node>
    decreases ts, 0
  {
    if ts == [] then [] else [OperandTree(ts[0].body)] + ArgTrees(ts[1..])
  }

  function OperandTree(t: OperandText): Node
    decreases t, 0
  {
    match t
    case KeywordText(_, word) => Opaque(Lower(word))
    case WholeText(sum) => SumTree(sum)
  }

  // ----- which of them are well formed, given the text behind them -----

  predicate AllWs(s: string) {
    forall i :: 0 <= i < |s| ==> IsWs(s[i])
  }

  predicate IsWord(s: string) {
    s != "" && forall i :: 0 <= i < |s| ==> IsName(s[i])
  }

  /** A word ends where no character of a word follows. */
  predicate WordEnds(follow: string) {
    follow == "" || !IsName(follow[0])
  }

  predicate Opens(follow: string) {
    follow != "" && follow[0] == '('
  }

  /** An operator of a product comes next. */
  predicate FactorAhead(s: string) {
    exists k :: 0 <= k < |s| && AllWs(s[..k]) && (s[k] == '*' || s[k] == '/')
  }

  /** An operator of a sum comes next: it has white space on both sides. */
  predicate TermAhead(s: string) {
    exists k :: 1 <= k < |s| - 1 && AllWs(s[..k]) && (s[k] == '+' || s[k] == '-') && IsWs(s[k + 1])
  }

  /** A strategy in front of the arguments of round(), or a bound left open in clamp(). */
  predicate TakesWord(name: string, first: bool, word: string) {
    if name == "round" then first && (word == "nearest" || word == "up" || word == "down" || word == "to-zero")
    else name == "clamp" && word == "none"
  }

  /** How deep brackets and functions go. */
  const LEVELS := 32

  predicate UnitFits(unit: string, follow: string) {
    CanonicalUnit(Lower(unit)).Done? &&
    if unit == "%" then true
    else (unit == "" || IsWord(unit)) && WordEnds(follow) && (unit == "" ==> follow == "" || follow[0] != '%')
  }

  predicate ValueFits(t: ValueText, depth: nat, follow: string, f: Format)
    decreases t, 0
  {
    && AllWs(t.space) && depth <= LEVELS
    && match t
       case NumberText(_, digits, unit, amount) =>
         && digits != "" && NumberAhead(digits + unit + follow)
         && f.scan(digits + unit + follow) == (amount, |digits|) && UnitFits(unit, follow)
       case WordText(_, word) => IsWord(word) && WordEnds(follow) && !Opens(follow) && Constant(Lower(word)).Done?
       case GroupText(_, inner, gap) => AllWs(gap) && SumFits(inner, depth + 1, gap + ")" + follow, f)
       case CallText(_, word, args) =>
         IsWord(word) && IsMath(Lower(word)) && args != [] && ArgsFit(args, depth + 1, Lower(word), true, follow, f)
  }

  predicate ArgsFit(ts: seq<ArgText>, depth: nat, name: string, first: bool, follow: string, f: Format)
    decreases ts, 0
  {
    ts == [] ||
    var behind := ts[0].gap + (if |ts| == 1 then ")" + follow else "," + ShowArgs(ts[1..]) + follow);
    && AllWs(ts[0].gap) && OperandFits(ts[0].body, depth, name, first, behind, f)
    && ArgsFit(ts[1..], depth, name, false, follow, f)
  }

  predicate OperandFits(t: OperandText, depth: nat, name: string, first: bool, follow: string, f: Format)
    decreases t, 0
  {
    match t
    case KeywordText(space, word) => AllWs(space) && IsWord(word) && WordEnds(follow) && TakesWord(name, first, Lower(word))
    case WholeText(sum) => SumFits(sum, depth, follow, f)
  }

  predicate ProductFits(t: ProductText, depth: nat, follow: string, f: Format)
    decreases t, 0
  {
    ValueFits(t.first, depth, ShowFactors(t.more) + follow, f) && FactorsFit(t.more, depth, follow, f)
  }

  predicate FactorsFit(ts: seq<FactorText>, depth: nat, follow: string, f: Format)
    decreases ts, 0
  {
    if ts == [] then !FactorAhead(follow)
    else
      && AllWs(ts[0].gap) && ValueFits(ts[0].operand, depth, ShowFactors(ts[1..]) + follow, f)
      && FactorsFit(ts[1..], depth, follow, f)
  }

  predicate SumFits(t: SumText, depth: nat, follow: string, f: Format)
    decreases t, 0
  {
    ProductFits(t.first, depth, ShowTerms(t.more) + follow, f) && TermsFit(t.more, depth, follow, f)
  }

  predicate TermsFit(ts: seq<TermText>, depth: nat, follow: string, f: Format)
    decreases ts, 0
  {
    if ts == [] then !TermAhead(follow)
    else
      && ts[0].gap != "" && AllWs(ts[0].gap)
      && ShowProduct(ts[0].operand) != "" && IsWs(ShowProduct(ts[0].operand)[0])
      && ProductFits(ts[0].operand, depth, ShowTerms(ts[1..]) + follow, f)
      && TermsFit(ts[1..], depth, follow, f)
  }
}
