/** calc() trees, what they mean, and what simplification makes of them. */
module CalcTree {

  /** A double without its rounding and without the sign of zero. */
  datatype Num = Fin(v: real) | Inf(negative: bool) | NaN

  datatype Node =
    | Numeric(value: Num, unit: string)
    | Sum(kids: seq<Node>)
    | Product(kids: seq<Node>)
    | Negate(kid: Node)
    | Invert(kid: Node)
    | Func(name: string, args: seq<Node>)
    | Opaque(text: string)

  // ----- arithmetic -----

  /** Real multiplication, by name. */
  function Prod(a: real, b: real): real { a * b }

  function Add(a: Num, b: Num): Num {
    if a.NaN? || b.NaN? then NaN
    else if a.Inf? then (if b.Inf? && b.negative != a.negative then NaN else a)
    else if b.Inf? then b
    else Fin(a.v + b.v)
  }

  function Sign(a: Num): int {
    match a
    case NaN => 0
    case Inf(negative) => if negative then -1 else 1
    case Fin(v) => if v < 0.0 then -1 else if v > 0.0 then 1 else 0
  }

  function Mul(a: Num, b: Num): Num {
    if a.Fin? && b.Fin? then Fin(Prod(a.v, b.v))
    else if a.NaN? || b.NaN? || Sign(a) == 0 || Sign(b) == 0 then NaN
    else Inf(Sign(a) != Sign(b))
  }

  function Neg(a: Num): Num {
    match a
    case NaN => NaN
    case Inf(negative) => Inf(!negative)
    case Fin(v) => Fin(-v)
  }

  function Inverse(a: Num): Num {
    match a
    case NaN => NaN
    case Inf(_) => Fin(0.0)
    case Fin(v) => if v == 0.0 then Inf(false) else Fin(1.0 / v)
  }

  function Magnitude(a: Num): Num {
    if Sign(a) < 0 then Neg(a) else a
  }

  predicate Less(a: Num, b: Num) {
    && !a.NaN? && !b.NaN? && a != b
    && (a == Inf(true) || b == Inf(false) || (a.Fin? && b.Fin? && a.v < b.v))
  }

  predicate IsNumber(n: Node) { n.Numeric? && n.unit == "" }

  // ----- meaning -----

  datatype Meaning = Amount(v: real) | Word(text: string) | Undefined

  /** What each unit stands for, and what the functions left alone by simplification do. */
  datatype World = World(unit: string -> real, other: (string, seq<Meaning>) -> Meaning)

  /** Plain numbers count as themselves, and only percentages may stand for a negative amount. */
  ghost predicate Proper(w: World) {
    w.unit("") == 1.0 && forall u: string :: u != "%" ==> w.unit(u) >= 0.0
  }

  function Plus(a: Meaning, b: Meaning): Meaning {
    if a.Amount? && b.Amount? then Amount(a.v + b.v) else Undefined
  }

  function Times(a: Meaning, b: Meaning): Meaning {
    if a.Amount? && b.Amount? then Amount(Prod(a.v, b.v)) else Undefined
  }

  function Total(ms: seq<Meaning>): Meaning {
    if ms == [] then Amount(0.0) else Plus(ms[0], Total(ms[1..]))
  }

  function Multiple(ms: seq<Meaning>): Meaning {
    if ms == [] then Amount(1.0) else Times(ms[0], Multiple(ms[1..]))
  }

  predicate AllAmounts(ms: seq<Meaning>) {
    forall i :: 0 <= i < |ms| ==> ms[i].Amount?
  }

  function Extreme(least: bool, ms: seq<Meaning>): real
    requires ms != [] && AllAmounts(ms)
  {
    if |ms| == 1 then ms[0].v
    else
      var r := Extreme(least, ms[1..]);
      if least == (ms[0].v < r) then ms[0].v else r
  }

  predicate IsMinMax(name: string) { name == "min" || name == "max" }

  function Applied(name: string, ms: seq<Meaning>, w: World): Meaning {
    if Undefined in ms then Undefined
    else if (name == "calc" || IsMinMax(name)) && |ms| == 1 then ms[0]
    else if IsMinMax(name) && ms != [] && AllAmounts(ms) then Amount(Extreme(name == "min", ms))
    else if name == "abs" && |ms| == 1 && ms[0].Amount? then Amount(if ms[0].v < 0.0 then -ms[0].v else ms[0].v)
    else w.other(name, ms)
  }

  function Eval(n: Node, w: World): Meaning
    decreases n, 1
  {
    match n
    case Numeric(value, unit) => if value.Fin? then Amount(Prod(value.v, w.unit(unit))) else Undefined
    case Sum(kids) => Total(EvalAll(kids, w))
    case Product(kids) => Multiple(EvalAll(kids, w))
    case Negate(kid) => var m := Eval(kid, w); if m.Amount? then Amount(-m.v) else Undefined
    case Invert(kid) => var m := Eval(kid, w); if m.Amount? && m.v != 0.0 then Amount(1.0 / m.v) else Undefined
    case Func(name, args) => Applied(name, EvalAll(args, w), w)
    case Opaque(text) => Word(text)
  }

  function EvalAll(ks: seq<Node>, w: World): (ms: seq<Meaning>)
    ensures |ms| == |ks|
    ensures forall i :: 0 <= i < |ks| ==> ms[i] == Eval(ks[i], w)
    decreases ks, 0
  {
    if ks == [] then [] else [Eval(ks[0], w)] + EvalAll(ks[1..], w)
  }

  // ----- simplification -----

  /** `ks` with the children of every sum (or every product) among them put in its place. */
  function Flat(sum: bool, ks: seq<Node>): seq<Node> {
    if ks == [] then []
    else (if (if sum then ks[0].Sum? else ks[0].Product?) then ks[0].kids else [ks[0]]) + Flat(sum, ks[1..])
  }

  predicate Like(n: Node, unit: string) { n.Numeric? && n.unit == unit }

  /** `value` with every numeric of `ks` of this unit added, from left to right. */
  function Absorb(value: Num, ks: seq<Node>, unit: string): Num
    decreases |ks|
  {
    if ks == [] then value
    else Absorb(if Like(ks[0], unit) then Add(value, ks[0].value) else value, ks[1..], unit)
  }

  function Unlike(ks: seq<Node>, unit: string): (r: seq<Node>)
    ensures |r| <= |ks|
  {
    if ks == [] then [] else (if Like(ks[0], unit) then [] else [ks[0]]) + Unlike(ks[1..], unit)
  }

  /** One numeric per unit, where the first of them stood. */
  function Merged(ks: seq<Node>): seq<Node>
    decreases |ks|
  {
    if ks == [] then []
    else if ks[0].Numeric? then
      [Numeric(Absorb(ks[0].value, ks[1..], ks[0].unit), ks[0].unit)] + Merged(Unlike(ks[1..], ks[0].unit))
    else [ks[0]] + Merged(ks[1..])
  }

  /** A sum of plain numbers with dimensions or percentages has no type. */
  predicate Mixed(ks: seq<Node>) {
    (exists i :: 0 <= i < |ks| && IsNumber(ks[i])) && exists i :: 0 <= i < |ks| && ks[i].Numeric? && ks[i].unit != ""
  }

  function SimpleSum(ks: seq<Node>): Node {
    var m := Merged(Flat(true, ks));
    if |m| == 1 then m[0] else Sum(m)
  }

  function Factor(f: Num, ks: seq<Node>): Num
    decreases |ks|
  {
    if ks == [] then f else Factor(if IsNumber(ks[0]) then Mul(f, ks[0].value) else f, ks[1..])
  }

  function Rest(ks: seq<Node>): (r: seq<Node>)
    ensures |r| <= |ks|
  {
    if ks == [] then [] else (if IsNumber(ks[0]) then [] else [ks[0]]) + Rest(ks[1..])
  }

  predicate AllNumeric(ks: seq<Node>) {
    forall i :: 0 <= i < |ks| ==> ks[i].Numeric?
  }

  function Scaled(ks: seq<Node>, f: Num): seq<Node>
    requires AllNumeric(ks)
  {
    seq(|ks|, i requires 0 <= i < |ks| => Numeric(Mul(ks[i].value, f), ks[i].unit))
  }

  function SimpleProduct(ks: seq<Node>): Node {
    var flat := Flat(false, ks);
    var f, rest := Factor(Fin(1.0), flat), Rest(flat);
    if rest == [] then Numeric(f, "")
    else if |rest| == 1 && rest[0].Numeric? then Numeric(Mul(rest[0].value, f), rest[0].unit)
    else if |rest| == 1 && rest[0].Sum? && AllNumeric(rest[0].kids) then Sum(Scaled(rest[0].kids, f))
    else if |rest| == 1 && (|rest| == |flat| || f == Fin(1.0)) then rest[0]
    else if |rest| < |flat| && f != Fin(1.0) then Product([Numeric(f, "")] + rest)
    else Product(rest)
  }

  predicate SameUnit(ks: seq<Node>) {
    && ks != [] && AllNumeric(ks)
    && ks[0].unit != "%" && forall i :: 0 <= i < |ks| ==> ks[i].unit == ks[0].unit
  }

  /** The least (or greatest) value, NaN if any is. */
  function Pick(least: bool, best: Num, ks: seq<Node>): Num
    requires AllNumeric(ks)
    decreases |ks|
  {
    if ks == [] then best
    else
      var v := ks[0].value;
      if v.NaN? || best.NaN? then NaN
      else Pick(least, if (if least then Less(v, best) else Less(best, v)) then v else best, ks[1..])
  }

  function SimpleFunc(name: string, ks: seq<Node>): Node {
    if (name == "calc" || IsMinMax(name)) && |ks| == 1 then ks[0]
    else if IsMinMax(name) && SameUnit(ks) then Numeric(Pick(name == "min", ks[0].value, ks[1..]), ks[0].unit)
    else if name == "abs" && |ks| == 1 && ks[0].Numeric? && ks[0].unit != "%" then
      Numeric(Magnitude(ks[0].value), ks[0].unit)
    else Func(name, ks)
  }

  function SimpleNegate(k: Node): Node {
    if k.Numeric? then Numeric(Neg(k.value), k.unit) else if k.Negate? then k.kid else Negate(k)
  }

  function SimpleInvert(k: Node): Node {
    if IsNumber(k) then Numeric(Inverse(k.value), "") else if k.Invert? then k.kid else Invert(k)
  }

  function Simplify(n: Node): Node
    decreases n, 1
  {
    match n
    case Numeric(_, _) => n
    case Opaque(_) => n
    case Sum(kids) => SimpleSum(SimplifyAll(kids))
    case Product(kids) => SimpleProduct(SimplifyAll(kids))
    case Negate(kid) => SimpleNegate(Simplify(kid))
    case Invert(kid) => SimpleInvert(Simplify(kid))
    case Func(name, args) => SimpleFunc(name, SimplifyAll(args))
  }

  function SimplifyAll(ks: seq<Node>): (r: seq<Node>)
    ensures |r| == |ks|
    ensures forall i :: 0 <= i < |ks| ==> r[i] == Simplify(ks[i])
    decreases ks, 0
  {
    if ks == [] then [] else [Simplify(ks[0])] + SimplifyAll(ks[1..])
  }

  /** No sum met on the way mixes plain numbers with anything else. */
  predicate Typed(n: Node)
    decreases n
  {
    match n
    case Numeric(_, _) => true
    case Opaque(_) => true
    case Sum(kids) => (forall i :: 0 <= i < |kids| ==> Typed(kids[i])) && !Mixed(Merged(Flat(true, SimplifyAll(kids))))
    case Product(kids) => forall i :: 0 <= i < |kids| ==> Typed(kids[i])
    case Negate(kid) => Typed(kid)
    case Invert(kid) => Typed(kid)
    case Func(name, args) => forall i :: 0 <= i < |args| ==> Typed(args[i])
  }
}
