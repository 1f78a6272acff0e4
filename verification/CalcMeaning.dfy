/** Simplification preserves meaning. */
module CalcMeaning {
  import opened CalcTree

  // ----- multiplication -----

  lemma ProdRules(a: real, b: real, c: real)
    ensures Prod(a, b) == Prod(b, a)
    ensures Prod(Prod(a, b), c) == Prod(a, Prod(b, c))
    ensures Prod(a + b, c) == Prod(a, c) + Prod(b, c)
    ensures Prod(1.0, a) == a == Prod(a, 1.0)
  {
    assert (a * b) * c == a * (b * c);
  }

  // ----- combining meanings -----

  lemma {:induction false} TotalConcat(a: seq<Meaning>, b: seq<Meaning>)
    ensures Total(a + b) == Plus(Total(a), Total(b))
    decreases |a|
  {
    if a == [] {
      assert a + b == b;
      TotalIsNoWord(b);
    } else {
      assert (a + b)[0] == a[0] && (a + b)[1..] == a[1..] + b;
      TotalConcat(a[1..], b);
    }
  }

  lemma TotalIsNoWord(ms: seq<Meaning>)
    ensures !Total(ms).Word?
  {}

  lemma {:induction false} MultipleConcat(a: seq<Meaning>, b: seq<Meaning>)
    ensures Multiple(a + b) == Times(Multiple(a), Multiple(b))
    decreases |a|
  {
    hide Prod;
    if a == [] {
      assert a + b == b;
      MultipleIsNoWord(b);
      if Multiple(b).Amount? { ProdRules(Multiple(b).v, 0.0, 0.0); }
    } else {
      assert (a + b)[0] == a[0] && (a + b)[1..] == a[1..] + b;
      MultipleConcat(a[1..], b);
      TimesAssoc(a[0], Multiple(a[1..]), Multiple(b));
    }
  }

  lemma MultipleIsNoWord(ms: seq<Meaning>)
    ensures !Multiple(ms).Word?
  {}

  lemma TimesAssoc(a: Meaning, b: Meaning, c: Meaning)
    ensures Times(Times(a, b), c) == Times(a, Times(b, c))
  {
    if a.Amount? && b.Amount? && c.Amount? { ProdRules(a.v, b.v, c.v); }
  }

  lemma {:induction false} EvalAllConcat(a: seq<Node>, b: seq<Node>, w: World)
    ensures EvalAll(a + b, w) == EvalAll(a, w) + EvalAll(b, w)
  {
    assert forall i :: 0 <= i < |a + b| ==> (a + b)[i] == if i < |a| then a[i] else b[i - |a|];
  }

  function Sums(ks: seq<Node>, w: World): Meaning { Total(EvalAll(ks, w)) }
  function Multiples(ks: seq<Node>, w: World): Meaning { Multiple(EvalAll(ks, w)) }

  lemma SumsConcat(a: seq<Node>, b: seq<Node>, w: World)
    ensures Sums(a + b, w) == Plus(Sums(a, w), Sums(b, w))
    ensures Multiples(a + b, w) == Times(Multiples(a, w), Multiples(b, w))
  {
    EvalAllConcat(a, b, w);
    TotalConcat(EvalAll(a, w), EvalAll(b, w));
    MultipleConcat(EvalAll(a, w), EvalAll(b, w));
  }

  /** A single operand counts as itself. */
  lemma OneOperand(n: Node, w: World)
    ensures Sums([n], w) == Multiples([n], w) == if Eval(n, w).Amount? then Eval(n, w) else Undefined
  {
    hide Prod;
    var m := Eval(n, w);
    assert EvalAll([n], w) == [m] && [m][1..] == [];
    assert Total([m]) == Plus(m, Total([])) && Multiple([m]) == Times(m, Multiple([]));
    if m.Amount? { ProdRules(m.v, 0.0, 0.0); }
  }

  lemma FirstOperand(ks: seq<Node>, w: World)
    requires ks != []
    ensures Sums(ks, w) == Plus(Eval(ks[0], w), Sums(ks[1..], w))
    ensures Multiples(ks, w) == Times(Eval(ks[0], w), Multiples(ks[1..], w))
  {
    hide Prod;
    assert EvalAll(ks, w)[1..] == EvalAll(ks[1..], w);
  }

  // ----- flattening -----

  lemma {:induction false} FlatSum(ks: seq<Node>, w: World)
    ensures Sums(Flat(true, ks), w) == Sums(ks, w)
    decreases |ks|
  {
    if ks != [] {
      var head := if ks[0].Sum? then ks[0].kids else [ks[0]];
      FlatSum(ks[1..], w);
      SumsConcat(head, Flat(true, ks[1..]), w);
      OneOperand(ks[0], w);
      TotalIsNoWord(EvalAll(ks[1..], w));
    }
  }

  lemma {:induction false} FlatProduct(ks: seq<Node>, w: World)
    ensures Multiples(Flat(false, ks), w) == Multiples(ks, w)
    decreases |ks|
  {
    if ks != [] {
      var head := if ks[0].Product? then ks[0].kids else [ks[0]];
      FlatProduct(ks[1..], w);
      SumsConcat(head, Flat(false, ks[1..]), w);
      OneOperand(ks[0], w);
      MultipleIsNoWord(EvalAll(ks[1..], w));
    }
  }

  // ----- sums -----

  /** Adding up the numerics of one unit first does not change the sum. */
  lemma {:induction false} AbsorbSound(value: Num, ks: seq<Node>, unit: string, w: World)
    requires Plus(Eval(Numeric(value, unit), w), Sums(ks, w)).Amount?
    ensures Plus(Eval(Numeric(Absorb(value, ks, unit), unit), w), Sums(Unlike(ks, unit), w))
         == Plus(Eval(Numeric(value, unit), w), Sums(ks, w))
    decreases |ks|
  {
    hide Prod;
    hide Sums;
    hide Multiples;
    if ks != [] {
      var k, rest := ks[0], ks[1..];
      FirstOperand(ks, w);
      if Like(k, unit) {
        assert Unlike(ks, unit) == Unlike(rest, unit);
        UnitDistributes(value, k.value, unit, w);
        AbsorbSound(Add(value, k.value), rest, unit, w);
      } else {
        AbsorbSound(value, rest, unit, w);
        SumsConcat([k], Unlike(rest, unit), w);
        OneOperand(k, w);
      }
    }
  }

  lemma UnitDistributes(a: Num, b: Num, unit: string, w: World)
    requires a.Fin? && b.Fin?
    ensures Eval(Numeric(Add(a, b), unit), w) == Plus(Eval(Numeric(a, unit), w), Eval(Numeric(b, unit), w))
  {
    ProdRules(a.v, b.v, w.unit(unit));
  }

  lemma {:induction false} MergedSound(ks: seq<Node>, w: World)
    requires Sums(ks, w).Amount?
    ensures Sums(Merged(ks), w) == Sums(ks, w)
    decreases |ks|
  {
    hide Prod;
    hide Sums;
    hide Multiples;
    if ks != [] {
      var k, rest := ks[0], ks[1..];
      FirstOperand(ks, w);
      if k.Numeric? {
        var sum, others := Numeric(Absorb(k.value, rest, k.unit), k.unit), Unlike(rest, k.unit);
        AbsorbSound(k.value, rest, k.unit, w);
        MergedSound(others, w);
        SumsConcat([sum], Merged(others), w);
        OneOperand(sum, w);
      } else {
        MergedSound(rest, w);
        SumsConcat([k], Merged(rest), w);
        OneOperand(k, w);
      }
    }
  }

  lemma SimpleSumSound(ks: seq<Node>, w: World)
    requires Sums(ks, w).Amount?
    ensures Eval(SimpleSum(ks), w) == Sums(ks, w)
  {
    var m := Merged(Flat(true, ks));
    FlatSum(ks, w);
    MergedSound(Flat(true, ks), w);
    if |m| == 1 {
      assert m == [m[0]];
      OneOperand(m[0], w);
    }
  }

  // ----- products -----

  lemma {:induction false} FactorSound(f: Num, ks: seq<Node>, w: World)
    requires w.unit("") == 1.0 && f.Fin? && Multiples(ks, w).Amount?
    ensures Factor(f, ks).Fin? && Multiples(Rest(ks), w).Amount?
    ensures Prod(Factor(f, ks).v, Multiples(Rest(ks), w).v) == Prod(f.v, Multiples(ks, w).v)
    decreases |ks|
  {
    hide Prod;
    hide Sums;
    hide Multiples;
    if ks != [] {
      var k, rest := ks[0], ks[1..];
      FirstOperand(ks, w);
      var v, m := Eval(k, w).v, Multiples(rest, w).v;
      if IsNumber(k) {
        assert Rest(ks) == Rest(rest);
        FactorSound(Mul(f, k.value), rest, w);
        ProdRules(k.value.v, 0.0, 0.0);
        ProdRules(f.v, v, m);
      } else {
        FactorSound(f, rest, w);
        SumsConcat([k], Rest(rest), w);
        OneOperand(k, w);
        var r := Multiples(Rest(rest), w).v;
        MoveOut(Factor(f, rest).v, v, r);
        MoveOut(f.v, v, m);
      }
    }
  }

  lemma MoveOut(a: real, v: real, r: real)
    ensures Prod(a, Prod(v, r)) == Prod(v, Prod(a, r))
  {
    hide Prod;
    ProdRules(a, v, r);
    ProdRules(v, a, r);
  }

  lemma {:induction false} ScaledSound(ks: seq<Node>, f: Num, w: World)
    requires AllNumeric(ks) && f.Fin? && Sums(ks, w).Amount?
    ensures Sums(Scaled(ks, f), w) == Amount(Prod(Sums(ks, w).v, f.v))
    decreases |ks|
  {
    hide Prod;
    if ks == [] {
      assert Scaled(ks, f) == [];
      ProdRules(0.0, 0.0, f.v);
    } else {
      var head, tail := Numeric(Mul(ks[0].value, f), ks[0].unit), Scaled(ks[1..], f);
      assert Scaled(ks, f) == [head] + tail;
      ScaledSound(ks[1..], f, w);
      SumsConcat([head], tail, w);
      OneOperand(head, w);
      ScaledNumeric(ks[0], f, w);
      ProdRules(Eval(ks[0], w).v, Sums(ks[1..], w).v, f.v);
    }
  }

  lemma ScaledNumeric(n: Node, f: Num, w: World)
    requires n.Numeric? && n.value.Fin? && f.Fin?
    ensures Eval(Numeric(Mul(n.value, f), n.unit), w) == Amount(Prod(Eval(n, w).v, f.v))
  {
    hide Prod;
    var v, u := n.value.v, w.unit(n.unit);
    ProdRules(v, f.v, u);
    ProdRules(v, u, f.v);
    ProdRules(f.v, u, 0.0);
  }

  lemma SimpleProductSound(ks: seq<Node>, w: World)
    requires w.unit("") == 1.0 && Multiples(ks, w).Amount?
    ensures Eval(SimpleProduct(ks), w) == Multiples(ks, w)
  {
    hide Prod;
    var flat := Flat(false, ks);
    var f, rest := Factor(Fin(1.0), flat), Rest(flat);
    FlatProduct(ks, w);
    FactorSound(Fin(1.0), flat, w);
    ProdRules(Multiples(ks, w).v, 0.0, 0.0);
    NothingFolded(Fin(1.0), flat);
    OneOperand(Numeric(f, ""), w);
    ProdRules(f.v, Multiples(rest, w).v, 0.0);
    ProdRules(Multiples(rest, w).v, 0.0, 0.0);
    if |rest| == 1 {
      assert rest == [rest[0]];
      OneOperand(rest[0], w);
      OneFactor(rest[0], f, w);
      SumsConcat([Numeric(f, "")], rest, w);
    } else if rest != [] {
      SumsConcat([Numeric(f, "")], rest, w);
    }
  }

  lemma {:induction false} NothingFolded(f: Num, ks: seq<Node>)
    ensures |Rest(ks)| == |ks| ==> Factor(f, ks) == f && Rest(ks) == ks
    decreases |ks|
  {
    if ks != [] { NothingFolded(if IsNumber(ks[0]) then Mul(f, ks[0].value) else f, ks[1..]); }
  }

  lemma OneFactor(n: Node, f: Num, w: World)
    requires f.Fin? && Eval(n, w).Amount?
    ensures n.Numeric? ==> Eval(Numeric(Mul(n.value, f), n.unit), w) == Amount(Prod(f.v, Eval(n, w).v))
    ensures n.Sum? && AllNumeric(n.kids) ==> Eval(Sum(Scaled(n.kids, f)), w) == Amount(Prod(f.v, Eval(n, w).v))
  {
    hide Prod;
    ProdRules(f.v, Eval(n, w).v, 0.0);
    if n.Numeric? {
      ScaledNumeric(n, f, w);
    } else if n.Sum? && AllNumeric(n.kids) {
      ScaledSound(n.kids, f, w);
    }
  }

  // ----- functions -----

  /** Scaling by a non-negative unit keeps the order. */
  lemma UnitKeepsOrder(a: real, b: real, u: real)
    requires u >= 0.0
    ensures a <= b ==> Prod(a, u) <= Prod(b, u)
    ensures a < 0.0 ==> Prod(a, u) <= 0.0
    ensures a >= 0.0 ==> Prod(a, u) >= 0.0
    ensures Prod(-a, u) == -Prod(a, u)
  {
    if a <= b { assert (b - a) * u >= 0.0; }
  }

  lemma {:induction false} PickSound(least: bool, best: Num, ks: seq<Node>, unit: string, w: World)
    requires AllNumeric(ks) && w.unit(unit) >= 0.0 && best.Fin?
    requires forall i :: 0 <= i < |ks| ==> ks[i].unit == unit && ks[i].value.Fin?
    ensures Pick(least, best, ks).Fin?
    ensures var all := EvalAll([Numeric(best, unit)] + ks, w);
            AllAmounts(all) && Prod(Pick(least, best, ks).v, w.unit(unit)) == Extreme(least, all)
    decreases |ks|
  {
    hide Prod;
    var u := w.unit(unit);
    var head := Numeric(best, unit);
    assert EvalAll([head] + ks, w) == [Eval(head, w)] + EvalAll(ks, w) by { EvalAllConcat([head], ks, w); }
    if ks != [] {
      var v, rest := ks[0].value, ks[1..];
      var next := if (if least then Less(v, best) else Less(best, v)) then v else best;
      PickSound(least, next, rest, unit, w);
      var first := Numeric(next, unit);
      EvalAllConcat([first], rest, w);
      UnitKeepsOrder(v.v, best.v, u);
      UnitKeepsOrder(best.v, v.v, u);
      ExtremeOfBest(least, Eval(head, w), Eval(ks[0], w), Eval(first, w), EvalAll(rest, w));
      assert EvalAll(ks, w) == [Eval(ks[0], w)] + EvalAll(rest, w);
    }
  }

  /** Of two leading amounts only the better one matters. */
  lemma ExtremeOfBest(least: bool, a: Meaning, b: Meaning, c: Meaning, ms: seq<Meaning>)
    requires a.Amount? && b.Amount? && AllAmounts(ms) && (c == a || c == b)
    requires if least then c.v <= a.v && c.v <= b.v else c.v >= a.v && c.v >= b.v
    ensures Extreme(least, [a] + ([b] + ms)) == Extreme(least, [c] + ms)
  {
    assert ([a] + ([b] + ms))[1..] == [b] + ms && ([b] + ms)[1..] == ms && ([c] + ms)[1..] == ms;
  }

  lemma SimpleFuncSound(name: string, ks: seq<Node>, w: World)
    requires Proper(w) && Applied(name, EvalAll(ks, w), w) != Undefined
    ensures Eval(SimpleFunc(name, ks), w) == Applied(name, EvalAll(ks, w), w)
  {
    hide Prod;
    hide Eval;
    hide EvalAll;
    hide Applied;
    hide SameUnit;
    if (name == "calc" || IsMinMax(name)) && |ks| == 1 {
      SingleArg(name, ks, w);
    } else if IsMinMax(name) && SameUnit(ks) {
      PickedArg(name, ks, w);
    } else if name == "abs" && |ks| == 1 && ks[0].Numeric? && ks[0].unit != "%" {
      MagnitudeArg(ks, w);
    } else {
      FuncStands(name, ks, w);
    }
  }

  lemma FuncStands(name: string, ks: seq<Node>, w: World)
    ensures Eval(Func(name, ks), w) == Applied(name, EvalAll(ks, w), w)
  {}

  lemma SingleArg(name: string, ks: seq<Node>, w: World)
    requires (name == "calc" || IsMinMax(name)) && |ks| == 1 && Applied(name, EvalAll(ks, w), w) != Undefined
    ensures Eval(ks[0], w) == Applied(name, EvalAll(ks, w), w)
  {}

  lemma MagnitudeArg(ks: seq<Node>, w: World)
    requires Proper(w) && |ks| == 1 && ks[0].Numeric? && ks[0].unit != "%" && Applied("abs", EvalAll(ks, w), w) != Undefined
    ensures Eval(Numeric(Magnitude(ks[0].value), ks[0].unit), w) == Applied("abs", EvalAll(ks, w), w)
  {
    hide Prod;
    var m := Eval(ks[0], w);
    assert EvalAll(ks, w) == [m] && m in [m];
    UnitKeepsOrder(ks[0].value.v, 0.0, w.unit(ks[0].unit));
    UnitNegates(ks[0].value.v, w.unit(ks[0].unit));
  }

  lemma PickedArg(name: string, ks: seq<Node>, w: World)
    requires Proper(w) && IsMinMax(name) && SameUnit(ks) && |ks| != 1 && Applied(name, EvalAll(ks, w), w) != Undefined
    ensures Eval(Numeric(Pick(name == "min", ks[0].value, ks[1..]), ks[0].unit), w) == Applied(name, EvalAll(ks, w), w)
  {
    hide Prod;
    hide Pick;
    hide Extreme;
    hide EvalAll;
    var ms := EvalAll(ks, w);
    forall i | 0 <= i < |ks| ensures ks[i].value.Fin? { assert ms[i] in ms; }
    assert ks == [Numeric(ks[0].value, ks[0].unit)] + ks[1..];
    PickSound(name == "min", ks[0].value, ks[1..], ks[0].unit, w);
  }

  // ----- the whole -----

  /** Whatever a tree means, its simplification means too. */
  lemma {:induction false} SimplifyKeepsMeaning(n: Node, w: World)
    requires Proper(w) && Eval(n, w) != Undefined
    ensures Eval(Simplify(n), w) == Eval(n, w)
    decreases n, 1
  {
    hide Prod;
    match n
    case Numeric(_, _) =>
    case Opaque(_) =>
    case Sum(kids) =>
      AllDefined(kids, w);
      SimplifyAllKeepsMeaning(kids, w);
      SimpleSumSound(SimplifyAll(kids), w);
    case Product(kids) =>
      AllDefined(kids, w);
      SimplifyAllKeepsMeaning(kids, w);
      SimpleProductSound(SimplifyAll(kids), w);
    case Negate(kid) =>
      SimplifyKeepsMeaning(kid, w);
      var k := Simplify(kid);
      if k.Numeric? { UnitNegates(k.value.v, w.unit(k.unit)); }
    case Invert(kid) =>
      SimplifyKeepsMeaning(kid, w);
      InvertSound(Simplify(kid), w);
    case Func(name, args) =>
      AllDefined(args, w);
      SimplifyAllKeepsMeaning(args, w);
      SimpleFuncSound(name, SimplifyAll(args), w);
  }

  lemma UnitNegates(v: real, u: real)
    ensures Prod(-v, u) == -Prod(v, u)
  {}

  lemma InvertSound(k: Node, w: World)
    requires Proper(w) && Eval(k, w).Amount? && Eval(k, w).v != 0.0
    ensures Eval(SimpleInvert(k), w) == Amount(1.0 / Eval(k, w).v)
  {
    hide Prod;
    if IsNumber(k) {
      ProdRules(k.value.v, 0.0, 0.0);
      ProdRules(1.0 / k.value.v, 0.0, 0.0);
    } else if k.Invert? {
      TwiceInverted(Eval(k.kid, w).v);
    }
  }

  lemma TwiceInverted(v: real)
    requires v != 0.0
    ensures 1.0 / v != 0.0 && 1.0 / (1.0 / v) == v
  {}

  /** A defined sum or product has defined operands. */
  lemma {:induction false} AllDefined(ks: seq<Node>, w: World)
    ensures Sums(ks, w) != Undefined || Multiples(ks, w) != Undefined ==> Undefined !in EvalAll(ks, w)
    decreases |ks|
  {
    hide Prod;
    if ks != [] {
      AllDefined(ks[1..], w);
      FirstOperand(ks, w);
    }
  }

  lemma {:induction false} SimplifyAllKeepsMeaning(ks: seq<Node>, w: World)
    requires Proper(w) && Undefined !in EvalAll(ks, w)
    ensures EvalAll(SimplifyAll(ks), w) == EvalAll(ks, w)
    decreases ks, 0
  {
    hide Prod;
    if ks != [] {
      assert EvalAll(ks, w)[0] == Eval(ks[0], w);
      assert EvalAll(ks, w)[1..] == EvalAll(ks[1..], w);
      SimplifyKeepsMeaning(ks[0], w);
      SimplifyAllKeepsMeaning(ks[1..], w);
    }
  }

  /** Were percentages folded like lengths, a negative reference would change the result. */
  lemma PercentMustNotFold(other: (string, seq<Meaning>) -> Meaning) returns (w: World, n: Node)
    ensures w.unit("") == 1.0 && (forall u: string :: u != "%" ==> w.unit(u) >= 0.0) && n.Func? && IsMinMax(n.name)
    ensures n.args != [] && AllNumeric(n.args) && forall i :: 0 <= i < |n.args| ==> n.args[i].unit == "%"
    ensures Eval(n, w).Amount?
    ensures Eval(Numeric(Pick(n.name == "min", n.args[0].value, n.args[1..]), "%"), w) != Eval(n, w)
  {
    w := World((u: string) => if u == "%" then -1.0 else 1.0, other);
    var one, two := Numeric(Fin(1.0), "%"), Numeric(Fin(2.0), "%");
    n := Func("min", [one, two]);
    assert n.args[1..] == [two];
    assert EvalAll([one, two], w) == [Amount(-1.0), Amount(-2.0)];
    assert [Amount(-1.0), Amount(-2.0)][1..] == [Amount(-2.0)];
    assert Pick(true, Fin(1.0), [two]) == Pick(true, Fin(1.0), []);
  }
}
