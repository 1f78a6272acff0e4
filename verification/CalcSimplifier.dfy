/** The simplifier as it runs: loops over child lists, against the functions of `CalcTree`. */
module CalcSimplifier {
  import opened CalcTree

  lemma {:induction false} FlatConcat(sum: bool, a: seq<Node>, b: seq<Node>)
    ensures Flat(sum, a + b) == Flat(sum, a) + Flat(sum, b)
    decreases |a|
  {
    if a == [] {
      assert a + b == b;
    } else {
      assert (a + b)[0] == a[0] && (a + b)[1..] == a[1..] + b;
      FlatConcat(sum, a[1..], b);
    }
  }

  method Flatten(sum: bool, ks: seq<Node>) returns (flat: seq<Node>)
    ensures flat == Flat(sum, ks)
  {
    hide Flat;
    flat := [];
    FlatOne(sum, Opaque(""));
    for i := 0 to |ks|
      invariant flat == Flat(sum, ks[..i])
    {
      var child := ks[i];
      assert ks[..i + 1] == ks[..i] + [child];
      FlatConcat(sum, ks[..i], [child]);
      FlatOne(sum, child);
      if (if sum then child.Sum? else child.Product?) {
        ghost var was := flat;
        for k := 0 to |child.kids|
          invariant flat == was + child.kids[..k]
        {
          assert child.kids[..k + 1] == child.kids[..k] + [child.kids[k]];
          flat := flat + [child.kids[k]];
        }
        assert child.kids[..|child.kids|] == child.kids;
      } else {
        flat := flat + [child];
      }
    }
    assert ks[..|ks|] == ks;
  }

  lemma FlatOne(sum: bool, n: Node)
    ensures Flat(sum, [n]) == if (if sum then n.Sum? else n.Product?) then n.kids else [n]
    ensures Flat(sum, []) == []
  {
    assert [n][1..] == [];
  }

  lemma AbsorbStep(value: Num, tail: seq<Node>, u: string)
    ensures Absorb(value, [], u) == value && Unlike([], u) == []
    ensures tail != [] ==> Absorb(value, tail, u) == Absorb(if Like(tail[0], u) then Add(value, tail[0].value) else value, tail[1..], u)
    ensures tail != [] ==> Unlike(tail, u) == (if Like(tail[0], u) then [] else [tail[0]]) + Unlike(tail[1..], u)
  {}

  /** Adding every later numeric of the same unit to the one at `i`, and taking it out. */
  method AbsorbInto(ks: seq<Node>, i: nat) returns (r: seq<Node>)
    requires i < |ks| && ks[i].Numeric?
    ensures var u := ks[i].unit;
            r == ks[..i] + [Numeric(Absorb(ks[i].value, ks[i + 1..], u), u)] + Unlike(ks[i + 1..], u)
  {
    hide Absorb;
    hide Unlike;
    r := ks;
    ghost var u, rest := ks[i].unit, ks[i + 1..];
    var k := i + 1;
    while k < |r|
      invariant i < k <= |r| && r[..i] == ks[..i] && Like(r[i], u)
      invariant Absorb(r[i].value, r[k..], u) == Absorb(ks[i].value, rest, u)
      invariant r[i + 1..k] + Unlike(r[k..], u) == Unlike(rest, u)
      decreases |r| - k
    {
      var b := r[k];
      ghost var tail := r[k..];
      assert tail[1..] == r[k + 1..];
      AbsorbStep(r[i].value, tail, u);
      if b.Numeric? && b.unit == r[i].unit {
        var a := r[i].(value := Add(r[i].value, b.value));
        r := r[..i] + [a] + r[i + 1..k] + r[k + 1..];
        assert r[k..] == tail[1..];
      } else {
        k := k + 1;
      }
    }
    assert r[k..] == [];
    AbsorbStep(r[i].value, [], u);
    assert r == r[..i] + [r[i]] + r[i + 1..k];
  }

  lemma {:induction false} MergedFrom(ks: seq<Node>)
    ensures ks != [] && !ks[0].Numeric? ==> Merged(ks) == [ks[0]] + Merged(ks[1..])
    ensures ks != [] && ks[0].Numeric? ==>
              Merged(ks) == [Numeric(Absorb(ks[0].value, ks[1..], ks[0].unit), ks[0].unit)] + Merged(Unlike(ks[1..], ks[0].unit))
  {}

  method Merge(kids: seq<Node>) returns (ks: seq<Node>)
    ensures ks == Merged(kids)
  {
    ks := kids;
    var i := 0;
    while i < |ks|
      invariant i <= |ks| && ks[..i] + Merged(ks[i..]) == Merged(kids)
      decreases |ks| - i
    {
      ghost var was := ks;
      MergedFrom(ks[i..]);
      assert ks[i..][1..] == ks[i + 1..];
      if ks[i].Numeric? {
        ks := AbsorbInto(ks, i);
        assert ks[..i] == was[..i] && ks[i + 1..] == Unlike(was[i + 1..], was[i].unit);
      }
      assert ks[..i + 1] == ks[..i] + [ks[i]];
      i := i + 1;
    }
    assert ks[..i] == ks && ks[i..] == [];
  }

  /** Whether both plain numbers and other numerics stand among `ks`. */
  method IsMixed(ks: seq<Node>) returns (mixed: bool)
    ensures mixed == Mixed(ks)
  {
    var number, dimension := false, false;
    for i := 0 to |ks|
      invariant number == exists j :: 0 <= j < i && IsNumber(ks[j])
      invariant dimension == exists j :: 0 <= j < i && ks[j].Numeric? && ks[j].unit != ""
    {
      if ks[i].Numeric? {
        if ks[i].unit != "" { dimension := true; } else { number := true; }
      }
    }
    mixed := number && dimension;
  }

  method SimplifySum(kids: seq<Node>) returns (n: Node, ok: bool)
    ensures n == SimpleSum(kids) && ok == !Mixed(Merged(Flat(true, kids)))
  {
    var flat := Flatten(true, kids);
    var ks := Merge(flat);
    var mixed := IsMixed(ks);
    ok := !mixed;
    n := if |ks| == 1 then ks[0] else Sum(ks);
  }

  lemma FoldStep(factor: Num, ks: seq<Node>)
    ensures ks != [] ==>
              && Factor(factor, ks) == Factor(if IsNumber(ks[0]) then Mul(factor, ks[0].value) else factor, ks[1..])
              && Rest(ks) == (if IsNumber(ks[0]) then [] else [ks[0]]) + Rest(ks[1..])
    ensures ks == [] ==> Factor(factor, ks) == factor && Rest(ks) == []
  {}

  /** Taking the plain numbers out of a product. */
  method FoldNumbers(kids: seq<Node>) returns (factor: Num, numbers: nat, ks: seq<Node>)
    ensures factor == Factor(Fin(1.0), kids) && ks == Rest(kids) && numbers == |kids| - |ks|
  {
    hide Mul;
    hide Factor;
    hide Rest;
    ks, factor, numbers := kids, Fin(1.0), 0;
    var i := 0;
    while i < |ks|
      invariant i <= |ks| && ks[..i] + Rest(ks[i..]) == Rest(kids) && numbers + |ks| == |kids|
      invariant Factor(factor, ks[i..]) == Factor(Fin(1.0), kids)
      decreases |ks| - i
    {
      ghost var tail := ks[i..];
      assert tail[1..] == ks[i + 1..];
      FoldStep(factor, tail);
      if IsNumber(ks[i]) {
        factor := Mul(factor, ks[i].value);
        numbers := numbers + 1;
        ks := ks[..i] + ks[i + 1..];
        assert ks[i..] == tail[1..];
      } else {
        assert ks[..i + 1] == ks[..i] + [ks[i]];
        i := i + 1;
      }
    }
    assert ks[..i] == ks && ks[i..] == [];
    assert ks[i..] == [] && ks[..i] == ks;
    FoldStep(factor, []);
    assert ks + [] == ks;
  }

  method ScaleAll(ks: seq<Node>, factor: Num) returns (r: seq<Node>)
    requires AllNumeric(ks)
    ensures r == Scaled(ks, factor)
  {
    r := ks;
    for i := 0 to |ks|
      invariant |r| == |ks| && r[i..] == ks[i..]
      invariant forall j :: 0 <= j < i ==> r[j] == Numeric(Mul(ks[j].value, factor), ks[j].unit)
    {
      assert r[i] == r[i..][0] && r[i + 1..] == r[i..][1..];
      r := r[i := r[i].(value := Mul(r[i].value, factor))];
    }
  }

  method SimplifyProduct(kids: seq<Node>) returns (n: Node)
    ensures n == SimpleProduct(kids)
  {
    var flat := Flatten(false, kids);
    var factor, numbers, ks := FoldNumbers(flat);
    if |ks| == 0 { return Numeric(factor, ""); }
    if |ks| == 1 {
      var other := ks[0];
      if other.Numeric? { return other.(value := Mul(other.value, factor)); }
      if other.Sum? {
        var allNumeric := true;
        for i := 0 to |other.kids|
          invariant allNumeric == forall j :: 0 <= j < i ==> other.kids[j].Numeric?
        {
          if !other.kids[i].Numeric? { allNumeric := false; }
        }
        if allNumeric {
          var scaled := ScaleAll(other.kids, factor);
          return Sum(scaled);
        }
      }
      if numbers == 0 || factor == Fin(1.0) { return other; }
    }
    if numbers > 0 && !(factor == Fin(1.0) && |ks| > 0) {
      ks := [Numeric(factor, "")] + ks;
    }
    n := Product(ks);
  }

  /** Numerics sharing one unit, which is not a percentage. */
  method SameUnitNumerics(ks: seq<Node>) returns (same: bool)
    ensures same == SameUnit(ks)
  {
    for i := 0 to |ks|
      invariant forall j :: 0 <= j < i ==> ks[0].Numeric? && ks[j].Numeric? && ks[j].unit == ks[0].unit
    {
      if !ks[i].Numeric? { return false; }
      if i > 0 && ks[i].unit != ks[i - 1].unit { return false; }
    }
    same := |ks| > 0 && ks[0].unit != "%";
  }

  method PickBest(least: bool, ks: seq<Node>) returns (n: Node)
    requires SameUnit(ks)
    ensures n == Numeric(Pick(least, ks[0].value, ks[1..]), ks[0].unit)
  {
    var best := 0;
    for i := 1 to |ks|
      invariant best < |ks| && Pick(least, ks[best].value, ks[i..]) == Pick(least, ks[0].value, ks[1..])
    {
      var v, b := ks[i].value, ks[best].value;
      assert ks[i..][0] == ks[i] && ks[i..][1..] == ks[i + 1..];
      if v.NaN? || b.NaN? { return ks[0].(value := NaN); }
      if if least then Less(v, b) else Less(b, v) { best := i; }
    }
    n := ks[best];
  }

  method SimplifyFunction(name: string, ks: seq<Node>) returns (n: Node)
    ensures n == SimpleFunc(name, ks)
  {
    if name == "calc" && |ks| == 1 { return ks[0]; }
    if IsMinMax(name) && |ks| == 1 { return ks[0]; }
    var same := SameUnitNumerics(ks);
    if IsMinMax(name) && same {
      n := PickBest(name[1] == 'i', ks);
      assert name[1] == 'i' <==> name == "min";
      return;
    }
    if name == "abs" && |ks| == 1 && ks[0].Numeric? && ks[0].unit != "%" {
      return ks[0].(value := Magnitude(ks[0].value));
    }
    n := Func(name, ks);
  }

  method SimplifyKids(kids: seq<Node>) returns (ks: seq<Node>, ok: bool)
    ensures ks == SimplifyAll(kids) && ok == forall i :: 0 <= i < |kids| ==> Typed(kids[i])
    decreases kids, 0
  {
    ks, ok := kids, true;
    for i := 0 to |kids|
      invariant |ks| == |kids| && ks[i..] == kids[i..]
      invariant forall j :: 0 <= j < i ==> ks[j] == Simplify(kids[j])
      invariant ok == forall j :: 0 <= j < i ==> Typed(kids[j])
    {
      assert kids[i] == kids[i..][0] == ks[i] && ks[i + 1..] == ks[i..][1..];
      var k, kidOk := SimplifyTree(kids[i]);
      ks := ks[i := k];
      ok := ok && kidOk;
    }
  }

  /** The whole tree, bottom up; `ok` is lost where types cannot be added. */
  method SimplifyTree(n: Node) returns (r: Node, ok: bool)
    ensures r == Simplify(n) && ok == Typed(n)
    decreases n, 1
  {
    match n
    case Numeric(_, _) => return n, true;
    case Opaque(_) => return n, true;
    case Negate(kid) =>
      var k, kidOk := SimplifyTree(kid);
      ok := kidOk;
      if k.Numeric? { return k.(value := Neg(k.value)), ok; }
      if k.Negate? { return k.kid, ok; }
      r := Negate(k);
    case Invert(kid) =>
      var k, kidOk := SimplifyTree(kid);
      ok := kidOk;
      if IsNumber(k) { return k.(value := Inverse(k.value)), ok; }
      if k.Invert? { return k.kid, ok; }
      r := Invert(k);
    case Sum(kids) =>
      var ks, kidsOk := SimplifyKids(kids);
      var sumOk;
      r, sumOk := SimplifySum(ks);
      ok := kidsOk && sumOk;
    case Product(kids) =>
      var ks, kidsOk := SimplifyKids(kids);
      r := SimplifyProduct(ks);
      ok := kidsOk;
    case Func(name, args) =>
      var ks, kidsOk := SimplifyKids(args);
      r := SimplifyFunction(name, ks);
      ok := kidsOk;
  }
}
