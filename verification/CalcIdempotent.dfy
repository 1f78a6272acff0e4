/** Canonical text is its own canonical text. */
module CalcIdempotent {
  import opened Options
  import opened CalcTree
  import opened CalcText
  import opened CalcPrint
  import opened CalcNormal
  import opened CalcOrder
  import opened CalcSteps
  import opened CalcRoundTrip
  import opened CalcCanonical
  import opened CalcBalance

  // ----- signs stand only before later terms -----

  predicate TidyTerm(k: Node, first: bool)
    decreases k, 1
  {
    if k.Negate? && !first then Tidy(k.kid) else Tidy(k)
  }

  predicate Tidy(n: Node)
    decreases n, 0
  {
    match n
    case Numeric(_, _) => true
    case Opaque(_) => true
    case Negate(_) => false
    case Invert(kid) => Tidy(kid)
    case Sum(kids) => forall i :: 0 <= i < |kids| ==> TidyTerm(kids[i], i == 0)
    case Product(kids) => forall i :: 0 <= i < |kids| ==> Tidy(kids[i])
    case Func(_, args) => forall i :: 0 <= i < |args| ==> Tidy(args[i])
  }

  predicate AllTidy(ks: seq<Node>) {
    forall i :: 0 <= i < |ks| ==> Tidy(ks[i])
  }

  predicate TidyTerms(ks: seq<Node>, first: bool) {
    forall i :: 0 <= i < |ks| ==> TidyTerm(ks[i], first && i == 0)
  }

  // ----- the parser builds tidy trees -----

  lemma {:induction false} ValueIsTidy(text: string, depth: nat, f: Format)
    ensures var r := ParseValue(text, depth, f); r.Done? ==> Tidy(r.value)
    decreases |text|, 0
  {
    hide CanonicalUnit;
    hide IsMath;
    var s := SkipWs(text);
    if s == "" || depth > DEPTH_CAP {
    } else if s[0] == '(' {
      SumIsTidy(s[1..], depth + 1, f);
    } else if !NumberAhead(s) {
      var word, t := WordAhead(s), s[IdentLength(s)..];
      if word != "" && t != "" && t[0] == '(' {
        ArgsAreTidy(t[1..], depth + 1, word, true, f);
      }
    }
  }

  lemma {:induction false} ArgsAreTidy(text: string, depth: nat, name: string, first: bool, f: Format)
    ensures var r := ParseArgs(text, depth, name, first, f); r.Done? ==> AllTidy(r.value)
    decreases |text|, 4
  {
    hide IsKeyword;
    hide ParseSum;
    var s := SkipWs(text);
    var keyword := IsKeyword(name, first, WordAhead(s));
    if !keyword { SumIsTidy(s, depth, f); }
    var arg := if keyword then Done(Opaque(WordAhead(s)), s[IdentLength(s)..]) else ParseSum(s, depth, f);
    if arg.Done? {
      assert keyword ==> WordAhead(s) != "" by { if keyword { KeywordStarts(name, first, WordAhead(s)); } }
      var t := SkipWs(arg.rest);
      if t != "" && t[0] == ',' { ArgsAreTidy(t[1..], depth, name, false, f); }
    }
  }

  lemma {:induction false} ProductIsTidy(text: string, depth: nat, f: Format)
    ensures var r := ParseProduct(text, depth, f); r.Done? ==> Tidy(r.value)
    decreases |text|, 2
  {
    ValueIsTidy(text, depth, f);
    var head := ParseValue(text, depth, f);
    if head.Done? { FactorsAreTidy(head.rest, depth, f); }
  }

  lemma {:induction false} FactorsAreTidy(text: string, depth: nat, f: Format)
    ensures var r := ParseFactors(text, depth, f); r.Done? ==> AllTidy(r.value)
    decreases |text|, 1
  {
    var s := SkipWs(text);
    if s != "" && (s[0] == '*' || s[0] == '/') {
      ValueIsTidy(s[1..], depth, f);
      var rhs := ParseValue(s[1..], depth, f);
      if rhs.Done? { FactorsAreTidy(rhs.rest, depth, f); }
    }
  }

  lemma {:induction false} SumIsTidy(text: string, depth: nat, f: Format)
    ensures var r := ParseSum(text, depth, f); r.Done? ==> Tidy(r.value)
    decreases |text|, 3
  {
    ProductIsTidy(text, depth, f);
    var head := ParseProduct(text, depth, f);
    if head.Done? { TermsAreTidy(head.rest, depth, f); }
  }

  lemma {:induction false} TermsAreTidy(text: string, depth: nat, f: Format)
    ensures var r := ParseTerms(text, depth, f); r.Done? ==> TidyTerms(r.value, false)
    decreases |text|, 3
  {
    var s := SkipWs(text);
    if s != "" && (s[0] == '+' || s[0] == '-') && |s| < |text| {
      ProductIsTidy(s[1..], depth, f);
      var rhs := ParseProduct(s[1..], depth, f);
      if rhs.Done? { TermsAreTidy(rhs.rest, depth, f); }
    }
  }

  // ----- simplification keeps them tidy, and typed sums unmixed -----

  /** No sum of the tree mixes plain numbers with anything else. */
  predicate Unmixed(n: Node)
    decreases n
  {
    match n
    case Numeric(_, _) => true
    case Opaque(_) => true
    case Negate(kid) => Unmixed(kid)
    case Invert(kid) => Unmixed(kid)
    case Sum(kids) => !Mixed(kids) && forall i :: 0 <= i < |kids| ==> Unmixed(kids[i])
    case Product(kids) => forall i :: 0 <= i < |kids| ==> Unmixed(kids[i])
    case Func(_, args) => forall i :: 0 <= i < |args| ==> Unmixed(args[i])
  }

  predicate AllUnmixed(ks: seq<Node>) {
    forall i :: 0 <= i < |ks| ==> Unmixed(ks[i])
  }

  lemma {:induction false} FlatSumIsTidy(ks: seq<Node>, first: bool)
    requires TidyTerms(ks, first) && AllUnmixed(ks) && forall i :: 0 <= i < |ks| && ks[i].Sum? ==> ks[i].kids != []
    ensures TidyTerms(Flat(true, ks), first) && AllUnmixed(Flat(true, ks)) && (ks != [] ==> Flat(true, ks) != [])
    decreases |ks|
  {
    if ks != [] {
      FlatSumIsTidy(ks[1..], false);
      var rest := Flat(true, ks[1..]);
      var here := if ks[0].Sum? then ks[0].kids else [ks[0]];
      assert Flat(true, ks) == here + rest;
      forall i | 0 <= i < |here| ensures TidyTerm(here[i], first && i == 0) {
        LaterTerm(here[i]);
        assert TidyTerm(ks[0], first);
        if ks[0].Sum? { TermsOf(ks[0]); }
      }
    }
  }

  lemma TermsOf(n: Node)
    requires n.Sum? && (Tidy(n) || TidyTerm(n, false))
    ensures TidyTerms(n.kids, true)
  {}

  /** What may stand first may stand later. */
  lemma LaterTerm(k: Node)
    ensures Tidy(k) ==> TidyTerm(k, false) && TidyTerm(k, true)
  {}

  lemma {:induction false} FlatProductIsTidy(ks: seq<Node>)
    requires AllTidy(ks) && AllUnmixed(ks)
    ensures AllTidy(Flat(false, ks)) && AllUnmixed(Flat(false, ks))
    decreases |ks|
  {
    if ks != [] { FlatProductIsTidy(ks[1..]); }
  }

  lemma {:induction false} UnlikeIsTidy(ks: seq<Node>, unit: string)
    requires TidyTerms(ks, false) && AllUnmixed(ks)
    ensures TidyTerms(Unlike(ks, unit), false) && AllUnmixed(Unlike(ks, unit))
    decreases |ks|
  {
    if ks != [] { UnlikeIsTidy(ks[1..], unit); }
  }

  lemma {:induction false} MergedIsTidy(ks: seq<Node>, first: bool)
    requires TidyTerms(ks, first) && AllUnmixed(ks)
    ensures TidyTerms(Merged(ks), first) && AllUnmixed(Merged(ks))
    decreases |ks|
  {
    if ks != [] {
      assert TidyTerms(ks[1..], false);
      if ks[0].Numeric? {
        UnlikeIsTidy(ks[1..], ks[0].unit);
        MergedIsTidy(Unlike(ks[1..], ks[0].unit), false);
      } else {
        MergedIsTidy(ks[1..], false);
      }
    }
  }

  lemma {:induction false} RestIsTidy(ks: seq<Node>)
    requires AllTidy(ks) && AllUnmixed(ks)
    ensures AllTidy(Rest(ks)) && AllUnmixed(Rest(ks))
    decreases |ks|
  {
    if ks != [] { RestIsTidy(ks[1..]); }
  }

  lemma SimpleSumIsTidy(ks: seq<Node>)
    requires TidyTerms(ks, true) && AllUnmixed(ks) && ks != []
    requires !Mixed(Merged(Flat(true, ks))) && forall i :: 0 <= i < |ks| && ks[i].Sum? ==> ks[i].kids != []
    ensures Tidy(SimpleSum(ks)) && Unmixed(SimpleSum(ks))
  {
    FlatSumIsTidy(ks, true);
    MergedIsTidy(Flat(true, ks), true);
    if |Merged(Flat(true, ks))| == 1 { assert TidyTerm(Merged(Flat(true, ks))[0], true); }
  }

  lemma ScaledIsTidy(ks: seq<Node>, f: Num)
    requires AllNumeric(ks) && !Mixed(ks)
    ensures Tidy(Sum(Scaled(ks, f))) && Unmixed(Sum(Scaled(ks, f)))
  {
    var s := Scaled(ks, f);
    assert forall i :: 0 <= i < |ks| ==> IsNumber(s[i]) == IsNumber(ks[i]) && s[i].unit == ks[i].unit;
  }

  lemma SimpleProductIsTidy(ks: seq<Node>)
    requires AllTidy(ks) && AllUnmixed(ks)
    ensures Tidy(SimpleProduct(ks)) && Unmixed(SimpleProduct(ks))
  {
    FlatProductIsTidy(ks);
    var flat := Flat(false, ks);
    RestIsTidy(flat);
    var f, rest := Factor(Fin(1.0), flat), Rest(flat);
    if |rest| == 1 && rest[0].Sum? && AllNumeric(rest[0].kids) { ScaledIsTidy(rest[0].kids, f); }
    var front := [Numeric(f, "")] + rest;
    forall i | 0 <= i < |front| ensures Tidy(front[i]) && Unmixed(front[i]) {}
  }

  lemma {:induction false} SimplifyTidies(n: Node)
    requires n.Opaque? || Built(n)
    requires Tidy(n) && Typed(n)
    ensures Tidy(Simplify(n)) && Unmixed(Simplify(n))
    decreases n, 0
  {
    hide IsFixedUnit;
    hide IsMath;
    hide SimpleSum;
    hide SimpleProduct;
    match n
    case Numeric(_, _) =>
    case Opaque(_) =>
    case Negate(_) =>
    case Invert(kid) => SimplifyTidies(kid);
    case Sum(kids) =>
      forall i | 0 <= i < |kids|
        ensures TidyTerm(Simplify(kids[i]), i == 0) && Unmixed(Simplify(kids[i])) && Built(Simplify(kids[i]))
      {
        TermTidies(kids[i], i == 0);
        SimplifyKeepsBuilt(kids[i]);
      }
      SimpleSumIsTidy(SimplifyAll(kids));
    case Product(kids) =>
      forall i | 0 <= i < |kids| ensures Tidy(Simplify(kids[i])) && Unmixed(Simplify(kids[i])) { SimplifyTidies(kids[i]); }
      SimpleProductIsTidy(SimplifyAll(kids));
    case Func(name, args) =>
      forall i | 0 <= i < |args| ensures Tidy(Simplify(args[i])) && Unmixed(Simplify(args[i])) {
        assert BuiltArg(name, i == 0, args[i]);
        SimplifyTidies(args[i]);
      }
  }

  lemma {:induction false} TermTidies(k: Node, first: bool)
    requires Built(k) && TidyTerm(k, first) && Typed(k)
    ensures TidyTerm(Simplify(k), first) && Unmixed(Simplify(k))
    decreases k, 1
  {
    hide IsFixedUnit;
    if k.Negate? && !first {
      SimplifyTidies(k.kid);
    } else {
      SimplifyTidies(k);
      LaterTerm(Simplify(k));
    }
  }

  // ----- sorted trees -----

  /** The tree with the operands of every sum and product in canonical order. */
  function Canon(n: Node): (r: Node)
    ensures n.Numeric? || n.Opaque? ==> r == n
    ensures r.Numeric? == n.Numeric? && r.Opaque? == n.Opaque? && r.Sum? == n.Sum? && r.Product? == n.Product?
    ensures r.Negate? == n.Negate? && r.Invert? == n.Invert? && r.Func? == n.Func? && (n.Func? ==> r.name == n.name)
    decreases Nesting(n), 0
  {
    match n
    case Numeric(_, _) => n
    case Opaque(_) => n
    case Func(name, args) => Func(name, CanonAll(args, Deepest(args)))
    case Negate(kid) => Negate(Canon(kid))
    case Invert(kid) => Invert(Canon(kid))
    case Sum(kids) => Sum(CanonAll(Sorted(kids), Deepest(kids)))
    case Product(kids) => Product(CanonAll(Sorted(kids), Deepest(kids)))
  }

  function CanonAll(ks: seq<Node>, deep: nat): (r: seq<Node>)
    requires forall n :: n in ks ==> Nesting(n) <= deep
    ensures |r| == |ks| && forall i :: 0 <= i < |ks| ==> r[i] == Canon(ks[i])
    decreases deep, 1, |ks|
  {
    if ks == [] then [] else [Canon(ks[0])] + CanonAll(ks[1..], deep)
  }

  lemma CountOf(s: seq<Node>, i: nat, x: Node)
    requires i < |s| && s[i] == x
    ensures multiset(s) == multiset(s[..i]) + multiset(s[i + 1..]) + multiset{x}
  {
    assert s == s[..i] + [x] + s[i + 1..];
  }

  /** Two places of a list are two places of any permutation of it. */
  lemma PairMoves(a: seq<Node>, b: seq<Node>, i: nat, j: nat) returns (k: nat, l: nat)
    requires multiset(a) == multiset(b) && i < j < |a|
    ensures k < |b| && l < |b| && k != l && b[k] == a[i] && b[l] == a[j]
  {
    var x, y := a[i], a[j];
    assert x in multiset(b);
    k :| 0 <= k < |b| && b[k] == x;
    CountOf(a, i, x);
    CountOf(b, k, x);
    assert a[i + 1..][j - i - 1] == y && y in multiset(a[i + 1..]);
    var rest := multiset(b[..k]) + multiset(b[k + 1..]);
    var others := multiset(a[..i]) + multiset(a[i + 1..]);
    assert others == multiset(a) - multiset{x} && rest == multiset(b) - multiset{x};
    assert y in others;
    l := OtherPlace(b, k, y);
  }

  lemma OtherPlace(b: seq<Node>, k: nat, y: Node) returns (l: nat)
    requires k < |b| && y in multiset(b[..k]) + multiset(b[k + 1..])
    ensures l < |b| && l != k && b[l] == y
  {
    if y in b[..k] {
      l :| 0 <= l < k && b[l] == y;
    } else {
      assert y in b[k + 1..];
      var m :| 0 <= m < |b[k + 1..]| && b[k + 1..][m] == y;
      l := k + 1 + m;
    }
  }

  /** The canonical order starts with a number or dimension if there is any, and else as before. */
  lemma SortedFirst(ks: seq<Node>)
    requires ks != []
    ensures Sorted(ks) != [] && (Sorted(ks)[0].Numeric? || Sorted(ks)[0] == ks[0])
  {
    assert ks[0] in Sorted(ks);
    var r0, r1, r2, r3 := Ranked(ks, 0), Ranked(ks, 1), Ranked(ks, 2), Ranked(ks, 3);
    assert forall i :: 0 <= i < |r2| ==> r2[i] in r2;
    var s, d := Sorted(ks), ByUnit(r2);
    if r0 != [] { assert s[0] == r0[0] && r0[0] in r0; }
    else if r1 != [] { assert s[0] == r1[0] && r1[0] in r1; }
    else if d != [] { assert s[0] == d[0] && d[0] in d; }
    else {
      assert s == r3 && Rank(ks[0]) == 3;
    }
  }

  // ----- normal form does not depend on the order -----

  lemma SortedSumIsNormal(ks: seq<Node>, deep: nat)
    requires NormalSum(ks) && forall n :: n in ks ==> Nesting(n) <= deep
    ensures NormalSum(CanonAll(Sorted(ks), deep))
  {
    hide Sorted;
    SortedPermutes(ks);
    var s := Sorted(ks);
    assert |multiset(s)| == |s| && |multiset(ks)| == |ks|;
    var r := CanonAll(s, deep);
    forall i, j | 0 <= i < j < |r| && r[i].Numeric? && r[j].Numeric? ensures r[i].unit != r[j].unit {
      var k, l := PairMoves(s, ks, i, j);
    }
    forall i | 0 <= i < |r| ensures !r[i].Sum? { assert s[i] in ks; }
  }

  lemma SortedProductIsNormal(ks: seq<Node>, deep: nat)
    requires NormalProduct(ks) && forall n :: n in ks ==> Nesting(n) <= deep
    ensures NormalProduct(CanonAll(Sorted(ks), deep))
  {
    hide Sorted;
    SortedPermutes(ks);
    var s := Sorted(ks);
    assert |multiset(s)| == |s| && |multiset(ks)| == |ks|;
    var r := CanonAll(s, deep);
    forall i | 0 <= i < |r| ensures !r[i].Product? && (i > 0 ==> !IsNumber(r[i])) {
      assert s[i] in ks;
      if i > 0 && IsNumber(s[i]) {
        SortedIsInOrder(ks, 0, i);
        var k, l := PairMoves(s, ks, 0, i);
      }
    }
    if IsNumber(s[0]) {
      assert s[0] in ks;
      if |ks| == 2 {
        var k, l := PairMoves(s, ks, 0, 1);
        if ks[1].Sum? { AllNumericSorted(ks[1]); }
      }
    }
  }

  lemma AllNumericSorted(n: Node)
    requires n.Sum?
    ensures AllNumeric(Canon(n).kids) ==> AllNumeric(n.kids)
  {
    var s := Sorted(n.kids);
    forall i | 0 <= i < |n.kids| && AllNumeric(Canon(n).kids) ensures n.kids[i].Numeric? {
      assert n.kids[i] in s;
      var k :| 0 <= k < |s| && s[k] == n.kids[i];
      assert Canon(n).kids[k] == Canon(s[k]);
    }
  }

  lemma SortedFuncIsNormal(name: string, ks: seq<Node>, deep: nat)
    requires NormalFunc(name, ks) && forall n :: n in ks ==> Nesting(n) <= deep
    ensures NormalFunc(name, CanonAll(ks, deep))
  {
    var r := CanonAll(ks, deep);
    if SameUnit(r) {
      forall i | 0 <= i < |ks| ensures ks[i] == r[i] { assert r[i] == Canon(ks[i]); }
    }
  }

  // ----- simplifying what was read back sorts the operands -----

  lemma SortedIsUnmixed(ks: seq<Node>, deep: nat)
    requires !Mixed(ks) && forall n :: n in ks ==> Nesting(n) <= deep
    ensures !Mixed(CanonAll(Sorted(ks), deep))
  {
    hide Sorted;
    var s := Sorted(ks);
    var r := CanonAll(s, deep);
    if i, j :| 0 <= i < |r| && IsNumber(r[i]) && 0 <= j < |r| && r[j].Numeric? && r[j].unit != "" {
      assert r[i] == s[i] && r[j] == s[j] && s[i] in ks && s[j] in ks;
    }
  }

  lemma NegateTwice(v: Num)
    ensures Neg(Neg(v)) == v
  {}

  lemma {:induction false} ReparsedSimplifies(n: Node)
    requires Normal(n) && Tidy(n) && Unmixed(n)
    ensures Simplify(Reparsed(n)) == Canon(n) && Typed(Reparsed(n))
    decreases Nesting(n), 0
  {
    hide Sorted;
    hide SimpleSum;
    hide SimpleProduct;
    hide SimpleFunc;
    match n
    case Numeric(_, _) =>
    case Opaque(_) =>
    case Negate(_) =>
    case Invert(kid) =>
      ReparsedSimplifies(kid);
      InverseSimplifies(kid);
    case Func(name, args) =>
      forall i | 0 <= i < |args| ensures Simplify(Reparsed(args[i])) == Canon(args[i]) && Typed(Reparsed(args[i])) { ReparsedSimplifies(args[i]); }
      assert SimplifyAll(ReparsedArgs(args, Deepest(args))) == CanonAll(args, Deepest(args));
      SortedFuncIsNormal(name, args, Deepest(args));
      FuncStays(name, CanonAll(args, Deepest(args)));
    case Sum(kids) =>
      TermsSimplify(kids, Deepest(kids));
    case Product(kids) =>
      FactorsSimplify(kids, Deepest(kids));
  }

  lemma FuncStays(name: string, ks: seq<Node>)
    requires NormalFunc(name, ks)
    ensures SimpleFunc(name, ks) == Func(name, ks)
  {}

  lemma InverseSimplifies(kid: Node)
    requires Simplify(Reparsed(kid)) == Canon(kid) && !IsNumber(kid) && !kid.Invert?
    ensures Simplify(Reparsed(Invert(kid))) == Canon(Invert(kid))
  {
    hide SimpleProduct;
    hide Simplify;
    hide Reparsed;
    hide Canon;
    InvertIs(kid);
    PairSimplifies(Reparsed(kid));
    OneOver(Invert(Canon(kid)));
  }

  lemma InvertIs(kid: Node)
    ensures Reparsed(Invert(kid)) == Product([Numeric(Fin(1.0), ""), Invert(Reparsed(kid))])
    ensures Canon(Invert(kid)) == Invert(Canon(kid))
  {
    hide Sorted;
  }

  lemma PairSimplifies(m: Node)
    ensures var one := Numeric(Fin(1.0), "");
            Simplify(Product([one, Invert(m)])) == SimpleProduct([one, SimpleInvert(Simplify(m))])
  {
    hide SimpleProduct;
    hide SimpleInvert;
    var one := Numeric(Fin(1.0), "");
    assert SimplifyAll([one, Invert(m)]) == [one, SimpleInvert(Simplify(m))];
  }

  lemma OneOver(c: Node)
    requires c.Invert?
    ensures SimpleProduct([Numeric(Fin(1.0), ""), c]) == c
  {
    var one := Numeric(Fin(1.0), "");
    var p := [one, c];
    FlatAlready(false, p);
    OneIsNeutral(Fin(1.0));
    assert p[1..] == [c] && [c][1..] == [];
    assert Rest([c]) == [c] && Factor(Fin(1.0), [c]) == Fin(1.0);
    assert Rest(p) == [c] && Factor(Fin(1.0), p) == Fin(1.0);
  }

  lemma {:induction false} TermsSimplify(kids: seq<Node>, deep: nat)
    requires Normal(Sum(kids)) && Tidy(Sum(kids)) && Unmixed(Sum(kids)) && Deepest(kids) <= deep
    ensures var terms := ReparsedTerms(Sorted(kids), true, deep);
            Simplify(Sum(terms)) == Sum(CanonAll(Sorted(kids), deep)) && Typed(Sum(terms))
    decreases deep, 2
  {
    hide Sorted;
    hide Canon;
    hide Reparsed;
    hide ReparsedTerm;
    hide Merged;
    hide Flat;
    hide NormalSum;
    var s := Sorted(kids);
    var terms, r := ReparsedTerms(s, true, deep), CanonAll(s, deep);
    if kids != [] { SortedFirst(kids); }
    forall i | 0 <= i < |s| ensures Simplify(terms[i]) == r[i] && Typed(terms[i]) {
      assert s[i] in kids;
      SortedTermIsTidy(kids, i);
      TermSimplifies(s[i], i == 0, deep);
    }
    assert SimplifyAll(terms) == r;
    SortedSumIsNormal(kids, deep);
    SortedIsUnmixed(kids, deep);
    SumStays(r);
  }

  lemma SumStays(ks: seq<Node>)
    requires NormalSum(ks)
    ensures SimpleSum(ks) == Sum(ks) && Merged(Flat(true, ks)) == ks
  {
    FlatAlready(true, ks);
    MergedAlready(ks);
  }

  lemma SortedTermIsTidy(kids: seq<Node>, i: nat)
    requires Tidy(Sum(kids)) && i < |Sorted(kids)|
    ensures TidyTerm(Sorted(kids)[i], i == 0)
  {
    hide Sorted;
    var k := Sorted(kids)[i];
    assert k in kids;
    var j :| 0 <= j < |kids| && kids[j] == k;
    TermsOf(Sum(kids));
    LaterTerm(k);
    SortedFirst(kids);
  }

  lemma {:induction false} TermSimplifies(k: Node, first: bool, deep: nat)
    requires Normal(k) && TidyTerm(k, first) && Unmixed(k) && Nesting(k) <= deep
    ensures Simplify(ReparsedTerm(k, first)) == Canon(k) && Typed(ReparsedTerm(k, first))
    decreases deep, 1
  {
    hide Sorted;
    if k.Negate? {
      ReparsedSimplifies(k.kid);
    } else if !first && IsNegative(k) {
      NegateTwice(k.value);
    } else {
      ReparsedSimplifies(k);
    }
  }

  lemma {:induction false} FactorsSimplify(kids: seq<Node>, deep: nat)
    requires Normal(Product(kids)) && Tidy(Product(kids)) && Unmixed(Product(kids)) && Deepest(kids) <= deep
    ensures var factors := ReparsedFactors(Sorted(kids), true, deep);
            Simplify(Product(factors)) == Product(CanonAll(Sorted(kids), deep)) && Typed(Product(factors))
    decreases deep, 2
  {
    hide Sorted;
    hide Canon;
    hide Reparsed;
    hide ReparsedFactor;
    hide SimpleProduct;
    hide NormalProduct;
    var s := Sorted(kids);
    var factors, r := ReparsedFactors(s, true, deep), CanonAll(s, deep);
    forall i | 0 <= i < |s| ensures Simplify(factors[i]) == r[i] && Typed(factors[i]) {
      assert s[i] in kids;
      FactorSimplifies(s[i], i == 0, deep);
    }
    assert SimplifyAll(factors) == r;
    SortedProductIsNormal(kids, deep);
    SimpleProductAlready(r);
  }

  lemma {:induction false} FactorSimplifies(k: Node, first: bool, deep: nat)
    requires Normal(k) && Tidy(k) && Unmixed(k) && Nesting(k) <= deep
    ensures Simplify(ReparsedFactor(k, first)) == Canon(k) && Typed(ReparsedFactor(k, first))
    decreases deep, 1
  {
    hide Sorted;
    if !first && k.Invert? {
      ReparsedSimplifies(k.kid);
    } else {
      ReparsedSimplifies(k);
    }
  }

  // ----- sorted trees print as they did -----

  predicate InCanonicalOrder(ks: seq<Node>) {
    forall i, j :: 0 <= i < j < |ks| ==>
      Rank(ks[i]) <= Rank(ks[j]) && (Rank(ks[i]) == 2 && Rank(ks[j]) == 2 ==> NoLater(ks[i].unit, ks[j].unit))
  }

  lemma {:induction false} RankedAlready(ks: seq<Node>)
    requires InCanonicalOrder(ks)
    ensures Ranked(ks, 0) + Ranked(ks, 1) + Ranked(ks, 2) + Ranked(ks, 3) == ks
    decreases |ks|
  {
    hide Ranked;
    hide NoLater;
    if ks == [] {
      NoneRanked();
    } else {
      var x, rest := ks[0], ks[1..];
      RankedAlready(rest);
      forall rank: nat | rank < Rank(x) ensures Ranked(rest, rank) == [] { NoneOfRank(rest, rank); }
      assert ks == [x] + rest;
      RankedFirst(ks, 0);
      RankedFirst(ks, 1);
      RankedFirst(ks, 2);
      RankedFirst(ks, 3);
      PutFirst(x, Rank(x), Ranked(rest, 0), Ranked(rest, 1), Ranked(rest, 2), Ranked(rest, 3));
    }
  }

  lemma {:induction false} NoneOfRank(ks: seq<Node>, rank: nat)
    requires forall i :: 0 <= i < |ks| ==> Rank(ks[i]) != rank
    ensures Ranked(ks, rank) == []
    decreases |ks|
  {
    if ks != [] { NoneOfRank(ks[1..], rank); }
  }

  lemma RankedFirst(ks: seq<Node>, rank: nat)
    requires ks != []
    ensures Ranked(ks, rank) == (if Rank(ks[0]) == rank then [ks[0]] else []) + Ranked(ks[1..], rank)
  {}

  lemma PutFirst(x: Node, rank: nat, r0: seq<Node>, r1: seq<Node>, r2: seq<Node>, r3: seq<Node>)
    requires rank <= 3 && (rank > 0 ==> r0 == []) && (rank > 1 ==> r1 == []) && (rank > 2 ==> r2 == [])
    ensures (if rank == 0 then [x] else []) + r0 + ((if rank == 1 then [x] else []) + r1)
            + ((if rank == 2 then [x] else []) + r2) + ((if rank == 3 then [x] else []) + r3)
         == [x] + (r0 + r1 + r2 + r3)
  {}

  lemma {:induction false} ByUnitAlready(ks: seq<Node>)
    requires AllNumeric(ks) && InUnitOrder(ks)
    ensures ByUnit(ks) == ks
    decreases |ks|
  {
    if ks != [] {
      var front, last := ks[..|ks| - 1], ks[|ks| - 1];
      ByUnitAlready(front);
      assert ks == front + [last];
    }
  }

  lemma {:induction false} RankedInUnitOrder(ks: seq<Node>)
    requires InCanonicalOrder(ks)
    ensures AllNumeric(Ranked(ks, 2)) && InUnitOrder(Ranked(ks, 2))
    decreases |ks|
  {
    hide NoLater;
    hide Ranked;
    assert forall i :: 0 <= i < |Ranked(ks, 2)| ==> Ranked(ks, 2)[i] in Ranked(ks, 2);
    if ks == [] {
      NoneRanked();
    } else {
      RankedInUnitOrder(ks[1..]);
      RankedFirst(ks, 2);
      if Rank(ks[0]) == 2 {
        var rest := Ranked(ks[1..], 2);
        forall j | 0 <= j < |rest| ensures NoLater(ks[0].unit, rest[j].unit) {
          assert rest[j] in rest;
          var k :| 0 <= k < |ks[1..]| && ks[1..][k] == rest[j];
          assert ks[k + 1] == rest[j];
        }
      }
    }
  }

  lemma SortedAlready(ks: seq<Node>)
    requires InCanonicalOrder(ks)
    ensures Sorted(ks) == ks
  {
    RankedAlready(ks);
    RankedInUnitOrder(ks);
    ByUnitAlready(Ranked(ks, 2));
  }

  lemma CanonIsSorted(ks: seq<Node>, deep: nat)
    requires forall n :: n in ks ==> Nesting(n) <= deep
    ensures Sorted(CanonAll(Sorted(ks), deep)) == CanonAll(Sorted(ks), deep)
  {
    hide Sorted;
    var s := Sorted(ks);
    var r := CanonAll(s, deep);
    forall i, j | 0 <= i < j < |r|
      ensures Rank(r[i]) <= Rank(r[j]) && (Rank(r[i]) == 2 && Rank(r[j]) == 2 ==> NoLater(r[i].unit, r[j].unit))
    {
      SortedIsInOrder(ks, i, j);
      assert r[i] == Canon(s[i]) && r[j] == Canon(s[j]);
    }
    SortedAlready(r);
  }

  lemma {:induction false} SameTerms(a: seq<Node>, b: seq<Node>, first: bool, f: Format, deepA: nat, deepB: nat)
    requires |a| == |b| && (forall n :: n in a ==> Nesting(n) <= deepA) && forall n :: n in b ==> Nesting(n) <= deepB
    requires forall i, o :: 0 <= i < |a| ==> TermText(a[i], o, f) == TermText(b[i], o, f)
    ensures TermsText(a, first, f, deepA) == TermsText(b, first, f, deepB)
    decreases |a|
  {
    hide TermText;
    if a != [] { SameTerms(a[1..], b[1..], false, f, deepA, deepB); }
  }

  lemma {:induction false} SameFactors(a: seq<Node>, b: seq<Node>, first: bool, f: Format, deepA: nat, deepB: nat)
    requires |a| == |b| && (forall n :: n in a ==> Nesting(n) <= deepA) && forall n :: n in b ==> Nesting(n) <= deepB
    requires forall i, o :: 0 <= i < |a| ==> FactorText(a[i], o, f) == FactorText(b[i], o, f)
    ensures FactorsText(a, first, f, deepA) == FactorsText(b, first, f, deepB)
    decreases |a|
  {
    hide FactorText;
    if a != [] { SameFactors(a[1..], b[1..], false, f, deepA, deepB); }
  }

  lemma {:induction false} SameArgs(a: seq<Node>, b: seq<Node>, first: bool, f: Format, deepA: nat, deepB: nat)
    requires |a| == |b| && (forall n :: n in a ==> Nesting(n) <= deepA) && forall n :: n in b ==> Nesting(n) <= deepB
    requires forall i :: 0 <= i < |a| ==> Text(a[i], f) == Text(b[i], f)
    ensures ArgsText(a, first, f, deepA) == ArgsText(b, first, f, deepB)
    decreases |a|
  {
    hide Text;
    hide Stripped;
    if a != [] { SameArgs(a[1..], b[1..], false, f, deepA, deepB); }
  }

  lemma {:induction false} CanonPrintsAlike(n: Node, f: Format)
    ensures Text(Canon(n), f) == Text(n, f)
    decreases Nesting(n), 0
  {
    hide Sorted;
    hide TermsText;
    hide FactorsText;
    hide ArgsText;
    match n
    case Numeric(_, _) =>
    case Opaque(_) =>
    case Negate(kid) => CanonPrintsAlike(kid, f);
    case Invert(kid) => CanonPrintsAlike(kid, f);
    case Func(name, args) =>
      var r := CanonAll(args, Deepest(args));
      forall i | 0 <= i < |r| ensures Text(r[i], f) == Text(args[i], f) { CanonPrintsAlike(args[i], f); }
      SameArgs(r, args, true, f, Deepest(r), Deepest(args));
    case Sum(kids) =>
      var s := Sorted(kids);
      var r := CanonAll(s, Deepest(kids));
      CanonIsSorted(kids, Deepest(kids));
      forall i, o | 0 <= i < |r| ensures TermText(r[i], o, f) == TermText(s[i], o, f) { OperandPrintsAlike(s[i], f, Deepest(kids)); }
      SameTerms(r, s, true, f, Deepest(r), Deepest(kids));
    case Product(kids) =>
      var s := Sorted(kids);
      var r := CanonAll(s, Deepest(kids));
      CanonIsSorted(kids, Deepest(kids));
      forall i, o | 0 <= i < |r| ensures FactorText(r[i], o, f) == FactorText(s[i], o, f) { OperandPrintsAlike(s[i], f, Deepest(kids)); }
      SameFactors(r, s, true, f, Deepest(r), Deepest(kids));
  }

  lemma {:induction false} OperandPrintsAlike(k: Node, f: Format, deep: nat)
    requires Nesting(k) <= deep
    ensures forall first :: TermText(Canon(k), first, f) == TermText(k, first, f) && FactorText(Canon(k), first, f) == FactorText(k, first, f)
    decreases deep, 1
  {
    hide Sorted;
    hide Text;
    CanonPrintsAlike(k, f);
    if k.Negate? { CanonPrintsAlike(k.kid, f); }
    if k.Invert? { CanonPrintsAlike(k.kid, f); }
  }

  // ----- the whole way twice -----

  lemma {:induction false} CanonIsExact(n: Node, f: Format)
    requires ExactNumbers(n, f)
    ensures ExactNumbers(Canon(n), f)
    decreases Nesting(n)
  {
    hide Exact;
    hide Sorted;
    match n
    case Numeric(_, _) =>
    case Opaque(_) =>
    case Negate(kid) => CanonIsExact(kid, f);
    case Invert(kid) => CanonIsExact(kid, f);
    case Func(name, args) =>
      forall i | 0 <= i < |args| ensures ExactNumbers(Canon(args[i]), f) { CanonIsExact(args[i], f); }
    case Sum(kids) =>
      var s := Sorted(kids);
      forall i | 0 <= i < |s| ensures ExactNumbers(Canon(s[i]), f) { assert s[i] in kids; CanonIsExact(s[i], f); }
    case Product(kids) =>
      var s := Sorted(kids);
      forall i | 0 <= i < |s| ensures ExactNumbers(Canon(s[i]), f) { assert s[i] in kids; CanonIsExact(s[i], f); }
  }

  lemma CanonicalTreeSimplifies(n: Node, keepCalc: bool)
    requires Normal(n) && Tidy(n) && Unmixed(n)
    ensures Simplify(CanonicalTree(n, keepCalc)) == Canon(n) && Typed(CanonicalTree(n, keepCalc))
  {
    hide Reparsed;
    hide Canon;
    ReparsedSimplifies(n);
    var m := Reparsed(n);
    assert SimplifyAll([m]) == [Simplify(m)];
  }

  /** Canonical text put in again gives the canonical text of the same tree. */
  lemma CanonicalAgain(text: string, keepCalc: bool, again: bool, f: Format)
    requires Sane(f) && CanonicalText(text, keepCalc, f).Some?
    requires var n := Simplify(ParseValue(text, 0, f).value); ExactNumbers(n, f) && Nesting(n) < DEPTH_CAP
    ensures var n, t := Simplify(ParseValue(text, 0, f).value), CanonicalText(text, keepCalc, f).value;
            t == Canonical(n, keepCalc, f) && CanonicalText(t, again, f) == Some(Canonical(n, again, f))
  {
    hide ParseValue;
    hide Exact;
    hide TextHolds;
    hide Text;
    hide Canon;
    hide Simplify;
    hide Typed;
    hide Normal;
    hide Tidy;
    hide Unmixed;
    hide Printable;
    hide CanonicalTree;
    hide Sorted;
    var parsed := ParseValue(text, 0, f).value;
    var n := Simplify(parsed);
    ValueIsBuilt(text, 0, f);
    ValueIsTidy(text, 0, f);
    SimplifyTidies(parsed);
    SimplifiedIsNormal(parsed);
    SimplifyKeepsBuilt(parsed);
    BuiltIsPrintable(n, f);
    CanonicalIsRead(n, keepCalc, f);
    CanonicalTreeSimplifies(n, keepCalc);
    CanonPrintsAlike(n, f);
    CanonIsExact(n, f);
    ExactIsKept(Canon(n), f);
    assert SkipWs("") == "";
  }


  /** Canonical text is its own canonical text exactly when it is a `calc()` put around the result, or a
      comparison: another function standing alone is not accepted as a value, and a `calc()` of several
      arguments standing alone gets another one around it. */
  lemma CanonicalStands(text: string, f: Format)
    requires Sane(f) && PlainSpelling(f) && ValueCanonical(text, f).Some?
    requires var n := Simplify(ParseValue(Trimmed(text), 0, f).value); ExactNumbers(n, f) && Nesting(n) < DEPTH_CAP
    ensures var s, t := Trimmed(text), ValueCanonical(text, f).value;
            var n := Simplify(ParseValue(s, 0, f).value);
            ValueCanonical(t, f) == Some(t) <==> Wrapped(n, WordAhead(s) == "calc") || IsComparison(n.name)
  {
    hide ParseValue;
    hide CanonicalText;
    hide ValueCanonical;
    hide Canonical;
    hide Exact;
    hide ExactNumbers;
    hide Printable;
    hide Simplify;
    hide Nesting;
    hide Built;
    hide IsMath;
    hide PlainSpelling;
    hide Trimmed;
    hide WordAhead;
    hide Passes;
    var s := Trimmed(text);
    var keep := WordAhead(s) == "calc";
    ValueIsCall(text, f);
    Accepted(s, keep, f);
    var n, t := Simplify(ParseValue(s, 0, f).value), ValueCanonical(text, f).value;
    CanonicalAgain(s, keep, true, f);
    CanonicalAgain(s, keep, false, f);
    ResultIsBuilt(s, keep, f);
    BuiltIsPrintable(n, f);
    CanonicalIsCall(n, keep, f);
    if Wrapped(n, keep) {
      WrapCloses(n, f);
      CallIsValue("calc", Stripped(Text(n, f)), f);
    } else {
      var inner := FunctionIsCalled(n, f);
      CallIsValue(n.name, inner, f);
      FunctionIsBare(n, f);
    }
  }

  lemma ValueIsCall(text: string, f: Format)
    ensures ValueCanonical(text, f).Some? ==> ValueCanonical(text, f) == CanonicalText(Trimmed(text), WordAhead(Trimmed(text)) == "calc", f)
  {
    hide CanonicalText;
    hide Trimmed;
    hide ClosingAt;
    hide WordAhead;
    hide IdentLength;
  }

  lemma CanonicalIsCall(n: Node, keep: bool, f: Format)
    ensures Canonical(n, keep, f) == if Wrapped(n, keep) then "calc" + "(" + Stripped(Text(n, f)) + ")" else Text(n, f)
    ensures Canonical(n, true, f) == Canonical(n, keep, f) || !Wrapped(n, keep)
    ensures Canonical(n, false, f) == Text(n, f) || !n.Func?
  {
    hide Text;
    hide Stripped;
    var inner := Stripped(Text(n, f));
    assert "calc" + "(" + inner + ")" == "calc(" + inner + ")";
  }

  /** What a call comes to as a value. */
  lemma CallIsValue(name: string, inner: string, f: Format)
    requires IsMath(name) && Passes(inner)
    ensures var t := name + "(" + inner + ")";
            ValueCanonical(t, f) == if name == "calc" || IsComparison(name) then CanonicalText(t, name == "calc", f) else None
  {
    hide CanonicalText;
    hide Trimmed;
    hide ClosingAt;
    hide WordAhead;
    hide IdentLength;
    hide Passes;
    hide IsMath;
    CallStands(name, inner);
  }

  lemma WrapCloses(n: Node, f: Format)
    requires Printable(n, f) && PlainSpelling(f)
    ensures IsMath("calc") && Passes(Stripped(Text(n, f)))
  {
    hide Stripped;
    StrippedIsInside(n, f);
    TextPasses(n, f);
  }

  /** A call is trimmed already, starts with its name, and closes where it ends. */
  lemma CallStands(name: string, inner: string)
    requires IsMath(name) && Passes(inner)
    ensures var t := name + "(" + inner + ")";
            && Trimmed(t) == t && WordAhead(t) == name && 0 < IdentLength(t) < |t| && t[IdentLength(t)] == '('
            && ClosingAt(t[IdentLength(t)..], 0) == Some(|t| - IdentLength(t) - 1)
  {
    hide IsMath;
    var t := name + "(" + inner + ")";
    MathIsPlain(name);
    MathIsCalled(name, inner + ")");
    assert t == name + "(" + (inner + ")");
    CallCloses(inner);
    assert "(" + (inner + ")") == "(" + inner + ")";
    assert t[0] == name[0] && t[|t| - 1] == ')';
    assert |t[IdentLength(t)..]| == |t| - IdentLength(t);
  }

  lemma Accepted(text: string, keep: bool, f: Format)
    ensures CanonicalText(text, keep, f).Some? ==> ParseValue(text, 0, f).Done?
  {}

  lemma ResultIsBuilt(text: string, keep: bool, f: Format)
    requires CanonicalText(text, keep, f).Some?
    ensures Built(Simplify(ParseValue(text, 0, f).value))
  {
    hide ParseValue;
    hide Simplify;
    hide Built;
    ValueIsBuilt(text, 0, f);
    SimplifyKeepsBuilt(ParseValue(text, 0, f).value);
  }

  /** The word in front of a call. */
  lemma MathIsCalled(name: string, more: string)
    requires IsMath(name)
    ensures var t := name + "(" + more; WordAhead(t) == name && t[IdentLength(t)..] == "(" + more
  {
    MathIsPlain(name);
    assert name + "(" + more == name + ("(" + more);
    WordIsWord(name, "(" + more);
  }

  lemma FunctionIsCalled(n: Node, f: Format) returns (inner: string)
    requires n.Func? && Printable(n, f) && PlainSpelling(f)
    ensures IsMath(n.name) && Text(n, f) == n.name + "(" + inner + ")" && Passes(inner)
  {
    hide Passes;
    inner := ArgsText(n.args, true, f, Deepest(n.args));
    ArgsPass(n.name, n.args, true, f, Deepest(n.args));
  }

  /** Nothing is stripped of a call, so that wrapping makes it longer. */
  lemma FunctionIsBare(n: Node, f: Format)
    requires n.Func? && Built(n)
    ensures Canonical(n, true, f) != Text(n, f) || IsComparison(n.name)
  {
    MathIsPlain(n.name);
    var t := Text(n, f);
    assert t[0] == n.name[0];
    assert |"calc(" + Stripped(t) + ")"| == |t| + 6;
  }

  /** A value whose canonical text is no value. */
  lemma SineAlone(f: Format)
    requires Sane(f)
    ensures ValueCanonical("min(sin(1))", f) == Some("sin(1)") && ValueCanonical("sin(1)", f) == None
  {
    hide ParseValue;
    hide Exact;
    hide IsMath;
    hide Simplify;
    hide Typed;
    hide Text;
    hide TextHolds;
    hide ValueCanonical;
    SineTexts(f);
    SineIsRead(f);
    SineSimplifies(f);
    SineWords(f);
    assert SkipWs("") == "";
  }

  lemma SineWords(f: Format)
    ensures ValueCanonical("min(sin(1))", f) == CanonicalText("min(sin(1))", false, f)
    ensures ValueCanonical("sin(1)", f) == None
  {
    hide ValueCanonical;
    hide CanonicalText;
    hide ClosingAt;
    hide Passes;
    hide IsMath;
    SineNames();
    PlainPasses("1");
    PlainPasses("sin");
    BracketsPass("1");
    assert "(" + "1" + ")" == "(1)" && "sin" + "(1)" == "sin(1)";
    BothPass("sin", "(1)");
    CallIsValue("sin", "1", f);
    CallIsValue("min", "sin(1)", f);
    assert "min" + "(" + "sin(1)" + ")" == "min(sin(1))" && "sin" + "(" + "1" + ")" == "sin(1)";
  }

  lemma SineNames()
    ensures IsMath("min") && IsMath("sin") && AllPlain("1") && AllPlain("sin")
  {}

  lemma SineIsRead(f: Format)
    requires Sane(f)
    ensures ParseValue("min(sin(1))", 0, f) == Done(Func("min", [Func("sin", [Numeric(Fin(1.0), "")])]), "")
  {
    hide ParseValue;
    hide Exact;
    hide Printable;
    hide Text;
    hide Reparsed;
    SineTexts(f);
    SinePrintable(f);
    SineReparsed();
    ValueIsRead(Func("min", [Func("sin", [Numeric(Fin(1.0), "")])]), "", 0, f);
    assert "min(sin(1))" + "" == "min(sin(1))";
  }

  lemma SineSimplifies(f: Format)
    requires Sane(f)
    ensures var least := Func("min", [Func("sin", [Numeric(Fin(1.0), "")])]);
            Simplify(least) == least.args[0] && Typed(least) && TextHolds(least.args[0], f)
  {
    hide Exact;
    hide NumberHolds;
    var one := Numeric(Fin(1.0), "");
    var sine := Func("sin", [one]);
    assert SimplifyAll([one]) == [one] && SimplifyAll([sine]) == [sine];
    ExactHolds(1.0, f);
  }

  lemma SineTexts(f: Format)
    requires Sane(f)
    ensures Text(Func("sin", [Numeric(Fin(1.0), "")]), f) == "sin(1)"
    ensures Text(Func("min", [Func("sin", [Numeric(Fin(1.0), "")])]), f) == "min(sin(1))"
  {
    var one := Numeric(Fin(1.0), "");
    var sine := Func("sin", [one]);
    LiteralText(1.0, f);
    assert Text(one, f) == "1" && ArgsText([one], true, f, Deepest([one])) == "" + "1" + "";
    assert Text(sine, f) == "sin" + "(" + "1" + ")";
    assert ArgsText([sine], true, f, Deepest([sine])) == "" + "sin(1)" + "";
  }

  lemma SinePrintable(f: Format)
    requires Sane(f)
    ensures var least := Func("min", [Func("sin", [Numeric(Fin(1.0), "")])]); Printable(least, f) && Nesting(least) == 2
  {
    hide Exact;
    PlainUnit();
    var one := Numeric(Fin(1.0), "");
    var sine := Func("sin", [one]);
    assert Printable(one, f) && Deepest([one]) == 0;
    assert PrintableArg("sin", true, one, f) && Printable(sine, f);
    assert Nesting(sine) == 1 && Deepest([sine]) == 1;
    assert PrintableArg("min", true, sine, f);
  }

  lemma SineReparsed()
    ensures var least := Func("min", [Func("sin", [Numeric(Fin(1.0), "")])]); Reparsed(least) == least
  {
    var one := Numeric(Fin(1.0), "");
    var sine := Func("sin", [one]);
    assert ReparsedArgs([one], Deepest([one])) == [one];
    assert ReparsedArgs([sine], Deepest([sine])) == [sine];
  }
}
