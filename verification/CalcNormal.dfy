/** Normal form is what simplifying fixes. */
module CalcNormal {
  import opened CalcTree

  predicate DistinctUnits(ks: seq<Node>) {
    forall i, j :: 0 <= i < j < |ks| && ks[i].Numeric? && ks[j].Numeric? ==> ks[i].unit != ks[j].unit
  }

  predicate NormalSum(ks: seq<Node>) {
    |ks| != 1 && (forall i :: 0 <= i < |ks| ==> !ks[i].Sum?) && DistinctUnits(ks)
  }

  /** At most one plain number, in front, and then not one that could be left out or multiplied in. */
  predicate NormalProduct(ks: seq<Node>) {
    && |ks| >= 2
    && (forall i :: 0 <= i < |ks| ==> !ks[i].Product? && (i > 0 ==> !IsNumber(ks[i])))
    && (IsNumber(ks[0]) ==>
          && ks[0].value != Fin(1.0)
          && (|ks| == 2 ==> !ks[1].Numeric? && !(ks[1].Sum? && AllNumeric(ks[1].kids))))
  }

  predicate NormalFunc(name: string, ks: seq<Node>) {
    && !((name == "calc" || IsMinMax(name)) && |ks| == 1)
    && !(IsMinMax(name) && SameUnit(ks))
    && !(name == "abs" && |ks| == 1 && ks[0].Numeric? && ks[0].unit != "%")
  }

  /** No simplification applies anywhere in the tree. */
  predicate Normal(n: Node)
    decreases n
  {
    match n
    case Numeric(_, _) => true
    case Opaque(_) => true
    case Sum(kids) => NormalSum(kids) && forall i :: 0 <= i < |kids| ==> Normal(kids[i])
    case Product(kids) => NormalProduct(kids) && forall i :: 0 <= i < |kids| ==> Normal(kids[i])
    case Negate(kid) => Normal(kid) && !kid.Numeric? && !kid.Negate?
    case Invert(kid) => Normal(kid) && !IsNumber(kid) && !kid.Invert?
    case Func(name, args) => NormalFunc(name, args) && forall i :: 0 <= i < |args| ==> Normal(args[i])
  }

  predicate AllNormal(ks: seq<Node>) {
    forall i :: 0 <= i < |ks| ==> Normal(ks[i])
  }

  // ----- the result is normal -----

  lemma {:induction false} FlatIsNormal(sum: bool, ks: seq<Node>)
    requires AllNormal(ks)
    ensures AllNormal(Flat(sum, ks))
    ensures forall i :: 0 <= i < |Flat(sum, ks)| ==> if sum then !Flat(sum, ks)[i].Sum? else !Flat(sum, ks)[i].Product?
    decreases |ks|
  {
    if ks != [] {
      FlatIsNormal(sum, ks[1..]);
    }
  }

  lemma {:induction false} UnlikeIsNormal(ks: seq<Node>, unit: string)
    requires AllNormal(ks) && forall i :: 0 <= i < |ks| ==> !ks[i].Sum?
    ensures AllNormal(Unlike(ks, unit))
    ensures forall i :: 0 <= i < |Unlike(ks, unit)| ==> !Unlike(ks, unit)[i].Sum? && !Like(Unlike(ks, unit)[i], unit)
    ensures forall n :: n in Unlike(ks, unit) ==> n in ks
    decreases |ks|
  {
    if ks != [] {
      UnlikeIsNormal(ks[1..], unit);
    }
  }

  /** Merging keeps units that do not occur from occurring. */
  lemma {:induction false} MergedIsNormal(ks: seq<Node>)
    requires AllNormal(ks) && forall i :: 0 <= i < |ks| ==> !ks[i].Sum?
    ensures AllNormal(Merged(ks)) && DistinctUnits(Merged(ks))
    ensures forall i :: 0 <= i < |Merged(ks)| ==> !Merged(ks)[i].Sum?
    ensures forall i :: 0 <= i < |Merged(ks)| && Merged(ks)[i].Numeric? ==> exists k :: k in ks && Like(k, Merged(ks)[i].unit)
    decreases |ks|
  {
    if ks != [] {
      var k := ks[0];
      if k.Numeric? {
        UnlikeIsNormal(ks[1..], k.unit);
        MergedIsNormal(Unlike(ks[1..], k.unit));
        assert Like(k, k.unit);
      } else {
        MergedIsNormal(ks[1..]);
      }
    }
  }

  lemma {:induction false} RestIsNormal(ks: seq<Node>)
    requires AllNormal(ks) && forall i :: 0 <= i < |ks| ==> !ks[i].Product?
    ensures AllNormal(Rest(ks)) && forall i :: 0 <= i < |Rest(ks)| ==> !Rest(ks)[i].Product? && !IsNumber(Rest(ks)[i])
    decreases |ks|
  {
    if ks != [] {
      RestIsNormal(ks[1..]);
    }
  }

  lemma SimpleSumIsNormal(ks: seq<Node>)
    requires AllNormal(ks)
    ensures Normal(SimpleSum(ks))
  {
    FlatIsNormal(true, ks);
    MergedIsNormal(Flat(true, ks));
  }

  lemma SimpleProductIsNormal(ks: seq<Node>)
    requires AllNormal(ks)
    ensures Normal(SimpleProduct(ks))
  {
    var flat := Flat(false, ks);
    FlatIsNormal(false, ks);
    RestIsNormal(flat);
  }

  lemma {:induction false} SimplifiedIsNormal(n: Node)
    ensures Normal(Simplify(n))
    decreases n, 1
  {
    match n
    case Numeric(_, _) =>
    case Opaque(_) =>
    case Sum(kids) =>
      AllSimplifiedAreNormal(kids);
      SimpleSumIsNormal(SimplifyAll(kids));
    case Product(kids) =>
      AllSimplifiedAreNormal(kids);
      SimpleProductIsNormal(SimplifyAll(kids));
    case Negate(kid) => SimplifiedIsNormal(kid);
    case Invert(kid) => SimplifiedIsNormal(kid);
    case Func(name, args) => AllSimplifiedAreNormal(args);
  }

  lemma {:induction false} AllSimplifiedAreNormal(ks: seq<Node>)
    ensures AllNormal(SimplifyAll(ks))
    decreases ks, 0
  {
    if ks != [] {
      SimplifiedIsNormal(ks[0]);
      AllSimplifiedAreNormal(ks[1..]);
    }
  }

  // ----- normal trees stay as they are -----

  lemma {:induction false} FlatAlready(sum: bool, ks: seq<Node>)
    requires forall i :: 0 <= i < |ks| ==> if sum then !ks[i].Sum? else !ks[i].Product?
    ensures Flat(sum, ks) == ks
    decreases |ks|
  {
    if ks != [] {
      FlatAlready(sum, ks[1..]);
    }
  }

  lemma {:induction false} NothingAlike(value: Num, ks: seq<Node>, unit: string)
    requires forall i :: 0 <= i < |ks| ==> !Like(ks[i], unit)
    ensures Absorb(value, ks, unit) == value && Unlike(ks, unit) == ks
    decreases |ks|
  {
    if ks != [] {
      NothingAlike(value, ks[1..], unit);
    }
  }

  lemma {:induction false} MergedAlready(ks: seq<Node>)
    requires DistinctUnits(ks)
    ensures Merged(ks) == ks
    decreases |ks|
  {
    if ks != [] {
      if ks[0].Numeric? {
        forall i | 0 <= i < |ks[1..]| ensures !Like(ks[1..][i], ks[0].unit) {
          assert ks[1..][i] == ks[i + 1];
        }
        NothingAlike(ks[0].value, ks[1..], ks[0].unit);
      }
      MergedAlready(ks[1..]);
    }
  }

  lemma {:induction false} NoNumbers(f: Num, ks: seq<Node>)
    requires forall i :: 0 <= i < |ks| ==> !IsNumber(ks[i])
    ensures Factor(f, ks) == f && Rest(ks) == ks
    decreases |ks|
  {
    if ks != [] {
      NoNumbers(f, ks[1..]);
    }
  }

  lemma OneIsNeutral(a: Num)
    ensures Mul(Fin(1.0), a) == a
  {}

  lemma SimpleProductAlready(ks: seq<Node>)
    requires NormalProduct(ks)
    ensures SimpleProduct(ks) == Product(ks)
  {
    FlatAlready(false, ks);
    if IsNumber(ks[0]) {
      OneIsNeutral(ks[0].value);
      NoNumbers(ks[0].value, ks[1..]);
      assert Rest(ks) == ks[1..] && Factor(Fin(1.0), ks) == ks[0].value;
      assert ks == [Numeric(ks[0].value, "")] + ks[1..];
    } else {
      NoNumbers(Fin(1.0), ks);
    }
  }

  lemma {:induction false} NormalStays(n: Node)
    requires Normal(n)
    ensures Simplify(n) == n
    decreases n, 1
  {
    match n
    case Numeric(_, _) =>
    case Opaque(_) =>
    case Sum(kids) =>
      AllNormalStay(kids);
      FlatAlready(true, kids);
      MergedAlready(kids);
    case Product(kids) =>
      AllNormalStay(kids);
      SimpleProductAlready(kids);
    case Negate(kid) => NormalStays(kid);
    case Invert(kid) => NormalStays(kid);
    case Func(name, args) => AllNormalStay(args);
  }

  lemma {:induction false} AllNormalStay(ks: seq<Node>)
    requires AllNormal(ks)
    ensures SimplifyAll(ks) == ks
    decreases ks, 0
  {
    if ks != [] {
      NormalStays(ks[0]);
      AllNormalStay(ks[1..]);
    }
  }

  /** A tree is its own simplification exactly when it is normal. */
  lemma NormalIffFixed(n: Node)
    ensures Normal(n) <==> Simplify(n) == n
  {
    SimplifiedIsNormal(n);
    if Normal(n) { NormalStays(n); }
  }

  lemma SimplifyTwice(n: Node)
    ensures Simplify(Simplify(n)) == Simplify(n)
  {
    SimplifiedIsNormal(n);
    NormalStays(Simplify(n));
  }
}
