/** Numbers beyond the reals. */
module CalcNumbers {
  import opened CalcTree
  import opened CalcText
  import opened CalcPrint
  import opened CalcSteps
  import opened CalcOrder
  import opened Chars = CssSyntax

  // ----- arithmetic with infinities and NaN -----

  /** Addition is the one of the reals, with an infinity absorbing what is finite. */
  lemma AdditionLaws(a: Num, b: Num, c: Num)
    ensures Add(a, b) == Add(b, a) && Add(Add(a, b), c) == Add(a, Add(b, c)) && Add(a, Fin(0.0)) == a
    ensures Add(a, Neg(a)) == if a.Fin? then Fin(0.0) else NaN
    ensures a.NaN? ==> Add(a, b).NaN?
    ensures a.Inf? && (b == a || b.Fin?) ==> Add(a, b) == a
    ensures Less(a, b) && c.Fin? ==> Less(Add(a, c), Add(b, c))
  {}

  lemma ProductSign(x: real, y: real)
    ensures Prod(x, y) == Prod(y, x) && (Prod(x, y) == 0.0 <==> x == 0.0 || y == 0.0)
    ensures Prod(x, y) > 0.0 <==> (x > 0.0 && y > 0.0) || (x < 0.0 && y < 0.0)
  {}

  /** Multiplication keeps the rule of signs; zero times an infinity has no value. */
  lemma MultiplicationLaws(a: Num, b: Num)
    ensures Mul(a, b) == Mul(b, a) && Mul(a, Fin(1.0)) == a && Mul(a, Fin(-1.0)) == Neg(a)
    ensures Mul(a, b).NaN? <==> a.NaN? || b.NaN? || (a.Inf? && b == Fin(0.0)) || (a == Fin(0.0) && b.Inf?)
    ensures Mul(a, b).Inf? <==> !Mul(a, b).NaN? && (a.Inf? || b.Inf?)
    ensures !Mul(a, b).NaN? ==> Sign(Mul(a, b)) == Sign(a) * Sign(b)
  {
    if a.Fin? && b.Fin? { ProductSign(a.v, b.v); }
    if a.Fin? { assert Prod(a.v, -1.0) == -a.v; }
  }

  lemma MultiplicationAssociates(a: Num, b: Num, c: Num)
    ensures Mul(Mul(a, b), c) == Mul(a, Mul(b, c))
  {
    hide Mul;
    hide Sign;
    MultiplicationLaws(a, b);
    MultiplicationLaws(b, c);
    MultiplicationLaws(Mul(a, b), c);
    MultiplicationLaws(a, Mul(b, c));
    SignsAssociate(Sign(a), Sign(b), Sign(c));
    SignsMean(a);
    SignsMean(b);
    SignsMean(c);
    SignsMean(Mul(a, b));
    SignsMean(Mul(b, c));
    if a.Fin? && b.Fin? && c.Fin? {
      FiniteProducts(a.v, b.v, c.v);
    } else {
      SignsMean(Mul(Mul(a, b), c));
      SignsMean(Mul(a, Mul(b, c)));
      SignsAssociate(Sign(a), Sign(b), Sign(c));
    }
  }

  lemma SignsAssociate(a: int, b: int, c: int)
    ensures a * b * c == a * (b * c)
  {}

  lemma SignsMean(a: Num)
    ensures Sign(a) == 0 <==> a.NaN? || a == Fin(0.0)
    ensures a.Inf? ==> a == Inf(Sign(a) < 0)
    ensures -1 <= Sign(a) <= 1
  {}

  lemma FiniteProducts(x: real, y: real, z: real)
    ensures Mul(Mul(Fin(x), Fin(y)), Fin(z)) == Mul(Fin(x), Mul(Fin(y), Fin(z)))
  {
    assert x * y * z == x * (y * z);
  }

  lemma Reciprocal(x: real)
    requires x != 0.0
    ensures Prod(x, 1.0 / x) == 1.0 && 1.0 / x != 0.0
  {}

  lemma ReciprocalTwice(x: real)
    requires x != 0.0 && 1.0 / x != 0.0
    ensures 1.0 / (1.0 / x) == x
  {
    var y := 1.0 / x;
    assert x * y == 1.0;
    assert (1.0 / y) * y == 1.0;
    SameFactor(x, 1.0 / y, y);
  }

  lemma SameFactor(a: real, b: real, y: real)
    requires a * y == b * y && y != 0.0
    ensures a == b
  {}

  /** The inverse undoes multiplication and itself; only minus infinity comes back as plus infinity,
      zero having no sign here. */
  lemma InverseLaws(a: Num)
    ensures Mul(a, Inverse(a)) == if a.Fin? && a.v != 0.0 then Fin(1.0) else NaN
    ensures Inverse(Inverse(a)) == if a == Inf(true) then Inf(false) else a
  {
    hide Prod;
    if a.Fin? && a.v != 0.0 {
      Reciprocal(a.v);
      ReciprocalTwice(a.v);
    }
  }

  lemma NegationLaws(a: Num)
    ensures Neg(Neg(a)) == a && Sign(Neg(a)) == -Sign(a) && Sign(Magnitude(a)) >= 0
    ensures Magnitude(a) == a || Magnitude(a) == Neg(a)
  {
    match a {
      case Fin(v) =>
      case Inf(_) =>
      case NaN =>
    }
  }

  /** A strict total order of all but NaN, from minus to plus infinity. */
  lemma OrderLaws(a: Num, b: Num, c: Num)
    ensures !Less(a, a) && (Less(a, b) && Less(b, c) ==> Less(a, c))
    ensures !a.NaN? && !b.NaN? ==> Less(a, b) || a == b || Less(b, a)
    ensures Less(a, b) <==> Less(Neg(b), Neg(a))
    ensures a.Fin? ==> Less(Inf(true), a) && Less(a, Inf(false)) && (Less(Fin(0.0), a) <==> a.v > 0.0)
    ensures a.NaN? ==> !Less(a, b) && !Less(b, a)
  {}

  // ----- the words for them -----

  /** What the printer writes for a number that is not finite names that number. */
  lemma NonFiniteIsNamed(v: Num, f: Format)
    requires !v.Fin?
    ensures Constant(Lower(NumberText(v, f))) == Done(v, "")
  {
    match v {
      case NaN => assert Lower("NaN") == "nan";
      case Inf(negative) =>
        if negative { assert Lower("-infinity") == "-infinity"; } else { assert Lower("infinity") == "infinity"; }
    }
  }

  const UPPER := "ABCDEFGHIJKLMNOPQRSTUVWXYZ"
  const LOWER := "abcdefghijklmnopqrstuvwxyz"

  /** Lower-casing moves the letters A to Z onto a to z and nothing else. */
  lemma LowerCharMeans(c: char)
    ensures forall k :: 0 <= k < 26 && UPPER[k] == c ==> LowerChar(c) == LOWER[k]
    ensures c !in UPPER ==> LowerChar(c) == c
  {
    if 'A' <= c <= 'Z' {
      var k := c as int - 'A' as int;
      assert UPPER[k] == c && LOWER[k] == LowerChar(c);
    }
  }

  // ----- the order of names -----

  /** Alphabetical order without regard to case, by the first place where two names differ. */
  predicate Alphabetical(a: string, b: string) {
    exists k :: 0 <= k <= |a| && DiffersAt(a, b, k)
  }

  predicate DiffersAt(a: string, b: string, k: nat)
    requires k <= |a|
  {
    && k <= |b| && (forall j :: 0 <= j < k ==> LowerChar(a[j]) == LowerChar(b[j]))
    && (k == |a| || (k < |b| && LowerChar(a[k]) < LowerChar(b[k])))
  }

  lemma {:induction false} NoLaterIsAlphabetical(a: string, b: string)
    ensures NoLater(a, b) <==> Alphabetical(a, b)
  {
    hide LowerChar;
    if a == "" {
      assert DiffersAt(a, b, 0);
    } else if b != "" && LowerChar(a[0]) == LowerChar(b[0]) {
      NoLaterIsAlphabetical(a[1..], b[1..]);
      if k :| 0 <= k <= |a| && DiffersAt(a, b, k) {
        assert DiffersAt(a[1..], b[1..], k - 1);
      }
      if k :| 0 <= k <= |a| - 1 && DiffersAt(a[1..], b[1..], k) {
        assert forall j :: 1 <= j <= k ==> a[j] == a[1..][j - 1] && b[j] == b[1..][j - 1];
        assert DiffersAt(a, b, k + 1);
      }
    } else {
      if NoLater(a, b) { assert DiffersAt(a, b, 0); }
    }
  }

  /** In the order of printing no number comes behind anything else, no percentage behind a dimension,
      nothing numeric behind the rest, and dimensions are in alphabetical order of their units. */
  lemma PrintingOrder(ks: seq<Node>, i: nat, j: nat)
    requires i < j < |Sorted(ks)|
    ensures var a, b := Sorted(ks)[i], Sorted(ks)[j];
            && (b.Numeric? ==> a.Numeric?)
            && (b.Numeric? && b.unit == "" ==> a.unit == "")
            && (b.Numeric? && b.unit == "%" ==> a.unit == "" || a.unit == "%")
            && (b.Numeric? && b.unit !in {"", "%"} && a.unit !in {"", "%"} ==> Alphabetical(a.unit, b.unit))
  {
    hide Sorted;
    hide NoLater;
    hide Alphabetical;
    SortedIsInOrder(ks, i, j);
    var a, b := Sorted(ks)[i], Sorted(ks)[j];
    if a.Numeric? && b.Numeric? { NoLaterIsAlphabetical(a.unit, b.unit); }
  }
}
