/** Values without a finite number, printed and read. */
module CalcExtremes {
  import opened CalcTree
  import opened CalcText
  import opened CalcGrammar
  import opened CalcGrammarReads
  import opened CalcNumbers
  import Print = CalcPrint
  import Steps = CalcSteps

  /** The text of infinity or NaN in a unit, as a product of its name and one of the unit. */
  function NamedTimes(word: string, unit: string): SumText {
    var one := FactorText(" ", false, NumberText(" ", "1", unit, 1.0));
    SumText(ProductText(WordText("", word), if unit == "" then [] else [one]), [])
  }

  lemma NamedTimesShows(word: string, unit: string)
    ensures ShowSum(NamedTimes(word, unit)) == if unit == "" then word else word + " * 1" + unit
  {
    var one := FactorText(" ", false, NumberText(" ", "1", unit, 1.0));
    assert ShowValue(one.operand) == " " + ("1" + unit);
    assert ShowValue(WordText("", word)) == word;
    assert ShowFactors([]) == "" && [one][1..] == [];
    assert ShowFactors([one]) == " " + "*" + (" " + ("1" + unit)) + "";
    assert " " + "*" + (" " + ("1" + unit)) + "" == " * 1" + unit;
  }

  lemma WordBeforeProduct(word: string, more: string)
    requires more == "" || more[0] == ' '
    ensures WordEnds(more) && !Opens(more)
  {}

  lemma UnitIsWhole(unit: string)
    requires Steps.IsFixedUnit(unit)
    ensures Lower(unit) == unit && UnitFits(unit, "") && CanonicalUnit(Lower(unit)) == Done(1.0, unit)
  {
    if unit == "%" { PercentIsLower(); }
    assert forall i :: 0 <= i < |unit| ==> LowerChar(unit[i]) == unit[i];
    assert Lower(unit) == unit;
  }

  lemma NamedTimesFits(word: string, unit: string, f: Format)
    requires IsWord(word) && Constant(Lower(word)).Done? && Steps.IsFixedUnit(unit) && f.scan("1" + unit) == (1.0, 1)
    ensures SumFits(NamedTimes(word, unit), 0, "", f)
  {
    hide Constant;
    hide UnitFits;
    hide CanonicalUnit;
    UnitIsWhole(unit);
    var one := FactorText(" ", false, NumberText(" ", "1", unit, 1.0));
    assert "1" + unit + "" == "1" + unit;
    assert ValueFits(one.operand, 0, "", f);
    assert [one][1..] == [] && ShowFactors([]) == "" && "" + "" == "";
    assert FactorsFit([], 0, "", f) && FactorsFit([one], 0, "", f);
    var more := if unit == "" then [] else [one];
    var follow := ShowFactors(more) + (ShowTerms([]) + "");
    assert more != [] ==> follow[0] == ' ' by { if more != [] { assert follow[0] == one.gap[0]; } }
    WordBeforeProduct(word, follow);
    assert ShowTerms([]) + "" == "";
    assert ValueFits(WordText("", word), 0, follow, f);
  }

  lemma NamedTimesMeans(word: string, v: Num, unit: string)
    requires Constant(Lower(word)) == Done(v, "") && !v.Fin? && Steps.IsFixedUnit(unit)
    ensures Simplify(SumTree(NamedTimes(word, unit))) == Numeric(v, unit)
  {
    hide Constant;
    hide CanonicalUnit;
    UnitIsWhole(unit);
    var a, b := Numeric(v, ""), Numeric(Fin(1.0), unit);
    assert ValueTree(WordText("", word)) == a;
    if unit == "" {
      assert SumTree(NamedTimes(word, unit)) == a;
    } else {
      var one := FactorText(" ", false, NumberText(" ", "1", unit, 1.0));
      assert ValueTree(one.operand) == b by { assert Prod(1.0, 1.0) == 1.0; }
      assert FactorTrees([one]) == [b] by { assert [one][1..] == [] && FactorTrees([]) == []; }
      assert SumTree(NamedTimes(word, unit)) == Product([a, b]) by { assert [a] + [b] == [a, b]; }
      ScaledUnit(v, unit);
    }
  }

  lemma ScaledUnit(v: Num, unit: string)
    requires !v.Fin? && unit != ""
    ensures Simplify(Product([Numeric(v, ""), Numeric(Fin(1.0), unit)])) == Numeric(v, unit)
  {
    var a, b := Numeric(v, ""), Numeric(Fin(1.0), unit);
    var ks := [a, b];
    var simple := SimplifyAll(ks);
    assert simple == ks;
    assert ks[1..] == [b] && [b][1..] == [];
    assert Flat(false, []) == [] && Flat(false, [b]) == [b] && Flat(false, ks) == ks;
    assert Rest([]) == [] && Rest([b]) == [b] && Rest(ks) == [b];
    MultiplicationLaws(v, Fin(1.0));
    assert Factor(v, [b]) == Factor(v, []) == v;
    assert Factor(Fin(1.0), ks) == Factor(Mul(Fin(1.0), v), [b]);
  }

  /** Infinity and NaN, in any unit, are printed as text that reads as them again. */
  lemma ExtremesReadBack(v: Num, unit: string, f: Format)
    requires !v.Fin? && Steps.IsFixedUnit(unit) && f.scan("1" + unit) == (1.0, 1)
    ensures var r := ParseSum(Print.NumericText(v, unit, f), 0, f);
            r.Done? && r.rest == "" && Simplify(r.value) == Numeric(v, unit)
  {
    hide Constant;
    hide SumFits;
    hide ShowSum;
    hide SumTree;
    hide Simplify;
    hide NamedTimes;
    var word := Print.NumberText(v, f);
    NonFiniteIsNamed(v, f);
    NamesAreWords(v, f);
    NamedTimesShows(word, unit);
    NamedTimesFits(word, unit, f);
    NamedTimesMeans(word, v, unit);
    var t := NamedTimes(word, unit);
    SumIsRead(t, 0, "", f);
    assert ShowSum(t) + "" == ShowSum(t);
    assert word + "" == word;
  }

  lemma NamesAreWords(v: Num, f: Format)
    requires !v.Fin?
    ensures IsWord(Print.NumberText(v, f))
  {}

  /** Zero is read back wherever its digit is read as zero. */
  lemma ZeroReadsBack(f: Format)
    requires forall unit: string, rest: string :: Steps.IsFixedUnit(unit) && Steps.Ends(rest) ==> f.scan("0" + unit + rest) == (0.0, 1)
    ensures Steps.Exact(f, 0.0)
  {
    assert Print.NumberText(Fin(0.0), f) == "0";
  }
}
