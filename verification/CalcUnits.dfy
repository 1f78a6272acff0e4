/** What a unit is worth. */
module CalcUnits {
  import opened CalcTree
  import opened CalcText

  datatype Quantity = Length | Angle | Time | Frequency | Resolution

  /** How many of the unit make an inch, a turn, a second, a kilohertz, a dot per pixel. */
  function Per(q: Quantity): map<string, real> {
    match q
    case Length => map["in" := 1.0, "cm" := 2.54, "mm" := 25.4, "q" := 101.6, "pt" := 72.0, "pc" := 6.0, "px" := 96.0]
    case Angle => map["turn" := 1.0, "deg" := 360.0, "grad" := 400.0, "rad" := 2.0 * PI]
    case Time => map["s" := 1.0, "ms" := 1000.0]
    case Frequency => map["khz" := 1.0, "hz" := 1000.0]
    case Resolution => map["dppx" := 1.0, "x" := 1.0, "dpi" := 96.0, "dpcm" := 96.0 / 2.54]
  }

  function Base(q: Quantity): string {
    match q
    case Length => "px"
    case Angle => "deg"
    case Time => "s"
    case Frequency => "hz"
    case Resolution => "dppx"
  }

  /** The text starts with the number `v` and the unit; no unit is "". */
  predicate Measures(f: Format, s: string, v: real, unit: string) {
    var (x, used) := f.scan(s);
    && x == v && 0 < used <= |s|
    && var t := s[used..];
       if unit == "%" then t != "" && t[0] == '%' else WordAhead(t) == unit && !(t != "" && t[0] == '%')
  }

  predicate IsPhysical(unit: string) {
    exists q :: unit in Per(q)
  }

  /** Units that a numeric keeps. */
  predicate StaysAsWritten(unit: string) {
    unit == "" || unit == "%" || (IsRelativeUnit(unit) && !IsPhysical(unit))
  }

  /** The unit's factor leads to the base unit. */
  ghost predicate Converts(q: Quantity, unit: string)
    requires unit in Per(q)
  {
    && AbsoluteUnit(unit).Done? && AbsoluteUnit(unit).rest == Base(q)
    && forall v :: Prod(Prod(v, Per(q)[unit]), AbsoluteUnit(unit).value) == Prod(v, Per(q)[Base(q)])
  }

  lemma MetricConverts(unit: string)
    requires unit in ["cm", "mm", "q"]
    ensures unit in Per(Length) && Converts(Length, unit)
  {}

  lemma LengthConverts(unit: string)
    requires unit in ["in", "pt", "pc", "px"]
    ensures unit in Per(Length) && Converts(Length, unit)
  {}

  lemma AngleConverts(unit: string)
    requires unit in Per(Angle)
    ensures Converts(Angle, unit)
  {}

  lemma OtherConverts(q: Quantity, unit: string)
    requires q in {Time, Frequency, Resolution} && unit in Per(q)
    ensures Converts(q, unit)
  {}

  lemma Conversions(q: Quantity, unit: string)
    requires unit in Per(q)
    ensures CanonicalUnit(unit).Done? && CanonicalUnit(unit).rest == Base(q)
    ensures forall v :: Prod(Prod(v, Per(q)[unit]), CanonicalUnit(unit).value) == Prod(v, Per(q)[Base(q)])
  {
    hide AbsoluteUnit;
    hide Prod;
    match q {
      case Length => if unit in ["cm", "mm", "q"] { MetricConverts(unit); } else { LengthConverts(unit); }
      case Angle => AngleConverts(unit);
      case _ => OtherConverts(q, unit);
    }
    NamesAreWords(q, unit);
  }

  lemma NamesAreWords(q: Quantity, unit: string)
    requires unit in Per(q)
    ensures unit != "" && unit != "%"
  {}

  lemma OneUnit(f: Format, s: string, v: real, unit: string)
    requires Measures(f, s, v, unit)
    ensures ParseNumeric(s, f).Done? <==> CanonicalUnit(unit).Done?
    ensures CanonicalUnit(unit).Done? ==>
              ParseNumeric(s, f).value == Numeric(Fin(Prod(v, CanonicalUnit(unit).value)), CanonicalUnit(unit).rest)
  {
    hide CanonicalUnit;
    NotPercent(s[f.scan(s).1..]);
  }

  /** A word is never the percent sign. */
  lemma NotPercent(t: string)
    ensures WordAhead(t) != "%"
  {
    if |WordAhead(t)| == 1 {
      assert WordAhead(t)[0] == LowerChar(t[0]);
    }
  }

  /** Equal amounts read as the same numeric, whatever physical unit they are written in. */
  lemma SameAmountReadsSame(f: Format, q: Quantity, v: real, a: string, b: string, s: string, t: string)
    requires a in Per(q) && b in Per(q)
    requires Measures(f, s, Prod(v, Per(q)[a]), a) && Measures(f, t, Prod(v, Per(q)[b]), b)
    ensures ParseNumeric(s, f).Done? && ParseNumeric(t, f).Done?
    ensures ParseNumeric(s, f).value == ParseNumeric(t, f).value
  {
    hide CanonicalUnit;
    hide Per;
    hide Measures;
    hide Prod;
    hide ParseNumeric;
    OneUnit(f, s, Prod(v, Per(q)[a]), a);
    OneUnit(f, t, Prod(v, Per(q)[b]), b);
    Conversions(q, a);
    Conversions(q, b);
  }

  lemma KeptUnits(unit: string)
    requires StaysAsWritten(unit)
    ensures CanonicalUnit(unit) == Done(1.0, unit)
  {
    hide AbsoluteUnit;
    hide IsRelativeUnit;
    hide Per;
    PhysicalIsAbsolute(unit);
  }

  lemma BaseUnits(q: Quantity)
    ensures CanonicalUnit(Base(q)) == Done(1.0, Base(q))
  {}

  /** Relative units, percentages, plain numbers and the base units keep number and unit. */
  lemma UnitIsKept(f: Format, s: string, v: real, unit: string)
    requires Measures(f, s, v, unit) && (StaysAsWritten(unit) || exists q :: unit == Base(q))
    ensures ParseNumeric(s, f).Done? && ParseNumeric(s, f).value == Numeric(Fin(v), unit)
  {
    hide CanonicalUnit;
    hide Measures;
    hide ParseNumeric;
    hide StaysAsWritten;
    hide IsPhysical;
    hide Base;
    if q :| unit == Base(q) { BaseUnits(q); } else { KeptUnits(unit); }
    OneUnit(f, s, v, unit);
  }

  /** Any other unit is refused. */
  lemma UnitIsKnown(f: Format, s: string, v: real, unit: string)
    requires Measures(f, s, v, unit)
    ensures ParseNumeric(s, f).Done? <==> StaysAsWritten(unit) || IsPhysical(unit)
  {
    hide Measures;
    hide ParseNumeric;
    OneUnit(f, s, v, unit);
    PhysicalIsAbsolute(unit);
  }

  lemma PhysicalIsAbsolute(unit: string)
    ensures IsPhysical(unit) <==> AbsoluteUnit(unit).Done?
  {
    if q :| unit in Per(q) {
      Conversions(q, unit);
      hide AbsoluteUnit;
    } else {
      Unphysical(unit);
    }
  }

  lemma Unphysical(unit: string)
    requires !IsPhysical(unit)
    ensures AbsoluteUnit(unit).Fail?
  {
    assert unit !in Per(Length) && unit !in Per(Angle) && unit !in Per(Time) && unit !in Per(Frequency) && unit !in Per(Resolution);
  }
}
