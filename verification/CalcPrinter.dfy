/** The printer as it runs: sorting the operands in place and appending their text. */
module CalcPrinter {
  import opened Options
  import opened Chars = CssSyntax
  import opened CalcTree
  import opened CalcText
  import opened CalcPrint
  import opened CalcSimplifier
  import opened CalcParser

  lemma {:induction false} RankedConcat(a: seq<Node>, n: Node, rank: nat)
    ensures Ranked(a + [n], rank) == Ranked(a, rank) + if Rank(n) == rank then [n] else []
    decreases |a|
  {
    if a == [] {
      assert a + [n] == [n] && [n][1..] == [];
    } else {
      assert (a + [n])[0] == a[0] && (a + [n])[1..] == a[1..] + [n];
      RankedConcat(a[1..], n, rank);
    }
  }

  method Bucket(ks: seq<Node>, rank: nat) returns (bucket: seq<Node>)
    ensures bucket == Ranked(ks, rank)
  {
    bucket := [];
    for i := 0 to |ks|
      invariant bucket == Ranked(ks[..i], rank)
    {
      assert ks[..i + 1] == ks[..i] + [ks[i]];
      RankedConcat(ks[..i], ks[i], rank);
      if Rank(ks[i]) == rank { bucket := bucket + [ks[i]]; }
    }
    assert ks[..|ks|] == ks;
  }

  /** `ks` with `x`, taken from position `i`, put at position `k`. */
  ghost function Moved(ks: seq<Node>, k: nat, i: nat): seq<Node>
    requires k <= i < |ks|
  {
    ks[..k] + [ks[i]] + ks[k..i] + ks[i + 1..]
  }

  lemma Exchange(ks: seq<Node>, k: nat, i: nat)
    requires 0 < k <= i < |ks|
    ensures var r := Moved(ks, k, i);
            && |r| == |ks| && r[k - 1] == ks[k - 1] && r[k] == ks[i]
            && r[k - 1 := ks[i]][k := ks[k - 1]] == Moved(ks, k - 1, i)
  {
    var r := Moved(ks, k, i);
    var s := r[k - 1 := ks[i]][k := ks[k - 1]];
    forall j | 0 <= j < |ks| ensures s[j] == Moved(ks, k - 1, i)[j] {}
  }

  /** Moving the node at `i` down past those whose unit comes later. */
  method Sift(ks: seq<Node>, i: nat) returns (r: seq<Node>)
    requires AllNumeric(ks) && i < |ks|
    ensures r == InsertByUnit(ks[..i], ks[i]) + ks[i + 1..]
  {
    hide InsertByUnit;
    r := ks;
    var k := i;
    assert ks == Moved(ks, i, i);
    assert ks[i..i] == [];
    while k > 0
      invariant 0 <= k <= i && r == Moved(ks, k, i)
      invariant InsertByUnit(ks[..i], ks[i]) == InsertByUnit(ks[..k], ks[i]) + ks[k..i]
    {
      Exchange(ks, k, i);
      var a, b := r[k - 1], r[k];
      SiftStep(ks[..k], ks[i]);
      if NoLater(a.unit, b.unit) { break; }
      assert ks[..k][..k - 1] == ks[..k - 1] && ks[..k][k - 1] == a && [a] + ks[k..i] == ks[k - 1..i];
      r := r[k - 1 := b][k := a];
      k := k - 1;
    }
    SiftStep(ks[..k], ks[i]);
  }

  lemma SiftStep(ks: seq<Node>, x: Node)
    requires AllNumeric(ks) && x.Numeric?
    ensures ks == [] || NoLater(ks[|ks| - 1].unit, x.unit) ==> InsertByUnit(ks, x) == ks + [x]
    ensures ks != [] && !NoLater(ks[|ks| - 1].unit, x.unit) ==>
              InsertByUnit(ks, x) == InsertByUnit(ks[..|ks| - 1], x) + [ks[|ks| - 1]]
  {}

  /** Insertion sort of the dimensions by unit, exchanging neighbours. */
  method SortByUnit(ks: seq<Node>) returns (bucket: seq<Node>)
    requires AllNumeric(ks)
    ensures bucket == ByUnit(ks)
  {
    bucket := ks;
    for i := 0 to |ks|
      invariant bucket == ByUnit(ks[..i]) + ks[i..] && |ByUnit(ks[..i])| == i
    {
      SortStep(ks, i);
      bucket := Sift(bucket, i);
    }
    assert ks[..|ks|] == ks;
  }

  lemma SortStep(ks: seq<Node>, i: nat)
    requires AllNumeric(ks) && i < |ks| && |ByUnit(ks[..i])| == i
    ensures var bucket := ByUnit(ks[..i]) + ks[i..];
            && AllNumeric(bucket) && bucket[..i] == ByUnit(ks[..i]) && bucket[i] == ks[i] && bucket[i + 1..] == ks[i + 1..]
    ensures ByUnit(ks[..i + 1]) == InsertByUnit(ByUnit(ks[..i]), ks[i]) && |ByUnit(ks[..i + 1])| == i + 1
  {
    assert ks[..i + 1][..i] == ks[..i];
    InsertLength(ByUnit(ks[..i]), ks[i]);
  }

  lemma {:induction false} InsertLength(ks: seq<Node>, n: Node)
    requires AllNumeric(ks) && n.Numeric?
    ensures |InsertByUnit(ks, n)| == |ks| + 1
    decreases |ks|
  {
    if ks != [] { InsertLength(ks[..|ks| - 1], n); }
  }

  method SortChildren(ks: seq<Node>) returns (sorted: seq<Node>)
    ensures sorted == Sorted(ks)
  {
    var numbers := Bucket(ks, 0);
    var percentages := Bucket(ks, 1);
    var dimensions := Bucket(ks, 2);
    assert forall i :: 0 <= i < |dimensions| ==> dimensions[i] in dimensions;
    var ordered := SortByUnit(dimensions);
    var others := Bucket(ks, 3);
    sorted := numbers + percentages + ordered + others;
  }

  method SerializeNumeric(value: Num, unit: string, f: Format) returns (out: string, exact: bool)
    ensures out == NumericText(value, unit, f) && exact == NumberHolds(value, f)
  {
    out, exact := NumericText(value, unit, f), true;
    if value.Fin? && value.v != 0.0 {
      var back := f.scan(f.spell(value.v)).0;
      if Distance(back, value.v) > Distance(value.v, 0.0) * 0.000000001 { exact := false; }
    }
  }

  /** The text of a node, its operands sorted on the way, and whether all its numbers hold. */
  method Serialize(n: Node, f: Format) returns (out: string, exact: bool)
    ensures out == Text(n, f) && exact == TextHolds(n, f)
    decreases Nesting(n), 0, 0
  {
    match n
    case Numeric(value, unit) => out, exact := SerializeNumeric(value, unit, f);
    case Opaque(text) => out, exact := text, true;
    case Func(name, args) =>
      var inner, holds := SerializeArgs(args, f);
      out, exact := name + "(" + inner + ")", holds;
    case Negate(kid) =>
      var inner, holds := Serialize(kid, f);
      out, exact := "(-1 * " + inner + ")", holds;
    case Invert(kid) =>
      var inner, holds := Serialize(kid, f);
      out, exact := "(1 / " + inner + ")", holds;
    case Sum(kids) =>
      var ks := SortChildren(kids);
      var inner, holds := SerializeTerms(ks, f, Deepest(kids));
      out, exact := "(" + inner + ")", holds;
    case Product(kids) =>
      var ks := SortChildren(kids);
      var inner, holds := SerializeFactors(ks, f, Deepest(kids));
      out, exact := "(" + inner + ")", holds;
  }

  method SerializeUnwrapped(n: Node, f: Format) returns (out: string, exact: bool)
    ensures out == Stripped(Text(n, f)) && exact == TextHolds(n, f)
    decreases Nesting(n), 0, 1
  {
    var inner, holds := Serialize(n, f);
    out := if |inner| >= 2 && inner[0] == '(' && inner[|inner| - 1] == ')' then inner[1..|inner| - 1] else inner;
    exact := holds;
  }

  method SerializeArgs(args: seq<Node>, f: Format) returns (out: string, exact: bool)
    ensures out == ArgsText(args, true, f, Deepest(args))
    ensures exact == forall i :: 0 <= i < |args| ==> TextHolds(args[i], f)
    decreases Deepest(args), 1, 0
  {
    hide TextHolds;
    ghost var deep := Deepest(args);
    out, exact := "", true;
    for i := 0 to |args|
      invariant out + ArgsText(args[i..], i == 0, f, deep) == ArgsText(args, true, f, deep)
      invariant exact == forall j :: 0 <= j < i ==> TextHolds(args[j], f)
    {
      assert args[i..][0] == args[i] && args[i..][1..] == args[i + 1..] && args[i] in args;
      ghost var was := out;
      if i > 0 { out := out + ", "; }
      var inner, holds := SerializeUnwrapped(args[i], f);
      out, exact := out + inner, exact && holds;
      Appended(was, if i == 0 then "" else ", ", inner, ArgsText(args[i + 1..], false, f, deep));
    }
    assert out + "" == out;
  }

  lemma Appended(a: string, b: string, c: string, d: string)
    ensures a + (b + c + d) == a + b + c + d && a + "" == a
  {}

  method SerializeTerms(ks: seq<Node>, f: Format, ghost deep: nat) returns (out: string, exact: bool)
    requires forall n :: n in ks ==> Nesting(n) <= deep
    ensures out == TermsText(ks, true, f, deep)
    ensures exact == forall i :: 0 <= i < |ks| ==> TermHolds(ks[i], i == 0, f)
    decreases deep, 1, 0
  {
    hide TextHolds;
    hide NumberHolds;
    out, exact := "", true;
    for i := 0 to |ks|
      invariant out + TermsText(ks[i..], i == 0, f, deep) == TermsText(ks, true, f, deep)
      invariant exact == forall j :: 0 <= j < i ==> TermHolds(ks[j], j == 0, f)
    {
      assert ks[i..][0] == ks[i] && ks[i..][1..] == ks[i + 1..] && ks[i] in ks;
      var c := ks[i];
      ghost var was := out;
      if i > 0 && c.Negate? {
        out := out + " - ";
        var inner, holds := Serialize(c.kid, f);
        out, exact := out + inner, exact && holds;
        Appended(was, " - ", inner, TermsText(ks[i + 1..], false, f, deep));
      } else if i > 0 && IsNegative(c) {
        out := out + " - ";
        var inner, holds := SerializeNumeric(Neg(c.value), c.unit, f);
        out, exact := out + inner, exact && holds;
        Appended(was, " - ", inner, TermsText(ks[i + 1..], false, f, deep));
      } else {
        if i > 0 { out := out + " + "; }
        var inner, holds := Serialize(c, f);
        out, exact := out + inner, exact && holds;
        Appended(was, if i == 0 then "" else " + ", inner, TermsText(ks[i + 1..], false, f, deep));
      }
    }
    assert out + "" == out;
  }

  method SerializeFactors(ks: seq<Node>, f: Format, ghost deep: nat) returns (out: string, exact: bool)
    requires forall n :: n in ks ==> Nesting(n) <= deep
    ensures out == FactorsText(ks, true, f, deep)
    ensures exact == forall i :: 0 <= i < |ks| ==> FactorHolds(ks[i], i == 0, f)
    decreases deep, 1, 0
  {
    hide TextHolds;
    out, exact := "", true;
    for i := 0 to |ks|
      invariant out + FactorsText(ks[i..], i == 0, f, deep) == FactorsText(ks, true, f, deep)
      invariant exact == forall j :: 0 <= j < i ==> FactorHolds(ks[j], j == 0, f)
    {
      assert ks[i..][0] == ks[i] && ks[i..][1..] == ks[i + 1..] && ks[i] in ks;
      var c := ks[i];
      ghost var was := out;
      if i > 0 && c.Invert? {
        out := out + " / ";
        var inner, holds := Serialize(c.kid, f);
        out, exact := out + inner, exact && holds;
        Appended(was, " / ", inner, FactorsText(ks[i + 1..], false, f, deep));
      } else {
        if i > 0 { out := out + " * "; }
        var inner, holds := Serialize(c, f);
        out, exact := out + inner, exact && holds;
        Appended(was, if i == 0 then "" else " * ", inner, FactorsText(ks[i + 1..], false, f, deep));
      }
    }
    assert out + "" == out;
  }

  /** The canonical text of a math function; nothing when it does not parse, has no type, or has a number that does not hold. */
  method FunctionCanonical(text: string, keepCalc: bool, f: Format) returns (r: Option<string>)
    ensures r == CanonicalText(text, keepCalc, f)
  {
    hide ParseValue;
    hide TextHolds;
    var c := new Cursor(text, f);
    var root := c.ReadValue();
    var skipped := c.SkipSpace();
    if root == None || !c.AtEnd() { return None; }
    var n, ok := SimplifyTree(root.value);
    if !ok { return None; }
    var comparison := n.Func? && (IsMinMax(n.name) || n.name == "clamp");
    var out, exact;
    if n.Func? && (!keepCalc || comparison) {
      out, exact := Serialize(n, f);
    } else {
      out, exact := SerializeUnwrapped(n, f);
      out := "calc(" + out + ")";
    }
    r := if exact then Some(out) else None;
  }

  /** Scanning for the bracket that closes the one at the head of `s`. */
  method MatchingParen(s: string) returns (at: Option<nat>)
    ensures at == ClosingAt(s, 0)
  {
    var p, depth := 0, 0;
    while p < |s|
      invariant p <= |s|
      invariant ClosingAt(s, 0) == var rest := ClosingAt(s[p..], depth); if rest.None? then None else Some(p + rest.value)
    {
      assert s[p..][1..] == s[p + 1..];
      if IsQuote(s[p]) { return None; }
      if s[p] == '(' {
        depth := depth + 1;
      } else if s[p] == ')' {
        depth := depth - 1;
        if depth == 0 { return Some(p); }
      }
      p := p + 1;
    }
    at := None;
  }

  lemma Shorter(text: string, p: nat, end: nat)
    requires p < end <= |text|
    ensures text[p..end][..end - p - 1] == text[p..end - 1] && |text[p..end]| == end - p && text[p..end][end - p - 1] == text[end - 1]
  {}

  method Trim(text: string) returns (s: string)
    ensures s == Trimmed(text)
  {
    var p, end := 0, |text|;
    while p < end && IsWs(text[p])
      invariant p <= end && SkipWs(text[p..]) == SkipWs(text)
    {
      assert text[p..][1..] == text[p + 1..];
      p := p + 1;
    }
    assert text[p..end] == text[p..] && SkipWs(text[p..]) == text[p..];
    while end > p && IsWs(text[end - 1])
      invariant p <= end <= |text| && TrimEnd(text[p..end]) == Trimmed(text)
    {
      Shorter(text, p, end);
      end := end - 1;
    }
    s := text[p..end];
  }

  /** The canonical text of a value; nothing when it is no call of calc() or a comparison. */
  method Canonicalise(text: string, f: Format) returns (r: Option<string>)
    ensures r == ValueCanonical(text, f)
  {
    hide CanonicalText;
    var s := Trim(text);
    var n := 0;
    while n < |s| && IsName(s[n])
      invariant n <= |s| && IdentLength(s) == n + IdentLength(s[n..])
    {
      assert s[n..][1..] == s[n + 1..];
      n := n + 1;
    }
    if n == 0 || n >= |s| || s[n] != '(' { return None; }
    var name := Lower(s[..n]);
    var math := name == "calc" || name == "min" || name == "max" || name == "clamp";
    var closing := MatchingParen(s[n..]);
    if !math || closing != Some(|s| - n - 1) { return None; }
    r := FunctionCanonical(s, name == "calc", f);
  }
}
