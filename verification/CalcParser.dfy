/** The parser as it runs: a cursor advancing over the text, against the functions of `CalcText`. */
module CalcParser {
  import opened Options
  import opened CalcTree
  import opened CalcText
  import opened Chars = CssSyntax

  // ----- one turn of each loop -----

  lemma Grows<T>(list: seq<T>, x: T, more: seq<T>)
    ensures [] + more == more && list + [] == list
    ensures list + ([x] + more) == list + [x] + more
  {}

  function NextFactor(text: string, depth: nat, f: Format): Outcome<Option<Node>> {
    var s := SkipWs(text);
    if s == "" || (s[0] != '*' && s[0] != '/') then Done(None, text)
    else
      var rhs := ParseValue(s[1..], depth, f);
      if rhs.Fail? then Fail else Done(Some(if s[0] == '/' then Invert(rhs.value) else rhs.value), rhs.rest)
  }

  lemma FactorsByTurns(text: string, depth: nat, f: Format)
    ensures NextFactor(text, depth, f) == Done(None, text) || NextFactor(text, depth, f).Fail? || NextFactor(text, depth, f).value.Some?
    ensures ParseFactors(text, depth, f) ==
            var next := NextFactor(text, depth, f);
            if next.Fail? then Fail
            else if next.value == None then Done([], text)
            else
              var tail := ParseFactors(next.rest, depth, f);
              if tail.Fail? then Fail else Done([next.value.value] + tail.value, tail.rest)
  {}

  function NextTerm(text: string, depth: nat, f: Format): Outcome<Option<Node>> {
    var s := SkipWs(text);
    if s == "" || (s[0] != '+' && s[0] != '-') || |s| == |text| || |s| < 2 || !IsWs(s[1]) then Done(None, text)
    else
      var rhs := ParseProduct(s[1..], depth, f);
      if rhs.Fail? then Fail else Done(Some(if s[0] == '-' then Negate(rhs.value) else rhs.value), rhs.rest)
  }

  lemma TermsByTurns(text: string, depth: nat, f: Format)
    ensures NextTerm(text, depth, f) == Done(None, text) || NextTerm(text, depth, f).Fail? || NextTerm(text, depth, f).value.Some?
    ensures ParseTerms(text, depth, f) ==
            var next := NextTerm(text, depth, f);
            if next.Fail? then Fail
            else if next.value == None then Done([], text)
            else
              var tail := ParseTerms(next.rest, depth, f);
              if tail.Fail? then Fail else Done([next.value.value] + tail.value, tail.rest)
  {}

  /** An argument, and whether a comma announces another. */
  function NextArg(text: string, depth: nat, name: string, first: bool, f: Format): Outcome<(Node, bool)> {
    var s := SkipWs(text);
    var arg := if IsKeyword(name, first, WordAhead(s)) then Done(Opaque(WordAhead(s)), s[IdentLength(s)..])
               else ParseSum(s, depth, f);
    if arg.Fail? then Fail
    else
      var t := SkipWs(arg.rest);
      if t != "" && (t[0] == ',' || t[0] == ')') then Done((arg.value, t[0] == ','), t[1..]) else Fail
  }

  lemma ArgsByTurns(text: string, depth: nat, name: string, first: bool, f: Format)
    ensures ParseArgs(text, depth, name, first, f) ==
            var next := NextArg(text, depth, name, first, f);
            if next.Fail? then Fail
            else if !next.value.1 then Done([next.value.0], next.rest)
            else
              var more := ParseArgs(next.rest, depth, name, false, f);
              if more.Fail? then Fail else Done([next.value.0] + more.value, more.rest)
  {}

  class Cursor {
    const text: string
    const format: Format
    var p: nat
    var depth: nat

    constructor (text: string, format: Format)
      ensures Valid() && Left() == text && depth == 0 && this.format == format && this.text == text
    {
      this.text, this.format, p, depth := text, format, 0, 0;
    }

    predicate Valid()
      reads `p
    {
      p <= |text|
    }

    /** What is left of the text. */
    function Left(): (s: string)
      requires Valid()
      reads `p
      ensures |s| == |text| - p
    {
      text[p..]
    }

    predicate AtEnd()
      requires Valid()
      reads `p
      ensures AtEnd() == (Left() == "")
    {
      p >= |text|
    }

    function Here(): (c: char)
      requires Valid() && !AtEnd()
      reads `p
      ensures c == Left()[0]
    {
      text[p]
    }

    method Step()
      requires Valid() && !AtEnd()
      modifies `p
      ensures Valid() && p == old(p) + 1 && Left() == old(Left())[1..]
    {
      assert text[p..][1..] == text[p + 1..];
      p := p + 1;
    }

    method SkipSpace() returns (skipped: bool)
      requires Valid()
      modifies `p
      ensures Valid() && Left() == SkipWs(old(Left())) && old(p) <= p && skipped == (p > old(p))
    {
      var start := p;
      while !AtEnd() && IsWs(Here())
        invariant start <= p <= |text| && SkipWs(Left()) == SkipWs(old(Left()))
        decreases |text| - p
      {
        Step();
      }
      skipped := p > start;
    }

    /** The identifier at the cursor, lower-cased; empty when there is none. */
    method ReadIdent() returns (word: string)
      requires Valid()
      modifies `p
      ensures Valid() && old(p) <= p && word == WordAhead(old(Left())) && Left() == old(Left())[IdentLength(old(Left()))..]
      ensures p == old(p) + |word|
    {
      var start := p;
      while p < |text| && IsName(text[p])
        invariant start <= p <= |text| && IdentLength(text[start..]) == p - start + IdentLength(text[p..])
      {
        assert text[p..][1..] == text[p + 1..];
        p := p + 1;
      }
      assert text[start..][..p - start] == text[start..p];
      word := Lower(text[start..p]);
    }

    /** Moving over the bytes a number took. */
    method Advance(n: nat)
      requires Valid() && n <= |Left()|
      modifies `p
      ensures Valid() && p == old(p) + n && Left() == old(Left())[n..]
    {
      assert text[p..][n..] == text[p + n..];
      p := p + n;
    }

    method ReadNumeric() returns (n: Option<Node>)
      requires Valid()
      modifies `p
      ensures Valid() && old(p) <= p
      ensures var r := ParseNumeric(old(Left()), format);
              if r.Fail? then n == None else n == Some(r.value) && Left() == r.rest && old(p) < p
    {
      hide CanonicalUnit;
      hide Prod;
      hide Left;
      var (v, used) := format.scan(Left());
      if used == 0 || used > |Left()| { return None; }
      Advance(used);
      var unit;
      if !AtEnd() && Here() == '%' {
        Step();
        unit := "%";
      } else {
        unit := ReadIdent();
      }
      var canonical := CanonicalUnit(unit);
      if canonical.Fail? { return None; }
      n := Some(Numeric(Fin(Prod(v, canonical.value)), canonical.rest));
    }

    method ReadValue() returns (n: Option<Node>)
      requires Valid()
      modifies `p, `depth
      ensures Valid() && old(p) <= p && depth == old(depth)
      ensures var r := ParseValue(old(Left()), old(depth), format);
              if r.Fail? then n == None else n == Some(r.value) && Left() == r.rest && old(p) < p
      decreases |text| - p, 0
    {
      hide Left;
      hide Constant;
      hide IsMath;
      hide IdentLength;
      hide WordAhead;
      var skipped := SkipSpace();
      if AtEnd() || depth > DEPTH_CAP { return None; }
      if Here() == '(' {
        n := ReadBracketed();
        return;
      }
      if NumberAhead(Left()) {
        n := ReadNumeric();
        return;
      }
      n := ReadWord();
    }

    method ReadBracketed() returns (n: Option<Node>)
      requires Valid() && !AtEnd()
      modifies `p, `depth
      ensures Valid() && old(p) <= p && depth == old(depth)
      ensures var inner := ParseSum(old(Left())[1..], old(depth) + 1, format);
              var t := if inner.Fail? then "" else SkipWs(inner.rest);
              if t == "" || t[0] != ')' then n == None else n == Some(inner.value) && Left() == t[1..] && old(p) < p
      decreases |text| - p, 0, 0
    {
      hide Left;
      Step();
      depth := depth + 1;
      n := ReadSum();
      depth := depth - 1;
      var skipped := SkipSpace();
      if n == None || AtEnd() || Here() != ')' { return None; }
      Step();
    }

    /** A function call or a named constant. */
    method ReadWord() returns (n: Option<Node>)
      requires Valid()
      modifies `p, `depth
      ensures Valid() && old(p) <= p && depth == old(depth)
      ensures var word, t := WordAhead(old(Left())), old(Left())[IdentLength(old(Left()))..];
              if word == "" then n == None
              else if t != "" && t[0] == '(' then
                var args := ParseArgs(t[1..], old(depth) + 1, word, true, format);
                if !IsMath(word) || args.Fail? then n == None
                else n == Some(Func(word, args.value)) && Left() == args.rest && old(p) < p
              else
                var c := Constant(word);
                if c.Fail? then n == None else n == Some(Numeric(c.value, "")) && Left() == t && old(p) < p
      decreases |text| - p, 0, 0
    {
      hide Left;
      hide Constant;
      hide IsMath;
      hide IdentLength;
      hide WordAhead;
      var word := ReadIdent();
      if word == "" { return None; }
      if !AtEnd() && Here() == '(' {
        if !IsMath(word) { return None; }
        Step();
        depth := depth + 1;
        var args := ReadArgs(word);
        depth := depth - 1;
        return if args == None then None else Some(Func(word, args.value));
      }
      var constant := Constant(word);
      n := if constant.Done? then Some(Numeric(constant.value, "")) else None;
    }

    /** A word where the function takes one, or a sum. */
    method ReadOperand(name: string, first: bool) returns (n: Option<Node>)
      requires Valid()
      modifies `p, `depth
      ensures Valid() && old(p) <= p && depth == old(depth)
      ensures var s := old(Left());
              if IsKeyword(name, first, WordAhead(s)) then n == Some(Opaque(WordAhead(s))) && Left() == s[IdentLength(s)..]
              else
                var r := ParseSum(s, old(depth), format);
                if r.Fail? then n == None else n == Some(r.value) && Left() == r.rest && old(p) < p
      decreases |text| - p, 4
    {
      hide IsKeyword;
      hide IdentLength;
      hide WordAhead;
      hide ParseSum;
      var save := p;
      var word := ReadIdent();
      if IsKeyword(name, first, word) { return Some(Opaque(word)); }
      p := save;
      n := ReadSum();
    }

    method ReadArg(name: string, first: bool) returns (arg: Option<(Node, bool)>)
      requires Valid()
      modifies `p, `depth
      ensures Valid() && old(p) <= p && depth == old(depth)
      ensures var r := NextArg(old(Left()), old(depth), name, first, format);
              if r.Fail? then arg == None else arg == Some(r.value) && Left() == r.rest && old(p) < p
      decreases |text| - p, 5
    {
      hide Left;
      hide IsKeyword;
      hide IdentLength;
      hide WordAhead;
      hide ParseSum;
      var skipped := SkipSpace();
      var n := ReadOperand(name, first);
      if n == None { return None; }
      skipped := SkipSpace();
      if !AtEnd() && (Here() == ',' || Here() == ')') {
        var more := Here() == ',';
        Step();
        return Some((n.value, more));
      }
      arg := None;
    }

    /** The arguments of a function, up to its closing bracket. */
    method ReadArgs(name: string) returns (args: Option<seq<Node>>)
      requires Valid()
      modifies `p, `depth
      ensures Valid() && old(p) <= p && depth == old(depth)
      ensures var r := ParseArgs(old(Left()), old(depth), name, true, format);
              if r.Fail? then args == None else args == Some(r.value) && Left() == r.rest
      decreases |text| - p, 6
    {
      hide Left;
      hide ParseArgs;
      hide NextArg;
      var list: seq<Node> := [];
      ghost var whole := ParseArgs(Left(), depth, name, true, format);
      if whole.Done? { Grows([], Opaque(""), whole.value); }
      while true
        invariant Valid() && old(p) <= p && depth == old(depth)
        invariant var r := ParseArgs(Left(), depth, name, list == [], format);
                  if r.Fail? then whole.Fail? else whole == Done(list + r.value, r.rest)
        decreases |text| - p
      {
        ArgsByTurns(Left(), depth, name, list == [], format);
        var arg := ReadArg(name, list == []);
        if arg == None { return None; }
        ghost var more := ParseArgs(Left(), depth, name, false, format);
        Grows(list, arg.value.0, if more.Done? then more.value else []);
        list := list + [arg.value.0];
        if !arg.value.1 { return Some(list); }
      }
    }

    method ReadFactor() returns (ok: bool, n: Option<Node>)
      requires Valid()
      modifies `p, `depth
      ensures Valid() && old(p) <= p && depth == old(depth)
      ensures var r := NextFactor(old(Left()), old(depth), format);
              ok == r.Done? && (ok ==> n == r.value && Left() == r.rest && (n.Some? ==> old(p) < p))
      decreases |text| - p, 1
    {
      var save := p;
      var skipped := SkipSpace();
      if AtEnd() || (Here() != '*' && Here() != '/') {
        p := save;
        return true, None;
      }
      hide Left;
      var divide := Here() == '/';
      Step();
      var rhs := ReadValue();
      if rhs == None { return false, None; }
      return true, Some(if divide then Invert(rhs.value) else rhs.value);
    }

    method ReadProduct() returns (n: Option<Node>)
      requires Valid()
      modifies `p, `depth
      ensures Valid() && old(p) <= p && depth == old(depth)
      ensures var r := ParseProduct(old(Left()), old(depth), format);
              if r.Fail? then n == None else n == Some(r.value) && Left() == r.rest && old(p) < p
      decreases |text| - p, 2
    {
      hide Left;
      hide ParseFactors;
      hide NextFactor;
      hide ParseValue;
      var head := ReadValue();
      if head == None { return None; }
      var list: seq<Node> := [];
      ghost var tail := ParseFactors(Left(), depth, format);
      if tail.Done? { Grows([], head.value, tail.value); }
      while true
        invariant Valid() && old(p) < p && depth == old(depth)
        invariant var r := ParseFactors(Left(), depth, format);
                  if r.Fail? then tail.Fail? else tail == Done(list + r.value, r.rest)
        decreases |text| - p
      {
        FactorsByTurns(Left(), depth, format);
        var ok, next := ReadFactor();
        if !ok { return None; }
        if next == None {
          Grows(list, head.value, []);
          break;
        }
        ghost var more := ParseFactors(Left(), depth, format);
        Grows(list, next.value, if more.Done? then more.value else []);
        list := list + [next.value];
      }
      n := Some(if list == [] then head.value else Product([head.value] + list));
    }

    method ReadTerm() returns (ok: bool, n: Option<Node>)
      requires Valid()
      modifies `p, `depth
      ensures Valid() && old(p) <= p && depth == old(depth)
      ensures var r := NextTerm(old(Left()), old(depth), format);
              ok == r.Done? && (ok ==> n == r.value && Left() == r.rest && (n.Some? ==> old(p) < p))
      decreases |text| - p, 3
    {
      var save := p;
      var spaced := SkipSpace();
      if AtEnd() || (Here() != '+' && Here() != '-') || !spaced || p + 1 >= |text| || !IsWs(text[p + 1]) {
        p := save;
        return true, None;
      }
      hide Left;
      var minus := Here() == '-';
      Step();
      var rhs := ReadProduct();
      if rhs == None { return false, None; }
      return true, Some(if minus then Negate(rhs.value) else rhs.value);
    }

    method ReadSum() returns (n: Option<Node>)
      requires Valid()
      modifies `p, `depth
      ensures Valid() && old(p) <= p && depth == old(depth)
      ensures var r := ParseSum(old(Left()), old(depth), format);
              if r.Fail? then n == None else n == Some(r.value) && Left() == r.rest && old(p) < p
      decreases |text| - p, 3
    {
      hide Left;
      hide ParseTerms;
      hide NextTerm;
      hide ParseProduct;
      var head := ReadProduct();
      if head == None { return None; }
      var list: seq<Node> := [];
      ghost var tail := ParseTerms(Left(), depth, format);
      if tail.Done? { Grows([], head.value, tail.value); }
      while true
        invariant Valid() && old(p) < p && depth == old(depth)
        invariant var r := ParseTerms(Left(), depth, format);
                  if r.Fail? then tail.Fail? else tail == Done(list + r.value, r.rest)
        decreases |text| - p
      {
        TermsByTurns(Left(), depth, format);
        var ok, next := ReadTerm();
        if !ok { return None; }
        if next == None {
          Grows(list, head.value, []);
          break;
        }
        ghost var more := ParseTerms(Left(), depth, format);
        Grows(list, next.value, if more.Done? then more.value else []);
        list := list + [next.value];
      }
      n := Some(if list == [] then head.value else Sum([head.value] + list));
    }
  }
}
