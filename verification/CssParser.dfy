/** The component-value parser as the source runs it: one cursor, one validity flag, loops. */
module CssParser {
  import opened CssSyntax
  import opened CssBrackets

  // ----- extents, by scanning -----

  method EscapeEndAt(s: string, p: nat) returns (offset: nat)
    requires p <= |s|
    ensures offset == EscapeEnd(s, p)
  {
    offset := p;
    if offset >= |s| || s[offset] != '\\' { return; }
    offset := offset + 1;
    if offset >= |s| { return; }
    if IsHex(s[offset]) {
      var digits := 0;
      while offset < |s| && digits < 6 && IsHex(s[offset])
        invariant offset <= |s| && digits <= 6
        invariant HexEnd(s, offset, 6 - digits) == HexEnd(s, p + 1, 6)
        decreases 6 - digits
      {
        offset := offset + 1;
        digits := digits + 1;
      }
      if offset < |s| && IsWs(s[offset]) { offset := offset + 1; }
      return;
    }
    if IsNewline(s[offset]) { return offset - 1; }
    return offset + 1;
  }

  method NameEndAt(s: string, p: nat) returns (offset: nat)
    requires p <= |s|
    ensures offset == NameEnd(s, p)
  {
    offset := p;
    while offset < |s|
      invariant p <= offset <= |s| && NameEnd(s, offset) == NameEnd(s, p)
      decreases |s| - offset
    {
      if IsName(s[offset]) {
        offset := offset + 1;
        continue;
      }
      if s[offset] == '\\' {
        var next := EscapeEndAt(s, offset);
        if next == offset { break; }
        offset := next;
        continue;
      }
      break;
    }
  }

  method DigitsEndAt(s: string, p: nat) returns (offset: nat)
    requires p <= |s|
    ensures offset == DigitsEnd(s, p)
  {
    offset := p;
    while offset < |s| && IsDigit(s[offset])
      invariant offset <= |s| && DigitsEnd(s, offset) == DigitsEnd(s, p)
    {
      offset := offset + 1;
    }
  }

  method NumberEndAt(s: string, p: nat) returns (offset: nat)
    requires p <= |s|
    ensures offset == NumberEnd(s, p)
  {
    offset := p;
    if offset < |s| && (s[offset] == '+' || s[offset] == '-') { offset := offset + 1; }
    offset := DigitsEndAt(s, offset);
    if offset + 1 < |s| && s[offset] == '.' && IsDigit(s[offset + 1]) {
      offset := DigitsEndAt(s, offset + 1);
    }
    if offset < |s| && (s[offset] == 'e' || s[offset] == 'E') {
      var exponent := offset + 1;
      if exponent < |s| && (s[exponent] == '+' || s[exponent] == '-') { exponent := exponent + 1; }
      if exponent < |s| && IsDigit(s[exponent]) { offset := DigitsEndAt(s, exponent + 1); }
    }
  }

  /** One character of a string, or one escape. */
  lemma ScanStep(s: string, p: nat, quote: char)
    requires p < |s|
    ensures ScanString(s, p, quote) ==
            if s[p] == quote then StringScan(p, p + 1, true)
            else if IsNewline(s[p]) then StringScan(p, p + 1, false)
            else if s[p] == '\\' && p + 1 < |s| then
              if EscapeEnd(s, p) == p then StringScan(p, p + 1, false) else ScanString(s, EscapeEnd(s, p), quote)
            else ScanString(s, p + 1, quote)
  {
    hide EscapeEnd;
  }

  lemma ScanEnds(s: string, quote: char)
    ensures ScanString(s, |s|, quote) == StringScan(|s|, |s|, true)
  {}

  lemma OneChar(s: string, p: nat)
    requires p < |s|
    ensures s[p..p + 1] == [s[p]]
  {}

  lemma Joined(s: string, a: nat, b: nat, c: nat)
    requires a <= b <= c <= |s|
    ensures s[a..b] + s[b..c] == s[a..c]
  {}

  class Parser {
    const input: string
    var offset: nat
    var depth: nat
    var valid: bool

    ghost predicate Ready() reads this { offset <= |input| }

    constructor (input: string)
      ensures Ready() && this.input == input && offset == 0 && depth == 0 && valid
    {
      this.input, offset, depth, valid := input, 0, 0, true;
    }

    method SkipComment()
      requires Ready() && CommentStarts(input, offset)
      modifies `offset
      ensures Ready() && offset == CommentTail(input, old(offset) + 2)
    {
      offset := offset + 2;
      ghost var e := CommentTail(input, offset);
      while offset + 1 < |input| && !(input[offset] == '*' && input[offset + 1] == '/')
        invariant offset <= |input| && CommentTail(input, offset) == e
        decreases |input| - offset
      {
        offset := offset + 1;
      }
      if offset + 1 < |input| { offset := offset + 2; } else { offset := |input|; }
    }

    method ReadString() returns (c: Component)
      requires Ready() && offset < |input|
      modifies `offset, `valid
      ensures Ready()
      ensures Parse(c, offset, valid) == ConsumeString(input, old(offset)).(valid := old(valid) && ConsumeString(input, old(offset)).valid)
    {
      hide ScanString;
      hide EscapeEnd;
      var start := offset;
      var quote := input[offset];
      offset := offset + 1;
      var value := "";
      ghost var whole := ScanString(input, offset, quote);
      ghost var wasValid := valid;
      var closed := false;
      while offset < |input| && !closed
        invariant start < offset <= |input|
        invariant !closed ==> valid == wasValid && value == input[start + 1..offset]
                              && ScanString(input, offset, quote) == whole
        invariant closed ==> whole.next == offset && valid == (wasValid && whole.ok)
                             && value == input[start + 1..whole.valueEnd]
        decreases |input| - offset, !closed
      {
        ghost var here := offset;
        ScanStep(input, here, quote);
        var ch := input[offset];
        offset := offset + 1;
        if ch == quote {
          closed := true;
        } else if IsNewline(ch) {
          valid := false;
          closed := true;
        } else if ch == '\\' && offset < |input| {
          var escape := offset - 1;
          var next := EscapeEndAt(input, escape);
          if next == escape {
            valid := false;
            closed := true;
          } else {
            value := value + input[escape..next];
            offset := next;
            Joined(input, start + 1, here, offset);
          }
        } else {
          value := value + [ch];
          OneChar(input, here);
          Joined(input, start + 1, here, offset);
        }
      }
      if !closed { ScanEnds(input, quote); }
      c := Component(StringToken, start, offset, value, "", [], quote);
    }

    method ReadNumeric() returns (c: Component)
      requires Ready() && offset < |input| && StartsNumber(input, offset)
      modifies `offset
      ensures Ready()
      ensures Parse(c, offset, true) == ConsumeNumeric(input, old(offset))
    {
      var start := offset;
      var numberEnd := NumberEndAt(input, start);
      var kind, end := Number, numberEnd;
      if end < |input| && input[end] == '%' {
        kind := Percentage;
        end := end + 1;
      } else if StartsIdent(input, end) {
        kind := Dimension;
        end := NameEndAt(input, end);
      }
      c := Component(kind, start, end, input[numberEnd..end], input[start..numberEnd], [], '\0');
      offset := end;
    }

    /** An ident, at-keyword or hash; an ident followed by "(" takes its arguments along. */
    method ReadIdent(kind: ComponentKind) returns (c: Component)
      requires Ready() && offset < |input| && ConsumeIdent.requires(input, offset, kind, depth)
      modifies this
      ensures Ready() && depth == old(depth)
      ensures var r := ConsumeIdent(input, old(offset), kind, depth);
              Parse(c, offset, valid) == r.(valid := old(valid) && r.valid)
      decreases |input| - offset, 1
    {
      var start := offset;
      IdentAdvances(input, start);
      if kind != Ident { offset := offset + 1; }
      var nameStart := offset;
      offset := NameEndAt(input, offset);
      if kind == Ident && offset < |input| && input[offset] == '(' {
        var name := input[nameStart..offset];
        offset := offset + 1;
        var children := ReadList(')');
        c := Component(Function, start, offset, name, "", children, ')');
      } else {
        c := Component(kind, start, offset, input[nameStart..offset], "", [], '\0');
      }
    }

    method Read() returns (c: Component)
      requires Ready() && offset < |input|
      modifies this
      ensures Ready() && depth == old(depth)
      ensures var r := Consume(input, old(offset), depth);
              Parse(c, offset, valid) == r.(valid := old(valid) && r.valid)
      decreases |input| - offset, 2
    {
      var start := offset;
      var ch := input[offset];
      if IsWs(ch) {
        while offset < |input| && IsWs(input[offset])
          invariant start <= offset <= |input| && WsEnd(input, offset) == WsEnd(input, start)
          invariant depth == old(depth) && valid == old(valid)
        {
          offset := offset + 1;
        }
        return Component(Whitespace, start, offset, "", "", [], '\0');
      }
      if ch == '"' || ch == '\'' {
        c := ReadString();
        return;
      }
      if StartsNumber(input, offset) {
        c := ReadNumeric();
        return;
      }
      if StartsAt(input, offset) {
        c := ReadIdent(AtKeyword);
        return;
      }
      if StartsHash(input, offset) {
        c := ReadIdent(Hash);
        return;
      }
      if StartsIdent(input, offset) {
        c := ReadIdent(Ident);
        return;
      }
      offset := offset + 1;
      if IsOpener(ch) {
        var children := ReadList(Mirror(ch));
        return Component(Block, start, offset, "", "", children, Mirror(ch));
      }
      var kind := if ch == ':' then Colon else if ch == ';' then Semicolon else if ch == ',' then Comma else Delim;
      c := Component(kind, start, offset, "", "", [], ch);
    }

    /** Component values up to the closer, the closer included. */
    method ReadList(closing: char) returns (components: seq<Component>)
      requires Ready()
      modifies this
      ensures Ready() && depth == old(depth)
      ensures var r := ParseList(input, old(offset), closing, depth);
              Parse(components, offset, valid) == r.(valid := old(valid) && r.valid)
      decreases |input| - offset, 4
    {
      components := [];
      depth := depth + 1;
      if depth > MAX_DEPTH {
        valid := false;
        offset := |input|;
        depth := depth - 1;
        return;
      }
      components := ReadItems(closing);
      depth := depth - 1;
    }

    /** The list's loop. */
    method ReadItems(closing: char) returns (components: seq<Component>)
      requires Ready()
      modifies this
      ensures Ready() && depth == old(depth)
      ensures var r := Items(input, old(offset), closing, depth);
              Parse(components, offset, valid) == r.(valid := old(valid) && r.valid)
      decreases |input| - offset, 3
    {
      hide Consume;
      hide CommentStarts;
      hide CommentTail;
      hide IsCloser;
      hide Items;
      components := [];
      ghost var started, wasValid, whole := offset, valid, Items(input, offset, closing, depth);
      ghost var rest := whole;
      assert [] + whole.result == whole.result;
      var closed := false;
      while offset < |input| && !closed
        invariant Ready() && depth == old(depth) && started <= offset
        invariant !closed ==> rest == Items(input, offset, closing, depth)
        invariant closed ==> rest.result == [] && rest.next == offset
        invariant whole.result == components + rest.result && whole.next == rest.next
        invariant (wasValid && whole.valid) == (valid && (closed || rest.valid))
        decreases |input| - offset, !closed
      {
        var ch := input[offset];
        ItemsUnfold(input, offset, closing, depth);
        if CommentStarts(input, offset) {
          SkipComment();
          rest := Items(input, offset, closing, depth);
          continue;
        }
        if closing != NO_CLOSER && ch == closing {
          offset := offset + 1;
          closed := true;
        } else if IsCloser(ch) {
          valid := false;
          offset := offset + 1;
          if closing != NO_CLOSER {
            closed := true;
          } else {
            rest := Items(input, offset, closing, depth);
          }
        } else {
          var c := Read();
          rest := Items(input, offset, closing, depth);
          assert components + ([c] + rest.result) == (components + [c]) + rest.result;
          components := components + [c];
        }
      }
      assert components + [] == components;
      if !closed { NoItems(input, closing, depth); }
    }
  }

  lemma NoItems(s: string, closing: char, depth: nat)
    ensures Items(s, |s|, closing, depth) == Parse([], |s|, true)
  {}

  /** One turn of the list's loop. */
  lemma ItemsUnfold(s: string, p: nat, closing: char, depth: nat)
    requires p < |s|
    ensures CommentStarts(s, p) ==> Items(s, p, closing, depth) == Items(s, CommentTail(s, p + 2), closing, depth)
    ensures !CommentStarts(s, p) && closing != NO_CLOSER && s[p] == closing ==> Items(s, p, closing, depth) == Parse([], p + 1, true)
    ensures !CommentStarts(s, p) && IsCloser(s[p]) && closing != NO_CLOSER && s[p] != closing ==>
              Items(s, p, closing, depth) == Parse([], p + 1, false)
    ensures !CommentStarts(s, p) && IsCloser(s[p]) && closing == NO_CLOSER ==>
              Items(s, p, closing, depth) == Items(s, p + 1, closing, depth).(valid := false)
    ensures !CommentStarts(s, p) && !IsCloser(s[p]) && (closing == NO_CLOSER || s[p] != closing) ==>
              var c := Consume(s, p, depth);
              var more := Items(s, c.next, closing, depth);
              Items(s, p, closing, depth) == Parse([c.result] + more.result, more.next, c.valid && more.valid)
  {
    hide Consume;
    hide CommentStarts;
    hide CommentTail;
    hide IsCloser;
  }

  /** The parse of a whole text: a tree that tiles it when the text is valid, and a verdict
      that agrees with the flat bracket check. */
  method ParseComponentValues(s: string) returns (components: seq<Component>, valid: bool)
    ensures Parse(components, |s|, valid) == ParseList(s, 0, NO_CLOSER, 0)
    ensures valid <==> Balanced(s, 0, [])
    ensures valid ==> Tiles(s, components, 0, |s|)
  {
    var parser := new Parser(s);
    components := parser.ReadList(NO_CLOSER);
    valid := parser.valid;
    ValidIffBalanced(s);
    TopLevelReachesEnd(s, 0);
    if valid { ParseIsLossless(s); }
  }

  lemma {:induction false} TopLevelReachesEnd(s: string, p: nat)
    requires p <= |s|
    ensures Items(s, p, NO_CLOSER, 1).next == |s|
    decreases |s| - p
  {
    if p < |s| {
      if CommentStarts(s, p) {
        TopLevelReachesEnd(s, CommentTail(s, p + 2));
      } else if IsCloser(s[p]) {
        TopLevelReachesEnd(s, p + 1);
      } else {
        TopLevelReachesEnd(s, Consume(s, p, 1).next);
      }
    }
  }
}
