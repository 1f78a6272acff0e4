/** Style sheet text with everything closed. */
module CssSelfContained {
  import opened CssSyntax

  const STACK_SIZE := 128

  datatype Statement = NoStatement | AtRule | Qualified

  const NO_QUOTE := '\0'

  /** The scan between two characters: an open quote, expected closers, the open statement. */
  datatype Scan = Scan(quote: char, stack: seq<char>, statement: Statement)

  const FRESH := Scan(NO_QUOTE, [], NoStatement)

  predicate StartsWith(s: string, p: nat, t: string) {
    p + |t| <= |s| && forall k :: 0 <= k < |t| ==> s[p + k] == t[k]
  }

  /** The offset after the next comment terminator, or one past the end when there is none. */
  function CommentClose(s: string, p: nat): (e: nat)
    requires p <= |s|
    ensures p < e
    decreases |s| - p
  {
    if p + 1 >= |s| then |s| + 1
    else if s[p] == '*' && s[p + 1] == '/' then p + 2
    else CommentClose(s, p + 1)
  }

  /** The effect of an ordinary character, once comments, escapes and markers are ruled out. */
  function Ordinary(st: Scan, c: char): Scan {
    var stmt := if st.stack == [] && st.statement == NoStatement then (if c == '@' then AtRule else Qualified) else st.statement;
    if c == '"' || c == '\'' then Scan(c, st.stack, stmt)
    else if IsOpener(c) then Scan(NO_QUOTE, st.stack + [Mirror(c)], stmt)
    else if st.stack != [] && c == st.stack[|st.stack| - 1] then
      Scan(NO_QUOTE, st.stack[..|st.stack| - 1], if |st.stack| == 1 && c == '}' then NoStatement else stmt)
    else if c == ';' && st.stack == [] && stmt == AtRule then Scan(NO_QUOTE, st.stack, NoStatement)
    else Scan(NO_QUOTE, st.stack, stmt)
  }

  /** Only quotes are ever open, and only closers expected. */
  predicate ScanOk(st: Scan) {
    && st.quote in {NO_QUOTE, '"', '\''}
    && forall k :: 0 <= k < |st.stack| ==> IsCloser(st.stack[k])
  }

  /** The scan from `p` to the end. */
  predicate Contained(s: string, p: nat, st: Scan)
    requires p <= |s|
    decreases |s| - p
  {
    if p == |s| then st == FRESH
    else
      var c := s[p];
      if st.quote != NO_QUOTE then
        if c == '\\' && p + 1 < |s| then Contained(s, p + 2, st)
        else Contained(s, p + 1, if c == st.quote || IsNewline(c) then st.(quote := NO_QUOTE) else st)
      else if CommentStarts(s, p) then
        CommentClose(s, p + 2) <= |s| && Contained(s, CommentClose(s, p + 2), st)
      else if IsWs(c) then Contained(s, p + 1, st)
      else if st.stack == [] && st.statement == NoStatement && StartsWith(s, p, "<!--") then Contained(s, p + 4, st)
      else if st.stack == [] && st.statement == NoStatement && StartsWith(s, p, "-->") then Contained(s, p + 3, st)
      else if c == '\\' then
        p + 1 < |s| && Contained(s, p + 2, Ordinary(st, c))
      else
        !(IsOpener(c) && |st.stack| == STACK_SIZE) && Contained(s, p + 1, Ordinary(st, c))
  }

  /** Past the end of a comment; past the end of the text if it does not end. */
  method SkipComment(s: string, start: nat) returns (p: nat)
    requires start <= |s|
    ensures p == CommentClose(s, start)
  {
    p := start;
    while p + 1 < |s| && !(s[p] == '*' && s[p + 1] == '/')
      invariant start <= p <= |s| && CommentClose(s, p) == CommentClose(s, start)
      decreases |s| - p
    {
      p := p + 1;
    }
    p := if p + 1 >= |s| then |s| + 1 else p + 2;
  }

  lemma ContainedStep(s: string, p: nat, st: Scan)
    requires p < |s|
    ensures Contained(s, p, st) ==
            var c := s[p];
            if st.quote != NO_QUOTE then
              if c == '\\' && p + 1 < |s| then Contained(s, p + 2, st)
              else Contained(s, p + 1, if c == st.quote || IsNewline(c) then st.(quote := NO_QUOTE) else st)
            else if CommentStarts(s, p) then
              CommentClose(s, p + 2) <= |s| && Contained(s, CommentClose(s, p + 2), st)
            else if IsWs(c) then Contained(s, p + 1, st)
            else if st.stack == [] && st.statement == NoStatement && StartsWith(s, p, "<!--") then Contained(s, p + 4, st)
            else if st.stack == [] && st.statement == NoStatement && StartsWith(s, p, "-->") then Contained(s, p + 3, st)
            else if c == '\\' then
              p + 1 < |s| && Contained(s, p + 2, Ordinary(st, c))
            else
              !(IsOpener(c) && |st.stack| == STACK_SIZE) && Contained(s, p + 1, Ordinary(st, c))
  {}

  lemma ContainedEnd(s: string, st: Scan)
    ensures Contained(s, |s|, st) == (st == FRESH)
  {}

  /** The source's scan, with its fixed bracket stack. */
  method IsSelfContained(s: string) returns (r: bool)
    ensures r == Contained(s, 0, FRESH)
  {
    hide Contained;
    hide CommentClose;
    var p, quote, depth, stmt := 0, NO_QUOTE, 0, NoStatement;
    var stack := new char[STACK_SIZE];
    while p < |s|
      invariant p <= |s| && depth <= STACK_SIZE
      invariant ScanOk(Scan(quote, stack[..depth], stmt))
      invariant Contained(s, p, Scan(quote, stack[..depth], stmt)) == Contained(s, 0, FRESH)
      decreases |s| - p
    {
      var c := s[p];
      ghost var st := Scan(quote, stack[..depth], stmt);
      ContainedStep(s, p, st);
      if quote != NO_QUOTE {
        if c == '\\' && p + 1 < |s| {
          p := p + 2;
          continue;
        }
        if c == quote || IsNewline(c) { quote := NO_QUOTE; }
        p := p + 1;
        continue;
      }
      if c == '/' && p + 1 < |s| && s[p + 1] == '*' {
        p := SkipComment(s, p + 2);
        if p > |s| { return false; }
        continue;
      }
      if IsWs(c) {
        p := p + 1;
        continue;
      }
      if depth == 0 && stmt == NoStatement {
        if StartsWith(s, p, "<!--") {
          p := p + 4;
          continue;
        }
        if StartsWith(s, p, "-->") {
          p := p + 3;
          continue;
        }
        stmt := if c == '@' then AtRule else Qualified;
      }
      if c == '\\' {
        if p + 1 >= |s| { return false; }
        p := p + 2;
        continue;
      }
      if c == '"' || c == '\'' {
        quote := c;
      } else if IsOpener(c) {
        if depth == STACK_SIZE { return false; }
        stack[depth] := Mirror(c);
        depth := depth + 1;
        assert stack[..depth] == st.stack + [Mirror(c)];
      } else if depth > 0 && c == stack[depth - 1] {
        depth := depth - 1;
        assert stack[..depth] == st.stack[..|st.stack| - 1];
        if depth == 0 && c == '}' { stmt := NoStatement; }
      } else if c == ';' && depth == 0 && stmt == AtRule {
        stmt := NoStatement;
      }
      assert Scan(quote, stack[..depth], stmt) == Ordinary(st, c);
      p := p + 1;
    }
    ContainedEnd(s, Scan(quote, stack[..depth], stmt));
    return quote == NO_QUOTE && depth == 0 && stmt == NoStatement;
  }

  // ----- putting pieces together -----

  lemma {:induction false} CommentClosePrefix(a: string, b: string, p: nat)
    requires p <= |a| && CommentClose(a, p) <= |a|
    ensures CommentClose(a + b, p) == CommentClose(a, p)
    decreases |a| - p
  {
    if !(a[p] == '*' && a[p + 1] == '/') {
      CommentClosePrefix(a, b, p + 1);
    }
  }

  /** A text that stops inside a statement's first characters is not self-contained. */
  lemma {:induction false} CutMarker(a: string, p: nat)
    requires p <= |a| && forall k :: p <= k < |a| ==> a[k] == '!' || a[k] == '-'
    ensures !Contained(a, p, Scan(NO_QUOTE, [], Qualified))
    decreases |a| - p
  {
    if p < |a| {
      CutMarker(a, p + 1);
    }
  }

  /** A marker cut off by the end of the text. */
  lemma MarkerIsWhole(a: string, b: string, p: nat, t: string)
    requires p < |a| && Contained(a, p, FRESH) && (t == "<!--" || t == "-->")
    ensures StartsWith(a + b, p, t) == StartsWith(a, p, t)
  {
    if StartsWith(a + b, p, t) && !StartsWith(a, p, t) {
      assert forall k :: p <= k < |a| ==> a[k] == t[k - p];
      assert "<!--"[0] == '<' && "-->"[0] == '-' && a[p] == t[0];
      CutMarker(a, p + 1);
      assert false;
    }
  }

  /** What follows a self-contained text is scanned from a fresh start. */
  lemma {:induction false} ScanPrefix(a: string, b: string, p: nat, st: Scan)
    requires p <= |a| && ScanOk(st) && Contained(a, p, st)
    ensures Contained(a + b, p, st) == Contained(a + b, |a|, FRESH)
    decreases |a| - p
  {
    if p < |a| {
      var s, c := a + b, a[p];
      assert s[p] == c;
      if st.quote != NO_QUOTE {
        if c == '\\' && p + 1 < |a| {
          ScanPrefix(a, b, p + 2, st);
        } else if c == '\\' {
          assert false;
        } else {
          ScanPrefix(a, b, p + 1, if c == st.quote || IsNewline(c) then st.(quote := NO_QUOTE) else st);
        }
      } else if CommentStarts(a, p) {
        assert CommentStarts(s, p);
        CommentClosePrefix(a, b, p + 2);
        ScanPrefix(a, b, CommentClose(a, p + 2), st);
      } else if IsWs(c) {
        ScanPrefix(a, b, p + 1, st);
      } else {
        if p + 1 == |a| && c == '/' {
          LoneSlash(a, p, st);
          assert false;
        }
        if st == FRESH {
          MarkerIsWhole(a, b, p, "<!--");
          MarkerIsWhole(a, b, p, "-->");
        }
        PrefixStep(a, b, p, st);
      }
    }
  }

  /** A text that stops on a slash outside a string leaves something open. */
  lemma LoneSlash(a: string, p: nat, st: Scan)
    requires p + 1 == |a| && a[p] == '/' && st.quote == NO_QUOTE && ScanOk(st)
    ensures !Contained(a, p, st)
  {
    assert "<!--"[0] == '<' && "-->"[0] == '-';
    assert Ordinary(st, '/') != FRESH;
  }

  lemma {:induction false} PrefixStep(a: string, b: string, p: nat, st: Scan)
    requires p < |a| && st.quote == NO_QUOTE && ScanOk(st) && Contained(a, p, st) && !IsWs(a[p])
    requires !CommentStarts(a, p) && !CommentStarts(a + b, p)
    requires st == FRESH ==> StartsWith(a + b, p, "<!--") == StartsWith(a, p, "<!--")
                             && StartsWith(a + b, p, "-->") == StartsWith(a, p, "-->")
    ensures Contained(a + b, p, st) == Contained(a + b, |a|, FRESH)
    decreases |a| - p, 0
  {
    var s, c := a + b, a[p];
    assert s[p] == c;
    if st == FRESH && StartsWith(a, p, "<!--") {
      ScanPrefix(a, b, p + 4, st);
    } else if st == FRESH && StartsWith(a, p, "-->") {
      ScanPrefix(a, b, p + 3, st);
    } else if c == '\\' {
      ScanPrefix(a, b, p + 2, Ordinary(st, c));
    } else {
      ScanPrefix(a, b, p + 1, Ordinary(st, c));
    }
  }

  lemma {:induction false} CommentCloseShift(a: string, b: string, p: nat)
    requires p <= |b|
    ensures CommentClose(a + b, |a| + p) == |a| + CommentClose(b, p)
    decreases |b| - p
  {
    if p + 1 < |b| && !(b[p] == '*' && b[p + 1] == '/') {
      CommentCloseShift(a, b, p + 1);
    }
  }

  lemma StartsShift(a: string, b: string, p: nat, t: string)
    requires p <= |b|
    ensures StartsWith(a + b, |a| + p, t) == StartsWith(b, p, t)
  {
    if StartsWith(a + b, |a| + p, t) {
      forall k | 0 <= k < |t| ensures b[p + k] == t[k] {
        assert (a + b)[|a| + p + k] == t[k];
      }
    } else if p + |t| <= |b| {
      var k :| 0 <= k < |t| && (a + b)[|a| + p + k] != t[k];
      assert b[p + k] != t[k];
    }
  }

  /** The scan does not look back. */
  lemma {:induction false} ScanShift(a: string, b: string, p: nat, st: Scan)
    requires p <= |b|
    ensures Contained(a + b, |a| + p, st) == Contained(b, p, st)
    decreases |b| - p
  {
    if p < |b| {
      var s, c := a + b, b[p];
      assert s[|a| + p] == c;
      StartsShift(a, b, p, "<!--");
      StartsShift(a, b, p, "-->");
      if st.quote != NO_QUOTE {
        if c == '\\' && p + 1 < |b| {
          ScanShift(a, b, p + 2, st);
        } else {
          ScanShift(a, b, p + 1, if c == st.quote || IsNewline(c) then st.(quote := NO_QUOTE) else st);
        }
      } else if CommentStarts(b, p) {
        CommentCloseShift(a, b, p + 2);
        if CommentClose(b, p + 2) <= |b| {
          ScanShift(a, b, CommentClose(b, p + 2), st);
        }
      } else {
        ShiftStep(a, b, p, st);
      }
    }
  }

  lemma {:induction false} ShiftStep(a: string, b: string, p: nat, st: Scan)
    requires p < |b| && st.quote == NO_QUOTE && !CommentStarts(b, p)
    requires CommentStarts(a + b, |a| + p) == CommentStarts(b, p)
    requires StartsWith(a + b, |a| + p, "<!--") == StartsWith(b, p, "<!--")
    requires StartsWith(a + b, |a| + p, "-->") == StartsWith(b, p, "-->")
    ensures Contained(a + b, |a| + p, st) == Contained(b, p, st)
    decreases |b| - p, 0
  {
    var c := b[p];
    assert (a + b)[|a| + p] == c;
    if IsWs(c) {
      ScanShift(a, b, p + 1, st);
    } else if st == FRESH && StartsWith(b, p, "<!--") {
      ScanShift(a, b, p + 4, st);
    } else if st == FRESH && StartsWith(b, p, "-->") {
      ScanShift(a, b, p + 3, st);
    } else if c == '\\' {
      if p + 1 < |b| { ScanShift(a, b, p + 2, Ordinary(st, c)); }
    } else {
      ScanShift(a, b, p + 1, Ordinary(st, c));
    }
  }

  /** After a self-contained piece, the rest decides alone: pieces compose. */
  lemma SelfContainedComposes(a: string, b: string)
    requires Contained(a, 0, FRESH)
    ensures Contained(a + b, 0, FRESH) <==> Contained(b, 0, FRESH)
  {
    ScanPrefix(a, b, 0, FRESH);
    ScanShift(a, b, 0, FRESH);
  }
}
