/** What self-contained text is made of. */
module CssSheets {
  import opened CssSyntax
  import opened CssSelfContained

  // ----- pieces -----

  /** A comment with its end. */
  predicate IsClosedComment(s: string, i: nat, k: nat) {
    i + 4 <= k <= |s| && IsComment(s, i, k) && s[k - 2] == '*' && s[k - 1] == '/'
  }

  predicate IsQuote(c: char) { c == '"' || c == '\'' }

  /** Inside quotes: a backslash takes the next character along. */
  ghost predicate IsQuoted(s: string, i: nat, j: nat, quote: char)
    decreases j - i
  {
    || i == j
    || (i < j <= |s| && s[i] != quote && !IsNewline(s[i]) && (s[i] != '\\' || i + 1 == |s|) && IsQuoted(s, i + 1, j, quote))
    || (i + 2 <= j <= |s| && s[i] == '\\' && IsQuoted(s, i + 2, j, quote))
  }

  /** A string, closed by its quote or by the end of the line. */
  ghost predicate IsString(s: string, i: nat, k: nat) {
    && i + 2 <= k <= |s| && IsQuote(s[i]) && (s[k - 1] == s[i] || IsNewline(s[k - 1])) && IsQuoted(s, i + 1, k - 1, s[i])
  }

  /** A character that only stands for itself. */
  predicate IsPlain(s: string, i: nat)
    requires i < |s|
  {
    !IsQuote(s[i]) && s[i] != '\\' && !IsOpener(s[i]) && !CommentStarts(s, i)
  }

  /** One piece: a comment, an escape, a string, a pair of brackets with pieces inside, or a plain
      character other than the bracket awaited; `room` more brackets may be open at once. */
  ghost predicate IsPiece(s: string, i: nat, k: nat, awaited: char, room: nat)
    decreases k - i, 0
  {
    i < k <= |s| &&
    if CommentStarts(s, i) then IsClosedComment(s, i, k)
    else if s[i] == '\\' then k == i + 2
    else if IsQuote(s[i]) then IsString(s, i, k)
    else if IsOpener(s[i]) then
      room > 0 && i + 2 <= k && s[k - 1] == Mirror(s[i]) && ArePieces(s, i + 1, k - 1, Mirror(s[i]), room - 1)
    else k == i + 1 && (awaited == NO_CLOSER || s[i] != awaited)
  }

  ghost predicate ArePieces(s: string, i: nat, j: nat, awaited: char, room: nat)
    decreases j - i, 1
  {
    i == j || (i < j && exists k :: i < k <= j && IsPiece(s, i, k, awaited, room) && ArePieces(s, k, j, awaited, room))
  }

  // ----- statements -----

  /** The piece that ends a statement: a block in braces, and for at-rules also a semicolon. */
  predicate EndsStatement(s: string, i: nat, at: bool)
    requires i < |s|
  {
    s[i] == '{' || (at && s[i] == ';')
  }

  /** Pieces up to the first that ends the statement. */
  ghost predicate IsStatementRest(s: string, i: nat, j: nat, at: bool)
    decreases j - i
  {
    exists k :: i < k <= j && IsPiece(s, i, k, NO_CLOSER, STACK_SIZE)
                && if EndsStatement(s, i, at) then k == j else IsStatementRest(s, k, j, at)
  }

  predicate IsMarker(s: string, i: nat, k: nat) {
    (k == i + 4 && StartsWith(s, i, "<!--")) || (k == i + 3 && StartsWith(s, i, "-->"))
  }

  /** What may stand between statements. */
  predicate IsBetween(s: string, i: nat, k: nat) {
    && i < k <= |s|
    && if CommentStarts(s, i) then IsClosedComment(s, i, k)
       else if IsWs(s[i]) then k == i + 1
       else IsMarker(s, i, k)
  }

  predicate StartsStatement(s: string, i: nat)
    requires i < |s|
  {
    !CommentStarts(s, i) && !IsWs(s[i]) && !StartsWith(s, i, "<!--") && !StartsWith(s, i, "-->")
  }

  /** White space, comments, markers and whole statements. */
  ghost predicate IsSheet(s: string, i: nat, j: nat)
    decreases j - i
  {
    i == j || (i < j <= |s| && exists k :: i < k <= j && IsItem(s, i, k) && IsSheet(s, k, j))
  }

  ghost predicate IsItem(s: string, i: nat, k: nat) {
    && i < k <= |s|
    && (IsBetween(s, i, k) || (StartsStatement(s, i) && IsStatementRest(s, i, k, s[i] == '@')))
  }

  // ----- comments and strings -----

  lemma {:induction false} CommentCloseMeans(s: string, i: nat, p: nat)
    requires CommentStarts(s, i) && i + 2 <= p <= |s|
    requires forall m :: i + 2 <= m < p && m + 1 < |s| ==> !(s[m] == '*' && s[m + 1] == '/')
    ensures CommentClose(s, p) <= |s| ==> IsClosedComment(s, i, CommentClose(s, p))
    ensures forall k :: IsClosedComment(s, i, k) ==> CommentClose(s, p) == k
    decreases |s| - p
  {
    if p + 1 < |s| && !(s[p] == '*' && s[p + 1] == '/') {
      CommentCloseMeans(s, i, p + 1);
    }
  }

  /** The scan inside quotes. */
  lemma {:induction false} QuotedPasses(s: string, i: nat, j: nat, st: Scan)
    requires i <= j <= |s| && IsQuote(st.quote) && IsQuoted(s, i, j, st.quote)
    ensures Contained(s, i, st) == Contained(s, j, st)
    decreases j - i
  {
    if i < j {
      ContainedStep(s, i, st);
      if s[i] == '\\' && i + 1 < |s| {
        QuotedPasses(s, i + 2, j, st);
      } else {
        QuotedPasses(s, i + 1, j, st);
      }
    }
  }

  lemma {:induction false} QuotedFound(s: string, i: nat, st: Scan) returns (j: nat)
    requires i <= |s| && IsQuote(st.quote) && Contained(s, i, st)
    ensures i <= j < |s| && IsQuoted(s, i, j, st.quote) && (s[j] == st.quote || IsNewline(s[j]))
    ensures Contained(s, j + 1, st.(quote := NO_QUOTE))
    decreases |s| - i
  {
    if i == |s| {
      ContainedEnd(s, st);
      assert false;
    }
    ContainedStep(s, i, st);
    if s[i] == '\\' && i + 1 < |s| {
      j := QuotedFound(s, i + 2, st);
    } else if s[i] == st.quote || IsNewline(s[i]) {
      j := i;
    } else {
      j := QuotedFound(s, i + 1, st);
    }
  }

  // ----- one piece -----

  /** Between pieces, inside a bracket or a statement. */
  predicate Inside(st: Scan) {
    && st.quote == NO_QUOTE && ScanOk(st) && |st.stack| <= STACK_SIZE
    && (st.stack == [] ==> st.statement != NoStatement)
  }

  function Awaited(st: Scan): char {
    if st.stack == [] then NO_CLOSER else st.stack[|st.stack| - 1]
  }

  function Room(st: Scan): nat
    requires |st.stack| <= STACK_SIZE
  {
    STACK_SIZE - |st.stack|
  }

  /** The scan behind a piece. */
  function Behind(s: string, i: nat, st: Scan): Scan
    requires i < |s|
  {
    if st.stack == [] && EndsStatement(s, i, st.statement == AtRule) then FRESH else st
  }

  lemma InsideStep(s: string, i: nat, st: Scan)
    requires Inside(st) && i < |s|
    ensures Contained(s, i, st) ==
            if CommentStarts(s, i) then CommentClose(s, i + 2) <= |s| && Contained(s, CommentClose(s, i + 2), st)
            else if s[i] == '\\' then i + 1 < |s| && Contained(s, i + 2, st)
            else if IsQuote(s[i]) then Contained(s, i + 1, st.(quote := s[i]))
            else if IsOpener(s[i]) then Room(st) > 0 && Contained(s, i + 1, st.(stack := st.stack + [Mirror(s[i])]))
            else if st.stack == [] || s[i] != Awaited(st) then Contained(s, i + 1, Behind(s, i, st))
            else Contained(s, i + 1, Ordinary(st, s[i]))
  {
    hide Contained;
    ContainedStep(s, i, st);
  }

  lemma OpenedIsInside(st: Scan, c: char)
    requires Inside(st) && IsOpener(c) && Room(st) > 0
    ensures var inner := st.(stack := st.stack + [Mirror(c)]);
            && Inside(inner) && Awaited(inner) == Mirror(c) && Room(inner) == Room(st) - 1
            && Ordinary(inner, Mirror(c)) == (if st.stack == [] && c == '{' then FRESH else st)
  {
    var inner := st.(stack := st.stack + [Mirror(c)]);
    assert inner.stack[..|inner.stack| - 1] == st.stack;
  }

  lemma CloserStep(s: string, j: nat, st: Scan)
    requires Inside(st) && j < |s| && st.stack != [] && s[j] == Awaited(st)
    ensures Contained(s, j, st) == Contained(s, j + 1, Ordinary(st, s[j]))
  {
    hide Contained;
    InsideStep(s, j, st);
  }

  lemma {:induction false} PiecePasses(s: string, i: nat, k: nat, st: Scan)
    requires Inside(st) && IsPiece(s, i, k, Awaited(st), Room(st))
    ensures Contained(s, i, st) == Contained(s, k, Behind(s, i, st))
    decreases k - i, 0
  {
    hide Contained;
    hide Ordinary;
    InsideStep(s, i, st);
    if CommentStarts(s, i) {
      CommentCloseMeans(s, i, i + 2);
    } else if IsQuote(s[i]) {
      var quoted := st.(quote := s[i]);
      QuotedPasses(s, i + 1, k - 1, quoted);
      ContainedStep(s, k - 1, quoted);
      assert quoted.(quote := NO_QUOTE) == st;
    } else if IsOpener(s[i]) {
      var inner := st.(stack := st.stack + [Mirror(s[i])]);
      OpenedIsInside(st, s[i]);
      PiecesPass(s, i + 1, k - 1, inner);
      CloserStep(s, k - 1, inner);
    }
  }

  lemma {:induction false} PiecesPass(s: string, i: nat, j: nat, st: Scan)
    requires i <= j <= |s| && Inside(st) && st.stack != [] && ArePieces(s, i, j, Awaited(st), Room(st))
    ensures Contained(s, i, st) == Contained(s, j, st)
    decreases j - i, 1
  {
    hide Contained;
    hide IsPiece;
    if i < j {
      var k :| i < k <= j && IsPiece(s, i, k, Awaited(st), Room(st)) && ArePieces(s, k, j, Awaited(st), Room(st));
      PiecePasses(s, i, k, st);
      PiecesPass(s, k, j, st);
    }
  }

  /** A scan that succeeds has a piece in front of it, or the bracket it waits for. */
  lemma {:induction false} PieceFound(s: string, i: nat, st: Scan) returns (k: nat)
    requires Inside(st) && i < |s| && Contained(s, i, st) && (st.stack == [] || s[i] != Awaited(st))
    ensures IsPiece(s, i, k, Awaited(st), Room(st)) && Contained(s, k, Behind(s, i, st))
    decreases |s| - i, 0
  {
    hide Contained;
    hide Ordinary;
    InsideStep(s, i, st);
    if CommentStarts(s, i) {
      k := CommentClose(s, i + 2);
      CommentCloseMeans(s, i, i + 2);
    } else if s[i] == '\\' {
      k := i + 2;
    } else if IsQuote(s[i]) {
      var j := QuotedFound(s, i + 1, st.(quote := s[i]));
      k := j + 1;
      assert st.(quote := s[i]).(quote := NO_QUOTE) == st;
    } else if IsOpener(s[i]) {
      var inner := st.(stack := st.stack + [Mirror(s[i])]);
      OpenedIsInside(st, s[i]);
      var j := PiecesFound(s, i + 1, inner);
      k := j + 1;
    } else {
      k := i + 1;
    }
  }

  lemma {:induction false} PiecesFound(s: string, i: nat, st: Scan) returns (j: nat)
    requires Inside(st) && st.stack != [] && i <= |s| && Contained(s, i, st)
    ensures i <= j < |s| && ArePieces(s, i, j, Awaited(st), Room(st)) && s[j] == Awaited(st)
    ensures Contained(s, j + 1, Ordinary(st, s[j]))
    decreases |s| - i, 1
  {
    hide Contained;
    hide Ordinary;
    hide IsPiece;
    if i == |s| {
      ContainedEnd(s, st);
      assert false;
    }
    if s[i] == Awaited(st) {
      CloserStep(s, i, st);
      j := i;
    } else {
      var k := PieceFound(s, i, st);
      PieceIsAhead(s, i, k, Awaited(st), Room(st));
      j := PiecesFound(s, k, st);
    }
  }

  lemma PieceIsAhead(s: string, i: nat, k: nat, awaited: char, room: nat)
    requires IsPiece(s, i, k, awaited, room)
    ensures i < k <= |s|
  {}

  // ----- statements and sheets -----

  function Begun(c: char): Scan { Scan(NO_QUOTE, [], if c == '@' then AtRule else Qualified) }

  lemma StatementBegins(s: string, i: nat)
    requires i < |s| && StartsStatement(s, i)
    ensures Inside(Begun(s[i])) && Contained(s, i, FRESH) == Contained(s, i, Begun(s[i]))
  {
    hide Contained;
    ContainedStep(s, i, FRESH);
    ContainedStep(s, i, Begun(s[i]));
  }

  lemma RestIsAhead(s: string, i: nat, j: nat, at: bool)
    requires IsStatementRest(s, i, j, at)
    ensures i < |s|
  {
    var k :| i < k <= j && IsPiece(s, i, k, NO_CLOSER, STACK_SIZE);
  }

  lemma {:induction false} StatementPasses(s: string, i: nat, j: nat, st: Scan)
    requires Inside(st) && st.stack == [] && IsStatementRest(s, i, j, st.statement == AtRule)
    ensures j <= |s| && Contained(s, i, st) == Contained(s, j, FRESH)
    decreases j - i
  {
    hide Contained;
    hide IsPiece;
    var at := st.statement == AtRule;
    RestIsAhead(s, i, j, at);
    var k :| i < k <= j && IsPiece(s, i, k, NO_CLOSER, STACK_SIZE)
             && if EndsStatement(s, i, at) then k == j else IsStatementRest(s, k, j, at);
    PieceIsAhead(s, i, k, NO_CLOSER, STACK_SIZE);
    PiecePasses(s, i, k, st);
    if !EndsStatement(s, i, at) { StatementPasses(s, k, j, st); }
  }

  lemma {:induction false} StatementFound(s: string, i: nat, st: Scan) returns (j: nat)
    requires Inside(st) && st.stack == [] && i <= |s| && Contained(s, i, st)
    ensures i < j <= |s| && IsStatementRest(s, i, j, st.statement == AtRule) && Contained(s, j, FRESH)
    decreases |s| - i
  {
    hide Contained;
    hide IsPiece;
    if i == |s| {
      ContainedEnd(s, st);
      assert false;
    }
    var k := PieceFound(s, i, st);
    PieceIsAhead(s, i, k, NO_CLOSER, STACK_SIZE);
    if EndsStatement(s, i, st.statement == AtRule) {
      j := k;
    } else {
      j := StatementFound(s, k, st);
    }
  }

  lemma BetweenPasses(s: string, i: nat, k: nat)
    requires IsBetween(s, i, k)
    ensures Contained(s, i, FRESH) == Contained(s, k, FRESH)
  {
    hide Contained;
    ContainedStep(s, i, FRESH);
    if CommentStarts(s, i) { CommentCloseMeans(s, i, i + 2); }
    if StartsWith(s, i, "<!--") { assert s[i] == "<!--"[0]; }
    if StartsWith(s, i, "-->") { assert s[i] == "-->"[0]; }
  }

  lemma {:induction false} SheetPasses(s: string, i: nat)
    requires i <= |s| && IsSheet(s, i, |s|)
    ensures Contained(s, i, FRESH)
    decreases |s| - i
  {
    hide Contained;
    hide IsStatementRest;
    hide IsBetween;
    if i == |s| {
      ContainedEnd(s, FRESH);
    } else {
      var k :| i < k <= |s| && IsItem(s, i, k) && IsSheet(s, k, |s|);
      SheetPasses(s, k);
      if IsBetween(s, i, k) {
        BetweenPasses(s, i, k);
      } else {
        StatementBegins(s, i);
        StatementPasses(s, i, k, Begun(s[i]));
      }
    }
  }

  lemma BetweenFound(s: string, i: nat) returns (k: nat)
    requires i < |s| && !StartsStatement(s, i) && Contained(s, i, FRESH)
    ensures IsBetween(s, i, k) && Contained(s, k, FRESH)
  {
    hide Contained;
    ContainedStep(s, i, FRESH);
    if CommentStarts(s, i) {
      k := CommentClose(s, i + 2);
      CommentCloseMeans(s, i, i + 2);
    } else {
      k := if IsWs(s[i]) then i + 1 else if StartsWith(s, i, "<!--") then i + 4 else i + 3;
    }
  }

  lemma {:induction false} SheetFound(s: string, i: nat)
    requires i <= |s| && Contained(s, i, FRESH)
    ensures IsSheet(s, i, |s|)
    decreases |s| - i
  {
    hide Contained;
    hide IsStatementRest;
    hide IsBetween;
    if i < |s| {
      var k: nat;
      if StartsStatement(s, i) {
        StatementBegins(s, i);
        k := StatementFound(s, i, Begun(s[i]));
      } else {
        k := BetweenFound(s, i);
        BetweenIsAhead(s, i, k);
      }
      SheetFound(s, k);
    }
  }

  lemma BetweenIsAhead(s: string, i: nat, k: nat)
    requires IsBetween(s, i, k)
    ensures i < k <= |s|
  {}

  /** A text is self-contained if and only if it is a sequence of whole statements, comments, markers
      and white space, its brackets at most 128 deep. */
  lemma SelfContainedIffSheet(s: string)
    ensures Contained(s, 0, FRESH) <==> IsSheet(s, 0, |s|)
  {
    hide Contained;
    if Contained(s, 0, FRESH) { SheetFound(s, 0); }
    if IsSheet(s, 0, |s|) { SheetPasses(s, 0); }
  }
}
