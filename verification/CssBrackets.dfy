/** Validity seen flatly, by a bracket stack. */
module CssBrackets {
  import opened CssSyntax

  datatype Token = Plain | Broken | Open(closer: char) | Close(closer: char)

  datatype Lexed = Lexed(token: Token, next: nat)

  /** Ident-like tokens: a name directly followed by "(" opens a function. */
  function LexIdent(s: string, p: nat): Lexed
    requires p < |s|
  {
    var e := NameEnd(s, p);
    if e < |s| && s[e] == '(' then Lexed(Open(')'), e + 1) else Lexed(Plain, e)
  }

  /** The token at `p`, whatever surrounds it. */
  function Lex(s: string, p: nat): (t: Lexed)
    requires p < |s|
    ensures p < t.next <= |s|
  {
    var c := s[p];
    IdentAdvances(s, p);
    if CommentStarts(s, p) then Lexed(Plain, CommentTail(s, p + 2))
    else if IsCloser(c) then Lexed(Close(c), p + 1)
    else if IsWs(c) then Lexed(Plain, WsEnd(s, p))
    else if c == '"' || c == '\'' then
      var r := ScanString(s, p + 1, c);
      Lexed(if r.ok then Plain else Broken, r.next)
    else if StartsNumber(s, p) then Lexed(Plain, ConsumeNumeric(s, p).next)
    else if StartsAt(s, p) || StartsHash(s, p) then Lexed(Plain, NameEnd(s, p + 1))
    else if StartsIdent(s, p) then LexIdent(s, p)
    else if IsOpener(c) then Lexed(Open(Mirror(c)), p + 1)
    else Lexed(Plain, p + 1)
  }

  /** Every closer meets the bracket it closes, no string breaks off at a newline, and nesting stays
      within bounds. What is still open at the end of the text, bracket or string, counts as closed. */
  predicate Balanced(s: string, p: nat, stack: seq<char>)
    requires p <= |s|
    decreases |s| - p
  {
    if p == |s| then true
    else
      var t := Lex(s, p);
      match t.token
      case Plain => Balanced(s, t.next, stack)
      case Broken => false
      case Open(c) => |stack| + 1 < MAX_DEPTH && Balanced(s, t.next, [c] + stack)
      case Close(c) => stack != [] && stack[0] == c && Balanced(s, t.next, stack[1..])
  }

  lemma {:induction false} ConsumeBalances(s: string, p: nat, stack: seq<char>)
    requires p < |s| && !CommentStarts(s, p) && !IsCloser(s[p])
    ensures var c := Consume(s, p, |stack| + 1);
            Balanced(s, p, stack) <==> c.valid && Balanced(s, c.next, stack)
    decreases |s| - p, 1
  {
    var c := s[p];
    var t := Lex(s, p);
    if IsWs(c) || c == '"' || c == '\'' || StartsNumber(s, p) || StartsAt(s, p) || StartsHash(s, p) {
    } else if StartsIdent(s, p) {
      if t.token.Open? {
        ListBalances(s, t.next, ')', stack);
      }
    } else if IsOpener(c) {
      ListBalances(s, p + 1, Mirror(c), stack);
    }
  }

  lemma {:induction false} ListBalances(s: string, p: nat, closing: char, stack: seq<char>)
    requires p <= |s| && IsCloser(closing)
    ensures var list := ParseList(s, p, closing, |stack| + 1);
            |stack| + 1 < MAX_DEPTH && Balanced(s, p, [closing] + stack) <==> list.valid && Balanced(s, list.next, stack)
    decreases |s| - p, 3
  {
    if |stack| + 1 < MAX_DEPTH {
      ItemsBalance(s, p, closing, stack);
    }
  }

  lemma {:induction false} ItemsBalance(s: string, p: nat, closing: char, stack: seq<char>)
    requires p <= |s| && IsCloser(closing)
    ensures var r := Items(s, p, closing, |stack| + 2);
            Balanced(s, p, [closing] + stack) <==> r.valid && Balanced(s, r.next, stack)
    decreases |s| - p, 2
  {
    var full := [closing] + stack;
    if p == |s| {
    } else if CommentStarts(s, p) {
      ItemsBalance(s, Lex(s, p).next, closing, stack);
    } else if IsCloser(s[p]) {
      assert full[1..] == stack;
    } else {
      ConsumeBalances(s, p, full);
      ItemsBalance(s, Consume(s, p, |full| + 1).next, closing, stack);
    }
  }

  lemma {:induction false} TopLevelBalances(s: string, p: nat)
    requires p <= |s|
    ensures Balanced(s, p, []) <==> Items(s, p, NO_CLOSER, 1).valid
    decreases |s| - p
  {
    if p == |s| {
    } else if CommentStarts(s, p) {
      TopLevelBalances(s, Lex(s, p).next);
    } else if !IsCloser(s[p]) {
      ConsumeBalances(s, p, []);
      TopLevelBalances(s, Consume(s, p, 1).next);
    }
  }

  /** The recursive parser reports a syntax error exactly when the flat pass rejects. */
  lemma ValidIffBalanced(s: string)
    ensures ParseList(s, 0, NO_CLOSER, 0).valid <==> Balanced(s, 0, [])
  {
    TopLevelBalances(s, 0);
  }
}
