/** CSS component values and what they cover. */
module CssSyntax {

  const MAX_DEPTH := 512

  datatype ComponentKind =
    | Whitespace | Ident | Function | StringToken | Number | Percentage | Dimension
    | Hash | AtKeyword | Colon | Semicolon | Comma | Delim | Block

  /** A component value. `number` keeps the digits of a numeric token, `value` its unit. */
  datatype Component = Component(
    kind: ComponentKind,
    start: nat,
    end: nat,
    value: string,
    number: string,
    children: seq<Component>,
    delimiter: char)

  const NO_CLOSER := '\0'

  // ----- characters -----

  predicate IsWs(c: char) { c == ' ' || c == '\t' || c == '\n' || c == '\U{0C}' || c == '\r' }
  predicate IsNewline(c: char) { c == '\n' || c == '\r' || c == '\U{0C}' }
  predicate IsDigit(c: char) { '0' <= c <= '9' }
  predicate IsHex(c: char) { IsDigit(c) || 'a' <= c <= 'f' || 'A' <= c <= 'F' }
  predicate IsNameStart(c: char) { 'a' <= c <= 'z' || 'A' <= c <= 'Z' || c == '_' || c as int >= 0x80 }
  predicate IsName(c: char) { IsNameStart(c) || IsDigit(c) || c == '-' }
  predicate IsCloser(c: char) { c == ')' || c == ']' || c == '}' }
  predicate IsOpener(c: char) { c == '(' || c == '[' || c == '{' }

  function Mirror(c: char): char {
    if c == '(' then ')' else if c == '[' then ']' else '}'
  }

  function At(s: string, p: nat): char {
    if p < |s| then s[p] else '\0'
  }

  // ----- extents -----

  function HexEnd(s: string, p: nat, digits: nat): (e: nat)
    requires p <= |s|
    ensures p <= e <= |s|
    decreases digits
  {
    if digits > 0 && p < |s| && IsHex(s[p]) then HexEnd(s, p + 1, digits - 1) else p
  }

  /** End of the escape at `p`, or `p` itself when there is none. */
  function EscapeEnd(s: string, p: nat): (e: nat)
    requires p <= |s|
    ensures p <= e <= |s|
  {
    if p >= |s| || s[p] != '\\' then p
    else if p + 1 >= |s| then p + 1
    else if IsHex(s[p + 1]) then
      var e := HexEnd(s, p + 1, 6);
      if e < |s| && IsWs(s[e]) then e + 1 else e
    else if IsNewline(s[p + 1]) then p
    else p + 2
  }

  function NameEnd(s: string, p: nat): (e: nat)
    requires p <= |s|
    ensures p <= e <= |s|
    decreases |s| - p
  {
    if p == |s| then p
    else if IsName(s[p]) then NameEnd(s, p + 1)
    else if s[p] == '\\' && EscapeEnd(s, p) != p then NameEnd(s, EscapeEnd(s, p))
    else p
  }

  predicate ValidEscape(s: string, p: nat) {
    p + 1 < |s| && s[p] == '\\' && !IsNewline(s[p + 1])
  }

  predicate StartsIdent(s: string, p: nat) {
    p < |s| &&
    if IsNameStart(s[p]) then true
    else if s[p] == '\\' then ValidEscape(s, p)
    else s[p] == '-' && p + 1 < |s| && (IsNameStart(s[p + 1]) || s[p + 1] == '-' || ValidEscape(s, p + 1))
  }

  predicate StartsNumber(s: string, p: nat) {
    p < |s| &&
    if IsDigit(s[p]) then true
    else if s[p] == '.' then IsDigit(At(s, p + 1))
    else (s[p] == '+' || s[p] == '-')
         && (IsDigit(At(s, p + 1)) || (At(s, p + 1) == '.' && IsDigit(At(s, p + 2))))
  }

  function DigitsEnd(s: string, p: nat): (e: nat)
    requires p <= |s|
    ensures p <= e <= |s|
    decreases |s| - p
  {
    if p < |s| && IsDigit(s[p]) then DigitsEnd(s, p + 1) else p
  }

  function NumberEnd(s: string, p: nat): (e: nat)
    requires p <= |s|
    ensures p <= e <= |s|
  {
    var a := if p < |s| && (s[p] == '+' || s[p] == '-') then p + 1 else p;
    var b := DigitsEnd(s, a);
    var c := if b + 1 < |s| && s[b] == '.' && IsDigit(s[b + 1]) then DigitsEnd(s, b + 1) else b;
    if c < |s| && (s[c] == 'e' || s[c] == 'E') then
      var x := if c + 1 < |s| && (s[c + 1] == '+' || s[c + 1] == '-') then c + 2 else c + 1;
      if x < |s| && IsDigit(s[x]) then DigitsEnd(s, x + 1) else c
    else c
  }

  function WsEnd(s: string, p: nat): (e: nat)
    requires p <= |s|
    ensures p <= e <= |s|
    decreases |s| - p
  {
    if p < |s| && IsWs(s[p]) then WsEnd(s, p + 1) else p
  }

  predicate CommentStarts(s: string, p: nat) {
    p + 1 < |s| && s[p] == '/' && s[p + 1] == '*'
  }

  /** End of the comment whose text is being skipped from `p`. */
  function CommentTail(s: string, p: nat): (e: nat)
    requires p <= |s|
    ensures p <= e <= |s|
    decreases |s| - p
  {
    if p + 1 >= |s| then |s|
    else if s[p] == '*' && s[p + 1] == '/' then p + 2
    else CommentTail(s, p + 1)
  }

  /** Where a string token ends: its value, the next offset, and whether it is well formed. */
  datatype StringScan = StringScan(valueEnd: nat, next: nat, ok: bool)

  function ScanString(s: string, p: nat, quote: char): (r: StringScan)
    requires p <= |s|
    ensures p <= r.valueEnd <= r.next <= |s|
    decreases |s| - p
  {
    if p == |s| then StringScan(p, p, true)
    else if s[p] == quote then StringScan(p, p + 1, true)
    else if IsNewline(s[p]) then StringScan(p, p + 1, false)
    else if s[p] == '\\' && p + 1 < |s| then
      if EscapeEnd(s, p) == p then StringScan(p, p + 1, false)
      else ScanString(s, EscapeEnd(s, p), quote)
    else ScanString(s, p + 1, quote)
  }

  // ----- parsing -----

  datatype Parse<+T> = Parse(result: T, next: nat, valid: bool)

  function ConsumeString(s: string, p: nat): (r: Parse<Component>)
    requires p < |s|
    ensures p < r.next <= |s|
  {
    var scan := ScanString(s, p + 1, s[p]);
    Parse(Component(StringToken, p, scan.next, s[p + 1..scan.valueEnd], "", [], s[p]), scan.next, scan.ok)
  }

  function ConsumeNumeric(s: string, p: nat): (r: Parse<Component>)
    requires p < |s| && StartsNumber(s, p)
    ensures p < r.next <= |s|
  {
    var n := NumberEnd(s, p);
    var kind := if n < |s| && s[n] == '%' then Percentage else if StartsIdent(s, n) then Dimension else Number;
    var end := if kind == Percentage then n + 1 else if kind == Dimension then NameEnd(s, n) else n;
    Parse(Component(kind, p, end, s[n..end], s[p..n], [], '\0'), end, true)
  }

  /** Whether an ident-like token starts at `p`, and how many characters precede its name. */
  predicate StartsAt(s: string, p: nat) {
    At(s, p) == '@' && StartsIdent(s, p + 1)
  }

  predicate StartsHash(s: string, p: nat) {
    At(s, p) == '#' && p + 1 < |s| && (IsName(s[p + 1]) || ValidEscape(s, p + 1))
  }

  function ConsumeIdent(s: string, p: nat, kind: ComponentKind, depth: nat): (r: Parse<Component>)
    requires p < |s|
    requires kind in {AtKeyword, Hash} || (kind == Ident && StartsIdent(s, p))
    ensures p < r.next <= |s|
    decreases |s| - p, 1
  {
    var from := if kind == Ident then p else p + 1;
    var e := NameEnd(s, from);
    if kind == Ident && e < |s| && s[e] == '(' then
      var list := ParseList(s, e + 1, ')', depth);
      Parse(Component(Function, p, list.next, s[p..e], "", list.result, ')'), list.next, list.valid)
    else
      IdentAdvances(s, p);
      Parse(Component(kind, p, e, s[from..e], "", [], '\0'), e, true)
  }

  function Consume(s: string, p: nat, depth: nat): (r: Parse<Component>)
    requires p < |s|
    ensures p < r.next <= |s|
    decreases |s| - p, 2
  {
    var c := s[p];
    if IsWs(c) then Parse(Component(Whitespace, p, WsEnd(s, p), "", "", [], '\0'), WsEnd(s, p), true)
    else if c == '"' || c == '\'' then ConsumeString(s, p)
    else if StartsNumber(s, p) then ConsumeNumeric(s, p)
    else if StartsAt(s, p) then ConsumeIdent(s, p, AtKeyword, depth)
    else if StartsHash(s, p) then ConsumeIdent(s, p, Hash, depth)
    else if StartsIdent(s, p) then ConsumeIdent(s, p, Ident, depth)
    else if IsOpener(c) then
      var list := ParseList(s, p + 1, Mirror(c), depth);
      Parse(Component(Block, p, list.next, "", "", list.result, Mirror(c)), list.next, list.valid)
    else
      var kind := if c == ':' then Colon else if c == ';' then Semicolon else if c == ',' then Comma else Delim;
      Parse(Component(kind, p, p + 1, "", "", [], c), p + 1, true)
  }

  function ParseList(s: string, p: nat, closing: char, depth: nat): (r: Parse<seq<Component>>)
    requires p <= |s|
    ensures p <= r.next <= |s|
    decreases |s| - p, 4
  {
    if depth + 1 > MAX_DEPTH then Parse([], |s|, false) else Items(s, p, closing, depth + 1)
  }

  /** The list's loop, from `p` on. */
  function Items(s: string, p: nat, closing: char, depth: nat): (r: Parse<seq<Component>>)
    requires p <= |s|
    ensures p <= r.next <= |s|
    decreases |s| - p, 3
  {
    if p == |s| then Parse([], p, true)
    else if CommentStarts(s, p) then Items(s, CommentTail(s, p + 2), closing, depth)
    else if closing != NO_CLOSER && s[p] == closing then Parse([], p + 1, true)
    else if IsCloser(s[p]) then
      if closing != NO_CLOSER then Parse([], p + 1, false)
      else Items(s, p + 1, closing, depth).(valid := false)
    else
      var c := Consume(s, p, depth);
      var more := Items(s, c.next, closing, depth);
      Parse([c.result] + more.result, more.next, c.valid && more.valid)
  }

  lemma IdentAdvances(s: string, p: nat)
    ensures StartsIdent(s, p) ==> NameEnd(s, p) > p
  {
    if StartsIdent(s, p) && s[p] == '\\' {
      assert EscapeEnd(s, p) > p;
    }
  }

  lemma NumberAdvances(s: string, p: nat)
    requires StartsNumber(s, p)
    ensures NumberEnd(s, p) > p
  {}

  // ----- what a tree says about the text -----

  /** One comment, by definition: it ends at the first terminator, or with the text. */
  predicate IsComment(s: string, i: nat, j: nat) {
    && i + 2 <= j <= |s| && s[i] == '/' && s[i + 1] == '*'
    && (forall k :: i + 2 <= k && k + 1 < |s| && k + 2 < j ==> !(s[k] == '*' && s[k + 1] == '/'))
    && ((i + 4 <= j && s[j - 2] == '*' && s[j - 1] == '/') || j == |s|)
  }

  /** Nothing but comments between two offsets. */
  ghost predicate Comments(s: string, i: nat, j: nat)
    decreases j - i
  {
    i == j || (i < j && exists k :: i < k <= j && IsComment(s, i, k) && Comments(s, k, j))
  }

  /** A component's fields spell out the text it covers. */
  ghost predicate Spells(s: string, c: Component)
    decreases c, 1
  {
    c.start < c.end <= |s| &&
    var text := s[c.start..c.end];
    match c.kind
    case Whitespace => forall k :: 0 <= k < |text| ==> IsWs(text[k])
    case StringToken =>
      && (c.delimiter == '"' || c.delimiter == '\'')
      && (text == [c.delimiter] + c.value + [c.delimiter] || (text == [c.delimiter] + c.value && c.end == |s|))
    case Number => c.number != "" && c.value == "" && text == c.number
    case Percentage => c.number != "" && c.value == "%" && text == c.number + "%"
    case Dimension => c.number != "" && c.value != "" && text == c.number + c.value
    case Ident => text == c.value
    case Hash => c.value != "" && text == "#" + c.value
    case AtKeyword => c.value != "" && text == "@" + c.value
    case Colon => text == ":"
    case Semicolon => text == ";"
    case Comma => text == ","
    case Delim => text == [c.delimiter]
    case Function =>
      && c.delimiter == ')' && c.value != "" && |c.value| < |text| && text[..|c.value| + 1] == c.value + "("
      && Encloses(s, c, c.start + |c.value| + 1)
    case Block =>
      && IsOpener(text[0]) && c.delimiter == Mirror(text[0])
      && Encloses(s, c, c.start + 1)
  }

  /** The children tile the inside of their parent, up to its closer or the end of the text. */
  ghost predicate Encloses(s: string, c: Component, inside: nat)
    decreases c, 0
  {
    || (inside < c.end <= |s| && s[c.end - 1] == c.delimiter && Tiles(s, c.children, inside, c.end - 1))
    || (inside <= c.end == |s| && Tiles(s, c.children, inside, c.end))
  }

  /** Components in order, separated by comments only, covering [i, j) without a gap. */
  ghost predicate Tiles(s: string, list: seq<Component>, i: nat, j: nat)
    decreases list
  {
    if list == [] then Comments(s, i, j)
    else
      var c := list[0];
      && i <= c.start && Comments(s, i, c.start)
      && Spells(s, c) && c.end <= j
      && Tiles(s, list[1..], c.end, j)
  }

  // ----- comments -----

  lemma {:induction false} CommentTailIsComment(s: string, p: nat, q: nat)
    requires CommentStarts(s, p) && p + 2 <= q <= |s|
    requires forall k :: p + 2 <= k < q && k + 1 < |s| ==> !(s[k] == '*' && s[k + 1] == '/')
    ensures IsComment(s, p, CommentTail(s, q))
    decreases |s| - q
  {
    if q + 1 < |s| && !(s[q] == '*' && s[q + 1] == '/') {
      CommentTailIsComment(s, p, q + 1);
    }
  }

  lemma CommentsExtend(s: string, p: nat, e: nat, j: nat)
    requires IsComment(s, p, e) && e <= j && Comments(s, e, j)
    ensures Comments(s, p, j)
  {}

  lemma {:induction false} TilesAfterComment(s: string, list: seq<Component>, p: nat, e: nat, j: nat)
    requires IsComment(s, p, e) && Tiles(s, list, e, j) && e <= j
    ensures Tiles(s, list, p, j)
  {
    if list == [] {
      CommentsExtend(s, p, e, j);
    } else {
      CommentsExtend(s, p, e, list[0].start);
    }
  }

  // ----- what each token spells -----

  lemma {:induction false} WsEndIsWs(s: string, p: nat)
    requires p <= |s|
    ensures forall k :: p <= k < WsEnd(s, p) ==> IsWs(s[k])
    decreases |s| - p
  {
    if p < |s| && IsWs(s[p]) {
      WsEndIsWs(s, p + 1);
    }
  }

  lemma {:induction false} ScanStringEnds(s: string, p: nat, quote: char)
    requires p <= |s| && ScanString(s, p, quote).ok
    ensures var r := ScanString(s, p, quote);
            (r.next == r.valueEnd + 1 && s[r.valueEnd] == quote) || (r.next == r.valueEnd == |s|)
    decreases |s| - p
  {
    if p < |s| && s[p] != quote && !IsNewline(s[p]) {
      if s[p] == '\\' && p + 1 < |s| {
        ScanStringEnds(s, EscapeEnd(s, p), quote);
      } else {
        ScanStringEnds(s, p + 1, quote);
      }
    }
  }

  lemma StringSpells(s: string, p: nat)
    requires p < |s| && (s[p] == '"' || s[p] == '\'') && ConsumeString(s, p).valid
    ensures Spells(s, ConsumeString(s, p).result)
  {
    hide ScanString;
    hide Encloses;
    hide EscapeEnd;
    var r := ScanString(s, p + 1, s[p]);
    ScanStringEnds(s, p + 1, s[p]);
    SliceEnds(s, p, r.valueEnd);
  }

  lemma SliceEnds(s: string, p: nat, q: nat)
    requires p < q <= |s|
    ensures s[p..q] == [s[p]] + s[p + 1..q]
    ensures q < |s| ==> s[p..q + 1] == [s[p]] + s[p + 1..q] + [s[q]]
  {}

  lemma NumericSpells(s: string, p: nat)
    requires p < |s| && StartsNumber(s, p)
    ensures Spells(s, ConsumeNumeric(s, p).result)
  {
    hide NumberEnd;
    hide NameEnd;
    hide StartsIdent;
    NumberAdvances(s, p);
    var n := NumberEnd(s, p);
    IdentAdvances(s, n);
    var c := ConsumeNumeric(s, p).result;
    SliceJoins(s, p, n, c.end);
  }

  lemma SliceJoins(s: string, p: nat, n: nat, e: nat)
    requires p <= n <= e <= |s|
    ensures s[p..e] == s[p..n] + s[n..e]
    ensures p < n ==> s[p..n] != ""
    ensures n < |s| && e == n + 1 && s[n] == '%' ==> s[n..e] == "%"
    ensures e == n ==> s[n..e] == "" && s[p..e] == s[p..n]
  {}

  lemma HashAdvances(s: string, p: nat)
    requires p + 1 < |s| && (IsName(s[p + 1]) || ValidEscape(s, p + 1))
    ensures NameEnd(s, p + 1) > p + 1
  {
    if s[p + 1] == '\\' {
      assert EscapeEnd(s, p + 1) > p + 1;
    }
  }

  /** The inside of a list that ended validly: closed by its closer, or by the end of the text. */
  ghost predicate Covers(s: string, p: nat, closing: char, r: Parse<seq<Component>>)
    requires p <= |s|
  {
    || (closing != NO_CLOSER && p < r.next <= |s| && s[r.next - 1] == closing && Tiles(s, r.result, p, r.next - 1))
    || (r.next == |s| && Tiles(s, r.result, p, r.next))
  }

  lemma {:induction false} IdentSpells(s: string, p: nat, kind: ComponentKind, depth: nat)
    requires p < |s| && ConsumeIdent.requires(s, p, kind, depth)
    requires kind == AtKeyword ==> StartsAt(s, p)
    requires kind == Hash ==> StartsHash(s, p)
    requires ConsumeIdent(s, p, kind, depth).valid
    ensures Spells(s, ConsumeIdent(s, p, kind, depth).result)
    decreases |s| - p, 1
  {
    hide NameEnd;
    hide StartsIdent;
    hide ValidEscape;
    hide Comments;
    hide ParseList;
    hide Tiles;
    var from := if kind == Ident then p else p + 1;
    var e := NameEnd(s, from);
    IdentAdvances(s, from);
    if kind == Ident && e < |s| && s[e] == '(' {
      ListCovers(s, e + 1, ')', depth);
      CallText(s, p, e, ParseList(s, e + 1, ')', depth).next);
    } else {
      if kind == Hash { HashAdvances(s, p); }
      MarkedText(s, p, e);
    }
  }

  lemma CallText(s: string, p: nat, e: nat, end: nat)
    requires p <= e < end <= |s|
    ensures s[p..end][..e - p + 1] == s[p..e] + [s[e]] && |s[p..e]| == e - p
  {}

  lemma MarkedText(s: string, p: nat, e: nat)
    requires p <= e <= |s|
    ensures p < e ==> s[p..e] == [s[p]] + s[p + 1..e]
    ensures p + 1 < e ==> s[p + 1..e] != ""
  {}

  lemma {:induction false} ConsumeSpells(s: string, p: nat, depth: nat)
    requires p < |s| && !IsCloser(s[p]) && Consume(s, p, depth).valid
    ensures Spells(s, Consume(s, p, depth).result) && Consume(s, p, depth).result.start == p
    ensures Consume(s, p, depth).result.end == Consume(s, p, depth).next
    decreases |s| - p, 2
  {
    var c := s[p];
    if IsWs(c) {
      WsEndIsWs(s, p);
    } else if c == '"' || c == '\'' {
      StringSpells(s, p);
    } else if StartsNumber(s, p) {
      NumericSpells(s, p);
    } else if StartsAt(s, p) {
      IdentSpells(s, p, AtKeyword, depth);
    } else if StartsHash(s, p) {
      IdentSpells(s, p, Hash, depth);
    } else if StartsIdent(s, p) {
      IdentSpells(s, p, Ident, depth);
    } else if IsOpener(c) {
      ListCovers(s, p + 1, Mirror(c), depth);
    }
  }

  lemma {:induction false} ListCovers(s: string, p: nat, closing: char, depth: nat)
    requires p <= |s| && ParseList(s, p, closing, depth).valid
    ensures Covers(s, p, closing, ParseList(s, p, closing, depth))
    decreases |s| - p, 4
  {
    ItemsCover(s, p, closing, depth + 1);
  }

  lemma {:induction false} ItemsCover(s: string, p: nat, closing: char, depth: nat)
    requires p <= |s| && Items(s, p, closing, depth).valid
    ensures Covers(s, p, closing, Items(s, p, closing, depth))
    decreases |s| - p, 3
  {
    hide Consume;
    hide CommentTail;
    hide CommentStarts;
    var r := Items(s, p, closing, depth);
    if p == |s| {
    } else if CommentStarts(s, p) {
      var e := CommentTail(s, p + 2);
      CommentTailIsComment(s, p, p + 2);
      ItemsCover(s, e, closing, depth);
      if r.next == |s| && Tiles(s, r.result, e, r.next) {
        TilesAfterComment(s, r.result, p, e, r.next);
      } else {
        TilesAfterComment(s, r.result, p, e, r.next - 1);
      }
    } else if closing != NO_CLOSER && s[p] == closing {
    } else {
      var c := Consume(s, p, depth);
      ConsumeSpells(s, p, depth);
      ItemsCover(s, c.next, closing, depth);
      var more := Items(s, c.next, closing, depth);
      assert r.result[0] == c.result && r.result[1..] == more.result;
    }
  }

  /** A valid parse loses nothing: its top-level components and the comments between them
      tile the whole text, and the children of every block and function tile its inside. */
  lemma ParseIsLossless(s: string)
    requires ParseList(s, 0, NO_CLOSER, 0).valid
    ensures Tiles(s, ParseList(s, 0, NO_CLOSER, 0).result, 0, |s|)
  {
    ListCovers(s, 0, NO_CLOSER, 0);
  }
}
