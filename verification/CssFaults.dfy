/** Faulty texts are covered too. */
module CssFaults {
  import opened CssSyntax

  /** Comments, and at the outermost level closing brackets that close nothing. */
  ghost predicate IsGap(s: string, i: nat, j: nat, stray: bool)
    decreases j - i
  {
    || i == j
    || (i < j && exists k :: i < k <= j && (IsComment(s, i, k) || (stray && IsStray(s, i, k))) && IsGap(s, k, j, stray))
  }

  predicate IsStray(s: string, i: nat, k: nat) {
    i < |s| && k == i + 1 && IsCloser(s[i])
  }

  /** The components lie in order in [i, j) with nothing but such gaps between them. */
  ghost predicate Lie(s: string, list: seq<Component>, i: nat, j: nat, stray: bool)
    decreases |list|
  {
    if list == [] then i <= j && IsGap(s, i, j, stray)
    else
      && i <= list[0].start && IsGap(s, i, list[0].start, stray)
      && list[0].start < list[0].end <= j && Lie(s, list[1..], list[0].end, j, stray)
  }

  lemma GapFirst(s: string, i: nat, k: nat, j: nat, stray: bool)
    requires i < k <= j && (IsComment(s, i, k) || (stray && IsStray(s, i, k))) && IsGap(s, k, j, stray)
    ensures IsGap(s, i, j, stray)
  {}

  lemma LieAfter(s: string, list: seq<Component>, i: nat, k: nat, j: nat, stray: bool)
    requires i < k <= j && (IsComment(s, i, k) || (stray && IsStray(s, i, k))) && Lie(s, list, k, j, stray)
    ensures Lie(s, list, i, j, stray)
  {
    hide IsComment;
    hide IsGap;
    if list == [] {
      GapFirst(s, i, k, j, stray);
    } else {
      GapFirst(s, i, k, list[0].start, stray);
    }
  }

  /** Where a list ends: at the end of the text, or behind the first closing bracket no block inside it
      claims; that bracket is its own exactly when the fault is elsewhere. */
  ghost predicate Stops(s: string, p: nat, closing: char, r: Parse<seq<Component>>, j: nat) {
    && Lie(s, r.result, p, j, closing == NO_CLOSER) && j <= r.next <= |s|
    && if closing != NO_CLOSER && r.next == j + 1 then IsCloser(s[j]) && (r.valid ==> s[j] == closing)
       else r.next == j == |s|
  }

  lemma ConsumedSpan(s: string, p: nat, depth: nat)
    requires p < |s|
    ensures var r := Consume(s, p, depth); r.result.start == p && r.result.end == r.next
  {
    hide ParseList;
    hide ScanString;
    hide NumberEnd;
    hide NameEnd;
    hide StartsIdent;
    hide StartsNumber;
  }

  /** Every parse, faulty or not, covers its text: nothing is lost between the components of a list but
      comments, and closing brackets that close nothing. */
  lemma {:induction false} AnyListCovers(s: string, p: nat, closing: char, depth: nat) returns (j: nat)
    requires p <= |s| && (closing == NO_CLOSER || IsCloser(closing))
    ensures Stops(s, p, closing, Items(s, p, closing, depth), j)
    decreases |s| - p
  {
    hide Consume;
    hide CommentTail;
    hide CommentStarts;
    hide IsComment;
    var r := Items(s, p, closing, depth);
    if p == |s| {
      j := p;
    } else if CommentStarts(s, p) {
      var e := CommentTail(s, p + 2);
      CommentTailIsComment(s, p, p + 2);
      LongerThanOpener(s, p, e);
      j := AnyListCovers(s, e, closing, depth);
      LieStarts(s, r.result, e, j, closing == NO_CLOSER);
      LieAfter(s, r.result, p, e, j, closing == NO_CLOSER);
    } else if closing != NO_CLOSER && s[p] == closing {
      j := p;
    } else if IsCloser(s[p]) {
      if closing != NO_CLOSER {
        j := p;
      } else {
        j := AnyListCovers(s, p + 1, closing, depth);
        LieStarts(s, r.result, p + 1, j, true);
        LieAfter(s, r.result, p, p + 1, j, true);
      }
    } else {
      var c := Consume(s, p, depth);
      ConsumedSpan(s, p, depth);
      j := AnyListCovers(s, c.next, closing, depth);
      var more := Items(s, c.next, closing, depth);
      LieStarts(s, more.result, c.next, j, closing == NO_CLOSER);
      assert r.result[0] == c.result && r.result[1..] == more.result;
    }
  }

  lemma LongerThanOpener(s: string, p: nat, e: nat)
    requires IsComment(s, p, e)
    ensures p < e
  {}

  lemma {:induction false} LieStarts(s: string, list: seq<Component>, i: nat, j: nat, stray: bool)
    requires Lie(s, list, i, j, stray)
    ensures i <= j
    decreases |list|
  {
    if list != [] { LieStarts(s, list[1..], list[0].end, j, stray); }
  }

  /** Whatever the text, the parse reaches its end, with a fault noted wherever a closing bracket closed
      nothing. */
  lemma WholeTextIsCovered(s: string)
    ensures var r := ParseList(s, 0, NO_CLOSER, 0);
            && r.next == |s| && Lie(s, r.result, 0, |s|, true)
            && (r.valid ==> Lie(s, r.result, 0, |s|, false))
  {
    var j := AnyListCovers(s, 0, NO_CLOSER, 1);
    if ParseList(s, 0, NO_CLOSER, 0).valid {
      ListCovers(s, 0, NO_CLOSER, 0);
      TilesLie(s, ParseList(s, 0, NO_CLOSER, 0).result, 0, |s|);
    }
  }

  lemma {:induction false} CommentsAreGaps(s: string, i: nat, j: nat)
    requires Comments(s, i, j)
    ensures IsGap(s, i, j, false)
    decreases j - i
  {
    hide IsComment;
    if i < j {
      var k :| i < k <= j && IsComment(s, i, k) && Comments(s, k, j);
      CommentsAreGaps(s, k, j);
    }
  }

  lemma {:induction false} TilesLie(s: string, list: seq<Component>, i: nat, j: nat)
    requires Tiles(s, list, i, j)
    ensures Lie(s, list, i, j, false)
    decreases |list|
  {
    hide Comments;
    if list == [] {
      CommentsAreGaps(s, i, j);
      CommentsRise(s, i, j);
    } else {
      CommentsAreGaps(s, i, list[0].start);
      TilesLie(s, list[1..], list[0].end, j);
    }
  }

  lemma CommentsRise(s: string, i: nat, j: nat)
    requires Comments(s, i, j)
    ensures i <= j
  {}

  /** Exactly the lists below 512 others are given up, to the end of the text, and the text is faulty. */
  lemma TooDeep(s: string, p: nat, closing: char, depth: nat)
    requires p <= |s|
    ensures ParseList(s, p, closing, depth) ==
            if depth >= 512 then Parse([], |s|, false) else Items(s, p, closing, depth + 1)
  {
    hide Items;
  }
}
