/** The members of a set in preorder. */
module Selections {
  import opened Forest
  import opened ForestOrder

  /** The elements of `s` that belong to `m`, in the order of `s`. */
  function Select<N(==)>(s: seq<N>, m: set<N>): (r: seq<N>)
    ensures forall x :: x in r ==> x in s && x in m
    ensures forall x :: x in s && x in m ==> x in r
  {
    if s == [] then [] else (if s[0] in m then [s[0]] else []) + Select(s[1..], m)
  }

  lemma {:induction false} SelectConcat<N>(a: seq<N>, b: seq<N>, m: set<N>)
    ensures Select(a + b, m) == Select(a, m) + Select(b, m)
    decreases |a|
  {
    if a == [] {
      assert a + b == b;
    } else {
      assert (a + b)[0] == a[0] && (a + b)[1..] == a[1..] + b;
      SelectConcat(a[1..], b, m);
    }
  }

  lemma {:induction false} SelectIsDistinct<N>(s: seq<N>, m: set<N>)
    requires Distinct(s)
    ensures Distinct(Select(s, m)) && |Select(s, m)| <= |m|
    ensures (forall x :: x in m ==> x in s) ==> |Select(s, m)| == |m|
    decreases |s|
  {
    if s == [] {
      if forall x :: x in m ==> x in s { assert m == {}; }
    } else {
      var x, rest := s[0], Select(s[1..], m - {s[0]});
      SelectIsDistinct(s[1..], m - {x});
      SelectSame(s[1..], m, m - {x});
      if x in m { DistinctConcat([x], rest); }
      forall y | y in m - {x} && (forall z :: z in m ==> z in s) ensures y in s[1..] {
        assert y in s;
      }
    }
  }

  lemma {:induction false} SelectSame<N>(s: seq<N>, m: set<N>, k: set<N>)
    requires forall x :: x in s ==> (x in m <==> x in k)
    ensures Select(s, m) == Select(s, k)
  {
    if s != [] { SelectSame(s[1..], m, k); }
  }

  /** A selection that already has all of `m` from a first part has it from the whole. */
  lemma SelectedAll<N>(a: seq<N>, b: seq<N>, m: set<N>)
    requires Distinct(a + b) && |Select(a, m)| >= |m|
    ensures Select(a + b, m) == Select(a, m)
  {
    SelectConcat(a, b, m);
    SelectIsDistinct(a + b, m);
  }

  // ----- ordered lists -----

  /** Those elements of `s` that lie in `order` are listed in its order. */
  ghost predicate InOrder<N>(s: seq<N>, order: seq<N>) {
    forall i, j :: 0 <= i < j < |s| && s[i] in order && s[j] in order ==> Before(order, s[i], s[j])
  }

  ghost predicate Lists<N>(s: seq<N>, order: seq<N>) {
    Distinct(s) && Distinct(order) && InOrder(s, order) && forall x :: x in s ==> x in order
  }

  /** There is one way to list a set in order. */
  lemma {:induction false} OneOrdering<N>(s: seq<N>, order: seq<N>, m: set<N>)
    requires Lists(s, order) && forall x :: x in order ==> (x in s <==> x in m)
    ensures s == Select(order, m)
    decreases |order|
  {
    if order == [] {
      NoneOf(s);
    } else {
      ListsRest(s, order);
      hide Lists;
      var s' := if order[0] in s then s[1..] else s;
      OneOrdering(s', order[1..], m);
    }
  }

  lemma ListsRest<N>(s: seq<N>, order: seq<N>)
    requires Lists(s, order) && order != []
    ensures var s' := if order[0] in s then s[1..] else s;
            && s == (if order[0] in s then [order[0]] else []) + s'
            && Lists(s', order[1..])
            && forall x :: x in order[1..] ==> (x in s <==> x in s') && x in order
  {
    hide Before;
    hide Lists;
    var o := order[0];
    var s' := if o in s then s[1..] else s;
    RestOfOrder(order);
    if o in s { HeadIsFirst(s, order); }
    SplitHead(s, o);
    RestIsListed(s, s', order);
  }

  /** What else is in the order comes after its first element. */
  lemma RestOfOrder<N>(order: seq<N>)
    requires order != []
    ensures forall x :: x in order <==> x == order[0] || x in order[1..]
  {
    assert order == [order[0]] + order[1..];
  }

  lemma HeadIsFirst<N>(s: seq<N>, order: seq<N>)
    requires Lists(s, order) && order != [] && order[0] in s
    ensures s[0] == order[0] && order[0] !in s[1..]
  {
    var k :| 0 <= k < |s| && s[k] == order[0];
    if k > 0 { FirstIsFirst(order, s[0]); }
  }

  lemma SplitHead<N>(s: seq<N>, o: N)
    requires o in s ==> s[0] == o
    ensures var s' := if o in s then s[1..] else s;
            && s == (if o in s then [o] else []) + s'
            && forall x :: x != o ==> (x in s <==> x in s')
  {
    if o in s { assert s == [o] + s[1..]; }
  }

  lemma RestIsListed<N>(s: seq<N>, s': seq<N>, order: seq<N>)
    requires Lists(s, order) && order != [] && (s' == s || (s != [] && s' == s[1..])) && order[0] !in s'
    ensures Lists(s', order[1..])
    ensures order[0] !in order[1..]
  {
    hide Before;
    var o, rest := order[0], order[1..];
    RestOfOrder(order);
    forall x | x in s' ensures x in order && x in rest { assert x in s; }
    forall i, j | 0 <= i < j < |s'| ensures Before(rest, s'[i], s'[j]) {
      assert s'[i] in s' && s'[j] in s' && Before(order, s'[i], s'[j]);
      BeforeInRest(order, s'[i], s'[j]);
    }
  }

  lemma NoneOf<N>(s: seq<N>)
    ensures s == [] || exists x :: x in s
  {
    if s != [] { assert s[0] in s; }
  }

  lemma FirstIsFirst<N>(order: seq<N>, x: N)
    requires order != [] && Distinct(order)
    ensures !Before(order, x, order[0])
  {}

  lemma BeforeInRest<N>(order: seq<N>, x: N, y: N)
    requires order != [] && Distinct(order) && Before(order, x, y) && x != order[0]
    ensures Before(order[1..], x, y)
  {
    var i, j :| 0 <= i < j < |order| && order[i] == x && order[j] == y;
    assert order[1..][i - 1] == x && order[1..][j - 1] == y;
  }

  // ----- changes of the tree -----

  /** `a` keeps the order of `b`, of which it has a part. */
  ghost predicate Embeds<N>(a: seq<N>, b: seq<N>) {
    (forall x :: x in a ==> x in b) && forall x, y :: x in a && y in a && Before(a, x, y) ==> Before(b, x, y)
  }

  lemma BeforeConcat<N>(a: seq<N>, b: seq<N>, x: N, y: N)
    ensures Before(a + b, x, y) <==> Before(a, x, y) || Before(b, x, y) || (x in a && y in b)
  {
    var s := a + b;
    if Before(s, x, y) {
      var i, j :| 0 <= i < j < |s| && s[i] == x && s[j] == y;
      if j >= |a| && i >= |a| { assert b[i - |a|] == x && b[j - |a|] == y; }
      if j < |a| { assert a[i] == x && a[j] == y; }
      if i < |a| <= j { assert a[i] == x && b[j - |a|] == y; }
    }
    if Before(a, x, y) {
      var i, j :| 0 <= i < j < |a| && a[i] == x && a[j] == y;
      assert s[i] == x && s[j] == y;
    }
    if Before(b, x, y) {
      var i, j :| 0 <= i < j < |b| && b[i] == x && b[j] == y;
      assert s[|a| + i] == x && s[|a| + j] == y;
    }
    if x in a && y in b {
      var i :| 0 <= i < |a| && a[i] == x;
      var j :| 0 <= j < |b| && b[j] == y;
      assert s[i] == x && s[|a| + j] == y;
    }
  }

  lemma EmbedsConcat<N>(a: seq<N>, b: seq<N>, c: seq<N>, d: seq<N>)
    requires Embeds(a, c) && Embeds(b, d)
    ensures Embeds(a + b, c + d)
  {
    forall x, y | Before(a + b, x, y) ensures Before(c + d, x, y) {
      BeforeConcat(a, b, x, y);
      BeforeConcat(c, d, x, y);
    }
  }

  lemma {:induction false} PruneEmbeds<N>(t: Tree<N>, c: N)
    ensures Embeds(Preorder(Prune(t, c)), Preorder(t))
    decreases t, 1
  {
    PruneAllEmbeds(t.kids, c);
    EmbedsConcat([t.node], PreorderAll(PruneAll(t.kids, c)), [t.node], PreorderAll(t.kids));
  }

  lemma {:induction false} PruneAllEmbeds<N>(ts: seq<Tree<N>>, c: N)
    ensures Embeds(PreorderAll(PruneAll(ts, c)), PreorderAll(ts))
    decreases ts, 0
  {
    if ts != [] {
      var rest := PruneAll(ts[1..], c);
      PruneAllEmbeds(ts[1..], c);
      if ts[0].node == c {
        assert PruneAll(ts, c) == rest;
        assert [] + PreorderAll(rest) == PreorderAll(rest);
        EmbedsConcat([], PreorderAll(rest), Preorder(ts[0]), PreorderAll(ts[1..]));
      } else {
        PruneEmbeds(ts[0], c);
        assert PruneAll(ts, c)[1..] == rest;
        EmbedsConcat(Preorder(Prune(ts[0], c)), PreorderAll(rest), Preorder(ts[0]), PreorderAll(ts[1..]));
      }
    }
  }

  lemma {:induction false} GraftEmbeds<N>(t: Tree<N>, p: N, s: Tree<N>, at: nat)
    ensures Embeds(Preorder(t), Preorder(Graft(t, p, s, at)))
    decreases t, 1
  {
    var kids := GraftAll(t.kids, p, s, at);
    GraftAllEmbeds(t.kids, p, s, at);
    if t.node == p {
      var a, b := PutPreorder(kids, at, s);
      EmbedsAround(a, Preorder(s), b);
      EmbedsThrough(PreorderAll(t.kids), a + b, a + Preorder(s) + b);
    }
    EmbedsConcat([t.node], PreorderAll(t.kids), [t.node], PreorderAll(Graft(t, p, s, at).kids));
  }

  lemma EmbedsAround<N>(a: seq<N>, m: seq<N>, b: seq<N>)
    ensures Embeds(a + b, a + m + b)
  {
    assert a + [] == a;
    EmbedsConcat(a, [], a, m);
    EmbedsConcat(a, b, a + m, b);
  }

  lemma EmbedsThrough<N>(a: seq<N>, b: seq<N>, c: seq<N>)
    requires Embeds(a, b) && Embeds(b, c)
    ensures Embeds(a, c)
  {}

  lemma {:induction false} GraftAllEmbeds<N>(ts: seq<Tree<N>>, p: N, s: Tree<N>, at: nat)
    ensures Embeds(PreorderAll(ts), PreorderAll(GraftAll(ts, p, s, at)))
    decreases ts, 0
  {
    if ts != [] {
      GraftEmbeds(ts[0], p, s, at);
      GraftAllEmbeds(ts[1..], p, s, at);
      assert GraftAll(ts, p, s, at)[1..] == GraftAll(ts[1..], p, s, at);
      EmbedsConcat(Preorder(ts[0]), PreorderAll(ts[1..]), Preorder(Graft(ts[0], p, s, at)), PreorderAll(GraftAll(ts[1..], p, s, at)));
    }
  }

  /** A list in order stays so when the order loses elements. */
  lemma InOrderOfPart<N>(s: seq<N>, part: seq<N>, order: seq<N>)
    requires Distinct(s) && Distinct(part) && Distinct(order) && Embeds(part, order) && InOrder(s, order)
    ensures InOrder(s, part)
  {
    forall i, j | 0 <= i < j < |s| && s[i] in part && s[j] in part ensures Before(part, s[i], s[j]) {
      BeforeIsTotal(part, s[i], s[j]);
      BeforeIsTotal(order, s[i], s[j]);
    }
  }

  /** A list in order stays so when the order gains elements the list does not have. */
  lemma InOrderOfMore<N>(s: seq<N>, order: seq<N>, more: seq<N>)
    requires Embeds(order, more) && InOrder(s, order)
    requires forall x :: x in s && x in more ==> x in order
    ensures InOrder(s, more)
  {}
}
