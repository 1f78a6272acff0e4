/** A bucket kept in step with its document. */
module DomBuckets {
  import opened Options
  import opened Forest
  import opened ForestOrder
  import opened DomTree
  import opened DomOrder
  import opened IdIndex
  import opened IdWalks
  import opened Selections
  import opened Buckets
  import opened BucketOrder
  import opened Dom

  /** The class tokens of each element, or the one tag name. */
  type Tokens = map<Node, seq<string>>

  predicate OfElements(tokens: Tokens) {
    forall n :: n in tokens ==> n.kind.ElementNode?
  }

  ghost function Holding(tokens: Tokens, key: string): set<Node> {
    set n | n in tokens && key in tokens[n]
  }

  /** The nodes of `s` that are in `m`. */
  ghost function Chosen(m: set<Node>, s: seq<Node>): set<Node> {
    set x | x in s && x in m
  }

  lemma ChosenConcat(m: set<Node>, a: seq<Node>, b: seq<Node>)
    ensures Chosen(m, a + b) == Chosen(m, a) + Chosen(m, b)
    ensures Chosen(m, []) == {}
  {}

  lemma ChosenOne(tokens: Tokens, key: string, n: Node)
    ensures Chosen(Holding(tokens, key), [n]) == if n in tokens && key in tokens[n] then {n} else {}
  {}

  /** The bucket is in order, and has only nodes of the document. */
  ghost predicate Ready(b: Bucket, order: seq<Node>)
    reads b
  {
    b.Valid(order) && Contained(b.Members(), order)
  }

  // ----- one element -----

  method AddOwn(ghost f: Forest<Node>, ghost root: Node, toks: seq<string>, key: string, b: Bucket, n: Node)
    requires Linked(f) && Shallow(f) && IsRoot(f, root) && n in Preorder(f[root]) && b.Sound(f.Keys)
    modifies b
    ensures b.Sound(f.Keys)
    ensures old(Ready(b, Preorder(f[root]))) ==>
              Ready(b, Preorder(f[root])) && b.Members() == old(b.Members()) + (if key in toks then {n} else {})
    ensures old(b.Tidy()) ==> b.Tidy() && (key in toks && !old(b.Searched()) ==> n in b.Members())
    ensures key !in toks || (old(b.Searched()) && forall x :: x in old(b.nodes) ==> x !in Preorder(f[root])) ==>
              b.nodes == old(b.nodes) && b.unsorted == old(b.unsorted) && b.members == old(b.members)
    ensures old(!b.unsorted && b.nodes == []) && toks == [key] ==> b.nodes == [n] && !b.unsorted
  {
    hide Linked;
    hide Shallow;
    hide Preorder;
    hide Bucket.Sound;
    hide Bucket.Valid;
    ghost var order := Preorder(f[root]);
    ghost var ready, apart := Ready(b, order), b.Searched() && forall x :: x in b.nodes ==> x !in order;
    for i := 0 to |toks|
      invariant b.Sound(f.Keys)
      invariant i == 0 || key !in toks[..i] || apart ==> b.nodes == old(b.nodes) && b.unsorted == old(b.unsorted) && b.members == old(b.members)
      invariant ready ==> Ready(b, order) && b.Members() == old(b.Members()) + (if key in toks[..i] then {n} else {})
      invariant old(b.Tidy()) ==> b.Tidy() && (key in toks[..i] && !old(b.Searched()) ==> n in b.Members())
      invariant old(!b.unsorted && b.nodes == []) && toks == [key] && i == 1 ==> b.nodes == [n] && !b.unsorted
    {
      assert toks[..i + 1] == toks[..i] + [toks[i]];
      if toks[i] == key { b.Add(f, root, n); }
    }
    assert toks[..|toks|] == toks;
  }

  method RemoveOwn(toks: seq<string>, key: string, b: Bucket, n: Node, ghost ns: set<Node>, ghost order: seq<Node>)
    requires b.Sound(ns)
    modifies b
    ensures b.Sound(ns)
    ensures old(b.Valid(order)) ==> b.Valid(order) && b.Members() == old(b.Members()) - (if key in toks then {n} else {})
    ensures old(b.Valid(order)) && n !in old(b.Members()) ==> b.nodes == old(b.nodes) && b.unsorted == old(b.unsorted)
    ensures key !in toks ==> b.nodes == old(b.nodes) && b.unsorted == old(b.unsorted) && b.members == old(b.members)
  {
    hide Bucket.Sound;
    hide Bucket.Valid;
    ghost var valid := b.Valid(order);
    for i := 0 to |toks|
      invariant b.Sound(ns)
      invariant key !in toks[..i] ==> b.nodes == old(b.nodes) && b.unsorted == old(b.unsorted) && b.members == old(b.members)
      invariant valid ==> b.Valid(order) && b.Members() == old(b.Members()) - (if key in toks[..i] then {n} else {})
      invariant valid && n !in old(b.Members()) ==> b.nodes == old(b.nodes) && b.unsorted == old(b.unsorted)
    {
      assert toks[..i + 1] == toks[..i] + [toks[i]];
      if toks[i] == key { b.Remove(n, ns, order); }
    }
    assert toks[..|toks|] == toks;
  }

  // ----- a subtree -----

  method AddTokens(ghost f: Forest<Node>, ghost root: Node, tokens: Tokens, key: string, b: Bucket, n: Node, depth: nat)
    requires Linked(f) && Shallow(f) && IsRoot(f, root) && n in Preorder(f[root]) && n in f && OfElements(tokens) && b.Sound(f.Keys)
    modifies b
    ensures b.Sound(f.Keys)
    ensures old(Ready(b, Preorder(f[root]))) ==>
              Ready(b, Preorder(f[root])) && b.Members() == old(b.Members()) + Chosen(Holding(tokens, key), Upto(f[n], Room(depth)))
    decreases Room(depth)
  {
    hide Linked;
    hide Shallow;
    hide Preorder;
    hide Upto;
    hide UptoAll;
    hide Kids;
    hide At;
    hide Holding;
    hide Chosen;
    hide Ready;
    hide Bucket.Sound;
    ghost var ts, i, d, m, order := f[n].kids, 0, Room(depth + 1), Holding(tokens, key), Preorder(f[root]);
    ghost var ready, was := Ready(b, order), b.Members();
    WalkStep(f, tokens, key, n, d);
    if depth >= MAX_DEPTH { return; }
    if n.kind.ElementNode? && n in tokens {
      AddOwn(f, root, tokens[n], key, b, n);
    }
    Downwards(f, n);
    var c := n.firstChild;
    while c != null
      invariant i <= |ts| && c == At(Kids(f, n), i) && b.Sound(f.Keys)
      invariant ready ==> Ready(b, order) && b.Members() == was + Chosen(m, [n]) + Chosen(m, UptoAll(ts[..i], d))
      decreases |ts| - i
    {
      ThisKid(f, n, i, c);
      KidOfDocument(f, root, n, i, c);
      AddTokens(f, root, tokens, key, b, c, depth + 1);
      UptoAllNext(ts, i, d);
      ChosenConcat(m, UptoAll(ts[..i], d), Upto(ts[i], d));
      c := c.nextSibling;
      i := i + 1;
    }
    NoMoreKids(f, n, i);
  }

  /** A walk handles the node itself, then its children. */
  lemma WalkStep(f: Forest<Node>, tokens: Tokens, key: string, n: Node, d: nat)
    requires Linked(f) && n in f && OfElements(tokens)
    ensures var m := Holding(tokens, key);
            && Chosen(m, Upto(f[n], 0)) == Chosen(m, UptoAll([], d)) == {}
            && f[n].kids[..0] == []
            && Upto(f[n], d + 1) == [n] + UptoAll(f[n].kids, d)
            && Chosen(m, Upto(f[n], d + 1)) == Chosen(m, [n]) + Chosen(m, UptoAll(f[n].kids, d))
            && Chosen(m, [n]) == if n.kind.ElementNode? && n in tokens && key in tokens[n] then {n} else {}
  {
    ChosenConcat(Holding(tokens, key), [n], UptoAll(f[n].kids, d));
    ChosenOne(tokens, key, n);
  }

  lemma KidOfDocument(f: Forest<Node>, root: Node, n: Node, i: nat, c: Node)
    requires Linked(f) && root in f && n in f && n in Preorder(f[root]) && c == At(Kids(f, n), i)
    ensures c in Preorder(f[root])
  {
    Below(f, root, n);
    KidInPreorder(f[n], i, c);
  }

  method RemoveTokens(ghost f: Forest<Node>, ghost order: seq<Node>, tokens: Tokens, key: string, b: Bucket, n: Node, depth: nat)
    requires Linked(f) && n in f && OfElements(tokens) && b.Sound(f.Keys)
    modifies b
    ensures b.Sound(f.Keys)
    ensures old(b.Valid(order)) ==> b.Valid(order) && b.Members() == old(b.Members()) - Chosen(Holding(tokens, key), Upto(f[n], Room(depth)))
    decreases Room(depth)
  {
    hide Linked;
    hide Upto;
    hide UptoAll;
    hide Kids;
    hide At;
    hide Holding;
    hide Chosen;
    hide Bucket.Sound;
    hide Bucket.Valid;
    ghost var ts, i, d, m := f[n].kids, 0, Room(depth + 1), Holding(tokens, key);
    ghost var valid, was := b.Valid(order), b.Members();
    WalkStep(f, tokens, key, n, d);
    if depth >= MAX_DEPTH { return; }
    if n.kind.ElementNode? && n in tokens {
      RemoveOwn(tokens[n], key, b, n, f.Keys, order);
    }
    Downwards(f, n);
    var c := n.firstChild;
    while c != null
      invariant i <= |ts| && c == At(Kids(f, n), i) && b.Sound(f.Keys)
      invariant valid ==> b.Valid(order) && b.Members() == was - Chosen(m, [n]) - Chosen(m, UptoAll(ts[..i], d))
      decreases |ts| - i
    {
      ThisKid(f, n, i, c);
      RemoveTokens(f, order, tokens, key, b, c, depth + 1);
      UptoAllNext(ts, i, d);
      ChosenConcat(m, UptoAll(ts[..i], d), Upto(ts[i], d));
      c := c.nextSibling;
      i := i + 1;
    }
    NoMoreKids(f, n, i);
  }

  // ----- building: the nodes arrive in order -----

  /** The walk of the document has come to position `at`. */
  ghost predicate BuiltTo(b: Bucket, m: set<Node>, order: seq<Node>, at: int)
    reads b
  {
    0 <= at <= |order| && b.Valid(order) && !b.unsorted && b.Members() == Chosen(m, order[..at])
  }

  method BuildOwn(toks: seq<string>, key: string, b: Bucket, n: Node, ghost order: seq<Node>, ghost m: set<Node>, ghost at: int)
    requires BuiltTo(b, m, order, at) && at < |order| && order[at] == n && (n in m <==> key in toks)
    modifies b
    ensures BuiltTo(b, m, order, at + 1)
  {
    ArrivesLast(b, m, order, at);
    for i := 0 to |toks|
      invariant b.Valid(order) && !b.unsorted
      invariant b.Members() == Chosen(m, order[..at]) + (if key in toks[..i] then {n} else {})
      invariant key in toks[..i] ==> |b.nodes| > 0 && b.nodes[|b.nodes| - 1] == n
    {
      assert toks[..i + 1] == toks[..i] + [toks[i]];
      if toks[i] == key {
        StillLast(b, m, order, at);
        b.AddBuilding(n, order);
      }
    }
    assert toks[..|toks|] == toks;
    assert order[..at + 1] == order[..at] + [n];
    ChosenConcat(m, order[..at], [n]);
  }

  lemma ArrivesLast(b: Bucket, m: set<Node>, order: seq<Node>, at: int)
    requires Distinct(order) && 0 <= at < |order|
    ensures forall x :: x in Chosen(m, order[..at]) ==> x != order[at] && Before(order, x, order[at])
  {}

  lemma StillLast(b: Bucket, m: set<Node>, order: seq<Node>, at: int)
    requires b.Valid(order) && !b.unsorted && 0 <= at < |order|
    requires b.Members() == Chosen(m, order[..at]) || (b.Members() == Chosen(m, order[..at]) + {order[at]} && |b.nodes| > 0 && b.nodes[|b.nodes| - 1] == order[at])
    ensures forall x :: x in b.nodes ==> (x == order[at] && |b.nodes| > 0 && x == b.nodes[|b.nodes| - 1]) || Before(order, x, order[at])
  {
    forall x | x in b.nodes && x != order[at] ensures Before(order, x, order[at]) {
      assert x in b.Members();
    }
    ArrivesLast(b, m, order, at);
  }

  method BuildTokens(ghost f: Forest<Node>, tokens: Tokens, key: string, b: Bucket, n: Node, depth: nat, ghost order: seq<Node>, ghost at: int)
    requires Linked(f) && n in f && OfElements(tokens)
    requires BuiltTo(b, Holding(tokens, key), order, at) && Span(order, at, Upto(f[n], Room(depth)))
    modifies b
    ensures BuiltTo(b, Holding(tokens, key), order, at + |Upto(f[n], Room(depth))|)
    decreases Room(depth)
  {
    hide Linked;
    hide Upto;
    hide UptoAll;
    hide Kids;
    hide At;
    hide Holding;
    hide BuiltTo;
    hide Span;
    ghost var ts, i, d, m, to := f[n].kids, 0, Room(depth + 1), Holding(tokens, key), at + 1;
    WalkStep(f, tokens, key, n, d);
    EmptyWalks(f[n], d);
    if depth >= MAX_DEPTH { return; }
    SpanSplits(order, at, [n], UptoAll(ts, d));
    BuildStep(f, tokens, key, b, n, order, at);
    Downwards(f, n);
    var c := n.firstChild;
    while c != null
      invariant i <= |ts| && c == At(Kids(f, n), i) && to == at + 1 + |UptoAll(ts[..i], d)|
      invariant BuiltTo(b, m, order, to)
      decreases |ts| - i
    {
      ThisKid(f, n, i, c);
      KidSpan(order, at + 1, ts, i, d);
      BuildTokens(f, tokens, key, b, c, depth + 1, order, to);
      UptoAllNext(ts, i, d);
      to := to + |Upto(ts[i], d)|;
      c := c.nextSibling;
      i := i + 1;
    }
    NoMoreKids(f, n, i);
  }

  /** `s` stands in `order` from position `at` on. */
  ghost predicate Span<N>(order: seq<N>, at: int, s: seq<N>) {
    0 <= at <= |order| - |s| && order[at..at + |s|] == s
  }

  lemma SpanSplits<N>(order: seq<N>, at: int, a: seq<N>, b: seq<N>)
    requires Span(order, at, a + b)
    ensures Span(order, at, a) && Span(order, at + |a|, b)
  {
    assert order[at..at + |a|] == (a + b)[..|a|] == a;
    assert order[at + |a|..at + |a| + |b|] == (a + b)[|a|..] == b;
  }

  lemma KidSpan(order: seq<Node>, at: int, ts: seq<Tree<Node>>, i: nat, d: nat)
    requires i < |ts| && Span(order, at, UptoAll(ts, d))
    ensures Span(order, at + |UptoAll(ts[..i], d)|, Upto(ts[i], d))
  {
    UptoAllConcat(ts[..i + 1], ts[i + 1..], d);
    assert ts[..i + 1] + ts[i + 1..] == ts;
    UptoAllNext(ts, i, d);
    SpanSplits(order, at, UptoAll(ts[..i + 1], d), UptoAll(ts[i + 1..], d));
    SpanSplits(order, at, UptoAll(ts[..i], d), Upto(ts[i], d));
  }

  lemma {:induction false} UptoAllConcat<N>(a: seq<Tree<N>>, b: seq<Tree<N>>, d: nat)
    ensures UptoAll(a + b, d) == UptoAll(a, d) + UptoAll(b, d)
  {
    if a == [] {
      assert a + b == b;
    } else {
      assert (a + b)[1..] == a[1..] + b;
      UptoAllConcat(a[1..], b, d);
    }
  }

  lemma EmptyWalks<N>(t: Tree<N>, d: nat)
    ensures |Upto(t, 0)| == |UptoAll<N>([], d)| == 0
  {}

  method BuildStep(ghost f: Forest<Node>, tokens: Tokens, key: string, b: Bucket, n: Node, ghost order: seq<Node>, ghost at: int)
    requires OfElements(tokens) && BuiltTo(b, Holding(tokens, key), order, at) && Span(order, at, [n])
    modifies b
    ensures BuiltTo(b, Holding(tokens, key), order, at + 1)
  {
    assert order[at] == order[at..at + 1][0] == n;
    if n.kind.ElementNode? && n in tokens {
      BuildOwn(tokens[n], key, b, n, order, Holding(tokens, key), at);
    } else {
      assert order[..at + 1] == order[..at] + [n];
      ChosenConcat(Holding(tokens, key), order[..at], [n]);
    }
  }

  // ----- what a change of the tree means for the bucket -----

  lemma NodesWithout(f: Forest<Node>, doc: Node, c: Node, root: Node, m: set<Node>)
    requires Wired(f) && Shallow(f) && IsRoot(f, doc) && c in f && c != doc && IsRoot(f, root) && c in Preorder(f[root])
    ensures c in Detach(f, c) && doc in Detach(f, c)
    ensures var g := Detach(f, c);
            Chosen(m, Preorder(g[doc])) ==
            Chosen(m, Preorder(f[doc])) - (if root == doc then Chosen(m, Upto(g[c], Room(0))) else {})
  {
    hide Prune;
    SelfPrune(f, c);
    UptoIsPreorder(f[c], Room(0));
    if c in Preorder(f[doc]) {
      SameRoot(f, doc, root, c);
      forall x ensures x in Preorder(Detach(f, c)[doc]) <==> x in Preorder(f[doc]) && x !in Preorder(f[c]) {
        PruneUnder(f, doc, c, x);
      }
    } else {
      PruneAbsent(f[doc], c);
    }
  }

  lemma NodesWith(f: Forest<Node>, doc: Node, p: Node, c: Node, at: nat, root: Node, m: set<Node>)
    requires Wired(f) && Shallow(f) && IsRoot(f, doc) && p in f && IsRoot(f, c) && c != doc && p !in Preorder(f[c])
    requires IsRoot(f, root) && p in Preorder(f[root]) && at <= |Kids(f, p)|
    ensures var g := Plant(f, p, c, at);
            && Chosen(m, Preorder(g[doc])) ==
               Chosen(m, Preorder(f[doc])) + (if root == doc then Chosen(m, Upto(g[c], Room(0))) else {})
            && (root == doc ==> c in Preorder(g[doc]))
  {
    PlantKeepsWired(f, p, c, at);
    UptoIsPreorder(f[c], Room(0));
    if p in Preorder(f[doc]) { SameRoot(f, doc, root, p); }
    forall x ensures x in Preorder(Plant(f, p, c, at)[doc]) <==> x in Preorder(f[doc]) || (p in Preorder(f[doc]) && x in Preorder(f[c])) {
      GraftUnder(f[doc], p, f[c], at, x);
    }
  }

  lemma NodesAfterAdopting(f: Forest<Node>, doc: Node, n: Node, m: set<Node>, k: set<Node>)
    requires Linked(f) && doc in f && n !in f && forall x :: x != n ==> (x in m <==> x in k)
    ensures Chosen(k, Preorder(f[doc])) == Chosen(m, Preorder(f[doc]))
  {
    forall x | x in Preorder(f[doc]) ensures x in f { Below(f, doc, x); }
  }

  lemma BucketWithout(b: Bucket, f: Forest<Node>, doc: Node, c: Node, root: Node, m: set<Node>)
    requires Linked(f) && Shallow(f) && IsRoot(f, doc) && c in f && c != doc && IsRoot(f, root) && c in Preorder(f[root])
    ensures c in Detach(f, c) && doc in Detach(f, c) && Detach(f, c).Keys == f.Keys
    ensures var before, after := Preorder(f[doc]), Preorder(Detach(f, c)[doc]);
            && Chosen(m, after) == Chosen(m, before) - (if root == doc then Chosen(m, Upto(Detach(f, c)[c], Room(0))) else {})
            && (b.Valid(before) ==> b.Valid(after))
  {
    hide Spelled;
    hide Preorder;
    hide Upto;
    hide Chosen;
    hide Bucket.Valid;
    NodesWithout(f, doc, c, root, m);
    if b.Valid(Preorder(f[doc])) { BucketAfterDetach(b, f, doc, c); }
  }

  lemma BucketWith(b: Bucket, f: Forest<Node>, doc: Node, p: Node, c: Node, at: nat, root: Node, m: set<Node>)
    requires Linked(f) && Shallow(f) && IsRoot(f, doc) && p in f && IsRoot(f, c) && c != doc && p !in Preorder(f[c])
    requires IsRoot(f, root) && p in Preorder(f[root]) && at <= |Kids(f, p)|
    ensures c in Plant(f, p, c, at) && doc in Plant(f, p, c, at) && Plant(f, p, c, at).Keys == f.Keys
    ensures var before, after := Preorder(f[doc]), Preorder(Plant(f, p, c, at)[doc]);
            && Chosen(m, after) == Chosen(m, before) + (if root == doc then Chosen(m, Upto(Plant(f, p, c, at)[c], Room(0))) else {})
            && (root == doc ==> c in after)
            && (Ready(b, before) ==> Ready(b, after))
  {
    hide Spelled;
    hide Preorder;
    hide Upto;
    hide Chosen;
    hide Bucket.Valid;
    NodesWith(f, doc, p, c, at, root, m);
    if Ready(b, Preorder(f[doc])) { BucketAfterPlant(b, f, doc, p, c, at); }
  }

  lemma ChosenIsContained(m: set<Node>, order: seq<Node>)
    ensures Contained(Chosen(m, order), order)
    ensures Select(order, Chosen(m, order)) == Select(order, m)
  {
    SelectSame(order, m, Chosen(m, order));
  }

  lemma ChosenAfterWriting(tokens: Tokens, key: string, el: Node, toks: seq<string>, order: seq<Node>)
    ensures var before, after := Chosen(Holding(tokens, key), order), Chosen(Holding(tokens[el := toks], key), order);
            && after == (if el in order then before - {el} + (if key in toks then {el} else {}) else before)
            && (el in before <==> el in order && el in tokens && key in tokens[el])
            && (el in after ==> el in order)
  {}

  /** A node of the document and a node of another tree have no tree in common. */
  lemma OtherTree(b: Bucket, f: Forest<Node>, doc: Node, root: Node, el: Node)
    requires Linked(f) && IsRoot(f, doc) && IsRoot(f, root) && el in Preorder(f[root])
    ensures el in Preorder(f[doc]) <==> root == doc
    ensures b.Valid(Preorder(f[doc])) ==> b.Tidy()
    ensures root != doc && b.Valid(Preorder(f[doc])) && Contained(b.Members(), Preorder(f[doc])) && !b.unsorted ==>
              forall x :: x in b.nodes ==> x !in Preorder(f[root])
  {
    if el in Preorder(f[doc]) { SameRoot(f, doc, root, el); }
    if root != doc && Contained(b.Members(), Preorder(f[doc])) && b.Valid(Preorder(f[doc])) && !b.unsorted {
      forall x | x in b.nodes ensures x !in Preorder(f[root]) {
        assert x in b.Members();
        if x in Preorder(f[root]) { SameRoot(f, doc, root, x); }
      }
    }
  }

  lemma TreeOf(f: Forest<Node>, x: Node) returns (r: Node)
    requires Linked(f) && Shallow(f) && x in f
    ensures IsRoot(f, r) && x in Preorder(f[r])
  {
    r := RootAbove(f, x);
  }

  lemma SameTree(f: Forest<Node>, doc: Node, root: Node, el: Node)
    requires Linked(f) && IsRoot(f, doc) && IsRoot(f, root) && el in Preorder(f[root])
    ensures el in Preorder(f[doc]) <==> root == doc
  {
    if el in Preorder(f[doc]) { SameRoot(f, doc, root, el); }
  }

  /** Some tree has both. */
  ghost predicate OneTree(f: Forest<Node>, a: Node, b: Node) {
    exists r :: r in f && IsRoot(f, r) && a in Preorder(f[r]) && b in Preorder(f[r])
  }

  /** What one comparison makes of a new entry: it is listed alone, or dropped among nodes of other trees. */
  ghost predicate Listed(now: seq<Node>, unsorted: bool, nodes: seq<Node>, wasUnsorted: bool, f: Forest<Node>, el: Node) {
    && (!wasUnsorted && nodes == [] ==> now == [el] && !unsorted)
    && (!wasUnsorted && 0 < |nodes| <= SCAN_MAX && (forall x :: x in nodes ==> !OneTree(f, x, el)) ==>
          now == nodes && !unsorted)
  }

  /** The tokens of `el`, which is in the tree at `root`, change. */
  method UpdateToken(ghost f: Forest<Node>, ghost doc: Node, ghost root: Node, before: seq<string>, toks: seq<string>, key: string, b: Bucket, el: Node)
    requires Linked(f) && Shallow(f) && IsRoot(f, doc) && IsRoot(f, root) && el in Preorder(f[root]) && b.Sound(f.Keys)
    modifies b
    ensures b.Sound(f.Keys)
    ensures old(Ready(b, Preorder(f[doc]))) && root == doc ==>
              b.Valid(Preorder(f[doc])) && b.Members() == old(b.Members()) - (if key in before then {el} else {}) + (if key in toks then {el} else {})
    ensures old(Ready(b, Preorder(f[doc]))) && root != doc ==>
              if key in toks && !old(b.Searched()) then el in b.Members() else b.Valid(Preorder(f[doc])) && b.Members() == old(b.Members())
    ensures toks == [key] && before == [] ==> Listed(b.nodes, b.unsorted, old(b.nodes), old(b.unsorted), f, el)
  {
    hide Linked;
    hide Shallow;
    hide Preorder;
    hide Bucket.Sound;
    hide Fits;
    ghost var order := Preorder(f[doc]);
    SameTree(f, doc, root, el);
    RemoveOwn(before, key, b, el, f.Keys, order);
    OtherTree(b, f, doc, root, el);
    ghost var fixed := key !in toks || (b.Searched() && forall x :: x in b.nodes ==> x !in Preorder(f[root]));
    ghost var kept, was := b.Valid(order), b.Members();
    AddOwn(f, root, toks, key, b, el);
    assert kept && fixed ==> b.Valid(order) && b.Members() == was;
  }

  class TokenIndex {
    const doc: Document
    const key: string
    var tokens: Tokens
    /** Null until the index is built. */
    var bucket: Bucket?

    /** The elements that carry the key. */
    ghost function Marked(): set<Node>
      reads this
    {
      Holding(tokens, key)
    }

    predicate Untold(el: Node)
      reads this
    {
      el in tokens ==> tokens[el] == []
    }

    ghost predicate Valid()
      reads this, doc, doc.index, doc.forest.Keys, bucket
    {
      doc.Valid() && OfElements(tokens) && (bucket != null ==> bucket.Sound(doc.forest.Keys))
    }

    /** The bucket lists exactly the marked elements of the document, in order once they are asked for. */
    ghost predicate Exact()
      reads this, doc, bucket
      requires doc.node in doc.forest
    {
      bucket != null ==> bucket.Valid(doc.Order()) && bucket.Members() == Chosen(Marked(), doc.Order())
    }

    constructor (doc: Document, key: string)
      requires doc.Valid()
      ensures Valid() && Exact() && this.doc == doc && this.key == key && tokens == map[] && bucket == null
    {
      hide Linked;
      hide Shallow;
      hide IsRoot;
      hide Preorder;
      hide Ids;
      hide AllIds;
      hide IdIndex.Valid;
      this.doc, this.key, tokens, bucket := doc, key, map[], null;
    }

    /** A new node, with the tokens it was made with. */
    method Adopt(n: Node, toks: seq<string>)
      requires Valid() && n !in doc.forest && |doc.forest| < COUNT_MASK
      requires n.parent == null && n.prevSibling == null && n.nextSibling == null && n.firstChild == null && n.lastChild == null
      modifies `tokens, doc`forest
      ensures Valid() && doc.forest == old(doc.forest)[n := Tree(n, [])]
      ensures tokens == if n.kind.ElementNode? then old(tokens)[n := toks] else old(tokens)
      ensures old(Exact()) ==> Exact()
    {
      hide OfElements;
      hide Spelled;
      hide Wired;
        hide Linked;
      hide Shallow;
      hide IsRoot;
      hide PlainShape;
      hide Preorder;
      hide AllIds;
      hide Ids;
      hide Holding;
      hide Chosen;
      hide IdIndex.Valid;
      hide Bucket.Sound;
      hide Bucket.Valid;
      ghost var f, m := doc.forest, Marked();
      DocumentIsIn(f, doc.node);
      if bucket != null { SoundGrows(bucket, f.Keys, n); }
      doc.Adopt(n);
      assert doc.forest.Keys == f.Keys + {n};
      if n.kind.ElementNode? {
        OfElementsStill(tokens, n, toks);
        tokens := tokens[n := toks];
      }
      OthersKept(old(tokens), tokens, key, n);
      NodesAfterAdopting(f, doc.node, n, m, Marked());
    }

    method Remove(child: Node)
      requires Valid() && child in doc.forest && child != doc.node
      modifies doc`forest, doc.index, bucket, doc.forest.Keys`parent, doc.forest.Keys`firstChild, doc.forest.Keys`lastChild
      modifies doc.forest.Keys`prevSibling, doc.forest.Keys`nextSibling
      ensures Valid() && doc.forest == Detach(old(doc.forest), child)
      ensures old(Exact()) ==> Exact()
    {
      hide Linked;
      hide Shallow;
      hide IsRoot;
      hide Preorder;
      hide Upto;
      hide Ids;
      hide AllIds;
      hide Holding;
      hide Chosen;
      hide Contained;
      hide Detach;
      hide Plant;
      hide IdIndex.Valid;
      hide Bucket.Sound;
      hide Bucket.Valid;
      var root := doc.RootOf(child);
      if bucket != null { BucketWithout(bucket, doc.forest, doc.node, child, root, Marked()); }
      doc.Remove(child);
      if root == doc.node && bucket != null {
        RemoveTokens(doc.forest, doc.Order(), tokens, key, bucket, child, 0);
      }
    }

    method Insert(parent: Node, child: Node, ref: Node?) returns (ghost at: nat)
      requires Valid() && parent in doc.forest && child in doc.forest && child != doc.node && !child.kind.DocumentNode?
      requires IsRoot(doc.forest, child) && parent !in Preorder(doc.forest[child]) && Depth(doc.forest, parent) + Height(doc.forest[child]) <= MAX_DEPTH
      requires ref != null ==> ref in doc.forest && ref.parent == parent
      modifies doc`forest, doc.index, bucket, doc.forest.Keys`parent, doc.forest.Keys`firstChild, doc.forest.Keys`lastChild
      modifies doc.forest.Keys`prevSibling, doc.forest.Keys`nextSibling
      ensures at <= |Kids(old(doc.forest), parent)| && At(Kids(old(doc.forest), parent), at) == ref
      ensures Valid() && doc.forest == Plant(old(doc.forest), parent, child, at)
      ensures old(Exact()) ==> Exact()
    {
      hide Linked;
      hide Shallow;
      hide Depth;
      hide IsRoot;
      hide Preorder;
      hide Upto;
      hide Ids;
      hide AllIds;
      hide Holding;
      hide Chosen;
      hide Contained;
      hide Detach;
      hide Plant;
      hide IdIndex.Valid;
      hide Bucket.Sound;
      hide Bucket.Valid;
      var root := doc.RootOf(parent);
      at := Place(doc.forest, parent, ref);
      if bucket != null {
        BucketWith(bucket, doc.forest, doc.node, parent, child, at, root, Marked());
        ChosenIsContained(Marked(), doc.Order());
      }
      ghost var put := doc.Insert(parent, child, ref);
      if root == doc.node && bucket != null {
        AddTokens(doc.forest, doc.node, tokens, key, bucket, child, 0);
      }
    }

    method Build()
      requires Valid()
      modifies `bucket
      ensures Valid() && Exact() && bucket != null && fresh(bucket) && !bucket.unsorted
    {
      hide Linked;
      hide Shallow;
      hide IsRoot;
      hide Preorder;
      hide Upto;
      hide Ids;
      hide AllIds;
      hide Holding;
      hide Chosen;
      hide Contained;
      hide Detach;
      hide Plant;
      hide IdIndex.Valid;
      hide Bucket.Sound;
      hide Bucket.Valid;
      bucket := new Bucket();
      WholeWalk(doc.forest, doc.node);
      BuildStarts(bucket, Marked(), doc.Order());
      BuildTokens(doc.forest, tokens, key, bucket, doc.node, 0, doc.Order(), 0);
      BuildEnds(bucket, Marked(), doc.forest, doc.node);
    }

    /** `el` is in the document, or compares as equal to the nodes listed and gets no entry. */
    ghost predicate Harmless(el: Node)
      reads this, doc, bucket
      requires doc.node in doc.forest
    {
      el in doc.Order() || bucket == null || bucket.Searched()
    }

    /** Writing the class attribute: the index hears of it wherever the element is. */
    method WriteClass(el: Node, toks: seq<string>)
      requires Valid() && el in doc.forest && el.kind.ElementNode?
      modifies `tokens, bucket
      ensures Valid() && tokens == old(tokens)[el := toks]
      ensures bucket != null && toks == [key] && old(Untold(el)) ==> Listed(bucket.nodes, bucket.unsorted, old(bucket.nodes), old(bucket.unsorted), doc.forest, el)
      ensures old(Exact()) ==> (Exact() <==> key !in toks || old(Harmless(el)))
    {
      hide Linked;
      hide Shallow;
      hide IsRoot;
      hide Preorder;
      hide Ids;
      hide AllIds;
      hide Holding;
      hide Chosen;
      hide Listed;
      hide IdIndex.Valid;
      hide Bucket.Sound;
      hide Bucket.Valid;
      ghost var root := TreeOf(doc.forest, el);
      ChosenAfterWriting(tokens, key, el, toks, doc.Order());
      ChosenIsContained(Marked(), doc.Order());
      SameTree(doc.forest, doc.node, root, el);
      if bucket != null {
        UpdateToken(doc.forest, doc.node, root, if el in tokens then tokens[el] else [], toks, key, bucket, el);
      }
      tokens := tokens[el := toks];
    }

    /** None while the index is not built; the caller then walks the tree. */
    method Lookup() returns (r: Option<seq<Node>>)
      requires Valid()
      modifies bucket
      ensures Valid() && (r.None? <==> bucket == null)
      ensures bucket != null && !old(bucket != null && bucket.unsorted) ==> r == Some(old(if bucket == null then [] else bucket.nodes))
      ensures old(Exact()) ==> Exact() && (r.Some? ==> r.value == Select(doc.Order(), Marked()))
    {
      hide Linked;
      hide Shallow;
      hide IsRoot;
      hide Preorder;
      hide Upto;
      hide Ids;
      hide AllIds;
      hide Holding;
      hide Chosen;
      hide Contained;
      hide Detach;
      hide Plant;
      hide IdIndex.Valid;
      hide Bucket.Sound;
      hide Bucket.Valid;
      if bucket == null { return None; }
      ChosenIsContained(Marked(), doc.Order());
      var nodes := NodesInOrder(bucket, doc.forest, doc.node);
      r := Some(nodes);
    }
  }

  lemma DocumentIsIn(f: Forest<Node>, doc: Node)
    requires PlainShape(f, doc)
    ensures doc in f
  {}

  lemma OfElementsStill(tokens: Tokens, n: Node, toks: seq<string>)
    requires OfElements(tokens) && n.kind.ElementNode?
    ensures OfElements(tokens[n := toks])
  {}

  lemma SoundGrows(b: Bucket, ns: set<Node>, n: Node)
    requires b.Sound(ns)
    ensures b.Sound(ns + {n})
  {}

  lemma OthersKept(tokens: Tokens, later: Tokens, key: string, n: Node)
    requires forall x :: x != n ==> (x in tokens <==> x in later) && (x in tokens ==> tokens[x] == later[x])
    ensures forall x :: x != n ==> (x in Holding(tokens, key) <==> x in Holding(later, key))
  {}

  lemma BuildStarts(b: Bucket, m: set<Node>, order: seq<Node>)
    requires b.Valid(order) && !b.unsorted && b.Members() == {}
    ensures BuiltTo(b, m, order, 0)
  {}

  lemma BuildEnds(b: Bucket, m: set<Node>, f: Forest<Node>, doc: Node)
    requires Linked(f) && doc in f && BuiltTo(b, m, Preorder(f[doc]), |Preorder(f[doc])|)
    ensures b.Valid(Preorder(f[doc])) && b.Members() == Chosen(m, Preorder(f[doc])) && b.Sound(f.Keys) && !b.unsorted
  {
    var order := Preorder(f[doc]);
    assert order[..|order|] == order;
    forall x | x in order ensures x in f { Below(f, doc, x); }
  }

  lemma WholeWalk(f: Forest<Node>, doc: Node)
    requires Linked(f) && Shallow(f) && doc in f
    ensures Upto(f[doc], Room(0)) == Preorder(f[doc]) && Span(Preorder(f[doc]), 0, Preorder(f[doc])) && Distinct(Preorder(f[doc]))
  {
    UptoIsPreorder(f[doc], Room(0));
    TreeDistinct(f, doc);
    assert Preorder(f[doc])[0..0 + |Preorder(f[doc])|] == Preorder(f[doc]);
  }

  // ----- what a write on a detached element does -----

  /** A detached element that is given the key is found, and hides an element of the document that is given it next. */
  method TwoWrites(t: TokenIndex, stray: Node, el: Node) returns (r: Option<seq<Node>>)
    requires t.Valid() && t.bucket != null && !t.bucket.unsorted && t.bucket.nodes == []
    requires stray in t.doc.forest && stray.kind.ElementNode? && stray !in t.doc.Order() && t.Untold(stray)
    requires el in t.doc.forest && el.kind.ElementNode? && el in t.doc.Order() && t.Untold(el)
    modifies t`tokens, t.bucket
    ensures t.Valid() && t.tokens == old(t.tokens)[stray := [t.key]][el := [t.key]]
    ensures r == Some([stray])
  {
    hide Linked;
    hide Shallow;
    hide IsRoot;
    hide Preorder;
    hide Ids;
    hide AllIds;
    hide Holding;
    hide Chosen;
    hide OneTree;
    hide IdIndex.Valid;
    hide Bucket.Sound;
    hide Bucket.Valid;
    NotOneTree(t.doc.forest, t.doc.node, el, stray);
    t.WriteClass(stray, [t.key]);
    t.WriteClass(el, [t.key]);
    r := t.Lookup();
  }

  lemma NotOneTree(f: Forest<Node>, doc: Node, el: Node, stray: Node)
    requires Linked(f) && IsRoot(f, doc) && el in Preorder(f[doc]) && stray !in Preorder(f[doc])
    ensures !OneTree(f, stray, el) && stray != el
  {
    forall r | r in f && IsRoot(f, r) && stray in Preorder(f[r]) && el in Preorder(f[r]) ensures false {
      SameRoot(f, doc, r, el);
    }
  }

  /** A document with one element, which is then inserted. */
  lemma OneElement(n: Node, el: Node)
    requires n != el
    ensures var f: Forest<Node> := map[n := Tree(n, [])][el := Tree(el, [])];
            var g: Forest<Node> := map[n := Tree(n, [Tree(el, [])]), el := Tree(el, [])];
            && IsRoot(f, el) && IsRoot(f, n) && n !in Preorder(f[el]) && Height(f[el]) == 1
            && Plant(f, n, el, 0) == g && Preorder(g[n]) == [n, el]
  {
    var leaf: Tree<Node> := Tree(el, []);
    var f: Forest<Node> := map[n := Tree(n, [])][el := leaf];
    var g: Forest<Node> := map[n := Tree(n, [leaf]), el := leaf];
    LeafIs(el);
    LeafIs(n);
    OneLeaf(el, n);
    assert Plant(f, n, el, 0)[el] == leaf && Plant(f, n, el, 0)[n] == g[n];
    assert Plant(f, n, el, 0) == g;
  }

  lemma LeafIs(n: Node)
    ensures Preorder(Tree(n, [])) == [n] && Height(Tree(n, [])) == 1
  {
    assert PreorderAll<Node>([]) == [] && HeightAll<Node>([]) == 0;
  }

  lemma OneLeaf(el: Node, n: Node)
    requires n != el
    ensures var leaf: Tree<Node> := Tree(el, []);
            && Graft(leaf, n, leaf, 0) == leaf && Graft(Tree(n, []), n, leaf, 0) == Tree(n, [leaf])
            && Preorder(Tree(n, [leaf])) == [n, el]
  {
    var leaf: Tree<Node> := Tree(el, []);
    LeafIs(el);
    assert GraftAll([], n, leaf, 0) == [] && PutAt<Tree<Node>>([], 0, leaf) == [leaf];
    assert [leaf][0] == leaf && [leaf][1..] == [] && PreorderAll<Node>([]) == [];
    assert PreorderAll([leaf]) == Preorder(leaf) + [];
  }

  method Planted(key: string) returns (t: TokenIndex, el: Node)
    ensures t.Valid() && t.key == key && |t.doc.forest| == 2 && fresh(t) && fresh(t.doc)
    ensures el in t.doc.forest && el.kind.ElementNode? && el in t.doc.Order() && t.Untold(el)
    ensures t.Marked() == {}
  {
    hide Linked;
    hide Shallow;
    hide IsRoot;
    hide Preorder;
    hide Plant;
    hide Ids;
    hide AllIds;
    hide IdIndex.Valid;
    hide Bucket.Sound;
    hide Bucket.Valid;
    var node := new Node(DocumentNode, "");
    var doc := new Document(node);
    t := new TokenIndex(doc, key);
    el := new Node(ElementNode, "");
    OneElement(node, el);
    t.Adopt(el, []);
    ghost var at := t.Insert(node, el, null);
  }

  method TwoTrees(key: string) returns (t: TokenIndex, stray: Node, el: Node)
    ensures t.Valid() && t.key == key && t.bucket != null && t.bucket.Valid(t.doc.Order()) && !t.bucket.unsorted && t.bucket.Members() == {}
    ensures stray in t.doc.forest && stray.kind.ElementNode? && stray !in t.doc.Order() && t.Untold(stray)
    ensures el in t.doc.forest && el.kind.ElementNode? && el in t.doc.Order() && t.Untold(el)
    ensures fresh(t) && fresh(t.bucket)
  {
    hide Linked;
    hide Shallow;
    hide IsRoot;
    hide Preorder;
    hide Plant;
    hide Ids;
    hide AllIds;
    hide IdIndex.Valid;
    hide Bucket.Sound;
    hide Bucket.Valid;
    t, el := Planted(key);
    stray := new Node(ElementNode, "");
    InForest(t.doc.forest, t.doc.node);
    t.Adopt(stray, []);
    t.Build();
  }

  lemma InForest(f: Forest<Node>, n: Node)
    requires Linked(f) && n in f
    ensures forall x :: x in Preorder(f[n]) ==> x in f
  {
    forall x | x in Preorder(f[n]) ensures x in f { Below(f, n, x); }
  }

  method WriteOnDetached(key: string) returns (t: TokenIndex, stray: Node, el: Node, r: Option<seq<Node>>)
    ensures t.Valid() && t.key == key
    ensures stray !in t.doc.Order() && el in t.doc.Order() && el in t.tokens && t.tokens[el] == [key]
    ensures r == Some([stray])
  {
    hide Linked;
    hide Shallow;
    hide IsRoot;
    hide Preorder;
    hide Ids;
    hide AllIds;
    hide IdIndex.Valid;
    hide Bucket.Sound;
    hide Bucket.Valid;
    t, stray, el := TwoTrees(key);
    NothingListed(t.bucket, t.doc.Order());
    r := TwoWrites(t, stray, el);
  }

  lemma NothingListed(b: Bucket, order: seq<Node>)
    requires b.Valid(order) && !b.unsorted && b.Members() == {}
    ensures b.nodes == []
  {
    NoElements(b.nodes);
  }

  lemma NoElements(s: seq<Node>)
    ensures s == [] <==> Elements(s) == {}
  {
    if s != [] { assert s[0] in Elements(s); }
  }
}
