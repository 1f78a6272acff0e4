/** Preorder under detaching and appending. */
module ForestOrder {
  import opened Options
  import opened Forest

  ghost function Under<N>(f: Forest<N>, n: N): set<N>
    requires n in f
  {
    set x | x in Preorder(f[n])
  }

  /** The first element of `s` that belongs to `h`. */
  function First<N(==)>(s: seq<N>, h: set<N>): (r: Option<N>)
    ensures r.Some? ==> r.value in s && r.value in h
    ensures r.None? ==> forall x :: x in s ==> x !in h
  {
    if s == [] then None else if s[0] in h then Some(s[0]) else First(s[1..], h)
  }

  lemma {:induction false} FirstConcat<N>(a: seq<N>, b: seq<N>, h: set<N>)
    ensures First(a + b, h) == if First(a, h).Some? then First(a, h) else First(b, h)
  {
    if a == [] {
      assert a + b == b;
    } else {
      assert (a + b)[0] == a[0] && (a + b)[1..] == a[1..] + b;
      FirstConcat(a[1..], b, h);
    }
  }

  /** With a single holder there is no choice. */
  lemma FirstOfOne<N>(s: seq<N>, h: set<N>, x: N)
    requires x in s && x in h && forall y :: y in s && y in h ==> y == x
    ensures First(s, h) == Some(x)
  {}

  // ----- a preorder lists every node once -----

  lemma SiblingsApart<N>(f: Forest<N>, n: N, i: nat, j: nat, x: N)
    requires Wired(f) && n in f && i < j < |f[n].kids|
    requires x in Preorder(f[n].kids[i])
    ensures x !in Preorder(f[n].kids[j])
  {
    if x in Preorder(f[n].kids[j]) {
      var a, b := f[n].kids[i].node, f[n].kids[j].node;
      assert f[a] == f[n].kids[i] && f[b] == f[n].kids[j];
      assert IsKid(f, n, i, a) && IsKid(f, n, j, b);
      AncestorsCompare(f, a, b, x);
      if a in Preorder(f[b]) {
        ParentBelow(f, b, n, i, a);
        NotBelowOwnKid(f, n, j);
      } else {
        ParentBelow(f, a, n, j, b);
        NotBelowOwnKid(f, n, i);
      }
    }
  }

  lemma DistinctConcat<N>(a: seq<N>, b: seq<N>)
    requires Distinct(a) && Distinct(b) && forall x :: x in b ==> x !in a
    ensures Distinct(a + b)
  {
    var s := a + b;
    forall i, j | 0 <= i < j < |s| ensures s[i] != s[j] {
      if i < |a| <= j {
        assert s[i] in a && s[j] == b[j - |a|];
      }
    }
  }

  /** `ts` is the tail, from child `from`, of the children of `n`. */
  lemma {:induction false} KidsDistinct<N>(f: Forest<N>, n: N, ts: seq<Tree<N>>, from: nat)
    requires Wired(f) && n in f && from <= |f[n].kids| && ts == f[n].kids[from..]
    ensures Distinct(PreorderAll(ts))
    decreases ts, 0
  {
    if ts != [] {
      var k := ts[0].node;
      assert f[k] == f[n].kids[from] == ts[0];
      TreeDistinct(f, k);
      KidsDistinct(f, n, ts[1..], from + 1);
      var a, b := Preorder(ts[0]), PreorderAll(ts[1..]);
      forall x | x in b ensures x !in a {
        var j := InPreorderAll(ts[1..], x);
        assert ts[1..][j] == f[n].kids[from + 1 + j];
        if x in a { SiblingsApart(f, n, from, from + 1 + j, x); }
      }
      DistinctConcat(a, b);
    }
  }

  lemma {:induction false} TreeDistinct<N>(f: Forest<N>, n: N)
    requires Wired(f) && n in f
    ensures Distinct(Preorder(f[n]))
    decreases f[n], 1
  {
    assert f[n].kids[0..] == f[n].kids;
    KidsDistinct(f, n, f[n].kids, 0);
    forall x | x in PreorderAll(f[n].kids) ensures x != n {
      var i := InPreorderAll(f[n].kids, x);
      NotBelowOwnKid(f, n, i);
    }
    DistinctConcat([n], PreorderAll(f[n].kids));
  }

  // ----- detaching -----

  /** All of `ts` are entries of `f`. */
  ghost predicate Entries<N>(f: Forest<N>, ts: seq<Tree<N>>) {
    forall i :: 0 <= i < |ts| ==> ts[i].node in f && f[ts[i].node] == ts[i]
  }

  lemma {:induction false} PruneFirst<N>(f: Forest<N>, t: Tree<N>, c: N, h: set<N>)
    requires Wired(f) && c in f && t.node in f && f[t.node] == t
    requires Under(f, c) !! h
    ensures First(Preorder(Prune(t, c)), h) == First(Preorder(t), h)
    decreases t, 1
  {
    assert Entries(f, t.kids);
    PruneAllFirst(f, t.kids, c, h);
    FirstConcat([t.node], PreorderAll(t.kids), h);
    FirstConcat([t.node], PreorderAll(PruneAll(t.kids, c)), h);
  }

  lemma {:induction false} PruneAllFirst<N>(f: Forest<N>, ts: seq<Tree<N>>, c: N, h: set<N>)
    requires Wired(f) && c in f && Entries(f, ts)
    requires Under(f, c) !! h
    ensures First(PreorderAll(PruneAll(ts, c)), h) == First(PreorderAll(ts), h)
    decreases ts, 0
  {
    if ts != [] {
      var rest := PruneAll(ts[1..], c);
      PruneAllFirst(f, ts[1..], c, h);
      FirstConcat(Preorder(ts[0]), PreorderAll(ts[1..]), h);
      if ts[0].node == c {
        assert First(Preorder(ts[0]), h) == None by {
          forall x | x in Preorder(ts[0]) ensures x !in h { assert x in Under(f, c); }
        }
        assert PruneAll(ts, c) == rest;
      } else {
        PruneFirst(f, ts[0], c, h);
        assert PruneAll(ts, c) == [Prune(ts[0], c)] + rest;
        FirstConcat(Preorder(Prune(ts[0], c)), PreorderAll(rest), h);
      }
    }
  }

  /** `x` lies in the part of the tree of `n` that goes away with `c`. */
  ghost predicate Cut<N>(f: Forest<N>, n: N, c: N, x: N)
    requires n in f && c in f
  {
    c != n && c in Preorder(f[n]) && x in Preorder(f[c])
  }

  /** Nodes left below `n` once `c` is detached. */
  lemma PruneUnder<N>(f: Forest<N>, n: N, c: N, x: N)
    requires Wired(f) && n in f && c in f
    ensures x in Preorder(Prune(f[n], c)) <==> x in Preorder(f[n]) && !Cut(f, n, c, x)
  {
    if x in Preorder(Prune(f[n], c)) {
      LeftWasThere(f, n, c, x);
    } else if x in Preorder(f[n]) && !Cut(f, n, c, x) {
      UncutIsLeft(f, n, c, x);
    }
  }

  lemma {:induction false} LeftWasThere<N>(f: Forest<N>, n: N, c: N, x: N)
    requires Wired(f) && n in f && c in f && x in Preorder(Prune(f[n], c))
    ensures x in Preorder(f[n]) && !Cut(f, n, c, x)
    decreases f[n]
  {
    if x == n {
      if Cut(f, n, c, x) {
        BelowIsSmaller(f, c, n);
        BelowIsSmaller(f, n, c);
      }
    } else {
      var i := InPreorderAll(Prune(f[n], c).kids, x);
      var j := DetachedKid(f, c, n, i);
      var k := f[n].kids[j].node;
      assert f[k] == f[n].kids[j] && IsKid(f, n, j, k);
      LeftWasThere(f, k, c, x);
      KidInPreorder(f[n], j, x);
      if Cut(f, n, c, x) { CutBelowKid(f, n, j, c, x); }
    }
  }

  /** What is cut below a child other than `c` is cut from that child's own tree. */
  lemma CutBelowKid<N>(f: Forest<N>, n: N, j: nat, c: N, x: N)
    requires Wired(f) && c in f && KeptKid(f, c, n, j) && Cut(f, n, c, x) && x in Preorder(f[n].kids[j])
    ensures f[n].kids[j].node in f && Cut(f, f[n].kids[j].node, c, x)
  {
    var k := f[n].kids[j].node;
    assert f[k] == f[n].kids[j] && IsKid(f, n, j, k);
    AncestorsCompare(f, k, c, x);
    if k in Preorder(f[c]) {
      ParentBelow(f, c, n, j, k);
      BelowIsSmaller(f, c, n);
      BelowIsSmaller(f, n, c);
    }
  }

  lemma {:induction false} UncutIsLeft<N>(f: Forest<N>, n: N, c: N, x: N)
    requires Wired(f) && n in f && c in f && x in Preorder(f[n]) && !Cut(f, n, c, x)
    ensures x in Preorder(Prune(f[n], c))
    decreases f[n]
  {
    if x != n {
      var j := InPreorderAll(f[n].kids, x);
      var k := f[n].kids[j].node;
      assert f[k] == f[n].kids[j] && IsKid(f, n, j, k);
      if c in Preorder(f[k]) {
        KidInPreorder(f[n], j, c);
        NotBelowSelf(f, n, j, c);
      }
      UncutIsLeft(f, k, c, x);
      var i := KeptPosition(f, c, n, j);
      KidInPreorder(Prune(f[n], c), i, x);
    }
  }

  lemma NotBelowSelf<N>(f: Forest<N>, n: N, j: nat, c: N)
    requires Wired(f) && n in f && j < |f[n].kids| && c in Preorder(f[n].kids[j])
    ensures c != n
  {
    NotBelowOwnKid(f, n, j);
  }

  lemma KeptPosition<N>(f: Forest<N>, c: N, n: N, j: nat) returns (i: nat)
    requires Wired(f) && c in f && KeptKid(f, c, n, j)
    ensures i < |Prune(f[n], c).kids| && Prune(f[n], c).kids[i] == Prune(f[n].kids[j], c)
  {
    DetachKids(f, c, n);
    i := j;
    if k :| IsKid(f, n, k, c) {
      i := if j < k then j else j - 1;
    }
  }

  // ----- inserting -----

  lemma {:induction false} PreorderAllConcat<N>(a: seq<Tree<N>>, b: seq<Tree<N>>)
    ensures PreorderAll(a + b) == PreorderAll(a) + PreorderAll(b)
    decreases |a|
  {
    if a == [] {
      assert a + b == b;
    } else {
      assert (a + b)[0] == a[0] && (a + b)[1..] == a[1..] + b;
      PreorderAllConcat(a[1..], b);
    }
  }

  /** The new tree's nodes stand together between those of the others. */
  lemma PutPreorder<N>(ts: seq<Tree<N>>, at: nat, s: Tree<N>) returns (a: seq<N>, b: seq<N>)
    ensures PreorderAll(ts) == a + b && PreorderAll(PutAt(ts, at, s)) == a + Preorder(s) + b
  {
    var i := if at <= |ts| then at else |ts|;
    var l, r := ts[..i], ts[i..];
    a, b := PreorderAll(l), PreorderAll(r);
    assert ts == l + r && PutAt(ts, at, s) == l + ([s] + r);
    PreorderAllConcat(l, r);
    PreorderAllConcat(l, [s] + r);
    assert ([s] + r)[1..] == r;
  }

  lemma {:induction false} GraftFirst<N>(t: Tree<N>, p: N, s: Tree<N>, at: nat, h: set<N>)
    requires forall x :: x in Preorder(s) ==> x !in h
    ensures First(Preorder(Graft(t, p, s, at)), h) == First(Preorder(t), h)
    decreases t, 1
  {
    var kids := GraftAll(t.kids, p, s, at);
    GraftAllFirst(t.kids, p, s, at, h);
    FirstConcat([t.node], PreorderAll(t.kids), h);
    FirstConcat([t.node], PreorderAll(Graft(t, p, s, at).kids), h);
    var a, b := PutPreorder(kids, at, s);
    FirstConcat(a, b, h);
    FirstConcat(a + Preorder(s), b, h);
    FirstConcat(a, Preorder(s), h);
  }

  lemma {:induction false} GraftAllFirst<N>(ts: seq<Tree<N>>, p: N, s: Tree<N>, at: nat, h: set<N>)
    requires forall x :: x in Preorder(s) ==> x !in h
    ensures First(PreorderAll(GraftAll(ts, p, s, at)), h) == First(PreorderAll(ts), h)
    decreases ts, 0
  {
    if ts != [] {
      GraftFirst(ts[0], p, s, at, h);
      GraftAllFirst(ts[1..], p, s, at, h);
      FirstConcat(Preorder(ts[0]), PreorderAll(ts[1..]), h);
      assert GraftAll(ts, p, s, at)[1..] == GraftAll(ts[1..], p, s, at);
      FirstConcat(Preorder(Graft(ts[0], p, s, at)), PreorderAll(GraftAll(ts[1..], p, s, at)), h);
    }
  }

  lemma {:induction false} GraftUnder<N>(t: Tree<N>, p: N, s: Tree<N>, at: nat, x: N)
    ensures x in Preorder(Graft(t, p, s, at)) <==> x in Preorder(t) || (p in Preorder(t) && x in Preorder(s))
    decreases t, 1
  {
    GraftAllUnder(t.kids, p, s, at, x);
    var a, b := PutPreorder(GraftAll(t.kids, p, s, at), at, s);
  }

  lemma {:induction false} GraftAllUnder<N>(ts: seq<Tree<N>>, p: N, s: Tree<N>, at: nat, x: N)
    ensures x in PreorderAll(GraftAll(ts, p, s, at)) <==> x in PreorderAll(ts) || (p in PreorderAll(ts) && x in Preorder(s))
    decreases ts, 0
  {
    if ts != [] {
      GraftUnder(ts[0], p, s, at, x);
      GraftAllUnder(ts[1..], p, s, at, x);
      assert GraftAll(ts, p, s, at)[1..] == GraftAll(ts[1..], p, s, at);
    }
  }

  // ----- positions in a preorder -----

  /** `x` comes before `y` in `s`. */
  ghost predicate Before<N>(s: seq<N>, x: N, y: N) {
    exists i, j :: 0 <= i < j < |s| && s[i] == x && s[j] == y
  }

  /** Without repetitions, coming before is a strict total order on the elements. */
  lemma BeforeIsTotal<N>(s: seq<N>, x: N, y: N)
    requires Distinct(s) && x in s && y in s
    ensures x == y || Before(s, x, y) || Before(s, y, x)
    ensures !(Before(s, x, y) && Before(s, y, x))
    ensures !Before(s, x, x)
  {
    var i :| 0 <= i < |s| && s[i] == x;
    var j :| 0 <= j < |s| && s[j] == y;
  }

  lemma BeforeIsTransitive<N>(s: seq<N>, x: N, y: N, z: N)
    requires Distinct(s) && Before(s, x, y) && Before(s, y, z)
    ensures Before(s, x, z)
  {
    var i, j :| 0 <= i < j < |s| && s[i] == x && s[j] == y;
    var k, l :| 0 <= k < l < |s| && s[k] == y && s[l] == z;
    assert j == k;
  }

  /** `t`'s preorder is found in `s` from `at` on. */
  ghost predicate Block<N>(s: seq<N>, at: int, t: Tree<N>) {
    0 <= at && at + Size(t) <= |s| && s[at..at + Size(t)] == Preorder(t)
  }

  /** Where the `i`-th child's nodes start in the preorder of `t`. */
  function KidAt<N>(t: Tree<N>, i: nat): nat
    requires i <= |t.kids|
  {
    1 + |PreorderAll(t.kids[..i])|
  }

  lemma KidAtNext<N>(t: Tree<N>, i: nat)
    requires i < |t.kids|
    ensures KidAt(t, i + 1) == KidAt(t, i) + Size(t.kids[i])
    ensures KidAt(t, |t.kids|) == Size(t)
  {
    assert t.kids[..i + 1] == t.kids[..i] + [t.kids[i]];
    PreorderAllConcat(t.kids[..i], [t.kids[i]]);
    assert PreorderAll([t.kids[i]]) == Preorder(t.kids[i]) + PreorderAll([]);
    assert t.kids[..|t.kids|] == t.kids;
  }

  lemma {:induction false} KidsInOrder<N>(t: Tree<N>, i: nat, j: nat)
    requires i < j <= |t.kids|
    ensures KidAt(t, i) + Size(t.kids[i]) <= KidAt(t, j)
    decreases j
  {
    hide KidAt;
    KidAtNext(t, j - 1);
    if i < j - 1 { KidsInOrder(t, i, j - 1); }
  }

  /** The preorder of a child is a block of its parent's. */
  lemma KidBlock<N>(t: Tree<N>, i: nat)
    requires i < |t.kids|
    ensures Block(Preorder(t), KidAt(t, i), t.kids[i])
  {
    var head, kid, tail := t.kids[..i], t.kids[i], t.kids[i + 1..];
    assert t.kids == head + ([kid] + tail);
    PreorderAllConcat(head, [kid] + tail);
    assert ([kid] + tail)[1..] == tail;
    var a, b, c := [t.node] + PreorderAll(head), Preorder(kid), PreorderAll(tail);
    assert Preorder(t) == [t.node] + (PreorderAll(head) + (b + c));
    MiddleOf([t.node], PreorderAll(head), b, c);
  }

  lemma MiddleOf<N>(o: seq<N>, a: seq<N>, b: seq<N>, c: seq<N>)
    ensures var s, at := o + (a + (b + c)), |o| + |a|;
            at + |b| <= |s| && s[at..at + |b|] == b
  {}

  lemma BlockWithin<N>(s: seq<N>, at: nat, t: Tree<N>, o: nat, u: Tree<N>)
    requires Block(s, at, t) && Block(Preorder(t), o, u)
    ensures Block(s, at + o, u)
  {
    SliceOfSlice(s, at, Size(t), o, Size(u));
  }

  lemma SliceOfSlice<N>(s: seq<N>, at: nat, n: nat, o: nat, m: nat)
    requires at + n <= |s| && o + m <= n
    ensures s[at..at + n][o..o + m] == s[at + o..at + o + m]
  {
    var l, r := s[at..at + n][o..o + m], s[at + o..at + o + m];
    assert |l| == |r| && forall k :: 0 <= k < m ==> l[k] == r[k];
  }

  lemma KidBlockIn<N>(s: seq<N>, at: nat, t: Tree<N>, i: nat)
    requires Block(s, at, t) && i < |t.kids|
    ensures Block(s, at + KidAt(t, i), t.kids[i])
    ensures KidAt(t, i) + Size(t.kids[i]) <= Size(t)
  {
    hide KidAt;
    KidBlock(t, i);
    BlockWithin(s, at, t, KidAt(t, i), t.kids[i]);
  }

  lemma InBlock<N>(s: seq<N>, at: nat, t: Tree<N>, x: N) returns (k: nat)
    requires Block(s, at, t) && x in Preorder(t)
    ensures at <= k < at + Size(t) && s[k] == x
    ensures x != t.node ==> k > at
    ensures s[at] == t.node
  {
    var u :| 0 <= u < Size(t) && Preorder(t)[u] == x;
    assert s[at..at + Size(t)][u] == s[at + u];
    assert s[at..at + Size(t)][0] == s[at];
    k := at + u;
  }

  lemma {:induction false} BlockIn<N>(f: Forest<N>, s: seq<N>, at: nat, n: N, m: N) returns (b: nat)
    requires Wired(f) && n in f && m in Preorder(f[n]) && Block(s, at, f[n])
    ensures m in f && Block(s, b, f[m]) && s[b] == m && at <= b && b + Size(f[m]) <= at + Size(f[n])
    decreases f[n]
  {
    hide KidAt;
    b := at;
    assert s[at..at + Size(f[n])][0] == n;
    if m != n {
      var i := InPreorderAll(f[n].kids, m);
      var k := f[n].kids[i].node;
      assert f[k] == f[n].kids[i];
      KidBlockIn(s, at, f[n], i);
      b := BlockIn(f, s, at + KidAt(f[n], i), k, m);
    }
  }

  lemma BlockOf<N>(f: Forest<N>, n: N, m: N) returns (at: nat)
    requires Wired(f) && n in f && m in Preorder(f[n])
    ensures m in f && Block(Preorder(f[n]), at, f[m]) && Preorder(f[n])[at] == m
  {
    var s := Preorder(f[n]);
    assert s[0..0 + Size(f[n])] == s;
    at := BlockIn(f, s, 0, n, m);
  }

  /** A node comes before everything below it. */
  lemma AncestorIsBefore<N>(f: Forest<N>, n: N, a: N, x: N)
    requires Wired(f) && n in f && a in Preorder(f[n]) && a in f && x in Preorder(f[a]) && x != a
    ensures Before(Preorder(f[n]), a, x)
  {
    hide Preorder;
    var s := Preorder(f[n]);
    var at := BlockOf(f, n, a);
    var k := InBlock(s, at, f[a], x);
    assert s[at] == a && s[k] == x && k > at;
  }

  /** Everything below a child comes before everything below a later child. */
  lemma EarlierKidIsBefore<N>(f: Forest<N>, n: N, p: N, i: nat, j: nat, x: N, y: N)
    requires Wired(f) && n in f && p in Preorder(f[n]) && p in f && i < j < |f[p].kids|
    requires x in Preorder(f[p].kids[i]) && y in Preorder(f[p].kids[j])
    ensures Before(Preorder(f[n]), x, y)
  {
    hide Preorder;
    hide KidAt;
    var s := Preorder(f[n]);
    var at := BlockOf(f, n, p);
    KidBlockIn(s, at, f[p], i);
    KidBlockIn(s, at, f[p], j);
    KidsInOrder(f[p], i, j);
    var k := InBlock(s, at + KidAt(f[p], i), f[p].kids[i], x);
    var l := InBlock(s, at + KidAt(f[p], j), f[p].kids[j], y);
    assert s[k] == x && s[l] == y && k < l;
  }

  // ----- height and depth -----

  function Height<N>(t: Tree<N>): (h: nat)
    ensures h > 0
    decreases t, 1
  {
    1 + HeightAll(t.kids)
  }

  function HeightAll<N>(ts: seq<Tree<N>>): nat
    decreases ts, 0
  {
    if ts == [] then 0
    else if Height(ts[0]) > HeightAll(ts[1..]) then Height(ts[0]) else HeightAll(ts[1..])
  }

  lemma {:induction false} KidHeight<N>(ts: seq<Tree<N>>, i: nat)
    requires i < |ts|
    ensures Height(ts[i]) <= HeightAll(ts)
    decreases |ts|
  {
    if i > 0 {
      KidHeight(ts[1..], i - 1);
    }
  }

  const MAX_DEPTH := 512

  /** No node lies `MAX_DEPTH` levels or more below another. */
  ghost predicate Shallow<N>(f: Forest<N>) {
    forall n :: n in f ==> Height(f[n]) <= MAX_DEPTH
  }

  /** The number of nodes from `n` up to its root, both included. */
  ghost function Depth<N>(f: Forest<N>, n: N): (d: nat)
    requires Wired(f) && Shallow(f) && n in f
    ensures d >= 1 && (d == 1 <==> IsRoot(f, n))
    ensures d + Height(f[n]) <= MAX_DEPTH + 1
    decreases MAX_DEPTH - Height(f[n])
  {
    if IsRoot(f, n) then 1
    else
      var (p, i) := ParentOf(f, n);
      KidHeight(f[p].kids, i);
      assert f[n] == f[p].kids[i];
      1 + Depth(f, p)
  }

  lemma DepthOfKid<N>(f: Forest<N>, p: N, i: int, c: N)
    requires Wired(f) && Shallow(f) && c in f && IsKid(f, p, i, c)
    ensures Depth(f, c) == 1 + Depth(f, p)
  {
    var (q, j) := ParentOf(f, c);
    assert q == p;
  }

  /** Only one root lies above a node. */
  lemma SameRoot<N>(f: Forest<N>, a: N, b: N, x: N)
    requires Wired(f) && IsRoot(f, a) && IsRoot(f, b) && x in Preorder(f[a]) && x in Preorder(f[b])
    ensures a == b
  {
    AncestorsCompare(f, a, b, x);
    if a != b {
      if a in Preorder(f[b]) { RootIsOnTop(f, b, a); } else { RootIsOnTop(f, a, b); }
    }
  }

  /** Every node lies below exactly one root: no subtree is lost and none is shared. */
  lemma {:induction false} RootAbove<N>(f: Forest<N>, x: N) returns (r: N)
    requires Wired(f) && Shallow(f) && x in f
    ensures IsRoot(f, r) && x in Preorder(f[r])
    ensures forall q :: IsRoot(f, q) && x in Preorder(f[q]) ==> q == r
    decreases Depth(f, x)
  {
    if IsRoot(f, x) {
      r := x;
    } else {
      var (p, i) := ParentOf(f, x);
      DepthOfKid(f, p, i, x);
      r := RootAbove(f, p);
      assert f[x] == f[p].kids[i];
      KidInPreorder(f[p], i, x);
      Below(f, r, p);
    }
    forall q | IsRoot(f, q) && x in Preorder(f[q]) ensures q == r { SameRoot(f, q, r, x); }
  }

  lemma {:induction false} HeightBound<N>(ts: seq<Tree<N>>, h: nat)
    requires forall i :: 0 <= i < |ts| ==> Height(ts[i]) <= h
    ensures HeightAll(ts) <= h
    decreases |ts|
  {
    if ts != [] { HeightBound(ts[1..], h); }
  }

  /** Where there is room below the parent, inserting goes nowhere too deep. */
  lemma {:induction false} PlantIsShallow<N>(f: Forest<N>, n: N, p: N, s: Tree<N>, at: nat)
    requires Wired(f) && Shallow(f) && n in f && p in f && Depth(f, p) + Height(s) <= MAX_DEPTH
    ensures Depth(f, n) + Height(Graft(f[n], p, s, at)) <= MAX_DEPTH + 1
    decreases f[n]
  {
    var ks, room := GraftAll(f[n].kids, p, s, at), MAX_DEPTH - Depth(f, n);
    forall i | 0 <= i < |ks| ensures Height(ks[i]) <= room {
      var k := f[n].kids[i].node;
      assert f[k] == f[n].kids[i] && IsKid(f, n, i, k);
      DepthOfKid(f, n, i, k);
      PlantIsShallow(f, k, p, s, at);
    }
    var put := if n == p then PutAt(ks, at, s) else ks;
    forall i | 0 <= i < |put| ensures Height(put[i]) <= room { assert put[i] in ks || put[i] == s; }
    HeightBound(put, room);
  }
}
