/** Ordered trees as values, and what detaching and appending do to their preorder. */
module Forest {

  datatype Tree<N> = Tree(node: N, kids: seq<Tree<N>>)

  /** Every node with the tree below it. */
  type Forest<N> = map<N, Tree<N>>

  function Preorder<N>(t: Tree<N>): (s: seq<N>)
    ensures |s| > 0 && s[0] == t.node
    decreases t, 1
  {
    [t.node] + PreorderAll(t.kids)
  }

  function PreorderAll<N>(ts: seq<Tree<N>>): seq<N>
    decreases ts, 0
  {
    if ts == [] then [] else Preorder(ts[0]) + PreorderAll(ts[1..])
  }

  function NodesOf<N>(ts: seq<Tree<N>>): (s: seq<N>)
    ensures |s| == |ts|
    ensures forall i :: 0 <= i < |ts| ==> s[i] == ts[i].node
  {
    seq(|ts|, i requires 0 <= i < |ts| => ts[i].node)
  }

  predicate Distinct<N(==)>(s: seq<N>) {
    forall i, j :: 0 <= i < j < |s| ==> s[i] != s[j]
  }

  /** Each entry is rooted at its node and agrees with the entries of its children; a node
      is a child at most once. */
  ghost predicate Wired<N>(f: Forest<N>) {
    && (forall n :: n in f ==> f[n].node == n)
    && (forall n, i :: n in f && 0 <= i < |f[n].kids| ==>
          f[n].kids[i].node in f && f[f[n].kids[i].node] == f[n].kids[i])
    && (forall p, q, i, j ::
          (p in f && q in f && 0 <= i < |f[p].kids| && 0 <= j < |f[q].kids| && f[p].kids[i].node == f[q].kids[j].node)
          ==> p == q && i == j)
  }

  /** `c` is the `i`-th child of `p`. */
  ghost predicate IsKid<N>(f: Forest<N>, p: N, i: int, c: N) {
    p in f && 0 <= i < |f[p].kids| && f[p].kids[i].node == c
  }

  ghost predicate IsRoot<N>(f: Forest<N>, c: N) {
    c in f && forall p, i :: p in f && 0 <= i < |f[p].kids| ==> f[p].kids[i].node != c
  }

  // ----- membership -----

  lemma {:induction false} InPreorderAll<N>(ts: seq<Tree<N>>, x: N) returns (i: nat)
    requires x in PreorderAll(ts)
    ensures i < |ts| && x in Preorder(ts[i])
    decreases |ts|
  {
    if x in Preorder(ts[0]) {
      i := 0;
    } else {
      var k := InPreorderAll(ts[1..], x);
      i := k + 1;
    }
  }

  lemma {:induction false} KidInPreorderAll<N>(ts: seq<Tree<N>>, i: nat, x: N)
    requires i < |ts| && x in Preorder(ts[i])
    ensures x in PreorderAll(ts)
    decreases |ts|
  {
    if i > 0 {
      KidInPreorderAll(ts[1..], i - 1, x);
    }
  }

  lemma KidInPreorder<N>(t: Tree<N>, i: nat, x: N)
    requires i < |t.kids| && x in Preorder(t.kids[i])
    ensures x in Preorder(t)
  {
    KidInPreorderAll(t.kids, i, x);
  }

  /** Everything below a node of a wired forest is a node of the forest, with its own entry there. */
  lemma {:induction false} Below<N>(f: Forest<N>, n: N, x: N)
    requires Wired(f) && n in f && x in Preorder(f[n])
    ensures x in f
    ensures forall y :: y in Preorder(f[x]) ==> y in Preorder(f[n])
    decreases f[n]
  {
    if x != n {
      var i := InPreorderAll(f[n].kids, x);
      var k := f[n].kids[i].node;
      assert f[k] == f[n].kids[i];
      Below(f, k, x);
      forall y | y in Preorder(f[x]) ensures y in Preorder(f[n]) {
        KidInPreorder(f[n], i, y);
      }
    }
  }

  /** The parent of a node below `n`, other than `n`, is below `n` too. */
  lemma {:induction false} ParentBelow<N>(f: Forest<N>, n: N, p: N, i: int, x: N)
    requires Wired(f) && n in f && x in Preorder(f[n]) && x != n && IsKid(f, p, i, x)
    ensures p in Preorder(f[n])
    decreases f[n]
  {
    var j := InPreorderAll(f[n].kids, x);
    var k := f[n].kids[j].node;
    assert f[k] == f[n].kids[j];
    if x != k {
      ParentBelow(f, k, p, i, x);
      KidInPreorder(f[n], j, p);
    }
  }

  function Size<N>(t: Tree<N>): nat { |Preorder(t)| }

  lemma {:induction false} KidIsSmaller<N>(ts: seq<Tree<N>>, i: nat)
    requires i < |ts|
    ensures Size(ts[i]) <= |PreorderAll(ts)|
    decreases |ts|
  {
    if i > 0 {
      KidIsSmaller(ts[1..], i - 1);
    }
  }

  lemma {:induction false} BelowIsSmaller<N>(f: Forest<N>, n: N, x: N)
    requires Wired(f) && n in f && x in Preorder(f[n])
    ensures x in f && Size(f[x]) <= Size(f[n]) && (x != n ==> Size(f[x]) < Size(f[n]))
    decreases f[n]
  {
    if x != n {
      var i := InPreorderAll(f[n].kids, x);
      var k := f[n].kids[i].node;
      assert f[k] == f[n].kids[i];
      KidIsSmaller(f[n].kids, i);
      BelowIsSmaller(f, k, x);
    }
  }

  /** No node is below one of its own children. */
  lemma NotBelowOwnKid<N>(f: Forest<N>, p: N, i: nat)
    requires Wired(f) && p in f && i < |f[p].kids|
    ensures p !in Preorder(f[p].kids[i])
  {
    var k := f[p].kids[i].node;
    assert f[k] == f[p].kids[i];
    KidIsSmaller(f[p].kids, i);
    if p in Preorder(f[k]) {
      BelowIsSmaller(f, k, p);
    }
  }

  ghost function ParentOf<N>(f: Forest<N>, c: N): (r: (N, int))
    requires c in f && !IsRoot(f, c)
    ensures IsKid(f, r.0, r.1, c)
  {
    var p, i :| p in f && 0 <= i < |f[p].kids| && f[p].kids[i].node == c;
    (p, i)
  }

  /** The nodes above a given node form a chain. */
  lemma {:induction false} AncestorsCompare<N>(f: Forest<N>, a: N, b: N, x: N)
    requires Wired(f) && a in f && b in f && x in Preorder(f[a]) && x in Preorder(f[b])
    ensures a in Preorder(f[b]) || b in Preorder(f[a])
    decreases Size(f[a]) - Size(BelowEntry(f, a, x))
  {
    BelowIsSmaller(f, a, x);
    if x != a && x != b {
      assert !IsRoot(f, x) by { RootIsOnTop(f, a, x); }
      var (p, i) := ParentOf(f, x);
      ParentBelow(f, a, p, i, x);
      ParentBelow(f, b, p, i, x);
      assert f[x] == f[p].kids[i];
      KidIsSmaller(f[p].kids, i);
      BelowIsSmaller(f, a, p);
      AncestorsCompare(f, a, b, p);
    }
  }

  ghost function BelowEntry<N>(f: Forest<N>, n: N, x: N): Tree<N>
    requires Wired(f) && n in f && x in Preorder(f[n])
  {
    Below(f, n, x);
    f[x]
  }

  lemma {:induction false} RootIsOnTop<N>(f: Forest<N>, n: N, x: N)
    requires Wired(f) && n in f && x in Preorder(f[n]) && x != n
    ensures !IsRoot(f, x)
    decreases f[n]
  {
    var i := InPreorderAll(f[n].kids, x);
    var k := f[n].kids[i].node;
    assert f[k] == f[n].kids[i];
    if x != k {
      RootIsOnTop(f, k, x);
    }
  }

  // ----- detaching -----

  /** The tree without the subtree of its descendant `c`. */
  function Prune<N(==)>(t: Tree<N>, c: N): Tree<N>
    decreases t, 1
  {
    Tree(t.node, PruneAll(t.kids, c))
  }

  function PruneAll<N(==)>(ts: seq<Tree<N>>, c: N): seq<Tree<N>>
    decreases ts, 0
  {
    if ts == [] then []
    else (if ts[0].node == c then [] else [Prune(ts[0], c)]) + PruneAll(ts[1..], c)
  }

  function Detach<N(==)>(f: Forest<N>, c: N): Forest<N> {
    map n | n in f :: Prune(f[n], c)
  }

  lemma {:induction false} PruneAbsent<N>(t: Tree<N>, c: N)
    requires c !in PreorderAll(t.kids)
    ensures Prune(t, c) == t
    decreases t, 1
  {
    PruneAllAbsent(t.kids, c);
  }

  lemma {:induction false} PruneAllAbsent<N>(ts: seq<Tree<N>>, c: N)
    requires c !in PreorderAll(ts)
    ensures PruneAll(ts, c) == ts
    decreases ts, 0
  {
    if ts != [] {
      assert ts[0].node in Preorder(ts[0]);
      PruneAbsent(ts[0], c);
      PruneAllAbsent(ts[1..], c);
    }
  }

  /** The children of a pruned node: all but `c`, each pruned. */
  lemma {:induction false} PruneAllKids<N>(ts: seq<Tree<N>>, c: N, i: nat)
    requires i < |ts| && ts[i].node == c
    requires forall k :: 0 <= k < |ts| && k != i ==> ts[k].node != c
    ensures |PruneAll(ts, c)| == |ts| - 1
    ensures forall k :: 0 <= k < |ts| - 1 ==> PruneAll(ts, c)[k] == Prune(ts[if k < i then k else k + 1], c)
    decreases |ts|
  {
    if i == 0 {
      PruneAllOthers(ts[1..], c);
    } else {
      PruneAllKids(ts[1..], c, i - 1);
    }
  }

  lemma {:induction false} PruneAllOthers<N>(ts: seq<Tree<N>>, c: N)
    requires forall k :: 0 <= k < |ts| ==> ts[k].node != c
    ensures |PruneAll(ts, c)| == |ts|
    ensures forall k :: 0 <= k < |ts| ==> PruneAll(ts, c)[k] == Prune(ts[k], c)
    decreases |ts|
  {
    if ts != [] {
      PruneAllOthers(ts[1..], c);
    }
  }

  // ----- inserting -----

  /** `x` put at position `at`, or at the end. */
  function PutAt<T>(s: seq<T>, at: nat, x: T): (r: seq<T>)
    ensures |r| == |s| + 1
    ensures at <= |s| ==> forall k :: 0 <= k < |r| ==> r[k] == if k < at then s[k] else if k == at then x else s[k - 1]
  {
    if at <= |s| then s[..at] + [x] + s[at..] else s + [x]
  }

  /** The tree with `s` as a new child of `p`, at position `at`. */
  function Graft<N(==)>(t: Tree<N>, p: N, s: Tree<N>, at: nat): Tree<N>
    decreases t, 1
  {
    var kids := GraftAll(t.kids, p, s, at);
    Tree(t.node, if t.node == p then PutAt(kids, at, s) else kids)
  }

  function GraftAll<N(==)>(ts: seq<Tree<N>>, p: N, s: Tree<N>, at: nat): (r: seq<Tree<N>>)
    ensures |r| == |ts|
    ensures forall k :: 0 <= k < |ts| ==> r[k] == Graft(ts[k], p, s, at)
    decreases ts, 0
  {
    if ts == [] then [] else [Graft(ts[0], p, s, at)] + GraftAll(ts[1..], p, s, at)
  }

  function Plant<N(==)>(f: Forest<N>, p: N, c: N, at: nat): Forest<N>
    requires c in f
  {
    map n | n in f :: Graft(f[n], p, f[c], at)
  }

  lemma {:induction false} GraftAbsent<N>(t: Tree<N>, p: N, s: Tree<N>, at: nat)
    requires p !in Preorder(t)
    ensures Graft(t, p, s, at) == t
    decreases t, 1
  {
    GraftAllAbsent(t.kids, p, s, at);
  }

  lemma {:induction false} GraftAllAbsent<N>(ts: seq<Tree<N>>, p: N, s: Tree<N>, at: nat)
    requires p !in PreorderAll(ts)
    ensures GraftAll(ts, p, s, at) == ts
    decreases ts, 0
  {
    if ts != [] {
      GraftAbsent(ts[0], p, s, at);
      GraftAllAbsent(ts[1..], p, s, at);
    }
  }

  // ----- both keep the forest wired -----

  lemma DetachKids<N>(f: Forest<N>, c: N, n: N)
    requires Wired(f) && c in f && n in f
    ensures var ks, ks' := f[n].kids, Detach(f, c)[n].kids;
            if exists i :: IsKid(f, n, i, c) then
              forall i :: IsKid(f, n, i, c) ==>
                && |ks'| == |ks| - 1
                && forall k :: 0 <= k < |ks'| ==> ks'[k] == Prune(ks[if k < i then k else k + 1], c)
            else |ks'| == |ks| && forall k :: 0 <= k < |ks'| ==> ks'[k] == Prune(ks[k], c)
  {
    var ks := f[n].kids;
    if i :| IsKid(f, n, i, c) {
      PruneAllKids(ks, c, i);
    } else {
      forall k | 0 <= k < |ks| ensures ks[k].node != c {
        assert !IsKid(f, n, k, c);
      }
      PruneAllOthers(ks, c);
    }
  }

  lemma DetachKeepsWired<N>(f: Forest<N>, c: N)
    requires Wired(f) && c in f
    ensures Wired(Detach(f, c)) && IsRoot(Detach(f, c), c) && Detach(f, c)[c] == f[c]
  {
    hide Preorder;
    hide Prune;
    var g := Detach(f, c);
    forall n | n in f ensures g[n].node == n { PruneNode(f[n], c); }
    forall n, i | n in g && 0 <= i < |g[n].kids|
      ensures exists j :: KeptKid(f, c, n, j) && g[n].kids[i] == Prune(f[n].kids[j], c) && g[n].kids[i].node == f[n].kids[j].node
    {
      var j := DetachedKid(f, c, n, i);
    }
    forall n, i | n in g && 0 <= i < |g[n].kids|
      ensures g[n].kids[i].node in g && g[g[n].kids[i].node] == g[n].kids[i] && g[n].kids[i].node != c
    {
      var j :| KeptKid(f, c, n, j) && g[n].kids[i] == Prune(f[n].kids[j], c) && g[n].kids[i].node == f[n].kids[j].node;
    }
    forall p, q, i, j | p in g && q in g && 0 <= i < |g[p].kids| && 0 <= j < |g[q].kids|
                        && g[p].kids[i].node == g[q].kids[j].node
      ensures p == q && i == j
    {
      DetachInjective(f, c, p, q, i, j);
    }
    SelfPrune(f, c);
  }

  lemma PruneNode<N>(t: Tree<N>, c: N)
    ensures Prune(t, c).node == t.node
  {}

  ghost predicate KeptKid<N>(f: Forest<N>, c: N, n: N, j: int) {
    n in f && 0 <= j < |f[n].kids| && f[n].kids[j].node != c
  }

  lemma DetachedKid<N>(f: Forest<N>, c: N, n: N, i: nat) returns (j: nat)
    requires Wired(f) && c in f && n in f && i < |Detach(f, c)[n].kids|
    ensures KeptKid(f, c, n, j) && Detach(f, c)[n].kids[i] == Prune(f[n].kids[j], c)
    ensures Detach(f, c)[n].kids[i].node == f[n].kids[j].node
    ensures j == i || (j == i + 1 && exists k :: 0 <= k <= i && IsKid(f, n, k, c))
    ensures j == i ==> forall k :: IsKid(f, n, k, c) ==> i < k
  {
    hide Prune;
    DetachKids(f, c, n);
    j := i;
    if k :| IsKid(f, n, k, c) {
      j := if i < k then i else i + 1;
    }
    PruneNode(f[n].kids[j], c);
    assert f[n].kids[j].node == c ==> IsKid(f, n, j, c);
  }

  lemma DetachInjective<N>(f: Forest<N>, c: N, p: N, q: N, i: nat, j: nat)
    requires Wired(f) && c in f && p in f && q in f
    requires i < |Detach(f, c)[p].kids| && j < |Detach(f, c)[q].kids|
    requires Detach(f, c)[p].kids[i].node == Detach(f, c)[q].kids[j].node
    ensures p == q && i == j
  {
    var i' := DetachedKid(f, c, p, i);
    var j' := DetachedKid(f, c, q, j);
    assert p == q && i' == j';
  }

  lemma SelfPrune<N>(f: Forest<N>, c: N)
    requires Wired(f) && c in f
    ensures Prune(f[c], c) == f[c]
  {
    if c in PreorderAll(f[c].kids) {
      var i := InPreorderAll(f[c].kids, c);
      NotBelowOwnKid(f, c, i);
    }
    PruneAbsent(f[c], c);
  }

  lemma PlantKeepsWired<N>(f: Forest<N>, p: N, c: N, at: nat)
    requires Wired(f) && p in f && IsRoot(f, c) && p !in Preorder(f[c]) && at <= |f[p].kids|
    ensures Wired(Plant(f, p, c, at)) && Plant(f, p, c, at)[c] == f[c]
    ensures IsKid(Plant(f, p, c, at), p, at, c)
  {
    hide Preorder;
    var g := Plant(f, p, c, at);
    GraftAbsent(f[c], p, f[c], at);
    forall n | n in f ensures g[n].node == n {}
    forall n, i | n in g && 0 <= i < |g[n].kids|
      ensures g[n].kids[i].node in g && g[g[n].kids[i].node] == g[n].kids[i]
    {
      PlantedKid(f, p, c, at, n, i);
    }
    forall a, b, i, j | a in g && b in g && 0 <= i < |g[a].kids| && 0 <= j < |g[b].kids|
                        && g[a].kids[i].node == g[b].kids[j].node
      ensures a == b && i == j
    {
      hide Plant;
      PlantedKid(f, p, c, at, a, i);
      PlantedKid(f, p, c, at, b, j);
    }
  }

  /** Where the child at position `i` stood before, if it is not the new one. */
  function Older<N(==)>(p: N, at: nat, n: N, i: nat): int {
    if n == p && i >= at then i - 1 else i
  }

  lemma PlantedKid<N>(f: Forest<N>, p: N, c: N, at: nat, n: N, i: nat)
    requires Wired(f) && p in f && IsRoot(f, c) && n in f && i < |Plant(f, p, c, at)[n].kids| && at <= |f[p].kids|
    ensures var k, j := Plant(f, p, c, at)[n].kids[i], Older(p, at, n, i);
            if n == p && i == at then k == f[c] && k.node == c
            else IsKid(f, n, j, k.node) && k == Graft(f[n].kids[j], p, f[c], at) && k.node != c
  {
    NodeAt(f, n);
    NodeAt(f, c);
    GraftKid(f[n], p, f[c], at, i);
    hide Wired;
    hide Graft;
  }

  lemma NodeAt<N>(f: Forest<N>, n: N)
    requires Wired(f) && n in f
    ensures f[n].node == n
  {}

  /** The children of a grafted node: the new one at its place, the others grafted too. */
  lemma GraftKid<N>(t: Tree<N>, p: N, s: Tree<N>, at: nat, i: nat)
    requires i < |Graft(t, p, s, at).kids| && (t.node == p ==> at <= |t.kids|)
    ensures var k, j := Graft(t, p, s, at).kids[i], Older(p, at, t.node, i);
            if t.node == p && i == at then k == s
            else 0 <= j < |t.kids| && k == Graft(t.kids[j], p, s, at) && k.node == t.kids[j].node
  {
    var ks := GraftAll(t.kids, p, s, at);
    if t.node == p { PutAtIndex(ks, at, s, i); }
  }

  lemma GraftLength<N>(t: Tree<N>, p: N, s: Tree<N>, at: nat)
    ensures |Graft(t, p, s, at).kids| == |t.kids| + if t.node == p then 1 else 0
  {}

  lemma PutAtIndex<T>(s: seq<T>, at: nat, x: T, k: nat)
    requires at <= |s| && k <= |s|
    ensures PutAt(s, at, x)[k] == if k < at then s[k] else if k == at then x else s[k - 1]
  {}
}
