/** Reading a bucket in document order. */
module BucketOrder {
  import opened Forest
  import opened ForestOrder
  import opened DomTree
  import opened DomOrder
  import opened Selections
  import opened Buckets
  import IdIndex

  // ----- a few members: sort them -----

  method ListOf(m: set<Node>) returns (s: seq<Node>)
    ensures Elements(s) == m && Distinct(s)
  {
    s := [];
    var left := m;
    while left != {}
      invariant Elements(s) + left == m && Elements(s) !! left && Distinct(s)
      decreases left
    {
      var x :| x in left;
      assert Elements(s + [x]) == Elements(s) + {x};
      assert x !in Elements(s);
      s := s + [x];
      left := left - {x};
    }
  }

  /** Insertion from the end of a list, which matters as an order only within one tree. */
  method InsertFromEnd(ghost f: Forest<Node>, ghost root: Node, s: seq<Node>, x: Node) returns (r: seq<Node>)
    requires Linked(f) && Shallow(f) && root in f && x in f && Elements(s) <= f.Keys && x !in s && Distinct(s)
    ensures Distinct(r) && Elements(r) == Elements(s) + {x}
    ensures IsRoot(f, root) && x in Preorder(f[root]) && Lists(s, Preorder(f[root])) ==> Lists(r, Preorder(f[root]))
  {
    hide Spelled;
    hide Wired;
    hide IsRoot;
    hide Preorder;
    ghost var order := Preorder(f[root]);
    ghost var own := RootAbove(f, x);
    ghost var here := IsRoot(f, root) && x in order && Lists(s, order);
    if here { SameRoot(f, root, own, x); }
    var at := |s|;
    while at > 0
      invariant 0 <= at <= |s|
      invariant here ==> forall k :: at <= k < |s| ==> Before(order, x, s[k])
    {
      assert s[at - 1] in Elements(s);
      var c := DocumentOrderCmp(f, own, x, s[at - 1]);
      if here { HalvesOf(s, order, x, at - 1); }
      if c > 0 { break; }
      at := at - 1;
    }
    InsertDistinct(s, x, at);
    if here { InsertLists(s, order, x, at); }
    r := s[..at] + [x] + s[at..];
  }

  lemma HalvesOf(s: seq<Node>, order: seq<Node>, x: Node, mid: nat)
    requires Lists(s, order) && x in order && mid < |s| && x != s[mid]
    ensures s[mid] in order
    ensures Rank(order, x, s[mid]) == -1 ==> forall k :: mid <= k < |s| ==> Before(order, x, s[k])
    ensures Rank(order, x, s[mid]) == 1 ==> forall k :: 0 <= k <= mid ==> Before(order, s[k], x)
  {
    Halves(s, order, x, mid);
  }

  lemma InsertDistinct(s: seq<Node>, x: Node, at: nat)
    requires Distinct(s) && x !in s && at <= |s|
    ensures Distinct(s[..at] + [x] + s[at..]) && Elements(s[..at] + [x] + s[at..]) == Elements(s) + {x}
  {
    var r := Inserted(s, x, at);
    forall y | y in Elements(s) + {x} ensures y in r {
      if y in s {
        var k :| 0 <= k < |s| && s[k] == y;
        assert r[if k < at then k else k + 1] == y;
      } else {
        assert r[at] == x;
      }
    }
  }

  lemma InsertLists(s: seq<Node>, order: seq<Node>, x: Node, at: nat)
    requires Lists(s, order) && x in order && at <= |s|
    requires forall k :: 0 <= k < at ==> Before(order, s[k], x)
    requires forall k :: at <= k < |s| ==> Before(order, x, s[k])
    ensures Lists(s[..at] + [x] + s[at..], order)
  {
    InsertAt(s, order, x, at);
    var r := s[..at] + [x] + s[at..];
    forall y | y in r ensures y in order { assert y in Elements(r); }
  }

  /** Nodes of one tree come out in its order; with nodes of several trees nothing is said of the order. */
  method Sort(ghost f: Forest<Node>, ghost root: Node, s: seq<Node>) returns (r: seq<Node>)
    requires Linked(f) && Shallow(f) && IsRoot(f, root) && Distinct(s) && Elements(s) <= f.Keys
    ensures Distinct(r) && Elements(r) == Elements(s)
    ensures Contained(Elements(s), Preorder(f[root])) ==> Lists(r, Preorder(f[root]))
  {
    hide Linked;
    hide Preorder;
    TreeIsDistinct(f, root);
    r := [];
    for i := 0 to |s|
      invariant Distinct(r) && Elements(r) == Elements(s[..i])
      invariant Contained(Elements(s), Preorder(f[root])) ==> Lists(r, Preorder(f[root]))
    {
      assert s[..i + 1] == s[..i] + [s[i]];
      NotYet(s, i, r);
      r := InsertFromEnd(f, root, r, s[i]);
    }
    assert s[..|s|] == s;
  }

  lemma NotYet(s: seq<Node>, i: nat, r: seq<Node>)
    requires Distinct(s) && i < |s| && Elements(r) == Elements(s[..i])
    ensures s[i] in Elements(s) && s[i] !in r && Elements(r) <= Elements(s)
  {
    assert forall x :: x in r <==> x in Elements(r);
  }

  lemma TreeIsDistinct(f: Forest<Node>, root: Node)
    requires Linked(f) && root in f
    ensures Distinct(Preorder(f[root]))
  {
    TreeDistinct(f, root);
  }

  // ----- many members: walk the document -----

  /** `n` is the node at `at` of the walk of `root`'s tree. */
  ghost predicate Reached(f: Forest<Node>, root: Node, n: Node, at: int) {
    && root in f && n in f && 0 <= at < |Preorder(f[root])| && Preorder(f[root])[at] == n
    && Block(Preorder(f[root]), at, f[n])
  }

  lemma FirstKidNext(f: Forest<Node>, root: Node, n: Node, at: int)
    requires Linked(f) && Reached(f, root, n, at)
    ensures n.firstChild != null ==> Reached(f, root, n.firstChild, at + 1)
    ensures n.firstChild == null ==> Size(f[n]) == 1
  {
    hide Linked;
    hide Reached;
    hide Size;
    hide NodesOf;
    ReachedIsIn(f, root, n, at);
    Downwards(f, n);
    if n.firstChild != null {
      FirstIsReached(f, root, n, at);
    } else {
      NoKids(f[n]);
    }
  }

  lemma NoKids<N>(t: Tree<N>)
    requires |NodesOf(t.kids)| == 0
    ensures Size(t) == 1
  {
    assert t.kids == [] && PreorderAll<N>([]) == [];
  }

  lemma FirstIsReached(f: Forest<Node>, root: Node, n: Node, at: int)
    requires Linked(f) && Reached(f, root, n, at) && Kids(f, n) != []
    ensures Reached(f, root, Kids(f, n)[0], at + 1)
  {
    hide Linked;
    KidIsReached(f, root, n, at, 0);
    assert f[n].kids[..0] == [];
  }

  lemma KidIsReached(f: Forest<Node>, root: Node, n: Node, at: int, i: nat)
    requires Linked(f) && Reached(f, root, n, at) && i < |f[n].kids|
    ensures Reached(f, root, Kids(f, n)[i], at + KidAt(f[n], i))
  {
    hide Spelled;
    hide KidAt;
    var s := Preorder(f[root]);
    KidBlockIn(s, at, f[n], i);
    var k := InBlock(s, at + KidAt(f[n], i), f[n].kids[i], f[n].kids[i].node);
  }

  /** After the last node of `n`'s tree comes its next sibling, or what comes after its parent's tree. */
  lemma SiblingNext(f: Forest<Node>, root: Node, n: Node, at: int) returns (up: int)
    requires Linked(f) && Shallow(f) && IsRoot(f, root) && Reached(f, root, n, at) && n != root
    ensures n.parent != null && Reached(f, root, n.parent, up)
    ensures n.nextSibling != null ==> Reached(f, root, n.nextSibling, at + Size(f[n]))
    ensures n.nextSibling == null ==> up + Size(f[n.parent]) == at + Size(f[n])
    ensures n.parent in f && Depth(f, n.parent) < Depth(f, n)
  {
    hide Spelled;
    hide Wired;
    hide Preorder;
    hide KidAt;
    hide Reached;
    var i := AboveIsReached(f, root, n, at);
    up := at - KidAt(f[n.parent], i);
    KidAtNext(f[n.parent], i);
    if n.nextSibling != null {
      KidIsReached(f, root, n.parent, up, i + 1);
    }
  }

  lemma AboveIsReached(f: Forest<Node>, root: Node, n: Node, at: int) returns (i: nat)
    requires Linked(f) && Shallow(f) && IsRoot(f, root) && Reached(f, root, n, at) && n != root
    ensures n.parent != null && n.parent in f && i < |f[n.parent].kids| && f[n.parent].kids[i] == f[n]
    ensures Reached(f, root, n.parent, at - KidAt(f[n.parent], i))
    ensures n.nextSibling == At(Kids(f, n.parent), i + 1) && Depth(f, n.parent) < Depth(f, n)
  {
    hide Spelled;
    var s := Preorder(f[root]);
    assert n in s;
    RootIsOnTop(f, root, n);
    var j := Upwards(f, n);
    i := j;
    ParentBelow(f, root, n.parent, i, n);
    var up := BlockOf(f, root, n.parent);
    KidIsReached(f, root, n.parent, up, i);
    TreeDistinct(f, root);
    assert s[at] == s[up + KidAt(f[n.parent], i)];
  }

  lemma LastIsLast(f: Forest<Node>, root: Node, at: int)
    requires Reached(f, root, root, at)
    ensures at + Size(f[root]) == |Preorder(f[root])|
  {}

  lemma ReachedIsIn(f: Forest<Node>, root: Node, n: Node, at: int)
    requires Reached(f, root, n, at)
    ensures root in f && n in f && 0 <= at < |Preorder(f[root])| && Preorder(f[root])[at] == n && at + Size(f[n]) <= |Preorder(f[root])|
  {}

  /** From the last node of `n`'s tree on to the next node of the walk. */
  method NextAfter(ghost f: Forest<Node>, root: Node, start: Node, ghost from: int) returns (n: Node?, ghost at: int)
    requires Linked(f) && Shallow(f) && IsRoot(f, root) && Reached(f, root, start, from)
    ensures at == from + Size(f[start])
    ensures n == null ==> at == |Preorder(f[root])|
    ensures n != null ==> Reached(f, root, n, at)
  {
    hide Spelled;
    hide Wired;
    hide Shallow;
    hide IsRoot;
    hide Preorder;
    hide Reached;
    ReachedIsIn(f, root, start, from);
    var c := start;
    at := from;
    while c != root && c.nextSibling == null
      invariant c in f && Reached(f, root, c, at) && at + Size(f[c]) == from + Size(f[start])
      decreases Depth(f, c)
    {
      ghost var up := SiblingNext(f, root, c, at);
      c := c.parent;
      at := up;
    }
    if c == root {
      LastIsLast(f, root, at);
      n := null;
    } else {
      ghost var up := SiblingNext(f, root, c, at);
      n := c.nextSibling;
    }
    at := from + Size(f[start]);
  }

  /** The members the walk meets, in its order. */
  method Walk(ghost f: Forest<Node>, root: Node, m: set<Node>) returns (arr: seq<Node>)
    requires Linked(f) && Shallow(f) && IsRoot(f, root)
    ensures arr == Select(Preorder(f[root]), m)
  {
    hide Linked;
    hide Preorder;
    hide Reached;
    hide Select;
    ghost var s, at := Preorder(f[root]), 0;
    SelectNone(s, m);
    var want := |m|;
    arr := [];
    var n: Node? := root;
    TopIsReached(f, root);
    while n != null && |arr| < want
      invariant 0 <= at <= |s| && arr == Select(s[..at], m)
      invariant if n == null then at == |s| else Reached(f, root, n, at)
      decreases |s| - at
    {
      ReachedIsIn(f, root, n, at);
      SelectNext(s, at, m);
      if n in m { arr := arr + [n]; }
      FirstKidNext(f, root, n, at);
      if n.firstChild != null {
        n := n.firstChild;
        at := at + 1;
      } else {
        n, at := NextAfter(f, root, n, at);
      }
    }
    TreeIsDistinct(f, root);
    assert s == s[..at] + s[at..];
    if n == null {
      assert s[..at] == s;
    } else {
      SelectedAll(s[..at], s[at..], m);
    }
  }

  /** First the members in the document, as the walk meets them; then the others. */
  method CollectInOrder(ghost f: Forest<Node>, root: Node, m: set<Node>) returns (arr: seq<Node>)
    requires Linked(f) && Shallow(f) && IsRoot(f, root) && m <= f.Keys
    ensures Distinct(arr) && Elements(arr) == m
    ensures Select(Preorder(f[root]), m) <= arr
    ensures Contained(m, Preorder(f[root])) ==> arr == Select(Preorder(f[root]), m)
  {
    hide Linked;
    hide Preorder;
    hide Select;
    arr := Walk(f, root, m);
    TreeIsDistinct(f, root);
    WalkMeets(Preorder(f[root]), m);
    if |arr| == |m| { return; }
    var seen := ElementsOf(arr);
    var rest := ListOf(m - seen);
    var sorted := Sort(f, root, rest);
    Joins(arr, sorted, m);
    arr := arr + sorted;
  }

  method ElementsOf(s: seq<Node>) returns (m: set<Node>)
    ensures m == Elements(s)
  {
    m := {};
    for i := 0 to |s|
      invariant m == Elements(s[..i])
    {
      m := m + {s[i]};
      assert s[..i + 1] == s[..i] + [s[i]];
    }
    assert s[..|s|] == s;
  }

  /** The walk meets as many members as there are exactly when it meets them all. */
  lemma WalkMeets(order: seq<Node>, m: set<Node>)
    requires Distinct(order)
    ensures var s := Select(order, m); Distinct(s) && Elements(s) <= m && (|s| == |m| ==> Elements(s) == m) && (Contained(m, order) ==> |s| == |m|)
  {
    SelectIsDistinct(order, m);
    var s := Select(order, m);
    DistinctSize(s);
    if x :| x in m && x !in Elements(s) {
      IdIndex.SubsetSize(Elements(s), m - {x});
    }
  }

  lemma {:induction false} DistinctSize(s: seq<Node>)
    requires Distinct(s)
    ensures |Elements(s)| == |s|
  {
    if s != [] {
      DistinctSize(s[1..]);
      assert s == [s[0]] + s[1..];
      assert Elements(s) == Elements(s[1..]) + {s[0]};
    }
  }

  lemma Joins(a: seq<Node>, b: seq<Node>, m: set<Node>)
    requires Distinct(a) && Distinct(b) && Elements(a) <= m && Elements(b) == m - Elements(a)
    ensures Distinct(a + b) && Elements(a + b) == m && a <= a + b
  {
    forall x | x in b ensures x !in a { assert x in Elements(b); }
    DistinctConcat(a, b);
    assert Elements(a + b) == Elements(a) + Elements(b);
  }

  lemma TopIsReached(f: Forest<Node>, root: Node)
    requires Linked(f) && root in f
    ensures Reached(f, root, root, 0)
  {
    assert Preorder(f[root])[0..Size(f[root])] == Preorder(f[root]);
  }

  lemma SelectNone<N>(s: seq<N>, m: set<N>)
    ensures Select(s[..0], m) == []
  {}

  lemma SelectNext<N>(s: seq<N>, at: nat, m: set<N>)
    requires at < |s|
    ensures Select(s[..at + 1], m) == Select(s[..at], m) + if s[at] in m then [s[at]] else []
  {
    assert s[..at + 1] == s[..at] + [s[at]];
    SelectConcat(s[..at], [s[at]], m);
  }

  // ----- reading a bucket -----

  /** The members: in document order, if the bucket was valid and they are all in the document. */
  method NodesInOrder(b: Bucket, ghost f: Forest<Node>, root: Node) returns (r: seq<Node>)
    requires Linked(f) && Shallow(f) && IsRoot(f, root) && b.Sound(f.Keys)
    modifies b
    ensures b.Sound(f.Keys) && !b.unsorted && r == b.nodes
    ensures if old(b.unsorted) then Elements(r) == old(b.Members()) && b.Tidy() else r == old(b.nodes) && b.members == old(b.members)
    ensures old(b.unsorted && |b.Members()| > SCAN_MAX) ==> Distinct(r) && Select(Preorder(f[root]), old(b.Members())) <= r
    ensures old(b.Valid(Preorder(f[root])) && Contained(b.Members(), Preorder(f[root]))) ==>
              b.Valid(Preorder(f[root])) && b.Members() == old(b.Members()) && r == Select(Preorder(f[root]), b.Members())
  {
    hide Linked;
    hide Preorder;
    ghost var order := Preorder(f[root]);
    ghost var kept := b.Valid(order) && Contained(b.Members(), order);
    if !b.unsorted {
      if kept { SortedIsSelection(b.nodes, order, b.Members()); }
      return b.nodes;
    }
    if |b.members.value| <= SCAN_MAX {
      var list := ListOf(b.members.value);
      b.nodes := Sort(f, root, list);
      if kept { SortedIsSelection(b.nodes, order, b.members.value); }
    } else {
      b.nodes := CollectInOrder(f, root, b.members.value);
    }
    if kept { SelectionIsSorted(order, b.members.value); }
    b.unsorted := false;
    r := b.nodes;
  }

  lemma SortedIsSelection(s: seq<Node>, order: seq<Node>, m: set<Node>)
    requires Distinct(s) && Distinct(order) && InOrder(s, order) && Elements(s) == m && Contained(m, order)
    ensures s == Select(order, m)
  {
    forall x | x in s ensures x in order && x in m { assert x in Elements(s); }
    OneOrdering(s, order, m);
  }

  lemma {:induction false} SelectionIsSorted(order: seq<Node>, m: set<Node>)
    requires Distinct(order) && Contained(m, order)
    ensures Distinct(Select(order, m)) && InOrder(Select(order, m), order) && Elements(Select(order, m)) == m
  {
    SelectIsDistinct(order, m);
    SelectInOrder(order, m);
  }

  lemma {:induction false} SelectInOrder<N>(order: seq<N>, m: set<N>)
    requires Distinct(order)
    ensures InOrder(Select(order, m), order)
    decreases |order|
  {
    if order != [] {
      var o, rest, s := order[0], order[1..], Select(order, m);
      SelectInOrder(rest, m);
      forall i, j | 0 <= i < j < |s| ensures Before(order, s[i], s[j]) {
        assert [o] + rest == order;
        BeforeConcat([o], rest, s[i], s[j]);
      }
    }
  }

  // ----- a bucket under changes of the tree -----

  /** Detaching leaves every bucket valid: what stays in the document keeps its order. */
  lemma BucketAfterDetach(b: Bucket, f: Forest<Node>, root: Node, c: Node)
    requires Wired(f) && root in f && c in f && b.Valid(Preorder(f[root]))
    ensures b.Valid(Preorder(Detach(f, c)[root]))
  {
    hide Prune;
    hide Preorder;
    DetachKeepsWired(f, c);
    TreeDistinct(Detach(f, c), root);
    PruneEmbeds(f[root], c);
    if !b.unsorted { InOrderOfPart(b.nodes, Preorder(Detach(f, c)[root]), Preorder(f[root])); }
  }

  /** Inserting leaves a bucket of nodes of the document valid. */
  lemma BucketAfterPlant(b: Bucket, f: Forest<Node>, root: Node, p: Node, c: Node, at: nat)
    requires Wired(f) && root in f && p in f && IsRoot(f, c) && p !in Preorder(f[c]) && at <= |f[p].kids|
    requires b.Valid(Preorder(f[root])) && Contained(b.Members(), Preorder(f[root]))
    ensures b.Valid(Preorder(Plant(f, p, c, at)[root])) && Contained(b.Members(), Preorder(Plant(f, p, c, at)[root]))
  {
    hide Graft;
    hide Preorder;
    PlantKeepsWired(f, p, c, at);
    TreeDistinct(Plant(f, p, c, at), root);
    GraftEmbeds(f[root], p, f[c], at);
    if !b.unsorted {
      assert forall x :: x in b.nodes ==> x in b.Members();
      InOrderOfMore(b.nodes, Preorder(f[root]), Preorder(Plant(f, p, c, at)[root]));
    }
  }
}
