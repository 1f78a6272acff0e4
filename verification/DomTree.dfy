/** The pointer tree of `src/dom.c`: relinking in place, and comparing nodes in document order. */
module DomTree {
  import opened Forest
  import opened ForestOrder

  datatype Kind = DocumentNode | ElementNode | OtherNode

  class Node {
    const kind: Kind
    /** The value of the `id` attribute; empty when there is none. */
    var id: string
    var parent: Node?
    var firstChild: Node?
    var lastChild: Node?
    var prevSibling: Node?
    var nextSibling: Node?

    constructor (kind: Kind, id: string)
      ensures this.kind == kind && this.id == id
      ensures parent == null && firstChild == null && lastChild == null && prevSibling == null && nextSibling == null
    {
      this.kind, this.id := kind, id;
      parent, firstChild, lastChild, prevSibling, nextSibling := null, null, null, null, null;
    }
  }

  /** The five pointers of a node. */
  datatype Links = Links(parent: Node?, first: Node?, last: Node?, prev: Node?, next: Node?)

  /** The pointers of all nodes of `ns` as they stand. */
  ghost function Pointers(ns: set<Node>): (h: map<Node, Links>)
    reads ns
    ensures h.Keys == ns
  {
    map n | n in ns :: Links(n.parent, n.firstChild, n.lastChild, n.prevSibling, n.nextSibling)
  }

  function At(ks: seq<Node>, i: int): Node? {
    if 0 <= i < |ks| then ks[i] else null
  }

  /** The pointers of the child at position `k` of `ks` under `p`. */
  predicate KidLink(l: Links, p: Node, ks: seq<Node>, k: int) {
    l.parent == p && l.prev == At(ks, k - 1) && l.next == At(ks, k + 1)
  }

  /** The pointers of `p` and of its children spell the list `ks`. */
  ghost predicate KidLinks(h: map<Node, Links>, p: Node, ks: seq<Node>) {
    && p in h && h[p].first == At(ks, 0) && h[p].last == At(ks, |ks| - 1)
    && (forall k :: 0 <= k < |ks| ==> ks[k] in h && KidLink(h[ks[k]], p, ks, k))
  }

  ghost predicate Unlinked(l: Links) {
    l.parent == null && l.prev == null && l.next == null
  }

  /** `f`'s children of `n`. */
  ghost function Kids(f: Forest<Node>, n: Node): seq<Node>
    requires n in f
  {
    NodesOf(f[n].kids)
  }

  ghost predicate Spelled(h: map<Node, Links>, f: Forest<Node>) {
    && h.Keys == f.Keys
    && (forall p :: p in f ==> KidLinks(h, p, Kids(f, p)))
    && (forall c :: c in f && IsRoot(f, c) ==> Unlinked(h[c]))
  }

  /** The pointers of all nodes of `f` describe exactly `f`. */
  ghost predicate Linked(f: Forest<Node>)
    reads f.Keys
  {
    Wired(f) && Spelled(Pointers(f.Keys), f)
  }

  // ----- child lists after relinking -----

  function Without(ks: seq<Node>, i: nat): seq<Node>
    requires i < |ks|
  {
    ks[..i] + ks[i + 1..]
  }

  lemma DetachLists(f: Forest<Node>, c: Node, p: Node, i: nat)
    requires Wired(f) && c in f && IsKid(f, p, i, c)
    ensures NodesOf(Detach(f, c)[p].kids) == Without(NodesOf(f[p].kids), i)
    ensures forall q :: q in f && q != p ==> NodesOf(Detach(f, c)[q].kids) == NodesOf(f[q].kids)
  {
    hide Preorder;
    hide Prune;
    hide Wired;
    hide NodesOf;
    hide Without;
    forall q | q in f
      ensures NodesOf(Detach(f, c)[q].kids) == if q == p then Without(NodesOf(f[p].kids), i) else NodesOf(f[q].kids)
    {
      DetachedNodes(f, c, p, i, q);
    }
  }

  lemma DetachedNodes(f: Forest<Node>, c: Node, p: Node, i: nat, q: Node)
    requires Wired(f) && c in f && q in f && IsKid(f, p, i, c)
    ensures NodesOf(Detach(f, c)[q].kids) == if q == p then Without(NodesOf(f[p].kids), i) else NodesOf(f[q].kids)
  {
    hide Preorder;
    hide Prune;
    hide Detach;
    OnlyKid(f, c, p, i, q);
    DetachKids(f, c, q);
    var ks := Detach(f, c)[q].kids;
    forall k: nat | k < |ks| ensures ks[k].node == f[q].kids[if q == p && k >= i then k + 1 else k].node {
      PruneNode(f[q].kids[if q == p && k >= i then k + 1 else k], c);
    }
  }

  /** `c` is a child of `p` only, and once. */
  lemma OnlyKid(f: Forest<Node>, c: Node, p: Node, i: nat, q: Node)
    requires Wired(f) && IsKid(f, p, i, c) && q in f
    ensures forall k :: IsKid(f, q, k, c) <==> q == p && k == i
    ensures c in f ==> c in Detach(f, c) && q in Detach(f, c)
  {}

  lemma PlantLists(f: Forest<Node>, p: Node, c: Node, at: nat)
    requires Wired(f) && p in f && IsRoot(f, c) && at <= |f[p].kids|
    ensures forall q :: q in f ==>
              NodesOf(Plant(f, p, c, at)[q].kids) == if q == p then PutAt(NodesOf(f[q].kids), at, c) else NodesOf(f[q].kids)
  {
    hide Preorder;
    forall q | q in f
      ensures NodesOf(Plant(f, p, c, at)[q].kids) == if q == p then PutAt(NodesOf(f[q].kids), at, c) else NodesOf(f[q].kids)
    {
      PlantedNodes(f, p, c, at, q);
    }
  }

  lemma PlantedNodes(f: Forest<Node>, p: Node, c: Node, at: nat, q: Node)
    requires Wired(f) && p in f && IsRoot(f, c) && at <= |f[p].kids| && q in f
    ensures NodesOf(Plant(f, p, c, at)[q].kids) == if q == p then PutAt(NodesOf(f[q].kids), at, c) else NodesOf(f[q].kids)
  {
    hide Preorder;
    hide Wired;
    hide IsRoot;
    hide PutAt;
    hide Graft;
    NodeAt(f, q);
    RootIsIn(f, c);
    var ks := Plant(f, p, c, at)[q].kids;
    GraftLength(f[q], p, f[c], at);
    forall k: nat | k < |ks|
      ensures NodesOf(ks)[k] == (if q == p then PutAt(NodesOf(f[q].kids), at, c) else NodesOf(f[q].kids))[k]
    {
      PlantedKid(f, p, c, at, q, k);
      if q == p { PutAtIndex(NodesOf(f[q].kids), at, c, k); }
    }
  }

  /** Detaching a root changes nothing. */
  lemma DetachRoot<N>(f: Forest<N>, c: N)
    requires Wired(f) && IsRoot(f, c)
    ensures Detach(f, c) == f
  {
    forall n | n in f ensures Prune(f[n], c) == f[n] {
      if c in PreorderAll(f[n].kids) {
        var i := InPreorderAll(f[n].kids, c);
        KidInPreorder(f[n], i, c);
        NotBelowSelf(f, n, i, c);
        RootIsOnTop(f, n, c);
      }
      PruneAbsent(f[n], c);
    }
  }

  /** The parent pointer leads to the parent, and is null exactly at a root. */
  lemma ParentLink(h: map<Node, Links>, f: Forest<Node>, c: Node) returns (i: int)
    requires Wired(f) && Spelled(h, f) && c in f
    ensures h[c].parent == null <==> IsRoot(f, c)
    ensures h[c].parent != null ==>
              IsKid(f, h[c].parent, i, c) && Kids(f, h[c].parent)[i] == c && KidLink(h[c], h[c].parent, Kids(f, h[c].parent), i)
  {
    i := 0;
    if !IsRoot(f, c) {
      var (p, j) := ParentOf(f, c);
      assert Kids(f, p)[j] == c;
      i := j;
    }
  }

  // ----- unlinking -----

  /** `c`, child of `p` between `prev` and `next`, taken out of its list. */
  ghost function Spliced(h: map<Node, Links>, c: Node, p: Node, prev: Node?, next: Node?): (r: map<Node, Links>)
    ensures r.Keys == h.Keys
  {
    map n | n in h ::
      Links(if n == c then null else h[n].parent,
            if n == p && prev == null then next else h[n].first,
            if n == p && next == null then prev else h[n].last,
            if n == c then null else if n == next then prev else h[n].prev,
            if n == c then null else if n == prev then next else h[n].next)
  }

  method Unlink(ghost ns: set<Node>, child: Node)
    requires child in ns && child.parent != null && child.parent in ns && child.parent != child
    requires child.prevSibling != child && child.nextSibling != child
    requires child.prevSibling != null ==> child.prevSibling in ns && child.prevSibling != child.nextSibling
    requires child.nextSibling != null ==> child.nextSibling in ns
    modifies ns`parent, ns`firstChild, ns`lastChild, ns`prevSibling, ns`nextSibling
    ensures Pointers(ns) == Spliced(old(Pointers(ns)), child, old(child.parent), old(child.prevSibling), old(child.nextSibling))
  {
    var p := child.parent;
    if child.prevSibling != null {
      child.prevSibling.nextSibling := child.nextSibling;
    } else {
      p.firstChild := child.nextSibling;
    }
    if child.nextSibling != null {
      child.nextSibling.prevSibling := child.prevSibling;
    } else {
      p.lastChild := child.prevSibling;
    }
    child.parent := null;
    child.prevSibling := null;
    child.nextSibling := null;
    forall n | n in ns
      ensures Pointers(ns)[n] == Spliced(old(Pointers(ns)), child, old(child.parent), old(child.prevSibling), old(child.nextSibling))[n]
    {}
  }

  lemma WithoutAt(ks: seq<Node>, i: nat, k: int)
    requires i < |ks|
    ensures At(Without(ks, i), k) == At(ks, if k < i then k else k + 1)
    ensures |Without(ks, i)| == |ks| - 1
  {}

  lemma SplicedKid(h: map<Node, Links>, p: Node, ks: seq<Node>, i: nat, k: nat)
    requires KidLinks(h, p, ks) && Distinct(ks) && i < |ks| && k < |ks| - 1
    ensures Without(ks, i)[k] in h && KidLink(Spliced(h, ks[i], p, At(ks, i - 1), At(ks, i + 1))[Without(ks, i)[k]], p, Without(ks, i), k)
  {
    hide Without;
    hide KidLinks;
    hide Distinct;
    hide At;
    var o := if k < i then k else k + 1;
    WithoutAt(ks, i, k - 1);
    WithoutAt(ks, i, k);
    WithoutAt(ks, i, k + 1);
    AtWithin(Without(ks, i), k);
    AtWithin(ks, o);
    KidLinksAt(h, p, ks, o);
    PlacesApart(ks, i, o);
  }

  lemma AtWithin(ks: seq<Node>, k: nat)
    requires k < |ks|
    ensures At(ks, k) == ks[k]
  {}

  lemma KidLinksAt(h: map<Node, Links>, p: Node, ks: seq<Node>, k: nat)
    requires KidLinks(h, p, ks) && k < |ks|
    ensures ks[k] in h && KidLink(h[ks[k]], p, ks, k)
  {}

  /** Which of the places around `i` the one at `o` is. */
  lemma PlacesApart(ks: seq<Node>, i: nat, o: nat)
    requires Distinct(ks) && i < |ks| && o < |ks| && o != i
    ensures ks[o] != ks[i] && (ks[o] == At(ks, i - 1) <==> o == i - 1) && (ks[o] == At(ks, i + 1) <==> o == i + 1)
  {}

  lemma SplicedElsewhere(h: map<Node, Links>, c: Node, p: Node, prev: Node?, next: Node?, q: Node, ls: seq<Node>)
    requires KidLinks(h, q, ls) && q != p && c !in ls
    requires (prev != null ==> prev !in ls) && (next != null ==> next !in ls)
    ensures KidLinks(Spliced(h, c, p, prev, next), q, ls)
  {
    forall k | 0 <= k < |ls| ensures KidLink(Spliced(h, c, p, prev, next)[ls[k]], q, ls, k) {
      assert ls[k] in ls && KidLink(h[ls[k]], q, ls, k);
    }
  }

  lemma SplicedRoot(h: map<Node, Links>, p: Node, ks: seq<Node>, i: nat, r: Node)
    requires i < |ks| && r in h && (r == ks[i] || (r !in ks && Unlinked(h[r])))
    ensures Unlinked(Spliced(h, ks[i], p, At(ks, i - 1), At(ks, i + 1))[r])
  {}

  /** Splicing out the `i`-th child leaves the list without it. */
  lemma SplicedList(h: map<Node, Links>, p: Node, ks: seq<Node>, i: nat)
    requires KidLinks(h, p, ks) && Distinct(ks) && i < |ks|
    ensures KidLinks(Spliced(h, ks[i], p, At(ks, i - 1), At(ks, i + 1)), p, Without(ks, i))
  {
    hide KidLink;
    hide Distinct;
    var h', ls := Spliced(h, ks[i], p, At(ks, i - 1), At(ks, i + 1)), Without(ks, i);
    forall k: nat | k < |ls| ensures ls[k] in h' && KidLink(h'[ls[k]], p, ls, k) {
      SplicedKid(h, p, ks, i, k);
    }
    SplicedEnds(h, p, ks, i);
  }

  lemma SplicedEnds(h: map<Node, Links>, p: Node, ks: seq<Node>, i: nat)
    requires KidLinks(h, p, ks) && i < |ks|
    ensures var r, ls := Spliced(h, ks[i], p, At(ks, i - 1), At(ks, i + 1))[p], Without(ks, i);
            r.first == At(ls, 0) && r.last == At(ls, |ls| - 1)
  {
    hide KidLink;
    WithoutAt(ks, i, 0);
    WithoutAt(ks, i, |ks| - 2);
  }

  lemma KidsAreApart(f: Forest<Node>, p: Node, q: Node)
    requires Wired(f) && p in f && q in f
    ensures Distinct(Kids(f, p))
    ensures forall k :: 0 <= k < |Kids(f, p)| ==> Kids(f, p)[k] in f && Kids(f, p)[k] != p && !IsRoot(f, Kids(f, p)[k])
    ensures p != q ==> forall k :: 0 <= k < |Kids(f, q)| ==> Kids(f, q)[k] !in Kids(f, p)
  {
    forall k | 0 <= k < |Kids(f, p)| ensures !IsRoot(f, Kids(f, p)[k]) && Kids(f, p)[k] != p {
      assert f[p].kids[k].node == Kids(f, p)[k];
      NotBelowOwnKid(f, p, k);
    }
  }

  lemma StaysKid(f: Forest<Node>, c: Node, r: Node)
    requires Wired(f) && c in f && r in f && r != c && !IsRoot(f, r)
    ensures !IsRoot(Detach(f, c), r)
  {
    hide Preorder;
    hide Prune;
    var (p, j) := ParentOf(f, r);
    var i := KeptPosition(f, c, p, j);
    PruneNode(f[p].kids[j], c);
    assert Detach(f, c)[p].kids[i].node == r;
  }

  lemma SplicedIsDetached(h: map<Node, Links>, f: Forest<Node>, p: Node, i: nat)
    requires Wired(f) && Spelled(h, f) && p in f && i < |f[p].kids|
    ensures var ks := Kids(f, p);
            Spelled(Spliced(h, ks[i], p, At(ks, i - 1), At(ks, i + 1)), Detach(f, ks[i]))
  {
    hide Preorder;
    hide Prune;
    hide Spliced;
    hide KidLinks;
    var ks := Kids(f, p);
    var c := ks[i];
    var g, h' := Detach(f, c), Spliced(h, c, p, At(ks, i - 1), At(ks, i + 1));
    KidsAreApart(f, p, p);
    DetachKeepsWired(f, c);
    DetachLists(f, c, p, i);
    forall q | q in g ensures KidLinks(h', q, Kids(g, q)) {
      assert KidLinks(h, q, Kids(f, q));
      if q == p {
        SplicedList(h, p, ks, i);
      } else {
        KidsAreApart(f, p, q);
        SplicedElsewhere(h, c, p, At(ks, i - 1), At(ks, i + 1), q, Kids(f, q));
      }
    }
    forall r | r in g && IsRoot(g, r) ensures Unlinked(h'[r]) {
      if r != c && !IsRoot(f, r) { StaysKid(f, c, r); }
      SplicedRoot(h, p, ks, i, r);
    }
  }

  method DetachNode(ghost f: Forest<Node>, child: Node)
    requires Linked(f) && child in f
    modifies f.Keys`parent, f.Keys`firstChild, f.Keys`lastChild, f.Keys`prevSibling, f.Keys`nextSibling
    ensures Linked(Detach(f, child)) && IsRoot(Detach(f, child), child)
  {
    hide Spliced;
    hide Preorder;
    hide Prune;
    ghost var h := Pointers(f.Keys);
    ghost var i := ParentLink(h, f, child);
    DetachKeepsWired(f, child);
    if child.parent == null {
      DetachRoot(f, child);
    } else {
      KidsAreApart(f, child.parent, child.parent);
      SplicedIsDetached(h, f, child.parent, i);
      Unlink(f.Keys, child);
    }
  }

  // ----- linking -----

  /** `c` put into the list of `p`, between `prev` and `next`. */
  ghost function Joined(h: map<Node, Links>, p: Node, prev: Node?, next: Node?, c: Node): (r: map<Node, Links>)
    ensures r.Keys == h.Keys
  {
    map n | n in h ::
      Links(if n == c then p else h[n].parent,
            if n == p && prev == null then c else h[n].first,
            if n == p && next == null then c else h[n].last,
            if n == c then prev else if n == next then c else h[n].prev,
            if n == c then next else if n == prev then c else h[n].next)
  }

  /** As last child. */
  method Link(ghost ns: set<Node>, p: Node, child: Node)
    requires p in ns && child in ns && child.nextSibling == null
    requires p.lastChild != null ==> p.lastChild in ns && p.lastChild != child
    modifies ns`parent, ns`firstChild, ns`lastChild, ns`prevSibling, ns`nextSibling
    ensures Pointers(ns) == Joined(old(Pointers(ns)), p, old(p.lastChild), null, child)
  {
    child.parent := p;
    child.prevSibling := p.lastChild;
    if p.lastChild != null {
      p.lastChild.nextSibling := child;
    } else {
      p.firstChild := child;
    }
    p.lastChild := child;
  }

  /** In front of `ref`. */
  method LinkBefore(ghost ns: set<Node>, p: Node, child: Node, ref: Node)
    requires p in ns && child in ns && ref in ns && ref != child
    requires ref.prevSibling != null ==> ref.prevSibling in ns && ref.prevSibling != child && ref.prevSibling != ref
    modifies ns`parent, ns`firstChild, ns`lastChild, ns`prevSibling, ns`nextSibling
    ensures Pointers(ns) == Joined(old(Pointers(ns)), p, old(ref.prevSibling), ref, child)
  {
    child.parent := p;
    child.nextSibling := ref;
    child.prevSibling := ref.prevSibling;
    if ref.prevSibling != null {
      ref.prevSibling.nextSibling := child;
    } else {
      p.firstChild := child;
    }
    ref.prevSibling := child;
  }

  lemma PutAtAt(ks: seq<Node>, at: nat, c: Node, k: int)
    requires at <= |ks|
    ensures At(PutAt(ks, at, c), k) == if k == at then c else At(ks, if k < at then k else k - 1)
  {}

  lemma JoinedKid(h: map<Node, Links>, p: Node, ks: seq<Node>, at: nat, c: Node, k: nat)
    requires KidLinks(h, p, ks) && Distinct(ks) && c in h && c !in ks && at <= |ks| && k <= |ks|
    ensures PutAt(ks, at, c)[k] in h && KidLink(Joined(h, p, At(ks, at - 1), At(ks, at), c)[PutAt(ks, at, c)[k]], p, PutAt(ks, at, c), k)
  {
    hide PutAt;
    PutAtAt(ks, at, c, k - 1);
    PutAtAt(ks, at, c, k);
    PutAtAt(ks, at, c, k + 1);
    if k != at {
      var o := if k < at then k else k - 1;
      assert KidLink(h[ks[o]], p, ks, o) && ks[o] in ks;
    }
  }

  lemma JoinedList(h: map<Node, Links>, p: Node, ks: seq<Node>, at: nat, c: Node)
    requires KidLinks(h, p, ks) && Distinct(ks) && c in h && c !in ks && at <= |ks|
    ensures KidLinks(Joined(h, p, At(ks, at - 1), At(ks, at), c), p, PutAt(ks, at, c))
  {
    hide KidLink;
    var h', ks' := Joined(h, p, At(ks, at - 1), At(ks, at), c), PutAt(ks, at, c);
    forall k | 0 <= k < |ks'| ensures ks'[k] in h' && KidLink(h'[ks'[k]], p, ks', k) {
      JoinedKid(h, p, ks, at, c, k);
    }
    PutAtAt(ks, at, c, 0);
    PutAtAt(ks, at, c, |ks|);
  }

  lemma JoinedElsewhere(h: map<Node, Links>, p: Node, prev: Node?, next: Node?, c: Node, q: Node, ls: seq<Node>)
    requires KidLinks(h, q, ls) && q != p && c !in ls && (prev != null ==> prev !in ls) && (next != null ==> next !in ls)
    ensures KidLinks(Joined(h, p, prev, next, c), q, ls)
  {
    forall k | 0 <= k < |ls| ensures KidLink(Joined(h, p, prev, next, c)[ls[k]], q, ls, k) {
      assert ls[k] in ls && KidLink(h[ls[k]], q, ls, k);
    }
  }

  lemma PlantedRoot(f: Forest<Node>, p: Node, c: Node, at: nat, r: Node)
    requires Wired(f) && p in f && IsRoot(f, c) && at <= |f[p].kids| && IsRoot(Plant(f, p, c, at), r)
    ensures IsRoot(f, r) && r != c
  {
    hide Preorder;
    var g := Plant(f, p, c, at);
    PlantLists(f, p, c, at);
    assert g[p].kids[at].node == Kids(g, p)[at] == c;
    forall q, i: nat | q in f && i < |f[q].kids| ensures f[q].kids[i].node != r {
      var j := if q == p && i >= at then i + 1 else i;
      assert g[q].kids[j].node == Kids(g, q)[j] == Kids(f, q)[i];
    }
  }

  lemma JoinedLists(h: map<Node, Links>, f: Forest<Node>, p: Node, c: Node, at: nat, q: Node)
    requires Wired(f) && p in f && q in f && IsRoot(f, c) && at <= |Kids(f, p)| && c in h && KidLinks(h, q, Kids(f, q))
    ensures KidLinks(Joined(h, p, At(Kids(f, p), at - 1), At(Kids(f, p), at), c), q,
                     if q == p then PutAt(Kids(f, p), at, c) else Kids(f, q))
  {
    hide Joined;
    hide KidLinks;
    hide PutAt;
    var ks := Kids(f, p);
    KidsAreApart(f, q, q);
    NotAmongKids(f, q, c);
    if q == p {
      JoinedList(h, p, ks, at, c);
    } else {
      KidsAreApart(f, q, p);
      JoinedElsewhere(h, p, At(ks, at - 1), At(ks, at), c, q, Kids(f, q));
    }
  }

  lemma NotAmongKids(f: Forest<Node>, q: Node, c: Node)
    requires Wired(f) && q in f && IsRoot(f, c)
    ensures c !in Kids(f, q)
  {
    KidsAreApart(f, q, q);
  }

  lemma JoinedIsPlanted(h: map<Node, Links>, f: Forest<Node>, p: Node, c: Node, at: nat)
    requires Wired(f) && Spelled(h, f) && p in f && IsRoot(f, c) && p !in Preorder(f[c]) && at <= |Kids(f, p)|
    ensures Spelled(Joined(h, p, At(Kids(f, p), at - 1), At(Kids(f, p), at), c), Plant(f, p, c, at))
  {
    hide Wired;
    hide Preorder;
    hide Joined;
    hide KidLinks;
    hide PutAt;
    hide Unlinked;
    hide Graft;
    hide IsRoot;
    hide At;
    RootIsIn(f, c);
    var prev, next := At(Kids(f, p), at - 1), At(Kids(f, p), at);
    var g, h' := Plant(f, p, c, at), Joined(h, p, prev, next, c);
    PlantLists(f, p, c, at);
    forall q | q in g ensures KidLinks(h', q, Kids(g, q)) { JoinedLists(h, f, p, c, at, q); }
    forall r | r in g && IsRoot(g, r) ensures Unlinked(h'[r]) {
      PlantedRoot(f, p, c, at, r);
      KidsAreNoRoots(f, p, at, r);
      JoinedRoot(h, p, prev, next, c, r);
    }
  }

  lemma RootIsIn(f: Forest<Node>, c: Node)
    requires IsRoot(f, c)
    ensures c in f
  {}

  lemma KidsAreNoRoots(f: Forest<Node>, p: Node, at: nat, r: Node)
    requires Wired(f) && p in f && IsRoot(f, r)
    ensures At(Kids(f, p), at - 1) != r && At(Kids(f, p), at) != r
  {
    KidsAreApart(f, p, p);
  }

  lemma JoinedRoot(h: map<Node, Links>, p: Node, prev: Node?, next: Node?, c: Node, r: Node)
    requires r in h && Unlinked(h[r]) && r != c && r != prev && r != next
    ensures Unlinked(Joined(h, p, prev, next, c)[r])
  {}

  /** The links around position `at` of the children of `p`, with `c` a root elsewhere. */
  lemma AroundPlace(f: Forest<Node>, p: Node, c: Node, at: nat)
    requires Linked(f) && p in f && IsRoot(f, c) && at <= |Kids(f, p)|
    ensures var ks := Kids(f, p);
            && p.lastChild == At(ks, |ks| - 1) && c.nextSibling == null && c.parent == null
            && (At(ks, at - 1) != null ==> At(ks, at - 1) in f && At(ks, at - 1) != c)
            && (at < |ks| ==> ks[at] in f && ks[at] != c && ks[at].prevSibling == At(ks, at - 1) && ks[at] != At(ks, at - 1))
  {
    KidsAreApart(f, p, p);
    assert KidLinks(Pointers(f.Keys), p, Kids(f, p)) && Unlinked(Pointers(f.Keys)[c]);
  }

  /** A tree put in front of `ref`, or last. */
  method PutChild(ghost f: Forest<Node>, parent: Node, child: Node, ref: Node?) returns (ghost at: nat)
    requires Linked(f) && parent in f && IsRoot(f, child) && parent !in Preorder(f[child])
    requires ref != null ==> ref in f && ref.parent == parent
    modifies f.Keys`parent, f.Keys`firstChild, f.Keys`lastChild, f.Keys`prevSibling, f.Keys`nextSibling
    ensures at <= |Kids(f, parent)| && At(Kids(f, parent), at) == ref && Linked(Plant(f, parent, child, at))
  {
    hide Preorder;
    hide Spelled;
    hide Wired;
    hide Detach;
    hide Plant;
    DetachRoot(f, child);
    RootHasNoParent(f, child);
    if ref == null {
      at := |Kids(f, parent)|;
      AppendChild(f, parent, child);
    } else {
      at := InsertBefore(f, parent, child, ref);
    }
  }

  lemma RootHasNoParent(f: Forest<Node>, c: Node)
    requires Linked(f) && IsRoot(f, c)
    ensures c in f && c.parent == null
  {
    var i := ParentLink(Pointers(f.Keys), f, c);
  }

  lemma DetachedKeys(f: Forest<Node>, c: Node)
    ensures Detach(f, c).Keys == f.Keys
  {}

  method AppendChild(ghost f: Forest<Node>, parent: Node, child: Node)
    requires Linked(f) && parent in f && child in f && parent !in Preorder(f[child])
    modifies f.Keys`parent, f.Keys`firstChild, f.Keys`lastChild, f.Keys`prevSibling, f.Keys`nextSibling
    ensures var g := Detach(f, child); Linked(Plant(g, parent, child, |Kids(g, parent)|))
  {
    hide Detach;
    hide Wired;
    hide IsRoot;
    hide Preorder;
    hide Prune;
    hide Spelled;
    ghost var g := Detach(f, child);
    DetachedKeys(f, child);
    ghost var at := |Kids(g, parent)|;
    DetachKeepsWired(f, child);
    DetachNode(f, child);
    LinkedIs(g);
    JoinedIsPlanted(Pointers(g.Keys), g, parent, child, at);
    PlantKeepsWired(g, parent, child, at);
    AroundPlace(g, parent, child, at);
    Link(g.Keys, parent, child);
  }

  /** In front of `ref`, wherever `child` was before. */
  method InsertBefore(ghost f: Forest<Node>, parent: Node, child: Node, ref: Node) returns (ghost at: nat)
    requires Linked(f) && parent in f && child in f && parent !in Preorder(f[child])
    requires ref in f && ref.parent == parent && ref != child
    modifies f.Keys`parent, f.Keys`firstChild, f.Keys`lastChild, f.Keys`prevSibling, f.Keys`nextSibling
    ensures var g := Detach(f, child);
            at < |Kids(g, parent)| && Kids(g, parent)[at] == ref && Linked(Plant(g, parent, child, at))
  {
    hide Detach;
    hide Wired;
    hide IsRoot;
    hide Preorder;
    hide Prune;
    hide Spelled;
    ghost var g := Detach(f, child);
    at := StillKid(f, child, parent, ref);
    DetachedKeys(f, child);
    DetachKeepsWired(f, child);
    DetachNode(f, child);
    LinkedIs(g);
    JoinedIsPlanted(Pointers(g.Keys), g, parent, child, at);
    PlantKeepsWired(g, parent, child, at);
    AroundPlace(g, parent, child, at);
    LinkBefore(g.Keys, parent, child, ref);
  }

  lemma LinkedIs(f: Forest<Node>)
    requires Linked(f)
    ensures Wired(f) && Spelled(Pointers(f.Keys), f)
  {}

  /** Another child of `p` stays one when `c` is detached. */
  lemma StillKid(f: Forest<Node>, c: Node, p: Node, ref: Node) returns (at: nat)
    requires Linked(f) && c in f && p in f && ref in f && ref.parent == p && ref != c
    ensures p in Detach(f, c) && at < |Kids(Detach(f, c), p)| && Kids(Detach(f, c), p)[at] == ref
  {
    hide Preorder;
    hide Prune;
    var j := ParentLink(Pointers(f.Keys), f, ref);
    at := KeptPosition(f, c, p, j);
    PruneNode(f[p].kids[j], c);
  }
}
