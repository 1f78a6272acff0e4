/** Two nodes in document order. */
module DomOrder {
  import opened Forest
  import opened ForestOrder
  import opened DomTree

  /** -1, 0 or 1 as `a` comes before, is, or comes after `b` in `s`. */
  ghost function Rank(s: seq<Node>, a: Node, b: Node): int {
    if a == b then 0 else if Before(s, a, b) then -1 else 1
  }

  /** The parent pointer as a step towards the root. */
  lemma Upwards(f: Forest<Node>, c: Node) returns (i: int)
    requires Linked(f) && Shallow(f) && c in f
    ensures c.parent == null <==> IsRoot(f, c)
    ensures c.parent != null ==>
              IsKid(f, c.parent, i, c) && Kids(f, c.parent)[i] == c && f[c.parent].kids[i] == f[c] && Depth(f, c) == 1 + Depth(f, c.parent)
    ensures c.parent != null ==> c.prevSibling == At(Kids(f, c.parent), i - 1) && c.nextSibling == At(Kids(f, c.parent), i + 1)
  {
    hide Preorder;
    i := ParentLink(Pointers(f.Keys), f, c);
    if c.parent != null {
      DepthOfKid(f, c.parent, i, c);
    }
  }

  method DepthOf(ghost f: Forest<Node>, n: Node) returns (d: nat)
    requires Linked(f) && Shallow(f) && n in f
    ensures d == Depth(f, n)
  {
    d := 0;
    var p: Node? := n;
    while p != null && d < MAX_DEPTH
      invariant p != null ==> p in f && d + Depth(f, p) == Depth(f, n)
      invariant p == null ==> d == Depth(f, n)
      decreases MAX_DEPTH - d
    {
      ghost var i := Upwards(f, p);
      p := p.parent;
      d := d + 1;
    }
  }

  /** The ancestor of `n` at depth `y`, or `n` itself when it is no deeper. */
  method Climb(ghost f: Forest<Node>, n: Node, depth: nat, y: nat) returns (c: Node)
    requires Linked(f) && Shallow(f) && n in f && depth == Depth(f, n) && y >= 1
    ensures c in f && n in Preorder(f[c])
    ensures Depth(f, c) == if depth > y then y else depth
    ensures depth <= y ==> c == n
  {
    c := n;
    var x := depth;
    while x > y
      invariant c in f && n in Preorder(f[c]) && x == Depth(f, c)
      invariant x == depth || y <= x < depth
      invariant depth <= y ==> c == n
    {
      ghost var i := Upwards(f, c);
      KidInPreorder(f[c.parent], i, n);
      c := c.parent;
      x := x - 1;
    }
  }

  /** Two nodes at the same depth, with `a` and `b` below them. */
  ghost predicate Level(f: Forest<Node>, root: Node, a: Node, b: Node, ca: Node, cb: Node) {
    && Wired(f) && Shallow(f) && IsRoot(f, root) && a in Preorder(f[root])
    && ca in f && cb in f && ca != cb && Depth(f, ca) == Depth(f, cb)
    && a in Preorder(f[ca]) && b in Preorder(f[cb])
  }

  /** Branches that start at two roots are of different trees. */
  lemma ApartAtTop(f: Forest<Node>, root: Node, a: Node, b: Node, ca: Node, cb: Node)
    requires Level(f, root, a, b, ca, cb) && IsRoot(f, ca)
    ensures IsRoot(f, cb) && b !in Preorder(f[root])
  {
    SameRoot(f, root, ca, a);
    if b in Preorder(f[root]) { SameRoot(f, root, cb, b); }
  }

  /** The sibling pointers of the `k`-th child. */
  lemma Sideways(f: Forest<Node>, par: Node, k: nat)
    requires Linked(f) && par in f && k < |Kids(f, par)|
    ensures var c := Kids(f, par)[k]; c.nextSibling == At(Kids(f, par), k + 1) && c.prevSibling == At(Kids(f, par), k - 1)
  {
    assert KidLinks(Pointers(f.Keys), par, Kids(f, par));
  }

  /** The child pointers. */
  lemma Downwards(f: Forest<Node>, par: Node)
    requires Linked(f) && par in f
    ensures par.firstChild == At(Kids(f, par), 0) && par.lastChild == At(Kids(f, par), |Kids(f, par)| - 1)
    ensures Distinct(Kids(f, par))
  {
    assert KidLinks(Pointers(f.Keys), par, Kids(f, par));
    KidsAreApart(f, par, par);
  }

  lemma AtKid(ks: seq<Node>, j: nat, k: int)
    requires Distinct(ks) && j < |ks|
    ensures At(ks, k) == ks[j] <==> k == j
    ensures At(ks, k) == null <==> !(0 <= k < |ks|)
    ensures 0 <= k < |ks| ==> At(ks, k) == ks[k]
  {}

  /** Of two children of `par`, at positions `i` and `j`, the one reached first walking both ways. */
  method SiblingOrder(ghost f: Forest<Node>, ghost par: Node, ghost i: nat, ghost j: nat, ca: Node, cb: Node) returns (r: int)
    requires Linked(f) && par in f && i < |Kids(f, par)| && j < |Kids(f, par)| && i != j
    requires ca == Kids(f, par)[i] && cb == Kids(f, par)[j]
    ensures r == if i < j then -1 else 1
  {
    hide Linked;
    hide Kids;
    hide At;
    ghost var ks := Kids(f, par);
    Downwards(f, par);
    Sideways(f, par, i);
    var fwd := ca.nextSibling;
    var back := ca.prevSibling;
    ghost var s := 1;
    while fwd != null || back != null
      invariant s >= 1 && fwd == At(ks, i + s) && back == At(ks, i - s)
      invariant !(i - s < j < i + s)
      decreases |ks| - s
    {
      AtKid(ks, j, i + s);
      AtKid(ks, j, i - s);
      AtKid(ks, j, i + s + 1);
      AtKid(ks, j, i - s - 1);
      if fwd == cb { return -1; }
      if back == cb { return 1; }
      if fwd != null {
        Sideways(f, par, i + s);
        fwd := fwd.nextSibling;
      }
      if back != null {
        Sideways(f, par, i - s);
        back := back.prevSibling;
      }
      s := s + 1;
    }
    AtKid(ks, j, i + s);
    AtKid(ks, j, i - s);
    assert false;
    r := 0;
  }

  /** Ancestors come before descendants, and other nodes as their branches do. */
  lemma Verdict(f: Forest<Node>, root: Node, a: Node, b: Node, ca: Node, cb: Node, par: Node, i: nat, j: nat)
    requires Level(f, root, a, b, ca, cb)
    requires IsKid(f, par, i, ca) && IsKid(f, par, j, cb)
    ensures b in Preorder(f[root])
    ensures i != j && Rank(Preorder(f[root]), a, b) == if i < j then -1 else 1
    ensures a != b
  {
    hide Preorder;
    var s := Preorder(f[root]);
    assert f[ca] == f[par].kids[i] && f[cb] == f[par].kids[j];
    Below(f, root, a);
    ParentReached(f, root, a, ca, i, par);
    KidInPreorder(f[par], j, b);
    Below(f, root, par);
    TreeDistinct(f, root);
    if i < j {
      EarlierKidIsBefore(f, root, par, i, j, a, b);
    } else {
      EarlierKidIsBefore(f, root, par, j, i, b, a);
    }
    BeforeIsTotal(s, a, b);
    BeforeIsTotal(s, a, a);
  }

  lemma ParentReached(f: Forest<Node>, root: Node, a: Node, c: Node, i: nat, p: Node)
    requires Wired(f) && IsRoot(f, root) && a in Preorder(f[root]) && c in f && a in Preorder(f[c]) && IsKid(f, p, i, c)
    ensures p in Preorder(f[root])
  {
    ReachedFromTop(f, root, c, a);
    if c == root { assert false; }
    ParentBelow(f, root, p, i, c);
  }

  /** What is above a node of a tree is in that tree. */
  lemma ReachedFromTop(f: Forest<Node>, root: Node, c: Node, a: Node)
    requires Wired(f) && IsRoot(f, root) && c in f && a in Preorder(f[c]) && a in Preorder(f[root])
    ensures c in Preorder(f[root])
  {
    AncestorsCompare(f, root, c, a);
    if root in Preorder(f[c]) && root != c {
      RootIsOnTop(f, c, root);
    }
  }

  /** The order of two nodes: that of the walk if they are of one tree, and none otherwise. */
  method DocumentOrderCmp(ghost f: Forest<Node>, ghost root: Node, a: Node, b: Node) returns (r: int)
    requires Linked(f) && Shallow(f) && IsRoot(f, root) && a in Preorder(f[root]) && b in f
    ensures r == if b in Preorder(f[root]) then Rank(Preorder(f[root]), a, b) else 0
  {
    hide Preorder;
    if a == b { return 0; }
    Below(f, root, a);
    var da := DepthOf(f, a);
    var db := DepthOf(f, b);
    var ca := Climb(f, a, da, db);
    var cb := Climb(f, b, db, da);
    if ca == cb {
      OneAbove(f, root, a, b, ca, da, db);
      return if da < db then -1 else 1;
    }
    r := BranchOrder(f, root, a, b, ca, cb);
  }

  /** When leveling meets, the shallower node is the other's ancestor. */
  lemma OneAbove(f: Forest<Node>, root: Node, a: Node, b: Node, c: Node, da: nat, db: nat)
    requires Wired(f) && Shallow(f) && IsRoot(f, root) && a in Preorder(f[root]) && a in f && b in f && a != b
    requires c in f && a in Preorder(f[c]) && b in Preorder(f[c])
    requires (da <= db ==> c == a) && (db <= da ==> c == b)
    ensures b in Preorder(f[root]) && Rank(Preorder(f[root]), a, b) == if da < db then -1 else 1
  {
    hide Preorder;
    ReachedFromTop(f, root, c, a);
    Below(f, root, c);
    TreeDistinct(f, root);
    BeforeIsTotal(Preorder(f[root]), a, b);
    if da < db {
      AncestorIsBefore(f, root, a, b);
    } else {
      AncestorIsBefore(f, root, b, a);
    }
  }

  method BranchOrder(ghost f: Forest<Node>, ghost root: Node, a: Node, b: Node, na: Node, nb: Node) returns (r: int)
    requires Linked(f) && Level(f, root, a, b, na, nb)
    ensures r == if b in Preorder(f[root]) then Rank(Preorder(f[root]), a, b) else 0
  {
    hide Preorder;
    hide Spelled;
    var ca: Node, cb: Node, guard := na, nb, 0;
    while ca.parent != cb.parent && guard < MAX_DEPTH
      invariant Level(f, root, a, b, ca, cb) && guard + Depth(f, ca) == Depth(f, na)
      decreases MAX_DEPTH - guard
    {
      ghost var i := Upwards(f, ca);
      ghost var j := Upwards(f, cb);
      KidInPreorder(f[ca.parent], i, a);
      KidInPreorder(f[cb.parent], j, b);
      ca := ca.parent;
      cb := cb.parent;
      guard := guard + 1;
    }
    ghost var i := Upwards(f, ca);
    ghost var j := Upwards(f, cb);
    var par := ca.parent;
    if par == null {
      ApartAtTop(f, root, a, b, ca, cb);
      return 0;
    }
    Verdict(f, root, a, b, ca, cb, par, i, j);
    Downwards(f, par);
    if ca == par.firstChild || cb == par.lastChild { return -1; }
    if cb == par.firstChild || ca == par.lastChild { return 1; }
    r := SiblingOrder(f, par, i, j, ca, cb);
  }
}
