/** Recursive walks over the pointer tree: searching for an id, and indexing a subtree. */
module IdWalks {
  import opened Options
  import opened Forest
  import opened ForestOrder
  import opened DomTree
  import opened DomOrder
  import opened IdIndex

  /** The elements of `ns` that have an id, with their ids. */
  ghost function AllIds(ns: set<Node>): Held
    reads ns
  {
    map n | n in ns && n.kind.ElementNode? && n.id != "" :: n.id
  }

  /** The part of `ids` about the nodes of `s`. */
  ghost function Ids(ids: Held, s: seq<Node>): Held {
    map n | n in ids && n in s :: ids[n]
  }

  /** `r` is what a walk over `s` finds first. */
  ghost predicate Found(r: Node?, s: seq<Node>, h: set<Node>) {
    First(s, h) == if r == null then None else Some(r)
  }

  // ----- preorder down to a given depth -----

  function Upto<N>(t: Tree<N>, d: nat): seq<N>
    decreases t, 1
  {
    if d == 0 then [] else [t.node] + UptoAll(t.kids, d - 1)
  }

  function UptoAll<N>(ts: seq<Tree<N>>, d: nat): seq<N>
    decreases ts, 0
  {
    if ts == [] then [] else Upto(ts[0], d) + UptoAll(ts[1..], d)
  }

  lemma {:induction false} UptoAllNext<N>(ts: seq<Tree<N>>, i: nat, d: nat)
    requires i < |ts|
    ensures UptoAll(ts[..i + 1], d) == UptoAll(ts[..i], d) + Upto(ts[i], d)
    decreases i
  {
    var a, b := ts[..i + 1], ts[..i];
    if i == 0 {
      assert a == [ts[0]] && UptoAll(a[1..], d) == [];
    } else {
      assert a[1..] == ts[1..][..i] && b[1..] == ts[1..][..i - 1];
      UptoAllNext(ts[1..], i - 1, d);
    }
  }

  /** A cut-off walk sees the whole of a tree that is no higher. */
  lemma {:induction false} UptoIsPreorder<N>(t: Tree<N>, d: nat)
    requires Height(t) <= d
    ensures Upto(t, d) == Preorder(t)
    decreases t, 1
  {
    UptoAllIsPreorder(t.kids, d - 1);
  }

  lemma {:induction false} UptoAllIsPreorder<N>(ts: seq<Tree<N>>, d: nat)
    requires HeightAll(ts) <= d
    ensures UptoAll(ts, d) == PreorderAll(ts)
    decreases ts, 0
  {
    if ts != [] {
      UptoIsPreorder(ts[0], d);
      UptoAllIsPreorder(ts[1..], d);
    }
  }

  lemma {:induction false} UptoIsBelow<N>(t: Tree<N>, d: nat, x: N)
    requires x in Upto(t, d)
    ensures x in Preorder(t)
    decreases t, 1
  {
    if x != t.node {
      var i := InUptoAll(t.kids, d - 1, x);
      UptoIsBelow(t.kids[i], d - 1, x);
      KidInPreorder(t, i, x);
    }
  }

  lemma {:induction false} InUptoAll<N>(ts: seq<Tree<N>>, d: nat, x: N) returns (i: nat)
    requires x in UptoAll(ts, d)
    ensures i < |ts| && x in Upto(ts[i], d)
    decreases |ts|
  {
    if x in Upto(ts[0], d) {
      i := 0;
    } else {
      var k := InUptoAll(ts[1..], d, x);
      i := k + 1;
    }
  }

  /** The levels a walk that has reached `depth` still visits. */
  function Room(depth: nat): nat {
    if depth < MAX_DEPTH then MAX_DEPTH - depth else 0
  }

  /** The child reached at position `i`, with its entry and its next sibling. */
  lemma ThisKid(f: Forest<Node>, p: Node, i: nat, c: Node)
    requires Linked(f) && p in f && c == At(Kids(f, p), i)
    ensures i < |f[p].kids| && c in f && f[c] == f[p].kids[i]
    ensures c.nextSibling == At(Kids(f, p), i + 1)
  {
    Sideways(f, p, i);
  }

  lemma NoMoreKids(f: Forest<Node>, p: Node, i: nat)
    requires p in f && At(Kids(f, p), i) == null && i <= |f[p].kids|
    ensures f[p].kids[..i] == f[p].kids
  {}

  method FindByIdDepth(ghost f: Forest<Node>, root: Node, id: string, depth: nat) returns (r: Node?)
    requires Linked(f) && root in f && id != ""
    ensures Found(r, Upto(f[root], Room(depth)), Holders(AllIds(f.Keys), id))
    decreases Room(depth)
  {
    hide Linked;
    hide AllIds;
    hide Holders;
    hide Upto;
    hide UptoAll;
    hide First;
    hide Kids;
    hide At;
    ghost var ts, i, d, h := f[root].kids, 0, Room(depth + 1), Holders(AllIds(f.Keys), id);
    OwnStep(f, root, id, d);
    if depth >= MAX_DEPTH { return null; }
    if root.kind.ElementNode? && root.id == id { return root; }
    Downwards(f, root);
    var c := root.firstChild;
    while c != null
      invariant i <= |ts| && c == At(Kids(f, root), i)
      invariant First(UptoAll(ts[..i], d), h) == None
      decreases |ts| - i
    {
      ThisKid(f, root, i, c);
      var m := FindByIdDepth(f, c, id, depth + 1);
      KidStep(ts, i, d, h);
      if m != null { return m; }
      c := c.nextSibling;
      i := i + 1;
    }
    NoMoreKids(f, root, i);
    r := null;
  }

  /** A walk tries the node itself, then its children. */
  lemma OwnStep(f: Forest<Node>, n: Node, id: string, d: nat)
    requires Linked(f) && n in f && id != ""
    ensures var h := Holders(AllIds(f.Keys), id);
            && First(Upto(f[n], 0), h) == None
            && First(UptoAll([], d), h) == None
            && f[n].kids[..0] == []
            && First(Upto(f[n], d + 1), h) ==
               if n.kind.ElementNode? && n.id == id then Some(n) else First(UptoAll(f[n].kids, d), h)
  {
    FirstConcat([n], UptoAll(f[n].kids, d), Holders(AllIds(f.Keys), id));
  }

  lemma KidStep<N>(ts: seq<Tree<N>>, i: nat, d: nat, h: set<N>)
    requires i < |ts| && First(UptoAll(ts[..i], d), h) == None
    ensures First(UptoAll(ts[..i + 1], d), h) == First(Upto(ts[i], d), h)
    ensures First(Upto(ts[i], d), h).Some? ==> First(UptoAll(ts, d), h) == First(Upto(ts[i], d), h)
  {
    UptoAllNext(ts, i, d);
    FirstConcat(UptoAll(ts[..i], d), Upto(ts[i], d), h);
    if First(Upto(ts[i], d), h).Some? { FirstInAll(ts, i + 1, d, h); }
  }

  /** What is found among the first children is found among all. */
  lemma FirstInAll<N>(ts: seq<Tree<N>>, i: nat, d: nat, h: set<N>)
    requires i <= |ts| && First(UptoAll(ts[..i], d), h).Some?
    ensures First(UptoAll(ts, d), h) == First(UptoAll(ts[..i], d), h)
    decreases |ts| - i
  {
    if i == |ts| {
      assert ts[..i] == ts;
    } else {
      UptoAllNext(ts, i, d);
      FirstConcat(UptoAll(ts[..i], d), Upto(ts[i], d), h);
      FirstInAll(ts, i + 1, d, h);
    }
  }

  // ----- indexing a subtree -----

  lemma IdsConcat(ids: Held, a: seq<Node>, b: seq<Node>)
    ensures Ids(ids, a + b) == Ids(ids, a) + Ids(ids, b)
  {}

  /** The nodes of `s` are new to `held`, and `held` only has nodes of `f`. */
  ghost predicate Unseen(f: Forest<Node>, held: Held, s: seq<Node>) {
    held.Keys <= f.Keys && forall x :: x in s ==> x in f && x !in held
  }

  /** A node below the `i`-th child of `n` is not `n`, nor below another child. */
  lemma KidIsApart(f: Forest<Node>, n: Node, i: nat, d: nat, x: Node)
    requires Wired(f) && n in f && i < |f[n].kids| && x in Upto(f[n].kids[i], d)
    ensures x in Upto(f[n], d + 1) && x != n && x !in UptoAll(f[n].kids[..i], d)
  {
    var ks := f[n].kids;
    KidInUpto(ks, i, d, x);
    UptoIsBelow(ks[i], d, x);
    NotBelowOwnKid(f, n, i);
    if x in UptoAll(ks[..i], d) {
      var j := InUptoAll(ks[..i], d, x);
      UptoIsBelow(ks[j], d, x);
      SiblingsApart(f, n, j, i, x);
    }
  }

  lemma {:induction false} KidInUpto<N>(ts: seq<Tree<N>>, i: nat, d: nat, x: N)
    requires i < |ts| && x in Upto(ts[i], d)
    ensures x in UptoAll(ts, d)
    decreases i
  {
    if i > 0 { KidInUpto(ts[1..], i - 1, d, x); }
  }

  lemma KidUnseen(f: Forest<Node>, n: Node, i: nat, d: nat, ids: Held, was: Held, held: Held)
    requires Linked(f) && n in f && i < |f[n].kids| && ids.Keys <= f.Keys
    requires Unseen(f, was, Upto(f[n], d + 1))
    requires held == Plus(Plus(was, Ids(ids, [n])), Ids(ids, UptoAll(f[n].kids[..i], d)))
    ensures Unseen(f, held, Upto(f[n].kids[i], d))
  {
    hide Spelled;
    hide Wired;
    hide Upto;
    hide UptoAll;
    hide Ids;
    hide Plus;
    InPlus(was, ids, [n], UptoAll(f[n].kids[..i], d));
    forall x | x in Upto(f[n].kids[i], d) ensures x in f && x !in held {
      KidIsApart(f, n, i, d, x);
    }
  }

  /** What is registered after two more walks. */
  lemma InPlus(was: Held, ids: Held, a: seq<Node>, b: seq<Node>)
    ensures var held := Plus(Plus(was, Ids(ids, a)), Ids(ids, b));
            && held.Keys <= was.Keys + ids.Keys
            && forall x :: x in held ==> x in was || x in a || x in b
  {}

  method RegisterOwn(ghost ids: Held, ix: IdIndex, n: Node, ghost order: seq<Node>)
    requires ix.Valid(order) && n !in ix.held && |ix.held| < COUNT_MASK
    requires Ids(ids, [n]) == if n.kind.ElementNode? && n.id != "" then map[n := n.id] else map[]
    modifies ix
    ensures ix.Valid(order) && ix.held == Plus(old(ix.held), Ids(ids, [n]))
  {
    hide Ids;
    hide IdIndex.Valid;
    if n.kind.ElementNode? {
      ix.Register(n.id, n, order);
    }
  }

  method AddSubtree(ghost f: Forest<Node>, ghost ids: Held, ix: IdIndex, n: Node, depth: nat, ghost order: seq<Node>)
    requires Linked(f) && n in f && |f| <= COUNT_MASK && ids == AllIds(f.Keys)
    requires ix.Valid(order) && Unseen(f, ix.held, Upto(f[n], Room(depth)))
    modifies ix
    ensures ix.Valid(order) && ix.held == Plus(old(ix.held), Ids(ids, Upto(f[n], Room(depth))))
    decreases Room(depth)
  {
    hide Linked;
    hide AllIds;
    hide Upto;
    hide UptoAll;
    hide Kids;
    hide At;
    hide Ids;
    hide Unseen;
    hide Plus;
    hide IdIndex.Valid;
    ghost var ts, i, d, was := f[n].kids, 0, Room(depth + 1), ix.held;
    OwnIds(f, ids, n, d);
    PlusInSteps(was, ids, [n], UptoAll(ts, d));
    PlusNone(was);
    PlusNone(Plus(was, Ids(ids, [n])));
    if depth >= MAX_DEPTH { return; }
    RoomFor(f, was, n, d);
    RegisterOwn(ids, ix, n, order);
    Downwards(f, n);
    var c := n.firstChild;
    while c != null
      invariant i <= |ts| && c == At(Kids(f, n), i)
      invariant ix.Valid(order) && ix.held == Plus(Plus(was, Ids(ids, [n])), Ids(ids, UptoAll(ts[..i], d)))
      decreases |ts| - i
    {
      ThisKid(f, n, i, c);
      KidUnseen(f, n, i, d, ids, was, ix.held);
      PlusInSteps(Plus(was, Ids(ids, [n])), ids, UptoAll(ts[..i], d), Upto(ts[i], d));
      AddSubtree(f, ids, ix, c, depth + 1, order);
      UptoAllNext(ts, i, d);
      c := c.nextSibling;
      i := i + 1;
    }
    NoMoreKids(f, n, i);
  }

  /** The ids of a walk are the node's own and its children's. */
  lemma OwnIds(f: Forest<Node>, ids: Held, n: Node, d: nat)
    requires Linked(f) && n in f && ids == AllIds(f.Keys)
    ensures Ids(ids, Upto(f[n], 0)) == map[] && Ids(ids, UptoAll([], d)) == map[] && ids.Keys <= f.Keys
    ensures f[n].kids[..0] == []
    ensures Upto(f[n], d + 1) == [n] + UptoAll(f[n].kids, d)
    ensures Ids(ids, [n]) == if n.kind.ElementNode? && n.id != "" then map[n := n.id] else map[]
  {
    OwnId(f.Keys, n);
  }

  lemma OwnId(ns: set<Node>, n: Node)
    requires n in ns
    ensures Ids(AllIds(ns), [n]) == if n.kind.ElementNode? && n.id != "" then map[n := n.id] else map[]
    ensures Ids(AllIds(ns), []) == map[] && AllIds(ns).Keys <= ns
  {
    assert forall x :: x in Ids(AllIds(ns), [n]) ==> x == n;
  }

  /** `held` with the nodes of `more` registered too. */
  ghost function Plus(held: Held, more: Held): Held { held + more }

  lemma PlusInSteps(held: Held, ids: Held, a: seq<Node>, b: seq<Node>)
    ensures Plus(Plus(held, Ids(ids, a)), Ids(ids, b)) == Plus(held, Ids(ids, a + b))
  {
    IdsConcat(ids, a, b);
    hide Ids;
  }

  lemma PlusNone(held: Held)
    ensures Plus(held, map[]) == held
  {}

  lemma RoomFor(f: Forest<Node>, held: Held, n: Node, d: nat)
    requires Linked(f) && n in f && |f| <= COUNT_MASK && Unseen(f, held, Upto(f[n], d + 1))
    ensures n !in held && |held| < COUNT_MASK
  {
    SubsetSize(held.Keys, f.Keys - {n});
    assert f.Keys - {n} + {n} == f.Keys;
  }

  method RemoveSubtree(ghost f: Forest<Node>, ghost ids: Held, ix: IdIndex, n: Node, depth: nat, ghost order: seq<Node>)
    requires Linked(f) && n in f && ids == AllIds(f.Keys) && ix.Valid(order)
    requires Ids(ids, Upto(f[n], Room(depth))).Items <= ix.held.Items
    modifies ix
    ensures ix.Valid(order) && ix.held == old(ix.held) - Ids(ids, Upto(f[n], Room(depth))).Keys
    decreases Room(depth)
  {
    hide Linked;
    hide AllIds;
    hide Upto;
    hide UptoAll;
    hide Kids;
    hide At;
    hide Ids;
    hide IdIndex.Valid;
    ghost var ts, i, d, was := f[n].kids, 0, Room(depth + 1), ix.held;
    OwnIds(f, ids, n, d);
    IdsConcat(ids, [n], UptoAll(ts, d));
    if depth >= MAX_DEPTH { return; }
    OwnHeld(f, ids, n, d, was);
    if n.kind.ElementNode? {
      ix.Unregister(n.id, n, order);
    }
    Downwards(f, n);
    var c := n.firstChild;
    while c != null
      invariant i <= |ts| && c == At(Kids(f, n), i)
      invariant ix.Valid(order) && ix.held == was - Ids(ids, [n]).Keys - Ids(ids, UptoAll(ts[..i], d)).Keys
      decreases |ts| - i
    {
      ThisKid(f, n, i, c);
      StillHeld(f, n, i, d, ids, was, ix.held);
      RemoveSubtree(f, ids, ix, c, depth + 1, order);
      UptoAllNext(ts, i, d);
      IdsConcat(ids, UptoAll(ts[..i], d), Upto(ts[i], d));
      c := c.nextSibling;
      i := i + 1;
    }
    NoMoreKids(f, n, i);
  }

  lemma OwnHeld(f: Forest<Node>, ids: Held, n: Node, d: nat, held: Held)
    requires Linked(f) && n in f && ids == AllIds(f.Keys)
    requires Ids(ids, Upto(f[n], d + 1)).Items <= held.Items
    ensures n.kind.ElementNode? && n.id != "" ==> n in held && held[n] == n.id
  {
    if n.kind.ElementNode? && n.id != "" {
      assert (n, n.id) in Ids(ids, Upto(f[n], d + 1)).Items;
    }
  }

  lemma StillHeld(f: Forest<Node>, n: Node, i: nat, d: nat, ids: Held, was: Held, held: Held)
    requires Linked(f) && n in f && i < |f[n].kids|
    requires Ids(ids, Upto(f[n], d + 1)).Items <= was.Items
    requires held == was - Ids(ids, [n]).Keys - Ids(ids, UptoAll(f[n].kids[..i], d)).Keys
    ensures Ids(ids, Upto(f[n].kids[i], d)).Items <= held.Items
  {
    hide Spelled;
    hide Upto;
    forall x | x in Ids(ids, Upto(f[n].kids[i], d)) ensures x in held && held[x] == ids[x] {
      KidIsApart(f, n, i, d, x);
      assert (x, ids[x]) in Ids(ids, Upto(f[n], d + 1)).Items;
    }
  }
}
