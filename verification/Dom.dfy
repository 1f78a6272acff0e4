/** A document with its id index, kept in step with every change of the tree. */
module Dom {
  import opened Forest
  import opened ForestOrder
  import opened DomTree
  import opened DomOrder
  import opened IdIndex
  import opened IdWalks

  // ----- what a change of the tree means for the index -----

  ghost predicate AllIn(hs: set<Node>, order: seq<Node>) {
    forall n :: n in hs ==> n in order
  }

  lemma OrderWithout(f: Forest<Node>, doc: Node, c: Node, hs: set<Node>)
    requires Wired(f) && doc in f && c in f && c != doc && AllIn(hs, Preorder(Detach(f, c)[doc]))
    ensures First(Preorder(Detach(f, c)[doc]), hs) == First(Preorder(f[doc]), hs)
  {
    if c in Preorder(f[doc]) {
      forall x | x in Preorder(f[c]) && x in hs ensures false {
        PruneUnder(f, doc, c, x);
      }
      PruneFirst(f, f[doc], c, hs);
    } else {
      PruneAbsent(f[doc], c);
    }
  }

  lemma OrderWith(f: Forest<Node>, doc: Node, p: Node, c: Node, at: nat, hs: set<Node>)
    requires Wired(f) && IsRoot(f, doc) && p in f && IsRoot(f, c) && c != doc && AllIn(hs, Preorder(f[doc]))
    ensures First(Preorder(Plant(f, p, c, at)[doc]), hs) == First(Preorder(f[doc]), hs)
  {
    forall x | x in Preorder(f[c]) ensures x !in hs {
      if x in hs { SameRoot(f, doc, c, x); }
    }
    GraftFirst(f[doc], p, f[c], at, hs);
  }

  /** Taking `c` away takes away its registrations, if it was in the document at all. */
  lemma IdsWithout(f: Forest<Node>, doc: Node, c: Node, ids: Held)
    requires Wired(f) && doc in f && c in f && c != doc
    ensures var all, left := Ids(ids, Preorder(f[doc])), Ids(ids, Preorder(Detach(f, c)[doc]));
            && left == (if c in Preorder(f[doc]) then all - Ids(ids, Preorder(f[c])).Keys else all)
            && (c in Preorder(f[doc]) ==> Ids(ids, Preorder(f[c])).Items <= all.Items)
  {
    if c in Preorder(f[doc]) {
      forall x ensures x in Preorder(Detach(f, c)[doc]) <==> x in Preorder(f[doc]) && x !in Preorder(f[c]) {
        PruneUnder(f, doc, c, x);
      }
      Below(f, doc, c);
      forall i | i in Ids(ids, Preorder(f[c])).Items ensures i in Ids(ids, Preorder(f[doc])).Items {
        assert i.0 in Preorder(f[doc]);
      }
    } else {
      PruneAbsent(f[doc], c);
    }
  }

  lemma IdsWith(f: Forest<Node>, doc: Node, p: Node, c: Node, at: nat, ids: Held)
    requires Wired(f) && IsRoot(f, doc) && p in f && IsRoot(f, c) && c != doc
    ensures var all, more := Ids(ids, Preorder(f[doc])), Ids(ids, Preorder(Plant(f, p, c, at)[doc]));
            && more == (if p in Preorder(f[doc]) then Plus(all, Ids(ids, Preorder(f[c]))) else all)
            && Unseen(f, all, Preorder(f[c]))
  {
    hide Preorder;
    hide Graft;
    hide Ids;
    var order, later := Preorder(f[doc]), Preorder(Plant(f, p, c, at)[doc]);
    forall x ensures x in later <==> x in order || (p in order && x in Preorder(f[c])) {
      GraftUnder(f[doc], p, f[c], at, x);
    }
    if p in order {
      IdsOfBoth(ids, later, order, Preorder(f[c]));
    } else {
      IdsOfSame(ids, later, order);
    }
    forall x | x in Preorder(f[c]) ensures x in f && x !in order {
      Below(f, c, x);
      if x in order { SameRoot(f, doc, c, x); }
    }
    forall x | x in order ensures x in f { Below(f, doc, x); }
    IdsAreOf(ids, order);
  }

  lemma IdsOfBoth(ids: Held, s: seq<Node>, a: seq<Node>, b: seq<Node>)
    requires forall x :: x in s <==> x in a || x in b
    ensures Ids(ids, s) == Plus(Ids(ids, a), Ids(ids, b))
  {}

  lemma IdsOfSame(ids: Held, s: seq<Node>, a: seq<Node>)
    requires forall x :: x in s <==> x in a
    ensures Ids(ids, s) == Ids(ids, a)
  {}

  lemma IdsAreOf(ids: Held, s: seq<Node>)
    ensures forall x :: x in Ids(ids, s) ==> x in s
  {}

  lemma {:induction false} PruneHeight<N>(t: Tree<N>, c: N)
    ensures Height(Prune(t, c)) <= Height(t)
    decreases t, 1
  {
    PruneAllHeight(t.kids, c);
  }

  lemma {:induction false} PruneAllHeight<N>(ts: seq<Tree<N>>, c: N)
    ensures HeightAll(PruneAll(ts, c)) <= HeightAll(ts)
    decreases ts, 0
  {
    if ts != [] {
      PruneHeight(ts[0], c);
      PruneAllHeight(ts[1..], c);
      var rest := PruneAll(ts[1..], c);
      if ts[0].node == c {
        assert PruneAll(ts, c) == rest;
      } else {
        assert PruneAll(ts, c)[0] == Prune(ts[0], c) && PruneAll(ts, c)[1..] == rest;
      }
    }
  }

  /** The index stays truthful under a new order that agrees with the old one on its holders. */
  lemma Reordered(ix: IdIndex, before: seq<Node>, after: seq<Node>)
    requires ix.Valid(before) && AllIn(ix.held.Keys, before)
    requires forall id :: AllIn(Holders(ix.held, id), after) ==> First(after, Holders(ix.held, id)) == First(before, Holders(ix.held, id))
    ensures ix.Valid(after)
  {
    forall id ensures Says(ix.Entry(id), ix.Hit(id), Holders(ix.held, id), after) {
      assert Says(ix.Entry(id), ix.Hit(id), Holders(ix.held, id), before);
    }
  }

  /** A new tree adds nothing to the document's ids. */
  lemma Settle(f: Forest<Node>, doc: Node, n: Node)
    requires Wired(f) && doc in f && n !in f
    ensures Ids(AllIds(f.Keys + {n}), Preorder(f[doc])) == Ids(AllIds(f.Keys), Preorder(f[doc]))
    ensures (f[n := Tree(n, [])]).Keys == f.Keys + {n}
  {
    forall x | x in Preorder(f[doc]) ensures x in f { Below(f, doc, x); }
  }

  const NO_LINKS := Links(null, null, null, null, null)

  lemma NewTreeRoots(f: Forest<Node>, n: Node)
    requires Wired(f) && n !in f
    ensures Wired(f[n := Tree(n, [])]) && IsRoot(f[n := Tree(n, [])], n)
    ensures forall c :: c in f ==> (IsRoot(f[n := Tree(n, [])], c) <==> IsRoot(f, c))
  {
    var g := f[n := Tree(n, [])];
    forall c | c in f && IsRoot(g, c) ensures IsRoot(f, c) {
      forall p, i | p in f && 0 <= i < |f[p].kids| ensures f[p].kids[i].node != c {
        assert g[p].kids[i].node != c;
      }
    }
  }

  lemma KidLinksStay(h: map<Node, Links>, p: Node, ks: seq<Node>, n: Node)
    requires n !in h
    ensures KidLinks(h, p, ks) ==> KidLinks(h[n := NO_LINKS], p, ks)
    ensures KidLinks(h[n := NO_LINKS], n, []) && Unlinked(NO_LINKS)
  {}

  lemma NewTreeLinks(h: map<Node, Links>, f: Forest<Node>, n: Node)
    requires Wired(f) && Spelled(h, f) && n !in f
    ensures Spelled(h[n := NO_LINKS], f[n := Tree(n, [])])
  {
    hide Wired;
    hide IsRoot;
    hide KidLinks;
    hide Unlinked;
    NewTreeRoots(f, n);
    var g, h' := f[n := Tree(n, [])], h[n := NO_LINKS];
    forall p | p in g ensures KidLinks(h', p, Kids(g, p)) {
      KidLinksStay(h, p, Kids(g, p), n);
      if p != n { assert KidLinks(h, p, Kids(f, p)); } else { assert Kids(g, n) == []; }
    }
    KidLinksStay(h, n, [], n);
  }

  lemma NewTree(h: map<Node, Links>, f: Forest<Node>, n: Node)
    requires Wired(f) && Shallow(f) && Spelled(h, f) && n !in f
    ensures var g, h' := f[n := Tree(n, [])], h[n := NO_LINKS];
            Wired(g) && Shallow(g) && Spelled(h', g) && IsRoot(g, n) && forall c :: IsRoot(f, c) ==> IsRoot(g, c)
  {
    hide Spelled;
    NewTreeRoots(f, n);
    NewTreeLinks(h, f, n);
    assert HeightAll<Node>([]) == 0;
  }

  /** A new tree keeps the shape plain. */
  lemma NewShape(h: map<Node, Links>, f: Forest<Node>, doc: Node, n: Node)
    requires Wired(f) && PlainShape(f, doc) && Spelled(h, f) && n !in f && |f| < COUNT_MASK
    ensures var g := f[n := Tree(n, [])];
            Wired(g) && PlainShape(g, doc) && Spelled(h[n := NO_LINKS], g) && doc in f && g.Keys == f.Keys + {n}
  {
    hide Wired;
    hide Shallow;
    hide Spelled;
    hide IsRoot;
    NewTree(h, f, n);
    assert |f.Keys + {n}| == |f| + 1;
  }

  lemma NewPointers(ns: set<Node>, n: Node)
    requires n.parent == null && n.prevSibling == null && n.nextSibling == null && n.firstChild == null && n.lastChild == null
    ensures Pointers(ns + {n}) == Pointers(ns)[n := NO_LINKS]
  {}

  twostate lemma IdsKept(ns: set<Node>)
    requires forall n :: n in ns ==> n.id == old(n.id)
    ensures AllIds(ns) == old(AllIds(ns))
  {}

  twostate lemma PointersKept(ns: set<Node>)
    requires forall n :: n in ns ==>
               && n.parent == old(n.parent) && n.firstChild == old(n.firstChild) && n.lastChild == old(n.lastChild)
               && n.prevSibling == old(n.prevSibling) && n.nextSibling == old(n.nextSibling)
    ensures Pointers(ns) == old(Pointers(ns))
  {}

  /** `doc` is a root, documents are roots only, and depth and number are within bounds. */
  ghost predicate PlainShape(f: Forest<Node>, doc: Node) {
    && doc in f && IsRoot(f, doc) && Shallow(f) && |f| <= COUNT_MASK
    && forall n :: n in f && n.kind.DocumentNode? ==> IsRoot(f, n)
  }

  class Document {
    const node: Node
    /** Null until the index is built. */
    var index: IdIndex?
    ghost var forest: Forest<Node>

    ghost function Order(): seq<Node>
      reads this
      requires node in forest
    {
      Preorder(forest[node])
    }

    /** The pointers describe `forest`, which is of plain shape. */
    ghost predicate Plain()
      reads this, forest.Keys
    {
      Linked(forest) && PlainShape(forest, node)
    }

    /** The index registers exactly the elements of the document that have an id. */
    ghost predicate Indexed()
      reads this, index, forest.Keys
      requires node in forest
    {
      index != null ==> index.Valid(Order()) && index.held == Ids(AllIds(forest.Keys), Order())
    }

    ghost predicate Valid()
      reads this, index, forest.Keys
    {
      Plain() && Indexed()
    }

    constructor (node: Node)
      requires node.kind.DocumentNode? && node.parent == null && node.prevSibling == null && node.nextSibling == null
      requires node.firstChild == null && node.lastChild == null
      ensures Valid() && this.node == node && forest == map[node := Tree(node, [])] && index == null
    {
      this.node, index, forest := node, null, map[node := Tree(node, [])];
      NewTree(map[], map[], node);
      assert map[][node := Tree(node, [])] == map[node := Tree(node, [])];
      new;
      assert Pointers(forest.Keys) == map[][node := NO_LINKS];
    }

    /** A node not yet in any tree becomes a tree of its own. */
    ghost method Adopt(n: Node)
      requires Valid() && n !in forest && |forest| < COUNT_MASK
      requires n.parent == null && n.prevSibling == null && n.nextSibling == null && n.firstChild == null && n.lastChild == null
      modifies `forest
      ensures Valid() && forest == old(forest)[n := Tree(n, [])]
    {
      hide Spelled;
      hide Preorder;
      hide Wired;
      hide Shallow;
      hide IsRoot;
      hide AllIds;
      hide Ids;
      hide Pointers;
      hide PlainShape;
      hide IdIndex.Valid;
      NewShape(Pointers(forest.Keys), forest, node, n);
      NewPointers(forest.Keys, n);
      Settle(forest, node, n);
      forest := forest[n := Tree(n, [])];
    }

    /** The root above `n`, as a walk up the parent pointers finds it. */
    method RootOf(n: Node) returns (r: Node)
      requires Plain() && n in forest
      ensures IsRoot(forest, r) && n in Preorder(forest[r])
    {
      r := n;
      while r.parent != null
        invariant r in forest && n in Preorder(forest[r])
        decreases Depth(forest, r)
      {
        ghost var i := Upwards(forest, r);
        KidInPreorder(forest[r.parent], i, n);
        r := r.parent;
      }
      ghost var i := Upwards(forest, r);
    }

    method Unhook(child: Node)
      requires Plain() && child in forest && child != node
      modifies `forest, forest.Keys`parent, forest.Keys`firstChild, forest.Keys`lastChild
      modifies forest.Keys`prevSibling, forest.Keys`nextSibling
      ensures Plain() && forest == Detach(old(forest), child) && forest.Keys == old(forest.Keys)
    {
      hide Spelled;
      hide Prune;
      hide Preorder;
      hide PlainShape;
      hide Detach;
      RemovalKeepsShape(forest, node, child);
      DetachNode(forest, child);
      forest := Detach(forest, child);
    }

    method SubtreeRemoved(child: Node, ghost gone: Held)
      requires Plain() && child in forest
      requires gone == Ids(AllIds(forest.Keys), Upto(forest[child], Room(0)))
      requires index != null ==> index.Valid(Order()) && gone.Items <= index.held.Items
      modifies index
      ensures Plain() && (index != null ==> index.Valid(Order()) && index.held == old(index.held) - gone.Keys)
    {
      hide Spelled;
      hide Wired;
      hide Preorder;
      hide Upto;
      hide Ids;
      hide AllIds;
      hide IdIndex.Valid;
      if index == null { return; }
      RemoveSubtree(forest, AllIds(forest.Keys), index, child, 0, Order());
    }

    /** What a removal does to the order, and to the ids to be registered. */
    lemma Removal(child: Node, root: Node)
      requires Valid() && child in forest && child != node && IsRoot(forest, root) && child in Preorder(forest[root])
      ensures child in Detach(forest, child) && node in Detach(forest, child)
      ensures var g, ids := Detach(forest, child), AllIds(forest.Keys);
              var gone := Ids(ids, Upto(g[child], Room(0)));
              index != null ==>
                && index.Valid(Preorder(g[node]))
                && Ids(ids, Preorder(g[node])) == (if root == node then index.held - gone.Keys else index.held)
                && (root == node ==> gone.Items <= index.held.Items)
    {
      hide Spelled;
      hide Preorder;
      hide Ids;
      hide Upto;
      hide AllIds;
      hide IdIndex.Valid;
      RemovedIds(forest, node, child, root, AllIds(forest.Keys));
      if index != null { RemovalKeepsIndex(index, forest, node, child, AllIds(forest.Keys)); }
    }

    /** Taking a subtree out, and its ids out of the index. */
    method Remove(child: Node)
      requires Valid() && child in forest && child != node
      modifies `forest, index, forest.Keys`parent, forest.Keys`firstChild, forest.Keys`lastChild
      modifies forest.Keys`prevSibling, forest.Keys`nextSibling
      ensures Valid() && forest == Detach(old(forest), child)
    {
      hide Linked;
      hide Wired;
      hide IsRoot;
      hide Shallow;
      hide Preorder;
      hide Ids;
      hide Upto;
      hide Detach;
      hide AllIds;
      hide IdIndex.Valid;
      ghost var ids := AllIds(forest.Keys);
      var root := RootOf(child);
      Removal(child, root);
      Unhook(child);
      IdsKept(forest.Keys);
      if root == node {
        SubtreeRemoved(child, Ids(ids, Upto(forest[child], Room(0))));
      }
    }

    method Hook(parent: Node, child: Node, ref: Node?) returns (ghost at: nat)
      requires Plain() && parent in forest && child in forest && child != node && !child.kind.DocumentNode?
      requires IsRoot(forest, child) && parent !in Preorder(forest[child]) && Depth(forest, parent) + Height(forest[child]) <= MAX_DEPTH
      requires ref != null ==> ref in forest && ref.parent == parent
      modifies `forest, forest.Keys`parent, forest.Keys`firstChild, forest.Keys`lastChild
      modifies forest.Keys`prevSibling, forest.Keys`nextSibling
      ensures at <= |Kids(old(forest), parent)| && At(Kids(old(forest), parent), at) == ref
      ensures Plain() && forest == Plant(old(forest), parent, child, at) && forest.Keys == old(forest.Keys)
    {
      hide Wired;
      hide Spelled;
      hide IsRoot;
      hide Shallow;
      hide Preorder;
      hide Plant;
      hide Depth;
      hide Height;
      hide PlainShape;
      ghost var f := forest;
      at := PutChild(f, parent, child, ref);
      InsertionKeepsShape(f, node, parent, child, at);
      forest := Plant(f, parent, child, at);
    }

    method SubtreeAdded(child: Node, ghost more: Held)
      requires Plain() && child in forest
      requires more == Ids(AllIds(forest.Keys), Upto(forest[child], Room(0)))
      requires index != null ==> index.Valid(Order()) && Unseen(forest, index.held, Upto(forest[child], Room(0)))
      modifies index
      ensures Plain() && (index != null ==> index.Valid(Order()) && index.held == Plus(old(index.held), more))
    {
      hide Spelled;
      hide Wired;
      hide Preorder;
      hide Upto;
      hide Ids;
      hide AllIds;
      hide Unseen;
      hide IdIndex.Valid;
      if index == null { return; }
      AddSubtree(forest, AllIds(forest.Keys), index, child, 0, Order());
    }

    /** What an insertion does to the order, and to the ids to be registered. */
    lemma Insertion(parent: Node, child: Node, at: nat, root: Node)
      requires Valid() && parent in forest && IsRoot(forest, child) && child != node && parent !in Preorder(forest[child])
      requires IsRoot(forest, root) && parent in Preorder(forest[root]) && at <= |Kids(forest, parent)|
      ensures node in Plant(forest, parent, child, at) && child in Plant(forest, parent, child, at)
      ensures var g, ids := Plant(forest, parent, child, at), AllIds(forest.Keys);
              var more := Ids(ids, Upto(g[child], Room(0)));
              index != null ==>
                && index.Valid(Preorder(g[node]))
                && Ids(ids, Preorder(g[node])) == (if root == node then Plus(index.held, more) else index.held)
                && Unseen(g, index.held, Upto(g[child], Room(0)))
    {
      hide Spelled;
      hide Preorder;
      hide Ids;
      hide Upto;
      hide Plus;
      hide AllIds;
      hide IdIndex.Valid;
      AddedIds(forest, node, parent, child, at, root, AllIds(forest.Keys));
      if index != null { InsertionKeepsIndex(index, forest, node, parent, child, at, AllIds(forest.Keys)); }
    }

    /** Putting a tree in front of `ref`, or last, and its ids into the index. */
    method Insert(parent: Node, child: Node, ref: Node?) returns (ghost at: nat)
      requires Valid() && parent in forest && child in forest && child != node && !child.kind.DocumentNode?
      requires IsRoot(forest, child) && parent !in Preorder(forest[child]) && Depth(forest, parent) + Height(forest[child]) <= MAX_DEPTH
      requires ref != null ==> ref in forest && ref.parent == parent
      modifies `forest, index, forest.Keys`parent, forest.Keys`firstChild, forest.Keys`lastChild
      modifies forest.Keys`prevSibling, forest.Keys`nextSibling
      ensures at <= |Kids(old(forest), parent)| && At(Kids(old(forest), parent), at) == ref
      ensures Valid() && forest == Plant(old(forest), parent, child, at)
    {
      hide Linked;
      hide Wired;
      hide IsRoot;
      hide Shallow;
      hide Depth;
      hide Preorder;
      hide Ids;
      hide Plus;
      hide Unseen;
      hide Upto;
      hide Plant;
      hide AllIds;
      hide IdIndex.Valid;
      ghost var ids := AllIds(forest.Keys);
      var root := RootOf(parent);
      at := Place(forest, parent, ref);
      Insertion(parent, child, at, root);
      ghost var put := Hook(parent, child, ref);
      IdsKept(forest.Keys);
      if root == node {
        SubtreeAdded(child, Ids(ids, Upto(forest[child], Room(0))));
      }
    }

    /** Indexing the document from scratch. */
    method Build()
      requires Valid()
      modifies `index, index
      ensures Valid() && index != null && (index == old(index) || fresh(index))
    {
      hide Linked;
      hide IsRoot;
      hide Preorder;
      hide Ids;
      hide Unseen;
      hide Plus;
      hide Upto;
      hide AllIds;
      hide IdIndex.Valid;
      if index != null {
        index.Clear();
      } else {
        index := new IdIndex();
      }
      WholeDocument(forest, node, AllIds(forest.Keys));
      SubtreeAdded(node, Ids(AllIds(forest.Keys), Upto(forest[node], Room(0))));
    }

    method WriteId(el: Node, value: string)
      requires Plain() && el in forest && el.kind.ElementNode?
      modifies el`id
      ensures Plain() && el.id == value && AllIds(forest.Keys) == Renamed(old(AllIds(forest.Keys)), el, value)
    {
      hide Spelled;
      hide Pointers;
      hide Wired;
      hide IsRoot;
      hide Shallow;
      hide AllIds;
      hide Renamed;
      ghost var names, ids := Names(forest.Keys), AllIds(forest.Keys);
      IdsFromNames(forest.Keys);
      el.id := value;
      PointersKept(forest.Keys);
      IdsRenamed(forest.Keys, names, ids, el, value);
    }

    /** Writing an element's `id`, telling the index before the value is replaced. */
    method SetId(el: Node, value: string)
      requires Valid() && el in forest && el.kind.ElementNode?
      modifies el`id, index
      ensures Valid() && el.id == value
    {
      hide Linked;
      hide Wired;
      hide IsRoot;
      hide Preorder;
      hide Ids;
      hide AllIds;
      hide Renamed;
      hide IdIndex.Valid;
      var root := RootOf(el);
      Renaming(el, root, value);
      if root == node && index != null {
        Reregister(index, el, value, Order());
      }
      WriteId(el, value);
    }

    /** What a new id means for the ids to be registered. */
    lemma Renaming(el: Node, root: Node, value: string)
      requires Valid() && el in forest && el.kind.ElementNode? && IsRoot(forest, root) && el in Preorder(forest[root])
      ensures var ids := AllIds(forest.Keys);
              index != null ==>
                && Ids(Renamed(ids, el, value), Order()) == (if root == node then Renamed(index.held, el, value) else index.held)
                && (root == node ==> CanReregister(index.held, el))
    {
      hide Spelled;
      hide Preorder;
      hide Ids;
      hide AllIds;
      hide Renamed;
      hide CanReregister;
      hide IdIndex.Valid;
      IdsAfterRenaming(forest, node, el, root, value, AllIds(forest.Keys));
      if root == node { FewHeld(forest, node, el, forest.Keys); }
    }
  }

  /** `el` is registered under its id, if it has one, and there is room for another. */
  ghost predicate CanReregister(held: Held, el: Node)
    reads el
  {
    |held - {el}| < COUNT_MASK && if el.id == "" then el !in held else el in held && held[el] == el.id
  }

  lemma RenamedInSteps(held: Held, el: Node, id: string, value: string)
    requires id == "" ==> el !in held
    ensures var h := if id == "" then held else held - {el};
            h == held - {el} && el !in h && Renamed(held, el, value) == if value == "" then h else h[el := value]
  {}

  method Reregister(ix: IdIndex, el: Node, value: string, ghost order: seq<Node>)
    requires ix.Valid(order) && CanReregister(ix.held, el)
    modifies ix
    ensures ix.Valid(order) && ix.held == Renamed(old(ix.held), el, value)
  {
    hide IdIndex.Valid;
    hide Renamed;
    RenamedInSteps(ix.held, el, el.id, value);
    ix.Unregister(el.id, el, order);
    ix.Register(value, el, order);
  }

  lemma RemovalKeepsShape(f: Forest<Node>, doc: Node, c: Node)
    requires Wired(f) && PlainShape(f, doc) && c in f && c != doc
    ensures PlainShape(Detach(f, c), doc) && Detach(f, c).Keys == f.Keys
  {
    hide Wired;
    hide Shallow;
    hide IsRoot;
    RemovalIsPlain(f, doc, c);
    hide Detach;
    assert |Detach(f, c).Keys| == |f.Keys|;
  }

  lemma InsertionKeepsShape(f: Forest<Node>, doc: Node, p: Node, c: Node, at: nat)
    requires Wired(f) && PlainShape(f, doc) && p in f && c in f && IsRoot(f, c) && c != doc && !c.kind.DocumentNode?
    requires at <= |Kids(f, p)| && Depth(f, p) + Height(f[c]) <= MAX_DEPTH
    ensures PlainShape(Plant(f, p, c, at), doc) && Plant(f, p, c, at).Keys == f.Keys
  {
    hide Wired;
    hide Shallow;
    hide IsRoot;
    InsertionKeepsRoots(f, p, c, at);
    InsertionKeepsShallow(f, p, c, at);
    hide Plant;
    assert |Plant(f, p, c, at).Keys| == |f.Keys|;
  }

  lemma InsertionKeepsShallow(f: Forest<Node>, p: Node, c: Node, at: nat)
    requires Wired(f) && Shallow(f) && p in f && c in f && Depth(f, p) + Height(f[c]) <= MAX_DEPTH
    ensures Shallow(Plant(f, p, c, at))
  {
    forall n | n in f ensures Height(Plant(f, p, c, at)[n]) <= MAX_DEPTH { PlantIsShallow(f, n, p, f[c], at); }
  }

  /** The position of `ref` among the children of `p`, or the one behind them. */
  lemma Place(f: Forest<Node>, p: Node, ref: Node?) returns (at: nat)
    requires Linked(f) && p in f && (ref != null ==> ref in f && ref.parent == p)
    ensures at <= |Kids(f, p)| && At(Kids(f, p), at) == ref
    ensures forall i: nat :: i <= |Kids(f, p)| && At(Kids(f, p), i) == ref ==> i == at
  {
    KidsAreApart(f, p, p);
    at := |Kids(f, p)|;
    if ref != null {
      var i := ParentLink(Pointers(f.Keys), f, ref);
      at := i;
    }
  }

  /** Detaching keeps the shape plain. */
  lemma RemovalIsPlain(f: Forest<Node>, doc: Node, c: Node)
    requires Wired(f) && Shallow(f) && c in f && IsRoot(f, doc) && c != doc
    ensures Shallow(Detach(f, c)) && Detach(f, c).Keys == f.Keys
    ensures forall r :: IsRoot(f, r) ==> IsRoot(Detach(f, c), r)
  {
    forall n | n in f ensures Height(Prune(f[n], c)) <= MAX_DEPTH { PruneHeight(f[n], c); }
    hide Prune;
    forall r | IsRoot(f, r) ensures IsRoot(Detach(f, c), r) {
      forall p, i | p in f && 0 <= i < |Detach(f, c)[p].kids| ensures Detach(f, c)[p].kids[i].node != r {
        var j := DetachedKid(f, c, p, i);
      }
    }
  }

  /** The ids a removal leaves, and those it has to take back. */
  lemma RemovedIds(f: Forest<Node>, doc: Node, c: Node, root: Node, ids: Held)
    requires Wired(f) && Shallow(f) && IsRoot(f, doc) && c in f && c != doc && IsRoot(f, root) && c in Preorder(f[root])
    ensures var all, left, gone := Ids(ids, Preorder(f[doc])), Ids(ids, Preorder(Detach(f, c)[doc])), Ids(ids, Upto(Detach(f, c)[c], Room(0)));
            && left == (if root == doc then all - gone.Keys else all)
            && (root == doc ==> gone.Items <= all.Items)
  {
    hide Prune;
    SelfPrune(f, c);
    UptoIsPreorder(f[c], Room(0));
    if c in Preorder(f[doc]) { SameRoot(f, doc, root, c); }
    IdsWithout(f, doc, c, ids);
  }

  lemma RemovalKeepsIndex(ix: IdIndex, f: Forest<Node>, doc: Node, c: Node, ids: Held)
    requires Wired(f) && doc in f && c in f && c != doc
    requires ix.Valid(Preorder(f[doc])) && ix.held == Ids(ids, Preorder(f[doc]))
    ensures ix.Valid(Preorder(Detach(f, c)[doc]))
  {
    var before, after := Preorder(f[doc]), Preorder(Detach(f, c)[doc]);
    forall id | AllIn(Holders(ix.held, id), after)
      ensures First(after, Holders(ix.held, id)) == First(before, Holders(ix.held, id))
    {
      OrderWithout(f, doc, c, Holders(ix.held, id));
    }
    Reordered(ix, before, after);
  }

  /** Inserting keeps all other roots. */
  lemma InsertionKeepsRoots(f: Forest<Node>, p: Node, c: Node, at: nat)
    requires Wired(f) && p in f && IsRoot(f, c) && at <= |Kids(f, p)|
    ensures Plant(f, p, c, at).Keys == f.Keys
    ensures forall r :: IsRoot(f, r) && r != c ==> IsRoot(Plant(f, p, c, at), r)
  {
    hide Graft;
    forall r | IsRoot(f, r) && r != c ensures IsRoot(Plant(f, p, c, at), r) {
      forall q, i: nat | q in f && i < |Plant(f, p, c, at)[q].kids| ensures Plant(f, p, c, at)[q].kids[i].node != r {
        PlantedKid(f, p, c, at, q, i);
      }
    }
  }

  lemma AddedIds(f: Forest<Node>, doc: Node, p: Node, c: Node, at: nat, root: Node, ids: Held)
    requires Wired(f) && Shallow(f) && IsRoot(f, doc) && p in f && IsRoot(f, c) && c != doc && p !in Preorder(f[c])
    requires IsRoot(f, root) && p in Preorder(f[root]) && at <= |Kids(f, p)|
    ensures var g := Plant(f, p, c, at);
            var all, more := Ids(ids, Preorder(f[doc])), Ids(ids, Upto(g[c], Room(0)));
            && Ids(ids, Preorder(g[doc])) == (if root == doc then Plus(all, more) else all)
            && Unseen(g, all, Upto(g[c], Room(0)))
  {
    PlantKeepsWired(f, p, c, at);
    UptoIsPreorder(f[c], Room(0));
    if p in Preorder(f[doc]) { SameRoot(f, doc, root, p); }
    IdsWith(f, doc, p, c, at, ids);
  }

  lemma InsertionKeepsIndex(ix: IdIndex, f: Forest<Node>, doc: Node, p: Node, c: Node, at: nat, ids: Held)
    requires Wired(f) && IsRoot(f, doc) && p in f && IsRoot(f, c) && c != doc
    requires ix.Valid(Preorder(f[doc])) && ix.held == Ids(ids, Preorder(f[doc]))
    ensures ix.Valid(Preorder(Plant(f, p, c, at)[doc]))
  {
    var before, after := Preorder(f[doc]), Preorder(Plant(f, p, c, at)[doc]);
    forall id ensures First(after, Holders(ix.held, id)) == First(before, Holders(ix.held, id)) {
      OrderWith(f, doc, p, c, at, Holders(ix.held, id));
    }
    Reordered(ix, before, after);
  }

  lemma WholeDocument(f: Forest<Node>, doc: Node, ids: Held)
    requires Linked(f) && Shallow(f) && doc in f
    ensures Upto(f[doc], Room(0)) == Preorder(f[doc])
    ensures Unseen(f, map[], Upto(f[doc], Room(0)))
    ensures Plus(map[], Ids(ids, Preorder(f[doc]))) == Ids(ids, Preorder(f[doc]))
  {
    hide Spelled;
    hide Upto;
    UptoIsPreorder(f[doc], Room(0));
    hide Preorder;
    forall x | x in Preorder(f[doc]) ensures x in f { Below(f, doc, x); }
  }

  /** The ids once `el` goes by `value`. */
  ghost function Renamed(ids: Held, el: Node, value: string): Held {
    if value == "" then ids - {el} else ids[el := value]
  }

  lemma IdsAfterRenaming(f: Forest<Node>, doc: Node, el: Node, root: Node, value: string, ids: Held)
    requires Wired(f) && IsRoot(f, doc) && el in f && IsRoot(f, root) && el in Preorder(f[root])
    ensures var order := Preorder(f[doc]);
            && (el in order <==> root == doc)
            && Ids(Renamed(ids, el, value), order) == (if root == doc then Renamed(Ids(ids, order), el, value) else Ids(ids, order))
  {
    if el in Preorder(f[doc]) { SameRoot(f, doc, root, el); }
    hide Wired;
    hide IsRoot;
    RenamedWithin(Preorder(f[doc]), el, value, ids);
  }

  lemma RenamedWithin(order: seq<Node>, el: Node, value: string, ids: Held)
    ensures Ids(Renamed(ids, el, value), order) == if el in order then Renamed(Ids(ids, order), el, value) else Ids(ids, order)
  {}

  lemma FewHeld(f: Forest<Node>, doc: Node, el: Node, ns: set<Node>)
    requires Wired(f) && doc in f && el in Preorder(f[doc]) && el.kind.ElementNode? && |f| <= COUNT_MASK && ns == f.Keys
    ensures CanReregister(Ids(AllIds(ns), Preorder(f[doc])), el)
  {
    Below(f, doc, el);
    var held := Ids(AllIds(ns), Preorder(f[doc])) - {el};
    SubsetSize(held.Keys, f.Keys - {el});
  }

  ghost function Names(ns: set<Node>): map<Node, string>
    reads ns
  {
    map n | n in ns :: n.id
  }

  lemma IdsRenamed(ns: set<Node>, names: map<Node, string>, ids: Held, el: Node, value: string)
    requires el in ns && el.kind.ElementNode? && names.Keys == ns
    requires forall n :: n in ns ==> n.id == if n == el then value else names[n]
    requires ids == map n | n in ns && n.kind.ElementNode? && names[n] != "" :: names[n]
    ensures AllIds(ns) == Renamed(ids, el, value)
  {}

  lemma IdsFromNames(ns: set<Node>)
    ensures AllIds(ns) == map n | n in ns && n.kind.ElementNode? && Names(ns)[n] != "" :: Names(ns)[n]
  {}
}
