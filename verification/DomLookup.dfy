/** Looking an id up, by index or by walk. */
module DomLookup {
  import opened Options
  import opened Forest
  import opened ForestOrder
  import opened DomTree
  import opened DomOrder
  import opened IdIndex
  import opened IdWalks
  import opened Dom

  method Contains(ghost f: Forest<Node>, ancestor: Node, node: Node) returns (r: bool)
    requires Linked(f) && Shallow(f) && ancestor in f && node in f
    ensures r == (node in Preorder(f[ancestor]))
  {
    var p: Node? := node;
    while p != null
      invariant p != null ==> p in f && node in Preorder(f[p])
      invariant node in Preorder(f[ancestor]) ==> p != null && p in Preorder(f[ancestor])
      decreases if p == null then 0 else Depth(f, p)
    {
      if p == ancestor { return true; }
      ghost var i := Upwards(f, p);
      if p.parent != null { KidInPreorder(f[p.parent], i, node); }
      StepUp(f, ancestor, p, i);
      p := p.parent;
    }
    r := false;
  }

  /** Below `a` but not `a` itself, there is a parent, and it is below `a` too. */
  lemma StepUp(f: Forest<Node>, a: Node, p: Node, i: int)
    requires Linked(f) && Shallow(f) && a in f && p in f && p != a
    requires p.parent != null ==> IsKid(f, p.parent, i, p)
    requires p.parent == null ==> IsRoot(f, p)
    ensures p in Preorder(f[a]) ==> p.parent != null && p.parent in Preorder(f[a])
  {
    if p in Preorder(f[a]) {
      RootIsOnTop(f, a, p);
      ParentBelow(f, a, p.parent, i, p);
    }
  }

  /** What a search for `id` under `root` must return. */
  ghost function Answer(d: Document, root: Node, id: string): Option<Node>
    reads d, d.forest.Keys
    requires root in d.forest
  {
    if id == "" then None else First(Preorder(d.forest[root]), Holders(AllIds(d.forest.Keys), id))
  }

  function Result(r: Node?): Option<Node> {
    if r == null then None else Some(r)
  }

  // ----- what the index knows -----

  lemma RegisteredFirst(ids: Held, order: seq<Node>, id: string, s: seq<Node>)
    requires forall x :: x in s ==> x in order
    ensures First(s, Holders(Ids(ids, order), id)) == First(s, Holders(ids, id))
    decreases |s|
  {
    if s != [] { RegisteredFirst(ids, order, id, s[1..]); }
  }

  /** With one holder in the whole order, it is first in any part that has it. */
  lemma OnlyHolder(entry: nat, hit: Node?, hs: set<Node>, order: seq<Node>, s: seq<Node>)
    requires Says(entry, hit, hs, order) && CountOf(entry) <= 1 && hit != null && hit in s
    ensures First(s, hs) == Some(hit)
  {
    assert hs == {hit} by {
      forall x | x in hs ensures x == hit {
        if x != hit {
          SubsetSize({x, hit}, hs);
        }
      }
    }
    FirstOfOne(s, hs, hit);
  }

  /** A recorded first holder is first; no entry means no holder. */
  lemma Recorded(entry: nat, hit: Node?, hs: set<Node>, order: seq<Node>)
    requires Says(entry, hit, hs, order) && AllIn(hs, order)
    ensures Known(entry) ==> First(order, hs) == Result(hit) && hit != null
    ensures entry == 0 ==> First(order, hs) == None
  {}

  /** What a walk of the whole order found may be recorded as known. */
  lemma Repaired(entry: nat, hit: Node?, hs: set<Node>, order: seq<Node>, found: Node?)
    requires Says(entry, hit, hs, order) && AllIn(hs, order) && First(order, hs) == Result(found)
    ensures Says(if CountOf(entry) > 1 then CountOf(entry) + FIRST_KNOWN else entry, found, hs, order)
  {
    if found == null {
      assert hs == {};
    }
  }

  lemma Pointed(entry: nat, hit: Node?, hs: set<Node>, order: seq<Node>, found: Node)
    requires Says(entry, hit, hs, order) && found in hs
    ensures Says(CountOf(entry), found, hs, order)
  {}

  lemma TopOfOrder(d: Document)
    requires d.Plain()
    ensures d.node in d.Order()
  {
    assert d.forest[d.node].node == d.node;
  }

  /** What the document's index says of `id`, and what that means for a search under `root`. */
  lemma Consulted(d: Document, root: Node, id: string)
    requires d.Valid() && d.index != null && root in d.Order() && id != ""
    ensures var ids := AllIds(d.forest.Keys);
            var hs := Holders(Ids(ids, d.Order()), id);
            && d.index.held == Ids(ids, d.Order()) && AllIn(hs, d.Order()) && root in d.forest
            && Says(d.index.Entry(id), d.index.Hit(id), hs, d.Order())
            && (d.index.Hit(id) != null ==> d.index.Hit(id) in d.forest && d.index.Hit(id).id == id)
            && Answer(d, root, id) == First(Preorder(d.forest[root]), hs)
  {
    Below(d.forest, d.node, root);
    hide Linked;
    RegisteredFirst(AllIds(d.forest.Keys), d.Order(), id, Preorder(d.forest[root]));
    if d.index.Hit(id) != null { Below(d.forest, d.node, d.index.Hit(id)); }
  }

  method HitValid(d: Document, root: Node, hit: Node?, id: string) returns (ok: bool)
    requires d.Plain() && root in d.forest && (hit != null ==> hit in d.forest)
    ensures ok == (hit != null && hit.id == id && hit in Preorder(d.forest[root]))
  {
    hide Spelled;
    if hit == null { return false; }
    if hit.id != id { return false; }
    ok := Contains(d.forest, root, hit);
  }

  /** The walk from `root`. */
  method Walk(d: Document, root: Node, id: string) returns (r: Node?)
    requires d.Plain() && root in d.forest && id != ""
    ensures Result(r) == Answer(d, root, id)
  {
    hide Spelled;
    hide Preorder;
    hide Upto;
    hide AllIds;
    hide Holders;
    hide First;
    UptoIsPreorder(d.forest[root], Room(0));
    r := FindByIdDepth(d.forest, root, id, 0);
  }

  method FindFromDocument(d: Document, id: string) returns (r: Node?)
    requires d.Valid() && d.index != null && id != ""
    modifies d.index
    ensures d.Valid() && Result(r) == Answer(d, d.node, id)
  {
    hide Linked;
    hide AllIds;
    hide Ids;
    hide Holders;
    hide Says;
    hide First;
    TopOfOrder(d);
    Consulted(d, d.node, id);
    ghost var hs := Holders(Ids(AllIds(d.forest.Keys), d.Order()), id);
    var hit := d.index.Hit(id);
    var entry := d.index.Entry(id);
    Recorded(entry, hit, hs, d.Order());
    var valid := HitValid(d, d.node, hit, id);
    if Known(entry) {
      if hit == null || valid { return hit; }
    } else if CountOf(entry) <= 1 && valid {
      OnlyHolder(entry, hit, hs, d.Order(), d.Order());
      return hit;
    }
    if hit == null && entry == 0 { return null; }
    r := Walk(d, d.node, id);
    Repaired(entry, hit, hs, d.Order(), r);
    d.index.Repair(id, r);
    forall other ensures Says(d.index.Entry(other), d.index.Hit(other), Holders(d.index.held, other), d.Order()) {
      assert old(Says(d.index.Entry(other), d.index.Hit(other), Holders(d.index.held, other), d.Order()));
    }
  }


  method FindFromBelow(d: Document, root: Node, id: string) returns (r: Node?)
    requires d.Valid() && d.index != null && root in d.Order() && id != ""
    modifies d.index
    ensures d.Valid() && root in d.forest && Result(r) == Answer(d, root, id)
  {
    hide Linked;
    hide AllIds;
    hide Ids;
    hide Holders;
    hide Says;
    hide First;
    Consulted(d, root, id);
    ghost var hs := Holders(Ids(AllIds(d.forest.Keys), d.Order()), id);
    var hit := d.index.Hit(id);
    var entry := d.index.Entry(id);
    var valid := HitValid(d, root, hit, id);
    if CountOf(entry) <= 1 && valid {
      OnlyHolder(entry, hit, hs, d.Order(), Preorder(d.forest[root]));
      return hit;
    }
    r := Walk(d, root, id);
    if r != null {
      Pointed(entry, hit, hs, d.Order(), r);
      d.index.Point(id, r);
      forall other ensures Says(d.index.Entry(other), d.index.Hit(other), Holders(d.index.held, other), d.Order()) {
        assert old(Says(d.index.Entry(other), d.index.Hit(other), Holders(d.index.held, other), d.Order()));
      }
    }
  }

  /** The index changes nothing: a search returns what a walk from `root` returns. */
  method FindById(d: Document, root: Node, id: string) returns (r: Node?)
    requires d.Valid() && root in d.forest
    modifies d.index
    ensures d.Valid() && Result(r) == Answer(d, root, id)
  {
    hide Linked;
    hide Wired;
    hide Preorder;
    hide First;
    hide AllIds;
    hide Holders;
    hide Document.Indexed;
    if id == "" { return null; }
    if root == d.node && d.index != null {
      r := FindFromDocument(d, id);
      return;
    }
    var top := Top(d, root);
    if top == d.node && top != root && d.index != null {
      r := FindFromBelow(d, root, id);
      return;
    }
    r := Walk(d, root, id);
  }

  /** The nearest document above, or the root of the tree: in a plain tree they are the same. */
  method Top(d: Document, n: Node) returns (r: Node)
    requires d.Plain() && n in d.forest
    ensures IsRoot(d.forest, r) && n in Preorder(d.forest[r])
  {
    hide Preorder;
    r := n;
    while r.parent != null && !r.kind.DocumentNode?
      invariant r in d.forest && n in Preorder(d.forest[r])
      decreases Depth(d.forest, r)
    {
      ghost var i := Upwards(d.forest, r);
      KidInPreorder(d.forest[r.parent], i, n);
      r := r.parent;
    }
    ghost var i := Upwards(d.forest, r);
  }
}
