/** The bucket of a class or tag index: a list of nodes, sorted only when it is worth it. */
module Buckets {
  import opened Options
  import opened Forest
  import opened ForestOrder
  import opened DomTree
  import opened DomOrder
  import opened Selections

  /** Above this many nodes a bucket gives up its order rather than shift or search. */
  const SCAN_MAX := 64

  ghost function Elements(s: seq<Node>): set<Node> {
    set x | x in s
  }

  ghost predicate Contained(m: set<Node>, order: seq<Node>) {
    forall x :: x in m ==> x in order
  }

  /** A sorted bucket lists its members once each and in order; an unsorted one keeps the set. */
  ghost predicate Fits(nodes: seq<Node>, members: Option<set<Node>>, unsorted: bool, order: seq<Node>) {
    && Distinct(order)
    && if unsorted then members.Some?
       else Distinct(nodes) && InOrder(nodes, order) && (members.Some? ==> members.value == Elements(nodes))
  }

  class Bucket {
    var nodes: seq<Node>
    /** The members as a set, once it is kept; the source's null is `None`. */
    var members: Option<set<Node>>
    var unsorted: bool

    ghost function Members(): set<Node>
      reads this
    {
      if members.Some? then members.value else Elements(nodes)
    }

    /** What never fails: the set is kept where it is read, and only nodes of the forest are listed. */
    ghost predicate Sound(ns: set<Node>)
      reads this
    {
      (unsorted ==> members.Some?) && Elements(nodes) <= ns && Members() <= ns
    }

    /** A set kept beside a sorted list has the same nodes. */
    ghost predicate Tidy()
      reads this
    {
      if unsorted then members.Some? else members.Some? ==> members.value == Elements(nodes)
    }

    ghost predicate Valid(order: seq<Node>)
      reads this
    {
      Fits(nodes, members, unsorted, order)
    }

    /** The list is short enough to shift and search, and there is something to compare with. */
    predicate Searched()
      reads this
    {
      !unsorted && 0 < |nodes| <= SCAN_MAX
    }

    constructor ()
      ensures Sound({}) && Members() == {} && !unsorted && nodes == []
      ensures forall order: seq<Node> :: Distinct(order) ==> Valid(order)
    {
      nodes, members, unsorted := [], None, false;
    }

    method TrackMembers()
      modifies `members
      ensures members == Some(old(Members()))
    {
      if members.Some? { return; }
      var m: set<Node> := {};
      for i := 0 to |nodes|
        invariant m == Elements(nodes[..i])
      {
        m := m + {nodes[i]};
        assert nodes[..i + 1] == nodes[..i] + [nodes[i]];
      }
      assert nodes[..|nodes|] == nodes;
      members := Some(m);
    }

    method Push(node: Node)
      modifies `nodes, `members
      ensures nodes == old(nodes) + [node]
      ensures members == if old(members).Some? then Some(old(members).value + {node}) else None
    {
      nodes := nodes + [node];
      if members.Some? { members := Some(members.value + {node}); }
    }

    /** `node` comes after all that are listed. */
    method PushLast(ghost ns: set<Node>, node: Node, ghost order: seq<Node>)
      requires Sound(ns) && !unsorted && node in ns && node in order
      requires nodes != [] && nodes[|nodes| - 1] in order ==> Rank(order, node, nodes[|nodes| - 1]) == 1
      modifies `nodes, `members
      ensures Sound(ns) && nodes == old(nodes) + [node]
      ensures old(Tidy()) ==> Tidy() && Members() == old(Members()) + {node}
      ensures old(Valid(order) && Contained(Members(), order)) ==> Valid(order) && Members() == old(Members()) + {node}
    {
      if Valid(order) && Contained(Members(), order) {
        if nodes != [] { assert nodes[|nodes| - 1] in Elements(nodes); }
        AfterLast(nodes, order, node);
        AppendLast(nodes, order, node);
      }
      Push(node);
    }

    method PushUnordered(ghost ns: set<Node>, node: Node, ghost order: seq<Node>)
      requires Sound(ns) && unsorted && node in ns
      modifies `nodes, `members
      ensures Sound(ns) && Tidy() && Members() == old(Members()) + {node}
      ensures old(Valid(order)) ==> Valid(order)
    {
      if node !in members.value {
        Push(node);
      }
    }

    /** The set takes over from a long list. */
    method GiveUpOrder(ghost ns: set<Node>, node: Node, ghost order: seq<Node>)
      requires Sound(ns) && !unsorted && node in ns
      modifies this
      ensures Sound(ns) && node in Members()
      ensures old(Tidy()) ==> Tidy() && Members() == old(Members()) + {node}
      ensures old(Valid(order)) ==> Valid(order) && Members() == old(Members()) + {node}
    {
      TrackMembers();
      if node !in members.value {
        Push(node);
        unsorted := true;
      }
    }

    /** While an index is being built, nodes arrive in order, one of them possibly twice running. */
    method AddBuilding(node: Node, ghost order: seq<Node>)
      requires Valid(order) && !unsorted && node in order
      requires forall x :: x in nodes ==> (x == node && x == nodes[|nodes| - 1]) || Before(order, x, node)
      modifies this
      ensures Valid(order) && !unsorted && Members() == old(Members()) + {node}
      ensures nodes[|nodes| - 1] == node
    {
      if |nodes| == 0 || nodes[|nodes| - 1] != node {
        AppendLast(nodes, order, node);
        Push(node);
      }
    }

    /** `root` is that of the document, or of another tree. */
    method Add(ghost f: Forest<Node>, ghost root: Node, node: Node)
      requires Linked(f) && Shallow(f) && IsRoot(f, root) && node in Preorder(f[root])
      requires Sound(f.Keys)
      modifies this
      ensures Sound(f.Keys)
      ensures old(!unsorted && nodes == []) ==> nodes == [node] && !unsorted
      ensures old(Tidy()) ==> Tidy() && old(Members()) <= Members() && (!old(Searched()) ==> node in Members())
      ensures old(Searched()) && (forall x :: x in old(nodes) ==> x !in Preorder(f[root])) ==>
                nodes == old(nodes) && unsorted == old(unsorted) && members == old(members)
      ensures old(Valid(Preorder(f[root])) && Contained(Members(), Preorder(f[root]))) ==>
                Valid(Preorder(f[root])) && Members() == old(Members()) + {node}
    {
      hide Linked;
      hide Preorder;
      hide Fits;
      ghost var order := Preorder(f[root]);
      TopAndBelow(f, root, node);
      if unsorted {
        PushUnordered(f.Keys, node, order);
        return;
      }
      var last := -1;
      if |nodes| > 0 {
        assert nodes[|nodes| - 1] in Elements(nodes);
        last := DocumentOrderCmp(f, root, node, nodes[|nodes| - 1]);
      }
      if |nodes| == 0 || last > 0 {
        PushLast(f.Keys, node, order);
        return;
      }
      if |nodes| > SCAN_MAX {
        GiveUpOrder(f.Keys, node, order);
        return;
      }
      InsertSorted(f, root, node);
    }

    /** Binary search for the place of `node`. */
    method InsertSorted(ghost f: Forest<Node>, ghost root: Node, node: Node)
      requires Linked(f) && Shallow(f) && IsRoot(f, root) && node in Preorder(f[root])
      requires Sound(f.Keys) && !unsorted && nodes != []
      modifies this
      ensures Sound(f.Keys) && (old(Tidy()) ==> Tidy() && old(Members()) <= Members())
      ensures (forall x :: x in old(nodes) ==> x !in Preorder(f[root])) ==>
                nodes == old(nodes) && unsorted == old(unsorted) && members == old(members)
      ensures old(Valid(Preorder(f[root])) && Contained(Members(), Preorder(f[root]))) ==>
                Valid(Preorder(f[root])) && Members() == old(Members()) + {node}
    {
      hide Linked;
      hide Preorder;
      hide Fits;
      ghost var order := Preorder(f[root]);
      ghost var kept := Valid(order) && Contained(Members(), order);
      TopAndBelow(f, root, node);
      var lo, hi := 0, |nodes|;
      while lo < hi
        invariant 0 <= lo <= hi <= |nodes|
        invariant (forall x :: x in nodes ==> x !in order) ==> lo == 0 && hi == |nodes|
        invariant kept ==> forall k :: 0 <= k < lo ==> Before(order, nodes[k], node)
        invariant kept ==> forall k :: hi <= k < |nodes| ==> Before(order, node, nodes[k])
        modifies {}
      {
        var mid := (lo + hi) / 2;
        assert nodes[mid] in Elements(nodes);
        var c := DocumentOrderCmp(f, root, node, nodes[mid]);
        if c == 0 {
          if kept { ListedIsMember(order, mid); }
          return;
        }
        if kept { HalvesOfValid(order, node, mid); }
        if c < 0 {
          hi := mid;
        } else {
          lo := mid + 1;
        }
      }
      PushAt(f.Keys, node, lo, order);
    }

    lemma ListedIsMember(order: seq<Node>, mid: nat)
      requires Valid(order) && !unsorted && mid < |nodes|
      ensures nodes[mid] in Members() && (Contained(Members(), order) ==> nodes[mid] in order)
    {
      assert nodes[mid] in Elements(nodes);
    }

    lemma HalvesOfValid(order: seq<Node>, node: Node, mid: nat)
      requires Valid(order) && !unsorted && Contained(Members(), order) && node in order && mid < |nodes| && node != nodes[mid]
      ensures nodes[mid] in order
      ensures Rank(order, node, nodes[mid]) == -1 ==> forall k :: mid <= k < |nodes| ==> Before(order, node, nodes[k])
      ensures Rank(order, node, nodes[mid]) == 1 ==> forall k :: 0 <= k <= mid ==> Before(order, nodes[k], node)
    {
      assert nodes[mid] in Elements(nodes);
      Halves(nodes, order, node, mid);
    }

    method PushAt(ghost ns: set<Node>, node: Node, at: nat, ghost order: seq<Node>)
      requires Sound(ns) && !unsorted && node in ns && at <= |nodes|
      requires Valid(order) && Contained(Members(), order) ==>
                 && (forall k :: 0 <= k < at ==> Before(order, nodes[k], node))
                 && forall k :: at <= k < |nodes| ==> Before(order, node, nodes[k])
      modifies `nodes, `members
      ensures Sound(ns)
      ensures old(Tidy()) ==> Tidy() && Members() == old(Members()) + {node}
      ensures old(Valid(order) && Contained(Members(), order)) ==> Valid(order) && Members() == old(Members()) + {node}
    {
      if Valid(order) && Contained(Members(), order) { InsertAt(nodes, order, node, at); }
      InsertElements(nodes, node, at);
      nodes := nodes[..at] + [node] + nodes[at..];
      if members.Some? { members := Some(members.value + {node}); }
    }

    method Remove(node: Node, ghost ns: set<Node>, ghost order: seq<Node>)
      requires Sound(ns)
      modifies this
      ensures Sound(ns)
      ensures old(Valid(order)) ==> Valid(order) && Members() == old(Members()) - {node}
      ensures old(Valid(order)) && node !in old(Members()) ==> nodes == old(nodes) && unsorted == old(unsorted)
    {
      if !unsorted && |nodes| > 0 && nodes[|nodes| - 1] == node {
        if Valid(order) { DropAt(nodes, order, |nodes| - 1); }
        nodes := nodes[..|nodes| - 1] + nodes[|nodes|..];
        if members.Some? { members := Some(members.value - {node}); }
        return;
      }
      if !unsorted && |nodes| <= SCAN_MAX {
        var k := 0;
        while k < |nodes| && nodes[k] != node
          invariant k <= |nodes| && forall j :: 0 <= j < k ==> nodes[j] != node
        {
          k := k + 1;
        }
        if k < |nodes| {
          if Valid(order) { DropAt(nodes, order, k); }
          nodes := nodes[..k] + nodes[k + 1..];
          if members.Some? { members := Some(members.value - {node}); }
        }
        return;
      }
      TrackMembers();
      if node in members.value {
        members := Some(members.value - {node});
        unsorted := true;
      }
    }
  }

  // ----- lists in order -----

  lemma AppendLast(s: seq<Node>, order: seq<Node>, x: Node)
    requires Distinct(s) && Distinct(order) && InOrder(s, order)
    requires x !in s && forall y :: y in s ==> Before(order, y, x)
    ensures Distinct(s + [x]) && InOrder(s + [x], order) && Elements(s + [x]) == Elements(s) + {x}
  {}

  lemma AfterLast(s: seq<Node>, order: seq<Node>, x: Node)
    requires Distinct(s) && Distinct(order) && InOrder(s, order) && Contained(Elements(s), order) && x in order
    requires s != [] ==> Rank(order, x, s[|s| - 1]) == 1
    ensures x !in s && forall y :: y in s ==> Before(order, y, x)
  {
    if s != [] {
      var l := s[|s| - 1];
      assert l in Elements(s);
      BeforeIsTotal(order, x, l);
      forall k | 0 <= k < |s| ensures s[k] != x && Before(order, s[k], x) {
        assert s[k] in Elements(s);
        if k < |s| - 1 {
          assert Before(order, s[k], l);
          BeforeIsTransitive(order, s[k], l, x);
        }
        BeforeIsTotal(order, x, x);
      }
    }
  }

  /** One comparison decides a half of the list. */
  lemma Halves(s: seq<Node>, order: seq<Node>, x: Node, mid: nat)
    requires Distinct(s) && Distinct(order) && InOrder(s, order) && Contained(Elements(s), order) && x in order
    requires mid < |s| && x != s[mid]
    ensures Rank(order, x, s[mid]) == -1 ==> forall k :: mid <= k < |s| ==> Before(order, x, s[k])
    ensures Rank(order, x, s[mid]) == 1 ==> forall k :: 0 <= k <= mid ==> Before(order, s[k], x)
  {
    assert s[mid] in Elements(s);
    BeforeIsTotal(order, x, s[mid]);
    forall k | 0 <= k < |s| && k != mid
      ensures s[k] in order && if k < mid then Before(order, s[k], s[mid]) else Before(order, s[mid], s[k])
    {
      assert s[k] in Elements(s);
    }
    if Rank(order, x, s[mid]) == -1 {
      forall k | mid < k < |s| ensures Before(order, x, s[k]) { BeforeIsTransitive(order, x, s[mid], s[k]); }
    } else {
      forall k | 0 <= k < mid ensures Before(order, s[k], x) { BeforeIsTransitive(order, s[k], s[mid], x); }
    }
  }

  function Inserted(s: seq<Node>, x: Node, at: nat): (r: seq<Node>)
    requires at <= |s|
    ensures |r| == |s| + 1
    ensures forall k :: 0 <= k < |r| ==> r[k] == if k < at then s[k] else if k == at then x else s[k - 1]
  {
    s[..at] + [x] + s[at..]
  }

  lemma InsertAt(s: seq<Node>, order: seq<Node>, x: Node, at: nat)
    requires Distinct(s) && Distinct(order) && InOrder(s, order) && at <= |s|
    requires forall k :: 0 <= k < at ==> Before(order, s[k], x)
    requires forall k :: at <= k < |s| ==> Before(order, x, s[k])
    ensures var r := s[..at] + [x] + s[at..];
            Distinct(r) && InOrder(r, order) && Elements(r) == Elements(s) + {x}
  {
    hide Before;
    var r := Inserted(s, x, at);
    forall k | 0 <= k < |s| ensures s[k] != x {
      if s[k] == x { NotBeforeItself(order, x); }
    }
    forall y | y in Elements(s) + {x} ensures y in r {
      if y in s {
        var k :| 0 <= k < |s| && s[k] == y;
        assert r[if k < at then k else k + 1] == y;
      } else {
        assert r[at] == x;
      }
    }
  }

  lemma InsertElements(s: seq<Node>, x: Node, at: nat)
    requires at <= |s|
    ensures Elements(s[..at] + [x] + s[at..]) == Elements(s) + {x}
  {
    assert s == s[..at] + s[at..];
  }

  lemma TopAndBelow(f: Forest<Node>, root: Node, n: Node)
    requires Linked(f) && root in f && n in Preorder(f[root])
    ensures n in f && Distinct(Preorder(f[root]))
  {
    Below(f, root, n);
    TreeDistinct(f, root);
  }

  lemma NotBeforeItself(order: seq<Node>, x: Node)
    requires Distinct(order)
    ensures !Before(order, x, x)
  {}

  lemma DropAt(s: seq<Node>, order: seq<Node>, at: nat)
    requires Distinct(s) && InOrder(s, order) && at < |s|
    ensures var r := s[..at] + s[at + 1..];
            Distinct(r) && InOrder(r, order) && Elements(r) == Elements(s) - {s[at]}
  {
    var r := s[..at] + s[at + 1..];
    assert forall k :: 0 <= k < |r| ==> r[k] == s[if k < at then k else k + 1];
    forall y | y in Elements(s) - {s[at]} ensures y in r {
      var k :| 0 <= k < |s| && s[k] == y;
      assert r[if k < at then k else k - 1] == y;
    }
  }
}
