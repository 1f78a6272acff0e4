/** The id index of a document: one node per id, and a packed occurrence count. */
module IdIndex {
  import opened Options
  import opened ForestOrder
  import opened DomTree

  /** Bit 31 of a packed entry; the bits below it count the occurrences. */
  const FIRST_KNOWN := 0x8000_0000
  const COUNT_MASK := 0x7fff_ffff

  function CountOf(entry: nat): nat { entry % FIRST_KNOWN }

  predicate Known(entry: nat) { entry >= FIRST_KNOWN }

  /** The nodes registered, each with the id it was registered under. */
  type Held = map<Node, string>

  ghost function Holders(held: Held, id: string): set<Node> {
    set n | n in held && held[n] == id
  }

  lemma HoldersAdd(held: Held, n: Node, id: string, other: string)
    requires n !in held
    ensures Holders(held[n := id], other) == if other == id then Holders(held, id) + {n} else Holders(held, other)
  {}

  lemma HoldersDrop(held: Held, n: Node, other: string)
    requires n in held
    ensures Holders(held - {n}, other) == if other == held[n] then Holders(held, other) - {n} else Holders(held, other)
  {}

  /** What the index says of one id, `hs` being the nodes registered under it: the count is
      exact, an indexed node is a holder, and a known first one is first in `order`, as long
      as `order` has all holders. */
  ghost predicate Says(entry: nat, hit: Node?, hs: set<Node>, order: seq<Node>) {
    && entry < 2 * FIRST_KNOWN && CountOf(entry) == |hs| && (hs == {} ==> entry == 0)
    && (hit != null ==> hit in hs)
    && (Known(entry) && (forall n :: n in hs ==> n in order) ==> hit != null && First(order, hs) == Some(hit))
  }

  lemma SaysOneMore(entry: nat, hit: Node?, hs: set<Node>, order: seq<Node>, n: Node)
    requires Says(entry, hit, hs, order) && n !in hs && |hs| < COUNT_MASK
    ensures Says(CountOf(entry) + 1, if hit != null then hit else n, hs + {n}, order)
  {}

  lemma SaysOneLess(entry: nat, hit: Node?, hs: set<Node>, order: seq<Node>, n: Node)
    requires Says(entry, hit, hs, order) && n in hs
    ensures Says(if CountOf(entry) <= 1 then 0 else CountOf(entry) - 1, if hit == n then null else hit, hs - {n}, order)
  {
    assert |hs - {n}| == |hs| - 1;
  }

  class IdIndex {
    var index: map<string, Node>
    var counts: map<string, nat>
    ghost var held: Held

    /** The packed count and flag of `id`; 0 when it does not occur. */
    function Entry(id: string): nat
      reads `counts
    {
      if id in counts then counts[id] else 0
    }

    function Hit(id: string): Node?
      reads `index
    {
      if id in index then index[id] else null
    }

    ghost predicate Valid(order: seq<Node>)
      reads this
    {
      forall id :: Says(Entry(id), Hit(id), Holders(held, id), order)
    }

    constructor ()
      ensures held == map[] && index == map[] && counts == map[]
      ensures forall order :: Valid(order)
    {
      index, counts, held := map[], map[], map[];
    }

    method Clear()
      modifies this
      ensures held == map[] && forall order :: Valid(order)
    {
      index, counts, held := map[], map[], map[];
    }

    method ForgetFirst(id: string)
      modifies `counts
      ensures Entry(id) == CountOf(old(Entry(id)))
      ensures forall other :: other != id ==> Entry(other) == old(Entry(other))
    {
      var entry := Entry(id);
      if Known(entry) {
        counts := counts[id := CountOf(entry)];
      }
    }

    method Count(id: string, delta: int)
      modifies `counts
      ensures var cur := CountOf(old(Entry(id)));
              Entry(id) == if delta > 0 then cur + 1 else if cur <= 1 then 0 else cur - 1
      ensures forall other :: other != id ==> Entry(other) == old(Entry(other))
    {
      var cur := CountOf(Entry(id));
      if delta > 0 {
        counts := counts[id := cur + 1];
      } else if cur <= 1 {
        counts := counts - {id};
      } else {
        counts := counts[id := cur - 1];
      }
    }

    /** Recording the outcome of a walk over the whole document. */
    method Repair(id: string, found: Node?)
      modifies this
      ensures held == old(held) && Hit(id) == found
      ensures Entry(id) == if CountOf(old(Entry(id))) > 1 then CountOf(old(Entry(id))) + FIRST_KNOWN else old(Entry(id))
      ensures forall other :: other != id ==> Hit(other) == old(Hit(other)) && Entry(other) == old(Entry(other))
    {
      var entry := Entry(id);
      if found != null {
        index := index[id := found];
      } else if id in index {
        index := index - {id};
      }
      if CountOf(entry) > 1 {
        counts := counts[id := CountOf(entry) + FIRST_KNOWN];
      }
    }

    /** Recording a holder that need not be the first one. */
    method Point(id: string, found: Node)
      modifies this
      ensures held == old(held) && Hit(id) == found && Entry(id) == CountOf(old(Entry(id)))
      ensures forall other :: other != id ==> Hit(other) == old(Hit(other)) && Entry(other) == old(Entry(other))
    {
      index := index[id := found];
      ForgetFirst(id);
    }

    method Register(id: string, node: Node, ghost order: seq<Node>)
      requires Valid(order) && node !in held && |held| < COUNT_MASK
      modifies this
      ensures Valid(order)
      ensures held == if id == "" then old(held) else old(held)[node := id]
    {
      hide Says;
      hide Holders;
      if id == "" { return; }
      SaysOneMore(Entry(id), Hit(id), Holders(held, id), order, node) by { HoldersFew(held, id, node); }
      Count(id, 1);
      if id !in index {
        index := index[id := node];
      }
      held := held[node := id];
      forall other ensures Says(Entry(other), Hit(other), Holders(held, other), order) {
        HoldersAdd(old(held), node, id, other);
        assert other != id ==> Hit(other) == old(Hit(other)) && old(Says(Entry(other), Hit(other), Holders(held, other), order));
      }
    }

    method Unregister(id: string, node: Node, ghost order: seq<Node>)
      requires Valid(order)
      requires id != "" ==> node in held && held[node] == id
      modifies this
      ensures Valid(order)
      ensures held == if id == "" then old(held) else old(held) - {node}
    {
      hide Says;
      hide Holders;
      if id == "" { return; }
      SaysOneLess(Entry(id), Hit(id), Holders(held, id), order, node) by { HoldersHas(held, id, node); }
      Count(id, -1);
      if id in index && index[id] == node {
        index := index - {id};
      }
      held := held - {node};
      forall other ensures Says(Entry(other), Hit(other), Holders(held, other), order) {
        HoldersDrop(old(held), node, other);
        assert other != id ==> Hit(other) == old(Hit(other)) && old(Says(Entry(other), Hit(other), Holders(held, other), order));
      }
    }
  }

  lemma HoldersHas(held: Held, id: string, n: Node)
    ensures n in Holders(held, id) <==> n in held && held[n] == id
  {}

  lemma HoldersFew(held: Held, id: string, n: Node)
    requires n !in held
    ensures |Holders(held, id)| <= |held| && n !in Holders(held, id)
  {
    SubsetSize(Holders(held, id), held.Keys);
  }

  lemma {:induction false} SubsetSize<T>(a: set<T>, b: set<T>)
    requires a <= b
    ensures |a| <= |b|
    decreases a
  {
    if x :| x in a {
      SubsetSize(a - {x}, b - {x});
    }
  }
}
