/** ResponseCache as a mutable object: a linked list of entries addressed by node, a vector
    of iterators indexed by cache bit, and a name-to-bit map. Its abstract value is the
    `Lru` of module LruCache together with the parameters kept for each name. */
module ResponseCache {
  import opened Messages
  import opened LruCache
  import opened Protocol
  import Fusion
  import Recency

  type Node = int
  type Nodes = map<Node, (Response, Params)>

  /** The iterator past the end of the list. */
  const END: Node := -1

  /** The responses of a list of nodes, in list order. */
  ghost function OrderOf(list: seq<Node>, nodes: Nodes): (order: seq<Response>)
    requires forall i :: 0 <= i < |list| ==> list[i] in nodes
    ensures |order| == |list| && forall i :: 0 <= i < |list| ==> order[i] == nodes[list[i]].0
  {
    seq(|list|, i requires 0 <= i < |list| => nodes[list[i]].0)
  }

  ghost function SlotsOf(iters: seq<Node>, nodes: Nodes): (slots: seq<Option<string>>)
    ensures |slots| == |iters|
    ensures forall b :: 0 <= b < |iters| ==>
              slots[b] == if iters[b] in nodes then Some(NameOf(nodes[iters[b]].0)) else None
  {
    seq(|iters|, b requires 0 <= b < |iters| =>
      if iters[b] in nodes then Some(NameOf(nodes[iters[b]].0)) else None)
  }

  /** Place of a node in the list. */
  function PlaceOf(list: seq<Node>, id: Node): (i: nat)
    requires id in list
    ensures i < |list| && list[i] == id
  {
    if list[0] == id then 0 else 1 + PlaceOf(list[1..], id)
  }

  /** The list without a node. */
  function Unlink(list: seq<Node>, id: Node): seq<Node>
    requires id in list
  {
    var i := PlaceOf(list, id);
    list[..i] + list[i + 1..]
  }

  lemma {:induction false} UnlinkAt(list: seq<Node>, i: nat)
    requires i < |list| && Distinct(list)
    ensures PlaceOf(list, list[i]) == i
    ensures forall id :: id in Unlink(list, list[i]) <==> id in list && id != list[i]
    ensures Distinct(Unlink(list, list[i]))
  {
    var rest := Unlink(list, list[i]);
    var p := PlaceOf(list, list[i]);
    assert p == i;
    forall id | id in list && id != list[i] ensures id in rest {
      var j :| 0 <= j < |list| && list[j] == id;
      assert rest[if j < i then j else j - 1] == id;
    }
    forall j | 0 <= j < |rest| ensures rest[j] == list[if j < i then j else j + 1] {}
  }

  ghost predicate LinkedList(list: seq<Node>, nodes: Nodes, nextNode: Node, iters: seq<Node>) {
    && 0 <= nextNode && Distinct(list)
    && (forall i :: 0 <= i < |list| ==> list[i] in nodes)
    && (forall id :: id in nodes ==> id in list && 0 <= id < nextNode)
    && (forall b :: 0 <= b < |iters| ==> iters[b] == END || iters[b] in nodes)
  }

  lemma {:induction false} PushFront(list: seq<Node>, id: Node)
    requires Distinct(list) && id !in list
    ensures Distinct([id] + list) && forall x :: x in [id] + list <==> x == id || x in list
  {
  }

  /** The parameters kept for each cached name. */
  ghost function KeptOf(list: seq<Node>, nodes: Nodes): (ps: map<string, Params>)
    requires forall i :: 0 <= i < |list| ==> list[i] in nodes
    ensures ps.Keys == NameSet(OrderOf(list, nodes))
  {
    HasIffNamed(OrderOf(list, nodes));
    map n | n in NameSet(OrderOf(list, nodes)) :: nodes[list[IndexOf(OrderOf(list, nodes), n)]].1
  }

  lemma {:induction false} KeptAt(list: seq<Node>, nodes: Nodes, i: nat)
    requires forall j :: 0 <= j < |list| ==> list[j] in nodes
    requires i < |list| && DistinctNames(OrderOf(list, nodes))
    ensures var n := NameOf(nodes[list[i]].0); n in KeptOf(list, nodes) && KeptOf(list, nodes)[n] == nodes[list[i]].1
  {
    IndexOfMember(OrderOf(list, nodes), i);
    assert OrderOf(list, nodes)[i] in OrderOf(list, nodes);
  }

  lemma {:induction false} KeptEntry(list: seq<Node>, nodes: Nodes, id: Node)
    requires forall j :: 0 <= j < |list| ==> list[j] in nodes
    requires id in list && DistinctNames(OrderOf(list, nodes))
    ensures var n := NameOf(nodes[id].0); n in KeptOf(list, nodes) && KeptOf(list, nodes)[n] == nodes[id].1
  {
    KeptAt(list, nodes, PlaceOf(list, id));
  }

  lemma {:induction false} SomeNode(list: seq<Node>, nodes: Nodes, n: string) returns (id: Node)
    requires forall j :: 0 <= j < |list| ==> list[j] in nodes
    requires n in NameSet(OrderOf(list, nodes))
    ensures id in list && id in nodes && NameOf(nodes[id].0) == n
  {
    var order := OrderOf(list, nodes);
    var r :| r in order && NameOf(r) == n;
    var i :| 0 <= i < |order| && order[i] == r;
    id := list[i];
  }

  lemma {:induction false} UnlinkOrder(list: seq<Node>, nodes: Nodes, i: nat)
    requires Distinct(list) && (forall j :: 0 <= j < |list| ==> list[j] in nodes) && i < |list|
    requires DistinctNames(OrderOf(list, nodes))
    ensures var list' := Unlink(list, list[i]); var nodes' := nodes - {list[i]}; var name := NameOf(nodes[list[i]].0);
            && (forall j :: 0 <= j < |list'| ==> list'[j] in nodes')
            && Has(OrderOf(list, nodes), name)
            && IndexOf(OrderOf(list, nodes), name) == i
            && OrderOf(list', nodes') == Without(OrderOf(list, nodes), name)
  {
    UnlinkAt(list, i);
    IndexOfMember(OrderOf(list, nodes), i);
  }

  /** Taking a node out of the list removes its entry. */
  lemma {:induction false} UnlinkEntry(list: seq<Node>, nodes: Nodes, i: nat)
    requires Distinct(list) && (forall j :: 0 <= j < |list| ==> list[j] in nodes) && i < |list|
    requires DistinctNames(OrderOf(list, nodes))
    ensures var list' := Unlink(list, list[i]); var nodes' := nodes - {list[i]}; var name := NameOf(nodes[list[i]].0);
            && (forall j :: 0 <= j < |list'| ==> list'[j] in nodes')
            && DistinctNames(OrderOf(list', nodes'))
            && KeptOf(list', nodes') == KeptOf(list, nodes) - {name}
  {
    var list', nodes', name := Unlink(list, list[i]), nodes - {list[i]}, NameOf(nodes[list[i]].0);
    UnlinkOrder(list, nodes, i);
    WithoutFacts(OrderOf(list, nodes), name);
    UnlinkAt(list, i);
    forall n | n in KeptOf(list', nodes') ensures KeptOf(list', nodes')[n] == KeptOf(list, nodes)[n] {
      SameKept(list', nodes', list, nodes, n);
    }
    Reduced(KeptOf(list, nodes), KeptOf(list', nodes'), name);
  }

  lemma {:induction false} Reduced(m: map<string, Params>, m': map<string, Params>, key: string)
    requires m'.Keys == m.Keys - {key} && forall n :: n in m' ==> m'[n] == m[n]
    ensures m' == m - {key}
  {
  }

  lemma {:induction false} PushOrder(list: seq<Node>, nodes: Nodes, next: Node, e: (Response, Params))
    requires (forall j :: 0 <= j < |list| ==> list[j] in nodes) && next !in nodes
    requires DistinctNames(OrderOf(list, nodes)) && NameOf(e.0) !in NameSet(OrderOf(list, nodes))
    ensures var list' := [next] + list; var nodes' := nodes[next := e];
            && (forall j :: 0 <= j < |list'| ==> list'[j] in nodes')
            && OrderOf(list', nodes') == [e.0] + OrderOf(list, nodes)
            && DistinctNames(OrderOf(list', nodes'))
            && NameSet(OrderOf(list', nodes')) == NameSet(OrderOf(list, nodes)) + {NameOf(e.0)}
  {
    var list', nodes' := [next] + list, nodes[next := e];
    var order := OrderOf(list, nodes);
    assert OrderOf(list', nodes') == [e.0] + order;
    forall r | r in order ensures NameOf(r) != NameOf(e.0) { assert NameOf(r) in NameSet(order); }
    ConsFacts(e.0, order);
  }

  /** A node that is in two lists is kept with the same parameters by both. */
  lemma {:induction false} SameKept(list: seq<Node>, nodes: Nodes, list': seq<Node>, nodes': Nodes, n: string)
    requires forall j :: 0 <= j < |list| ==> list[j] in nodes
    requires forall j :: 0 <= j < |list'| ==> list'[j] in nodes'
    requires DistinctNames(OrderOf(list, nodes)) && DistinctNames(OrderOf(list', nodes'))
    requires n in NameSet(OrderOf(list, nodes))
    requires forall id :: id in list && NameOf(nodes[id].0) == n ==> id in list' && nodes[id] == nodes'[id]
    ensures n in KeptOf(list, nodes) && n in KeptOf(list', nodes') && KeptOf(list, nodes)[n] == KeptOf(list', nodes')[n]
  {
    var id := SomeNode(list, nodes, n);
    KeptEntry(list, nodes, id);
    KeptEntry(list', nodes', id);
  }

  lemma {:induction false} PushOther(list: seq<Node>, nodes: Nodes, next: Node, e: (Response, Params), n: string)
    requires (forall j :: 0 <= j < |list| ==> list[j] in nodes) && next !in nodes
    requires forall j :: 0 <= j < |[next] + list| ==> ([next] + list)[j] in nodes[next := e]
    requires DistinctNames(OrderOf(list, nodes)) && DistinctNames(OrderOf([next] + list, nodes[next := e]))
    requires n in NameSet(OrderOf(list, nodes))
    ensures var kept := KeptOf([next] + list, nodes[next := e]); n in kept && kept[n] == KeptOf(list, nodes)[n]
  {
    var list', nodes' := [next] + list, nodes[next := e];
    forall id | id in list ensures id in list' && nodes'[id] == nodes[id] {
      assert list'[PlaceOf(list, id) + 1] == id;
    }
    SameKept(list, nodes, list', nodes', n);
  }

  /** Putting a new node in front adds its entry. */
  lemma {:induction false} PushEntry(list: seq<Node>, nodes: Nodes, next: Node, e: (Response, Params))
    requires (forall j :: 0 <= j < |list| ==> list[j] in nodes) && next !in nodes
    requires DistinctNames(OrderOf(list, nodes)) && NameOf(e.0) !in NameSet(OrderOf(list, nodes))
    ensures var list' := [next] + list; var nodes' := nodes[next := e];
            && (forall j :: 0 <= j < |list'| ==> list'[j] in nodes')
            && KeptOf(list', nodes') == KeptOf(list, nodes)[NameOf(e.0) := e.1]
  {
    var list', nodes', name := [next] + list, nodes[next := e], NameOf(e.0);
    PushOrder(list, nodes, next, e);
    Extended(KeptOf(list, nodes), KeptOf(list', nodes'), name, e.1) by {
      assert list'[0] == next;
      KeptAt(list', nodes', 0);
      forall n | n in KeptOf(list, nodes) ensures KeptOf(list', nodes')[n] == KeptOf(list, nodes)[n] {
        PushOther(list, nodes, next, e, n);
      }
    }
  }

  lemma {:induction false} Extended(m: map<string, Params>, m': map<string, Params>, key: string, value: Params)
    requires m'.Keys == m.Keys + {key} && m'[key] == value && forall n :: n in m && n != key ==> m'[n] == m[n]
    ensures m' == m[key := value]
  {
  }

  /** No two bits share a node. */
  lemma {:induction false} OwnNode(bits: map<string, nat>, iters: seq<Node>, nodes: Nodes, b: nat, j: nat)
    requires Inverse(bits, SlotsOf(iters, nodes)) && b < |iters| && j < |iters| && j != b && iters[b] in nodes
    ensures iters[j] != iters[b]
  {
    var slots := SlotsOf(iters, nodes);
    assert slots[b].Some? && bits[slots[b].value] == b;
  }

  /** Exchanging the node of a bit for a new node in front of the list. */
  lemma {:induction false} ReplaceNode(bits: map<string, nat>, list: seq<Node>, nodes: Nodes, next: Node,
                                       iters: seq<Node>, bit: nat, e: (Response, Params))
    requires LinkedList(list, nodes, next, iters) && Inverse(bits, SlotsOf(iters, nodes))
    requires bit < |iters| && iters[bit] in nodes
    ensures var id := iters[bit]; var nodes' := (nodes - {id})[next := e];
            && LinkedList([next] + Unlink(list, id), nodes', next + 1, iters[bit := next])
            && SlotsOf(iters[bit := next], nodes') == SlotsOf(iters, nodes)[bit := Some(NameOf(e.0))]
  {
    var id := iters[bit];
    ReplaceLink(list, nodes, next, iters, id, e);
    forall j | 0 <= j < |iters| && j != bit ensures iters[j] != id { OwnNode(bits, iters, nodes, bit, j); }
  }

  lemma {:induction false} ReplaceLink(list: seq<Node>, nodes: Nodes, next: Node, iters: seq<Node>, id: Node,
                                       e: (Response, Params))
    requires LinkedList(list, nodes, next, iters) && id in nodes
    ensures var list', nodes' := [next] + Unlink(list, id), (nodes - {id})[next := e];
            && Distinct(list')
            && (forall i :: 0 <= i < |list'| ==> list'[i] in nodes')
            && (forall x :: x in nodes' ==> x in list' && 0 <= x < next + 1)
  {
    UnlinkAt(list, PlaceOf(list, id));
    PushFront(Unlink(list, id), next);
    var list' := [next] + Unlink(list, id);
    forall i | 0 <= i < |list'| ensures list'[i] in (nodes - {id})[next := e] { assert list'[i] in list'; }
  }

  lemma {:induction false} ReplaceEntry(list: seq<Node>, nodes: Nodes, next: Node, i: nat, e: (Response, Params))
    requires Distinct(list) && (forall j :: 0 <= j < |list| ==> list[j] in nodes) && i < |list| && next !in nodes
    requires DistinctNames(OrderOf(list, nodes))
    requires NameOf(e.0) !in NameSet(OrderOf(list, nodes)) || NameOf(e.0) == NameOf(nodes[list[i]].0)
    ensures var list' := [next] + Unlink(list, list[i]); var nodes' := (nodes - {list[i]})[next := e];
            var name := NameOf(nodes[list[i]].0);
            && (forall j :: 0 <= j < |list'| ==> list'[j] in nodes')
            && Has(OrderOf(list, nodes), name)
            && OrderOf(list', nodes') == [e.0] + Without(OrderOf(list, nodes), name)
            && KeptOf(list', nodes') == (KeptOf(list, nodes) - {name})[NameOf(e.0) := e.1]
  {
    var rest, others, name := Unlink(list, list[i]), nodes - {list[i]}, NameOf(nodes[list[i]].0);
    UnlinkOrder(list, nodes, i);
    UnlinkEntry(list, nodes, i);
    assert NameSet(OrderOf(rest, others)) == NameSet(OrderOf(list, nodes)) - {name} by {
      WithoutFacts(OrderOf(list, nodes), name);
    }
    PushOrder(rest, others, next, e);
    PushEntry(rest, others, next, e);
  }

  /** The concrete state stands for cache `c` with parameters `kept`. */
  ghost predicate Stands(c: Lru, kept: map<string, Params>, list: seq<Node>, nodes: Nodes, next: Node, iters: seq<Node>)
  {
    && LinkedList(list, nodes, next, iters)
    && c.order == OrderOf(list, nodes) && c.slots == SlotsOf(iters, nodes) && kept == KeptOf(list, nodes)
    && WellFormed(c)
  }

  lemma {:induction false} StandsAt(c: Lru, kept: map<string, Params>, list: seq<Node>, nodes: Nodes, next: Node,
                                    iters: seq<Node>, bit: nat)
    requires Stands(c, kept, list, nodes, next, iters) && Live(c, bit)
    ensures iters[bit] in nodes && iters[bit] in list
    ensures var e := nodes[iters[bit]]; var name := c.slots[bit].value;
            && NameOf(e.0) == name && e.0 == Peek(c, bit) && name in kept && kept[name] == e.1
            && name in c.bits && c.bits[name] == bit
    ensures IndexOf(c.order, c.slots[bit].value) == PlaceOf(list, iters[bit])
    ensures |c.slots| == |iters| && |c.order| == |list|
  {
    IndexOfMember(c.order, PlaceOf(list, iters[bit]));
    KeptEntry(list, nodes, iters[bit]);
  }

  lemma {:induction false} Spliced(c: Lru, kept: map<string, Params>, list: seq<Node>, nodes: Nodes, next: Node,
                                   iters: seq<Node>, bit: nat)
    requires Stands(c, kept, list, nodes, next, iters) && Live(c, bit) && iters[bit] in list
    ensures var id := iters[bit];
            id in nodes &&
            Stands(Touch(c, c.slots[bit].value), kept, [next] + Unlink(list, id), (nodes - {id})[next := nodes[id]],
                   next + 1, iters[bit := next])
  {
    var id, name := iters[bit], c.slots[bit].value;
    StandsAt(c, kept, list, nodes, next, iters, bit);
    TouchFacts(c, name);
    ReplaceNode(c.bits, list, nodes, next, iters, bit, nodes[id]);
    ReplaceEntry(list, nodes, next, PlaceOf(list, id), nodes[id]);
    PutBack(kept, name);
    assert Some(name) == c.slots[bit];
    SetSame(c.slots, bit);
  }

  lemma {:induction false} SplicedLength(list: seq<Node>, id: Node, next: Node)
    requires id in list
    ensures |Unlink(list, id)| == |list| - 1 && |[next] + Unlink(list, id)| == |list|
  {
  }

  lemma {:induction false} PutBack(kept: map<string, Params>, name: string)
    requires name in kept
    ensures (kept - {name})[name := kept[name]] == kept
  {
  }

  lemma {:induction false} SetSame(slots: seq<Option<string>>, bit: nat)
    requires bit < |slots|
    ensures slots[bit := slots[bit]] == slots
  {
  }

  lemma {:induction false} StandsNames(c: Lru, kept: map<string, Params>, list: seq<Node>, nodes: Nodes, next: Node,
                                       iters: seq<Node>)
    requires Stands(c, kept, list, nodes, next, iters)
    ensures kept.Keys == c.bits.Keys && |list| == |c.order| && |iters| == |c.slots| && next !in nodes
  {
  }

  lemma {:induction false} LastBit(c: Lru)
    requires WellFormed(c) && c.order != []
    ensures var last := |c.order| - 1; var victim := NameOf(c.order[last]);
            && victim in c.bits && Live(c, c.bits[victim])
            && c.slots[c.bits[victim]].value == victim && IndexOf(c.order, victim) == last
  {
    LastIsCached(c);
    IndexOfMember(c.order, |c.order| - 1);
    CachedBit(c, NameOf(c.order[|c.order| - 1]));
  }

  lemma {:induction false} LastIterator(c: Lru, kept: map<string, Params>, list: seq<Node>, nodes: Nodes, next: Node,
                                        iters: seq<Node>, victim: string)
    requires Stands(c, kept, list, nodes, next, iters) && list != [] && victim == NameOf(c.order[|list| - 1])
    ensures victim in c.bits && c.bits[victim] < |iters| && iters[c.bits[victim]] == list[|list| - 1]
  {
    LastBit(c);
    NodeAt(c, kept, list, nodes, next, iters, c.bits[victim], |list| - 1);
  }

  lemma {:induction false} NodeAt(c: Lru, kept: map<string, Params>, list: seq<Node>, nodes: Nodes, next: Node,
                                  iters: seq<Node>, bit: nat, k: nat)
    requires Stands(c, kept, list, nodes, next, iters) && Live(c, bit) && IndexOf(c.order, c.slots[bit].value) == k
    ensures k < |list| && bit < |iters| && iters[bit] == list[k]
  {
    StandsAt(c, kept, list, nodes, next, iters, bit);
  }

  lemma {:induction false} LastName(order: seq<Response>)
    requires DistinctNames(order) && order != []
    ensures var name := NameOf(order[|order| - 1]); Has(order, name) && Without(order, name) == order[..|order| - 1]
  {
    IndexOfMember(order, |order| - 1);
  }

  lemma {:induction false} LastUnlinked(list: seq<Node>)
    requires Distinct(list) && list != []
    ensures Unlink(list, list[|list| - 1]) == list[..|list| - 1]
  {
    UnlinkAt(list, |list| - 1);
  }

  lemma {:induction false} RestrictEvicted(kept: map<string, Params>, bits: map<string, nat>, victim: string,
                                           name: string, bit: nat, p: Params)
    requires kept.Keys == bits.Keys && victim in bits && name !in bits
    ensures Restrict(kept[name := p], (bits - {victim})[name := bit].Keys) == (kept - {victim})[name := p]
  {
  }

  lemma {:induction false} ReplaceLastEntry(list: seq<Node>, nodes: Nodes, next: Node, e: (Response, Params))
    requires Distinct(list) && list != [] && (forall j :: 0 <= j < |list| ==> list[j] in nodes) && next !in nodes
    requires DistinctNames(OrderOf(list, nodes)) && NameOf(e.0) !in NameSet(OrderOf(list, nodes))
    ensures var last, order := |list| - 1, OrderOf(list, nodes);
            var list', nodes' := [next] + list[..last], (nodes - {list[last]})[next := e];
            && (forall j :: 0 <= j < |list'| ==> list'[j] in nodes')
            && OrderOf(list', nodes') == [e.0] + order[..last]
            && KeptOf(list', nodes') == (KeptOf(list, nodes) - {NameOf(order[last])})[NameOf(e.0) := e.1]
  {
    var last, order := |list| - 1, OrderOf(list, nodes);
    assert order[last] == nodes[list[last]].0;
    ReplaceEntry(list, nodes, next, last, e);
    assert Unlink(list, list[last]) == list[..last] by { LastUnlinked(list); }
    assert Without(order, NameOf(order[last])) == order[..last] by { LastName(order); }
  }

  lemma {:induction false} EvictedEntries(c: Lru, kept: map<string, Params>, list: seq<Node>, nodes: Nodes, next: Node,
                                          iters: seq<Node>, r: Response, p: Params)
    requires Stands(c, kept, list, nodes, next, iters) && list != [] && NameOf(r) !in c.bits
    ensures var last := |list| - 1; var victim := NameOf(c.order[last]);
            var list', nodes' := [next] + list[..last], (nodes - {list[last]})[next := (r, p)];
            && (forall j :: 0 <= j < |list'| ==> list'[j] in nodes')
            && OrderOf(list', nodes') == [r] + c.order[..last]
            && KeptOf(list', nodes') == (kept - {victim})[NameOf(r) := p]
  {
    StandsNames(c, kept, list, nodes, next, iters);
    ReplaceLastEntry(list, nodes, next, (r, p));
  }

  /** What a full cache becomes when `r` takes over `bit` from `victim`, its last entry. */
  lemma {:induction false} EvictedBits(c: Lru, r: Response, victim: string, bit: nat)
    requires WellFormed(c) && c.order != [] && NameOf(r) !in c.bits
    requires victim == NameOf(c.order[|c.order| - 1]) && victim in c.bits && c.bits[victim] == bit
    ensures var c' := Put(c, |c.order|, r);
            && c'.outdated == c.outdated && c'.order == [r] + c.order[..|c.order| - 1]
            && c'.bits == (c.bits - {victim})[NameOf(r) := bit]
            && c'.slots == c.slots[bit := Some(NameOf(r))]
  {
  }

  lemma {:induction false} LastEntry(c: Lru, kept: map<string, Params>, list: seq<Node>, nodes: Nodes, next: Node,
                                     iters: seq<Node>)
    requires Stands(c, kept, list, nodes, next, iters) && list != []
    ensures var last := |list| - 1;
            && |c.order| == |list| && list[last] in nodes && nodes[list[last]].0 == c.order[last]
            && NameOf(c.order[last]) in c.bits
  {
    LastIsCached(c);
  }

  lemma {:induction false} EvictedLinks(c: Lru, kept: map<string, Params>, list: seq<Node>, nodes: Nodes, next: Node,
                                        iters: seq<Node>, e: (Response, Params), bit: nat)
    requires Stands(c, kept, list, nodes, next, iters) && list != []
    requires bit < |iters| && iters[bit] == list[|list| - 1]
    ensures var last := |list| - 1; var nodes' := (nodes - {list[last]})[next := e];
            && LinkedList([next] + list[..last], nodes', next + 1, iters[bit := next])
            && SlotsOf(iters[bit := next], nodes') == c.slots[bit := Some(NameOf(e.0))]
  {
    LastUnlinked(list);
    ReplaceNode(c.bits, list, nodes, next, iters, bit, e);
  }

  lemma {:induction false} Evicted(c: Lru, kept: map<string, Params>, list: seq<Node>, nodes: Nodes, next: Node,
                                   iters: seq<Node>, r: Response, p: Params, victim: string, bit: nat)
    requires Stands(c, kept, list, nodes, next, iters) && list != [] && NameOf(r) !in c.bits
    requires |c.order| == |list| && victim == NameOf(c.order[|list| - 1]) && victim in c.bits && c.bits[victim] == bit
    ensures var last := |list| - 1; var c' := Put(c, |list|, r);
            && bit < |iters|
            && Stands(c', Restrict(kept[NameOf(r) := p], c'.bits.Keys),
                      [next] + list[..last], (nodes - {list[last]})[next := (r, p)], next + 1, iters[bit := next])
  {
    LastIterator(c, kept, list, nodes, next, iters, victim);
    EvictedLinks(c, kept, list, nodes, next, iters, (r, p), bit);
    EvictedEntries(c, kept, list, nodes, next, iters, r, p);
    EvictedBits(c, r, victim, bit);
    assert WellFormed(Put(c, |list|, r)) by { PutFacts(c, |list|, r); }
    assert kept.Keys == c.bits.Keys by { StandsNames(c, kept, list, nodes, next, iters); }
    RestrictEvicted(kept, c.bits, victim, NameOf(r), bit, p);
  }

  lemma {:induction false} MissIffNew(c: Lru, kept: map<string, Params>, r: Response, p: Params)
    requires WellFormed(c)
    ensures StateOfResponse(c, kept, r, p) == Miss <==> NameOf(r) !in c.bits
  {
    HasIffNamed(c.order);
  }

  lemma {:induction false} CachedBit(c: Lru, name: string)
    requires WellFormed(c) && name in c.bits
    ensures Live(c, c.bits[name]) && c.slots[c.bits[name]].value == name
  {
    HasIffNamed(c.order);
  }

  lemma {:induction false} RestrictSame(kept: map<string, Params>, bits: map<string, nat>)
    requires kept.Keys == bits.Keys
    ensures Restrict(kept, bits.Keys) == kept
  {
  }

  lemma {:induction false} AddNode(list: seq<Node>, nodes: Nodes, next: Node, iters: seq<Node>, e: (Response, Params))
    requires LinkedList(list, nodes, next, iters)
    ensures LinkedList([next] + list, nodes[next := e], next + 1, iters + [next])
    ensures SlotsOf(iters + [next], nodes[next := e]) == SlotsOf(iters, nodes) + [Some(NameOf(e.0))]
  {
    PushFront(list, next);
  }

  lemma {:induction false} RestrictAll(kept: map<string, Params>, bits: map<string, nat>, name: string, bit: nat,
                                       p: Params)
    requires kept.Keys == bits.Keys
    ensures Restrict(kept[name := p], bits[name := bit].Keys) == kept[name := p]
  {
  }

  lemma {:induction false} Appended(c: Lru, kept: map<string, Params>, list: seq<Node>, nodes: Nodes, next: Node,
                                    iters: seq<Node>, capacity: nat, r: Response, p: Params)
    requires Stands(c, kept, list, nodes, next, iters) && |list| < capacity && NameOf(r) !in c.bits
    ensures var c' := Put(c, capacity, r);
            Stands(c', Restrict(kept[NameOf(r) := p], c'.bits.Keys),
                   [next] + list, nodes[next := (r, p)], next + 1, iters + [next])
  {
    StandsNames(c, kept, list, nodes, next, iters);
    AddNode(list, nodes, next, iters, (r, p));
    PushOrder(list, nodes, next, (r, p));
    PushEntry(list, nodes, next, (r, p));
    RestrictAll(kept, c.bits, NameOf(r), |c.slots|, p);
    PutFacts(c, capacity, r);
  }

  lemma {:induction false} AppendedBits(c: Lru, capacity: nat, r: Response, bit: nat)
    requires WellFormed(c) && |c.order| < capacity && NameOf(r) !in c.bits && bit == |c.slots|
    ensures var c' := Put(c, capacity, r); c'.bits == c.bits[NameOf(r) := bit] && c'.outdated == c.outdated
  {
  }

  lemma {:induction false} RemoveNode(bits: map<string, nat>, list: seq<Node>, nodes: Nodes, next: Node,
                                      iters: seq<Node>, bit: nat)
    requires LinkedList(list, nodes, next, iters) && Inverse(bits, SlotsOf(iters, nodes))
    requires bit < |iters| && iters[bit] in nodes
    ensures var id := iters[bit];
            && LinkedList(Unlink(list, id), nodes - {id}, next, iters[bit := END])
            && SlotsOf(iters[bit := END], nodes - {id}) == SlotsOf(iters, nodes)[bit := None]
  {
    var id := iters[bit];
    UnlinkAt(list, PlaceOf(list, id));
    forall j | 0 <= j < |iters| && j != bit ensures iters[j] != id { OwnNode(bits, iters, nodes, bit, j); }
  }

  lemma {:induction false} Removed(c: Lru, kept: map<string, Params>, list: seq<Node>, nodes: Nodes, next: Node,
                                   iters: seq<Node>, bit: nat)
    requires Stands(c, kept, list, nodes, next, iters) && Live(c, bit) && iters[bit] in list
    ensures var id := iters[bit]; var c' := EraseBit(c, bit);
            Stands(c', Restrict(kept, c'.bits.Keys), Unlink(list, id), nodes - {id}, next, iters[bit := END])
  {
    var id, name := iters[bit], c.slots[bit].value;
    StandsAt(c, kept, list, nodes, next, iters, bit);
    StandsNames(c, kept, list, nodes, next, iters);
    RemoveNode(c.bits, list, nodes, next, iters, bit);
    UnlinkOrder(list, nodes, PlaceOf(list, id));
    UnlinkEntry(list, nodes, PlaceOf(list, id));
    EraseFacts(c, bit);
    RestrictRemoved(kept, c.bits, name);
  }

  lemma {:induction false} RestrictRemoved(kept: map<string, Params>, bits: map<string, nat>, name: string)
    requires kept.Keys == bits.Keys
    ensures Restrict(kept, (bits - {name}).Keys) == kept - {name}
  {
  }

  /** The nodes have the bits from the back of the list on. */
  ghost predicate Numbered(list: seq<Node>, nodes: Nodes, iters: seq<Node>, bits: map<string, nat>) {
    && |iters| == |list|
    && forall k :: 0 <= k < |list| ==>
         && list[k] in nodes && iters[|list| - 1 - k] == list[k]
         && NameOf(nodes[list[k]].0) in bits && bits[NameOf(nodes[list[k]].0)] == |list| - 1 - k
  }

  /** The loop of update_cache_bits: walk the list from its back, giving out bits from 0. */
  method NumberFromBack(list: seq<Node>, nodes: Nodes, iters: seq<Node>, bits: map<string, nat>)
    returns (iters': seq<Node>, bits': map<string, nat>)
    requires |list| <= |iters|
    requires forall k :: 0 <= k < |list| ==> list[k] in nodes && NameOf(nodes[list[k]].0) in bits
    requires DistinctNames(OrderOf(list, nodes))
    ensures Numbered(list, nodes, iters', bits') && bits'.Keys == bits.Keys
  {
    iters', bits' := iters, bits;
    var n := |list|;
    ghost var order := OrderOf(list, nodes);
    for i := 0 to n
      invariant |iters'| == |iters| && bits'.Keys == bits.Keys
      invariant forall k :: n - i <= k < n ==>
                  iters'[n - 1 - k] == list[k] && bits'[NameOf(nodes[list[k]].0)] == n - 1 - k
    {
      var it := list[n - 1 - i];
      forall k | n - i <= k < n ensures NameOf(nodes[list[k]].0) != NameOf(nodes[it].0) {
        assert NameOf(order[k]) != NameOf(order[n - 1 - i]);
      }
      iters' := iters'[i := it];
      bits' := bits'[NameOf(nodes[it].0) := i];
    }
    iters' := iters'[..n];
  }

  lemma {:induction false} RenumberedSlots(c: Lru, list: seq<Node>, nodes: Nodes, iters': seq<Node>)
    requires forall k :: 0 <= k < |list| ==> list[k] in nodes
    requires c.order == OrderOf(list, nodes) && c.outdated
    requires |iters'| == |list| && forall k :: 0 <= k < |list| ==> iters'[|list| - 1 - k] == list[k]
    ensures SlotsOf(iters', nodes) == Renumber(c).slots
    ensures forall b :: 0 <= b < |iters'| ==> iters'[b] in nodes
  {
    forall b | 0 <= b < |list| ensures iters'[b] in nodes && iters'[b] == list[|list| - 1 - b] {
      assert iters'[|list| - 1 - (|list| - 1 - b)] == list[|list| - 1 - b];
    }
  }

  lemma {:induction false} BackBitsAt(order: seq<Response>, k: nat)
    requires DistinctNames(order) && k < |order|
    ensures NameOf(order[k]) in BackBits(order) && BackBits(order)[NameOf(order[k])] == |order| - 1 - k
  {
    assert order[k] in order;
    IndexOfMember(order, k);
  }

  lemma {:induction false} PlaceOfName(order: seq<Response>, name: string) returns (k: nat)
    requires name in NameSet(order)
    ensures k < |order| && NameOf(order[k]) == name
  {
    var r :| r in order && NameOf(r) == name;
    k :| 0 <= k < |order| && order[k] == r;
  }

  lemma {:induction false} BackBitsNamed(order: seq<Response>)
    ensures BackBits(order).Keys == NameSet(order)
  {
  }

  lemma {:induction false} BackBitsAre(order: seq<Response>, bits': map<string, nat>)
    requires DistinctNames(order) && bits'.Keys == NameSet(order)
    requires forall k :: 0 <= k < |order| ==> NameOf(order[k]) in bits' && bits'[NameOf(order[k])] == |order| - 1 - k
    ensures BackBits(order) == bits'
  {
    var bits := BackBits(order);
    BackBitsNamed(order);
    forall name | name in bits' ensures bits[name] == bits'[name] {
      var k := PlaceOfName(order, name);
      BackBitsAt(order, k);
    }
  }

  /** Numbering the nodes from the back of the list is what Renumber does. */
  lemma {:induction false} Renumbered(c: Lru, kept: map<string, Params>, list: seq<Node>, nodes: Nodes, next: Node,
                                      iters: seq<Node>, iters': seq<Node>, bits': map<string, nat>)
    requires Stands(c, kept, list, nodes, next, iters) && c.outdated
    requires Numbered(list, nodes, iters', bits') && bits'.Keys == c.bits.Keys
    ensures Stands(Renumber(c), kept, list, nodes, next, iters')
    ensures Renumber(c).bits == bits' && !Renumber(c).outdated
  {
    NumberedBits(c, list, nodes, iters', bits');
    assert WellFormed(Renumber(c)) by { RenumberFacts(c); }
    RenumberedSlots(c, list, nodes, iters');
  }

  lemma {:induction false} NumberedBits(c: Lru, list: seq<Node>, nodes: Nodes, iters: seq<Node>, bits: map<string, nat>)
    requires Numbered(list, nodes, iters, bits) && c.order == OrderOf(list, nodes) && c.outdated
    requires DistinctNames(c.order) && bits.Keys == NameSet(c.order)
    ensures Renumber(c).bits == bits
  {
    BackBitsAre(c.order, bits);
  }

  lemma {:induction false} CanNumber(c: Lru, kept: map<string, Params>, list: seq<Node>, nodes: Nodes, next: Node,
                                     iters: seq<Node>)
    requires Stands(c, kept, list, nodes, next, iters)
    ensures |list| <= |iters| && DistinctNames(OrderOf(list, nodes))
    ensures forall k :: 0 <= k < |list| ==> list[k] in nodes && NameOf(nodes[list[k]].0) in c.bits
  {
    forall k | 0 <= k < |list| ensures NameOf(nodes[list[k]].0) in c.bits {
      assert c.order[k] in c.order;
    }
  }

  /** The loop of put that splits a fused response. */
  method Pieces(response: Response) returns (rs: seq<Response>)
    requires response.names != []
    ensures rs == Fusion.Split(response)
  {
    var n := |response.names|;
    if n == 1 {
      return [response];
    }
    var globalSize := |response.sizes| / n;
    rs := [];
    for i := 0 to n
      invariant rs == Fusion.Split(response)[..i]
    {
      Fusion.ChunkBounds(|response.sizes|, n, i);
      var sizes := response.sizes[i * globalSize..i * globalSize + globalSize];
      rs := rs + [response.(names := [response.names[i]], sizes := sizes)];
    }
  }

  /** The cache after storing `rs` up to the first response that cannot be stored. */
  ghost function Stored(c: Lru, kept: map<string, Params>, capacity: nat, table: map<string, Params>, rs: seq<Response>)
      : (Lru, map<string, Params>)
    requires WellFormed(c) && 0 < capacity && |c.order| <= capacity
    decreases |rs|
  {
    if rs == [] then (c, kept)
    else
      var name := NameOf(rs[0]);
      if name !in table || StateOfResponse(c, kept, rs[0], table[name]) == Invalid then (c, kept)
      else
        PutFacts(c, capacity, rs[0]);
        var c1 := Put(c, capacity, rs[0]);
        var kept1 := Restrict(if name in c.bits then kept else kept[name := table[name]], c1.bits.Keys);
        Stored(c1, kept1, capacity, table, rs[1..])
  }

  /** Storing `rs` starts with storing its first response. */
  ghost predicate StoresFirst(c: Lru, kept: map<string, Params>, capacity: nat, table: map<string, Params>, r: Response,
                              c1: Lru, kept1: map<string, Params>)
    requires WellFormed(c) && 0 < capacity && |c.order| <= capacity
  {
    var name := NameOf(r);
    && name in table && StateOfResponse(c, kept, r, table[name]) != Invalid && c1 == Put(c, capacity, r)
    && kept1 == Restrict(if name in c.bits then kept else kept[name := table[name]], c1.bits.Keys)
    && WellFormed(c1) && |c1.order| <= capacity
  }

  lemma {:induction false} StoreNext(c: Lru, kept: map<string, Params>, capacity: nat, table: map<string, Params>,
                                     rs: seq<Response>, m: nat, c1: Lru, kept1: map<string, Params>)
    requires WellFormed(c) && 0 < capacity && |c.order| <= capacity && m < |rs|
    requires StoresFirst(c, kept, capacity, table, rs[0], c1, kept1)
    ensures PutParams(c, kept, capacity, table, rs[..m + 1]) == PutParams(c1, kept1, capacity, table, rs[1..][..m])
    ensures PutAll(c, capacity, rs[..m + 1]) == PutAll(c1, capacity, rs[1..][..m])
  {
    var front := rs[..m + 1];
    assert front[0] == rs[0] && front[1..] == rs[1..][..m];
  }

  lemma {:induction false} StoredNext(c: Lru, kept: map<string, Params>, capacity: nat, table: map<string, Params>,
                                      rs: seq<Response>, c1: Lru, kept1: map<string, Params>)
    requires WellFormed(c) && 0 < capacity && |c.order| <= capacity && rs != []
    requires StoresFirst(c, kept, capacity, table, rs[0], c1, kept1)
    ensures Stored(c, kept, capacity, table, rs) == Stored(c1, kept1, capacity, table, rs[1..])
  {
  }

  /** `n` responses are stored, and the next one, if any, is a conflict. */
  ghost predicate StopsAt(c: Lru, kept: map<string, Params>, capacity: nat, table: map<string, Params>,
                          rs: seq<Response>, n: nat)
    requires WellFormed(c) && 0 < capacity && |c.order| <= capacity && n <= |rs|
  {
    var p := PutParams(c, kept, capacity, table, rs[..n]);
    && p.Some?
    && Stored(c, kept, capacity, table, rs) == (PutAll(c, capacity, rs[..n]), p.value)
    && (n < |rs| ==> PutParams(c, kept, capacity, table, rs[..n + 1]).None?)
  }

  lemma {:induction false} StopsLater(c: Lru, kept: map<string, Params>, capacity: nat, table: map<string, Params>,
                                      rs: seq<Response>, m: nat, c1: Lru, kept1: map<string, Params>)
    requires WellFormed(c) && 0 < capacity && |c.order| <= capacity
    requires m < |rs| && StoresFirst(c, kept, capacity, table, rs[0], c1, kept1)
    requires StopsAt(c1, kept1, capacity, table, rs[1..], m)
    ensures StopsAt(c, kept, capacity, table, rs, m + 1)
  {
    StoreNext(c, kept, capacity, table, rs, m, c1, kept1);
    if m + 1 < |rs| { StoreNext(c, kept, capacity, table, rs, m + 1, c1, kept1); }
    StoredNext(c, kept, capacity, table, rs, c1, kept1);
  }

  /** What is stored are the responses before the first conflict. */
  lemma {:induction false} StoredPrefix(c: Lru, kept: map<string, Params>, capacity: nat, table: map<string, Params>,
                                        rs: seq<Response>)
    returns (n: nat)
    requires WellFormed(c) && 0 < capacity && |c.order| <= capacity
    ensures n <= |rs| && StopsAt(c, kept, capacity, table, rs, n)
    decreases |rs|
  {
    n := 0;
    if rs != [] {
      var name, c1 := NameOf(rs[0]), Put(c, capacity, rs[0]);
      if name in table && StateOfResponse(c, kept, rs[0], table[name]) != Invalid {
        PutFacts(c, capacity, rs[0]);
        var kept1 := Restrict(if name in c.bits then kept else kept[name := table[name]], c1.bits.Keys);
        n := StoredPrefix(c1, kept1, capacity, table, rs[1..]);
        StopsLater(c, kept, capacity, table, rs, n, c1, kept1);
        n := n + 1;
      }
    }
  }

  lemma {:induction false} StoredConcat(c: Lru, kept: map<string, Params>, capacity: nat, table: map<string, Params>,
                                        a: seq<Response>, b: seq<Response>)
    requires WellFormed(c) && 0 < capacity && |c.order| <= capacity
    ensures var p := PutParams(c, kept, capacity, table, a);
            Stored(c, kept, capacity, table, a + b)
            == if p.None? then Stored(c, kept, capacity, table, a)
               else Stored(PutAll(c, capacity, a), p.value, capacity, table, b)
    decreases |a|
  {
    if a == [] {
      assert a + b == b;
    } else {
      assert (a + b)[0] == a[0] && (a + b)[1..] == a[1..] + b;
      PutFacts(c, capacity, a[0]);
      var name, c1 := NameOf(a[0]), Put(c, capacity, a[0]);
      if name in table && StateOfResponse(c, kept, a[0], table[name]) != Invalid {
        var kept1 := Restrict(if name in c.bits then kept else kept[name := table[name]], c1.bits.Keys);
        StoredConcat(c1, kept1, capacity, table, a[1..], b);
      }
    }
  }

  lemma {:induction false} PutNone(c: Lru, kept: map<string, Params>, capacity: nat, table: map<string, Params>,
                                   rs: seq<Response>)
    requires WellFormed(c) && 0 < capacity && |c.order| <= capacity && |rs| == 0
    ensures PutAll(c, capacity, rs) == c && PutParams(c, kept, capacity, table, rs) == Some(kept)
    ensures Stored(c, kept, capacity, table, rs) == (c, kept)
  {
  }

  lemma {:induction false} PutFirst(c: Lru, kept: map<string, Params>, capacity: nat, table: map<string, Params>,
                                    rs: seq<Response>, i: nat)
    requires WellFormed(c) && 0 < capacity && |c.order| <= capacity && i < |rs|
    ensures var name := NameOf(rs[i]); var c1 := Put(c, capacity, rs[i]);
            && WellFormed(c1) && |c1.order| <= capacity
            && PutAll(c, capacity, rs[i..]) == PutAll(c1, capacity, rs[i + 1..])
            && (name !in table ==> PutParams(c, kept, capacity, table, rs[i..]).None?)
            && (name in table ==>
                  PutParams(c, kept, capacity, table, rs[i..])
                  == if StateOfResponse(c, kept, rs[i], table[name]) == Invalid then None
                     else
                       var kept1 := Restrict(if name in c.bits then kept else kept[name := table[name]], c1.bits.Keys);
                       PutParams(c1, kept1, capacity, table, rs[i + 1..]))
    ensures var name := NameOf(rs[i]); var c1 := Put(c, capacity, rs[i]);
            Stored(c, kept, capacity, table, rs[i..])
            == if name !in table || StateOfResponse(c, kept, rs[i], table[name]) == Invalid then (c, kept)
               else
                 var kept1 := Restrict(if name in c.bits then kept else kept[name := table[name]], c1.bits.Keys);
                 Stored(c1, kept1, capacity, table, rs[i + 1..])
  {
    assert rs[i..][0] == rs[i] && rs[i..][1..] == rs[i + 1..];
    PutFacts(c, capacity, rs[i]);
  }

  lemma {:induction false} PutAllConcat(c: Lru, capacity: nat, a: seq<Response>, b: seq<Response>)
    requires WellFormed(c) && 0 < capacity && |c.order| <= capacity
    ensures PutAll(c, capacity, a + b) == PutAll(PutAll(c, capacity, a), capacity, b)
    decreases |a|
  {
    if a == [] {
      assert a + b == b;
    } else {
      assert (a + b)[0] == a[0] && (a + b)[1..] == a[1..] + b;
      var c1 := Put(c, capacity, a[0]);
      assert WellFormed(c1) && |c1.order| <= capacity by { PutFacts(c, capacity, a[0]); }
      PutAllConcat(c1, capacity, a[1..], b);
    }
  }

  lemma {:induction false} PutParamsConcat(c: Lru, kept: map<string, Params>, capacity: nat, table: map<string, Params>,
                                           a: seq<Response>, b: seq<Response>)
    requires WellFormed(c) && 0 < capacity && |c.order| <= capacity
    ensures var p := PutParams(c, kept, capacity, table, a);
            PutParams(c, kept, capacity, table, a + b)
            == if p.None? then None else PutParams(PutAll(c, capacity, a), p.value, capacity, table, b)
    decreases |a|
  {
    if a == [] {
      assert a + b == b;
    } else {
      assert (a + b)[0] == a[0] && (a + b)[1..] == a[1..] + b;
      PutFacts(c, capacity, a[0]);
      var name, c1 := NameOf(a[0]), Put(c, capacity, a[0]);
      if name in table && StateOfResponse(c, kept, a[0], table[name]) != Invalid {
        var kept1 := Restrict(if name in c.bits then kept else kept[name := table[name]], c1.bits.Keys);
        PutParamsConcat(c1, kept1, capacity, table, a[1..], b);
      }
    }
  }

  /** The insertions of a response list, one response at a time. */
  lemma {:induction false} InsertNext(c: Lru, kept: map<string, Params>, capacity: nat, table: map<string, Params>,
                                      list: seq<Response>, n: nat, i: nat)
    requires WellFormed(c) && 0 < capacity && |c.order| <= capacity && i < |list|
    ensures !Cacheable(list[i], n) ==> Insertions(list[i..], n) == Insertions(list[i + 1..], n)
    ensures Cacheable(list[i], n) ==>
              var rs, more := Fusion.Split(list[i]), Insertions(list[i + 1..], n);
              var c1, p := PutAll(c, capacity, rs), PutParams(c, kept, capacity, table, rs);
              && PutAll(c, capacity, Insertions(list[i..], n)) == PutAll(c1, capacity, more)
              && PutParams(c, kept, capacity, table, Insertions(list[i..], n))
                 == if p.None? then None else PutParams(c1, p.value, capacity, table, more)
    ensures Cacheable(list[i], n) ==>
              var rs, more := Fusion.Split(list[i]), Insertions(list[i + 1..], n);
              var c1, p := PutAll(c, capacity, rs), PutParams(c, kept, capacity, table, rs);
              Stored(c, kept, capacity, table, Insertions(list[i..], n))
              == if p.None? then Stored(c, kept, capacity, table, rs) else Stored(c1, p.value, capacity, table, more)
  {
    var rs, more := Fusion.Split(list[i]), Insertions(list[i + 1..], n);
    assert list[i..][0] == list[i] && list[i..][1..] == list[i + 1..];
    if Cacheable(list[i], n) {
      PutAllConcat(c, capacity, rs, more);
      PutParamsConcat(c, kept, capacity, table, rs, more);
      StoredConcat(c, kept, capacity, table, rs, more);
    } else {
      assert [] + more == more;
    }
  }

  ghost predicate Represents(c: Lru, kept: map<string, Params>, list: seq<Node>, nodes: Nodes, next: Node,
                             iters: seq<Node>, bits: map<string, nat>, outdated: bool, capacity: nat)
  {
    && Stands(c, kept, list, nodes, next, iters)
    && c.bits == bits && c.outdated == outdated && |c.order| == |list| <= capacity
  }

  /** The same, as one fact that the verifier unfolds only where `Represents` is mentioned. */
  ghost predicate StandsFor(c: Lru, kept: map<string, Params>, list: seq<Node>, nodes: Nodes, next: Node,
                            iters: seq<Node>, bits: map<string, nat>, outdated: bool, capacity: nat)
  {
    forall c' :: c' == c ==> Represents(c', kept, list, nodes, next, iters, bits, outdated, capacity)
  }

  lemma {:induction false} StandsForNames(c: Lru, kept: map<string, Params>, list: seq<Node>, nodes: Nodes, next: Node,
                                          iters: seq<Node>, bits: map<string, nat>, outdated: bool, capacity: nat)
    requires StandsFor(c, kept, list, nodes, next, iters, bits, outdated, capacity)
    ensures WellFormed(c) && |c.order| == |list| <= capacity && |c.slots| == |iters| && kept.Keys == c.bits.Keys
    ensures bits == c.bits && outdated == c.outdated
  {
    assert Represents(c, kept, list, nodes, next, iters, bits, outdated, capacity);
    StandsNames(c, kept, list, nodes, next, iters);
  }

  lemma {:induction false} SplicedStands(c: Lru, kept: map<string, Params>, list: seq<Node>, nodes: Nodes, next: Node,
                                         iters: seq<Node>, bits: map<string, nat>, outdated: bool, capacity: nat,
                                         bit: nat)
    requires StandsFor(c, kept, list, nodes, next, iters, bits, outdated, capacity)
    requires Live(c, bit) && bit < |iters| && iters[bit] in nodes && iters[bit] in list
    ensures var id := iters[bit];
            StandsFor(Touch(c, c.slots[bit].value), kept, [next] + Unlink(list, id), (nodes - {id})[next := nodes[id]],
                      next + 1, iters[bit := next], bits, outdated, capacity)
  {
    assert Represents(c, kept, list, nodes, next, iters, bits, outdated, capacity);
    Spliced(c, kept, list, nodes, next, iters, bit);
    SplicedLength(list, iters[bit], next);
  }

  lemma {:induction false} EvictedStands(c: Lru, kept: map<string, Params>, list: seq<Node>, nodes: Nodes, next: Node,
                                         iters: seq<Node>, bits: map<string, nat>, outdated: bool, capacity: nat,
                                         r: Response, p: Params, victim: string, bit: nat)
    requires StandsFor(c, kept, list, nodes, next, iters, bits, outdated, capacity)
    requires WellFormed(c) && 0 < |list| == |c.order| == capacity && NameOf(r) !in c.bits && bits == c.bits
    requires victim == NameOf(c.order[|list| - 1]) && victim in bits && bits[victim] == bit
    ensures var last, c' := |list| - 1, Put(c, capacity, r);
            && bit < |iters|
            && StandsFor(c', Restrict(kept[NameOf(r) := p], c'.bits.Keys), [next] + list[..last],
                         (nodes - {list[last]})[next := (r, p)], next + 1, iters[bit := next],
                         (bits - {victim})[NameOf(r) := bit], outdated, capacity)
  {
    assert Represents(c, kept, list, nodes, next, iters, bits, outdated, capacity);
    Evicted(c, kept, list, nodes, next, iters, r, p, victim, bit);
    EvictedBits(c, r, victim, bit);
  }

  lemma {:induction false} AppendedStands(c: Lru, kept: map<string, Params>, list: seq<Node>, nodes: Nodes, next: Node,
                                          iters: seq<Node>, bits: map<string, nat>, outdated: bool, capacity: nat,
                                          r: Response, p: Params)
    requires StandsFor(c, kept, list, nodes, next, iters, bits, outdated, capacity)
    requires WellFormed(c) && |c.order| == |list| < capacity && |c.slots| == |iters| && NameOf(r) !in c.bits
    ensures var c' := Put(c, capacity, r);
            StandsFor(c', Restrict(kept[NameOf(r) := p], c'.bits.Keys), [next] + list, nodes[next := (r, p)], next + 1,
                      iters + [next], bits[NameOf(r) := |iters|], outdated, capacity)
  {
    assert Represents(c, kept, list, nodes, next, iters, bits, outdated, capacity);
    Appended(c, kept, list, nodes, next, iters, capacity, r, p);
    AppendedBits(c, capacity, r, |iters|);
  }

  lemma {:induction false} RemovedStands(c: Lru, kept: map<string, Params>, list: seq<Node>, nodes: Nodes, next: Node,
                                         iters: seq<Node>, bits: map<string, nat>, outdated: bool, capacity: nat,
                                         bit: nat)
    requires StandsFor(c, kept, list, nodes, next, iters, bits, outdated, capacity)
    requires Live(c, bit) && bit < |iters| && iters[bit] in nodes && iters[bit] in list
    requires NameOf(nodes[iters[bit]].0) == c.slots[bit].value
    ensures var id, c' := iters[bit], EraseBit(c, bit);
            StandsFor(c', Restrict(kept, c'.bits.Keys), Unlink(list, id), nodes - {id}, next, iters[bit := END],
                      bits - {NameOf(nodes[id].0)}, true, capacity)
  {
    assert Represents(c, kept, list, nodes, next, iters, bits, outdated, capacity);
    Removed(c, kept, list, nodes, next, iters, bit);
    SplicedLength(list, iters[bit], next);
  }

  lemma {:induction false} RenumberedStands(c: Lru, kept: map<string, Params>, list: seq<Node>, nodes: Nodes,
                                            next: Node, iters: seq<Node>, bits: map<string, nat>, outdated: bool,
                                            capacity: nat, iters': seq<Node>, bits': map<string, nat>)
    requires StandsFor(c, kept, list, nodes, next, iters, bits, outdated, capacity)
    requires outdated && Numbered(list, nodes, iters', bits') && bits'.Keys == bits.Keys
    ensures StandsFor(Renumber(c), kept, list, nodes, next, iters', bits', false, capacity)
  {
    assert Represents(c, kept, list, nodes, next, iters, bits, outdated, capacity);
    Renumbered(c, kept, list, nodes, next, iters, iters', bits');
    RenumberedOrder(c);
  }

  lemma {:induction false} ResizedStands(c: Lru, kept: map<string, Params>, list: seq<Node>, nodes: Nodes, next: Node,
                                         iters: seq<Node>, bits: map<string, nat>, outdated: bool, capacity: nat,
                                         n: nat)
    requires StandsFor(c, kept, list, nodes, next, iters, bits, outdated, capacity) && |c.order| <= n
    ensures StandsFor(c, kept, list, nodes, next, iters, bits, outdated, n)
  {
    assert Represents(c, kept, list, nodes, next, iters, bits, outdated, capacity);
  }

  lemma {:induction false} EmptyStands(c: Lru, kept: map<string, Params>, list: seq<Node>, nodes: Nodes, next: Node,
                                       iters: seq<Node>, bits: map<string, nat>, outdated: bool, capacity: nat)
    requires StandsFor(c, kept, list, nodes, next, iters, bits, outdated, capacity)
    ensures StandsFor(EMPTY, map[], [], map[], next, [], map[], false, capacity)
  {
    assert next >= 0 by { assert Represents(c, kept, list, nodes, next, iters, bits, outdated, capacity); }
    EmptyList(next);
  }

  lemma {:induction false} EmptyList(next: Node)
    requires next >= 0
    ensures Stands(EMPTY, map[], [], map[], next, [])
  {
  }

  lemma {:induction false} RenumberedOrder(c: Lru)
    ensures Renumber(c).order == c.order && !Renumber(c).outdated
  {
  }

  lemma {:induction false} PutInFront(c: Lru, capacity: nat, r: Response)
    requires WellFormed(c) && 0 < capacity && |c.order| <= capacity
    ensures var c' := Put(c, capacity, r); c'.order != [] && NameOf(c'.order[0]) == NameOf(r)
  {
    Recency.PutOrder(c, capacity, r);
  }

  lemma {:induction false} AllListedStay(c: Lru, capacity: nat, list: seq<Response>, n: nat)
    requires WellFormed(c) && 0 < capacity && |c.order| <= capacity
    ensures |NameSet(Fusion.SplitAll(list))| <= capacity ==>
              forall s :: s in Fusion.SplitAll(list) && s.rtype.Run? && s.rtype.op != Broadcast && |s.devices| == n ==>
                NameOf(s) in PutAll(c, capacity, Insertions(list, n)).bits
  {
    if |NameSet(Fusion.SplitAll(list))| <= capacity {
      forall s | s in Fusion.SplitAll(list) && s.rtype.Run? && s.rtype.op != Broadcast && |s.devices| == n
        ensures NameOf(s) in PutAll(c, capacity, Insertions(list, n)).bits
      {
        Recency.ListedStay(c, capacity, list, n, s);
      }
    }
  }

  /** `view` and `kept` are the abstract value: the replica every rank holds, and the local
      parameters of its entries. */
  class ResponseCache {
    var capacity: nat
    var list: seq<Node>
    var nodes: map<Node, (Response, Params)>
    var nextNode: Node
    var iters: seq<Node>
    var nameToBit: map<string, nat>
    var outdated: bool
    ghost var view: Lru
    ghost var kept: map<string, Params>

    /** The abstract value is a bounded LRU list, and the fields represent it, whichever it is. */
    ghost predicate Valid()
      reads this
    {
      && WellFormed(view) && |view.order| <= capacity && kept.Keys == view.bits.Keys
      && StandsFor(view, kept, list, nodes, nextNode, iters, nameToBit, outdated, capacity)
    }

    ghost predicate IsRepresented()
      reads this
    {
      Represents(view, kept, list, nodes, nextNode, iters, nameToBit, outdated, capacity)
    }

    constructor ()
      ensures Valid() && capacity == 0 && view == EMPTY && kept == map[]
    {
      capacity, list, nodes, nextNode, iters, nameToBit, outdated := 0, [], map[], 0, [], map[], false;
      view, kept := EMPTY, map[];
    }

    /** ResponseCache::cached for a request. */
    method Cached(q: Request) returns (s: CacheState)
      requires Valid()
      ensures s == StateOf(view, kept, q)
      ensures s == Miss <==> q.name !in view.bits
      ensures s == Hit <==>
                && q.name in view.bits && q.name in kept && Has(view.order, q.name)
                && var e, p := Entry(view.order, q.name), kept[q.name];
                   && p.device == q.device && p.dtype == q.dtype && p.shape == q.shape
                   && e.prescale == q.prescale && e.postscale == q.postscale && e.rtype == Run(q.op)
    {
      IsWellFormed();
      HasIffNamed(view.order);
      if q.name in nameToBit {
        var bit := nameToBit[q.name];
        KnownNode(bit);
        var (r, p) := nodes[iters[bit]];
        s := if && p.device == q.device && p.dtype == q.dtype && p.shape == q.shape
                && r.prescale == q.prescale && r.postscale == q.postscale
                && r.rtype == Run(q.op)
             then Hit else Invalid;
      } else {
        s := Miss;
      }
    }

    /** ResponseCache::cached for a response and its parameters. */
    method CachedResponse(response: Response, params: Params) returns (s: CacheState)
      requires Valid()
      ensures s == StateOfResponse(view, kept, response, params)
      ensures s == Miss <==> NameOf(response) !in view.bits
      ensures s == Hit <==>
                && NameOf(response) in view.bits && NameOf(response) in kept && Has(view.order, NameOf(response))
                && kept[NameOf(response)] == params
                && var e := Entry(view.order, NameOf(response));
                   e.prescale == response.prescale && e.postscale == response.postscale && e.rtype == response.rtype
    {
      IsWellFormed();
      HasIffNamed(view.order);
      var name := NameOf(response);
      if name in nameToBit {
        var bit := nameToBit[name];
        KnownNode(bit);
        var (r, p) := nodes[iters[bit]];
        s := if && p.device == params.device && p.dtype == params.dtype && p.shape == params.shape
                && r.prescale == response.prescale && r.postscale == response.postscale
                && r.rtype == response.rtype
             then Hit else Invalid;
      } else {
        s := Miss;
      }
    }

    /** ResponseCache::peek_response. */
    method PeekResponse(bit: nat) returns (r: Response)
      requires Valid() && Live(view, bit)
      ensures r == Peek(view, bit)
    {
      KnownNode(bit);
      r := nodes[iters[bit]].0;
    }

    lemma {:induction false} IsWellFormed()
      requires Valid()
      ensures WellFormed(view) && |view.order| == |list| <= capacity && |view.slots| == |iters|
      ensures kept.Keys == view.bits.Keys && nameToBit == view.bits && outdated == view.outdated
    {
      StandsForNames(view, kept, list, nodes, nextNode, iters, nameToBit, outdated, capacity);
    }

    /** ResponseCache::num_active_bits. */
    method NumActiveBits() returns (n: nat)
      requires Valid()
      ensures n == |view.slots|
    {
      IsWellFormed();
      n := |iters|;
    }

    /** ResponseCache::peek_cache_bit. */
    method PeekCacheBit(name: string) returns (bit: nat)
      requires Valid() && name in view.bits
      ensures bit == view.bits[name] && Live(view, bit)
    {
      IsWellFormed();
      CachedBit(view, name);
      bit := nameToBit[name];
    }

    /** Install a new representation. */
    method Become(list': seq<Node>, nodes': Nodes, next': Node, iters': seq<Node>, bits': map<string, nat>,
                  outdated': bool, ghost view': Lru, ghost kept': map<string, Params>)
      requires StandsFor(view', kept', list', nodes', next', iters', bits', outdated', capacity)
      modifies this
      ensures Valid() && view == view' && kept == kept' && capacity == old(capacity)
    {
      StandsForNames(view', kept', list', nodes', next', iters', bits', outdated', capacity);
      list, nodes, nextNode, iters, nameToBit, outdated := list', nodes', next', iters', bits', outdated';
      view, kept := view', kept';
    }

    lemma {:induction false} KnownNode(bit: nat)
      requires Valid() && Live(view, bit)
      ensures bit < |iters| && iters[bit] in nodes && iters[bit] in list
      ensures var (r, p) := nodes[iters[bit]]; var name := NameOf(r);
              r == Peek(view, bit) && name == view.slots[bit].value && name in kept && kept[name] == p
    {
      assert IsRepresented();
      StandsAt(view, kept, list, nodes, nextNode, iters, bit);
    }

    /** Splice the node of a bit to the front of the list, under a new node. */
    method GetResponse(bit: nat) returns (r: Response)
      requires Valid() && Live(view, bit)
      modifies this
      ensures Valid() && kept == old(kept) && capacity == old(capacity)
      ensures view == Touch(old(view), old(view).slots[bit].value)
      ensures r == Peek(old(view), bit) && view.order != [] && view.order[0] == r
    {
      KnownNode(bit);
      SplicedStands(view, kept, list, nodes, nextNode, iters, nameToBit, outdated, capacity, bit);
      var id: Node := iters[bit];
      r := nodes[id].0;
      Become([nextNode] + Unlink(list, id), (nodes - {id})[nextNode := nodes[id]], nextNode + 1, iters[bit := nextNode],
             nameToBit, outdated, Touch(view, view.slots[bit].value), kept);
    }

    lemma {:induction false} LastIsKnown()
      requires Valid() && list != []
      ensures var last := |list| - 1;
              && |view.order| == |list| && list[last] in nodes && nodes[list[last]].0 == view.order[last]
              && NameOf(view.order[last]) in nameToBit && nameToBit == view.bits
    {
      assert IsRepresented();
      LastEntry(view, kept, list, nodes, nextNode, iters);
    }

    /** The least recently used entry makes room; the new entry takes over its bit. */
    method Evict(response: Response, params: Params)
      requires Valid() && 0 < capacity == |list| && NameOf(response) !in view.bits
      modifies this
      ensures Valid() && capacity == old(capacity)
      ensures view == Put(old(view), capacity, response)
      ensures kept == Restrict(old(kept)[NameOf(response) := params], view.bits.Keys)
    {
      LastIsKnown();
      var name, last := NameOf(response), |list| - 1;
      var victim := NameOf(nodes[list[last]].0);
      var bit := nameToBit[victim];
      EvictedStands(view, kept, list, nodes, nextNode, iters, nameToBit, outdated, capacity,
                    response, params, victim, bit);
      ghost var view' := Put(view, capacity, response);
      Become([nextNode] + list[..last], (nodes - {list[last]})[nextNode := (response, params)], nextNode + 1,
             iters[bit := nextNode], (nameToBit - {victim})[name := bit], outdated,
             view', Restrict(kept[name := params], view'.bits.Keys));
    }

    /** A new entry takes the next bit. */
    method Append(response: Response, params: Params)
      requires Valid() && |list| < capacity && NameOf(response) !in view.bits
      modifies this
      ensures Valid() && capacity == old(capacity)
      ensures view == Put(old(view), capacity, response)
      ensures kept == Restrict(old(kept)[NameOf(response) := params], view.bits.Keys)
    {
      IsWellFormed();
      AppendedStands(view, kept, list, nodes, nextNode, iters, nameToBit, outdated, capacity, response, params);
      var name := NameOf(response);
      ghost var view' := Put(view, capacity, response);
      Become([nextNode] + list, nodes[nextNode := (response, params)], nextNode + 1,
             iters + [nextNode], nameToBit[name := |iters|], outdated,
             view', Restrict(kept[name := params], view'.bits.Keys));
    }

    /** An entry that is already there becomes the most recently used. */
    method Refresh(response: Response)
      requires Valid() && 0 < capacity && NameOf(response) in view.bits
      modifies this
      ensures Valid() && capacity == old(capacity)
      ensures view == Put(old(view), capacity, response)
      ensures kept == Restrict(old(kept), view.bits.Keys)
    {
      IsWellFormed();
      CachedBit(view, NameOf(response));
      RestrictSame(kept, view.bits);
      var _ := GetResponse(nameToBit[NameOf(response)]);
    }

    /** ResponseCache::put_. It refuses to overwrite an entry whose parameters differ; an entry
        that is already there becomes the most recently used; otherwise the response is added in
        front, taking over the bit of the least recently used entry when the cache is full. */
    method PutOne(response: Response, params: Params) returns (ok: bool)
      requires Valid() && 0 < capacity
      modifies this
      ensures Valid() && capacity == old(capacity)
      ensures ok <==> StateOfResponse(old(view), old(kept), response, params) != Invalid
      ensures ok <==>
                (NameOf(response) in old(view).bits ==>
                   && NameOf(response) in old(kept) && old(kept)[NameOf(response)] == params
                   && Has(old(view).order, NameOf(response))
                   && var e := Entry(old(view).order, NameOf(response));
                      e.prescale == response.prescale && e.postscale == response.postscale && e.rtype == response.rtype)
      ensures !ok ==> view == old(view) && kept == old(kept)
      ensures ok ==> view == Put(old(view), capacity, response)
      ensures ok ==> view.order != [] && NameOf(view.order[0]) == NameOf(response)
      ensures ok ==>
                var name, was := NameOf(response), old(kept);
                kept == Restrict(if name in old(view).bits then was else was[name := params], view.bits.Keys)
    {
      IsWellFormed();
      PutInFront(view, capacity, response);
      MissIffNew(view, kept, response, params);
      var s := CachedResponse(response, params);
      ok := s != Invalid;
      if s == Hit {
        Refresh(response);
      } else if s == Miss {
        if |list| == capacity {
          Evict(response, params);
        } else {
          Append(response, params);
        }
      }
    }

    /** ResponseCache::erase_response. */
    method EraseResponse(bit: nat)
      requires Valid() && Live(view, bit)
      modifies this
      ensures Valid() && capacity == old(capacity)
      ensures view == EraseBit(old(view), bit)
      ensures kept == Restrict(old(kept), view.bits.Keys)
    {
      KnownNode(bit);
      RemovedStands(view, kept, list, nodes, nextNode, iters, nameToBit, outdated, capacity, bit);
      var id: Node := iters[bit];
      ghost var view' := EraseBit(view, bit);
      Become(Unlink(list, id), nodes - {id}, nextNode, iters[bit := END],
             nameToBit - {NameOf(nodes[id].0)}, true, view', Restrict(kept, view'.bits.Keys));
    }

    /** ResponseCache::update_cache_bits. */
    method UpdateCacheBits()
      requires Valid()
      modifies this
      ensures Valid() && capacity == old(capacity)
      ensures view == Renumber(old(view)) && kept == old(kept)
    {
      if outdated {
        NumberBits();
      } else {
        IsWellFormed();
      }
    }

    lemma {:induction false} CanCount()
      requires Valid()
      ensures |list| <= |iters| && nameToBit == view.bits
      ensures forall k :: 0 <= k < |list| ==> list[k] in nodes && NameOf(nodes[list[k]].0) in nameToBit
      ensures DistinctNames(OrderOf(list, nodes))
    {
      assert IsRepresented();
      CanNumber(view, kept, list, nodes, nextNode, iters);
    }

    /** Give out the bits anew, from the back of the list. */
    method NumberBits()
      requires Valid() && outdated
      modifies this
      ensures Valid() && capacity == old(capacity)
      ensures view == Renumber(old(view)) && kept == old(kept)
    {
      CanCount();
      var iters', bits' := NumberFromBack(list, nodes, iters, nameToBit);
      RenumberedStands(view, kept, list, nodes, nextNode, iters, nameToBit, outdated, capacity, iters', bits');
      Become(list, nodes, nextNode, iters', bits', false, Renumber(view), kept);
    }

    /** Put one of the split responses, with the parameters of its tensor. */
    method PutPiece(single: Response, table: map<string, Params>, ghost rs: seq<Response>, ghost i: nat)
      returns (ok: bool)
      requires Valid() && 0 < capacity && i < |rs| && rs[i] == single
      modifies this
      ensures Valid() && capacity == old(capacity)
      ensures !ok ==> PutParams(old(view), old(kept), capacity, table, rs[i..]).None?
      ensures ok ==> PutAll(old(view), capacity, rs[i..]) == PutAll(view, capacity, rs[i + 1..])
      ensures ok ==>
                PutParams(old(view), old(kept), capacity, table, rs[i..])
                  == PutParams(view, kept, capacity, table, rs[i + 1..])
      ensures Stored(old(view), old(kept), capacity, table, rs[i..])
              == if ok then Stored(view, kept, capacity, table, rs[i + 1..]) else (view, kept)
    {
      PutFirst(view, kept, capacity, table, rs, i);
      if NameOf(single) !in table {
        return false;
      }
      ok := PutOne(single, table[NameOf(single)]);
    }

    /** The loop of put over the split responses. */
    method PutPieces(rs: seq<Response>, table: map<string, Params>) returns (ok: bool)
      requires Valid() && 0 < capacity
      modifies this
      ensures Valid() && capacity == old(capacity)
      ensures var p := PutParams(old(view), old(kept), capacity, table, rs);
              (ok <==> p.Some?) && (ok ==> kept == p.value)
      ensures ok ==> view == PutAll(old(view), capacity, rs)
      ensures (view, kept) == Stored(old(view), old(kept), capacity, table, rs)
    {
      assert rs[0..] == rs;
      ok := true;
      var i := 0;
      while i < |rs| && ok
        invariant Valid() && capacity == old(capacity) && 0 <= i <= |rs|
        invariant ok ==> PutAll(old(view), capacity, rs) == PutAll(view, capacity, rs[i..])
        invariant ok ==>
                    PutParams(old(view), old(kept), capacity, table, rs)
                      == PutParams(view, kept, capacity, table, rs[i..])
        invariant !ok ==> PutParams(old(view), old(kept), capacity, table, rs).None?
        invariant Stored(old(view), old(kept), capacity, table, rs)
                  == if ok then Stored(view, kept, capacity, table, rs[i..]) else (view, kept)
      {
        ok := PutPiece(rs[i], table, rs, i);
        i := i + 1;
      }
      if ok {
        PutNone(view, kept, capacity, table, rs[i..]);
      }
    }

    /** ResponseCache::put: a fused response is split back before it is cached. It fails when a
        tensor is not in the tensor table or put_ refuses. */
    method PutResponse(response: Response, table: map<string, Params>) returns (ok: bool)
      requires Valid() && response.names != []
      modifies this
      ensures Valid() && capacity == old(capacity)
      ensures capacity == 0 ==> ok && view == old(view) && kept == old(kept)
      ensures capacity > 0 ==>
                var p := PutParams(old(view), old(kept), capacity, table, Fusion.Split(response));
                (ok <==> p.Some?)
                  && (ok ==> kept == p.value && view == PutAll(old(view), capacity, Fusion.Split(response)))
      ensures capacity > 0 ==> (view, kept) == Stored(old(view), old(kept), capacity, table, Fusion.Split(response))
    {
      ok := true;
      if capacity > 0 {
        var rs := Pieces(response);
        ok := PutPieces(rs, table);
      }
    }

    method InsertOne(responses: seq<Response>, i: nat, table: map<string, Params>, size: nat, ghost rs: seq<Response>)
      returns (ok: bool, ghost rest: seq<Response>)
      requires Valid() && 0 < capacity && i < |responses| && responses[i].names != []
               && rs == Insertions(responses[i..], size)
      modifies this
      ensures Valid() && capacity == old(capacity) && rest == Insertions(responses[i + 1..], size)
      ensures !ok ==> PutParams(old(view), old(kept), capacity, table, rs).None?
      ensures ok ==> PutAll(old(view), capacity, rs) == PutAll(view, capacity, rest)
      ensures ok ==>
                PutParams(old(view), old(kept), capacity, table, rs) == PutParams(view, kept, capacity, table, rest)
      ensures Stored(old(view), old(kept), capacity, table, rs)
              == if ok then Stored(view, kept, capacity, table, rest) else (view, kept)
    {
      ok, rest := true, Insertions(responses[i + 1..], size);
      InsertNext(view, kept, capacity, table, responses, size, i);
      if Cacheable(responses[i], size) {
        ok := PutResponse(responses[i], table);
      }
    }

    /** The last loop of ComputeResponseList: every rank inserts the cacheable responses of the
        list it got from the coordinator. */
    method InsertAll(responses: seq<Response>, table: map<string, Params>, size: nat) returns (ok: bool)
      requires Valid() && 0 < capacity && forall i :: 0 <= i < |responses| ==> responses[i].names != []
      modifies this
      ensures Valid() && capacity == old(capacity)
      ensures var p := PutParams(old(view), old(kept), capacity, table, Insertions(responses, size));
              (ok <==> p.Some?) && (ok ==> kept == p.value)
      ensures ok ==> view == PutAll(old(view), capacity, Insertions(responses, size))
      ensures (view, kept) == Stored(old(view), old(kept), capacity, table, Insertions(responses, size))
      ensures ok && |NameSet(Fusion.SplitAll(responses))| <= capacity ==>
                forall s :: s in Fusion.SplitAll(responses) ==>
                  s.rtype.Run? && s.rtype.op != Broadcast && |s.devices| == size ==> NameOf(s) in view.bits
    {
      IsWellFormed();
      assert responses[0..] == responses;
      ghost var rs := Insertions(responses, size);
      ghost var rest := rs;
      ok := true;
      var i := 0;
      while i < |responses| && ok
        invariant Valid() && capacity == old(capacity) && 0 <= i <= |responses|
                  && rest == Insertions(responses[i..], size)
        invariant ok ==> PutAll(old(view), capacity, rs) == PutAll(view, capacity, rest)
        invariant ok ==>
                    PutParams(old(view), old(kept), capacity, table, rs) == PutParams(view, kept, capacity, table, rest)
        invariant !ok ==> PutParams(old(view), old(kept), capacity, table, rs).None?
        invariant Stored(old(view), old(kept), capacity, table, rs)
                  == if ok then Stored(view, kept, capacity, table, rest) else (view, kept)
      {
        ok, rest := InsertOne(responses, i, table, size, rest);
        i := i + 1;
      }
      if ok {
        PutNone(view, kept, capacity, table, rest);
        AllListedStay(old(view), capacity, responses, size);
      }
    }

    /** ResponseCache::clear. */
    method Clear()
      requires Valid()
      modifies this
      ensures Valid() && capacity == old(capacity) && view == EMPTY && kept == map[]
    {
      EmptyStands(view, kept, list, nodes, nextNode, iters, nameToBit, outdated, capacity);
      Become([], map[], nextNode, [], map[], false, EMPTY, map[]);
    }

    /** ResponseCache::set_capacity: a change of capacity empties the cache. */
    method SetCapacity(n: nat)
      requires Valid()
      modifies this
      ensures Valid() && capacity == n
      ensures if n == old(capacity) then view == old(view) && kept == old(kept) else view == EMPTY && kept == map[]
    {
      if n != capacity {
        Clear();
      }
      ResizedStands(view, kept, list, nodes, nextNode, iters, nameToBit, outdated, capacity, n);
      capacity := n;
    }
  }
}
