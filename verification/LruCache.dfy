/** The response cache as a value: a bounded list of responses, most recently used first,
    and a numbering of the cached names by bits. Every rank holds such a replica; what a rank
    remembers of its own tensors (`Params`) is kept beside it. */
module LruCache {
  import opened Messages

  datatype CacheState = Miss | Hit | Invalid

  /** `order` is the LRU list, front first. `bits` gives each cached name its bit and
      `slots` is the inverse; `None` marks a bit whose entry was erased. */
  datatype Lru = Lru(order: seq<Response>, bits: map<string, nat>, slots: seq<Option<string>>, outdated: bool)

  const EMPTY := Lru([], map[], [], false)

  /** Place of the response named `name`; the length of the list when there is none. */
  function IndexOf(order: seq<Response>, name: string): (i: nat)
    ensures i <= |order|
    ensures i < |order| ==> NameOf(order[i]) == name
    ensures forall j :: 0 <= j < i ==> NameOf(order[j]) != name
  {
    if order == [] || NameOf(order[0]) == name then 0 else 1 + IndexOf(order[1..], name)
  }

  predicate Has(order: seq<Response>, name: string) {
    IndexOf(order, name) < |order|
  }

  function Entry(order: seq<Response>, name: string): (r: Response)
    requires Has(order, name)
    ensures r in order && NameOf(r) == name
  {
    order[IndexOf(order, name)]
  }

  function Without(order: seq<Response>, name: string): seq<Response>
    requires Has(order, name)
  {
    order[..IndexOf(order, name)] + order[IndexOf(order, name) + 1..]
  }

  ghost function NameSet(order: seq<Response>): set<string> {
    set r | r in order :: NameOf(r)
  }

  ghost predicate DistinctNames(order: seq<Response>) {
    forall i, j :: 0 <= i < j < |order| ==> NameOf(order[i]) != NameOf(order[j])
  }

  ghost predicate Inverse(bits: map<string, nat>, slots: seq<Option<string>>) {
    && (forall n :: n in bits ==> bits[n] < |slots| && slots[bits[n]] == Some(n))
    && (forall b :: 0 <= b < |slots| && slots[b].Some? ==> slots[b].value in bits && bits[slots[b].value] == b)
  }

  /** Names and live bits are in bijection, and there is a hole only between an erasure and
      the next renumbering. */
  ghost predicate WellFormed(c: Lru) {
    match c
    case Lru(order, bits, slots, outdated) =>
      && DistinctNames(order)
      && bits.Keys == NameSet(order)
      && Inverse(bits, slots)
      && |order| <= |slots|
      && (!outdated ==> |order| == |slots| && forall b :: 0 <= b < |slots| ==> slots[b].Some?)
  }

  predicate Live(c: Lru, bit: nat) {
    bit < |c.slots| && c.slots[bit].Some? && Has(c.order, c.slots[bit].value)
  }

  /** ResponseCache::peek_response. */
  function Peek(c: Lru, bit: nat): Response
    requires Live(c, bit)
  {
    Entry(c.order, c.slots[bit].value)
  }

  /** Move an entry to the front. */
  function Touch(c: Lru, name: string): Lru
    requires Has(c.order, name)
  {
    c.(order := [Entry(c.order, name)] + Without(c.order, name))
  }

  /** ResponseCache::put_ for a name that is cached (with the same parameters) or not. */
  function Put(c: Lru, capacity: nat, r: Response): Lru
    requires WellFormed(c) && capacity > 0
  {
    var name := NameOf(r);
    if name in c.bits then Touch(c, name)
    else if |c.order| == capacity then
      var victim := NameOf(c.order[|c.order| - 1]);
      LastIsCached(c);
      var bit := c.bits[victim];
      Lru([r] + c.order[..|c.order| - 1], (c.bits - {victim})[name := bit], c.slots[bit := Some(name)], c.outdated)
    else
      Lru([r] + c.order, c.bits[name := |c.slots|], c.slots + [Some(name)], c.outdated)
  }

  /** ResponseCache::erase_response. */
  function EraseBit(c: Lru, bit: nat): Lru
    requires Live(c, bit)
  {
    var name := c.slots[bit].value;
    Lru(Without(c.order, name), c.bits - {name}, c.slots[bit := None], true)
  }

  /** Bits given out from the back of the list. */
  function BackBits(order: seq<Response>): map<string, nat> {
    map r | r in order :: NameOf(r) := |order| - 1 - IndexOf(order, NameOf(r))
  }

  /** ResponseCache::update_cache_bits: the least recently used entry gets bit 0. */
  function Renumber(c: Lru): Lru {
    if !c.outdated then c
    else
      var n := |c.order|;
      Lru(c.order,
          BackBits(c.order),
          seq(n, i requires 0 <= i < n => Some(NameOf(c.order[n - 1 - i]))),
          false)
  }

  // ---------------------------------------------------------------- the list

  lemma {:induction false} IndexOfMember(order: seq<Response>, i: nat)
    requires i < |order| && DistinctNames(order)
    ensures IndexOf(order, NameOf(order[i])) == i
  {
    var k := IndexOf(order, NameOf(order[i]));
    assert k <= i && NameOf(order[k]) == NameOf(order[i]);
  }

  lemma {:induction false} HasMember(order: seq<Response>, r: Response)
    requires r in order
    ensures Has(order, NameOf(r))
  {
  }

  lemma {:induction false} LastIsCached(c: Lru)
    requires WellFormed(c) && c.order != []
    ensures NameOf(c.order[|c.order| - 1]) in c.bits
  {
    HasMember(c.order, c.order[|c.order| - 1]);
  }

  /** An entry is determined by its name. */
  lemma {:induction false} EntryUnique(order: seq<Response>, r: Response)
    requires DistinctNames(order) && r in order
    ensures Has(order, NameOf(r)) && Entry(order, NameOf(r)) == r
  {
    var i :| 0 <= i < |order| && order[i] == r;
    IndexOfMember(order, i);
  }

  lemma {:induction false} HasIffNamed(order: seq<Response>)
    ensures forall n :: Has(order, n) <==> n in NameSet(order)
  {
    forall n ensures Has(order, n) <==> n in NameSet(order) {
      if Has(order, n) { assert order[IndexOf(order, n)] in order; }
    }
  }

  lemma {:induction false} WithoutFacts(order: seq<Response>, name: string)
    requires DistinctNames(order) && Has(order, name)
    ensures DistinctNames(Without(order, name)) && |Without(order, name)| == |order| - 1
    ensures forall r :: r in Without(order, name) <==> r in order && NameOf(r) != name
    ensures NameSet(Without(order, name)) == NameSet(order) - {name}
  {
    var k, w := IndexOf(order, name), Without(order, name);
    forall i | 0 <= i < |w| ensures w[i] == order[if i < k then i else i + 1] {}
    forall r | r in order && NameOf(r) != name ensures r in w {
      var i :| 0 <= i < |order| && order[i] == r;
      assert w[if i < k then i else i - 1] == r;
    }
  }

  lemma {:induction false} ConsFacts(r: Response, order: seq<Response>)
    requires DistinctNames(order) && forall x :: x in order ==> NameOf(x) != NameOf(r)
    ensures DistinctNames([r] + order)
    ensures forall x :: x in [r] + order <==> x == r || x in order
    ensures NameSet([r] + order) == NameSet(order) + {NameOf(r)}
  {
  }

  lemma {:induction false} DropLastFacts(order: seq<Response>)
    requires DistinctNames(order) && order != []
    ensures var front := order[..|order| - 1]; var last := order[|order| - 1];
            && DistinctNames(front)
            && NameSet(front) == NameSet(order) - {NameOf(last)}
            && forall r :: r in front <==> r in order && NameOf(r) != NameOf(last)
  {
    var n := |order| - 1;
    var front := order[..n];
    forall r | r in order && NameOf(r) != NameOf(order[n]) ensures r in front {
      var i :| 0 <= i < |order| && order[i] == r;
      assert front[i] == r;
    }
  }

  /** Two lists with the same members have the same entries. */
  lemma {:induction false} SameEntry(a: seq<Response>, b: seq<Response>, n: string)
    requires DistinctNames(a) && DistinctNames(b) && Has(a, n) && Entry(a, n) in b
    ensures Has(b, n) && Entry(b, n) == Entry(a, n)
  {
    EntryUnique(b, Entry(a, n));
  }

  // ---------------------------------------------------------------- the operations

  lemma {:induction false} TouchFacts(c: Lru, name: string)
    requires WellFormed(c) && name in c.bits
    ensures WellFormed(Touch(c, name))
    ensures forall r :: r in Touch(c, name).order <==> r in c.order
  {
    var c' := Touch(c, name);
    var e := Entry(c.order, name);
    WithoutFacts(c.order, name);
    ConsFacts(e, Without(c.order, name));
    forall r | r in c.order ensures r in c'.order {
      if NameOf(r) == name { EntryUnique(c.order, r); }
    }
  }

  /** Inserting a response keeps the numbering a bijection and the list within capacity; the
      new response is cached and nothing else is added. */
  lemma {:induction false} PutFacts(c: Lru, capacity: nat, r: Response)
    requires WellFormed(c) && 0 < capacity && |c.order| <= capacity
    ensures var c' := Put(c, capacity, r);
            && WellFormed(c') && |c'.order| <= capacity
            && c'.outdated == c.outdated
            && NameOf(r) in c'.bits
            && (NameOf(r) !in c.bits ==> r in c'.order)
            && (forall x :: x in c'.order ==> x in c.order || x == r)
            && (NameOf(r) in c.bits ==> forall x :: x in c'.order <==> x in c.order)
  {
    var c' := Put(c, capacity, r);
    if NameOf(r) in c.bits {
      TouchFacts(c, NameOf(r));
    } else {
      forall x | x in c.order ensures NameOf(x) != NameOf(r) { HasMember(c.order, x); }
      if |c.order| == capacity { EvictFacts(c, capacity, r); } else { AppendFacts(c, capacity, r); }
    }
  }

  lemma {:induction false} AppendFacts(c: Lru, capacity: nat, r: Response)
    requires WellFormed(c) && 0 < capacity && |c.order| < capacity && NameOf(r) !in c.bits
    requires forall x :: x in c.order ==> NameOf(x) != NameOf(r)
    ensures var c' := Put(c, capacity, r);
            WellFormed(c') && r in c'.order && forall x :: x in c'.order ==> x in c.order || x == r
  {
    var c' := Put(c, capacity, r);
    ConsFacts(r, c.order);
    assert c'.order == [r] + c.order;
    NextBit(c.bits, c.slots, NameOf(r));
  }

  /** A new name may take the next bit. */
  lemma {:induction false} NextBit(bits: map<string, nat>, slots: seq<Option<string>>, name: string)
    requires Inverse(bits, slots) && name !in bits
    ensures Inverse(bits[name := |slots|], slots + [Some(name)])
  {
  }

  lemma {:induction false} EvictFacts(c: Lru, capacity: nat, r: Response)
    requires WellFormed(c) && 0 < capacity == |c.order| && NameOf(r) !in c.bits
    requires forall x :: x in c.order ==> NameOf(x) != NameOf(r)
    ensures var c' := Put(c, capacity, r);
            WellFormed(c') && r in c'.order && forall x :: x in c'.order ==> x in c.order || x == r
  {
    LastIsCached(c);
    ReplaceLast(c.order, r);
    ReuseBit(c.bits, c.slots, NameOf(c.order[|c.order| - 1]), NameOf(r));
  }

  lemma {:induction false} ReplaceLast(order: seq<Response>, r: Response)
    requires DistinctNames(order) && order != [] && forall x :: x in order ==> NameOf(x) != NameOf(r)
    ensures var last := |order| - 1; var order' := [r] + order[..last];
            && DistinctNames(order') && NameSet(order') == NameSet(order) - {NameOf(order[last])} + {NameOf(r)}
            && r in order' && forall x :: x in order' ==> x in order || x == r
  {
    DropLastFacts(order);
    ConsFacts(r, order[..|order| - 1]);
  }

  /** A new name may take over the bit of an evicted one. */
  lemma {:induction false} ReuseBit(bits: map<string, nat>, slots: seq<Option<string>>, victim: string, name: string)
    requires Inverse(bits, slots) && victim in bits && name !in bits
    ensures Inverse((bits - {victim})[name := bits[victim]], slots[bits[victim] := Some(name)])
  {
    var bits' := (bits - {victim})[name := bits[victim]];
    forall n | n in bits' && n != name ensures bits'[n] == bits[n] != bits[victim] {}
  }

  lemma {:induction false} EraseFacts(c: Lru, bit: nat)
    requires WellFormed(c) && Live(c, bit)
    ensures var c' := EraseBit(c, bit);
            && WellFormed(c')
            && |c'.order| <= |c.order|
            && c'.outdated
            && (forall n :: n in c'.bits <==> n in c.bits && c.bits[n] != bit)
            && (forall n :: n in c'.bits ==> c'.bits[n] == c.bits[n])
            && forall r :: r in c'.order <==> r in c.order && NameOf(r) != c.slots[bit].value
  {
    var c' := EraseBit(c, bit);
    var name := c.slots[bit].value;
    WithoutFacts(c.order, name);
    assert c.bits[name] == bit;
  }

  /** Renumbering leaves the list alone and leaves no hole: the bits are 0 .. size-1, given out from
      the least recently used entry on. */
  lemma {:induction false} RenumberFacts(c: Lru)
    requires WellFormed(c)
    ensures WellFormed(Renumber(c)) && !Renumber(c).outdated
    ensures Renumber(c).order == c.order && Renumber(c).bits.Keys == c.bits.Keys
    ensures if c.outdated
            then forall i :: 0 <= i < |c.order| ==>
                   NameOf(c.order[i]) in c.bits && Renumber(c).bits[NameOf(c.order[i])] == |c.order| - 1 - i
            else Renumber(c) == c
  {
    forall i | 0 <= i < |c.order| ensures NameOf(c.order[i]) in c.bits && IndexOf(c.order, NameOf(c.order[i])) == i {
      assert c.order[i] in c.order;
      IndexOfMember(c.order, i);
    }
    if c.outdated {
      RenumberedNames(c);
      RenumberedBits(c);
      assert Inverse(Renumber(c).bits, Renumber(c).slots);
    }
  }

  lemma {:induction false} RenumberedNames(c: Lru)
    requires c.outdated
    ensures var c' := Renumber(c);
            && c'.bits.Keys == NameSet(c.order)
            && forall m :: m in c'.bits ==> c'.bits[m] < |c'.slots| && c'.slots[c'.bits[m]] == Some(m)
  {
    var c' := Renumber(c);
    assert c'.bits.Keys == NameSet(c.order);
    forall m | m in c'.bits ensures c'.bits[m] < |c'.slots| && c'.slots[c'.bits[m]] == Some(m) {
      HasIffNamed(c.order);
      assert c'.bits[m] == |c.order| - 1 - IndexOf(c.order, m);
    }
  }

  lemma {:induction false} RenumberedBits(c: Lru)
    requires WellFormed(c) && c.outdated
    ensures var c' := Renumber(c);
            && |c'.slots| == |c.order|
            && forall b :: 0 <= b < |c'.slots| ==>
                 c'.slots[b].Some? && c'.slots[b].value in c'.bits && c'.bits[c'.slots[b].value] == b
  {
    var c' := Renumber(c);
    var n := |c.order|;
    forall b | 0 <= b < n
      ensures c'.slots[b].Some? && c'.slots[b].value in c'.bits && c'.bits[c'.slots[b].value] == b
    {
      IndexOfMember(c.order, n - 1 - b);
      assert c.order[n - 1 - b] in c.order;
    }
  }
}
