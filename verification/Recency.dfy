/** Least recently used: what the cache list holds, and in which order, as a function of the uses
    of its entries. */
module Recency {
  import opened Messages
  import opened LruCache
  import opened Protocol
  import opened Seqs
  import Fusion
  import Negotiation

  function Names(order: seq<Response>): (names: seq<string>)
    ensures |names| == |order|
  {
    if order == [] then [] else [NameOf(order[0])] + Names(order[1..])
  }

  /** A list that was there before counts as uses of its entries, the last entry first. */
  function Backwards(names: seq<string>): seq<string> {
    if names == [] then [] else Backwards(names[1..]) + [names[0]]
  }

  /** What was used since the last use of `x`. */
  function Since(uses: seq<string>, x: string): seq<string> {
    if uses == [] || uses[|uses| - 1] == x then [] else Since(uses[..|uses| - 1], x) + [uses[|uses| - 1]]
  }

  ghost function Elements(s: seq<string>): set<string> {
    set x | x in s
  }

  /** Before the entry at `k` are exactly the names used since its own last use. */
  ghost predicate Placed(names: seq<string>, uses: seq<string>, k: nat)
    requires k < |names|
  {
    names[k] in uses && Elements(Since(uses, names[k])) == Elements(names[..k])
  }

  ghost predicate Sorted(names: seq<string>, uses: seq<string>) {
    forall k {:trigger Placed(names, uses, k)} :: 0 <= k < |names| ==> Placed(names, uses, k)
  }

  /** A name that fewer than `capacity` others followed is still there. */
  ghost predicate Remains(names: seq<string>, capacity: nat, uses: seq<string>, x: string) {
    x in uses && |Elements(Since(uses, x))| < capacity ==> x in names
  }

  /** The list is in order of last use, and what fits is kept. */
  ghost predicate InOrder(names: seq<string>, capacity: nat, uses: seq<string>) {
    Sorted(names, uses) && forall x {:trigger Remains(names, capacity, uses, x)} :: Remains(names, capacity, uses, x)
  }

  lemma {:induction false} SinceNext(uses: seq<string>, y: string, x: string)
    ensures Since(uses + [y], x) == if x == y then [] else Since(uses, x) + [y]
    ensures Elements(Since(uses + [y], x)) == if x == y then {} else Elements(Since(uses, x)) + {y}
  {
    assert (uses + [y])[..|uses|] == uses;
  }

  lemma {:induction false} DistinctSize(s: seq<string>)
    requires Distinct(s)
    ensures |Elements(s)| == |s|
  {
    if s != [] {
      var front := s[..|s| - 1];
      DistinctSize(front);
      assert Elements(s) == Elements(front) + {s[|s| - 1]};
    }
  }

  lemma {:induction false} NamesAt(order: seq<Response>, k: nat)
    requires k < |order|
    ensures Names(order)[k] == NameOf(order[k])
  {
    if k > 0 { NamesAt(order[1..], k - 1); }
  }

  lemma {:induction false} NamesConcat(a: seq<Response>, b: seq<Response>)
    ensures Names(a + b) == Names(a) + Names(b)
  {
    if a == [] {
      assert a + b == b;
    } else {
      assert (a + b)[1..] == a[1..] + b;
      NamesConcat(a[1..], b);
    }
  }

  lemma {:induction false} NamesDistinct(order: seq<Response>)
    requires DistinctNames(order)
    ensures Distinct(Names(order)) && Elements(Names(order)) == NameSet(order)
  {
    forall k | 0 <= k < |order| ensures Names(order)[k] == NameOf(order[k]) && order[k] in order { NamesAt(order, k); }
  }

  // ---------------------------------------------------------------- one use

  /** The name used comes to the front of a list with it, and over all of a list that has room, or
      over all but the last name of a full list. */
  function Used(names: seq<string>, capacity: nat, x: string): seq<string>
    requires 0 < capacity
  {
    if x in names then var k := Place(names, x); [x] + (names[..k] + names[k + 1..])
    else if |names| < capacity then [x] + names
    else [x] + names[..capacity - 1]
  }

  function Place(names: seq<string>, x: string): (k: nat)
    requires x in names
    ensures k < |names| && names[k] == x
  {
    if names[0] == x then 0 else 1 + Place(names[1..], x)
  }

  lemma {:induction false} PutMoves(c: Lru, capacity: nat, r: Response, k: nat)
    requires WellFormed(c) && 0 < capacity && k < |c.order| && NameOf(c.order[k]) == NameOf(r)
    ensures Put(c, capacity, r).order == [c.order[k]] + (c.order[..k] + c.order[k + 1..])
  {
    IndexOfMember(c.order, k);
    assert c.order[k] in c.order;
  }

  lemma {:induction false} PutAdds(c: Lru, capacity: nat, r: Response, m: nat)
    requires WellFormed(c) && 0 < capacity && |c.order| <= capacity && NameOf(r) !in NameSet(c.order)
    requires m == if |c.order| < capacity then |c.order| else capacity - 1
    ensures Put(c, capacity, r).order == [r] + c.order[..m]
  {
  }

  /** Of the old list, what is still there keeps its order, and the new front is the name used. */
  lemma {:induction false} PutOrder(c: Lru, capacity: nat, r: Response)
    requires WellFormed(c) && 0 < capacity && |c.order| <= capacity
    ensures var o, o' := c.order, Put(c, capacity, r).order;
            && o' != [] && NameOf(o'[0]) == NameOf(r)
            && (forall k :: 0 <= k < |o| && NameOf(o[k]) == NameOf(r) ==> o' == [o[k]] + (o[..k] + o[k + 1..]))
            && (NameOf(r) !in NameSet(o) && |o| < capacity ==> o' == [r] + o)
            && (NameOf(r) !in NameSet(o) && |o| == capacity ==> o' == [r] + o[..capacity - 1])
  {
    forall k | 0 <= k < |c.order| && NameOf(c.order[k]) == NameOf(r)
      ensures Put(c, capacity, r).order == [c.order[k]] + (c.order[..k] + c.order[k + 1..])
    {
      PutMoves(c, capacity, r, k);
    }
    if NameOf(r) !in NameSet(c.order) {
      PutAdds(c, capacity, r, if |c.order| < capacity then |c.order| else capacity - 1);
    }
  }

  lemma {:induction false} MovedAt(names: seq<string>, k: nat, uses: seq<string>, i: nat)
    requires Distinct(names) && k < |names| && Sorted(names, uses) && i < |names|
    ensures Placed([names[k]] + (names[..k] + names[k + 1..]), uses + [names[k]], i)
  {
    var x, names' := names[k], [names[k]] + (names[..k] + names[k + 1..]);
    SinceNext(uses, x, names'[i]);
    if i > 0 {
      var j := if i <= k then i - 1 else i;
      assert names'[i] == names[j] && Placed(names, uses, j);
      MovedNames(names, k, i, j);
    }
  }

  lemma {:induction false} MovedNames(names: seq<string>, k: nat, i: nat, j: nat)
    requires k < |names| && 0 < i < |names| && j == if i <= k then i - 1 else i
    ensures var names' := [names[k]] + (names[..k] + names[k + 1..]);
            Elements(names'[..i]) == Elements(names[..j]) + {names[k]}
  {
    var names' := [names[k]] + (names[..k] + names[k + 1..]);
    if i <= k {
      assert names'[..i] == [names[k]] + names[..j];
    } else {
      assert names'[..i] == [names[k]] + (names[..k] + names[k + 1..i]);
      assert names[..i] == names[..k] + [names[k]] + names[k + 1..i];
    }
  }

  lemma {:induction false} AddedAt(names: seq<string>, x: string, m: nat, uses: seq<string>, i: nat)
    requires x !in names && m <= |names| && Sorted(names, uses) && i <= m
    ensures Placed([x] + names[..m], uses + [x], i)
  {
    var names' := [x] + names[..m];
    SinceNext(uses, x, names'[i]);
    if i > 0 {
      assert names'[i] == names[i - 1] && Placed(names, uses, i - 1);
      assert names'[..i] == [x] + names[..i - 1];
    }
  }

  lemma {:induction false} UsedSorted(names: seq<string>, capacity: nat, x: string, uses: seq<string>)
    requires 0 < capacity && |names| <= capacity && Distinct(names) && Sorted(names, uses)
    ensures Sorted(Used(names, capacity, x), uses + [x])
  {
    var names', uses' := Used(names, capacity, x), uses + [x];
    forall i {:trigger Placed(names', uses', i)} | 0 <= i < |names'| ensures Placed(names', uses', i) {
      if x in names {
        MovedAt(names, Place(names, x), uses, i);
      } else {
        var m := if |names| < capacity then |names| else capacity - 1;
        assert names' == [x] + names[..m];
        AddedAt(names, x, m, uses, i);
      }
    }
  }

  /** When the last name of a full list goes, `capacity` others have been used since its last use. */
  lemma {:induction false} LastGoes(names: seq<string>, x: string, uses: seq<string>)
    requires Distinct(names) && Sorted(names, uses) && x !in names && names != []
    ensures |Elements(Since(uses + [x], names[|names| - 1]))| == |names|
  {
    var last := |names| - 1;
    SinceNext(uses, x, names[last]);
    assert Placed(names, uses, last);
    DistinctSize(names[..last]);
  }

  lemma {:induction false} UsedKeeps(names: seq<string>, capacity: nat, x: string, uses: seq<string>, y: string)
    requires 0 < capacity && |names| <= capacity && Distinct(names) && Sorted(names, uses)
    requires Remains(names, capacity, uses, y)
    ensures Remains(Used(names, capacity, x), capacity, uses + [x], y)
  {
    var names', uses' := Used(names, capacity, x), uses + [x];
    SinceNext(uses, x, y);
    if y == x {
      assert names'[0] == x;
    } else if y in uses' && |Elements(Since(uses', y))| < capacity {
      Negotiation.SubsetSize(Elements(Since(uses, y)), Elements(Since(uses', y)));
      if x !in names && |names| == capacity && y == names[capacity - 1] {
        LastGoes(names, x, uses);
      } else {
        StillThere(names, capacity, x, y);
      }
    }
  }

  lemma {:induction false} StillThere(names: seq<string>, capacity: nat, x: string, y: string)
    requires 0 < capacity && |names| <= capacity && y in names
    requires |names| == capacity && x !in names ==> y != names[capacity - 1]
    ensures y in Used(names, capacity, x)
  {
    var j :| 0 <= j < |names| && names[j] == y;
    if x in names {
      var k := Place(names, x);
      assert names == names[..k] + [x] + names[k + 1..];
    }
  }

  lemma {:induction false} PutUses(c: Lru, capacity: nat, r: Response)
    requires WellFormed(c) && 0 < capacity && |c.order| <= capacity
    ensures Names(Put(c, capacity, r).order) == Used(Names(c.order), capacity, NameOf(r))
  {
    var o := c.order;
    NamesDistinct(o);
    if NameOf(r) in Names(o) {
      var k := Place(Names(o), NameOf(r));
      NamesAt(o, k);
      PutMoves(c, capacity, r, k);
      NamesMoved(o, k);
    } else {
      var m := if |o| < capacity then |o| else capacity - 1;
      PutAdds(c, capacity, r, m);
      NamesAdded(o, r, m);
    }
  }

  lemma {:induction false} NamesMoved(o: seq<Response>, k: nat)
    requires k < |o|
    ensures var names := Names(o);
            Names([o[k]] + (o[..k] + o[k + 1..])) == [NameOf(o[k])] + (names[..k] + names[k + 1..])
  {
    NamesCut(o, k);
    NamesConcat([o[k]], o[..k] + o[k + 1..]);
  }

  lemma {:induction false} NamesAdded(o: seq<Response>, r: Response, m: nat)
    requires m <= |o|
    ensures Names([r] + o[..m]) == [NameOf(r)] + Names(o)[..m]
    ensures m == |o| ==> o[..m] == o && Names(o)[..m] == Names(o)
  {
    assert o == o[..m] + o[m..];
    NamesConcat(o[..m], o[m..]);
    NamesConcat([r], o[..m]);
  }

  lemma {:induction false} NamesCut(o: seq<Response>, k: nat)
    requires k < |o|
    ensures Names(o[..k]) == Names(o)[..k] && Names(o[..k] + o[k + 1..]) == Names(o)[..k] + Names(o)[k + 1..]
  {
    assert o == o[..k] + ([o[k]] + o[k + 1..]);
    NamesConcat(o[..k], [o[k]] + o[k + 1..]);
    NamesConcat([o[k]], o[k + 1..]);
    NamesConcat(o[..k], o[k + 1..]);
  }

  lemma {:induction false} PutInOrder(c: Lru, capacity: nat, r: Response, uses: seq<string>)
    requires WellFormed(c) && 0 < capacity && |c.order| <= capacity && InOrder(Names(c.order), capacity, uses)
    ensures InOrder(Names(Put(c, capacity, r).order), capacity, uses + [NameOf(r)])
  {
    var names, x := Names(c.order), NameOf(r);
    NamesDistinct(c.order);
    PutUses(c, capacity, r);
    UsedSorted(names, capacity, x, uses);
    forall y {:trigger Remains(Used(names, capacity, x), capacity, uses + [x], y)}
      ensures Remains(Used(names, capacity, x), capacity, uses + [x], y)
    {
      UsedKeeps(names, capacity, x, uses, y);
    }
  }

  /** A name keeps its bit as long as it is cached; a new one takes over the bit of the entry that
      makes room, or the next bit. */
  lemma {:induction false} PutBits(c: Lru, capacity: nat, r: Response)
    requires WellFormed(c) && 0 < capacity && |c.order| <= capacity
    ensures var c' := Put(c, capacity, r);
            && (forall n :: n in c.bits && n in c'.bits ==> c'.bits[n] == c.bits[n])
            && (NameOf(r) !in c.bits && |c.order| < capacity ==>
                  c'.bits.Keys == c.bits.Keys + {NameOf(r)} && c'.bits[NameOf(r)] == |c.slots|)
            && (NameOf(r) !in c.bits && |c.order| == capacity ==>
                  var victim := NameOf(c.order[capacity - 1]);
                  && victim in c.bits && c'.bits.Keys == c.bits.Keys - {victim} + {NameOf(r)}
                  && c'.bits[NameOf(r)] == c.bits[victim])
  {
    if c.order != [] { LastIsCached(c); }
  }

  /** Erasing an entry leaves the others in their order. */
  lemma {:induction false} EraseOrder(c: Lru, bit: nat, k: nat)
    requires WellFormed(c) && Live(c, bit) && k < |c.order| && NameOf(c.order[k]) == c.slots[bit].value
    ensures EraseBit(c, bit).order == c.order[..k] + c.order[k + 1..]
  {
    IndexOfMember(c.order, k);
  }

  lemma {:induction false} TouchInOrder(c: Lru, capacity: nat, x: string, uses: seq<string>)
    requires WellFormed(c) && |c.order| <= capacity && x in c.bits && InOrder(Names(c.order), capacity, uses)
    ensures Has(c.order, x) && InOrder(Names(Touch(c, x).order), capacity, uses + [x])
  {
    HasIffNamed(c.order);
    var e := Entry(c.order, x);
    assert capacity > 0;
    PutInOrder(c, capacity, e, uses);
  }

  // ---------------------------------------------------------------- many uses

  lemma {:induction false} StartAt(names: seq<string>, k: nat)
    requires Distinct(names) && k < |names|
    ensures Placed(names, Backwards(names), k)
    decreases |names|
  {
    var rest := names[1..];
    SinceNext(Backwards(rest), names[0], names[k]);
    if k > 0 {
      StartAt(rest, k - 1);
      assert names[..k] == [names[0]] + rest[..k - 1];
    }
  }

  lemma {:induction false} StartsInOrder(names: seq<string>, capacity: nat)
    requires Distinct(names)
    ensures InOrder(names, capacity, Backwards(names))
  {
    var uses := Backwards(names);
    forall k {:trigger Placed(names, uses, k)} | 0 <= k < |names| ensures Placed(names, uses, k) {
      StartAt(names, k);
    }
    SameElements(names);
  }

  lemma {:induction false} SameElements(names: seq<string>)
    ensures forall x :: x in Backwards(names) <==> x in names
  {
    if names != [] {
      SameElements(names[1..]);
      assert names == [names[0]] + names[1..];
    }
  }

  lemma {:induction false} PutAllInOrder(c: Lru, capacity: nat, rs: seq<Response>, uses: seq<string>)
    requires WellFormed(c) && 0 < capacity && |c.order| <= capacity && InOrder(Names(c.order), capacity, uses)
    ensures InOrder(Names(PutAll(c, capacity, rs).order), capacity, uses + Names(rs))
    decreases |rs|
  {
    if rs == [] {
      assert uses + Names(rs) == uses;
    } else {
      var x := NameOf(rs[0]);
      PutFacts(c, capacity, rs[0]);
      PutInOrder(c, capacity, rs[0], uses);
      PutAllInOrder(Put(c, capacity, rs[0]), capacity, rs[1..], uses + [x]);
      assert uses + [x] + Names(rs[1..]) == uses + Names(rs);
    }
  }

  /** Exactly what the cache holds after any insertions: a name is cached if and only if it was used
      and fewer than `capacity` other names have been used since; that many entries are before it. */
  lemma {:induction false} CachedIffRecent(c: Lru, capacity: nat, rs: seq<Response>, x: string)
    requires WellFormed(c) && 0 < capacity && |c.order| <= capacity
    ensures var uses, c' := Backwards(Names(c.order)) + Names(rs), PutAll(c, capacity, rs);
            && (x in c'.bits <==> x in uses && |Elements(Since(uses, x))| < capacity)
            && (x in c'.bits ==> IndexOf(c'.order, x) == |Elements(Since(uses, x))|)
  {
    var start := Names(c.order);
    var uses, c' := Backwards(start) + Names(rs), PutAll(c, capacity, rs);
    NamesDistinct(c.order);
    StartsInOrder(start, capacity);
    PutAllInOrder(c, capacity, rs, Backwards(start));
    NamesDistinct(c'.order);
    assert Remains(Names(c'.order), capacity, uses, x);
    if x in c'.bits { IndexIs(c'.order, capacity, uses, x); }
  }

  /** The names of the given bits. */
  function NamesAtBits(slots: seq<Option<string>>, bs: seq<nat>): seq<string> {
    if bs == [] then []
    else
      var front, last := bs[..|bs| - 1], bs[|bs| - 1];
      NamesAtBits(slots, front) + if last < |slots| && slots[last].Some? then [slots[last].value] else []
  }

  lemma {:induction false} TouchAllInOrder(c: Lru, capacity: nat, bs: seq<nat>, uses: seq<string>)
    requires WellFormed(c) && |c.order| <= capacity && AllLive(c, bs) && InOrder(Names(c.order), capacity, uses)
    ensures |TouchAll(c, bs).order| == |c.order|
    ensures InOrder(Names(TouchAll(c, bs).order), capacity, uses + NamesAtBits(c.slots, bs))
    decreases |bs|
  {
    if bs == [] {
      assert uses + NamesAtBits(c.slots, bs) == uses;
    } else {
      var front, last := bs[..|bs| - 1], bs[|bs| - 1];
      var names := NamesAtBits(c.slots, front);
      AllLiveFront(c, bs);
      TouchAllInOrder(c, capacity, front, uses);
      TouchNext(c, capacity, bs, c.slots[last].value, uses + names);
      ConcatAssociative(uses, names, [c.slots[last].value]);
    }
  }

  lemma {:induction false} AllLiveFront(c: Lru, bs: seq<nat>)
    requires AllLive(c, bs) && bs != []
    ensures AllLive(c, bs[..|bs| - 1]) && Live(c, bs[|bs| - 1])
  {
  }

  lemma {:induction false} TouchNext(c: Lru, capacity: nat, bs: seq<nat>, x: string, uses: seq<string>)
    requires WellFormed(c) && |c.order| <= capacity && bs != [] && AllLive(c, bs) && AllLive(c, bs[..|bs| - 1])
    requires c.slots[bs[|bs| - 1]] == Some(x) && |TouchAll(c, bs[..|bs| - 1]).order| == |c.order|
    requires InOrder(Names(TouchAll(c, bs[..|bs| - 1]).order), capacity, uses)
    ensures |TouchAll(c, bs).order| == |c.order|
    ensures InOrder(Names(TouchAll(c, bs).order), capacity, uses + [x])
  {
    var c1 := TouchAll(c, bs[..|bs| - 1]);
    assert Live(c, bs[|bs| - 1]) && x in c1.bits;
    TouchInOrder(c1, capacity, x, uses);
    WithoutFacts(c1.order, x);
  }

  /** The same for the fast path, which uses the common hits in the order of their bits. */
  lemma {:induction false} TouchedByRecency(c: Lru, capacity: nat, bs: seq<nat>, x: string)
    requires WellFormed(c) && |c.order| <= capacity && AllLive(c, bs) && x in c.bits
    ensures var uses, c' := Backwards(Names(c.order)) + NamesAtBits(c.slots, bs), TouchAll(c, bs);
            x in c'.bits && IndexOf(c'.order, x) == |Elements(Since(uses, x))|
  {
    var start := Names(c.order);
    var uses, c' := Backwards(start) + NamesAtBits(c.slots, bs), TouchAll(c, bs);
    NamesDistinct(c.order);
    StartsInOrder(start, capacity);
    TouchAllInOrder(c, capacity, bs, Backwards(start));
    IndexIs(c'.order, capacity, uses, x);
  }

  /** In a list in order of last use, as many entries are before a name as names used since. */
  lemma {:induction false} IndexIs(order: seq<Response>, capacity: nat, uses: seq<string>, x: string)
    requires DistinctNames(order) && InOrder(Names(order), capacity, uses) && x in NameSet(order)
    ensures x in uses && IndexOf(order, x) == |Elements(Since(uses, x))|
  {
    NamesDistinct(order);
    HasIffNamed(order);
    var k := IndexOf(order, x);
    NamesAt(order, k);
    assert Placed(Names(order), uses, k);
    DistinctSize(Names(order)[..k]);
  }

  lemma {:induction false} SinceWithin(a: seq<string>, b: seq<string>, x: string)
    requires x in b
    ensures forall y :: y in Since(a + b, x) ==> y in b && y != x
    decreases |b|
  {
    var front, last := b[..|b| - 1], b[|b| - 1];
    assert b == front + [last];
    ConcatAssociative(a, front, [last]);
    SinceNext(a + front, last, x);
    if last != x { SinceWithin(a, front, x); }
  }

  /** When as many names fit as are inserted, all of them are there afterwards. */
  lemma {:induction false} InsertedStay(c: Lru, capacity: nat, rs: seq<Response>, names: set<string>, x: string)
    requires WellFormed(c) && 0 < capacity && |c.order| <= capacity
    requires Elements(Names(rs)) <= names && |names| <= capacity && x in Names(rs)
    ensures x in PutAll(c, capacity, rs).bits
  {
    var a, b := Backwards(Names(c.order)), Names(rs);
    CachedIffRecent(c, capacity, rs, x);
    SinceWithin(a, b, x);
    Negotiation.SubsetSize(Elements(Since(a + b, x)), names - {x});
  }

  // ---------------------------------------------------------------- what a list adds

  lemma {:induction false} InsertionsHave(list: seq<Response>, n: nat, s: Response)
    requires s in Fusion.SplitAll(list) && s.rtype.Run? && s.rtype.op != Broadcast && |s.devices| == n
    ensures s in Insertions(list, n)
  {
    if s in Fusion.Split(list[0]) {
      assert list[0].rtype == s.rtype && list[0].devices == s.devices;
    } else {
      InsertionsHave(list[1..], n, s);
    }
  }

  lemma {:induction false} InsertionsWithin(list: seq<Response>, n: nat, s: Response)
    requires s in Insertions(list, n)
    ensures s in Fusion.SplitAll(list)
  {
    if list != [] && s !in Fusion.Split(list[0]) { InsertionsWithin(list[1..], n, s); }
  }

  /** The inserted responses come in the order of the list. */
  lemma {:induction false} InsertionsInOrder(list: seq<Response>, n: nat)
    ensures Subsequence(Insertions(list, n), Fusion.SplitAll(list))
  {
    if list == [] {
      SubsequenceSelf(Fusion.SplitAll(list));
    } else {
      var a, rest, s := Fusion.Split(list[0]), Insertions(list[1..], n), Fusion.SplitAll(list[1..]);
      InsertionsInOrder(list[1..], n);
      if Cacheable(list[0], n) { SubsequencePrepend(a, rest, s); } else { SubsequenceAfter(a, rest, s); }
    }
  }

  lemma {:induction false} SubsequencePrepend<T>(a: seq<T>, b: seq<T>, s: seq<T>)
    requires Subsequence(b, s)
    ensures Subsequence(a + b, a + s)
  {
    if a == [] {
      assert a + b == b && a + s == s;
    } else {
      SubsequencePrepend(a[1..], b, s);
      SubsequenceCons(a[0], a[1..] + b, a[1..] + s);
      assert a + b == [a[0]] + (a[1..] + b) && a + s == [a[0]] + (a[1..] + s);
    }
  }

  lemma {:induction false} SubsequenceAfter<T>(a: seq<T>, b: seq<T>, s: seq<T>)
    requires Subsequence(b, s)
    ensures Subsequence([] + b, a + s)
  {
    assert [] + b == b;
    if a == [] {
      assert a + s == s;
    } else {
      SubsequenceAfter(a[1..], b, s);
      SubsequenceCons(a[0], b, a[1..] + s);
      assert a + s == [a[0]] + (a[1..] + s);
    }
  }

  lemma {:induction false} NamesWithin(rs: seq<Response>, names: set<string>, s: Response)
    requires s in rs && forall r :: r in rs ==> NameOf(r) in names
    ensures Elements(Names(rs)) <= names && NameOf(s) in Names(rs)
  {
    forall k | 0 <= k < |rs| ensures Names(rs)[k] == NameOf(rs[k]) && rs[k] in rs { NamesAt(rs, k); }
    var k :| 0 <= k < |rs| && rs[k] == s;
  }

  /** Every part of the list that is not an error or a broadcast is cached afterwards, when the cache
      can hold as many names as the list has. */
  lemma {:induction false} ListedStay(c: Lru, capacity: nat, list: seq<Response>, n: nat, s: Response)
    requires WellFormed(c) && 0 < capacity && |c.order| <= capacity
    requires |NameSet(Fusion.SplitAll(list))| <= capacity
    requires s in Fusion.SplitAll(list) && s.rtype.Run? && s.rtype.op != Broadcast && |s.devices| == n
    ensures NameOf(s) in PutAll(c, capacity, Insertions(list, n)).bits
  {
    var ins, names := Insertions(list, n), NameSet(Fusion.SplitAll(list));
    InsertionsHave(list, n, s);
    forall r | r in ins ensures NameOf(r) in names { InsertionsWithin(list, n, r); }
    NamesWithin(ins, names, s);
    InsertedStay(c, capacity, ins, names, NameOf(s));
  }
}
