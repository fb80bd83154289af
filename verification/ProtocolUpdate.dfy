/** How the responses of a cycle change the caches: inserting the answered responses on all
    ranks keeps the replicas certified and never meets an entry with other parameters. */
module ProtocolUpdate {
  import opened Messages
  import opened Negotiation
  import opened LruCache
  import opened Protocol
  import opened ProtocolSpec

  /** A response whose name is cached is the cached one. */
  ghost predicate Fits(c: Lru, rs: seq<Response>) {
    forall s :: s in rs && NameOf(s) in c.bits ==> s in c.order
  }

  lemma {:induction false} PutFits(c: Lru, capacity: nat, rs: seq<Response>)
    requires WellFormed(c) && 0 < capacity && |c.order| <= capacity
    requires rs != [] && DistinctNames(rs) && Fits(c, rs)
    ensures Fits(Put(c, capacity, rs[0]), rs[1..])
  {
    var c1 := Put(c, capacity, rs[0]);
    PutFacts(c, capacity, rs[0]);
    forall s | s in rs[1..] && NameOf(s) in c1.bits ensures s in c1.order {
      var i :| 0 <= i < |rs[1..]| && rs[1..][i] == s;
      assert NameOf(rs[0]) != NameOf(rs[i + 1]);
      assert NameOf(s) in NameSet(c1.order);
      var e :| e in c1.order && NameOf(e) == NameOf(s);
      assert e in c.order && NameOf(e) in NameSet(c.order);
      assert s in rs && s in c.order;
      EntryUnique(c.order, e);
      EntryUnique(c.order, s);
    }
  }

  /** After the insertions an entry is either one of the inserted responses or unchanged. */
  lemma {:induction false} PutAllMembers(c: Lru, capacity: nat, rs: seq<Response>)
    requires WellFormed(c) && 0 < capacity && |c.order| <= capacity
    requires DistinctNames(rs) && Fits(c, rs)
    ensures forall e :: e in PutAll(c, capacity, rs).order ==>
              if NameOf(e) in NameSet(rs) then e in rs else e in c.order
    decreases |rs|
  {
    if rs != [] {
      var s, c1 := rs[0], Put(c, capacity, rs[0]);
      PutFacts(c, capacity, s);
      PutFits(c, capacity, rs);
      PutAllMembers(c1, capacity, rs[1..]);
      assert rs == [s] + rs[1..];
      forall e | e in PutAll(c, capacity, rs).order ensures if NameOf(e) in NameSet(rs) then e in rs else e in c.order {
        if NameOf(e) !in NameSet(rs[1..]) {
          assert e in c1.order;
          if e in c.order && NameOf(e) == NameOf(s) {
            assert NameOf(e) in NameSet(c.order);
            EntryUnique(c.order, e);
            EntryUnique(c.order, s);
          }
        }
      }
    }
  }

  lemma {:induction false} RestNames(rs: seq<Response>)
    requires DistinctNames(rs) && rs != []
    ensures DistinctNames(rs[1..]) && NameSet(rs) == {NameOf(rs[0])} + NameSet(rs[1..])
    ensures forall x :: x in rs[1..] ==> x in rs && NameOf(x) != NameOf(rs[0])
  {
    forall x | x in rs[1..] ensures x in rs && NameOf(x) != NameOf(rs[0]) {
      var i :| 0 <= i < |rs[1..]| && rs[1..][i] == x;
      assert rs[i + 1] == x && NameOf(rs[0]) != NameOf(rs[i + 1]);
    }
    assert rs == [rs[0]] + rs[1..];
  }

  /** Inserting the responses never overwrites an entry with other parameters, and leaves on
      this rank the parameters of its tensor table for the inserted names. */
  lemma {:induction false} PutParamsFacts(c: Lru, params: map<string, Params>, capacity: nat,
                                          table: map<string, Params>, rs: seq<Response>)
    requires WellFormed(c) && 0 < capacity && |c.order| <= capacity && params.Keys == c.bits.Keys
    requires DistinctNames(rs) && Fits(c, rs)
    requires forall s :: s in rs ==> NameOf(s) in table
    requires forall s :: s in rs && NameOf(s) in c.bits ==> params[NameOf(s)] == table[NameOf(s)]
    ensures var p := PutParams(c, params, capacity, table, rs);
            && p.Some?
            && p.value.Keys == PutAll(c, capacity, rs).bits.Keys
            && forall n :: n in p.value ==> if n in NameSet(rs) then n in table && p.value[n] == table[n]
                                            else n in params && p.value[n] == params[n]
    decreases |rs|
  {
    if rs != [] {
      var s, name := rs[0], NameOf(rs[0]);
      assert s in rs && rs == [s] + rs[1..];
      PutNotInvalid(c, params, table, rs);
      var c1 := Put(c, capacity, s);
      var params1 := Restrict(if name in c.bits then params else params[name := table[name]], c1.bits.Keys);
      assert WellFormed(c1) && |c1.order| <= capacity by { PutFacts(c, capacity, s); }
      assert Fits(c1, rs[1..]) by { PutFits(c, capacity, rs); }
      PutNames(c, capacity, s);
      RestNames(rs);
      PutParamsFacts(c1, params1, capacity, table, rs[1..]);
    }
  }

  lemma {:induction false} PutNames(c: Lru, capacity: nat, s: Response)
    requires WellFormed(c) && 0 < capacity && |c.order| <= capacity
    ensures Put(c, capacity, s).bits.Keys <= c.bits.Keys + {NameOf(s)}
  {
    var c1 := Put(c, capacity, s);
    PutFacts(c, capacity, s);
    forall n | n in c1.bits ensures n in c.bits || n == NameOf(s) {
      assert n in NameSet(c1.order);
      var e :| e in c1.order && NameOf(e) == n;
      assert e in c.order ==> n in NameSet(c.order);
    }
  }

  lemma {:induction false} PutNotInvalid(c: Lru, params: map<string, Params>, table: map<string, Params>,
                                         rs: seq<Response>)
    requires WellFormed(c) && params.Keys == c.bits.Keys && rs != [] && Fits(c, rs)
    requires NameOf(rs[0]) in table && (NameOf(rs[0]) in c.bits ==> params[NameOf(rs[0])] == table[NameOf(rs[0])])
    ensures StateOfResponse(c, params, rs[0], table[NameOf(rs[0])]) != Invalid
  {
    var s := rs[0];
    assert s in rs;
    HasIffNamed(c.order);
    if NameOf(s) in c.bits {
      EntryUnique(c.order, s);
    }
  }
}
