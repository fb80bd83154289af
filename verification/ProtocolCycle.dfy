/** A whole cycle refines its specification: from related states no rank fails, all ranks
    get the same list, it answers exactly the names outstanding everywhere, and the next
    states are related again. */
module ProtocolCycle {
  import opened Messages
  import opened Negotiation
  import opened LruCache
  import opened Votes
  import opened Protocol
  import opened ProtocolSpec
  import opened ProtocolAgreement
  import opened ProtocolAnswers
  import opened ProtocolUpdate
  import Fusion
  import Seqs

  // ---------------------------------------------------------------- fusing the answers

  lemma {:induction false} RespondIsSingle(name: string, qs: seq<Request>)
    requires |qs| > 0
    ensures Fusion.Single(Respond(name, qs))
  {
  }

  lemma {:induction false} NotTwice(rs: seq<Response>, r: Response)
    requires DistinctNames(rs)
    ensures multiset(rs)[r] <= 1
  {
    if rs != [] {
      var front, last := rs[..|rs| - 1], rs[|rs| - 1];
      assert rs == front + [last];
      NotTwice(front, r);
      if last == r {
        assert r !in front;
        assert r !in multiset(front);
      }
    }
  }

  /** A permutation of the answers answers as well. */
  lemma {:induction false} AnswersPermuted(o: Outstanding, rs: seq<Response>, rs': seq<Response>)
    requires |o| > 0 && Answers(o, rs) && multiset(rs) == multiset(rs')
    ensures Answers(o, rs')
  {
    assert forall r :: r in rs' <==> r in rs by {
      forall r ensures r in rs' <==> r in rs {
        assert r in rs' <==> r in multiset(rs');
        assert r in rs <==> r in multiset(rs);
      }
    }
    forall i, j | 0 <= i < j < |rs'| ensures NameOf(rs'[i]) != NameOf(rs'[j]) {
      assert rs'[i] in rs && rs'[j] in rs;
      if rs'[i] == rs'[j] {
        RepeatedElement(rs', i, j);
        NotTwice(rs, rs'[i]);
      }
    }
    assert NameSet(rs') == NameSet(rs);
  }

  /** The fused list still answers every common name once, and the operations it asks for
      find their tensors. */
  lemma {:induction false} FusedAnswers(cfg: Config, o: Outstanding, table: map<string, Params>, rs: seq<Response>)
    requires |o| > 0 && Answers(o, rs) && AllIn(rs, table)
    ensures var list := FuseOn(cfg, table, rs);
            && Answers(o, Fusion.SplitAll(list))
            && Distinct(Fusion.ListNames(list))
            && forall n :: n in Fusion.ListNames(list) <==> n in Common(o)
  {
    var costs := Fusion.CostsOf(cfg.fusion, table, rs);
    forall r | r in rs ensures Fusion.Single(r) { RespondIsSingle(NameOf(r), RequestsFor(o, NameOf(r))); }
    Fusion.SplitUndoesFuse(cfg.fusion.threshold, costs, rs);
    var list := FuseOn(cfg, table, rs);
    var parts := Fusion.SplitAll(list);
    AnswersPermuted(o, rs, parts);
    NamesOfParts(parts);
  }

  lemma {:induction false} NamesOfParts(parts: seq<Response>)
    requires DistinctNames(parts)
    ensures Distinct(Fusion.AllNames(parts))
    ensures forall n :: n in Fusion.AllNames(parts) <==> n in NameSet(parts)
  {
    var names := Fusion.AllNames(parts);
    forall n | n in NameSet(parts) ensures n in names {
      var r :| r in parts && NameOf(r) == n;
      var i :| 0 <= i < |parts| && parts[i] == r;
      assert names[i] == n;
    }
  }

  lemma {:induction false} DistinctParts(a: seq<Response>, b: seq<Response>)
    requires DistinctNames(a + b)
    ensures DistinctNames(a) && DistinctNames(b)
    ensures forall x, y :: x in a && y in b ==> NameOf(x) != NameOf(y)
  {
    var ab := a + b;
    forall i, j | 0 <= i < j < |a| ensures NameOf(a[i]) != NameOf(a[j]) { assert a[i] == ab[i] && a[j] == ab[j]; }
    forall i, j | 0 <= i < j < |b| ensures NameOf(b[i]) != NameOf(b[j]) {
      assert b[i] == ab[|a| + i] && b[j] == ab[|a| + j];
    }
    forall x, y | x in a && y in b ensures NameOf(x) != NameOf(y) {
      var i :| 0 <= i < |a| && a[i] == x;
      var j :| 0 <= j < |b| && b[j] == y;
      assert ab[i] == x && ab[|a| + j] == y;
    }
  }

  lemma {:induction false} JoinDistinct(a: seq<Response>, b: seq<Response>)
    requires DistinctNames(a) && DistinctNames(b) && forall x, y :: x in a && y in b ==> NameOf(x) != NameOf(y)
    ensures DistinctNames(a + b)
  {
    var ab := a + b;
    forall i, j | 0 <= i < j < |ab| ensures NameOf(ab[i]) != NameOf(ab[j]) {
      if i < |a| <= j { assert ab[i] in a && ab[j] in b; }
    }
  }

  /** Inserted responses are parts of the list, cacheable, with distinct names. */
  lemma {:induction false} InsertionsFacts(list: seq<Response>, n: nat)
    requires DistinctNames(Fusion.SplitAll(list))
    ensures DistinctNames(Insertions(list, n))
    ensures forall r :: r in Insertions(list, n) ==> r in Fusion.SplitAll(list) && Cacheable(r, n)
  {
    if list != [] {
      var a, b := Fusion.Split(list[0]), Fusion.SplitAll(list[1..]);
      DistinctParts(a, b);
      InsertionsFacts(list[1..], n);
      var first := if Cacheable(list[0], n) then a else [];
      JoinDistinct(first, Insertions(list[1..], n));
    }
  }

  // ---------------------------------------------------------------- the next state

  /** What is left at the coordinator: incomplete, uncached names with all their outstanding
      requests. */
  ghost predicate PendingNext(o: Outstanding, c: Lru, bits: map<string, nat>, pending: map<string, seq<Request>>) {
    && (forall x :: x in pending ==> x !in c.bits && x !in bits && !Everywhere(o, x) && WaitingMatch(pending[x], o, x))
    && (forall r, x :: 0 <= r < |o| && x in o[r] && x !in c.bits && !Everywhere(o, x) ==> o[r][x] in Get(pending, x))
  }

  ghost predicate NextRank(k: Rank, s: Settled, list: seq<Response>, k': Rank) {
    k'.table == Performed(k.table, list) && k'.queue == s.kept && k'.watched == s.watched
  }

  lemma {:induction false} NextRankMatches(k: Rank, s: Settled, c: Lru, o: Outstanding, r: nat, list: seq<Response>,
                                           k': Rank)
    requires |o| > 0 && r < |o| && OwnRequests(o)
    requires CacheSettled(k, s, o[r], c) && QueueSettled(s, o[r], c, o) && NextRank(k, s, list, k')
    requires forall n :: n in Fusion.ListNames(list) <==> n in Common(o)
    ensures TableMatches(k', SpecCycle(o)[r]) && QueueMatches(k', SpecCycle(o)[r])
  {
  }

  /** The state after a cycle is related to the state after the specified cycle. */
  lemma {:induction false} NextRelated(cfg: Config, g: Cluster, o: Outstanding, c: Lru, hits: set<nat>,
                                       ss: seq<Settled>, list: seq<Response>, next: Cluster)
    requires Mid(cfg, g, o, c, hits, ss) && |next.ranks| == |o|
    requires forall n :: n in Fusion.ListNames(list) <==> n in Common(o)
    requires forall r :: 0 <= r < |o| ==> NextRank(g.ranks[r], ss[r], list, next.ranks[r])
    requires Replicated(cfg, next) && AllCertified(next.ranks[0].cache.order, ParamMaps(next))
    requires PendingNext(o, c, next.ranks[0].cache.bits, next.pending)
    ensures Rel(cfg, next, SpecCycle(o))
  {
    var o' := SpecCycle(o);
    forall r | 0 <= r < |o| ensures TableMatches(next.ranks[r], o'[r]) && QueueMatches(next.ranks[r], o'[r]) {
      NextRankMatches(g.ranks[r], ss[r], c, o, r, list, next.ranks[r]);
    }
    assert RanksMatch(next, o');
    assert PendingMatches(next, o') by { NextPending(cfg, g, o, c, hits, ss, list, next); }
    forall r, x | 0 <= r < |o| && x in o'[r]
      ensures o'[r][x] in next.ranks[r].queue || o'[r][x] in Get(next.pending, x)
    {
      assert x in o[r] && !Everywhere(o, x) && o'[r][x] == o[r][x];
      assert NextRank(g.ranks[r], ss[r], list, next.ranks[r]) && QueueSettled(ss[r], o[r], c, o);
    }
  }

  lemma {:induction false} NextPending(cfg: Config, g: Cluster, o: Outstanding, c: Lru, hits: set<nat>,
                                       ss: seq<Settled>, list: seq<Response>, next: Cluster)
    requires Mid(cfg, g, o, c, hits, ss) && |next.ranks| == |o|
    requires forall r :: 0 <= r < |o| ==> NextRank(g.ranks[r], ss[r], list, next.ranks[r])
    requires PendingNext(o, c, next.ranks[0].cache.bits, next.pending)
    ensures PendingMatches(next, SpecCycle(o))
  {
    forall x | x in next.pending
      ensures WaitingMatch(next.pending[x], SpecCycle(o), x)
      ensures forall q :: q in next.pending[x] && q.rank < |o| ==> q !in next.ranks[q.rank].queue
    {
      StillWaiting(o, next.pending[x], x);
      forall q | q in next.pending[x] && q.rank < |o| ensures q !in next.ranks[q.rank].queue {
        var r := q.rank;
        assert NextRank(g.ranks[r], ss[r], list, next.ranks[r]) && QueueSettled(ss[r], o[r], c, o);
        assert q.name == x;
      }
    }
  }

  lemma {:induction false} StillWaiting(o: Outstanding, qs: seq<Request>, x: string)
    requires |o| > 0 && WaitingMatch(qs, o, x) && !Everywhere(o, x)
    ensures WaitingMatch(qs, SpecCycle(o), x)
  {
    assert x !in Common(o);
    forall q | q in qs ensures q.rank < |o| && x in SpecCycle(o)[q.rank] && SpecCycle(o)[q.rank][x] == q {
      assert x in o[q.rank];
    }
  }

  // ---------------------------------------------------------------- what a cycle guarantees

  /** The outcome of a cycle that meets its specification. */
  ghost predicate MeetsSpec(cfg: Config, o: Outstanding, input: CycleInput, out: Outcome) {
    && |o| == |out.lists| == |input.shutdown| > 0
    && Rel(cfg, out.next, SpecCycle(o))
    && (forall r :: 0 <= r < |o| ==> out.lists[r] == out.lists[0])
    && Answers(o, Fusion.SplitAll(out.lists[0].responses))
    && Distinct(Fusion.ListNames(out.lists[0].responses))
    && (forall n :: n in Fusion.ListNames(out.lists[0].responses) <==> n in Common(o))
    && (out.lists[0].shutdown <==> exists r :: 0 <= r < |o| && input.shutdown[r])
  }

  lemma {:induction false} PendingWithoutMessages(cfg: Config, g: Cluster, o: Outstanding, c: Lru, hits: set<nat>,
                                                  ss: seq<Settled>)
    requires Mid(cfg, g, o, c, hits, ss)
    requires forall r :: 0 <= r < |ss| ==> ss[r].sent == []
    ensures PendingNext(o, c, c.bits, g.pending)
  {
    forall x | x in g.pending ensures !Everywhere(o, x) {
      NoOneWaitsAlone(cfg, g, o, c, hits, ss, x);
    }
  }

  /** All ranks end with cache `c'` and parameters `ps`. */
  ghost predicate NextCaches(c': Lru, ps: seq<map<string, Params>>, next: Cluster) {
    |next.ranks| == |ps| && forall r :: 0 <= r < |ps| ==> next.ranks[r].cache == c' && next.ranks[r].params == ps[r]
  }

  lemma {:induction false} NextReplicated(cfg: Config, c': Lru, ps: seq<map<string, Params>>, next: Cluster)
    requires NextCaches(c', ps, next) && |ps| > 0
    requires WellFormed(c') && !c'.outdated && |c'.order| <= cfg.capacity && AllCertified(c'.order, ps)
    requires forall r :: 0 <= r < |ps| ==> ps[r].Keys == c'.bits.Keys
    ensures Replicated(cfg, next) && AllCertified(next.ranks[0].cache.order, ParamMaps(next))
  {
    assert ParamMaps(next) == ps;
  }

  lemma {:induction false} SettledKeys(cfg: Config, g: Cluster, o: Outstanding, c: Lru, hits: set<nat>,
                                       ss: seq<Settled>)
    requires Mid(cfg, g, o, c, hits, ss)
    ensures forall r :: 0 <= r < |ss| ==> ss[r].cache == c && SettledParams(ss)[r].Keys == c.bits.Keys
  {
    forall r | 0 <= r < |ss| ensures ss[r].cache == c && SettledParams(ss)[r].Keys == c.bits.Keys {
      assert CacheSettled(g.ranks[r], ss[r], o[r], c);
    }
  }

  lemma {:induction false} EarlyState(cfg: Config, g: Cluster, o: Outstanding, c: Lru, hits: set<nat>, ss: seq<Settled>,
                                      next: Cluster)
    requires Mid(cfg, g, o, c, hits, ss) && !c.outdated && Answers(o, [])
    requires forall r :: 0 <= r < |ss| ==> ss[r].sent == []
    requires |next.ranks| == |o| && next.pending == g.pending
    requires forall r :: 0 <= r < |o| ==> next.ranks[r] == Finish(g.ranks[r], ss[r], ss[r].cache, ss[r].params, [])
    ensures Rel(cfg, next, SpecCycle(o))
  {
    PendingWithoutMessages(cfg, g, o, c, hits, ss);
    SettledKeys(cfg, g, o, c, hits, ss);
    assert NextCaches(c, SettledParams(ss), next);
    NextReplicated(cfg, c, SettledParams(ss), next);
    assert Common(o) == {};
    NextRelated(cfg, g, o, c, hits, ss, [], next);
  }

  lemma {:induction false} NoHitsNoAnswers(cfg: Config, g: Cluster, o: Outstanding, c: Lru, ss: seq<Settled>)
    requires Mid(cfg, g, o, c, {}, ss)
    requires forall r :: 0 <= r < |ss| ==> ss[r].sent == []
    ensures Answers(o, [])
  {
    FastAnswers(cfg, g, o, c, {}, ss);
    NothingAscending(|c.slots|);
  }

  lemma {:induction false} NothingAscending(hi: nat)
    ensures Ascending({}, hi) == []
  {
    if hi > 0 { NothingAscending(hi - 1); }
  }

  lemma {:induction false} EarlyRefines(cfg: Config, g: Cluster, o: Outstanding, input: CycleInput, v: Vote, c: Lru,
                                        votes: seq<Vote>, ss: seq<Settled>)
    requires Mid(cfg, g, o, c, v.hits, ss) && !c.outdated && v.hits == {}
    requires forall r :: 0 <= r < |ss| ==> ss[r].sent == []
    requires |votes| == |ss| == |input.shutdown| && forall r :: 0 <= r < |ss| ==> Synced(votes, r) == v
    requires v.shutdown <==> exists r :: 0 <= r < |ss| && input.shutdown[r]
    ensures MeetsSpec(cfg, o, input, EarlyCycle(g, votes, ss))
  {
    var out := EarlyCycle(g, votes, ss);
    NoHitsNoAnswers(cfg, g, o, c, ss);
    EarlyState(cfg, g, o, c, v.hits, ss, out.next);
    assert forall r :: 0 <= r < |ss| ==> out.lists[r] == ResponseList([], v.shutdown);
  }

  // ---------------------------------------------------------------- the fast path

  lemma {:induction false} SameSlices(a: Request, b: Request)
    requires Compatible(a, b)
    ensures a.dtype == b.dtype && Fusion.SliceDims(a.shape) == Fusion.SliceDims(b.shape)
  {
    if IsGather(a.op) && a.shape != [] {
      assert forall d :: 0 <= d < |a.shape| - 1 ==> a.shape[1..][d] == b.shape[1..][d];
    }
  }

  lemma {:induction false} SameCost(cfg: Fusion.Config, r: Response, a: Request, b: Request)
    requires Compatible(a, b)
    ensures Fusion.CostOf(cfg, r, ParamsOf(a)) == Fusion.CostOf(cfg, r, ParamsOf(b))
  {
    SameSlices(a, b);
  }

  /** Tensor tables of different ranks cost the agreed responses alike, although the first
      dimensions of gathered tensors may differ, so every rank fuses them alike. */
  lemma {:induction false} SameFusion(cfg: Config, o: Outstanding, rs: seq<Response>, a: map<string, Params>, i: nat,
                                      b: map<string, Params>, j: nat)
    requires |o| > 0 && i < |o| && j < |o| && Answers(o, rs)
    requires forall r :: r in rs ==> r.rtype.Run?
    requires forall x :: x in Common(o) ==> x in a && a[x] == ParamsOf(o[i][x])
    requires forall x :: x in Common(o) ==> x in b && b[x] == ParamsOf(o[j][x])
    ensures AllIn(rs, a) && AllIn(rs, b) && FuseOn(cfg, a, rs) == FuseOn(cfg, b, rs)
  {
    forall r | r in rs ensures NameOf(r) in Common(o) { assert NameOf(r) in NameSet(rs); }
    var ca, cb := Fusion.CostsOf(cfg.fusion, a, rs), Fusion.CostsOf(cfg.fusion, b, rs);
    forall r | r in rs ensures ca[r] == cb[r] {
      SameCostHere(cfg, o, r, i, j);
    }
    assert ca == cb;
  }

  lemma {:induction false} SameCostHere(cfg: Config, o: Outstanding, r: Response, i: nat, j: nat)
    requires i < |o| && j < |o| && Everywhere(o, NameOf(r)) && r == Answer(o, NameOf(r)) && r.rtype.Run?
    ensures var a, b := ParamsOf(o[i][NameOf(r)]), ParamsOf(o[j][NameOf(r)]);
            Fusion.CostOf(cfg.fusion, r, a) == Fusion.CostOf(cfg.fusion, r, b)
  {
    var x := NameOf(r);
    var qs := RequestsFor(o, x);
    assert Agree(qs);
    assert Compatible(qs[i], qs[j]);
    SameCost(cfg.fusion, r, o[i][x], o[j][x]);
  }

  lemma {:induction false} TableOfCommon(cfg: Config, g: Cluster, o: Outstanding, c: Lru, hits: set<nat>,
                                         ss: seq<Settled>, r: nat)
    requires Mid(cfg, g, o, c, hits, ss) && r < |o|
    ensures forall x :: x in Common(o) ==> x in g.ranks[r].table && g.ranks[r].table[x] == ParamsOf(o[r][x])
  {
    assert CacheSettled(g.ranks[r], ss[r], o[r], c);
  }

  lemma {:induction false} HitsRun(cfg: Config, g: Cluster, o: Outstanding, c: Lru, hits: set<nat>, ss: seq<Settled>)
    requires Mid(cfg, g, o, c, hits, ss)
    ensures forall r :: r in HitResponses(c, hits) ==> r.rtype.Run?
  {
    var rs, bs := HitResponses(c, hits), Ascending(hits, |c.slots|);
    forall r | r in rs ensures r.rtype.Run? {
      var i :| 0 <= i < |rs| && rs[i] == r;
      assert bs[i] in bs && Live(c, bs[i]);
      assert r in c.order;
      assert Certified(r, SettledParams(ss));
    }
  }

  /** On the fast path every rank, alone, computes the same list and can perform it. */
  lemma {:induction false} FastLists(cfg: Config, g: Cluster, o: Outstanding, c: Lru, hits: set<nat>, ss: seq<Settled>,
                                     r: nat)
    requires Mid(cfg, g, o, c, hits, ss) && r < |o|
    requires forall k :: 0 <= k < |ss| ==> ss[k].sent == []
    ensures CanAnswer(g.ranks[r], ss[r], hits) && CanAnswer(g.ranks[0], ss[0], hits)
    ensures FastList(cfg, g.ranks[r], ss[r], hits) == FastList(cfg, g.ranks[0], ss[0], hits)
    ensures CanPerform(g.ranks[r].table, FastList(cfg, g.ranks[r], ss[r], hits))
    ensures var list := FastList(cfg, g.ranks[0], ss[0], hits);
            Answers(o, Fusion.SplitAll(list)) && forall n :: n in Fusion.ListNames(list) <==> n in Common(o)
  {
    var rs := HitResponses(c, hits);
    FastAnswers(cfg, g, o, c, hits, ss);
    HitsRun(cfg, g, o, c, hits, ss);
    TableOfCommon(cfg, g, o, c, hits, ss, r);
    TableOfCommon(cfg, g, o, c, hits, ss, 0);
    SettledKeys(cfg, g, o, c, hits, ss);
    SameFusion(cfg, o, rs, g.ranks[r].table, r, g.ranks[0].table, 0);
    FusedAnswers(cfg, o, g.ranks[0].table, rs);
  }

  lemma {:induction false} FastCacheFacts(s: Settled, hits: set<nat>)
    requires WellFormed(s.cache) && forall b :: b in hits ==> Live(s.cache, b)
    ensures var c' := FastCache(s, hits);
            && WellFormed(c') && !c'.outdated
            && c'.bits.Keys == s.cache.bits.Keys
            && forall e :: e in c'.order <==> e in s.cache.order
  {
    var c := s.cache;
    InvalidBits(c, hits);
    RenumberFacts(TouchAll(c, Ascending(hits, |c.slots|)));
  }

  lemma {:induction false} FastState(cfg: Config, g: Cluster, o: Outstanding, c: Lru, hits: set<nat>, ss: seq<Settled>,
                                     list: seq<Response>, next: Cluster)
    requires Mid(cfg, g, o, c, hits, ss) && !c.outdated
    requires forall r :: 0 <= r < |ss| ==> ss[r].sent == []
    requires forall n :: n in Fusion.ListNames(list) <==> n in Common(o)
    requires |next.ranks| == |o| && next.pending == g.pending
    requires forall r :: 0 <= r < |o| ==>
               && ss[r].cache == c
               && next.ranks[r] == Finish(g.ranks[r], ss[r], FastCache(ss[r], hits), ss[r].params, list)
    ensures Rel(cfg, next, SpecCycle(o))
  {
    var c' := FastCache(ss[0], hits);
    FastCacheFacts(ss[0], hits);
    SettledKeys(cfg, g, o, c, hits, ss);
    assert NextCaches(c', SettledParams(ss), next);
    assert |c'.order| <= cfg.capacity by { TouchAllLength(c, Ascending(hits, |c.slots|)); }
    assert AllCertified(c'.order, SettledParams(ss));
    NextReplicated(cfg, c', SettledParams(ss), next);
    assert PendingNext(o, c, c'.bits, next.pending) by { PendingWithoutMessages(cfg, g, o, c, hits, ss); }
    NextRelated(cfg, g, o, c, hits, ss, list, next);
  }

  lemma {:induction false} TouchAllLength(c: Lru, bs: seq<nat>)
    requires WellFormed(c) && AllLive(c, bs)
    ensures |TouchAll(c, bs).order| == |c.order|
    decreases |bs|
  {
    if bs != [] { TouchAllLength(c, bs[..|bs| - 1]); }
  }

  lemma {:induction false} FastIsOk(cfg: Config, g: Cluster, o: Outstanding, c: Lru, hits: set<nat>, votes: seq<Vote>,
                                    ss: seq<Settled>)
    requires Mid(cfg, g, o, c, hits, ss)
    requires forall r :: 0 <= r < |ss| ==> ss[r].sent == []
    requires |votes| == |ss| && forall r :: 0 <= r < |ss| ==> Synced(votes, r).hits == hits
    ensures FastOk(cfg, g, votes, ss)
  {
    forall r | 0 <= r < |ss|
      ensures CanAnswer(g.ranks[r], ss[r], hits)
      ensures CanPerform(g.ranks[r].table, FastList(cfg, g.ranks[r], ss[r], hits))
    {
      FastLists(cfg, g, o, c, hits, ss, r);
    }
  }

  lemma {:induction false} FastRefines(cfg: Config, g: Cluster, o: Outstanding, input: CycleInput, v: Vote, c: Lru,
                                       votes: seq<Vote>, ss: seq<Settled>)
    requires Mid(cfg, g, o, c, v.hits, ss) && !c.outdated
    requires forall r :: 0 <= r < |ss| ==> ss[r].sent == []
    requires |votes| == |ss| == |input.shutdown| && forall r :: 0 <= r < |ss| ==> Synced(votes, r) == v
    requires v.shutdown <==> exists r :: 0 <= r < |ss| && input.shutdown[r]
    ensures var out := FastCycle(cfg, g, votes, ss); out.Some? && MeetsSpec(cfg, o, input, out.value)
  {
    FastIsOk(cfg, g, o, c, v.hits, votes, ss);
    var out := FastCycle(cfg, g, votes, ss).value;
    FastLists(cfg, g, o, c, v.hits, ss, 0);
    var list := FastList(cfg, g.ranks[0], ss[0], v.hits);
    SettledKeys(cfg, g, o, c, v.hits, ss);
    forall r | 0 <= r < |ss|
      ensures out.lists[r] == ResponseList(list, v.shutdown)
      ensures out.next.ranks[r] == Finish(g.ranks[r], ss[r], FastCache(ss[r], v.hits), ss[r].params, list)
    {
      FastLists(cfg, g, o, c, v.hits, ss, r);
    }
    FastState(cfg, g, o, c, v.hits, ss, list, out.next);
  }

  // ---------------------------------------------------------------- the slow path

  lemma {:induction false} SlowSingles(cfg: Config, g: Cluster, o: Outstanding, c: Lru, hits: set<nat>,
                                       votes: seq<Vote>, ss: seq<Settled>)
    requires Mid(cfg, g, o, c, hits, ss) && |votes| == |ss| && Synced(votes, 0).hits == hits
    ensures CanCoordinate(g, votes, ss)
    ensures Answers(o, Singles(g, votes, ss)) && AllIn(Singles(g, votes, ss), g.ranks[0].table)
  {
    SlowAnswers(cfg, g, o, c, hits, ss);
    SettledKeys(cfg, g, o, c, hits, ss);
    TableOfCommon(cfg, g, o, c, hits, ss, 0);
    var t := Tally(g.pending, SentAll(ss), |ss|);
    var rs := HitResponses(c, hits) + Constructed(t.0, t.1);
    forall r | r in rs ensures NameOf(r) in g.ranks[0].table { assert NameOf(r) in NameSet(rs); }
  }

  lemma {:induction false} SlowWaiting(cfg: Config, g: Cluster, o: Outstanding, c: Lru, hits: set<nat>,
                                       ss: seq<Settled>, x: string)
    requires Mid(cfg, g, o, c, hits, ss)
    ensures var t := Tally(g.pending, SentAll(ss), |ss|);
            && (x in t.0 && x !in t.1 ==> x !in c.bits && !Everywhere(o, x) && WaitingMatch(t.0[x], o, x))
            && (x !in c.bits && !Everywhere(o, x) ==>
                  x !in t.1 && forall r :: 0 <= r < |o| && x in o[r] ==> o[r][x] in Get(t.0, x))
  {
    ReadyNames(cfg, g, o, c, hits, ss, x);
  }

  lemma {:induction false} SlowPending(cfg: Config, g: Cluster, o: Outstanding, c: Lru, hits: set<nat>,
                                       ss: seq<Settled>, bits: map<string, nat>)
    requires Mid(cfg, g, o, c, hits, ss)
    requires bits.Keys <= c.bits.Keys + Common(o)
    ensures var t := Tally(g.pending, SentAll(ss), |ss|); PendingNext(o, c, bits, Remaining(t.0, t.1))
  {
    var t := Tally(g.pending, SentAll(ss), |ss|);
    var pending := Remaining(t.0, t.1);
    forall x | x in pending ensures x !in c.bits && x !in bits && !Everywhere(o, x) && WaitingMatch(pending[x], o, x) {
      SlowWaiting(cfg, g, o, c, hits, ss, x);
    }
    forall r, x | 0 <= r < |o| && x in o[r] && x !in c.bits && !Everywhere(o, x) ensures o[r][x] in Get(pending, x) {
      SlowWaiting(cfg, g, o, c, hits, ss, x);
    }
  }

  /** The inserted responses fit the cache. */
  lemma {:induction false} InsertionsFit(cfg: Config, g: Cluster, o: Outstanding, c: Lru, hits: set<nat>,
                                         ss: seq<Settled>, ins: seq<Response>)
    requires Mid(cfg, g, o, c, hits, ss)
    requires forall e :: e in ins ==> Everywhere(o, NameOf(e)) && e == Answer(o, NameOf(e))
    ensures Fits(c, ins)
  {
    forall e | e in ins && NameOf(e) in c.bits ensures e in c.order {
      assert Live(c, c.bits[NameOf(e)]) && c.slots[c.bits[NameOf(e)]] == Some(NameOf(e)) by { LiveBit(c, NameOf(e)); }
      HitResponse(cfg, g, o, c, hits, ss, c.bits[NameOf(e)]);
    }
  }

  /** A cached name that is outstanding has the parameters of its request. */
  lemma {:induction false} HitParams(cfg: Config, g: Cluster, o: Outstanding, c: Lru, hits: set<nat>, ss: seq<Settled>,
                                     r: nat, x: string)
    requires Mid(cfg, g, o, c, hits, ss) && r < |o| && x in o[r] && x in c.bits
    ensures x in ss[r].params && ss[r].params[x] == ParamsOf(o[r][x])
  {
    assert CacheSettled(g.ranks[r], ss[r], o[r], c);
  }

  /** The coordinator's list and what it adds to the caches. */
  ghost predicate GoodList(o: Outstanding, list: seq<Response>, ins: seq<Response>)
    requires |o| > 0
  {
    && Answers(o, Fusion.SplitAll(list))
    && Distinct(Fusion.ListNames(list))
    && (forall n :: n in Fusion.ListNames(list) <==> n in Common(o))
    && DistinctNames(ins)
    && (forall e :: e in ins ==> Everywhere(o, NameOf(e)) && e == Answer(o, NameOf(e)) && Cacheable(e, |o|))
  }

  lemma {:induction false} ListIsGood(cfg: Config, o: Outstanding, table: map<string, Params>, rs: seq<Response>)
    requires |o| > 0 && Answers(o, rs) && AllIn(rs, table)
    ensures var list := FuseOn(cfg, table, rs); GoodList(o, list, Insertions(list, |o|))
  {
    FusedAnswers(cfg, o, table, rs);
    InsertionsFacts(FuseOn(cfg, table, rs), |o|);
  }

  ghost predicate ParamsUpdated(m: map<string, Request>, s: Settled, ins: seq<Response>, params: map<string, Params>) {
    forall n :: n in params ==> if n in NameSet(ins) then n in m && params[n] == ParamsOf(m[n])
                                else n in s.params && params[n] == s.params[n]
  }

  /** Every rank can perform the list and insert its responses. */
  lemma {:induction false} RankUpdates(cfg: Config, g: Cluster, o: Outstanding, c: Lru, hits: set<nat>,
                                       ss: seq<Settled>, list: seq<Response>, ins: seq<Response>, r: nat)
    requires Mid(cfg, g, o, c, hits, ss) && r < |o| && GoodList(o, list, ins) && cfg.capacity > 0
    ensures CanUpdate(cfg, g.ranks[r], ss[r], list, ins)
    ensures UpdatedParams(cfg, g.ranks[r], ss[r], list, ins).Keys == PutAll(c, cfg.capacity, ins).bits.Keys
    ensures ParamsUpdated(o[r], ss[r], ins, UpdatedParams(cfg, g.ranks[r], ss[r], list, ins))
  {
    TableOfCommon(cfg, g, o, c, hits, ss, r);
    InsertionsFit(cfg, g, o, c, hits, ss, ins);
    SettledKeys(cfg, g, o, c, hits, ss);
    forall e | e in ins && NameOf(e) in c.bits ensures ss[r].params[NameOf(e)] == g.ranks[r].table[NameOf(e)] {
      HitParams(cfg, g, o, c, hits, ss, r, NameOf(e));
    }
    PutParamsFacts(c, ss[r].params, cfg.capacity, g.ranks[r].table, ins);
    forall n | n in NameSet(ins) ensures n in Common(o) && n in o[r] {}
  }

  lemma {:induction false} UpdatedCertificate(o: Outstanding, ss: seq<Settled>, c: Lru, ins: seq<Response>,
                                              ps: seq<map<string, Params>>, e: Response)
    requires |ps| == |ss| == |o| > 0 && AllCertified(c.order, SettledParams(ss))
    requires forall r :: 0 <= r < |ps| ==> NameOf(e) in ps[r] && ParamsUpdated(o[r], ss[r], ins, ps[r])
    requires if NameOf(e) in NameSet(ins) then e in ins else e in c.order
    requires e in ins ==> Everywhere(o, NameOf(e)) && e == Answer(o, NameOf(e)) && Cacheable(e, |o|)
    ensures Certified(e, ps)
  {
    if NameOf(e) in NameSet(ins) {
      FreshIsCertified(NameOf(e), RequestsFor(o, NameOf(e)), ps);
    } else {
      CertifiedBy(e, SettledParams(ss), ps);
    }
  }

  /** The replicas after the insertions are certified by the updated parameters. */
  lemma {:induction false} UpdatedCertificates(o: Outstanding, ss: seq<Settled>, c: Lru, ins: seq<Response>, c': Lru,
                                               ps: seq<map<string, Params>>)
    requires |ps| == |ss| == |o| > 0 && AllCertified(c.order, SettledParams(ss))
    requires forall e :: e in ins ==> Everywhere(o, NameOf(e)) && e == Answer(o, NameOf(e)) && Cacheable(e, |o|)
    requires forall e :: e in c'.order ==> NameOf(e) in c'.bits
    requires forall e :: e in c'.order ==> if NameOf(e) in NameSet(ins) then e in ins else e in c.order
    requires forall r :: 0 <= r < |ps| ==> ps[r].Keys == c'.bits.Keys && ParamsUpdated(o[r], ss[r], ins, ps[r])
    ensures AllCertified(c'.order, ps)
  {
    forall e | e in c'.order ensures Certified(e, ps) {
      UpdatedCertificate(o, ss, c, ins, ps, e);
    }
  }

  /** Where the entries after the insertions come from. */
  lemma {:induction false} UpdatedMembers(cfg: Config, g: Cluster, o: Outstanding, c: Lru, hits: set<nat>,
                                          ss: seq<Settled>, ins: seq<Response>)
    requires Mid(cfg, g, o, c, hits, ss) && cfg.capacity > 0 && DistinctNames(ins)
    requires forall e :: e in ins ==> Everywhere(o, NameOf(e)) && e == Answer(o, NameOf(e))
    ensures var c' := PutAll(c, cfg.capacity, ins);
            forall e :: e in c'.order ==>
              NameOf(e) in c'.bits && if NameOf(e) in NameSet(ins) then e in ins else e in c.order
  {
    var c' := PutAll(c, cfg.capacity, ins);
    InsertionsFit(cfg, g, o, c, hits, ss, ins);
    PutAllMembers(c, cfg.capacity, ins);
    forall e | e in c'.order ensures NameOf(e) in c'.bits { assert NameOf(e) in NameSet(c'.order); }
  }

  lemma {:induction false} UpdatedNames(cfg: Config, o: Outstanding, c: Lru, ins: seq<Response>)
    requires |o| > 0 && WellFormed(c) && |c.order| <= cfg.capacity && cfg.capacity > 0
    requires DistinctNames(ins) && Fits(c, ins) && forall e :: e in ins ==> Everywhere(o, NameOf(e))
    ensures PutAll(c, cfg.capacity, ins).bits.Keys <= c.bits.Keys + Common(o)
  {
    var c' := PutAll(c, cfg.capacity, ins);
    PutAllMembers(c, cfg.capacity, ins);
    forall n | n in c'.bits ensures n in c.bits || n in Common(o) {
      assert n in NameSet(c'.order);
      var e :| e in c'.order && NameOf(e) == n;
      assert e in c.order ==> n in NameSet(c.order);
    }
  }

  /** Without a cache there is nothing to insert. */
  lemma {:induction false} UncachedUpdates(cfg: Config, g: Cluster, o: Outstanding, c: Lru, hits: set<nat>,
                                           ss: seq<Settled>, list: seq<Response>, ins: seq<Response>, r: nat)
    requires Mid(cfg, g, o, c, hits, ss) && r < |o| && GoodList(o, list, ins) && cfg.capacity == 0
    ensures CanUpdate(cfg, g.ranks[r], ss[r], list, ins)
    ensures UpdatedParams(cfg, g.ranks[r], ss[r], list, ins) == ss[r].params
  {
    TableOfCommon(cfg, g, o, c, hits, ss, r);
    SettledKeys(cfg, g, o, c, hits, ss);
  }

  lemma {:induction false} RanksUpdate(cfg: Config, g: Cluster, o: Outstanding, c: Lru, hits: set<nat>,
                                       ss: seq<Settled>, list: seq<Response>, ins: seq<Response>)
    requires Mid(cfg, g, o, c, hits, ss) && GoodList(o, list, ins)
    ensures forall r :: 0 <= r < |ss| ==> CanUpdate(cfg, g.ranks[r], ss[r], list, ins)
  {
    forall r | 0 <= r < |ss| ensures CanUpdate(cfg, g.ranks[r], ss[r], list, ins) {
      if cfg.capacity > 0 {
        RankUpdates(cfg, g, o, c, hits, ss, list, ins, r);
      } else {
        UncachedUpdates(cfg, g, o, c, hits, ss, list, ins, r);
      }
    }
  }

  ghost function AllUpdatedParams(cfg: Config, g: Cluster, ss: seq<Settled>, list: seq<Response>, ins: seq<Response>)
      : seq<map<string, Params>>
    requires |g.ranks| == |ss| && forall r :: 0 <= r < |ss| ==> CanUpdate(cfg, g.ranks[r], ss[r], list, ins)
  {
    seq(|ss|, r requires 0 <= r < |ss| => UpdatedParams(cfg, g.ranks[r], ss[r], list, ins))
  }

  /** The replicas after the slow path: well formed, renumbered, certified. */
  lemma {:induction false} SlowCaches(cfg: Config, g: Cluster, o: Outstanding, c: Lru, hits: set<nat>, ss: seq<Settled>,
                                      list: seq<Response>, ins: seq<Response>)
    requires Mid(cfg, g, o, c, hits, ss) && GoodList(o, list, ins)
    requires forall r :: 0 <= r < |ss| ==> CanUpdate(cfg, g.ranks[r], ss[r], list, ins)
    ensures var c' := UpdatedCache(cfg, ss[0], ins); var ps := AllUpdatedParams(cfg, g, ss, list, ins);
            && WellFormed(c') && !c'.outdated && |c'.order| <= cfg.capacity
            && AllCertified(c'.order, ps)
            && (forall r :: 0 <= r < |ss| ==> ps[r].Keys == c'.bits.Keys)
            && c'.bits.Keys <= c.bits.Keys + Common(o)
  {
    SettledKeys(cfg, g, o, c, hits, ss);
    var ps := AllUpdatedParams(cfg, g, ss, list, ins);
    if cfg.capacity > 0 {
      RenumberFacts(PutAll(c, cfg.capacity, ins));
      assert PutAll(c, cfg.capacity, ins).bits.Keys <= c.bits.Keys + Common(o) by {
        InsertionsFit(cfg, g, o, c, hits, ss, ins);
        UpdatedNames(cfg, o, c, ins);
      }
      forall r | 0 <= r < |ss|
        ensures ps[r].Keys == PutAll(c, cfg.capacity, ins).bits.Keys && ParamsUpdated(o[r], ss[r], ins, ps[r])
      {
        RankUpdates(cfg, g, o, c, hits, ss, list, ins, r);
      }
      UpdatedMembers(cfg, g, o, c, hits, ss, ins);
      UpdatedCertificates(o, ss, c, ins, PutAll(c, cfg.capacity, ins), ps);
    } else {
      RenumberFacts(c);
      assert c.order == [];
      forall r | 0 <= r < |ss| ensures ps[r] == ss[r].params {
        UncachedUpdates(cfg, g, o, c, hits, ss, list, ins, r);
      }
    }
  }

  lemma {:induction false} SlowState(cfg: Config, g: Cluster, o: Outstanding, c: Lru, hits: set<nat>, ss: seq<Settled>,
                                     list: seq<Response>, ins: seq<Response>, next: Cluster)
    requires Mid(cfg, g, o, c, hits, ss) && GoodList(o, list, ins)
    requires forall r :: 0 <= r < |ss| ==> CanUpdate(cfg, g.ranks[r], ss[r], list, ins)
    requires var t := Tally(g.pending, SentAll(ss), |ss|);
             next == Cluster(SlowRanks(cfg, g, ss, list, ins), Remaining(t.0, t.1))
    ensures Rel(cfg, next, SpecCycle(o))
  {
    var c', ps := UpdatedCache(cfg, ss[0], ins), AllUpdatedParams(cfg, g, ss, list, ins);
    SlowCaches(cfg, g, o, c, hits, ss, list, ins);
    SettledKeys(cfg, g, o, c, hits, ss);
    assert NextCaches(c', ps, next);
    NextReplicated(cfg, c', ps, next);
    SlowPending(cfg, g, o, c, hits, ss, c'.bits);
    NextRelated(cfg, g, o, c, hits, ss, list, next);
  }

  /** The outcome of the slow path, when no rank fails. */
  lemma {:induction false} SlowShape(cfg: Config, g: Cluster, input: CycleInput, votes: seq<Vote>, ss: seq<Settled>,
                                     list: seq<Response>, ins: seq<Response>)
    requires |votes| == |ss| == |g.ranks| == |input.shutdown| > 0 && CanCoordinate(g, votes, ss)
    requires list == FuseOn(cfg, g.ranks[0].table, Singles(g, votes, ss)) && ins == Insertions(list, |ss|)
    requires forall r :: 0 <= r < |ss| ==> CanUpdate(cfg, g.ranks[r], ss[r], list, ins)
    ensures var out := SlowCycle(cfg, g, input, votes, ss); var t := Tally(g.pending, SentAll(ss), |ss|);
            && out.Some?
            && out.value.next == Cluster(SlowRanks(cfg, g, ss, list, ins), Remaining(t.0, t.1))
            && |out.value.lists| == |ss|
            && forall r :: 0 <= r < |ss| ==>
                 out.value.lists[r] == ResponseList(list, exists k :: 0 <= k < |ss| && input.shutdown[k])
  {
  }

  lemma {:induction false} SlowRefines(cfg: Config, g: Cluster, o: Outstanding, input: CycleInput, v: Vote, c: Lru,
                                       votes: seq<Vote>, ss: seq<Settled>)
    requires Mid(cfg, g, o, c, v.hits, ss)
    requires |votes| == |ss| == |input.shutdown| && Synced(votes, 0) == v
    ensures var out := SlowCycle(cfg, g, input, votes, ss); out.Some? && MeetsSpec(cfg, o, input, out.value)
  {
    SlowSingles(cfg, g, o, c, v.hits, votes, ss);
    var list := FuseOn(cfg, g.ranks[0].table, Singles(g, votes, ss));
    var ins := Insertions(list, |ss|);
    assert GoodList(o, list, ins) by { ListIsGood(cfg, o, g.ranks[0].table, Singles(g, votes, ss)); }
    RanksUpdate(cfg, g, o, c, v.hits, ss, list, ins);
    SlowShape(cfg, g, input, votes, ss, list, ins);
    var out := SlowCycle(cfg, g, input, votes, ss).value;
    assert Rel(cfg, out.next, SpecCycle(o)) by { SlowState(cfg, g, o, c, v.hits, ss, list, ins, out.next); }
  }

  // ---------------------------------------------------------------- the theorem

  /** Every cycle from a related state succeeds on all ranks and refines its specification:
      identical lists, the right answer for every common name, coherent caches afterwards. */
  lemma {:induction false} CycleRefines(cfg: Config, g: Cluster, o: Outstanding, input: CycleInput)
    requires Rel(cfg, g, o) && |input.late| == |input.shutdown| == |o|
    ensures var out := Cycle(cfg, g, input); out.Some? && MeetsSpec(cfg, o, input, out.value)
  {
    var v := RanksAgree(cfg, g, o, input);
    var c := MidReached(cfg, g, o, input, v);
    var votes := VotesOf(cfg, g, input);
    var ss := SettleAll(cfg, g, votes);
    assert forall r :: 0 <= r < |ss| ==> Synced(votes, r) == v;
    if !v.uncached { QuietMeansHits(cfg, g, input, v); }
    match BranchOf(cfg, v)
    case Early => EarlyRefines(cfg, g, o, input, v, c, votes, ss);
    case Fast => FastRefines(cfg, g, o, input, v, c, votes, ss);
    case Slow => SlowRefines(cfg, g, o, input, v, c, votes, ss);
  }
}
