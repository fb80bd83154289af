/** From the settled state, the responses of a cycle are exactly the answers to the names
    outstanding on every rank: cached ones from common hits, the others from counting. */
module ProtocolAnswers {
  import opened Messages
  import opened Negotiation
  import opened LruCache
  import opened Protocol
  import opened ProtocolSpec
  import opened ProtocolAgreement

  // ---------------------------------------------------------------- common hits

  lemma {:induction false} HitResponse(cfg: Config, g: Cluster, o: Outstanding, c: Lru, hits: set<nat>,
                                       ss: seq<Settled>, b: nat)
    requires Mid(cfg, g, o, c, hits, ss) && b in hits
    ensures var e := Peek(c, b);
            && NameOf(e) in c.bits && c.bits[NameOf(e)] == b
            && Everywhere(o, NameOf(e)) && e == Answer(o, NameOf(e))
  {
    var e := Peek(c, b);
    var x := NameOf(e);
    assert Live(c, b) && x == c.slots[b].value && x in c.bits;
    assert Certified(e, SettledParams(ss));
    var qs := RequestsFor(o, x);
    forall r | 0 <= r < |ss| ensures Matches(e, SettledParams(ss)[r][x], qs[r]) {
      assert CacheSettled(g.ranks[r], ss[r], o[r], c);
    }
    HitsEverywhereMeanAnswer(e, SettledParams(ss), qs);
  }

  /** The responses of the common hits answer the cached names outstanding everywhere. */
  lemma {:induction false} HitAnswers(cfg: Config, g: Cluster, o: Outstanding, c: Lru, hits: set<nat>, ss: seq<Settled>)
    requires Mid(cfg, g, o, c, hits, ss)
    ensures var rs := HitResponses(c, hits);
            && DistinctNames(rs)
            && (forall r :: r in rs ==> NameOf(r) in c.bits && Everywhere(o, NameOf(r)) && r == Answer(o, NameOf(r)))
            && (forall x :: x in c.bits && Everywhere(o, x) ==> x in NameSet(rs))
  {
    var bs, rs := Ascending(hits, |c.slots|), HitResponses(c, hits);
    forall i | 0 <= i < |rs|
      ensures NameOf(rs[i]) in c.bits && c.bits[NameOf(rs[i])] == bs[i]
      ensures Everywhere(o, NameOf(rs[i])) && rs[i] == Answer(o, NameOf(rs[i]))
    {
      assert bs[i] in bs;
      HitResponse(cfg, g, o, c, hits, ss, bs[i]);
    }
    forall x | x in c.bits && Everywhere(o, x) ensures x in NameSet(rs) {
      LiveBit(c, x);
      assert c.bits[x] in bs;
      var i :| 0 <= i < |bs| && bs[i] == c.bits[x];
      assert rs[i] in rs && NameOf(rs[i]) == x;
    }
  }

  // ---------------------------------------------------------------- counting

  function OfName(msgs: seq<Request>, x: string): seq<Request> {
    if msgs == [] then []
    else
      var m := msgs[|msgs| - 1];
      OfName(msgs[..|msgs| - 1], x) + if m.name == x then [m] else []
  }

  lemma {:induction false} OfNameMembers(msgs: seq<Request>, x: string)
    ensures forall q :: q in OfName(msgs, x) <==> q in msgs && q.name == x
  {
    if msgs != [] {
      var front, m := msgs[..|msgs| - 1], msgs[|msgs| - 1];
      OfNameMembers(front, x);
      assert msgs == front + [m];
    }
  }

  lemma {:induction false} OfNameConcat(a: seq<Request>, b: seq<Request>, x: string)
    ensures OfName(a + b, x) == OfName(a, x) + OfName(b, x)
  {
    if b == [] {
      assert a + b == a;
    } else {
      var n := |b| - 1;
      OfNameConcat(a, b[..n], x);
      assert (a + b)[..|a + b| - 1] == a + b[..n];
    }
  }

  /** The message table collects the requests by name in arrival order, and a name becomes
      ready exactly when its count reaches `n`. */
  lemma {:induction false} TallyFacts(pending: map<string, seq<Request>>, msgs: seq<Request>, n: nat, x: string)
    ensures var t := Tally(pending, msgs, n);
            && Get(t.0, x) == Get(pending, x) + OfName(msgs, x)
            && (x in t.0 <==> x in pending || OfName(msgs, x) != [])
            && (x in t.1 <==> |Get(pending, x)| < n <= |Get(t.0, x)|)
  {
    if msgs != [] {
      TallyFacts(pending, msgs[..|msgs| - 1], n, x);
    }
  }

  lemma {:induction false} ReadyOnce(pending: map<string, seq<Request>>, msgs: seq<Request>, n: nat)
    ensures Distinct(Tally(pending, msgs, n).1)
  {
    if msgs != [] {
      var front, m := msgs[..|msgs| - 1], msgs[|msgs| - 1];
      ReadyOnce(pending, front, n);
      TallyFacts(pending, front, n, m.name);
      var t := Tally(pending, front, n);
      assert |Get(t.0, m.name) + [m]| == n ==> m.name !in t.1;
      DistinctExtend(t.1, m.name);
    }
  }

  /** Tensors become ready in the order in which their last request arrives. */
  lemma {:induction false} ReadyInOrder(pending: map<string, seq<Request>>, msgs: seq<Request>, n: nat, k: nat)
    requires k <= |msgs|
    ensures Tally(pending, msgs[..k], n).1 <= Tally(pending, msgs, n).1
    decreases |msgs|
  {
    if k == |msgs| {
      assert msgs[..k] == msgs;
    } else {
      var front := msgs[..|msgs| - 1];
      ReadyInOrder(pending, front, n, k);
      assert front[..k] == msgs[..k];
    }
  }

  lemma {:induction false} DistinctExtend<T>(xs: seq<T>, x: T)
    requires Distinct(xs)
    ensures x !in xs ==> Distinct(xs + [x])
    ensures Distinct(xs + [])
  {
  }

  ghost predicate FromOwnRank(ss: seq<Settled>) {
    forall r :: 0 <= r < |ss| ==> DistinctRequests(ss[r].sent) && forall q :: q in ss[r].sent ==> q.rank == r
  }

  lemma {:induction false} AtMostOne(msgs: seq<Request>, x: string)
    requires DistinctRequests(msgs)
    ensures |OfName(msgs, x)| <= 1
  {
    if msgs != [] {
      var front, m := msgs[..|msgs| - 1], msgs[|msgs| - 1];
      AtMostOne(front, x);
      OfNameMembers(front, x);
      if OfName(front, x) != [] {
        var q := OfName(front, x)[0];
        assert q in OfName(front, x) && q in front && q.name == x;
      }
    }
  }

  lemma {:induction false} SentMembers(ss: seq<Settled>, q: Request)
    ensures q in SentAll(ss) <==> exists r :: 0 <= r < |ss| && q in ss[r].sent
  {
    if ss != [] {
      var front, last := ss[..|ss| - 1], ss[|ss| - 1];
      SentMembers(front, q);
      if q in SentAll(front) {
        var r :| 0 <= r < |front| && q in front[r].sent;
        assert q in ss[r].sent;
      }
      if r :| 0 <= r < |ss| && q in ss[r].sent {
        if r < |front| { assert q in front[r].sent; }
      }
    }
  }

  /** A cycle sends at most one request per rank for a name. */
  lemma {:induction false} SentOncePerRank(ss: seq<Settled>, x: string)
    requires FromOwnRank(ss)
    ensures DistinctRanks(OfName(SentAll(ss), x))
    ensures forall q :: q in OfName(SentAll(ss), x) ==> q.rank < |ss|
  {
    if ss != [] {
      var front, last := ss[..|ss| - 1], ss[|ss| - 1];
      SentOncePerRank(front, x);
      OfNameConcat(SentAll(front), last.sent, x);
      AtMostOne(last.sent, x);
      OfNameMembers(last.sent, x);
      var a, b := OfName(SentAll(front), x), OfName(last.sent, x);
      assert OfName(SentAll(ss), x) == a + b;
      var ab: seq<Request> := a + b;
      forall i, j | 0 <= i < j < |ab| ensures ab[i].rank != ab[j].rank {
        if j == |a| {
          assert a[i] in a && b[0] in b;
        }
      }
    }
  }

  /** The requests the coordinator holds for an uncached name after counting: exactly the
      outstanding ones, at most one per rank. */
  ghost predicate Collected(qs: seq<Request>, o: Outstanding, x: string) {
    && DistinctRanks(qs)
    && (forall q :: q in qs ==> q.rank < |o| && x in o[q.rank] && o[q.rank][x] == q)
    && (forall r :: 0 <= r < |o| && x in o[r] ==> o[r][x] in qs)
  }

  lemma {:induction false} SentFromOwnRank(cfg: Config, g: Cluster, o: Outstanding, c: Lru, hits: set<nat>,
                                           ss: seq<Settled>)
    requires Mid(cfg, g, o, c, hits, ss)
    ensures FromOwnRank(ss)
  {
    forall r | 0 <= r < |ss| ensures DistinctRequests(ss[r].sent) && forall q :: q in ss[r].sent ==> q.rank == r {
      assert QueueSettled(ss[r], o[r], c, o);
    }
  }

  lemma {:induction false} SentRequest(cfg: Config, g: Cluster, o: Outstanding, c: Lru, hits: set<nat>,
                                       ss: seq<Settled>, x: string, q: Request)
    requires Mid(cfg, g, o, c, hits, ss) && q in OfName(SentAll(ss), x)
    ensures q.rank < |o| && x in o[q.rank] && o[q.rank][x] == q && x !in c.bits && q !in Get(g.pending, x)
  {
    OfNameMembers(SentAll(ss), x);
    SentMembers(ss, q);
    var r :| 0 <= r < |ss| && q in ss[r].sent;
    assert QueueSettled(ss[r], o[r], c, o);
  }

  lemma {:induction false} AllCollected(cfg: Config, g: Cluster, o: Outstanding, c: Lru, hits: set<nat>,
                                        ss: seq<Settled>, x: string)
    requires Mid(cfg, g, o, c, hits, ss) && x !in c.bits
    ensures Collected(Get(g.pending, x) + OfName(SentAll(ss), x), o, x)
  {
    var a, b := Get(g.pending, x), OfName(SentAll(ss), x);
    SentFromOwnRank(cfg, g, o, c, hits, ss);
    SentOncePerRank(ss, x);
    assert x in g.pending ==> WaitingMatch(g.pending[x], o, x);
    forall q | q in b ensures q.rank < |o| && x in o[q.rank] && o[q.rank][x] == q && q !in a {
      SentRequest(cfg, g, o, c, hits, ss, x, q);
    }
    DistinctJoin(a, b, o, x);
    forall r | 0 <= r < |o| && x in o[r] ensures o[r][x] in a + b {
      if o[r][x] in ss[r].sent {
        SentMembers(ss, o[r][x]);
        OfNameMembers(SentAll(ss), x);
        assert o[r][x] in b;
      }
    }
  }

  lemma {:induction false} DistinctJoin(a: seq<Request>, b: seq<Request>, o: Outstanding, x: string)
    requires DistinctRanks(a) && DistinctRanks(b)
    requires forall q :: q in a ==> q.rank < |o| && x in o[q.rank] && o[q.rank][x] == q
    requires forall q :: q in b ==> q.rank < |o| && x in o[q.rank] && o[q.rank][x] == q && q !in a
    ensures DistinctRanks(a + b)
  {
    var ab := a + b;
    forall i, j | 0 <= i < j < |ab| ensures ab[i].rank != ab[j].rank {
      if i < |a| <= j {
        assert a[i] in a && b[j - |a|] in b;
      }
    }
  }

  /** Enough requests means all ranks: the count is `n` exactly when the name is outstanding
      everywhere, and then the requests in rank order are the outstanding ones. */
  lemma {:induction false} CollectedCount(qs: seq<Request>, o: Outstanding, x: string)
    requires |o| > 0 && OwnRequests(o) && Collected(qs, o, x)
    ensures |qs| <= |o| && (|qs| == |o| <==> Everywhere(o, x))
    ensures |qs| == |o| ==> OnePerRank(qs) && InRankOrder(qs) == RequestsFor(o, x)
  {
    CountIsAllRanks(qs, |o|);
    forall r | 0 <= r < |o| ensures r in RanksOf(qs) <==> x in o[r] {
      if r in RanksOf(qs) {
        var i :| 0 <= i < |qs| && qs[i].rank == r;
        assert qs[i] in qs;
      }
      if x in o[r] {
        var i :| 0 <= i < |qs| && qs[i] == o[r][x];
        assert qs[i].rank == r;
      }
    }
    if |qs| == |o| {
      RankOrderUnique(qs, RequestsFor(o, x));
    }
  }

  /** The names that become ready are the uncached names outstanding on every rank. */
  lemma {:induction false} ReadyNames(cfg: Config, g: Cluster, o: Outstanding, c: Lru, hits: set<nat>, ss: seq<Settled>,
                                      x: string)
    requires Mid(cfg, g, o, c, hits, ss)
    ensures var t := Tally(g.pending, SentAll(ss), |ss|);
            && (x in t.1 <==> Everywhere(o, x) && x !in c.bits)
            && (x in t.1 ==>
                  x in t.0 && OnePerRank(t.0[x]) && |t.0[x]| == |o| && InRankOrder(t.0[x]) == RequestsFor(o, x))
            && (x in t.0 && x !in t.1 ==> x !in c.bits && Collected(t.0[x], o, x) && 0 < |t.0[x]| < |o|)
            && (forall r :: 0 <= r < |o| && x in o[r] && x !in c.bits ==> o[r][x] in Get(t.0, x))
  {
    var t := Tally(g.pending, SentAll(ss), |ss|);
    TallyFacts(g.pending, SentAll(ss), |ss|, x);
    assert x in g.pending ==> WaitingMatch(g.pending[x], o, x);
    if x in c.bits {
      assert OfName(SentAll(ss), x) == [] by {
        if OfName(SentAll(ss), x) != [] {
          SentRequest(cfg, g, o, c, hits, ss, x, OfName(SentAll(ss), x)[0]);
        }
      }
    } else {
      AllCollected(cfg, g, o, c, hits, ss, x);
      CollectedCount(Get(t.0, x), o, x);
    }
  }

  // ---------------------------------------------------------------- the answers of a cycle

  /** A ready name can be constructed, and the result is its answer. */
  lemma {:induction false} ReadyAnswer(cfg: Config, g: Cluster, o: Outstanding, c: Lru, hits: set<nat>,
                                       ss: seq<Settled>, i: nat)
    requires Mid(cfg, g, o, c, hits, ss) && i < |Tally(g.pending, SentAll(ss), |ss|).1|
    ensures var t := Tally(g.pending, SentAll(ss), |ss|); var x := t.1[i];
            && x in t.0 && t.0[x] != [] && OnePerRank(t.0[x])
            && x !in c.bits && Everywhere(o, x) && Respond(x, InRankOrder(t.0[x])) == Answer(o, x)
  {
    var t := Tally(g.pending, SentAll(ss), |ss|);
    assert t.1[i] in t.1;
    ReadyNames(cfg, g, o, c, hits, ss, t.1[i]);
  }

  lemma {:induction false} NamesInOrder(rs: seq<Response>, names: seq<string>)
    requires |rs| == |names| && Distinct(names) && forall i :: 0 <= i < |rs| ==> NameOf(rs[i]) == names[i]
    ensures DistinctNames(rs)
    ensures forall x :: x in NameSet(rs) <==> x in names
  {
    forall x | x in names ensures x in NameSet(rs) {
      var i :| 0 <= i < |names| && names[i] == x;
      assert rs[i] in rs;
    }
  }

  lemma {:induction false} ReadyConstructs(cfg: Config, g: Cluster, o: Outstanding, c: Lru, hits: set<nat>,
                                           ss: seq<Settled>)
    requires Mid(cfg, g, o, c, hits, ss)
    ensures var t := Tally(g.pending, SentAll(ss), |ss|); CanConstruct(t.0, t.1)
  {
    var t := Tally(g.pending, SentAll(ss), |ss|);
    forall i | 0 <= i < |t.1| ensures t.1[i] in t.0 && t.0[t.1[i]] != [] && OnePerRank(t.0[t.1[i]]) {
      ReadyAnswer(cfg, g, o, c, hits, ss, i);
    }
  }

  lemma {:induction false} ConstructedAnswer(cfg: Config, g: Cluster, o: Outstanding, c: Lru, hits: set<nat>,
                                             ss: seq<Settled>, r: Response)
    requires Mid(cfg, g, o, c, hits, ss)
    requires var t := Tally(g.pending, SentAll(ss), |ss|); CanConstruct(t.0, t.1) && r in Constructed(t.0, t.1)
    ensures NameOf(r) !in c.bits && Everywhere(o, NameOf(r)) && r == Answer(o, NameOf(r))
  {
    var t := Tally(g.pending, SentAll(ss), |ss|);
    var i :| 0 <= i < |t.1| && Constructed(t.0, t.1)[i] == r;
    ReadyAnswer(cfg, g, o, c, hits, ss, i);
  }

  /** What the coordinator builds for the ready names are their answers. */
  lemma {:induction false} ConstructedAnswers(cfg: Config, g: Cluster, o: Outstanding, c: Lru, hits: set<nat>,
                                              ss: seq<Settled>)
    requires Mid(cfg, g, o, c, hits, ss)
    ensures var t := Tally(g.pending, SentAll(ss), |ss|);
            && CanConstruct(t.0, t.1)
            && var rs := Constructed(t.0, t.1);
               && DistinctNames(rs)
               && (forall r :: r in rs ==>
                     NameOf(r) !in c.bits && Everywhere(o, NameOf(r)) && r == Answer(o, NameOf(r)))
               && (forall x :: x !in c.bits && Everywhere(o, x) ==> x in NameSet(rs))
  {
    var t := Tally(g.pending, SentAll(ss), |ss|);
    ReadyConstructs(cfg, g, o, c, hits, ss);
    var rs := Constructed(t.0, t.1);
    ReadyOnce(g.pending, SentAll(ss), |ss|);
    NamesInOrder(rs, t.1);
    forall r | r in rs ensures NameOf(r) !in c.bits && Everywhere(o, NameOf(r)) && r == Answer(o, NameOf(r)) {
      ConstructedAnswer(cfg, g, o, c, hits, ss, r);
    }
    forall x | x !in c.bits && Everywhere(o, x) ensures x in NameSet(rs) {
      ReadyNames(cfg, g, o, c, hits, ss, x);
    }
  }

  /** Slow path: common hits and constructed responses together answer every name that is
      outstanding on all ranks, each once. */
  lemma {:induction false} SlowAnswers(cfg: Config, g: Cluster, o: Outstanding, c: Lru, hits: set<nat>,
                                       ss: seq<Settled>)
    requires Mid(cfg, g, o, c, hits, ss)
    ensures var t := Tally(g.pending, SentAll(ss), |ss|);
            CanConstruct(t.0, t.1) && Answers(o, HitResponses(c, hits) + Constructed(t.0, t.1))
  {
    HitAnswers(cfg, g, o, c, hits, ss);
    ConstructedAnswers(cfg, g, o, c, hits, ss);
    var t := Tally(g.pending, SentAll(ss), |ss|);
    var a, b := HitResponses(c, hits), Constructed(t.0, t.1);
    AnswersJoin(o, a, b);
  }

  lemma {:induction false} AnswersJoin(o: Outstanding, a: seq<Response>, b: seq<Response>)
    requires |o| > 0 && DistinctNames(a) && DistinctNames(b) && NameSet(a) !! NameSet(b)
    requires forall r :: r in a || r in b ==> Everywhere(o, NameOf(r)) && r == Answer(o, NameOf(r))
    requires forall x :: Everywhere(o, x) ==> x in NameSet(a) || x in NameSet(b)
    ensures Answers(o, a + b)
  {
    var ab := a + b;
    forall i, j | 0 <= i < j < |ab| ensures NameOf(ab[i]) != NameOf(ab[j]) {
      if i < |a| <= j { assert NameOf(a[i]) in NameSet(a) && NameOf(b[j - |a|]) in NameSet(b); }
    }
    assert NameSet(ab) == NameSet(a) + NameSet(b);
  }

  /** Fast path: without uncached messages the common hits alone are all the answers. */
  lemma {:induction false} FastAnswers(cfg: Config, g: Cluster, o: Outstanding, c: Lru, hits: set<nat>,
                                       ss: seq<Settled>)
    requires Mid(cfg, g, o, c, hits, ss)
    requires forall r :: 0 <= r < |ss| ==> ss[r].sent == []
    ensures Answers(o, HitResponses(c, hits))
  {
    HitAnswers(cfg, g, o, c, hits, ss);
    var rs := HitResponses(c, hits);
    forall x | Everywhere(o, x) ensures x in c.bits {
      if x !in c.bits {
        NoOneWaitsAlone(cfg, g, o, c, hits, ss, x);
      }
    }
    assert NameSet(rs) == Common(o);
  }

  lemma {:induction false} SentNothing(ss: seq<Settled>)
    requires forall r :: 0 <= r < |ss| ==> ss[r].sent == []
    ensures SentAll(ss) == []
  {
    if ss != [] { SentNothing(ss[..|ss| - 1]); }
  }

  lemma {:induction false} NoOneWaitsAlone(cfg: Config, g: Cluster, o: Outstanding, c: Lru, hits: set<nat>,
                                           ss: seq<Settled>, x: string)
    requires Mid(cfg, g, o, c, hits, ss) && x !in c.bits
    requires forall r :: 0 <= r < |ss| ==> ss[r].sent == []
    ensures !Everywhere(o, x)
  {
    AllCollected(cfg, g, o, c, hits, ss, x);
    var qs := Get(g.pending, x) + OfName(SentAll(ss), x);
    CollectedCount(qs, o, x);
    SentNothing(ss);
    assert x in g.pending ==> WaitingMatch(g.pending[x], o, x);
  }
}
