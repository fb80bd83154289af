/** The specification of the protocol, which knows no cache, queue or message table, and the
    relation that ties a cluster to it. */
module ProtocolSpec {
  import opened Messages
  import opened Negotiation
  import opened LruCache
  import opened Protocol

  /** For each rank, the requests that were accepted and not answered yet. */
  type Outstanding = seq<map<string, Request>>

  ghost predicate Everywhere(o: Outstanding, name: string) {
    forall r :: 0 <= r < |o| ==> name in o[r]
  }

  /** The names outstanding on every rank: exactly what a cycle must answer. */
  ghost function Common(o: Outstanding): (names: set<string>)
    requires |o| > 0
    ensures forall x :: x in names <==> Everywhere(o, x)
  {
    set x | x in o[0] && Everywhere(o, x)
  }

  /** The requests of all ranks for `name`, in rank order. */
  ghost function RequestsFor(o: Outstanding, name: string): seq<Request>
    requires Everywhere(o, name)
  {
    seq(|o|, r requires 0 <= r < |o| => o[r][name])
  }

  /** The response the ranks must get for `name`. */
  ghost function Answer(o: Outstanding, name: string): Response
    requires |o| > 0 && Everywhere(o, name)
  {
    Respond(name, RequestsFor(o, name))
  }

  /** `rs` answers every common name once, each with the right response. */
  ghost predicate Answers(o: Outstanding, rs: seq<Response>)
    requires |o| > 0
  {
    && DistinctNames(rs)
    && NameSet(rs) == Common(o)
    && forall r :: r in rs ==> Everywhere(o, NameOf(r)) && r == Answer(o, NameOf(r))
  }

  ghost function SpecCycle(o: Outstanding): Outstanding
    requires |o| > 0
  {
    seq(|o|, r requires 0 <= r < |o| => o[r] - Common(o))
  }

  ghost function SpecEnqueue(o: Outstanding, r: nat, q: Request): Outstanding
    requires r < |o|
  {
    if q.name in o[r] then o else o[r := o[r][q.name := q]]
  }

  ghost function SpecStart(n: nat): Outstanding { seq(n, _ => map[]) }

  // ---------------------------------------------------------------- cache certificates

  /** The requests that a cached response and the parameters each rank keeps with it stand
      for. */
  ghost function Canon(e: Response, ps: seq<map<string, Params>>): seq<Request>
    requires e.rtype.Run? && forall r :: 0 <= r < |ps| ==> NameOf(e) in ps[r]
  {
    seq(|ps|, r requires 0 <= r < |ps| =>
      var p := ps[r][NameOf(e)];
      Request(r, e.rtype.op, p.dtype, NameOf(e), 0, p.device, p.shape, e.prescale, e.postscale))
  }

  /** A cache entry is what negotiation would answer to the requests it stands for. */
  ghost predicate Certified(e: Response, ps: seq<map<string, Params>>) {
    && |ps| > 0
    && e.rtype.Run? && e.rtype.op != Broadcast
    && (forall r :: 0 <= r < |ps| ==> NameOf(e) in ps[r])
    && e == Respond(NameOf(e), Canon(e, ps))
  }

  ghost predicate AllCertified(order: seq<Response>, ps: seq<map<string, Params>>) {
    forall e :: e in order ==> Certified(e, ps)
  }

  /** A certificate only depends on the parameters kept for its own name. */
  lemma {:induction false} CertifiedBy(e: Response, ps: seq<map<string, Params>>, ps': seq<map<string, Params>>)
    requires Certified(e, ps) && |ps| == |ps'|
    requires forall r :: 0 <= r < |ps| ==> NameOf(e) in ps'[r] && ps'[r][NameOf(e)] == ps[r][NameOf(e)]
    ensures Certified(e, ps')
  {
    assert Canon(e, ps) == Canon(e, ps');
  }

  lemma {:induction false} CertifiedSubset(order: seq<Response>, ps: seq<map<string, Params>>, order': seq<Response>,
                                           ps': seq<map<string, Params>>)
    requires AllCertified(order, ps) && |ps| == |ps'|
    requires forall e :: e in order' ==> e in order
    requires forall e, r :: e in order' && 0 <= r < |ps| ==>
               NameOf(e) in ps[r] && NameOf(e) in ps'[r] && ps'[r][NameOf(e)] == ps[r][NameOf(e)]
    ensures AllCertified(order', ps')
  {
    forall e | e in order' ensures Certified(e, ps') {
      CertifiedBy(e, ps, ps');
    }
  }

  /** Requests that negotiation cannot tell apart. */
  ghost predicate Alike(a: Request, b: Request) {
    && a.op == b.op && a.op != Broadcast
    && a.dtype == b.dtype && a.device == b.device && a.shape == b.shape
    && (IsReduction(a.op) ==> a.prescale == b.prescale && a.postscale == b.postscale)
  }

  lemma {:induction false} RespondAlike(name: string, a: seq<Request>, b: seq<Request>)
    requires |a| == |b| > 0 && forall r :: 0 <= r < |a| ==> Alike(a[r], b[r])
    ensures Respond(name, a) == Respond(name, b)
  {
    assert DevicesOf(a) == DevicesOf(b);
    assert Agree(a) <==> Agree(b) by {
      forall i, j | 0 <= i < |a| && 0 <= j < |a| ensures Compatible(a[i], a[j]) <==> Compatible(b[i], b[j]) {
        assert Alike(a[i], b[i]) && Alike(a[j], b[j]);
      }
      forall i | 0 <= i < |a| ensures Gatherable(a[i]) <==> Gatherable(b[i]) {
        assert Alike(a[i], b[i]);
      }
    }
    assert Alike(a[0], b[0]);
    if Agree(a) && a[0].op == Allgather {
      forall i | 0 <= i < |a| ensures a[i].shape != [] && a[i].shape == b[i].shape {
        assert Compatible(a[0], a[i]) && Gatherable(a[i]) && Alike(a[i], b[i]);
      }
      assert FirstDims(a) == FirstDims(b);
    }
  }

  /** `q` hits the entry `e` on a rank that keeps parameters `p` with it. */
  ghost predicate Matches(e: Response, p: Params, q: Request) {
    ParamsOf(q) == p && e.prescale == q.prescale && e.postscale == q.postscale && e.rtype == Run(q.op)
  }

  /** The fast path is sound: when the request of every rank is a hit on that rank, checked
      there against local parameters only, the cached response is, field for field, the one
      negotiation would construct from these requests. */
  lemma {:induction false} HitsEverywhereMeanAnswer(e: Response, ps: seq<map<string, Params>>, qs: seq<Request>)
    requires Certified(e, ps) && |qs| == |ps|
    requires forall r :: 0 <= r < |ps| ==> Matches(e, ps[r][NameOf(e)], qs[r])
    ensures e == Respond(NameOf(e), qs)
  {
    var canon := Canon(e, ps);
    forall r | 0 <= r < |ps| ensures Alike(canon[r], qs[r]) {
      assert Matches(e, ps[r][NameOf(e)], qs[r]);
    }
    RespondAlike(NameOf(e), canon, qs);
  }

  /** A response fresh from negotiation is certified by the parameters of the requests. */
  lemma {:induction false} FreshIsCertified(name: string, qs: seq<Request>, ps: seq<map<string, Params>>)
    requires |qs| == |ps| > 0
    requires forall r :: 0 <= r < |ps| ==> name in ps[r] && ps[r][name] == ParamsOf(qs[r])
    requires Respond(name, qs).rtype.Run? && Respond(name, qs).rtype.op != Broadcast
    ensures Certified(Respond(name, qs), ps)
  {
    var e := Respond(name, qs);
    assert NameOf(e) == name;
    var canon := Canon(e, ps);
    forall r | 0 <= r < |ps| ensures Alike(canon[r], qs[r]) {
      assert Compatible(qs[0], qs[r]);
    }
    RespondAlike(name, canon, qs);
  }

  // ---------------------------------------------------------------- the relation

  ghost predicate OwnRequests(o: Outstanding) {
    forall r, x :: 0 <= r < |o| && x in o[r] ==> o[r][x].name == x && o[r][x].rank == r
  }

  ghost predicate DistinctRequests(queue: seq<Request>) {
    forall i, j :: 0 <= i < j < |queue| ==> queue[i].name != queue[j].name
  }

  ghost predicate TableMatches(k: Rank, m: map<string, Request>) {
    k.table.Keys == m.Keys && forall x :: x in m ==> k.table[x] == ParamsOf(m[x])
  }

  ghost predicate QueueMatches(k: Rank, m: map<string, Request>) {
    && DistinctRequests(k.queue)
    && (forall q :: q in k.queue ==> q.name in m && m[q.name] == q)
    && k.watched <= NamesOf(k.queue)
  }

  ghost predicate RanksMatch(g: Cluster, o: Outstanding) {
    && |g.ranks| == |o| > 0
    && OwnRequests(o)
    && forall r :: 0 <= r < |o| ==> TableMatches(g.ranks[r], o[r]) && QueueMatches(g.ranks[r], o[r])
  }

  /** The requests waiting for `x` at the coordinator: some but not all ranks, each once. */
  ghost predicate WaitingMatch(qs: seq<Request>, o: Outstanding, x: string) {
    && 0 < |qs| < |o|
    && DistinctRanks(qs)
    && forall q :: q in qs ==> q.rank < |o| && x in o[q.rank] && o[q.rank][x] == q
  }

  ghost predicate PendingMatches(g: Cluster, o: Outstanding)
    requires |g.ranks| == |o| > 0
  {
    forall x :: x in g.pending ==>
      && WaitingMatch(g.pending[x], o, x)
      && x !in g.ranks[0].cache.bits
      && forall q :: q in g.pending[x] && q.rank < |o| ==> q !in g.ranks[q.rank].queue
  }

  /** Every outstanding request is in its rank's queue or at the coordinator. */
  ghost predicate Accounted(g: Cluster, o: Outstanding)
    requires |g.ranks| == |o|
  {
    forall r, x :: 0 <= r < |o| && x in o[r] ==> o[r][x] in g.ranks[r].queue || o[r][x] in Get(g.pending, x)
  }

  ghost function ParamMaps(g: Cluster): seq<map<string, Params>> {
    seq(|g.ranks|, r requires 0 <= r < |g.ranks| => g.ranks[r].params)
  }

  /** All replicas of the cache are the same list with the same numbering. */
  ghost predicate Replicated(cfg: Config, g: Cluster)
    requires |g.ranks| > 0
  {
    var c := g.ranks[0].cache;
    && WellFormed(c) && !c.outdated && |c.order| <= cfg.capacity
    && (forall r :: 0 <= r < |g.ranks| ==> g.ranks[r].cache == c && g.ranks[r].params.Keys == c.bits.Keys)
  }

  ghost predicate Rel(cfg: Config, g: Cluster, o: Outstanding) {
    && RanksMatch(g, o)
    && PendingMatches(g, o)
    && Accounted(g, o)
    && Replicated(cfg, g)
    && AllCertified(g.ranks[0].cache.order, ParamMaps(g))
  }

  lemma {:induction false} StartRelated(cfg: Config, n: nat)
    requires n > 0
    ensures Rel(cfg, Start(n), SpecStart(n))
  {
  }

  lemma {:induction false} EnqueueOnRank(k: Rank, m: map<string, Request>, q: Request)
    requires TableMatches(k, m) && QueueMatches(k, m) && q.name !in m
    ensures var k' := k.(table := k.table[q.name := ParamsOf(q)], queue := k.queue + [q]); var m' := m[q.name := q];
            && TableMatches(k', m') && QueueMatches(k', m')
            && forall x :: x in k'.queue <==> x in k.queue || x == q
  {
    var k' := k.(table := k.table[q.name := ParamsOf(q)], queue := k.queue + [q]);
    forall x | x in k.watched ensures x in NamesOf(k'.queue) {
      var i :| i in k.queue && i.name == x;
      assert i in k'.queue;
    }
    forall i, j | 0 <= i < j < |k'.queue| ensures k'.queue[i].name != k'.queue[j].name {
      if j == |k.queue| { assert k.queue[i] in k.queue; }
    }
  }

  lemma {:induction false} EnqueueKeepsPending(g: Cluster, o: Outstanding, r: nat, q: Request)
    requires RanksMatch(g, o) && PendingMatches(g, o) && r < |o| && q.name !in o[r]
    ensures PendingMatches(Enqueue(g, r, q), SpecEnqueue(o, r, q))
  {
    var g', o' := Enqueue(g, r, q), SpecEnqueue(o, r, q);
    forall x | x in g'.pending
      ensures WaitingMatch(g'.pending[x], o', x)
      ensures forall m :: m in g'.pending[x] && m.rank < |o| ==> m !in g'.ranks[m.rank].queue
    {
      assert WaitingMatch(g.pending[x], o, x);
      forall m | m in g.pending[x]
        ensures m.rank < |o'| && x in o'[m.rank] && o'[m.rank][x] == m && m !in g'.ranks[m.rank].queue
      {
        assert m.name == x && (m.rank == r ==> x != q.name);
      }
    }
  }

  /** Enqueueing refines its specification. */
  lemma {:induction false} EnqueueRelated(cfg: Config, g: Cluster, o: Outstanding, r: nat, q: Request)
    requires Rel(cfg, g, o) && r < |o| && q.rank == r
    ensures Rel(cfg, Enqueue(g, r, q), SpecEnqueue(o, r, q))
  {
    assert TableMatches(g.ranks[r], o[r]);
    if q.name !in o[r] {
      var g', o' := Enqueue(g, r, q), SpecEnqueue(o, r, q);
      EnqueueOnRank(g.ranks[r], o[r], q);
      EnqueueKeepsPending(g, o, r, q);
      assert ParamMaps(g') == ParamMaps(g);
      forall i, x | 0 <= i < |o'| && x in o'[i]
        ensures o'[i][x] in g'.ranks[i].queue || o'[i][x] in Get(g'.pending, x)
      {
        if !(i == r && x == q.name) { assert x in o[i] && o'[i][x] == o[i][x]; }
      }
    }
  }
}
