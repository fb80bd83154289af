/** What the cache is for: what the ranks negotiated once is answered from the cache when they ask
    for it again, and no message goes to the coordinator. */
module ProtocolCaching {
  import opened Messages
  import opened Negotiation
  import opened LruCache
  import opened Votes
  import opened Protocol
  import opened ProtocolSpec
  import opened ProtocolAgreement
  import opened ProtocolAnswers
  import opened ProtocolUpdate
  import opened ProtocolCycle
  import Runs = ProtocolRuns
  import Fusion
  import Recency

  /** The rank caches `e` under its name, with the parameters of `q`. */
  ghost predicate Remembers(k: Rank, e: Response, q: Request) {
    && NameOf(e) in k.cache.bits
    && Has(k.cache.order, NameOf(e)) && Entry(k.cache.order, NameOf(e)) == e
    && NameOf(e) in k.params && k.params[NameOf(e)] == ParamsOf(q)
  }

  lemma {:induction false} RenumberRemembers(c: Lru, e: Response)
    requires WellFormed(c) && e in c.order
    ensures var c' := Renumber(c);
            NameOf(e) in c'.bits && Has(c'.order, NameOf(e)) && Entry(c'.order, NameOf(e)) == e
  {
    RenumberFacts(c);
    EntryUnique(c.order, e);
    assert NameOf(e) in NameSet(c.order);
  }

  // ---------------------------------------------------------------- after a cycle

  /** On the slow path the answer to a common name goes into every cache. */
  lemma {:induction false} SlowAdds(cfg: Config, g: Cluster, o: Outstanding, c: Lru, hits: set<nat>, ss: seq<Settled>,
                                    list: seq<Response>, ins: seq<Response>, x: string)
    requires Mid(cfg, g, o, c, hits, ss) && GoodList(o, list, ins) && ins == Insertions(list, |o|)
    requires x in Common(o) && |Common(o)| <= cfg.capacity && cfg.capacity > 0
    requires Answer(o, x).rtype.Run? && Answer(o, x).rtype.op != Broadcast
    ensures var c' := PutAll(c, cfg.capacity, ins);
            Answer(o, x) in ins && Answer(o, x) in c'.order && NameOf(Answer(o, x)) == x
  {
    var e, parts := Answer(o, x), Fusion.SplitAll(list);
    assert x in NameSet(parts);
    var s :| s in parts && NameOf(s) == x;
    assert s == e;
    Recency.InsertionsHave(list, |o|, e);
    Recency.NamesWithin(ins, Common(o), e);
    Recency.InsertedStay(c, cfg.capacity, ins, Common(o), x);
    UpdatedMembers(cfg, g, o, c, hits, ss, ins);
    var c' := PutAll(c, cfg.capacity, ins);
    assert x in NameSet(c'.order);
    var f :| f in c'.order && NameOf(f) == x;
    assert x in NameSet(ins);
    assert f in ins && f == e;
  }

  lemma {:induction false} SlowRemembers(cfg: Config, g: Cluster, o: Outstanding, c: Lru, hits: set<nat>,
                                         ss: seq<Settled>, list: seq<Response>, ins: seq<Response>, x: string, r: nat)
    requires Mid(cfg, g, o, c, hits, ss) && GoodList(o, list, ins) && ins == Insertions(list, |o|) && r < |o|
    requires x in Common(o) && |Common(o)| <= cfg.capacity && cfg.capacity > 0
    requires Answer(o, x).rtype.Run? && Answer(o, x).rtype.op != Broadcast
    ensures forall k :: 0 <= k < |ss| ==> CanUpdate(cfg, g.ranks[k], ss[k], list, ins)
    ensures x in o[r] && Remembers(SlowRanks(cfg, g, ss, list, ins)[r], Answer(o, x), o[r][x])
  {
    var e := Answer(o, x);
    RanksUpdate(cfg, g, o, c, hits, ss, list, ins);
    SlowAdds(cfg, g, o, c, hits, ss, list, ins, x);
    SettledKeys(cfg, g, o, c, hits, ss);
    RankUpdates(cfg, g, o, c, hits, ss, list, ins, r);
    RenumberRemembers(PutAll(c, cfg.capacity, ins), e);
    assert NameOf(e) in NameSet(PutAll(c, cfg.capacity, ins).order);
    assert NameOf(e) in NameSet(ins);
  }

  /** A common hit is cached with the parameters of the requests. */
  lemma {:induction false} CommonHit(cfg: Config, g: Cluster, o: Outstanding, c: Lru, hits: set<nat>, ss: seq<Settled>,
                                     x: string)
    requires Mid(cfg, g, o, c, hits, ss) && x in Common(o)
    requires forall k :: 0 <= k < |ss| ==> ss[k].sent == []
    ensures x in c.bits && Answer(o, x) in c.order && NameOf(Answer(o, x)) == x
  {
    FastAnswers(cfg, g, o, c, hits, ss);
    var rs, bs := HitResponses(c, hits), Ascending(hits, |c.slots|);
    assert x in NameSet(rs);
    var e :| e in rs && NameOf(e) == x;
    var i :| 0 <= i < |rs| && rs[i] == e;
    assert bs[i] in bs && Live(c, bs[i]) && e in c.order;
    assert x in NameSet(c.order);
  }

  lemma {:induction false} FastRemembers(cfg: Config, g: Cluster, o: Outstanding, c: Lru, hits: set<nat>,
                                         ss: seq<Settled>, x: string, r: nat, k: Rank)
    requires Mid(cfg, g, o, c, hits, ss) && x in Common(o) && r < |o|
    requires forall k :: 0 <= k < |ss| ==> ss[k].sent == []
    requires ss[r].cache == c && k.cache == FastCache(ss[r], hits) && k.params == ss[r].params
    ensures x in o[r] && Remembers(k, Answer(o, x), o[r][x])
  {
    CommonHit(cfg, g, o, c, hits, ss, x);
    FastCacheFacts(ss[r], hits);
    EntryUnique(k.cache.order, Answer(o, x));
    HitParams(cfg, g, o, c, hits, ss, r, x);
  }

  lemma {:induction false} FastPathCaches(cfg: Config, g: Cluster, o: Outstanding, v: Vote, c: Lru, votes: seq<Vote>,
                                          ss: seq<Settled>, x: string, r: nat)
    requires Mid(cfg, g, o, c, v.hits, ss) && x in Common(o) && r < |o|
    requires forall k :: 0 <= k < |ss| ==> ss[k].sent == []
    requires |votes| == |ss| && forall k :: 0 <= k < |ss| ==> Synced(votes, k) == v
    requires FastCycle(cfg, g, votes, ss).Some?
    ensures var next := FastCycle(cfg, g, votes, ss).value.next;
            |next.ranks| == |o| && x in o[r] && Remembers(next.ranks[r], Answer(o, x), o[r][x])
  {
    SettledKeys(cfg, g, o, c, v.hits, ss);
    var next := FastCycle(cfg, g, votes, ss).value.next;
    FastRemembers(cfg, g, o, c, v.hits, ss, x, r, next.ranks[r]);
  }

  lemma {:induction false} SlowPathCaches(cfg: Config, g: Cluster, o: Outstanding, input: CycleInput, v: Vote, c: Lru,
                                          votes: seq<Vote>, ss: seq<Settled>, x: string, r: nat)
    requires Mid(cfg, g, o, c, v.hits, ss) && r < |o|
    requires |votes| == |ss| == |input.shutdown| && Synced(votes, 0) == v
    requires x in Common(o) && |Common(o)| <= cfg.capacity && cfg.capacity > 0
    requires Answer(o, x).rtype.Run? && Answer(o, x).rtype.op != Broadcast
    ensures var out := SlowCycle(cfg, g, input, votes, ss);
            && out.Some? && |out.value.next.ranks| == |o| && x in o[r]
            && Remembers(out.value.next.ranks[r], Answer(o, x), o[r][x])
  {
    SlowSingles(cfg, g, o, c, v.hits, votes, ss);
    var list := FuseOn(cfg, g.ranks[0].table, Singles(g, votes, ss));
    var ins := Insertions(list, |ss|);
    assert GoodList(o, list, ins) by { ListIsGood(cfg, o, g.ranks[0].table, Singles(g, votes, ss)); }
    SlowRemembers(cfg, g, o, c, v.hits, ss, list, ins, x, r);
    SlowShape(cfg, g, input, votes, ss, list, ins);
  }

  /** Whatever a cycle answers, except broadcasts and errors, every rank has in its cache afterwards,
      as long as the cache has room for the names of one cycle. */
  lemma {:induction false} AnswersAreCached(cfg: Config, g: Cluster, o: Outstanding, input: CycleInput, x: string,
                                            r: nat)
    requires Rel(cfg, g, o) && |input.late| == |input.shutdown| == |o| && r < |o|
    requires x in Common(o) && |Common(o)| <= cfg.capacity
    requires Answer(o, x).rtype.Run? && Answer(o, x).rtype.op != Broadcast
    ensures var out := Cycle(cfg, g, input);
            && out.Some? && |out.value.next.ranks| == |o| && x in o[r]
            && Remembers(out.value.next.ranks[r], Answer(o, x), o[r][x])
  {
    assert cfg.capacity > 0 by { assert Common(o) != {}; }
    var v := RanksAgree(cfg, g, o, input);
    var c := MidReached(cfg, g, o, input, v);
    var votes := VotesOf(cfg, g, input);
    assert Cycle(cfg, g, input).Some? by { CycleRefines(cfg, g, o, input); }
    AnyBranchCaches(cfg, g, o, input, v, c, votes, SettleAll(cfg, g, votes), x, r);
  }

  lemma {:induction false} AnyBranchCaches(cfg: Config, g: Cluster, o: Outstanding, input: CycleInput, v: Vote, c: Lru,
                                           votes: seq<Vote>, ss: seq<Settled>, x: string, r: nat)
    requires Mid(cfg, g, o, c, v.hits, ss) && r < |o| && |input.shutdown| == |o|
    requires !v.uncached ==> forall k :: 0 <= k < |o| ==> ss[k].sent == []
    requires Prepared(cfg, g, input) && votes == VotesOf(cfg, g, input) && Matched(cfg, g, votes)
    requires ss == SettleAll(cfg, g, votes) && forall k :: 0 <= k < |g.ranks| ==> Synced(votes, k) == v
    requires Cycle(cfg, g, input).Some?
    requires x in Common(o) && |Common(o)| <= cfg.capacity && cfg.capacity > 0
    requires Answer(o, x).rtype.Run? && Answer(o, x).rtype.op != Broadcast
    ensures var next := Cycle(cfg, g, input).value.next;
            |next.ranks| == |o| && x in o[r] && Remembers(next.ranks[r], Answer(o, x), o[r][x])
  {
    match BranchOf(cfg, v)
    case Early => NoHitsNoAnswers(cfg, g, o, c, ss); assert false;
    case Fast => FastPathCaches(cfg, g, o, v, c, votes, ss, x, r);
    case Slow => SlowPathCaches(cfg, g, o, input, v, c, votes, ss, x, r);
  }

  // ---------------------------------------------------------------- asking again

  /** A request that is repeated hits what its answer left in the cache, except that a gather or
      alltoall with scale factors never does: its response carries none. */
  lemma {:induction false} RepeatedRequestHits(o: Outstanding, k: Rank, x: string, r: nat)
    requires |o| > 0 && OwnRequests(o) && Everywhere(o, x) && r < |o|
    requires Answer(o, x).rtype.Run? && Remembers(k, Answer(o, x), o[r][x])
    ensures var q := o[r][x];
            StateOf(k.cache, k.params, q) == Hit
            <==> q.op in {Allreduce, Adasum} || (q.prescale == 1.0 && q.postscale == 1.0)
  {
    var qs := RequestsFor(o, x);
    ResponseMeans(x, qs);
    assert qs[r] == o[r][x] && qs[r] in qs && qs[0] in qs;
  }

  /** A cycle that answers from the caches alone: no rank sends the coordinator anything. */
  ghost predicate FromCacheOnly(cfg: Config, g: Cluster, input: CycleInput)
    requires |g.ranks| > 0
  {
    && Prepared(cfg, g, input)
    && var votes := VotesOf(cfg, g, input);
       && Matched(cfg, g, votes)
       && forall r :: 0 <= r < |g.ranks| ==>
            BranchOf(cfg, Synced(votes, r)) == Fast && SettleAll(cfg, g, votes)[r].sent == []
  }

  /** While no rank reports a stalled tensor, a cycle with something to answer does so from the caches
      alone if and only if every queued request, on every rank, is a hit. */
  lemma {:induction false} FastIffAllHit(cfg: Config, g: Cluster, o: Outstanding, input: CycleInput)
    requires Rel(cfg, g, o) && |input.late| == |input.shutdown| == |o| && cfg.capacity > 0
    requires Common(o) != {} && forall r :: 0 <= r < |o| ==> input.late[r] == {}
    ensures FromCacheOnly(cfg, g, input) <==>
              forall r, q :: 0 <= r < |o| && q in g.ranks[r].queue ==>
                StateOf(g.ranks[r].cache, g.ranks[r].params, q) == Hit
  {
    var v := RanksAgree(cfg, g, o, input);
    if v.uncached {
      UncachedIsSlow(cfg, g, input, v);
    } else {
      QuietIsFast(cfg, g, o, input, v);
    }
  }

  lemma {:induction false} UncachedIsSlow(cfg: Config, g: Cluster, input: CycleInput, v: Vote)
    requires |g.ranks| > 0 && Agreed(cfg, g, input, v) && v.uncached
    requires forall r :: 0 <= r < |g.ranks| ==> input.late[r] == {}
    ensures !FromCacheOnly(cfg, g, input)
    ensures exists r, q :: 0 <= r < |g.ranks| && q in g.ranks[r].queue
                             && StateOf(g.ranks[r].cache, g.ranks[r].params, q) != Hit
  {
    var votes := VotesOf(cfg, g, input);
    assert Synced(votes, 0) == v;
    var r :| 0 <= r < |votes| && votes[r].uncached;
    SomeMiss(g.ranks[r], input.late[r], input.shutdown[r]);
  }

  lemma {:induction false} QuietIsFast(cfg: Config, g: Cluster, o: Outstanding, input: CycleInput, v: Vote)
    requires Rel(cfg, g, o) && Agreed(cfg, g, input, v) && !v.uncached && cfg.capacity > 0 && Common(o) != {}
    ensures FromCacheOnly(cfg, g, input)
    ensures forall r, q :: 0 <= r < |o| && q in g.ranks[r].queue ==>
              StateOf(g.ranks[r].cache, g.ranks[r].params, q) == Hit
  {
    QuietMeansHits(cfg, g, input, v);
    var c := MidReached(cfg, g, o, input, v);
    if v.hits == {} {
      NoHitsNoAnswers(cfg, g, o, c, SettleAll(cfg, g, VotesOf(cfg, g, input)));
      assert false;
    }
  }

  lemma {:induction false} SomeMiss(k: Rank, late: set<string>, shutdown: bool)
    requires CanVote(k, late) && late == {} && CastVote(k, late, shutdown).uncached
    ensures exists q :: q in k.queue && StateOf(k.cache, k.params, q) != Hit
  {
    assert Stalled(k, late) == {};
  }

  /** The steady state of training: when all ranks have submitted the same tensors and the cache
      holds as many, then after the cycle that answers them the same requests again, in any order,
      are answered from the caches alone. */
  lemma {:induction false} RepeatIsFast(cfg: Config, g: Cluster, o: Outstanding, input: CycleInput, g': Cluster,
                                        input': CycleInput)
    requires Rel(cfg, g, o) && |input.late| == |input.shutdown| == |o|
    requires Common(o) != {} && |Common(o)| <= cfg.capacity && forall r :: 0 <= r < |o| ==> o[r].Keys == Common(o)
    requires forall x :: x in Common(o) ==> Answer(o, x).rtype.Run? && Answer(o, x).rtype.op != Broadcast
    requires forall r, x :: 0 <= r < |o| && x in o[r] ==>
               o[r][x].op in {Allreduce, Adasum} || (o[r][x].prescale == 1.0 && o[r][x].postscale == 1.0)
    requires Rel(cfg, g', o) && |input'.late| == |input'.shutdown| == |o|
    requires forall r :: 0 <= r < |o| ==> input'.late[r] == {}
    requires var out := Cycle(cfg, g, input);
             out.Some? && |out.value.next.ranks| == |o|
               && forall r :: 0 <= r < |o| ==> SameCache(out.value.next.ranks[r], g'.ranks[r])
    ensures FromCacheOnly(cfg, g', input')
  {
    var next := Cycle(cfg, g, input).value.next;
    forall r, q | 0 <= r < |o| && q in g'.ranks[r].queue
      ensures StateOf(g'.ranks[r].cache, g'.ranks[r].params, q) == Hit
    {
      assert QueueMatches(g'.ranks[r], o[r]) && q.name in o[r] && o[r][q.name] == q;
      AnswersAreCached(cfg, g, o, input, q.name, r);
      assert SameCache(next.ranks[r], g'.ranks[r]);
      RepeatedRequestHits(o, g'.ranks[r], q.name, r);
    }
    assert cfg.capacity > 0;
    FastIffAllHit(cfg, g', o, input');
  }

  ghost predicate SameCache(k: Rank, k': Rank) {
    k.cache == k'.cache && k.params == k'.params
  }

  // ---------------------------------------------------------------- over runs

  ghost predicate OnlyAdds(steps: seq<Runs.Step>) {
    forall i :: 0 <= i < |steps| ==> steps[i].Add?
  }

  lemma {:induction false} RunSucceeds(cfg: Config, n: nat, steps: seq<Runs.Step>)
    requires n > 0 && Runs.ValidRun(n, steps)
    ensures Runs.Exec(cfg, n, steps).Some?
  {
    Runs.RunsRefine(cfg, n, steps);
  }

  lemma {:induction false} AddKeepsCache(cfg: Config, n: nat, steps: seq<Runs.Step>, add: Runs.Step, r: nat)
    requires n > 0 && Runs.ValidRun(n, steps) && Runs.ValidStep(n, add) && add.Add? && r < n
    requires Runs.Exec(cfg, n, steps).Some?
    ensures Runs.ValidRun(n, steps + [add])
    ensures var t, t' := Runs.Exec(cfg, n, steps), Runs.Exec(cfg, n, steps + [add]);
            t'.Some? && SameCache(t.value.g.ranks[r], t'.value.g.ranks[r])
  {
    assert (steps + [add])[..|steps|] == steps;
  }

  /** What a cycle at the end of a run leaves. */
  lemma {:induction false} AfterTick(cfg: Config, n: nat, steps: seq<Runs.Step>, input: CycleInput)
    requires n > 0 && Runs.ValidRun(n, steps) && |input.late| == |input.shutdown| == n
    ensures Runs.ValidRun(n, steps + [Runs.Tick(input)])
    ensures var t, t' := Runs.Exec(cfg, n, steps), Runs.Exec(cfg, n, steps + [Runs.Tick(input)]);
            && t.Some? && t'.Some?
            && var out := Cycle(cfg, t.value.g, input);
               out.Some? && |out.value.next.ranks| == n && t'.value.g == out.value.next
  {
    RunSucceeds(cfg, n, steps);
    assert (steps + [Runs.Tick(input)])[..|steps|] == steps;
    RunSucceeds(cfg, n, steps + [Runs.Tick(input)]);
  }

  lemma {:induction false} RunFront(n: nat, steps: seq<Runs.Step>, adds: seq<Runs.Step>)
    requires adds != [] && Runs.ValidRun(n, steps + adds) && OnlyAdds(adds)
    ensures var front, last := adds[..|adds| - 1], adds[|adds| - 1];
            && steps + adds == steps + front + [last] && OnlyAdds(front) && last.Add?
            && Runs.ValidRun(n, steps + front) && Runs.ValidStep(n, last)
  {
    var front, last := adds[..|adds| - 1], adds[|adds| - 1];
    assert (steps + adds)[|steps + front|] == last;
    assert forall i :: 0 <= i < |steps + front| ==> (steps + front)[i] == (steps + adds)[i];
  }

  lemma {:induction false} AddsKeepCaches(cfg: Config, n: nat, steps: seq<Runs.Step>, adds: seq<Runs.Step>, r: nat)
    requires n > 0 && Runs.ValidRun(n, steps) && Runs.ValidRun(n, steps + adds) && OnlyAdds(adds) && r < n
    ensures var t, t' := Runs.Exec(cfg, n, steps), Runs.Exec(cfg, n, steps + adds);
            t.Some? && t'.Some? && SameCache(t.value.g.ranks[r], t'.value.g.ranks[r])
    decreases |adds|
  {
    RunSucceeds(cfg, n, steps);
    if adds == [] {
      assert steps + adds == steps;
    } else {
      var front, last := adds[..|adds| - 1], adds[|adds| - 1];
      RunFront(n, steps, adds);
      AddsKeepCaches(cfg, n, steps, front, r);
      AddKeepsCache(cfg, n, steps + front, last, r);
    }
  }

  /** The steady state of training, over runs: when after any run all ranks have submitted the same
      tensors, which fit the cache, and after a cycle they submit the same requests again, in any
      order, the next cycle answers them from the caches alone. */
  lemma {:induction false} SteadyState(cfg: Config, n: nat, steps: seq<Runs.Step>, input: CycleInput,
                                       adds: seq<Runs.Step>, input': CycleInput)
    requires n > 0 && Runs.ValidRun(n, steps) && |input.late| == |input.shutdown| == n
    requires Runs.ValidRun(n, steps + [Runs.Tick(input)] + adds) && OnlyAdds(adds)
    requires |input'.late| == |input'.shutdown| == n && forall r :: 0 <= r < n ==> input'.late[r] == {}
    requires Runs.SpecExec(n, steps + [Runs.Tick(input)] + adds) == Runs.SpecExec(n, steps)
    requires var o := Runs.SpecExec(n, steps);
             && Common(o) != {} && |Common(o)| <= cfg.capacity && (forall r :: 0 <= r < |o| ==> o[r].Keys == Common(o))
             && (forall x :: x in Common(o) ==> Answer(o, x).rtype.Run? && Answer(o, x).rtype.op != Broadcast)
             && forall r, x :: 0 <= r < |o| && x in o[r] ==>
                  o[r][x].op in {Allreduce, Adasum} || (o[r][x].prescale == 1.0 && o[r][x].postscale == 1.0)
    ensures var t := Runs.Exec(cfg, n, steps + [Runs.Tick(input)] + adds);
            t.Some? && FromCacheOnly(cfg, t.value.g, input')
  {
    var again := steps + [Runs.Tick(input)] + adds;
    AfterTick(cfg, n, steps, input);
    RunSucceeds(cfg, n, again);
    var g, g' := Runs.Exec(cfg, n, steps).value.g, Runs.Exec(cfg, n, again).value.g;
    forall r | 0 <= r < n ensures SameCache(Cycle(cfg, g, input).value.next.ranks[r], g'.ranks[r]) {
      AddsKeepCaches(cfg, n, steps + [Runs.Tick(input)], adds, r);
    }
    Runs.RunsRefine(cfg, n, steps);
    Runs.RunsRefine(cfg, n, again);
    RepeatIsFast(cfg, g, Runs.SpecExec(n, steps), input, g', input');
  }
}
