/** The three ways in which a cycle ends, rank by rank: what the code of each rank has to do for
    the cycle as a whole to come out as the protocol says. */
module ProtocolOutcome {
  import opened Messages
  import opened Negotiation
  import opened LruCache
  import opened Votes
  import opened Protocol
  import opened ProtocolSpec
  import opened ProtocolAgreement
  import opened ProtocolAnswers
  import opened ProtocolCycle
  import Fusion

  /** What each rank holds after the agreement on `votes`. */
  ghost function Records(votes: seq<Vote>): (vs: seq<Vote>)
    ensures |vs| == |votes| && forall r :: 0 <= r < |votes| ==> vs[r] == Synced(votes, r)
  {
    seq(|votes|, r requires 0 <= r < |votes| => Synced(votes, r))
  }

  /** A cycle from related states: the agreed records, the ranks after the agreement, and the
      outcome. */
  ghost predicate Ends(cfg: Config, g: Cluster, o: Outstanding, input: CycleInput, vs: seq<Vote>, ss: seq<Settled>,
                       out: Outcome)
  {
    forall c {:trigger Prepared(c, g, input)} :: c == cfg ==>
      && Rel(c, g, o) && Prepared(c, g, input)
      && Cycle(c, g, input) == Some(out) && MeetsSpec(c, o, input, out)
      && var votes := VotesOf(c, g, input);
         vs == Records(votes) && Matched(c, g, votes) && ss == SettleAll(c, g, votes)
  }

  lemma {:induction false} CycleEnds(cfg: Config, g: Cluster, o: Outstanding, input: CycleInput)
    returns (votes: seq<Vote>, ss: seq<Settled>, out: Outcome)
    requires Rel(cfg, g, o) && |input.late| == |input.shutdown| == |o|
    ensures Prepared(cfg, g, input) && votes == VotesOf(cfg, g, input)
    ensures Ends(cfg, g, o, input, Records(votes), ss, out)
  {
    CycleRefines(cfg, g, o, input);
    votes := VotesOf(cfg, g, input);
    ss := SettleAll(cfg, g, votes);
    out := Cycle(cfg, g, input).value;
  }

  /** The outcome is the protocol's, and meets its specification. */
  lemma {:induction false} EndsInCycle(cfg: Config, g: Cluster, o: Outstanding, input: CycleInput, vs: seq<Vote>,
                                       ss: seq<Settled>, out: Outcome)
    requires Ends(cfg, g, o, input, vs, ss, out)
    ensures |g.ranks| == |o| > 0 && Cycle(cfg, g, input) == Some(out) && MeetsSpec(cfg, o, input, out)
  {
    assert Prepared(cfg, g, input);
  }

  /** Every rank settles. */
  lemma {:induction false} EndsSettled(cfg: Config, g: Cluster, o: Outstanding, input: CycleInput, vs: seq<Vote>,
                                       ss: seq<Settled>, out: Outcome)
    requires Ends(cfg, g, o, input, vs, ss, out)
    ensures |vs| == |ss| == |g.ranks| == |o| > 0
    ensures forall r {:trigger SettlesTo(g.ranks[r], vs[r], ss[r])} :: 0 <= r < |o| ==>
              SettlesTo(g.ranks[r], vs[r], ss[r])
  {
    assert Prepared(cfg, g, input);
    var votes := VotesOf(cfg, g, input);
    forall r | 0 <= r < |o| ensures SettlesTo(g.ranks[r], vs[r], ss[r]) {
      assert CanSettle(g.ranks[r], Synced(votes, r));
    }
  }

  // ---------------------------------------------------------------- nothing to do

  /** Every rank is finished as soon as it has settled. */
  ghost predicate AllEarly(ks: seq<Rank>, vs: seq<Vote>, ss: seq<Settled>, next: seq<Rank>, lists: seq<ResponseList>) {
    && |ks| == |vs| == |ss| == |next| == |lists|
    && forall r :: 0 <= r < |ks| ==>
         && next[r] == Rank(ks[r].table, ss[r].kept, ss[r].cache, ss[r].params, ss[r].watched)
         && lists[r] == ResponseList([], vs[r].shutdown)
  }

  lemma {:induction false} EarlyShape(g: Cluster, votes: seq<Vote>, ss: seq<Settled>)
    requires |votes| == |ss| == |g.ranks|
    ensures var out := EarlyCycle(g, votes, ss);
            AllEarly(g.ranks, Records(votes), ss, out.next.ranks, out.lists) && out.next.pending == g.pending
  {
    forall r | 0 <= r < |ss| ensures Performed(g.ranks[r].table, []) == g.ranks[r].table {}
  }

  lemma {:induction false} EarlyEnds(cfg: Config, g: Cluster, o: Outstanding, input: CycleInput, vs: seq<Vote>,
                                     ss: seq<Settled>, out: Outcome)
    requires Ends(cfg, g, o, input, vs, ss, out) && |vs| > 0 && BranchOf(cfg, vs[0]) == Early
    ensures AllEarly(g.ranks, vs, ss, out.next.ranks, out.lists) && out.next.pending == g.pending
  {
    assert Prepared(cfg, g, input);
    EarlyShape(g, VotesOf(cfg, g, input), ss);
  }

  // ---------------------------------------------------------------- the fast path

  /** The rank can take the fast path, and ends as `next` with list `list`. */
  ghost predicate FastTo(cfg: Config, k: Rank, s: Settled, hits: set<nat>, next: Rank, list: seq<Response>) {
    forall c {:trigger CanAnswer(k, c, hits)} :: c == s ==>
      && CanAnswer(k, c, hits) && CanPerform(k.table, FastList(cfg, k, c, hits))
      && (forall r :: r in HitResponses(c.cache, hits) ==> Fusion.Single(r))
      && list == FastList(cfg, k, c, hits) && next == Finish(k, c, FastCache(c, hits), c.params, list)
  }

  ghost predicate AllFast(cfg: Config, ks: seq<Rank>, vs: seq<Vote>, ss: seq<Settled>, next: seq<Rank>,
                          lists: seq<ResponseList>)
  {
    && |ks| == |vs| == |ss| == |next| == |lists|
    && (forall r {:trigger FastTo(cfg, ks[r], ss[r], vs[r].hits, next[r], lists[r].responses)} :: 0 <= r < |ks| ==>
         FastTo(cfg, ks[r], ss[r], vs[r].hits, next[r], lists[r].responses))
    && forall r {:trigger lists[r].shutdown} :: 0 <= r < |ks| ==> lists[r].shutdown == vs[r].shutdown
  }

  /** Cached responses are for one tensor each. */
  lemma {:induction false} HitsSingle(cfg: Config, g: Cluster, o: Outstanding, c: Lru, hits: set<nat>, ss: seq<Settled>)
    requires Mid(cfg, g, o, c, hits, ss)
    ensures forall r :: r in HitResponses(c, hits) ==> Fusion.Single(r)
  {
    var rs, bs := HitResponses(c, hits), Ascending(hits, |c.slots|);
    forall r | r in rs ensures Fusion.Single(r) {
      var i :| 0 <= i < |rs| && rs[i] == r;
      assert bs[i] in bs && Live(c, bs[i]);
      assert r in c.order;
      assert Certified(r, SettledParams(ss));
      RespondIsSingle(NameOf(r), Canon(r, SettledParams(ss)));
    }
  }

  ghost predicate HitsAnswer(c: Lru, hits: set<nat>) {
    && (forall b :: b in hits ==> Live(c, b))
    && forall e :: e in HitResponses(c, hits) ==> Fusion.Single(e)
  }

  lemma {:induction false} SettledHitsAnswer(cfg: Config, g: Cluster, o: Outstanding, input: CycleInput)
    requires Rel(cfg, g, o) && |input.late| == |input.shutdown| == |o|
    ensures Prepared(cfg, g, input)
    ensures var votes := VotesOf(cfg, g, input); Matched(cfg, g, votes) && var ss := SettleAll(cfg, g, votes);
            forall r :: 0 <= r < |o| ==> HitsAnswer(ss[r].cache, Synced(votes, r).hits)
  {
    var v := RanksAgree(cfg, g, o, input);
    var c := MidReached(cfg, g, o, input, v);
    var ss := SettleAll(cfg, g, VotesOf(cfg, g, input));
    SettledKeys(cfg, g, o, c, v.hits, ss);
    HitsSingle(cfg, g, o, c, v.hits, ss);
  }

  lemma {:induction false} FastShape(cfg: Config, g: Cluster, votes: seq<Vote>, ss: seq<Settled>, out: Outcome)
    requires |votes| == |ss| == |g.ranks| && FastCycle(cfg, g, votes, ss) == Some(out)
    requires forall r :: 0 <= r < |ss| ==> HitsAnswer(ss[r].cache, Synced(votes, r).hits)
    ensures AllFast(cfg, g.ranks, Records(votes), ss, out.next.ranks, out.lists) && out.next.pending == g.pending
  {
    var vs := Records(votes);
    forall r | 0 <= r < |ss|
      ensures FastTo(cfg, g.ranks[r], ss[r], vs[r].hits, out.next.ranks[r], out.lists[r].responses)
    {
      assert CanAnswer(g.ranks[r], ss[r], Synced(votes, r).hits) && HitsAnswer(ss[r].cache, Synced(votes, r).hits);
    }
  }

  lemma {:induction false} FastEnds(cfg: Config, g: Cluster, o: Outstanding, input: CycleInput, vs: seq<Vote>,
                                    ss: seq<Settled>, out: Outcome)
    requires Ends(cfg, g, o, input, vs, ss, out) && |vs| > 0 && BranchOf(cfg, vs[0]) == Fast
    ensures AllFast(cfg, g.ranks, vs, ss, out.next.ranks, out.lists) && out.next.pending == g.pending
  {
    assert Prepared(cfg, g, input);
    SettledHitsAnswer(cfg, g, o, input);
    FastShape(cfg, g, VotesOf(cfg, g, input), ss, out);
  }

  // ---------------------------------------------------------------- the slow path

  /** The coordinator, with cache `c`, can answer the hits and the tensors that `requests`
      complete. */
  ghost predicate CanAssemble(c: Lru, table: map<string, Params>, hits: set<nat>, pending: map<string, seq<Request>>,
                              requests: seq<Request>, n: nat)
  {
    var t := Tally(pending, requests, n);
    && (forall b :: b in hits ==> Live(c, b))
    && CanConstruct(t.0, t.1)
    && var rs := HitResponses(c, hits) + Constructed(t.0, t.1);
       AllIn(rs, table) && forall r :: r in rs ==> Fusion.Single(r)
  }

  ghost function Assembled(cfg: Config, c: Lru, table: map<string, Params>, hits: set<nat>,
                           pending: map<string, seq<Request>>, requests: seq<Request>, n: nat): seq<Response>
    requires CanAssemble(c, table, hits, pending, requests, n)
  {
    var t := Tally(pending, requests, n);
    FuseOn(cfg, table, HitResponses(c, hits) + Constructed(t.0, t.1))
  }

  ghost function StillPending(pending: map<string, seq<Request>>, requests: seq<Request>, n: nat)
      : map<string, seq<Request>>
  {
    var t := Tally(pending, requests, n);
    Remaining(t.0, t.1)
  }

  /** The rank can take in the coordinator's list, and ends as `next`. */
  ghost predicate SlowTo(cfg: Config, k: Rank, s: Settled, list: seq<Response>, n: nat, next: Rank) {
    forall c {:trigger CanUpdate(cfg, k, c, list, Insertions(list, n))} :: c == s ==>
      var ins := Insertions(list, n);
      && CanUpdate(cfg, k, c, list, ins)
      && (forall i :: 0 <= i < |list| ==> list[i].names != [])
      && next == Finish(k, c, UpdatedCache(cfg, c, ins), UpdatedParams(cfg, k, c, list, ins), list)
  }

  lemma {:induction false} MergedNamed(groups: seq<seq<Response>>)
    requires Fusion.NoneEmpty(groups)
    ensures forall r :: r in Fusion.MergeAll(groups) ==> r.names != []
  {
    if groups != [] { MergedNamed(groups[1..]); }
  }

  lemma {:induction false} FusedNamed(cfg: Config, table: map<string, Params>, rs: seq<Response>)
    requires AllIn(rs, table)
    ensures var list := FuseOn(cfg, table, rs); forall i :: 0 <= i < |list| ==> list[i].names != []
  {
    var costs := Fusion.CostsOf(cfg.fusion, table, rs);
    Fusion.GroupsAreGood(cfg.fusion.threshold, costs, rs);
    MergedNamed(Fusion.Groups(cfg.fusion.threshold, costs, rs));
  }

  lemma {:induction false} ConstructedSingle(pending: map<string, seq<Request>>, ready: seq<string>)
    requires CanConstruct(pending, ready)
    ensures forall r :: r in Constructed(pending, ready) ==> Fusion.Single(r)
  {
    forall i | 0 <= i < |ready| ensures Fusion.Single(Constructed(pending, ready)[i]) {
      RespondIsSingle(ready[i], InRankOrder(pending[ready[i]]));
    }
  }

  /** `list` is the coordinator's list, `pending` what it still waits for, and every rank can take
      the list in. */
  ghost predicate AllSlow(cfg: Config, g: Cluster, hits: set<nat>, ss: seq<Settled>, list: seq<Response>, next: Cluster)
    requires |g.ranks| > 0
  {
    && |g.ranks| == |ss| == |next.ranks|
    && CanAssemble(ss[0].cache, g.ranks[0].table, hits, g.pending, SentAll(ss), |ss|)
    && list == Assembled(cfg, ss[0].cache, g.ranks[0].table, hits, g.pending, SentAll(ss), |ss|)
    && next.pending == StillPending(g.pending, SentAll(ss), |ss|)
    && forall r {:trigger SlowTo(cfg, g.ranks[r], ss[r], list, |ss|, next.ranks[r])} :: 0 <= r < |ss| ==>
         SlowTo(cfg, g.ranks[r], ss[r], list, |ss|, next.ranks[r])
  }

  lemma {:induction false} RanksCanUpdate(cfg: Config, g: Cluster, input: CycleInput, votes: seq<Vote>,
                                          ss: seq<Settled>, list: seq<Response>)
    requires |votes| == |ss| == |g.ranks| == |input.shutdown| > 0 && SlowCycle(cfg, g, input, votes, ss).Some?
    requires CanCoordinate(g, votes, ss) && list == FuseOn(cfg, g.ranks[0].table, Singles(g, votes, ss))
    ensures forall r :: 0 <= r < |ss| ==> CanUpdate(cfg, g.ranks[r], ss[r], list, Insertions(list, |ss|))
  {
  }

  lemma {:induction false} SlowRankEnds(cfg: Config, g: Cluster, ss: seq<Settled>, list: seq<Response>, r: nat)
    requires |ss| == |g.ranks| && r < |ss| && forall i :: 0 <= i < |list| ==> list[i].names != []
    requires forall k :: 0 <= k < |ss| ==> CanUpdate(cfg, g.ranks[k], ss[k], list, Insertions(list, |ss|))
    ensures SlowTo(cfg, g.ranks[r], ss[r], list, |ss|, SlowRanks(cfg, g, ss, list, Insertions(list, |ss|))[r])
  {
  }

  lemma {:induction false} CoordinatorAssembles(cfg: Config, g: Cluster, votes: seq<Vote>, ss: seq<Settled>)
    requires |votes| == |ss| == |g.ranks| > 0 && CanCoordinate(g, votes, ss)
    requires HitsAnswer(ss[0].cache, Synced(votes, 0).hits)
    ensures CanAssemble(ss[0].cache, g.ranks[0].table, Synced(votes, 0).hits, g.pending, SentAll(ss), |ss|)
    ensures Assembled(cfg, ss[0].cache, g.ranks[0].table, Synced(votes, 0).hits, g.pending, SentAll(ss), |ss|)
            == FuseOn(cfg, g.ranks[0].table, Singles(g, votes, ss))
  {
    var t := Tally(g.pending, SentAll(ss), |ss|);
    ConstructedSingle(t.0, t.1);
  }

  lemma {:induction false} SlowCycleShape(cfg: Config, g: Cluster, input: CycleInput, votes: seq<Vote>,
                                          ss: seq<Settled>)
    returns (list: seq<Response>)
    requires |votes| == |ss| == |g.ranks| == |input.shutdown| > 0 && SlowCycle(cfg, g, input, votes, ss).Some?
    requires HitsAnswer(ss[0].cache, Synced(votes, 0).hits)
    ensures var out := SlowCycle(cfg, g, input, votes, ss).value;
            && AllSlow(cfg, g, Synced(votes, 0).hits, ss, list, out.next)
            && |out.lists| == |ss| && forall r :: 0 <= r < |ss| ==> out.lists[r].responses == list
  {
    CoordinatorAssembles(cfg, g, votes, ss);
    list := FuseOn(cfg, g.ranks[0].table, Singles(g, votes, ss));
    var next := SlowCycle(cfg, g, input, votes, ss).value.next;
    FusedNamed(cfg, g.ranks[0].table, Singles(g, votes, ss));
    RanksCanUpdate(cfg, g, input, votes, ss, list);
    SlowShape(cfg, g, input, votes, ss, list, Insertions(list, |ss|));
    forall r | 0 <= r < |ss| ensures SlowTo(cfg, g.ranks[r], ss[r], list, |ss|, next.ranks[r]) {
      SlowRankEnds(cfg, g, ss, list, r);
    }
  }

  ghost predicate AnySet(flags: seq<bool>) {
    exists k :: 0 <= k < |flags| && flags[k]
  }

  lemma {:induction false} SlowEnds(cfg: Config, g: Cluster, o: Outstanding, input: CycleInput, vs: seq<Vote>,
                                    ss: seq<Settled>, out: Outcome)
    returns (list: seq<Response>)
    requires Ends(cfg, g, o, input, vs, ss, out) && |vs| > 0 && BranchOf(cfg, vs[0]) == Slow
    ensures |g.ranks| > 0 && AllSlow(cfg, g, vs[0].hits, ss, list, out.next)
    ensures |input.shutdown| == |out.lists| == |ss| && forall r :: 0 <= r < |ss| ==>
              out.lists[r] == ResponseList(list, AnySet(input.shutdown))
  {
    assert Prepared(cfg, g, input);
    SettledHitsAnswer(cfg, g, o, input);
    list := SlowCycleShape(cfg, g, input, VotesOf(cfg, g, input), ss);
  }
}
