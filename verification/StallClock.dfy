/** How long a cached tensor has been waiting: which names are under stall inspection, and since when. */
module StallClock {
  import opened Messages
  import opened LruCache
  import opened Votes
  import opened Protocol
  import opened Seqs
  import opened ProtocolSpec
  import opened ProtocolAgreement
  import opened ProtocolCycle

  // ---------------------------------------------------------------- the order of messages

  lemma {:induction false} SubsequenceSnoc<T>(a: seq<T>, s: seq<T>, x: T)
    requires Subsequence(a, s)
    ensures Subsequence(a, s + [x]) && Subsequence(a + [x], s + [x])
  {
    var f: seq<nat> :| Embeds(f, a, s);
    var g: seq<nat> := f + [|s|];
    assert Embeds(f, a, s + [x]);
    assert Embeds(g, a + [x], s + [x]);
  }

  /** Neither putting messages back nor sending them changes their order. */
  lemma {:induction false} MessagesInOrder(c: Lru, params: map<string, Params>, hits: set<nat>, queue: seq<Request>)
    ensures Subsequence(Kept(c, params, hits, queue), queue) && Subsequence(Sent(c, params, queue), queue)
  {
    if queue == [] {
      SubsequenceSelf(queue);
    } else {
      var front, last := queue[..|queue| - 1], queue[|queue| - 1];
      MessagesInOrder(c, params, hits, front);
      assert queue == front + [last];
      SubsequenceSnoc(Kept(c, params, hits, front), front, last);
      SubsequenceSnoc(Sent(c, params, front), front, last);
      assert Kept(c, params, hits, front) + [] == Kept(c, params, hits, front);
      assert Sent(c, params, front) + [] == Sent(c, params, front);
    }
  }

  // ---------------------------------------------------------------- what is watched

  lemma {:induction false} HitIsWatched(c: Lru, params: map<string, Params>, queue: seq<Request>, watched: set<string>,
                                        q: Request)
    requires DistinctRequests(queue) && q in queue && StateOf(c, params, q) == Hit
    ensures q.name in Watch(c, params, queue, watched)
  {
    var front, last := queue[..|queue| - 1], queue[|queue| - 1];
    if q != last {
      assert queue == front + [last] && q in front;
      var i :| 0 <= i < |front| && front[i] == q;
      assert queue[i].name != queue[|queue| - 1].name;
      HitIsWatched(c, params, front, watched, q);
    }
  }

  /** When the stall check runs, exactly the hits in the queue are under inspection. */
  lemma {:induction false} WatchedIffHit(k: Rank, x: string)
    requires WellFormed(k.cache) && DistinctRequests(k.queue) && k.watched <= NamesOf(k.queue)
    ensures x in Watch(k.cache, k.params, k.queue, k.watched) <==>
              exists q :: q in k.queue && q.name == x && StateOf(k.cache, k.params, q) == Hit
  {
    WatchedAreHits(k, {});
    if q :| q in k.queue && q.name == x && StateOf(k.cache, k.params, q) == Hit {
      HitIsWatched(k.cache, k.params, k.queue, k.watched, q);
    }
  }

  lemma {:induction false} SameName(queue: seq<Request>, p: Request, q: Request)
    requires DistinctRequests(queue) && p in queue && q in queue && p.name == q.name
    ensures p == q
  {
    var i :| 0 <= i < |queue| && queue[i] == p;
    var j :| 0 <= j < |queue| && queue[j] == q;
  }

  /** After the agreement exactly the messages that wait for the next cycle are under inspection. */
  lemma {:induction false} KeptAreWatched(k: Rank, v: Vote)
    requires CanSettle(k, v) && DistinctRequests(k.queue) && k.watched <= NamesOf(k.queue)
    ensures Settle(k, v).watched == NamesOf(Settle(k, v).kept)
  {
    var s := Settle(k, v);
    SettledWatch(k, v);
    KeptFacts(s.cache, s.params, v.hits, k.queue);
    forall q | q in s.kept ensures q.name in s.watched {
      StateAfterErasing(k, v.invalid, q);
      HitIsWatched(k.cache, k.params, k.queue, k.watched, q);
      forall p | p in k.queue && !IsUncommonHit(s.cache, s.params, v.hits, p) ensures p.name != q.name {
        if p.name == q.name { SameName(k.queue, p, q); }
      }
    }
  }

  ghost predicate AsSettled(k: Rank, s: Settled) {
    k.queue == s.kept && k.watched == s.watched
  }

  lemma {:induction false} FastAsSettled(cfg: Config, g: Cluster, votes: seq<Vote>, ss: seq<Settled>, r: nat)
    requires |votes| == |ss| == |g.ranks| && r < |ss| && FastCycle(cfg, g, votes, ss).Some?
    ensures var next := FastCycle(cfg, g, votes, ss).value.next; |next.ranks| == |ss| && AsSettled(next.ranks[r], ss[r])
  {
  }

  lemma {:induction false} SlowAsSettled(cfg: Config, g: Cluster, input: CycleInput, votes: seq<Vote>,
                                         ss: seq<Settled>, r: nat)
    requires |votes| == |ss| == |g.ranks| == |input.shutdown| && r < |ss| && SlowCycle(cfg, g, input, votes, ss).Some?
    ensures var next := SlowCycle(cfg, g, input, votes, ss).value.next;
            |next.ranks| == |ss| && AsSettled(next.ranks[r], ss[r])
  {
  }

  /** The queue and the watched names of a rank after a cycle are those it settled with. */
  lemma {:induction false} FinishedAsSettled(cfg: Config, g: Cluster, input: CycleInput, r: nat)
    requires |g.ranks| > 0 && r < |g.ranks| && Cycle(cfg, g, input).Some?
    ensures Prepared(cfg, g, input) && Matched(cfg, g, VotesOf(cfg, g, input))
    ensures var votes, next := VotesOf(cfg, g, input), Cycle(cfg, g, input).value.next;
            |next.ranks| == |g.ranks| && AsSettled(next.ranks[r], SettleAll(cfg, g, votes)[r])
  {
    var votes := VotesOf(cfg, g, input);
    var ss := SettleAll(cfg, g, votes);
    match BranchOf(cfg, Synced(votes, 0))
    case Early =>
    case Fast => FastAsSettled(cfg, g, votes, ss, r);
    case Slow => SlowAsSettled(cfg, g, input, votes, ss, r);
  }

  /** Between cycles the watched messages are those that a cycle has put back. */
  lemma {:induction false} WatchedAreQueued(cfg: Config, g: Cluster, o: Outstanding, input: CycleInput, r: nat)
    requires Rel(cfg, g, o) && |input.late| == |input.shutdown| == |o| && r < |o|
    ensures var out := Cycle(cfg, g, input);
            && out.Some? && |out.value.next.ranks| == |o|
            && out.value.next.ranks[r].watched == NamesOf(out.value.next.ranks[r].queue)
            && Subsequence(out.value.next.ranks[r].queue, g.ranks[r].queue)
            && forall q :: q in out.value.next.ranks[r].queue ==> q in g.ranks[r].queue
  {
    assert Cycle(cfg, g, input).Some? by { CycleRefines(cfg, g, o, input); }
    FinishedAsSettled(cfg, g, input, r);
    var k, v := g.ranks[r], Synced(VotesOf(cfg, g, input), r);
    assert QueueMatches(k, o[r]);
    assert CanSettle(k, v);
    KeptAreWatched(k, v);
    var s := Settle(k, v);
    KeptFacts(s.cache, s.params, v.hits, k.queue);
    MessagesInOrder(s.cache, s.params, v.hits, k.queue);
  }

  // ---------------------------------------------------------------- what a stalled tensor leads to

  lemma {:induction false} StalledBit(k: Rank, late: set<string>, shutdown: bool, x: string)
    requires CanVote(k, late) && WellFormed(k.cache) && DistinctRequests(k.queue) && k.watched <= NamesOf(k.queue)
    requires x in late && exists q :: q in k.queue && q.name == x && StateOf(k.cache, k.params, q) == Hit
    ensures x in k.cache.bits && k.cache.bits[x] in CastVote(k, late, shutdown).invalid
  {
    WatchedIffHit(k, x);
    assert x in Stalled(k, late);
  }

  lemma {:induction false} StalledNotKept(cfg: Config, g: Cluster, o: Outstanding, input: CycleInput, r: nat, x: string,
                                          k: nat)
    requires Rel(cfg, g, o) && |input.late| == |input.shutdown| == |o| && r < |o| && k < |o|
    requires x in input.late[r]
    requires exists q :: q in g.ranks[r].queue && q.name == x
                           && StateOf(g.ranks[r].cache, g.ranks[r].params, q) == Hit
    ensures Cycle(cfg, g, input).Some? && |Cycle(cfg, g, input).value.next.ranks| == |o|
    ensures x !in NamesOf(Cycle(cfg, g, input).value.next.ranks[k].queue)
  {
    var v := RanksAgree(cfg, g, o, input);
    StalledErased(cfg, g, o, input, v, r, x);
    assert Cycle(cfg, g, input).Some? by { CycleRefines(cfg, g, o, input); }
    FinishedAsSettled(cfg, g, input, k);
    KeptAreCached(cfg, g, o, input, v, k);
  }

  lemma {:induction false} StalledErased(cfg: Config, g: Cluster, o: Outstanding, input: CycleInput, v: Vote, r: nat,
                                         x: string)
    requires Rel(cfg, g, o) && Agreed(cfg, g, input, v) && r < |o| && x in input.late[r]
    requires exists q :: q in g.ranks[r].queue && q.name == x
                           && StateOf(g.ranks[r].cache, g.ranks[r].params, q) == Hit
    ensures forall b :: b in v.invalid ==> Live(g.ranks[0].cache, b)
    ensures x !in Erased(g.ranks[0].cache, v.invalid).bits
  {
    var k := g.ranks[r];
    assert QueueMatches(k, o[r]) && k.cache == g.ranks[0].cache && WellFormed(k.cache);
    StalledVote(cfg, g, input, v, r, x);
    ErasedFacts(g.ranks[0].cache, v.invalid);
  }

  lemma {:induction false} StalledVote(cfg: Config, g: Cluster, input: CycleInput, v: Vote, r: nat, x: string)
    requires |g.ranks| > 0 && Agreed(cfg, g, input, v) && r < |g.ranks| && x in input.late[r]
    requires DistinctRequests(g.ranks[r].queue) && g.ranks[r].watched <= NamesOf(g.ranks[r].queue)
    requires exists q :: q in g.ranks[r].queue && q.name == x
                           && StateOf(g.ranks[r].cache, g.ranks[r].params, q) == Hit
    ensures forall b :: b in v.invalid ==> Live(g.ranks[0].cache, b)
    ensures x in g.ranks[r].cache.bits && g.ranks[r].cache.bits[x] in v.invalid
  {
    assert CanSettle(g.ranks[0], Synced(VotesOf(cfg, g, input), 0));
    StalledBit(g.ranks[r], input.late[r], input.shutdown[r], x);
    assert g.ranks[r].cache.bits[x] in VotesOf(cfg, g, input)[r].invalid;
  }

  lemma {:induction false} KeptAreCached(cfg: Config, g: Cluster, o: Outstanding, input: CycleInput, v: Vote, k: nat)
    requires Rel(cfg, g, o) && Agreed(cfg, g, input, v) && k < |o|
    ensures forall b :: b in v.invalid ==> Live(g.ranks[0].cache, b)
    ensures NamesOf(SettleAll(cfg, g, VotesOf(cfg, g, input))[k].kept)
            <= Erased(g.ranks[0].cache, v.invalid).bits.Keys
  {
    MidErased(cfg, g, o, input, v);
    var c := Erased(g.ranks[0].cache, v.invalid);
    assert QueueSettled(SettleAll(cfg, g, VotesOf(cfg, g, input))[k], o[k], c, o);
  }

  /** When a rank finds a cached tensor waiting for too long, all ranks give up the cache entry: the
      requests for it leave every queue, and unless the cycle answers it, they are with the
      coordinator and the name is cached nowhere. */
  lemma {:induction false} StalledIsNegotiated(cfg: Config, g: Cluster, o: Outstanding, input: CycleInput, r: nat,
                                               x: string, k: nat)
    requires Rel(cfg, g, o) && |input.late| == |input.shutdown| == |o| && r < |o| && k < |o|
    requires x in input.late[r]
    requires exists q :: q in g.ranks[r].queue && q.name == x
                           && StateOf(g.ranks[r].cache, g.ranks[r].params, q) == Hit
    ensures var out := Cycle(cfg, g, input);
            && out.Some? && |out.value.next.ranks| == |o|
            && var next := out.value.next;
               && x !in NamesOf(next.ranks[k].queue)
               && (x !in Common(o) && x in o[k] ==> o[k][x] in Get(next.pending, x))
               && (x !in Common(o) ==> x !in next.ranks[k].cache.bits)
  {
    StalledNotKept(cfg, g, o, input, r, x, k);
    StalledNotKept(cfg, g, o, input, r, x, r);
    CycleRefines(cfg, g, o, input);
    var next: Cluster, o': Outstanding := Cycle(cfg, g, input).value.next, SpecCycle(o);
    if x !in Common(o) {
      assert QueueMatches(g.ranks[r], o[r]) && x in o'[r] && o'[r][x].name == x;
      assert o'[r][x] in Get(next.pending, x);
      assert next.ranks[k].cache == next.ranks[0].cache;
      if x in o[k] { assert x in o'[k] && o'[k][x] == o[k][x] && o[k][x].name == x; }
    }
  }
}
