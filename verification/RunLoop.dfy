/** RunLoopOnce on all ranks, over their objects: tensor queue, response cache, cache coordinator
    and stall inspector of every rank, and the coordinator's message table. One pass has exactly
    the effect of a cycle of the protocol. */
module RunLoop {
  import opened Messages
  import opened LruCache
  import opened Votes
  import opened Protocol
  import opened CacheSync
  import opened ResponseCache
  import opened TensorQueue
  import opened Controller
  import opened Seqs
  import opened ProtocolSpec
  import opened ProtocolOutcome
  import opened ProtocolCycle

  /** What a rank's surroundings decide in a pass: the clock, the stall warning time, whether the
      stall check is due, and whether the rank wants to shut down. */
  datatype Env = Env(now: int, limit: int, check: bool, shutdown: bool)

  ghost function RankOf(queue: TensorQueue, cache: ResponseCache, stall: StallInspector): Rank
    reads queue, cache, stall
  {
    Rank(queue.table, queue.queue, cache.view, cache.kept, stall.cached.Keys)
  }

  ghost predicate IsRank(k: Rank, queue: TensorQueue, cache: ResponseCache, stall: StallInspector)
    reads queue, cache, stall
  {
    k == RankOf(queue, cache, stall)
  }

  // ---------------------------------------------------------------- one rank

  /** Pop the messages and vote. */
  method BeginRank(ghost k: Rank, queue: TensorQueue, cache: ResponseCache, stall: StallInspector, env: Env,
                   ghost bits: nat)
    returns (cc: CacheCoordinator, messages: seq<Request>, ghost late: set<string>, ghost vote: Vote)
    requires cache.Valid() && IsRank(k, queue, cache, stall) && CanBegin(k, bits)
    modifies queue, stall
    ensures fresh(cc) && Holds(cc, bits, vote) && Casts(k, old(stall.cached), env, late, vote)
    ensures Begun(k, queue, stall, messages) && Aged(old(stall.cached), env.now, stall.cached)
  {
    TimesAged(k.cache, k.params, k.queue, stall.cached, env.now);
    var n := cache.NumActiveBits();
    cc := new CacheCoordinator(n);
    messages := queue.PopMessages([]);
    assert [] + k.queue == k.queue;
    BeginCycle(k, cache, cc, stall, messages, env.now, env.limit, env.check, env.shutdown);
    late := if env.check then Late(stall.cached, env.now, env.limit) else {};
    vote := cc.View();
  }

  /** Erase invalid entries and requeue, given what the ranks agreed on. */
  method SettleRank(ghost k: Rank, ghost v: Vote, ghost s: Settled, queue: TensorQueue, cache: ResponseCache,
                    stall: StallInspector, hits: set<nat>, invalid: set<nat>, messages: seq<Request>)
    returns (sent: seq<Request>)
    requires cache.Valid() && IsUnsettled(k, queue, cache, stall, messages)
    requires SettlesTo(k, v, s) && hits == v.hits && invalid == v.invalid
    modifies queue, cache, stall
    ensures cache.Valid() && cache.capacity == old(cache.capacity)
    ensures IsSettled(s, k, queue, cache, stall, sent)
    ensures forall x :: x in stall.cached ==> x in old(stall.cached) && stall.cached[x] == old(stall.cached)[x]
  {
    var replace;
    sent, replace := EndAgreement(k, v, s, cache, hits, invalid, stall, messages);
    queue.PushMessages(replace);
    assert [] + replace == replace;
  }

  /** Answer from the cache and perform. */
  method FastRank(cfg: Config, ghost k: Rank, ghost s: Settled, queue: TensorQueue, cache: ResponseCache,
                  stall: StallInspector, hits: set<nat>, ghost sent: seq<Request>, ghost next: Rank,
                  ghost l: seq<Response>)
    returns (list: seq<Response>)
    requires cache.Valid() && IsSettled(s, k, queue, cache, stall, sent) && FastTo(cfg, k, s, hits, next, l)
    modifies queue`table, cache
    ensures cache.Valid() && cache.capacity == old(cache.capacity)
    ensures list == l && IsRank(next, queue, cache, stall)
  {
    assert CanAnswer(k, s, hits);
    list := FastPath(cfg, k, s, cache, queue.table, hits);
    var ok := queue.Perform(list);
  }

  /** Cache the coordinator's responses and perform. */
  method SlowRank(cfg: Config, ghost k: Rank, ghost s: Settled, queue: TensorQueue, cache: ResponseCache,
                  stall: StallInspector, list: seq<Response>, size: nat, ghost sent: seq<Request>, ghost next: Rank)
    requires cache.Valid() && IsSettled(s, k, queue, cache, stall, sent) && cache.capacity == cfg.capacity
    requires SlowTo(cfg, k, s, list, size, next)
    modifies queue`table, cache
    ensures cache.Valid() && cache.capacity == old(cache.capacity)
    ensures IsRank(next, queue, cache, stall)
  {
    assert CanUpdate(cfg, k, s, list, Insertions(list, size));
    UpdateCache(cfg, k, s, cache, queue.table, list, size);
    var ok := queue.Perform(list);
  }

  // ---------------------------------------------------------------- all ranks

  /** The objects of all ranks, by rank. */
  datatype Objects = Objects(queues: seq<TensorQueue>, caches: seq<ResponseCache>, stalls: seq<StallInspector>)

  ghost predicate Apart(os: Objects, n: nat) {
    && |os.queues| == |os.caches| == |os.stalls| == n
    && Distinct(os.queues) && Distinct(os.caches) && Distinct(os.stalls)
  }

  ghost function RanksOf(os: Objects, n: nat): (ks: seq<Rank>)
    requires Apart(os, n)
    reads os.queues, os.caches, os.stalls
    ensures |ks| == n && forall r :: 0 <= r < n ==> ks[r] == RankOf(os.queues[r], os.caches[r], os.stalls[r])
  {
    seq(n, r requires 0 <= r < n reads os.queues, os.caches, os.stalls =>
      RankOf(os.queues[r], os.caches[r], os.stalls[r]))
  }

  ghost predicate CachesValid(caches: seq<ResponseCache>, capacity: nat)
    reads caches
  {
    && (forall r {:trigger caches[r].Valid()} :: 0 <= r < |caches| ==> caches[r].Valid())
    && (forall r {:trigger caches[r].capacity} :: 0 <= r < |caches| ==> caches[r].capacity == capacity)
  }

  /** A rank that has popped its messages and voted. */
  ghost predicate Begun(k: Rank, queue: TensorQueue, stall: StallInspector, messages: seq<Request>)
    reads queue, stall
  {
    && messages == k.queue && queue.queue == [] && queue.table == k.table
    && stall.cached.Keys == Watch(k.cache, k.params, k.queue, k.watched)
  }

  /** The names that have been waiting for too long by the clock of the rank, when the stall check is
      due; `start` has the times from before the pass. */
  ghost function LateNames(k: Rank, start: map<string, int>, env: Env): set<string> {
    if env.check then Late(Times(k.cache, k.params, k.queue, start, env.now), env.now, env.limit) else {}
  }

  /** The rank's vote is `v`, with `late` the names that wait for too long. */
  ghost predicate Casts(k: Rank, start: map<string, int>, env: Env, late: set<string>, v: Vote) {
    late == LateNames(k, start, env) && CanVote(k, late) && v == CastVote(k, late, env.shutdown)
  }

  ghost function StartTimes(stalls: seq<StallInspector>): (starts: seq<map<string, int>>)
    reads stalls
    ensures |starts| == |stalls| && forall r :: 0 <= r < |stalls| ==> starts[r] == stalls[r].cached
  {
    seq(|stalls|, r requires 0 <= r < |stalls| reads stalls => stalls[r].cached)
  }

  ghost predicate StartsAt(stall: StallInspector, start: map<string, int>)
    reads stall
  {
    stall.cached == start
  }

  ghost predicate AgedAt(stall: StallInspector, start: map<string, int>, now: int)
    reads stall
  {
    Aged(start, now, stall.cached)
  }

  /** The stall inspectors of the first `i` ranks keep the times from before the pass, and time what
      is new by the clock of their rank; the others still have the times from before. */
  ghost predicate AgedUpTo(stalls: seq<StallInspector>, starts: seq<map<string, int>>, envs: seq<Env>, i: nat)
    reads stalls
  {
    && |starts| == |stalls| == |envs|
    && (forall r {:trigger AgedAt(stalls[r], starts[r], envs[r].now)} :: 0 <= r < i && r < |stalls| ==>
         AgedAt(stalls[r], starts[r], envs[r].now))
    && (forall r {:trigger StartsAt(stalls[r], starts[r])} :: i <= r < |stalls| ==> StartsAt(stalls[r], starts[r]))
  }

  /** The coordinator object holds vote `v`, over `bits` cache bits. */
  ghost predicate Holds(cc: CacheCoordinator, bits: nat, v: Vote)
    reads cc
  {
    cc.Recording() && cc.numActiveBits == bits && cc.View() == v
  }

  /** The rank's cache before the agreement. */
  ghost predicate Caches(k: Rank, cache: ResponseCache)
    reads cache
  {
    k.cache == cache.view && k.params == cache.kept
  }

  ghost predicate CanBegin(k: Rank, bits: nat) {
    && k.watched <= NamesOf(k.queue) && DistinctRequests(k.queue)
    && |k.cache.slots| == bits && bits + NUM_STATUS_BITS < 0x8000_0000
  }

  /** The first `i` ranks have voted, and the others are as they were. */
  ghost predicate BegunUpTo(os: Objects, n: nat, i: nat, ks: seq<Rank>, messages: seq<seq<Request>>)
    requires Apart(os, n) && |ks| == n
    reads os.queues, os.caches, os.stalls
  {
    && i <= n && |messages| == i
    && (forall r {:trigger Begun(ks[r], os.queues[r], os.stalls[r], messages[r])} :: 0 <= r < i ==>
         Begun(ks[r], os.queues[r], os.stalls[r], messages[r]))
    && (forall r {:trigger IsRank(ks[r], os.queues[r], os.caches[r], os.stalls[r])} :: i <= r < n ==>
         IsRank(ks[r], os.queues[r], os.caches[r], os.stalls[r]))
  }

  ghost predicate VotedUpTo(ccs: seq<CacheCoordinator>, bits: nat, i: nat, votes: seq<Vote>)
    reads ccs
  {
    && |ccs| == |votes| == i && Distinct(ccs)
    && forall r {:trigger Holds(ccs[r], bits, votes[r])} :: 0 <= r < i ==> Holds(ccs[r], bits, votes[r])
  }

  ghost predicate CastUpTo(ks: seq<Rank>, starts: seq<map<string, int>>, envs: seq<Env>, i: nat,
                           lates: seq<set<string>>, votes: seq<Vote>)
    requires |ks| == |envs| == |starts|
  {
    && i <= |ks| && |lates| == |votes| == i
    && forall r {:trigger Casts(ks[r], starts[r], envs[r], lates[r], votes[r])} :: 0 <= r < i ==>
         Casts(ks[r], starts[r], envs[r], lates[r], votes[r])
  }

  lemma {:induction false} CastNext(ks: seq<Rank>, starts: seq<map<string, int>>, envs: seq<Env>, i: nat,
                                    lates: seq<set<string>>, votes: seq<Vote>, late: set<string>, vote: Vote)
    requires |ks| == |envs| == |starts| && i < |ks| && CastUpTo(ks, starts, envs, i, lates, votes)
    requires Casts(ks[i], starts[i], envs[i], late, vote)
    ensures CastUpTo(ks, starts, envs, i + 1, lates + [late], votes + [vote])
  {
    var lates', votes' := lates + [late], votes + [vote];
    forall r | 0 <= r < i + 1 ensures Casts(ks[r], starts[r], envs[r], lates'[r], votes'[r]) {
      if r < i { assert Casts(ks[r], starts[r], envs[r], lates[r], votes[r]); }
    }
  }

  lemma {:induction false} VotedNext(ccs: seq<CacheCoordinator>, cc: CacheCoordinator, bits: nat, i: nat,
                                     votes: seq<Vote>, vote: Vote)
    requires VotedUpTo(ccs, bits, i, votes) && cc !in ccs && Holds(cc, bits, vote)
    ensures VotedUpTo(ccs + [cc], bits, i + 1, votes + [vote])
  {
  }

  method BeginNext(os: Objects, envs: seq<Env>, n: nat, i: nat, capacity: nat, ghost bits: nat, ghost ks: seq<Rank>,
                   ghost starts: seq<map<string, int>>, messages: seq<seq<Request>>)
    returns (cc: CacheCoordinator, messages': seq<seq<Request>>, ghost late: set<string>, ghost vote: Vote)
    requires Apart(os, n) && |ks| == |envs| == n && i < n && CanBegin(ks[i], bits)
    requires CachesValid(os.caches, capacity) && BegunUpTo(os, n, i, ks, messages)
    requires AgedUpTo(os.stalls, starts, envs, i)
    modifies os.queues, os.stalls
    ensures fresh(cc) && Holds(cc, bits, vote) && Casts(ks[i], starts[i], envs[i], late, vote)
    ensures BegunUpTo(os, n, i + 1, ks, messages') && AgedUpTo(os.stalls, starts, envs, i + 1)
  {
    var popped;
    assert StartsAt(os.stalls[i], starts[i]);
    cc, popped, late, vote := BeginRank(ks[i], os.queues[i], os.caches[i], os.stalls[i], envs[i], bits);
    messages' := messages + [popped];
  }

  /** The next rank pops its messages and votes. */
  method BeginStep(os: Objects, envs: seq<Env>, n: nat, i: nat, capacity: nat, ghost bits: nat, ghost ks: seq<Rank>,
                   ghost starts: seq<map<string, int>>, ccs: seq<CacheCoordinator>, messages: seq<seq<Request>>,
                   ghost lates: seq<set<string>>, ghost votes: seq<Vote>)
    returns (cc: CacheCoordinator, messages': seq<seq<Request>>, ghost lates': seq<set<string>>,
             ghost votes': seq<Vote>)
    requires Apart(os, n) && |ks| == |envs| == |starts| == n && i < n && CanBegin(ks[i], bits)
    requires CachesValid(os.caches, capacity) && BegunUpTo(os, n, i, ks, messages)
    requires AgedUpTo(os.stalls, starts, envs, i) && VotedUpTo(ccs, bits, i, votes)
    requires CastUpTo(ks, starts, envs, i, lates, votes)
    modifies os.queues, os.stalls
    ensures fresh(cc) && VotedUpTo(ccs + [cc], bits, i + 1, votes') && CastUpTo(ks, starts, envs, i + 1, lates', votes')
    ensures BegunUpTo(os, n, i + 1, ks, messages') && AgedUpTo(os.stalls, starts, envs, i + 1)
  {
    ghost var late, vote;
    cc, messages', late, vote := BeginNext(os, envs, n, i, capacity, bits, ks, starts, messages);
    CastNext(ks, starts, envs, i, lates, votes, late, vote);
    VotedNext(ccs, cc, bits, i, votes, vote);
    lates', votes' := lates + [late], votes + [vote];
  }

  lemma {:induction false} NoneBegun(os: Objects, n: nat, ks: seq<Rank>, starts: seq<map<string, int>>, envs: seq<Env>)
    requires Apart(os, n) && |envs| == n && ks == RanksOf(os, n) && starts == StartTimes(os.stalls)
    ensures BegunUpTo(os, n, 0, ks, []) && AgedUpTo(os.stalls, starts, envs, 0)
  {
  }

  method BeginAll(os: Objects, envs: seq<Env>, n: nat, capacity: nat, ghost bits: nat, ghost ks: seq<Rank>,
                  ghost starts: seq<map<string, int>>)
    returns (ccs: seq<CacheCoordinator>, messages: seq<seq<Request>>, ghost lates: seq<set<string>>,
             ghost votes: seq<Vote>)
    requires Apart(os, n) && |envs| == n && ks == RanksOf(os, n) && CachesValid(os.caches, capacity)
    requires starts == StartTimes(os.stalls)
    requires forall r :: 0 <= r < n ==> CanBegin(ks[r], bits)
    modifies os.queues, os.stalls
    ensures fresh(ccs) && VotedUpTo(ccs, bits, n, votes) && CastUpTo(ks, starts, envs, n, lates, votes)
    ensures BegunUpTo(os, n, n, ks, messages) && AgedUpTo(os.stalls, starts, envs, n)
  {
    NoneBegun(os, n, ks, starts, envs);
    ccs, messages, lates, votes := [], [], [], [];
    for i := 0 to n
      invariant fresh(ccs) && VotedUpTo(ccs, bits, i, votes) && CastUpTo(ks, starts, envs, i, lates, votes)
      invariant BegunUpTo(os, n, i, ks, messages) && AgedUpTo(os.stalls, starts, envs, i)
    {
      var cc;
      cc, messages, lates, votes := BeginStep(os, envs, n, i, capacity, bits, ks, starts, ccs, messages, lates, votes);
      ccs := ccs + [cc];
    }
  }

  /** A rank between the agreement and the responses. */
  ghost predicate IsSettled(s: Settled, k: Rank, queue: TensorQueue, cache: ResponseCache, stall: StallInspector,
                            sent: seq<Request>)
    reads queue, cache, stall
  {
    s == Settled(cache.view, cache.kept, queue.queue, sent, stall.cached.Keys) && queue.table == k.table
  }

  ghost predicate IsUnsettled(k: Rank, queue: TensorQueue, cache: ResponseCache, stall: StallInspector,
                              messages: seq<Request>)
    reads queue, cache, stall
  {
    Begun(k, queue, stall, messages) && Caches(k, cache)
  }

  /** The first `i` ranks have settled, and the others have not. */
  ghost predicate SettledUpTo(os: Objects, n: nat, i: nat, ks: seq<Rank>, messages: seq<seq<Request>>, ss: seq<Settled>,
                              sents: seq<seq<Request>>)
    requires Apart(os, n) && |ks| == |messages| == |ss| == n
    reads os.queues, os.caches, os.stalls
  {
    && i <= n && |sents| == i
    && (forall r {:trigger IsSettled(ss[r], ks[r], os.queues[r], os.caches[r], os.stalls[r], sents[r])} ::
         0 <= r < i ==>
         IsSettled(ss[r], ks[r], os.queues[r], os.caches[r], os.stalls[r], sents[r]))
    && (forall r {:trigger IsUnsettled(ks[r], os.queues[r], os.caches[r], os.stalls[r], messages[r])} :: i <= r < n ==>
         IsUnsettled(ks[r], os.queues[r], os.caches[r], os.stalls[r], messages[r]))
  }

  method SettleNext(os: Objects, hits: set<nat>, invalid: set<nat>, messages: seq<seq<Request>>, n: nat, i: nat,
                    capacity: nat, sents: seq<seq<Request>>, ghost ks: seq<Rank>, ghost v: Vote, ghost ss: seq<Settled>,
                    ghost starts: seq<map<string, int>>, ghost envs: seq<Env>)
    returns (sents': seq<seq<Request>>)
    requires Apart(os, n) && |messages| == |ks| == |ss| == n && CachesValid(os.caches, capacity) && i < n
    requires SettledUpTo(os, n, i, ks, messages, ss, sents)
    requires SettlesTo(ks[i], v, ss[i]) && hits == v.hits && invalid == v.invalid
    requires AgedUpTo(os.stalls, starts, envs, n)
    modifies os.queues, os.caches, os.stalls
    ensures CachesValid(os.caches, capacity) && SettledUpTo(os, n, i + 1, ks, messages, ss, sents')
    ensures AgedUpTo(os.stalls, starts, envs, n)
  {
    assert AgedAt(os.stalls[i], starts[i], envs[i].now);
    var queue, cache, stall := os.queues[i], os.caches[i], os.stalls[i];
    var sent := SettleRank(ks[i], v, ss[i], queue, cache, stall, hits, invalid, messages[i]);
    sents' := sents + [sent];
  }

  method SettleRanks(os: Objects, ccs: seq<CacheCoordinator>, messages: seq<seq<Request>>, n: nat, capacity: nat,
                     ghost ks: seq<Rank>, ghost vs: seq<Vote>, ghost ss: seq<Settled>,
                     ghost starts: seq<map<string, int>>, ghost envs: seq<Env>)
    returns (sents: seq<seq<Request>>)
    requires Apart(os, n) && |ccs| == |messages| == |ks| == |vs| == |ss| == n && CachesValid(os.caches, capacity)
    requires SettledUpTo(os, n, 0, ks, messages, ss, [])
    requires AllSettle(ks, vs, ss) && AgreeOn(ccs, vs) && AgedUpTo(os.stalls, starts, envs, n)
    modifies os.queues, os.caches, os.stalls
    ensures CachesValid(os.caches, capacity) && SettledUpTo(os, n, n, ks, messages, ss, sents)
    ensures AgedUpTo(os.stalls, starts, envs, n)
  {
    sents := [];
    for i := 0 to n
      invariant CachesValid(os.caches, capacity) && SettledUpTo(os, n, i, ks, messages, ss, sents)
      invariant AgedUpTo(os.stalls, starts, envs, n)
    {
      assert SettlesTo(ks[i], vs[i], ss[i]) && ccs[i].View() == vs[i];
      sents := SettleNext(os, ccs[i].hits, ccs[i].invalid, messages, n, i, capacity, sents, ks, vs[i], ss, starts,
                          envs);
    }
  }

  /** The first `i` ranks have finished the cycle, and the others have settled. */
  ghost predicate FinishedUpTo(os: Objects, n: nat, i: nat, ks: seq<Rank>, ss: seq<Settled>, sents: seq<seq<Request>>,
                               next: seq<Rank>)
    requires Apart(os, n) && |ks| == |ss| == |sents| == |next| == n
    reads os.queues, os.caches, os.stalls
  {
    && i <= n
    && (forall r {:trigger IsRank(next[r], os.queues[r], os.caches[r], os.stalls[r])} :: 0 <= r < i ==>
         IsRank(next[r], os.queues[r], os.caches[r], os.stalls[r]))
    && (forall r {:trigger IsSettled(ss[r], ks[r], os.queues[r], os.caches[r], os.stalls[r], sents[r])} ::
         i <= r < n ==>
         IsSettled(ss[r], ks[r], os.queues[r], os.caches[r], os.stalls[r], sents[r]))
  }

  method FastNext(cfg: Config, os: Objects, n: nat, i: nat, capacity: nat, hits: set<nat>, ghost ks: seq<Rank>,
                  ghost ss: seq<Settled>, ghost sents: seq<seq<Request>>, ghost next: seq<Rank>, ghost l: seq<Response>)
    returns (list: seq<Response>)
    requires Apart(os, n) && |ks| == |ss| == |sents| == |next| == n && CachesValid(os.caches, capacity) && i < n
    requires FinishedUpTo(os, n, i, ks, ss, sents, next) && FastTo(cfg, ks[i], ss[i], hits, next[i], l)
    modifies os.queues, os.caches
    ensures CachesValid(os.caches, capacity) && FinishedUpTo(os, n, i + 1, ks, ss, sents, next) && list == l
  {
    var queue, cache, stall := os.queues[i], os.caches[i], os.stalls[i];
    list := FastRank(cfg, ks[i], ss[i], queue, cache, stall, hits, sents[i], next[i], l);
  }

  method FastAll(cfg: Config, os: Objects, ccs: seq<CacheCoordinator>, n: nat, capacity: nat, ghost ks: seq<Rank>,
                 ghost ss: seq<Settled>, ghost sents: seq<seq<Request>>, ghost next: seq<Rank>,
                 ghost all: seq<seq<Response>>)
    returns (lists: seq<seq<Response>>)
    requires Apart(os, n) && |ccs| == |ks| == |ss| == |sents| == |next| == |all| == n
             && CachesValid(os.caches, capacity)
    requires FinishedUpTo(os, n, 0, ks, ss, sents, next)
    requires forall r {:trigger FastTo(cfg, ks[r], ss[r], ccs[r].hits, next[r], all[r])} :: 0 <= r < n ==>
               FastTo(cfg, ks[r], ss[r], ccs[r].hits, next[r], all[r])
    modifies os.queues, os.caches
    ensures CachesValid(os.caches, capacity) && FinishedUpTo(os, n, n, ks, ss, sents, next) && lists == all
  {
    lists := [];
    for i := 0 to n
      invariant CachesValid(os.caches, capacity) && FinishedUpTo(os, n, i, ks, ss, sents, next) && lists == all[..i]
    {
      assert FastTo(cfg, ks[i], ss[i], ccs[i].hits, next[i], all[i]);
      var list := FastNext(cfg, os, n, i, capacity, ccs[i].hits, ks, ss, sents, next, all[i]);
      NextPrefix(all, i);
      lists := lists + [list];
    }
    assert all[..n] == all;
  }

  method SlowNext(cfg: Config, os: Objects, n: nat, i: nat, list: seq<Response>, ghost ks: seq<Rank>,
                  ghost ss: seq<Settled>, ghost sents: seq<seq<Request>>, ghost next: seq<Rank>)
    requires Apart(os, n) && |ks| == |ss| == |sents| == |next| == n && CachesValid(os.caches, cfg.capacity) && i < n
    requires FinishedUpTo(os, n, i, ks, ss, sents, next) && SlowTo(cfg, ks[i], ss[i], list, n, next[i])
    modifies os.queues, os.caches
    ensures CachesValid(os.caches, cfg.capacity) && FinishedUpTo(os, n, i + 1, ks, ss, sents, next)
  {
    var queue, cache, stall := os.queues[i], os.caches[i], os.stalls[i];
    SlowRank(cfg, ks[i], ss[i], queue, cache, stall, list, n, sents[i], next[i]);
  }

  method SlowAll(cfg: Config, os: Objects, n: nat, list: seq<Response>, ghost ks: seq<Rank>, ghost ss: seq<Settled>,
                 ghost sents: seq<seq<Request>>, ghost next: seq<Rank>)
    requires Apart(os, n) && |ks| == |ss| == |sents| == |next| == n && CachesValid(os.caches, cfg.capacity)
    requires FinishedUpTo(os, n, 0, ks, ss, sents, next)
    requires forall r {:trigger SlowTo(cfg, ks[r], ss[r], list, n, next[r])} :: 0 <= r < n ==>
               SlowTo(cfg, ks[r], ss[r], list, n, next[r])
    modifies os.queues, os.caches
    ensures CachesValid(os.caches, cfg.capacity) && FinishedUpTo(os, n, n, ks, ss, sents, next)
  {
    for i := 0 to n
      invariant CachesValid(os.caches, cfg.capacity) && FinishedUpTo(os, n, i, ks, ss, sents, next)
    {
      assert SlowTo(cfg, ks[i], ss[i], list, n, next[i]);
      SlowNext(cfg, os, n, i, list, ks, ss, sents, next);
    }
  }

  // ---------------------------------------------------------------- the pass

  /** All ranks have agreed, and hold the records `vs`. */
  ghost predicate AgreeOn(ccs: seq<CacheCoordinator>, vs: seq<Vote>)
    reads ccs
  {
    |ccs| == |vs| && forall r {:trigger ccs[r].View()} :: 0 <= r < |ccs| ==> ccs[r].View() == vs[r]
  }

  /** Without responses a rank that has settled is finished. */
  lemma {:induction false} EarlyFinished(os: Objects, n: nat, ks: seq<Rank>, vs: seq<Vote>, ss: seq<Settled>,
                                         sents: seq<seq<Request>>, next: seq<Rank>, lists: seq<ResponseList>)
    requires Apart(os, n) && |sents| == n && AllEarly(ks, vs, ss, next, lists) && |ks| == n
    requires FinishedUpTo(os, n, 0, ks, ss, sents, next)
    ensures FinishedUpTo(os, n, n, ks, ss, sents, next)
  {
    forall r | 0 <= r < n ensures IsRank(next[r], os.queues[r], os.caches[r], os.stalls[r]) {
      assert IsSettled(ss[r], ks[r], os.queues[r], os.caches[r], os.stalls[r], sents[r]);
    }
  }

  function Shutdowns(envs: seq<Env>): seq<bool> {
    seq(|envs|, r requires 0 <= r < |envs| => envs[r].shutdown)
  }

  method AnyShutdown(envs: seq<Env>) returns (any: bool)
    ensures any <==> AnySet(Shutdowns(envs))
  {
    ghost var flags := Shutdowns(envs);
    any := false;
    for i := 0 to |envs|
      invariant any <==> exists r :: 0 <= r < i && flags[r]
    {
      assert flags[i] == envs[i].shutdown;
      any := any || envs[i].shutdown;
    }
  }

  /** The response lists of the ranks, each with the shutdown flag that the rank agreed on. */
  method WithShutdown(ccs: seq<CacheCoordinator>, all: seq<seq<Response>>, ghost vs: seq<Vote>)
    returns (lists: seq<ResponseList>)
    requires |all| == |ccs| && AgreeOn(ccs, vs)
    ensures |lists| == |vs| && forall r :: 0 <= r < |vs| ==> lists[r] == ResponseList(all[r], vs[r].shutdown)
  {
    lists := [];
    for i := 0 to |ccs|
      invariant |lists| == i && forall r :: 0 <= r < i ==> lists[r] == ResponseList(all[r], vs[r].shutdown)
    {
      assert ccs[i].View() == vs[i];
      lists := lists + [ResponseList(all[i], ccs[i].shutdown)];
    }
  }

  method RespondFast(cfg: Config, os: Objects, ccs: seq<CacheCoordinator>, n: nat, ghost ks: seq<Rank>,
                     ghost vs: seq<Vote>, ghost ss: seq<Settled>, ghost sents: seq<seq<Request>>, ghost next: seq<Rank>,
                     ghost goal: seq<ResponseList>)
    returns (lists: seq<ResponseList>)
    requires Apart(os, n) && |ks| == |sents| == n && CachesValid(os.caches, cfg.capacity)
    requires AllFast(cfg, ks, vs, ss, next, goal) && AgreeOn(ccs, vs) && FinishedUpTo(os, n, 0, ks, ss, sents, next)
    modifies os.queues, os.caches
    ensures CachesValid(os.caches, cfg.capacity) && FinishedUpTo(os, n, n, ks, ss, sents, next) && lists == goal
  {
    ghost var all := seq(n, r requires 0 <= r < n => goal[r].responses);
    forall r | 0 <= r < n ensures FastTo(cfg, ks[r], ss[r], ccs[r].hits, next[r], all[r]) {
      assert ccs[r].View() == vs[r];
      assert FastTo(cfg, ks[r], ss[r], vs[r].hits, next[r], goal[r].responses);
    }
    var answers := FastAll(cfg, os, ccs, n, cfg.capacity, ks, ss, sents, next, all);
    lists := WithShutdown(ccs, answers, vs);
    forall r | 0 <= r < n ensures lists[r] == goal[r] { assert goal[r].shutdown == vs[r].shutdown; }
  }

  /** What the coordinator sees when all ranks have settled. */
  lemma {:induction false} FirstSettled(os: Objects, n: nat, ks: seq<Rank>, ss: seq<Settled>, sents: seq<seq<Request>>,
                                        next: seq<Rank>)
    requires Apart(os, n) && |ks| == |ss| == |sents| == |next| == n > 0
    requires FinishedUpTo(os, n, 0, ks, ss, sents, next)
    ensures os.caches[0].view == ss[0].cache && os.queues[0].table == ks[0].table && Flatten(sents) == SentAll(ss)
  {
    forall r | 0 <= r < n ensures sents[r] == ss[r].sent {
      assert IsSettled(ss[r], ks[r], os.queues[r], os.caches[r], os.stalls[r], sents[r]);
    }
    FlattenIsSentAll(ss, sents);
    assert IsSettled(ss[0], ks[0], os.queues[0], os.caches[0], os.stalls[0], sents[0]);
  }

  method Coordinate(cfg: Config, os: Objects, coordinator: Coordinator, hits: set<nat>, sents: seq<seq<Request>>,
                    n: nat, ghost g: Cluster, ghost ss: seq<Settled>, ghost next: Cluster, ghost goal: seq<Response>)
    returns (list: seq<Response>)
    requires Apart(os, n) && |g.ranks| == |sents| == n > 0 && AllSlow(cfg, g, hits, ss, goal, next)
    requires CachesValid(os.caches, cfg.capacity) && coordinator.messageTable == g.pending
    requires FinishedUpTo(os, n, 0, g.ranks, ss, sents, next.ranks)
    modifies coordinator
    ensures coordinator.messageTable == next.pending && list == goal
  {
    FirstSettled(os, n, g.ranks, ss, sents, next.ranks);
    list := SlowPath(cfg, os.caches[0], os.queues[0].table, hits, coordinator, sents);
  }

  method RespondSlow(cfg: Config, os: Objects, coordinator: Coordinator, hits: set<nat>, sents: seq<seq<Request>>,
                     n: nat, ghost g: Cluster, ghost ss: seq<Settled>, ghost next: Cluster, ghost goal: seq<Response>)
    returns (list: seq<Response>)
    requires Apart(os, n) && |g.ranks| == |sents| == n > 0 && AllSlow(cfg, g, hits, ss, goal, next)
    requires CachesValid(os.caches, cfg.capacity) && coordinator.messageTable == g.pending
    requires FinishedUpTo(os, n, 0, g.ranks, ss, sents, next.ranks)
    modifies os.queues, os.caches, coordinator
    ensures CachesValid(os.caches, cfg.capacity) && FinishedUpTo(os, n, n, g.ranks, ss, sents, next.ranks)
    ensures coordinator.messageTable == next.pending && list == goal
  {
    list := Coordinate(cfg, os, coordinator, hits, sents, n, g, ss, next, goal);
    SlowAll(cfg, os, n, list, g.ranks, ss, sents, next.ranks);
  }

  /** The coordinator's list reaches every rank, with the shutdown flag. */
  method Announce(list: seq<Response>, envs: seq<Env>, n: nat, ghost goal: seq<ResponseList>)
    returns (lists: seq<ResponseList>)
    requires |goal| == n && forall r :: 0 <= r < n ==> goal[r] == ResponseList(list, AnySet(Shutdowns(envs)))
    ensures lists == goal
  {
    var shutdown := AnyShutdown(envs);
    lists := seq(n, _ => ResponseList(list, shutdown));
  }

  method RespondEarly(os: Objects, ccs: seq<CacheCoordinator>, n: nat, ghost ks: seq<Rank>, ghost vs: seq<Vote>,
                      ghost ss: seq<Settled>, ghost sents: seq<seq<Request>>, ghost next: seq<Rank>,
                      ghost goal: seq<ResponseList>)
    returns (lists: seq<ResponseList>)
    requires Apart(os, n) && |ks| == |sents| == n && AllEarly(ks, vs, ss, next, goal) && AgreeOn(ccs, vs)
    requires FinishedUpTo(os, n, 0, ks, ss, sents, next)
    ensures FinishedUpTo(os, n, n, ks, ss, sents, next) && lists == goal
  {
    EarlyFinished(os, n, ks, vs, ss, sents, next, goal);
    lists := WithShutdown(ccs, seq(n, _ => []), vs);
    assert forall r :: 0 <= r < n ==> lists[r] == goal[r];
  }

  method NegotiatedRespond(cfg: Config, os: Objects, coordinator: Coordinator, hits: set<nat>, sents: seq<seq<Request>>,
                           envs: seq<Env>, n: nat, ghost g: Cluster, ghost o: Outstanding, ghost input: CycleInput,
                           ghost vs: seq<Vote>, ghost ss: seq<Settled>, ghost out: Outcome)
    returns (lists: seq<ResponseList>)
    requires Apart(os, n) && |g.ranks| == |ss| == |sents| == |envs| == |out.next.ranks| == |vs| == n > 0
    requires CachesValid(os.caches, cfg.capacity) && coordinator.messageTable == g.pending
    requires Ends(cfg, g, o, input, vs, ss, out) && BranchOf(cfg, vs[0]) == Slow && hits == vs[0].hits
    requires input.shutdown == Shutdowns(envs) && FinishedUpTo(os, n, 0, g.ranks, ss, sents, out.next.ranks)
    modifies os.queues, os.caches, coordinator
    ensures CachesValid(os.caches, cfg.capacity) && FinishedUpTo(os, n, n, g.ranks, ss, sents, out.next.ranks)
    ensures coordinator.messageTable == out.next.pending && lists == out.lists
  {
    ghost var goal := SlowEnds(cfg, g, o, input, vs, ss, out);
    var list := RespondSlow(cfg, os, coordinator, hits, sents, n, g, ss, out.next, goal);
    lists := Announce(list, envs, n, out.lists);
  }

  /** From the agreement to the end of the pass, on the path that the ranks agreed on. */
  method Respond(cfg: Config, os: Objects, coordinator: Coordinator, ccs: seq<CacheCoordinator>,
                 sents: seq<seq<Request>>, envs: seq<Env>, n: nat, ghost g: Cluster, ghost o: Outstanding,
                 ghost input: CycleInput, ghost vs: seq<Vote>, ghost ss: seq<Settled>, ghost out: Outcome)
    returns (lists: seq<ResponseList>)
    requires Apart(os, n) && |g.ranks| == |ss| == |sents| == |envs| == |out.next.ranks| == n > 0
    requires CachesValid(os.caches, cfg.capacity) && coordinator.messageTable == g.pending
    requires Ends(cfg, g, o, input, vs, ss, out) && AgreeOn(ccs, vs) && |vs| == n && input.shutdown == Shutdowns(envs)
    requires FinishedUpTo(os, n, 0, g.ranks, ss, sents, out.next.ranks)
    modifies os.queues, os.caches, coordinator
    ensures CachesValid(os.caches, cfg.capacity) && FinishedUpTo(os, n, n, g.ranks, ss, sents, out.next.ranks)
    ensures coordinator.messageTable == out.next.pending && lists == out.lists
  {
    assert ccs[0].View() == vs[0];
    if cfg.capacity == 0 || ccs[0].uncached {
      lists := NegotiatedRespond(cfg, os, coordinator, ccs[0].hits, sents, envs, n, g, o, input, vs, ss, out);
    } else if ccs[0].hits == {} {
      EarlyEnds(cfg, g, o, input, vs, ss, out);
      lists := RespondEarly(os, ccs, n, g.ranks, vs, ss, sents, out.next.ranks, out.lists);
    } else {
      FastEnds(cfg, g, o, input, vs, ss, out);
      lists := RespondFast(cfg, os, ccs, n, g.ranks, vs, ss, sents, out.next.ranks, out.lists);
    }
  }

  /** Responding touches no stall inspector. */
  method RespondInTime(cfg: Config, os: Objects, coordinator: Coordinator, ccs: seq<CacheCoordinator>,
                       sents: seq<seq<Request>>, envs: seq<Env>, n: nat, ghost g: Cluster, ghost o: Outstanding,
                       ghost input: CycleInput, ghost vs: seq<Vote>, ghost ss: seq<Settled>, ghost out: Outcome,
                       ghost starts: seq<map<string, int>>)
    returns (lists: seq<ResponseList>)
    requires Apart(os, n) && |g.ranks| == |ss| == |sents| == |envs| == |out.next.ranks| == n > 0
    requires CachesValid(os.caches, cfg.capacity) && coordinator.messageTable == g.pending
    requires Ends(cfg, g, o, input, vs, ss, out) && AgreeOn(ccs, vs) && |vs| == n && input.shutdown == Shutdowns(envs)
    requires FinishedUpTo(os, n, 0, g.ranks, ss, sents, out.next.ranks) && AgedUpTo(os.stalls, starts, envs, n)
    modifies os.queues, os.caches, coordinator
    ensures CachesValid(os.caches, cfg.capacity) && FinishedUpTo(os, n, n, g.ranks, ss, sents, out.next.ranks)
    ensures coordinator.messageTable == out.next.pending && lists == out.lists
    ensures AgedUpTo(os.stalls, starts, envs, n)
  {
    lists := Respond(cfg, os, coordinator, ccs, sents, envs, n, g, o, input, vs, ss, out);
  }

  /** Every rank can begin: the bits of the replicated cache fit in the bit vectors. */
  lemma {:induction false} AllBegin(cfg: Config, g: Cluster, o: Outstanding)
    requires Rel(cfg, g, o) && cfg.capacity + NUM_STATUS_BITS < 0x8000_0000
    ensures forall r :: 0 <= r < |g.ranks| ==> CanBegin(g.ranks[r], |g.ranks[0].cache.slots|)
  {
    forall r | 0 <= r < |g.ranks| ensures CanBegin(g.ranks[r], |g.ranks[0].cache.slots|) {
      assert QueueMatches(g.ranks[r], o[r]);
    }
  }

  /** The votes of the objects are those of the protocol. */
  lemma {:induction false} VotesCast(cfg: Config, g: Cluster, input: CycleInput, starts: seq<map<string, int>>,
                                     envs: seq<Env>, votes: seq<Vote>)
    requires Prepared(cfg, g, input) && |envs| == |g.ranks| == |starts| && input.shutdown == Shutdowns(envs)
    requires CastUpTo(g.ranks, starts, envs, |envs|, input.late, votes)
    ensures votes == VotesOf(cfg, g, input)
  {
    forall r | 0 <= r < |envs| ensures votes[r] == VotesOf(cfg, g, input)[r] {
      assert Casts(g.ranks[r], starts[r], envs[r], input.late[r], votes[r]);
    }
  }

  /** What the surroundings of all ranks decide in a pass. */
  ghost function InputOf(ks: seq<Rank>, starts: seq<map<string, int>>, envs: seq<Env>): (input: CycleInput)
    requires |ks| == |starts| == |envs|
    ensures |input.late| == |envs| && input.shutdown == Shutdowns(envs)
    ensures forall r :: 0 <= r < |envs| ==> input.late[r] == LateNames(ks[r], starts[r], envs[r])
  {
    CycleInput(seq(|ks|, r requires 0 <= r < |ks| => LateNames(ks[r], starts[r], envs[r])), Shutdowns(envs))
  }

  lemma {:induction false} CastInput(ks: seq<Rank>, starts: seq<map<string, int>>, envs: seq<Env>,
                                     lates: seq<set<string>>, votes: seq<Vote>)
    requires |ks| == |starts| == |envs| && CastUpTo(ks, starts, envs, |ks|, lates, votes)
    ensures CycleInput(lates, Shutdowns(envs)) == InputOf(ks, starts, envs)
  {
    forall r | 0 <= r < |ks| ensures lates[r] == InputOf(ks, starts, envs).late[r] {
      assert Casts(ks[r], starts[r], envs[r], lates[r], votes[r]);
    }
  }

  ghost predicate AllCached(caches: seq<ResponseCache>, ks: seq<Rank>)
    reads caches
  {
    |caches| == |ks| && forall r {:trigger Caches(ks[r], caches[r])} :: 0 <= r < |ks| ==> Caches(ks[r], caches[r])
  }

  lemma {:induction false} RanksCached(os: Objects, n: nat)
    requires Apart(os, n)
    ensures AllCached(os.caches, RanksOf(os, n))
  {
  }

  /** After the votes every rank still has its own cache, so that it can settle. */
  lemma {:induction false} BegunIsUnsettled(os: Objects, n: nat, ks: seq<Rank>, messages: seq<seq<Request>>,
                                            ss: seq<Settled>)
    requires Apart(os, n) && |ks| == |ss| == n && BegunUpTo(os, n, n, ks, messages)
    requires AllCached(os.caches, ks)
    ensures SettledUpTo(os, n, 0, ks, messages, ss, [])
  {
    forall r | 0 <= r < n ensures IsUnsettled(ks[r], os.queues[r], os.caches[r], os.stalls[r], messages[r]) {
      assert Begun(ks[r], os.queues[r], os.stalls[r], messages[r]) && Caches(ks[r], os.caches[r]);
    }
  }

  lemma {:induction false} SettledIsUnfinished(os: Objects, n: nat, ks: seq<Rank>, messages: seq<seq<Request>>,
                                               ss: seq<Settled>, sents: seq<seq<Request>>, next: seq<Rank>)
    requires Apart(os, n) && |ks| == |messages| == |ss| == |next| == n && SettledUpTo(os, n, n, ks, messages, ss, sents)
    ensures FinishedUpTo(os, n, 0, ks, ss, sents, next)
  {
  }

  lemma {:induction false} FinishedRanks(os: Objects, n: nat, ks: seq<Rank>, ss: seq<Settled>, sents: seq<seq<Request>>,
                                         next: seq<Rank>)
    requires Apart(os, n) && |ks| == |ss| == |sents| == |next| == n && FinishedUpTo(os, n, n, ks, ss, sents, next)
    ensures RanksOf(os, n) == next
  {
    forall r | 0 <= r < n ensures RanksOf(os, n)[r] == next[r] {
      assert IsRank(next[r], os.queues[r], os.caches[r], os.stalls[r]);
    }
  }

  /** CoordinateCacheAndState on all ranks. */
  method Agree(ccs: seq<CacheCoordinator>, timeline: bool, ghost bits: nat, ghost votes: seq<Vote>)
    requires |ccs| > 0 && VotedUpTo(ccs, bits, |ccs|, votes)
    modifies ccs
    ensures AgreeOn(ccs, Records(votes))
  {
    assert forall r :: 0 <= r < |ccs| ==> Holds(ccs[r], bits, votes[r]);
    assert AllViews(ccs) == votes;
    SyncAll(ccs, timeline);
  }

  /** The pass starts in a state that is related to `o`. */
  ghost predicate Starts(cfg: Config, g: Cluster, o: Outstanding) {
    forall c {:trigger Rel(c, g, o)} :: c == cfg ==> Rel(c, g, o) && c.capacity + NUM_STATUS_BITS < 0x8000_0000
  }

  ghost predicate AllCanBegin(ks: seq<Rank>, bits: nat) {
    forall r :: 0 <= r < |ks| ==> CanBegin(ks[r], bits)
  }

  ghost predicate AllSettle(ks: seq<Rank>, vs: seq<Vote>, ss: seq<Settled>) {
    && |ks| == |vs| == |ss|
    && forall r {:trigger SettlesTo(ks[r], vs[r], ss[r])} :: 0 <= r < |ks| ==> SettlesTo(ks[r], vs[r], ss[r])
  }

  lemma {:induction false} StartsBegin(cfg: Config, g: Cluster, o: Outstanding) returns (bits: nat)
    requires Starts(cfg, g, o)
    ensures AllCanBegin(g.ranks, bits) && |g.ranks| > 0
  {
    assert Rel(cfg, g, o);
    AllBegin(cfg, g, o);
    bits := |g.ranks[0].cache.slots|;
  }

  /** Votes cast as the protocol says lead to the outcome of the protocol's cycle. */
  lemma {:induction false} CastEnds(cfg: Config, g: Cluster, o: Outstanding, starts: seq<map<string, int>>,
                                    envs: seq<Env>, lates: seq<set<string>>, votes: seq<Vote>)
    returns (ss: seq<Settled>, out: Outcome)
    requires Starts(cfg, g, o) && |envs| == |starts| == |g.ranks|
    requires CastUpTo(g.ranks, starts, envs, |envs|, lates, votes)
    ensures Ends(cfg, g, o, InputOf(g.ranks, starts, envs), Records(votes), ss, out)
    ensures AllSettle(g.ranks, Records(votes), ss) && |out.next.ranks| == |g.ranks|
  {
    assert Rel(cfg, g, o);
    CastInput(g.ranks, starts, envs, lates, votes);
    var input := InputOf(g.ranks, starts, envs);
    var votes';
    votes', ss, out := CycleEnds(cfg, g, o, input);
    VotesCast(cfg, g, input, starts, envs, votes);
    EndsSettled(cfg, g, o, input, Records(votes), ss, out);
    EndsInCycle(cfg, g, o, input, Records(votes), ss, out);
    assert |out.next.ranks| == |SpecCycle(o)|;
  }

  /** Vote and agree on all ranks. */
  method VoteAndAgree(cfg: Config, os: Objects, envs: seq<Env>, timeline: bool, n: nat, ghost g: Cluster,
                      ghost o: Outstanding, ghost starts: seq<map<string, int>>)
    returns (ccs: seq<CacheCoordinator>, messages: seq<seq<Request>>, ghost lates: seq<set<string>>,
             ghost votes: seq<Vote>)
    requires Apart(os, n) && |envs| == n && g.ranks == RanksOf(os, n) && CachesValid(os.caches, cfg.capacity)
    requires Starts(cfg, g, o) && starts == StartTimes(os.stalls)
    modifies os.queues, os.stalls
    ensures CastUpTo(g.ranks, starts, envs, n, lates, votes) && AgreeOn(ccs, Records(votes))
    ensures BegunUpTo(os, n, n, g.ranks, messages) && AllCached(os.caches, g.ranks)
    ensures AgedUpTo(os.stalls, starts, envs, n)
  {
    RanksCached(os, n);
    ghost var bits := StartsBegin(cfg, g, o);
    ccs, messages, lates, votes := BeginAll(os, envs, n, cfg.capacity, bits, g.ranks, starts);
    Agree(ccs, timeline, bits, votes);
  }

  /** Vote, agree and settle on all ranks. */
  method AgreeAndSettle(cfg: Config, os: Objects, envs: seq<Env>, timeline: bool, n: nat, ghost g: Cluster,
                        ghost o: Outstanding, ghost starts: seq<map<string, int>>)
    returns (ccs: seq<CacheCoordinator>, sents: seq<seq<Request>>, ghost input: CycleInput, ghost vs: seq<Vote>,
             ghost ss: seq<Settled>, ghost out: Outcome)
    requires Apart(os, n) && |envs| == n && g.ranks == RanksOf(os, n) && CachesValid(os.caches, cfg.capacity)
    requires Starts(cfg, g, o) && starts == StartTimes(os.stalls)
    modifies os.queues, os.caches, os.stalls
    ensures CachesValid(os.caches, cfg.capacity) && input == InputOf(g.ranks, starts, envs)
    ensures Ends(cfg, g, o, input, vs, ss, out) && |vs| == |ss| == |sents| == |out.next.ranks| == n
    ensures AgreeOn(ccs, vs) && FinishedUpTo(os, n, 0, g.ranks, ss, sents, out.next.ranks)
    ensures AgedUpTo(os.stalls, starts, envs, n)
  {
    var messages; ghost var lates, votes;
    ccs, messages, lates, votes := VoteAndAgree(cfg, os, envs, timeline, n, g, o, starts);
    input, vs := InputOf(g.ranks, starts, envs), Records(votes);
    ss, out := CastEnds(cfg, g, o, starts, envs, lates, votes);
    BegunIsUnsettled(os, n, g.ranks, messages, ss);
    sents := SettleRanks(os, ccs, messages, n, cfg.capacity, g.ranks, vs, ss, starts, envs);
    SettledIsUnfinished(os, n, g.ranks, messages, ss, sents, out.next.ranks);
  }

  /** All ranks and the coordinator, as the protocol sees them. */
  ghost function ClusterOf(os: Objects, n: nat, coordinator: Coordinator): Cluster
    requires Apart(os, n)
    reads os.queues, os.caches, os.stalls, coordinator
  {
    Cluster(RanksOf(os, n), coordinator.messageTable)
  }

  /** A pass of all ranks by the clocks in `envs`: the protocol goes from `g` to `out` and the recorded
      times from `times` to `times'`. */
  ghost predicate Passed(cfg: Config, g: Cluster, times: seq<map<string, int>>, envs: seq<Env>, input: CycleInput,
                         out: Outcome, times': seq<map<string, int>>)
  {
    forall c {:trigger Cycle(c, g, input)} :: c == cfg ==>
      && |g.ranks| == |times| == |envs| == |times'| == |out.next.ranks| > 0
      && Cycle(c, g, input) == Some(out) && input == InputOf(g.ranks, times, envs)
      && forall r :: 0 <= r < |envs| ==>
           times'[r].Keys == out.next.ranks[r].watched && Aged(times[r], envs[r].now, times'[r])
  }

  lemma {:induction false} HasPassed(cfg: Config, g: Cluster, o: Outstanding, times: seq<map<string, int>>,
                                     envs: seq<Env>, input: CycleInput, vs: seq<Vote>, ss: seq<Settled>, out: Outcome,
                                     os: Objects, n: nat)
    requires Apart(os, n) && n > 0 && |g.ranks| == |times| == |envs| == n && out.next.ranks == RanksOf(os, n)
    requires Ends(cfg, g, o, input, vs, ss, out) && input == InputOf(g.ranks, times, envs)
    requires AgedUpTo(os.stalls, times, envs, n)
    ensures Passed(cfg, g, times, envs, input, out, StartTimes(os.stalls))
  {
    assert Cycle(cfg, g, input) == Some(out) by { EndsInCycle(cfg, g, o, input, vs, ss, out); }
    forall r | 0 <= r < n ensures Aged(times[r], envs[r].now, StartTimes(os.stalls)[r]) {
      assert AgedAt(os.stalls[r], times[r], envs[r].now);
    }
  }

  method Pass(cfg: Config, os: Objects, coordinator: Coordinator, envs: seq<Env>, timeline: bool, n: nat,
              ghost g: Cluster, ghost o: Outstanding, ghost starts: seq<map<string, int>>)
    returns (lists: seq<ResponseList>, ghost input: CycleInput, ghost vs: seq<Vote>, ghost ss: seq<Settled>,
             ghost next: Cluster)
    requires Apart(os, n) && |envs| == n > 0 && CachesValid(os.caches, cfg.capacity)
    requires g.ranks == RanksOf(os, n) && g.pending == coordinator.messageTable && Starts(cfg, g, o)
    requires starts == StartTimes(os.stalls)
    modifies os.queues, os.caches, os.stalls, coordinator
    ensures CachesValid(os.caches, cfg.capacity) && input == InputOf(g.ranks, starts, envs)
    ensures Ends(cfg, g, o, input, vs, ss, Outcome(next, lists))
    ensures next.ranks == RanksOf(os, n) && next.pending == coordinator.messageTable
    ensures Passed(cfg, g, starts, envs, input, Outcome(next, lists), StartTimes(os.stalls))
  {
    var ccs, sents; ghost var out;
    ccs, sents, input, vs, ss, out := AgreeAndSettle(cfg, os, envs, timeline, n, g, o, starts);
    lists := RespondInTime(cfg, os, coordinator, ccs, sents, envs, n, g, o, input, vs, ss, out, starts);
    FinishedRanks(os, n, g.ranks, ss, sents, out.next.ranks);
    next := out.next;
    HasPassed(cfg, g, o, starts, envs, input, vs, ss, out, os, n);
  }

  ghost predicate QueuesValid(queues: seq<TensorQueue>)
    reads queues
  {
    forall r {:trigger queues[r].Valid()} :: 0 <= r < |queues| ==> queues[r].Valid()
  }

  /** In related states every message in a tensor queue has its tensor in the table, once. */
  lemma {:induction false} RelatedQueues(cfg: Config, os: Objects, n: nat, coordinator: Coordinator, o: Outstanding)
    requires Apart(os, n) && Rel(cfg, ClusterOf(os, n, coordinator), o)
    ensures QueuesValid(os.queues)
  {
    var ks := RanksOf(os, n);
    forall r | 0 <= r < n ensures os.queues[r].Valid() {
      assert TableMatches(ks[r], o[r]) && QueueMatches(ks[r], o[r]);
      var queue := os.queues[r].queue;
      forall i | 0 <= i < |queue| ensures queue[i].name in o[r] && o[r][queue[i].name] == queue[i] {
        assert queue[i] in ks[r].queue;
      }
    }
  }

  /** RunLoopOnce on all ranks. From any state that is related to the outstanding requests `o`, the
      objects of all ranks and the returned lists end exactly as one cycle of the protocol, so that
      the pass answers what is outstanding everywhere and leaves a related state. The input of the
      cycle is what the clocks, the recorded start times and the shutdown requests make it. */
  method RunLoopOnce(cfg: Config, os: Objects, coordinator: Coordinator, envs: seq<Env>, timeline: bool, n: nat,
                     ghost o: Outstanding)
    returns (lists: seq<ResponseList>, ghost input: CycleInput)
    requires Apart(os, n) && |envs| == n > 0 && CachesValid(os.caches, cfg.capacity)
    requires cfg.capacity + NUM_STATUS_BITS < 0x8000_0000 && Rel(cfg, ClusterOf(os, n, coordinator), o)
    modifies os.queues, os.caches, os.stalls, coordinator
    ensures CachesValid(os.caches, cfg.capacity) && QueuesValid(os.queues)
    ensures input == InputOf(old(RanksOf(os, n)), old(StartTimes(os.stalls)), envs)
    ensures Cycle(cfg, old(ClusterOf(os, n, coordinator)), input) == Some(Outcome(ClusterOf(os, n, coordinator), lists))
    ensures MeetsSpec(cfg, o, input, Outcome(ClusterOf(os, n, coordinator), lists))
    ensures var before, after := old(StartTimes(os.stalls)), StartTimes(os.stalls);
            forall r, x :: 0 <= r < n && x in after[r] ==>
              after[r][x] == if x in before[r] then before[r][x] else envs[r].now
    ensures Passed(cfg, old(ClusterOf(os, n, coordinator)), old(StartTimes(os.stalls)), envs, input,
                   Outcome(ClusterOf(os, n, coordinator), lists), StartTimes(os.stalls))
  {
    ghost var g := ClusterOf(os, n, coordinator);
    ghost var vs, ss, next;
    lists, input, vs, ss, next := Pass(cfg, os, coordinator, envs, timeline, n, g, o, StartTimes(os.stalls));
    EndsInCycle(cfg, g, o, input, vs, ss, Outcome(next, lists));
    RelatedQueues(cfg, os, n, coordinator, SpecCycle(o));
    PassedAged(cfg, g, old(StartTimes(os.stalls)), envs, input, Outcome(next, lists), StartTimes(os.stalls));
  }

  lemma {:induction false} PassedAged(cfg: Config, g: Cluster, times: seq<map<string, int>>, envs: seq<Env>,
                                      input: CycleInput, out: Outcome, times': seq<map<string, int>>)
    requires |g.ranks| > 0 && Passed(cfg, g, times, envs, input, out, times')
    ensures |times| == |times'| == |envs|
    ensures forall r, x :: 0 <= r < |envs| && x in times'[r] ==>
              times'[r][x] == if x in times[r] then times[r][x] else envs[r].now
  {
    assert Cycle(cfg, g, input) == Some(out);
  }
}
