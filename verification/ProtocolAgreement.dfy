/** The first half of a cycle: from related states, every rank votes, and after the
    agreement all ranks hold the same cache, the same common hits and take the same branch. */
module ProtocolAgreement {
  import opened Messages
  import opened Negotiation
  import opened LruCache
  import opened Votes
  import opened Protocol
  import opened ProtocolSpec

  // ---------------------------------------------------------------- stall inspection

  lemma {:induction false} WatchFacts(c: Lru, params: map<string, Params>, queue: seq<Request>, watched: set<string>,
                                      n: string)
    requires n in Watch(c, params, queue, watched)
    ensures (exists q :: q in queue && q.name == n && StateOf(c, params, q) == Hit)
            || (n in watched && n !in NamesOf(queue))
  {
    if queue != [] {
      var front, q := queue[..|queue| - 1], queue[|queue| - 1];
      assert queue == front + [q];
      if q.name == n {
        assert StateOf(c, params, q) == Hit;
      } else {
        WatchFacts(c, params, front, watched, n);
        if m :| m in front && m.name == n && StateOf(c, params, m) == Hit {
          assert m in queue;
        }
      }
    }
  }

  /** Whenever the stall check runs, every name under inspection is a hit among the messages
      of this cycle, so its cache bit is defined whatever was evicted before. */
  lemma {:induction false} WatchedAreHits(k: Rank, late: set<string>)
    requires WellFormed(k.cache) && k.watched <= NamesOf(k.queue)
    ensures forall n :: n in Watch(k.cache, k.params, k.queue, k.watched) ==>
              && n in k.cache.bits
              && exists q :: q in k.queue && q.name == n && StateOf(k.cache, k.params, q) == Hit
    ensures CanVote(k, late)
  {
    HasIffNamed(k.cache.order);
    forall n | n in Watch(k.cache, k.params, k.queue, k.watched)
      ensures n in k.cache.bits
      ensures exists q :: q in k.queue && q.name == n && StateOf(k.cache, k.params, q) == Hit
    {
      WatchFacts(k.cache, k.params, k.queue, k.watched, n);
      var q :| q in k.queue && q.name == n && StateOf(k.cache, k.params, q) == Hit;
      assert Has(k.cache.order, n);
    }
  }

  // ---------------------------------------------------------------- votes

  lemma {:induction false} LiveBit(c: Lru, n: string)
    requires WellFormed(c) && n in c.bits
    ensures Live(c, c.bits[n]) && c.slots[c.bits[n]] == Some(n)
  {
    HasIffNamed(c.order);
  }

  ghost predicate SoundVote(k: Rank, v: Vote) {
    && (v.invalidInQueue <==> v.invalid != {})
    && (v.invalid != {} ==> v.uncached)
    && (forall b :: b in v.invalid ==> Live(k.cache, b))
    && v.hits == BitsOf(k, Hit)
    && BitsOf(k, Invalid) <= v.invalid
    && (!v.uncached ==> forall q :: q in k.queue ==> StateOf(k.cache, k.params, q) == Hit)
  }

  lemma {:induction false} VoteIsSound(k: Rank, late: set<string>, shutdown: bool)
    requires WellFormed(k.cache) && k.watched <= NamesOf(k.queue) && CanVote(k, late)
    ensures SoundVote(k, CastVote(k, late, shutdown))
  {
    var v := CastVote(k, late, shutdown);
    forall b | b in v.invalid ensures Live(k.cache, b) && v.uncached {
      if b in BitsOf(k, Invalid) {
        var q :| q in k.queue && StateOf(k.cache, k.params, q) == Invalid && q.name in k.cache.bits
          && k.cache.bits[q.name] == b;
        LiveBit(k.cache, q.name);
      } else {
        var n :| n in Stalled(k, late) && n in k.cache.bits && k.cache.bits[n] == b;
        LiveBit(k.cache, n);
      }
    }
  }

  /** After the agreement every rank holds the same record. */
  lemma {:induction false} SyncedSame(votes: seq<Vote>, r: nat)
    requires r < |votes|
    requires forall k :: 0 <= k < |votes| ==> (votes[k].invalidInQueue <==> votes[k].invalid != {})
    ensures Synced(votes, r) == Synced(votes, 0)
    ensures Synced(votes, 0).invalid == AllInvalid(votes)
    ensures forall b ::
              b in Synced(votes, 0).hits <==> forall k :: 0 <= k < |votes| ==> b in votes[k].hits - votes[k].invalid
  {
    if forall k :: 0 <= k < |votes| ==> !votes[k].invalidInQueue {
      assert AllInvalid(votes) == {};
    }
    assert Synced(votes, r).hits == Synced(votes, 0).hits;
  }

  // ---------------------------------------------------------------- settling

  lemma {:induction false} DistinctSnoc(queue: seq<Request>, picked: seq<Request>)
    requires queue != [] && DistinctRequests(queue) && DistinctRequests(picked)
    requires forall q :: q in picked ==> q in queue[..|queue| - 1]
    ensures DistinctRequests(picked + [queue[|queue| - 1]])
  {
    forall i | 0 <= i < |picked| ensures picked[i].name != queue[|queue| - 1].name {
      assert picked[i] in picked;
    }
  }

  lemma {:induction false} SentFacts(c: Lru, params: map<string, Params>, queue: seq<Request>)
    requires DistinctRequests(queue)
    ensures DistinctRequests(Sent(c, params, queue))
    ensures forall q :: q in Sent(c, params, queue) <==> q in queue && StateOf(c, params, q) != Hit
  {
    if queue != [] {
      var front, last := queue[..|queue| - 1], queue[|queue| - 1];
      SentFacts(c, params, front);
      DistinctSnoc(queue, Sent(c, params, front));
      assert forall q :: q in queue <==> q in front || q == last by { assert queue == front + [last]; }
    }
  }

  lemma {:induction false} KeptFacts(c: Lru, params: map<string, Params>, hits: set<nat>, queue: seq<Request>)
    requires DistinctRequests(queue)
    ensures DistinctRequests(Kept(c, params, hits, queue))
    ensures forall q :: q in Kept(c, params, hits, queue) <==> q in queue && IsUncommonHit(c, params, hits, q)
  {
    if queue != [] {
      var front, last := queue[..|queue| - 1], queue[|queue| - 1];
      KeptFacts(c, params, hits, front);
      DistinctSnoc(queue, Kept(c, params, hits, front));
      assert forall q :: q in queue <==> q in front || q == last by { assert queue == front + [last]; }
    }
  }

  /** Messages that are no common hit leave stall inspection only if they stay queued. */
  lemma {:induction false} SettledWatch(k: Rank, v: Vote)
    requires CanSettle(k, v) && DistinctRequests(k.queue) && k.watched <= NamesOf(k.queue)
    ensures Settle(k, v).watched <= NamesOf(Settle(k, v).kept)
  {
    var s := Settle(k, v);
    KeptFacts(s.cache, s.params, v.hits, k.queue);
    WatchedAreHits(k, {});
    forall n | n in s.watched ensures n in NamesOf(s.kept) {
      var q :| q in k.queue && q.name == n && StateOf(k.cache, k.params, q) == Hit;
      assert IsUncommonHit(s.cache, s.params, v.hits, q);
      assert q in s.kept;
    }
  }

  lemma {:induction false} InvalidBits(c: Lru, invalid: set<nat>)
    requires forall b :: b in invalid ==> Live(c, b)
    ensures var bs := Ascending(invalid, |c.slots|);
            && AllLive(c, bs) && Distinct(bs)
            && (forall b :: b in bs <==> b in invalid)
            && (invalid == {} ==> bs == [])
  {
    var bs := Ascending(invalid, |c.slots|);
    forall i | 0 <= i < |bs| ensures Live(c, bs[i]) { assert bs[i] in bs; }
    if bs != [] { assert bs[0] in bs; }
  }

  /** The cache after the agreement: the invalid entries are gone, the rest is untouched. */
  ghost function Erased(c: Lru, invalid: set<nat>): Lru
    requires WellFormed(c) && forall b :: b in invalid ==> Live(c, b)
  {
    InvalidBits(c, invalid);
    EraseAll(c, Ascending(invalid, |c.slots|))
  }

  lemma {:induction false} ErasedFacts(c: Lru, invalid: set<nat>)
    requires WellFormed(c) && forall b :: b in invalid ==> Live(c, b)
    ensures var c' := Erased(c, invalid);
            && WellFormed(c')
            && |c'.order| <= |c.order|
            && (forall n :: n in c'.bits <==> n in c.bits && c.bits[n] !in invalid)
            && (forall n :: n in c'.bits ==> c'.bits[n] == c.bits[n])
            && (forall e :: e in c'.order <==> e in c.order && NameOf(e) in c'.bits)
            && (invalid == {} ==> c' == c)
  {
    InvalidBits(c, invalid);
    ErasedList(c, invalid, Ascending(invalid, |c.slots|));
  }

  lemma {:induction false} ErasedList(c: Lru, invalid: set<nat>, bs: seq<nat>)
    requires WellFormed(c) && AllLive(c, bs) && Distinct(bs)
    requires (forall b :: b in bs <==> b in invalid) && (invalid == {} ==> bs == [])
    ensures var c' := EraseAll(c, bs);
            && WellFormed(c')
            && |c'.order| <= |c.order|
            && (forall n :: n in c'.bits <==> n in c.bits && c.bits[n] !in invalid)
            && (forall n :: n in c'.bits ==> c'.bits[n] == c.bits[n])
            && (forall e :: e in c'.order <==> e in c.order && NameOf(e) in c'.bits)
            && (invalid == {} ==> c' == c)
  {
    EraseAllBits(c, bs);
    EraseAllOrder(c, bs);
  }

  lemma {:induction false} ErasedEntry(c: Lru, invalid: set<nat>, n: string)
    requires WellFormed(c) && forall b :: b in invalid ==> Live(c, b)
    requires n in Erased(c, invalid).bits
    ensures var c' := Erased(c, invalid); Has(c.order, n) && Has(c'.order, n) && Entry(c'.order, n) == Entry(c.order, n)
  {
    ErasedFacts(c, invalid);
    HasIffNamed(c.order);
    SameEntry(c.order, Erased(c, invalid).order, n);
  }

  // ---------------------------------------------------------------- the state in mid-cycle

  ghost predicate CacheSettled(k: Rank, s: Settled, m: map<string, Request>, c: Lru) {
    && TableMatches(k, m)
    && s.cache == c && s.params.Keys == c.bits.Keys
    && forall x :: x in m && x in c.bits ==> Has(c.order, x) && Matches(Entry(c.order, x), s.params[x], m[x])
  }

  ghost predicate QueueSettled(s: Settled, m: map<string, Request>, c: Lru, o: Outstanding) {
    && DistinctRequests(s.kept) && DistinctRequests(s.sent)
    && (forall q :: q in s.kept <==> q.name in m && m[q.name] == q && q.name in c.bits && !Everywhere(o, q.name))
    && (forall q :: q in s.sent ==> q.name in m && m[q.name] == q && q.name !in c.bits)
    && s.watched <= NamesOf(s.kept)
  }

  ghost function SettledParams(ss: seq<Settled>): seq<map<string, Params>> {
    seq(|ss|, r requires 0 <= r < |ss| => ss[r].params)
  }

  /** After the agreement: one cache `c` without invalid entries, common hits that are
      exactly the cached names outstanding everywhere, and every uncached outstanding request
      either on its way to the coordinator or already there. */
  ghost predicate Mid(cfg: Config, g: Cluster, o: Outstanding, c: Lru, hits: set<nat>, ss: seq<Settled>) {
    && |ss| == |g.ranks| == |o| > 0
    && OwnRequests(o)
    && WellFormed(c) && |c.order| <= cfg.capacity
    && AllCertified(c.order, SettledParams(ss))
    && (forall b :: b in hits ==> Live(c, b))
    && (forall x :: x in c.bits ==> (c.bits[x] in hits <==> Everywhere(o, x)))
    && (forall r :: 0 <= r < |o| ==> CacheSettled(g.ranks[r], ss[r], o[r], c) && QueueSettled(ss[r], o[r], c, o))
    && (forall x :: x in g.pending ==> WaitingMatch(g.pending[x], o, x) && x !in c.bits)
    && (forall r, x :: 0 <= r < |o| && x in o[r] && x !in c.bits ==>
          o[r][x] in ss[r].sent || o[r][x] in Get(g.pending, x))
    && (forall r, q :: 0 <= r < |o| && q in ss[r].sent ==> q !in Get(g.pending, q.name))
  }

  /** The agreed record, and what it says about the votes. */
  ghost predicate Agreed(cfg: Config, g: Cluster, input: CycleInput, v: Vote)
    requires |g.ranks| > 0
  {
    && Prepared(cfg, g, input)
    && var votes := VotesOf(cfg, g, input);
       && Matched(cfg, g, votes)
       && (forall r :: 0 <= r < |g.ranks| ==> Synced(votes, r) == v && SoundVote(g.ranks[r], votes[r]))
       && v.invalid == AllInvalid(votes)
       && (forall b :: b in v.hits <==> forall k :: 0 <= k < |votes| ==> b in votes[k].hits - votes[k].invalid)
  }

  /** All ranks come out of the agreement with the same record and take the same branch. */
  lemma {:induction false} RanksAgree(cfg: Config, g: Cluster, o: Outstanding, input: CycleInput) returns (v: Vote)
    requires Rel(cfg, g, o) && |input.late| == |input.shutdown| == |o|
    ensures Agreed(cfg, g, input, v)
    ensures v.shutdown <==> exists r :: 0 <= r < |o| && input.shutdown[r]
  {
    forall r | 0 <= r < |o| ensures CanVote(g.ranks[r], input.late[r]) {
      assert QueueMatches(g.ranks[r], o[r]);
      WatchedAreHits(g.ranks[r], input.late[r]);
    }
    assert Prepared(cfg, g, input);
    var votes := VotesOf(cfg, g, input);
    v := Synced(votes, 0);
    forall r | 0 <= r < |o| ensures SoundVote(g.ranks[r], votes[r]) {
      assert QueueMatches(g.ranks[r], o[r]);
      VoteIsSound(g.ranks[r], input.late[r], input.shutdown[r]);
    }
    forall r | 0 <= r < |o| ensures Synced(votes, r) == v {
      SyncedSame(votes, r);
    }
    SyncedSame(votes, 0);
    forall r, b | 0 <= r < |o| && b in v.invalid ensures Live(g.ranks[r].cache, b) {
      var k :| 0 <= k < |votes| && b in votes[k].invalid;
      assert SoundVote(g.ranks[k], votes[k]);
      assert g.ranks[r].cache == g.ranks[0].cache == g.ranks[k].cache;
    }
    assert Matched(cfg, g, votes);
    assert forall r :: 0 <= r < |o| ==> votes[r].shutdown == input.shutdown[r];
  }

  /** Without uncached messages nothing is erased and every message is a hit. */
  lemma {:induction false} QuietMeansHits(cfg: Config, g: Cluster, input: CycleInput, v: Vote)
    requires |g.ranks| > 0 && Agreed(cfg, g, input, v) && !v.uncached
    ensures v.invalid == {}
    ensures forall r, q :: 0 <= r < |g.ranks| && q in g.ranks[r].queue ==>
              StateOf(g.ranks[r].cache, g.ranks[r].params, q) == Hit
  {
    var votes := VotesOf(cfg, g, input);
    forall r | 0 <= r < |g.ranks| ensures votes[r].invalid == {} && !votes[r].uncached {
      assert Synced(votes, r) == v && SoundVote(g.ranks[r], votes[r]);
    }
  }

  /** A message whose name is still cached after the agreement was a hit before. */
  lemma {:induction false} CachedMeansHit(cfg: Config, g: Cluster, input: CycleInput, v: Vote, r: nat, q: Request)
    requires |g.ranks| > 0 && Agreed(cfg, g, input, v) && r < |g.ranks| && q in g.ranks[r].queue
    requires q.name in g.ranks[r].cache.bits && g.ranks[r].cache.bits[q.name] !in v.invalid
    ensures StateOf(g.ranks[r].cache, g.ranks[r].params, q) == Hit
  {
    var k, votes := g.ranks[r], VotesOf(cfg, g, input);
    assert SoundVote(k, votes[r]);
    HasIffNamed(k.cache.order);
    assert votes[r].invalid <= AllInvalid(votes);
    assert k.cache.bits[q.name] !in BitsOf(k, Invalid);
  }

  /** Erasing other entries does not change whether a request is a hit. */
  lemma {:induction false} StateAfterErasing(k: Rank, invalid: set<nat>, q: Request)
    requires WellFormed(k.cache) && forall b :: b in invalid ==> Live(k.cache, b)
    ensures var c := Erased(k.cache, invalid);
            StateOf(c, Restrict(k.params, c.bits.Keys), q) ==
              if q.name in c.bits then StateOf(k.cache, k.params, q) else Miss
  {
    var c := Erased(k.cache, invalid);
    assert WellFormed(c) by { ErasedFacts(k.cache, invalid); }
    HasIffNamed(c.order);
    if q.name in c.bits {
      ErasedEntry(k.cache, invalid, q.name);
    }
  }

  lemma {:induction false} StatesAfterAgreement(cfg: Config, g: Cluster, o: Outstanding, input: CycleInput, v: Vote,
                                                r: nat)
    requires Rel(cfg, g, o) && Agreed(cfg, g, input, v) && r < |o|
    ensures var k := g.ranks[r]; var c := Erased(k.cache, v.invalid);
            && (forall q :: q in k.queue ==>
                  StateOf(c, Restrict(k.params, c.bits.Keys), q) == if q.name in c.bits then Hit else Miss)
            && (forall x :: x in o[r] && x in c.bits ==> o[r][x] in k.queue)
  {
    var k := g.ranks[r];
    var c := Erased(k.cache, v.invalid);
    ErasedFacts(k.cache, v.invalid);
    forall q | q in k.queue
      ensures StateOf(c, Restrict(k.params, c.bits.Keys), q) == if q.name in c.bits then Hit else Miss
    {
      StateAfterErasing(k, v.invalid, q);
      if q.name in c.bits { CachedMeansHit(cfg, g, input, v, r, q); }
    }
    forall x | x in o[r] && x in c.bits ensures o[r][x] in k.queue {
      assert k.cache == g.ranks[0].cache;
      assert o[r][x] in k.queue || o[r][x] in Get(g.pending, x);
    }
  }

  /** On rank `k` with outstanding requests `m`, every message whose name is in the cache
      `c` left by the agreement is a hit, and no other. */
  ghost predicate Classified(k: Rank, m: map<string, Request>, o: Outstanding, v: Vote, c: Lru) {
    && CanSettle(k, v) && c == Erased(k.cache, v.invalid)
    && TableMatches(k, m) && QueueMatches(k, m) && k.params.Keys == k.cache.bits.Keys
    && (forall x :: x in m ==> m[x].name == x)
    && (forall q :: q in k.queue ==>
          StateOf(c, Restrict(k.params, c.bits.Keys), q) == if q.name in c.bits then Hit else Miss)
    && (forall x :: x in m && x in c.bits ==> m[x] in k.queue)
    && (forall x :: x in c.bits ==> (c.bits[x] in v.hits <==> Everywhere(o, x)))
  }

  lemma {:induction false} QueueSettles(k: Rank, m: map<string, Request>, o: Outstanding, v: Vote, c: Lru)
    requires Classified(k, m, o, v, c)
    ensures QueueSettled(Settle(k, v), m, c, o)
    ensures forall q :: q in Settle(k, v).sent <==> q in k.queue && q.name !in c.bits
  {
    var s := Settle(k, v);
    SettledWatch(k, v);
    KeptFacts(c, s.params, v.hits, k.queue);
    SentFacts(c, s.params, k.queue);
  }

  lemma {:induction false} CacheSettles(k: Rank, m: map<string, Request>, o: Outstanding, v: Vote, c: Lru)
    requires Classified(k, m, o, v, c)
    ensures CacheSettled(k, Settle(k, v), m, c)
  {
    var s := Settle(k, v);
    assert c.bits.Keys <= k.cache.bits.Keys by { ErasedFacts(k.cache, v.invalid); }
    forall x | x in m && x in c.bits ensures Has(c.order, x) && Matches(Entry(c.order, x), s.params[x], m[x]) {
      assert StateOf(c, s.params, m[x]) == Hit;
    }
  }

  /** The common hits are exactly the cached names outstanding on every rank. */
  lemma {:induction false} HitsAreCommon(cfg: Config, g: Cluster, o: Outstanding, input: CycleInput, v: Vote, x: string)
    requires Rel(cfg, g, o) && Agreed(cfg, g, input, v)
    requires x in Erased(g.ranks[0].cache, v.invalid).bits
    ensures Erased(g.ranks[0].cache, v.invalid).bits[x] in v.hits <==> Everywhere(o, x)
  {
    var votes, b := VotesOf(cfg, g, input), Erased(g.ranks[0].cache, v.invalid).bits[x];
    forall r | 0 <= r < |o| ensures b in votes[r].hits - votes[r].invalid <==> x in o[r] {
      HitMeansOutstanding(cfg, g, o, input, v, x, r);
    }
    assert b in v.hits <==> forall k :: 0 <= k < |votes| ==> b in votes[k].hits - votes[k].invalid;
  }

  lemma {:induction false} HitMeansOutstanding(cfg: Config, g: Cluster, o: Outstanding, input: CycleInput, v: Vote,
                                               x: string, r: nat)
    requires Rel(cfg, g, o) && Agreed(cfg, g, input, v) && r < |o|
    requires x in Erased(g.ranks[0].cache, v.invalid).bits
    ensures var b := Erased(g.ranks[0].cache, v.invalid).bits[x];
            b in VotesOf(cfg, g, input)[r].hits - VotesOf(cfg, g, input)[r].invalid <==> x in o[r]
  {
    var k, votes := g.ranks[r], VotesOf(cfg, g, input);
    assert k.cache == g.ranks[0].cache && SoundVote(k, votes[r]);
    ErasedFacts(k.cache, v.invalid);
    StatesAfterAgreement(cfg, g, o, input, v, r);
    var b := k.cache.bits[x];
    assert b !in votes[r].invalid by { assert votes[r].invalid <= AllInvalid(votes); }
    if x in o[r] {
      assert o[r][x] in k.queue && o[r][x].name == x;
      CachedMeansHit(cfg, g, input, v, r, o[r][x]);
    }
    if b in BitsOf(k, Hit) {
      var q :| q in k.queue && StateOf(k.cache, k.params, q) == Hit && q.name in k.cache.bits
        && k.cache.bits[q.name] == b;
      assert q.name == x by { LiveBit(k.cache, x); LiveBit(k.cache, q.name); }
      assert QueueMatches(k, o[r]);
    }
  }

  lemma {:induction false} SettledCertificates(cfg: Config, g: Cluster, o: Outstanding, v: Vote, c: Lru,
                                               ss: seq<Settled>)
    requires Rel(cfg, g, o) && |ss| == |o|
    requires forall b :: b in v.invalid ==> Live(g.ranks[0].cache, b)
    requires c == Erased(g.ranks[0].cache, v.invalid)
    requires forall r :: 0 <= r < |ss| ==> ss[r].params == Restrict(g.ranks[r].params, c.bits.Keys)
    ensures AllCertified(c.order, SettledParams(ss))
  {
    var c0 := g.ranks[0].cache;
    assert (forall e :: e in c.order ==> e in c0.order && NameOf(e) in c.bits) && c.bits.Keys <= c0.bits.Keys by {
      ErasedFacts(c0, v.invalid);
    }
    forall e, r | e in c.order && 0 <= r < |ss|
      ensures NameOf(e) in ParamMaps(g)[r] && NameOf(e) in SettledParams(ss)[r]
      ensures SettledParams(ss)[r][NameOf(e)] == ParamMaps(g)[r][NameOf(e)]
    {
      assert NameOf(e) in c.bits && NameOf(e) in g.ranks[r].params;
    }
    CertifiedSubset(c0.order, ParamMaps(g), c.order, SettledParams(ss));
  }

  lemma {:induction false} AllClassified(cfg: Config, g: Cluster, o: Outstanding, input: CycleInput, v: Vote, r: nat)
    requires Rel(cfg, g, o) && Agreed(cfg, g, input, v) && r < |o|
    ensures Classified(g.ranks[r], o[r], o, v, Erased(g.ranks[0].cache, v.invalid))
  {
    assert g.ranks[r].cache == g.ranks[0].cache;
    StatesAfterAgreement(cfg, g, o, input, v, r);
    forall x | x in Erased(g.ranks[0].cache, v.invalid).bits
      ensures Erased(g.ranks[0].cache, v.invalid).bits[x] in v.hits <==> Everywhere(o, x)
    {
      HitsAreCommon(cfg, g, o, input, v, x);
    }
  }

  lemma {:induction false} PendingInMid(cfg: Config, g: Cluster, o: Outstanding, input: CycleInput, v: Vote, c: Lru,
                                        r: nat)
    requires Rel(cfg, g, o) && Agreed(cfg, g, input, v) && r < |o| && c == Erased(g.ranks[0].cache, v.invalid)
    ensures var sent := Settle(g.ranks[r], v).sent;
            && (forall x :: x in o[r] && x !in c.bits ==> o[r][x] in sent || o[r][x] in Get(g.pending, x))
            && (forall q :: q in sent ==> q !in Get(g.pending, q.name))
  {
    AllClassified(cfg, g, o, input, v, r);
    QueueSettles(g.ranks[r], o[r], o, v, c);
    var k, sent := g.ranks[r], Settle(g.ranks[r], v).sent;
    forall x | x in o[r] && x !in c.bits ensures o[r][x] in sent || o[r][x] in Get(g.pending, x) {
      assert o[r][x] in k.queue || o[r][x] in Get(g.pending, x);
    }
    forall q | q in sent ensures q !in Get(g.pending, q.name) {
      assert q in k.queue && q.rank == r;
    }
  }

  /** From related states the agreement leads to a settled state. */
  lemma {:induction false} MidReached(cfg: Config, g: Cluster, o: Outstanding, input: CycleInput, v: Vote)
    returns (c: Lru)
    requires Rel(cfg, g, o) && Agreed(cfg, g, input, v)
    ensures Mid(cfg, g, o, c, v.hits, SettleAll(cfg, g, VotesOf(cfg, g, input)))
    ensures v.invalid == {} ==> c == g.ranks[0].cache
    ensures !v.uncached ==> forall r :: 0 <= r < |o| ==> SettleAll(cfg, g, VotesOf(cfg, g, input))[r].sent == []
  {
    MidErased(cfg, g, o, input, v);
    c := Erased(g.ranks[0].cache, v.invalid);
    ErasedFacts(g.ranks[0].cache, v.invalid);
    if !v.uncached { NothingSent(cfg, g, o, input, v); }
  }

  /** The settled cache is the common one without the invalid entries. */
  lemma {:induction false} MidErased(cfg: Config, g: Cluster, o: Outstanding, input: CycleInput, v: Vote)
    requires Rel(cfg, g, o) && Agreed(cfg, g, input, v)
    ensures forall b :: b in v.invalid ==> Live(g.ranks[0].cache, b)
    ensures Mid(cfg, g, o, Erased(g.ranks[0].cache, v.invalid), v.hits, SettleAll(cfg, g, VotesOf(cfg, g, input)))
  {
    var c := Erased(g.ranks[0].cache, v.invalid);
    var ss := SettleAll(cfg, g, VotesOf(cfg, g, input));
    assert WellFormed(c) && |c.order| <= cfg.capacity
      && c.bits.Keys <= g.ranks[0].cache.bits.Keys by { ErasedFacts(g.ranks[0].cache, v.invalid); }
    forall r | 0 <= r < |o|
      ensures ss[r] == Settle(g.ranks[r], v) && ss[r].params == Restrict(g.ranks[r].params, c.bits.Keys)
    {
    }
    SettledCertificates(cfg, g, o, v, c, ss);
    forall x | x in c.bits ensures c.bits[x] in v.hits <==> Everywhere(o, x) {
      HitsAreCommon(cfg, g, o, input, v, x);
    }
    forall b | b in v.hits ensures Live(c, b) { CommonHitIsLive(cfg, g, o, input, v, b); }
    forall r | 0 <= r < |o| ensures CacheSettled(g.ranks[r], ss[r], o[r], c) && QueueSettled(ss[r], o[r], c, o) {
      AllClassified(cfg, g, o, input, v, r);
      CacheSettles(g.ranks[r], o[r], o, v, c);
      QueueSettles(g.ranks[r], o[r], o, v, c);
    }
    forall r | 0 <= r < |o|
      ensures forall x :: x in o[r] && x !in c.bits ==> o[r][x] in ss[r].sent || o[r][x] in Get(g.pending, x)
      ensures forall q :: q in ss[r].sent ==> q !in Get(g.pending, q.name)
    {
      PendingInMid(cfg, g, o, input, v, c, r);
    }
  }

  lemma {:induction false} CommonHitIsLive(cfg: Config, g: Cluster, o: Outstanding, input: CycleInput, v: Vote, b: nat)
    requires Rel(cfg, g, o) && Agreed(cfg, g, input, v) && b in v.hits
    ensures Live(Erased(g.ranks[0].cache, v.invalid), b)
  {
    var k, votes, c := g.ranks[0], VotesOf(cfg, g, input), Erased(g.ranks[0].cache, v.invalid);
    assert SoundVote(k, votes[0]) && b in votes[0].hits;
    var q :| q in k.queue && StateOf(k.cache, k.params, q) == Hit && q.name in k.cache.bits
      && k.cache.bits[q.name] == b;
    assert b !in v.invalid by {
      forall r | 0 <= r < |votes| ensures b !in votes[r].invalid {
        assert b in votes[r].hits - votes[r].invalid;
      }
    }
    ErasedFacts(k.cache, v.invalid);
    LiveBit(c, q.name);
  }

  lemma {:induction false} NothingSent(cfg: Config, g: Cluster, o: Outstanding, input: CycleInput, v: Vote)
    requires Rel(cfg, g, o) && Agreed(cfg, g, input, v) && !v.uncached
    ensures forall r :: 0 <= r < |o| ==> SettleAll(cfg, g, VotesOf(cfg, g, input))[r].sent == []
  {
    QuietMeansHits(cfg, g, input, v);
    var c := Erased(g.ranks[0].cache, v.invalid);
    assert c == g.ranks[0].cache by { ErasedFacts(g.ranks[0].cache, v.invalid); }
    forall r | 0 <= r < |o| ensures SettleAll(cfg, g, VotesOf(cfg, g, input))[r].sent == [] {
      var k, s := g.ranks[r], SettleAll(cfg, g, VotesOf(cfg, g, input))[r];
      if s.sent != [] {
        var q := s.sent[0];
        assert q in s.sent;
        AllClassified(cfg, g, o, input, v, r);
        QueueSettles(k, o[r], o, v, c);
        HasIffNamed(k.cache.order);
      }
    }
  }
}
