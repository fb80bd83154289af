/** The loops of Controller::ComputeResponseList on one rank, phase by phase, each proved to
    compute what the protocol's state machine says that rank does. They work on the
    objects of the rank: its response cache, cache coordinator and stall inspector. */
module Controller {
  import opened Messages
  import opened LruCache
  import opened Votes
  import opened Protocol
  import opened CacheSync
  import opened ResponseCache
  import opened Seqs
  import Fusion
  import Negotiation
  import Agreement = ProtocolAgreement
  import Answers = ProtocolAnswers
  import opened ProtocolOutcome

  /** cached_tensor_table: when a cached tensor was first seen waiting. */
  class StallInspector {
    var cached: map<string, int>

    constructor ()
      ensures cached == map[]
    {
      cached := map[];
    }

    method RecordCachedTensorStart(name: string, now: int)
      modifies this
      ensures cached == if name in old(cached) then old(cached) else old(cached)[name := now]
      ensures cached.Keys == old(cached.Keys) + {name}
    {
      if name !in cached {
        cached := cached[name := now];
      }
    }

    method RemoveCachedTensor(name: string)
      modifies this
      ensures cached == old(cached) - {name} && cached.Keys == old(cached.Keys) - {name}
    {
      cached := cached - {name};
    }
  }

  // ---------------------------------------------------------------- classification

  /** What the rank would vote if its queue were only `qs`. */
  ghost predicate Classified(c: Lru, kept: map<string, Params>, qs: seq<Request>, hits: set<nat>, invalid: set<nat>,
                             uncached: bool)
  {
    var k := Rank(map[], qs, c, kept, {});
    && hits == BitsOf(k, Hit) && invalid == BitsOf(k, Invalid)
    && (uncached <==> exists q :: q in qs && StateOf(c, kept, q) != Hit)
  }

  lemma {:induction false} BitsOfNext(c: Lru, kept: map<string, Params>, qs: seq<Request>, q: Request, s: CacheState)
    ensures BitsOf(Rank(map[], qs + [q], c, kept, {}), s)
            == BitsOf(Rank(map[], qs, c, kept, {}), s)
               + if StateOf(c, kept, q) == s && q.name in c.bits then {c.bits[q.name]} else {}
  {
    var k, k' := Rank(map[], qs, c, kept, {}), Rank(map[], qs + [q], c, kept, {});
    forall x | x in k.queue ensures x in k'.queue {}
    assert q in k'.queue;
  }

  lemma {:induction false} HitHasBit(c: Lru, kept: map<string, Params>, q: Request)
    requires WellFormed(c)
    ensures StateOf(c, kept, q) != Miss ==> q.name in c.bits && c.bits[q.name] < |c.slots|
  {
    HasIffNamed(c.order);
  }

  lemma {:induction false} ClassifyOneMore(c: Lru, kept: map<string, Params>, qs: seq<Request>, q: Request,
                                           hits: set<nat>, invalid: set<nat>, uncached: bool)
    requires Classified(c, kept, qs, hits, invalid, uncached)
    requires StateOf(c, kept, q) != Miss ==> q.name in c.bits
    ensures var s := StateOf(c, kept, q);
            Classified(c, kept, qs + [q], hits + (if s == Hit then {c.bits[q.name]} else {}),
                       invalid + (if s == Invalid then {c.bits[q.name]} else {}), uncached || s != Hit)
  {
    BitsOfNext(c, kept, qs, q, Hit);
    BitsOfNext(c, kept, qs, q, Invalid);
    assert q in qs + [q];
    forall x | x in qs ensures x in qs + [q] {}
  }

  lemma {:induction false} ClassifyNext(c: Lru, kept: map<string, Params>, messages: seq<Request>, i: nat,
                                        start: map<string, int>, now: int, hits: set<nat>, invalid: set<nat>,
                                        uncached: bool)
    requires WellFormed(c) && i < |messages|
    requires Classified(c, kept, messages[..i], hits, invalid, uncached)
    ensures var q := messages[i]; var s := StateOf(c, kept, q);
            && (s != Miss ==> q.name in c.bits && c.bits[q.name] < |c.slots|)
            && Classified(c, kept, messages[..i + 1], hits + (if s == Hit then {c.bits[q.name]} else {}),
                          invalid + (if s == Invalid then {c.bits[q.name]} else {}), uncached || s != Hit)
            && Times(c, kept, messages[..i + 1], start, now)
               == Timed(Times(c, kept, messages[..i], start, now), q.name, s, now)
  {
    NextPrefix(messages, i);
    HitHasBit(c, kept, messages[i]);
    ClassifyOneMore(c, kept, messages[..i], messages[i], hits, invalid, uncached);
    assert (messages[..i] + [messages[i]])[..i] == messages[..i];
  }

  /** cached_tensor_table after one message: a hit is timed from when it was first seen, and
      everything else is not timed. */
  function Timed(times: map<string, int>, name: string, s: CacheState, now: int): map<string, int> {
    if s == Hit then (if name in times then times else times[name := now]) else times - {name}
  }

  /** cached_tensor_table after all messages. */
  function Times(c: Lru, kept: map<string, Params>, qs: seq<Request>, start: map<string, int>, now: int)
      : map<string, int>
  {
    if qs == [] then start
    else
      var q := qs[|qs| - 1];
      Timed(Times(c, kept, qs[..|qs| - 1], start, now), q.name, StateOf(c, kept, q), now)
  }

  /** The timed names are the watched ones. */
  lemma {:induction false} TimedAreWatched(c: Lru, kept: map<string, Params>, qs: seq<Request>, start: map<string, int>,
                                           now: int)
    ensures Times(c, kept, qs, start, now).Keys == Watch(c, kept, qs, start.Keys)
  {
    if qs != [] { TimedAreWatched(c, kept, qs[..|qs| - 1], start, now); }
  }

  /** Every time in `times` is the one in `start`, or the clock of this pass for a name that was not
      timed before. */
  ghost predicate Aged(start: map<string, int>, now: int, times: map<string, int>) {
    forall x :: x in times ==> times[x] == if x in start then start[x] else now
  }

  lemma {:induction false} UntouchedTime(c: Lru, kept: map<string, Params>, qs: seq<Request>, start: map<string, int>,
                                         now: int, x: string)
    requires forall q :: q in qs ==> q.name != x
    ensures var times := Times(c, kept, qs, start, now);
            (x in times <==> x in start) && (x in times ==> times[x] == start[x])
  {
    if qs != [] {
      assert qs[|qs| - 1] in qs;
      UntouchedTime(c, kept, qs[..|qs| - 1], start, now, x);
    }
  }

  /** The classification starts a clock only for a name that has none. */
  lemma {:induction false} TimesAged(c: Lru, kept: map<string, Params>, qs: seq<Request>, start: map<string, int>,
                                     now: int)
    requires forall i, j :: 0 <= i < j < |qs| ==> qs[i].name != qs[j].name
    ensures Aged(start, now, Times(c, kept, qs, start, now))
  {
    if qs != [] {
      var front, q := qs[..|qs| - 1], qs[|qs| - 1];
      TimesAged(c, kept, front, start, now);
      forall p | p in front ensures p.name != q.name {
        var i :| 0 <= i < |front| && front[i] == p;
        assert qs[i].name != qs[|qs| - 1].name;
      }
      UntouchedTime(c, kept, front, start, now, q.name);
    }
  }

  /** The first loop of ComputeResponseList: every popped message is looked up in the cache. */
  method Classify(cache: ResponseCache, cc: CacheCoordinator, stall: StallInspector, messages: seq<Request>, now: int)
    requires cache.Valid() && cc.Recording() && cc.numActiveBits == |cache.view.slots|
    requires cc.hits == {} && cc.invalid == {} && !cc.uncached
    modifies cc, stall
    ensures cc.Recording() && cc.shutdown == old(cc.shutdown)
    ensures Classified(cache.view, cache.kept, messages, cc.hits, cc.invalid, cc.uncached)
    ensures stall.cached == Times(cache.view, cache.kept, messages, old(stall.cached), now)
    ensures stall.cached.Keys == Watch(cache.view, cache.kept, messages, old(stall.cached.Keys))
  {
    for i := 0 to |messages|
      invariant cc.Recording() && cc.shutdown == old(cc.shutdown)
      invariant Classified(cache.view, cache.kept, messages[..i], cc.hits, cc.invalid, cc.uncached)
      invariant stall.cached == Times(cache.view, cache.kept, messages[..i], old(stall.cached), now)
    {
      var message := messages[i];
      var s := cache.Cached(message);
      cache.IsWellFormed();
      ClassifyNext(cache.view, cache.kept, messages, i, old(stall.cached), now, cc.hits, cc.invalid, cc.uncached);
      var bit := 0;
      if s != Miss {
        bit := cache.PeekCacheBit(message.name);
      }
      Record(cc, stall, message.name, s, bit, now);
    }
    assert messages[..|messages|] == messages;
    TimedAreWatched(cache.view, cache.kept, messages, old(stall.cached), now);
  }

  method Record(cc: CacheCoordinator, stall: StallInspector, name: string, s: CacheState, bit: nat, now: int)
    requires cc.Recording() && (s != Miss ==> bit < cc.numActiveBits)
    modifies cc, stall
    ensures cc.Recording() && cc.shutdown == old(cc.shutdown)
    ensures cc.hits == old(cc.hits) + (if s == Hit then {bit} else {})
    ensures cc.invalid == old(cc.invalid) + (if s == Invalid then {bit} else {})
    ensures cc.uncached == (old(cc.uncached) || s != Hit)
    ensures stall.cached == Timed(old(stall.cached), name, s, now)
  {
    if s == Hit {
      cc.RecordHit(bit);
      stall.RecordCachedTensorStart(name, now);
    } else {
      if s == Invalid {
        cc.RecordInvalidBit(bit);
      }
      cc.SetUncachedInQueue(true);
      stall.RemoveCachedTensor(name);
    }
  }

  // ---------------------------------------------------------------- stall check

  /** The names that have been waiting for more than `limit`. */
  function Late(cached: map<string, int>, now: int, limit: int): set<string> {
    set n | n in cached && now - cached[n] > limit
  }

  lemma {:induction false} OneLess(bits: map<string, nat>, late: set<string>, left: set<string>, n: string,
                                   invalid: set<nat>)
    requires n in left && n in bits
    ensures n in late ==>
              && late - (left - {n}) != {}
              && invalid + BitsFor(bits, late - (left - {n})) == invalid + BitsFor(bits, late - left) + {bits[n]}
    ensures n !in late ==> late - (left - {n}) == late - left
  {
    if n in late {
      assert late - (left - {n}) == late - left + {n};
      assert BitsFor(bits, late - (left - {n})) == BitsFor(bits, late - left) + {bits[n]};
    }
  }

  method InvalidateLate(cache: ResponseCache, cc: CacheCoordinator, n: string, isLate: bool, ghost late: set<string>,
                        ghost left: set<string>, ghost invalid: set<nat>, ghost uncached: bool)
    requires cache.Valid() && cc.Recording() && cc.numActiveBits == |cache.view.slots|
    requires n in cache.view.bits && n in left && isLate == (n in late)
    requires cc.invalid == invalid + BitsFor(cache.view.bits, late - left)
    requires cc.uncached == (uncached || late - left != {})
    modifies cc
    ensures cc.Recording() && cc.hits == old(cc.hits) && cc.shutdown == old(cc.shutdown)
    ensures cc.invalid == invalid + BitsFor(cache.view.bits, late - (left - {n}))
    ensures cc.uncached == (uncached || late - (left - {n}) != {})
  {
    OneLess(cache.view.bits, late, left, n, invalid);
    if isLate {
      var bit := cache.PeekCacheBit(n);
      InvalidateOne(cc, bit);
    }
  }

  /** StallInspector::InvalidateStalledCachedTensors. */
  method InvalidateStalled(cache: ResponseCache, cc: CacheCoordinator, stall: StallInspector, now: int, limit: int)
    requires cache.Valid() && cc.Recording() && cc.numActiveBits == |cache.view.slots|
    requires forall n :: n in stall.cached ==> n in cache.view.bits
    modifies cc
    ensures cc.Recording() && cc.hits == old(cc.hits) && cc.shutdown == old(cc.shutdown)
    ensures cc.invalid == old(cc.invalid) + BitsFor(cache.view.bits, Late(stall.cached, now, limit))
    ensures cc.uncached == (old(cc.uncached) || Late(stall.cached, now, limit) != {})
  {
    ghost var late, bits := Late(stall.cached, now, limit), cache.view.bits;
    var left := stall.cached.Keys;
    assert late - left == {};
    while left != {}
      invariant left <= stall.cached.Keys
      invariant cc.Recording() && cc.hits == old(cc.hits) && cc.shutdown == old(cc.shutdown)
      invariant cc.invalid == old(cc.invalid) + BitsFor(bits, late - left)
      invariant cc.uncached == (old(cc.uncached) || late - left != {})
      decreases left
    {
      var n :| n in left;
      InvalidateLate(cache, cc, n, now - stall.cached[n] > limit, late, left, old(cc.invalid), old(cc.uncached));
      left := left - {n};
    }
    assert late - left == late;
  }

  method InvalidateOne(cc: CacheCoordinator, bit: nat)
    requires cc.Recording() && bit < cc.numActiveBits
    modifies cc
    ensures cc.Recording() && cc.hits == old(cc.hits) && cc.shutdown == old(cc.shutdown)
    ensures cc.invalid == old(cc.invalid) + {bit} && cc.uncached
  {
    cc.RecordInvalidBit(bit);
    cc.SetUncachedInQueue(true);
  }

  lemma {:induction false} VoteIs(k: Rank, late: set<string>, hits: set<nat>, invalid: set<nat>, uncached: bool,
                                  shutdown: bool)
    requires WellFormed(k.cache) && k.watched <= NamesOf(k.queue)
    requires Classified(k.cache, k.params, k.queue, hits, invalid, uncached)
    requires late <= Watch(k.cache, k.params, k.queue, k.watched)
    ensures var invalid' := invalid + BitsFor(k.cache.bits, late);
            CanVote(k, late) &&
            CastVote(k, late, shutdown) == Vote(hits, invalid', uncached || late != {}, invalid' != {}, shutdown)
  {
    var alone := Rank(map[], k.queue, k.cache, k.params, {});
    assert BitsOf(k, Hit) == BitsOf(alone, Hit) && BitsOf(k, Invalid) == BitsOf(alone, Invalid);
    Agreement.WatchedAreHits(k, late);
    assert Stalled(k, late) == late;
  }

  lemma {:induction false} WatchedBits(k: Rank)
    requires WellFormed(k.cache) && k.watched <= NamesOf(k.queue)
    ensures forall n :: n in Watch(k.cache, k.params, k.queue, k.watched) ==>
              n in k.cache.bits && k.cache.bits[n] < |k.cache.slots|
  {
    Agreement.WatchedAreHits(k, {});
  }

  /** ComputeResponseList up to the agreement: the vote of rank `k` is what the protocol says. */
  method BeginCycle(ghost k: Rank, cache: ResponseCache, cc: CacheCoordinator, stall: StallInspector,
                    messages: seq<Request>, now: int, limit: int, check: bool, shutdown: bool)
    requires cache.Valid() && k.cache == cache.view && k.params == cache.kept && k.queue == messages
    requires stall.cached.Keys == k.watched <= NamesOf(messages)
    requires cc.Recording() && cc.numActiveBits == |cache.view.slots|
    requires cc.hits == {} && cc.invalid == {} && !cc.uncached
    modifies cc, stall
    ensures var late := if check then Late(stall.cached, now, limit) else {};
            cc.Recording() && CanVote(k, late) && cc.View() == CastVote(k, late, shutdown)
    ensures stall.cached.Keys == Watch(k.cache, k.params, k.queue, k.watched)
    ensures stall.cached == Times(k.cache, k.params, k.queue, old(stall.cached), now)
  {
    cache.IsWellFormed();
    Classify(cache, cc, stall, messages, now);
    CheckStalled(k, cache, cc, stall, now, limit, check, shutdown);
  }

  /** The stall check after classification. */
  method CheckStalled(ghost k: Rank, cache: ResponseCache, cc: CacheCoordinator, stall: StallInspector,
                      now: int, limit: int, check: bool, shutdown: bool)
    requires cache.Valid() && k.cache == cache.view && k.watched <= NamesOf(k.queue)
    requires stall.cached.Keys == Watch(k.cache, k.params, k.queue, k.watched)
    requires cc.Recording() && cc.numActiveBits == |cache.view.slots|
    requires Classified(k.cache, k.params, k.queue, cc.hits, cc.invalid, cc.uncached)
    modifies cc
    ensures var late := if check then Late(stall.cached, now, limit) else {};
            cc.Recording() && CanVote(k, late) && cc.View() == CastVote(k, late, shutdown)
  {
    ghost var late := if check then Late(stall.cached, now, limit) else {};
    VoteIs(k, late, cc.hits, cc.invalid, cc.uncached, shutdown);
    WatchedBits(k);
    InvalidateIfDue(cache, cc, stall, now, limit, check);
    cc.SetShouldShutDown(shutdown);
  }

  method InvalidateIfDue(cache: ResponseCache, cc: CacheCoordinator, stall: StallInspector, now: int, limit: int,
                         check: bool)
    requires cache.Valid() && cc.Recording() && cc.numActiveBits == |cache.view.slots|
    requires forall n :: n in stall.cached ==> n in cache.view.bits
    modifies cc
    ensures cc.Recording() && cc.hits == old(cc.hits)
    ensures var late := if check then Late(stall.cached, now, limit) else {};
            && cc.invalid == old(cc.invalid) + BitsFor(cache.view.bits, late)
            && cc.uncached == (old(cc.uncached) || late != {})
  {
    if check {
      InvalidateStalled(cache, cc, stall, now, limit);
    } else {
      assert cc.invalid + BitsFor(cache.view.bits, {}) == cc.invalid;
    }
  }

  // ---------------------------------------------------------------- after the agreement

  lemma {:induction false} EraseNext(c: Lru, kept: map<string, Params>, bs: seq<nat>, i: nat)
    requires i < |bs| && WellFormed(c) && AllLive(c, bs[i..]) && Distinct(bs[i..])
    ensures Live(c, bs[i])
    ensures var c1 := EraseBit(c, bs[i]);
            && WellFormed(c1) && AllLive(c1, bs[i + 1..]) && Distinct(bs[i + 1..])
            && EraseAll(c, bs[i..]) == EraseAll(c1, bs[i + 1..])
            && Restrict(Restrict(kept, c.bits.Keys), c1.bits.Keys) == Restrict(kept, c1.bits.Keys)
  {
    var rest := bs[i..];
    assert rest[0] == bs[i] && rest[1..] == bs[i + 1..];
    assert Live(c, rest[0]);
    OthersLive(c, rest);
    EraseFacts(c, bs[i]);
    RestrictTwice(kept, c.bits.Keys, EraseBit(c, bs[i]).bits.Keys);
  }

  lemma {:induction false} RestrictTwice(params: map<string, Params>, a: set<string>, b: set<string>)
    requires b <= a
    ensures Restrict(Restrict(params, a), b) == Restrict(params, b)
  {
  }

  /** CoordinateCacheAndState: erase the entries of the invalid bits, in increasing order. */
  method EraseInvalid(cache: ResponseCache, invalid: set<nat>)
    requires cache.Valid() && forall b :: b in invalid ==> Live(cache.view, b)
    modifies cache
    ensures cache.Valid() && cache.capacity == old(cache.capacity)
    ensures var c := old(cache.view); var bs := Ascending(invalid, |c.slots|);
            WellFormed(c) && AllLive(c, bs) && Distinct(bs) && cache.view == EraseAll(c, bs)
    ensures cache.kept == Restrict(old(cache.kept), cache.view.bits.Keys)
  {
    var n := cache.NumActiveBits();
    var bs := Ascending(invalid, n);
    assert bs[0..] == bs;
    cache.IsWellFormed();
    RestrictSame(cache.kept, cache.view.bits);
    for i := 0 to |bs|
      invariant cache.Valid() && cache.capacity == old(cache.capacity)
      invariant WellFormed(cache.view) && AllLive(cache.view, bs[i..]) && Distinct(bs[i..])
      invariant EraseAll(old(cache.view), bs) == EraseAll(cache.view, bs[i..])
      invariant cache.kept == Restrict(old(cache.kept), cache.view.bits.Keys)
    {
      EraseNext(cache.view, old(cache.kept), bs, i);
      cache.EraseResponse(bs[i]);
    }
  }

  lemma {:induction false} RequeueNext(c: Lru, params: map<string, Params>, hits: set<nat>, messages: seq<Request>,
                                       i: nat, times: map<string, int>)
    requires i < |messages|
    ensures var q := messages[i]; var hit := StateOf(c, params, q) == Hit;
            && Sent(c, params, messages[..i + 1]) == Sent(c, params, messages[..i]) + (if hit then [] else [q])
            && Kept(c, params, hits, messages[..i + 1])
               == Kept(c, params, hits, messages[..i]) + (if IsUncommonHit(c, params, hits, q) then [q] else [])
            && times - Handled(c, params, hits, messages[..i + 1])
               == if IsUncommonHit(c, params, hits, q) then times - Handled(c, params, hits, messages[..i])
                  else times - Handled(c, params, hits, messages[..i]) - {q.name}
  {
    NextPrefix(messages, i);
    var q := messages[i];
    assert Handled(c, params, hits, messages[..i + 1])
        == Handled(c, params, hits, messages[..i]) + (if IsUncommonHit(c, params, hits, q) then {} else {q.name});
  }

  /** Where one message goes: back to the end of the deque, to the next cycle, or nowhere. */
  method Divert(cache: ResponseCache, hits: set<nat>, stall: StallInspector, message: Request)
    returns (again: seq<Request>, wait: seq<Request>)
    requires cache.Valid()
    modifies stall
    ensures again == if StateOf(cache.view, cache.kept, message) == Hit then [] else [message]
    ensures var uncommon := IsUncommonHit(cache.view, cache.kept, hits, message);
            && wait == (if uncommon then [message] else [])
            && stall.cached == if uncommon then old(stall.cached) else old(stall.cached) - {message.name}
  {
    again, wait := [], [];
    var s := cache.Cached(message);
    cache.IsWellFormed();
    HitHasBit(cache.view, cache.kept, message);
    if s == Hit {
      var bit := cache.PeekCacheBit(message.name);
      if bit !in hits {
        wait := [message];
      } else {
        stall.RemoveCachedTensor(message.name);
      }
    } else {
      stall.RemoveCachedTensor(message.name);
      again := [message];
    }
  }

  /** The second loop of ComputeResponseList rotates the message queue: hits that are not common
      go back to the tensor queue, common hits are dropped, the rest stays for the coordinator. */
  method Requeue(cache: ResponseCache, hits: set<nat>, stall: StallInspector, messages: seq<Request>)
    returns (queue: seq<Request>, replace: seq<Request>)
    requires cache.Valid()
    modifies stall
    ensures queue == Sent(cache.view, cache.kept, messages) && replace == Kept(cache.view, cache.kept, hits, messages)
    ensures stall.cached == old(stall.cached) - Handled(cache.view, cache.kept, hits, messages)
  {
    queue, replace := messages, [];
    ghost var c, kept := cache.view, cache.kept;
    var n := |messages|;
    for i := 0 to n
      invariant queue == messages[i..] + Sent(c, kept, messages[..i])
      invariant replace == Kept(c, kept, hits, messages[..i])
      invariant stall.cached == old(stall.cached) - Handled(c, kept, hits, messages[..i])
    {
      RequeueNext(c, kept, hits, messages, i, old(stall.cached));
      Rotate(messages, i, Sent(c, kept, messages[..i]),
             if StateOf(c, kept, messages[i]) == Hit then [] else [messages[i]]);
      var message := queue[0];
      var again, wait := Divert(cache, hits, stall, message);
      replace := replace + wait;
      queue := queue + again;
      queue := queue[1..];
    }
    assert messages[..n] == messages;
  }

  lemma {:induction false} InvalidAreLive(k: Rank, v: Vote, s: Settled)
    requires SettlesTo(k, v, s)
    ensures forall b :: b in v.invalid ==> Live(k.cache, b)
  {
    assert CanSettle(k, v);
  }

  lemma {:induction false} SettledIs(k: Rank, v: Vote, s: Settled, c: Lru, params: map<string, Params>)
    requires SettlesTo(k, v, s) && WellFormed(k.cache)
    requires var bs := Ascending(v.invalid, |k.cache.slots|);
             AllLive(k.cache, bs) && Distinct(bs) && c == EraseAll(k.cache, bs)
    requires params == Restrict(k.params, c.bits.Keys)
    ensures s == Settled(c, params, Kept(c, params, v.hits, k.queue), Sent(c, params, k.queue),
                         Watch(k.cache, k.params, k.queue, k.watched) - Handled(c, params, v.hits, k.queue))
  {
    assert CanSettle(k, v);
  }

  /** ComputeResponseList from the agreement to the choice of path: rank `k` settles to `s`, as the
      protocol says. */
  method EndAgreement(ghost k: Rank, ghost v: Vote, ghost s: Settled, cache: ResponseCache, hits: set<nat>,
                      invalid: set<nat>, stall: StallInspector, messages: seq<Request>)
    returns (queue: seq<Request>, replace: seq<Request>)
    requires cache.Valid() && k.cache == cache.view && k.params == cache.kept && k.queue == messages
    requires SettlesTo(k, v, s) && hits == v.hits && invalid == v.invalid
    requires stall.cached.Keys == Watch(k.cache, k.params, k.queue, k.watched)
    modifies cache, stall
    ensures cache.Valid() && cache.capacity == old(cache.capacity)
    ensures s == Settled(cache.view, cache.kept, replace, queue, stall.cached.Keys)
    ensures forall x :: x in stall.cached ==> x in old(stall.cached) && stall.cached[x] == old(stall.cached)[x]
  {
    InvalidAreLive(k, v, s);
    EraseInvalid(cache, invalid);
    queue, replace := Requeue(cache, hits, stall, messages);
    SettledIs(k, v, s, cache.view, cache.kept);
  }

  // ---------------------------------------------------------------- responses from the cache

  lemma {:induction false} TouchNext(c: Lru, bs: seq<nat>, i: nat)
    requires WellFormed(c) && AllLive(c, bs) && i < |bs|
    ensures AllLive(c, bs[..i]) && AllLive(c, bs[..i + 1])
    ensures var c1 := TouchAll(c, bs[..i]);
            && Live(c1, bs[i]) && Peek(c1, bs[i]) == Peek(c, bs[i])
            && TouchAll(c, bs[..i + 1]) == Touch(c1, c1.slots[bs[i]].value)
  {
    NextPrefix(bs, i);
    var c1, name := TouchAll(c, bs[..i]), c.slots[bs[i]].value;
    assert Live(c, bs[i]);
    SameEntry(c.order, c1.order, name);
  }

  /** The fast path turns the common hits into responses with get_response, which makes each of
      them the most recently used. */
  method GetHits(cache: ResponseCache, hits: set<nat>) returns (responses: seq<Response>)
    requires cache.Valid() && forall b :: b in hits ==> Live(cache.view, b)
    modifies cache
    ensures cache.Valid() && cache.capacity == old(cache.capacity) && cache.kept == old(cache.kept)
    ensures responses == HitResponses(old(cache.view), hits)
    ensures var c := old(cache.view); var bs := Ascending(hits, |c.slots|);
            WellFormed(c) && AllLive(c, bs) && cache.view == TouchAll(c, bs)
  {
    var n := cache.NumActiveBits();
    var bs := Ascending(hits, n);
    ghost var c := cache.view;
    ghost var all := HitResponses(c, hits);
    cache.IsWellFormed();
    assert AllLive(c, bs);
    responses := GetAll(cache, bs, c, all);
  }

  method GetAll(cache: ResponseCache, bs: seq<nat>, ghost c: Lru, ghost all: seq<Response>)
    returns (responses: seq<Response>)
    requires cache.Valid() && c == cache.view && AllLive(c, bs) && |all| == |bs|
    requires WellFormed(c) && forall i {:trigger Peek(c, bs[i])} :: 0 <= i < |bs| ==> all[i] == Peek(c, bs[i])
    modifies cache
    ensures cache.Valid() && cache.capacity == old(cache.capacity) && cache.kept == old(cache.kept)
    ensures responses == all && cache.view == TouchAll(c, bs)
  {
    responses := [];
    GotNothing(c, bs, all);
    for i := 0 to |bs|
      invariant cache.Valid() && cache.capacity == old(cache.capacity) && cache.kept == old(cache.kept)
      invariant GotUpTo(c, bs, all, i, cache.view, responses)
    {
      responses := GetNext(cache, bs, i, c, all, responses);
    }
    GotAll(c, bs, all, cache.view, responses);
  }

  /** The first `i` hits have been read, and the cache is `view`. */
  ghost predicate GotUpTo(c: Lru, bs: seq<nat>, all: seq<Response>, i: nat, view: Lru, responses: seq<Response>)
    requires WellFormed(c) && i <= |bs| == |all|
  {
    forall d {:trigger AllLive(d, bs[..i])} :: d == c ==>
      AllLive(d, bs[..i]) && view == TouchAll(d, bs[..i]) && responses == all[..i]
  }

  lemma {:induction false} GotNothing(c: Lru, bs: seq<nat>, all: seq<Response>)
    requires WellFormed(c) && |bs| == |all|
    ensures GotUpTo(c, bs, all, 0, c, [])
  {
  }

  lemma {:induction false} GotAll(c: Lru, bs: seq<nat>, all: seq<Response>, view: Lru, responses: seq<Response>)
    requires WellFormed(c) && |bs| == |all| && AllLive(c, bs) && GotUpTo(c, bs, all, |bs|, view, responses)
    ensures view == TouchAll(c, bs) && responses == all
  {
    assert AllLive(c, bs[..|bs|]);
    assert bs[..|bs|] == bs && all[..|bs|] == all;
  }

  lemma {:induction false} GotLive(c: Lru, bs: seq<nat>, all: seq<Response>, i: nat, view: Lru,
                                   responses: seq<Response>)
    requires WellFormed(c) && AllLive(c, bs) && i < |bs| == |all| && all[i] == Peek(c, bs[i])
    requires GotUpTo(c, bs, all, i, view, responses)
    ensures Live(view, bs[i]) && Peek(view, bs[i]) == all[i]
  {
    assert AllLive(c, bs[..i]);
    TouchNext(c, bs, i);
  }

  lemma {:induction false} GotNext(c: Lru, bs: seq<nat>, all: seq<Response>, i: nat, view: Lru,
                                   responses: seq<Response>)
    requires WellFormed(c) && AllLive(c, bs) && i < |bs| == |all| && all[i] == Peek(c, bs[i])
    requires GotUpTo(c, bs, all, i, view, responses)
    ensures Live(view, bs[i]) && GotUpTo(c, bs, all, i + 1, Touch(view, view.slots[bs[i]].value), responses + [all[i]])
  {
    GotLive(c, bs, all, i, view, responses);
    assert AllLive(c, bs[..i]);
    TouchNext(c, bs, i);
    NextPrefix(all, i);
  }

  method GetNext(cache: ResponseCache, bs: seq<nat>, i: nat, ghost c: Lru, ghost all: seq<Response>,
                 responses: seq<Response>)
    returns (more: seq<Response>)
    requires cache.Valid() && WellFormed(c) && AllLive(c, bs) && i < |bs| == |all| && all[i] == Peek(c, bs[i])
    requires GotUpTo(c, bs, all, i, cache.view, responses)
    modifies cache
    ensures cache.Valid() && cache.capacity == old(cache.capacity) && cache.kept == old(cache.kept)
    ensures GotUpTo(c, bs, all, i + 1, cache.view, more)
  {
    GotLive(c, bs, all, i, cache.view, responses);
    GotNext(c, bs, all, i, cache.view, responses);
    var response := cache.GetResponse(bs[i]);
    more := responses + [response];
  }
  /** The slow path uses peek_response, on the coordinator only. */
  method PeekHits(cache: ResponseCache, hits: set<nat>) returns (responses: seq<Response>)
    requires cache.Valid() && forall b :: b in hits ==> Live(cache.view, b)
    ensures responses == HitResponses(cache.view, hits)
  {
    var n := cache.NumActiveBits();
    var bs := Ascending(hits, n);
    ghost var all := HitResponses(cache.view, hits);
    responses := [];
    for i := 0 to |bs|
      invariant responses == all[..i]
    {
      NextPrefix(all, i);
      assert bs[i] in bs;
      var response := cache.PeekResponse(bs[i]);
      responses := responses + [response];
    }
    assert all[..|bs|] == all;
  }

  /** The fast path on one rank: list and cache are what the protocol says. */
  method FastPath(cfg: Config, ghost k: Rank, ghost s: Settled, cache: ResponseCache, table: map<string, Params>,
                  hits: set<nat>)
    returns (list: seq<Response>)
    requires cache.Valid() && s.cache == cache.view && s.params == cache.kept && table == k.table
    requires CanAnswer(k, s, hits) && forall r :: r in HitResponses(s.cache, hits) ==> Fusion.Single(r)
    modifies cache
    ensures cache.Valid() && cache.capacity == old(cache.capacity)
    ensures list == FastList(cfg, k, s, hits) && cache.view == FastCache(s, hits) && cache.kept == s.params
  {
    var responses := GetHits(cache, hits);
    list := Fusion.FuseResponses(cfg.fusion, responses, table);
    cache.UpdateCacheBits();
  }

  // ---------------------------------------------------------------- the coordinator

  /** message_table_ on rank 0. */
  class Coordinator {
    var messageTable: map<string, seq<Request>>

    constructor ()
      ensures messageTable == map[]
    {
      messageTable := map[];
    }

    /** Controller::IncrementTensorCount. */
    method IncrementTensorCount(m: Request, size: nat) returns (ready: bool)
      modifies this
      ensures messageTable == old(messageTable)[m.name := Get(old(messageTable), m.name) + [m]]
      ensures ready <==> |messageTable[m.name]| == size
    {
      if m.name !in messageTable {
        assert [] + [m] == [m];
        messageTable := messageTable[m.name := [m]];
      } else {
        messageTable := messageTable[m.name := messageTable[m.name] + [m]];
      }
      ready := |messageTable[m.name]| == size;
    }

    /** Count the messages of one rank. */
    method CountMessages(messages: seq<Request>, size: nat) returns (ready: seq<string>)
      modifies this
      ensures (messageTable, ready) == Tally(old(messageTable), messages, size)
    {
      ready := [];
      for i := 0 to |messages|
        invariant (messageTable, ready) == Tally(old(messageTable), messages[..i], size)
      {
        NextPrefix(messages, i);
        var reduce := IncrementTensorCount(messages[i], size);
        assert ready + [] == ready;
        if reduce {
          ready := ready + [messages[i].name];
        }
      }
      assert messages[..|messages|] == messages;
    }

    /** Count the messages of all ranks, rank 0 first. */
    method CountAll(lists: seq<seq<Request>>) returns (ready: seq<string>)
      modifies this
      ensures (messageTable, ready) == Tally(old(messageTable), Flatten(lists), |lists|)
    {
      ready := [];
      for r := 0 to |lists|
        invariant (messageTable, ready) == Tally(old(messageTable), Flatten(lists[..r]), |lists|)
      {
        FlattenNext(lists, r);
        TallyConcat(old(messageTable), Flatten(lists[..r]), lists[r], |lists|);
        var more := CountMessages(lists[r], |lists|);
        ready := ready + more;
      }
      assert lists[..|lists|] == lists;
    }

    /** Build the response of every ready tensor; ConstructResponse removes its messages. */
    method ConstructReady(ready: seq<string>) returns (responses: seq<Response>)
      requires CanConstruct(messageTable, ready) && Distinct(ready)
      modifies this
      ensures responses == Constructed(old(messageTable), ready)
      ensures messageTable == Remaining(old(messageTable), ready)
    {
      responses := [];
      assert Remaining(messageTable, []) == messageTable;
      for i := 0 to |ready|
        invariant responses == Constructed(old(messageTable), ready)[..i]
        invariant messageTable == Remaining(old(messageTable), ready[..i])
      {
        StillThere(old(messageTable), ready, i);
        var response := Negotiation.ConstructResponse(ready[i], messageTable[ready[i]]);
        responses := responses + [response];
        messageTable := messageTable - {ready[i]};
      }
      assert ready[..|ready|] == ready;
    }
  }

  lemma {:induction false} TallyConcat(pending: map<string, seq<Request>>, a: seq<Request>, b: seq<Request>, n: nat)
    ensures var t := Tally(pending, a, n); var u := Tally(t.0, b, n);
            Tally(pending, a + b, n) == (u.0, t.1 + u.1)
  {
    var t := Tally(pending, a, n);
    if b == [] {
      assert a + b == a && t.1 + [] == t.1;
    } else {
      var front := b[..|b| - 1];
      TallyConcat(pending, a, front, n);
      assert (a + b)[..|a + b| - 1] == a + front;
      var u := Tally(t.0, front, n);
      ConcatAssociative(t.1, u.1, Tally(t.0, b, n).1[|u.1|..]);
    }
  }

  lemma {:induction false} StillThere(pending: map<string, seq<Request>>, ready: seq<string>, i: nat)
    requires CanConstruct(pending, ready) && Distinct(ready) && i < |ready|
    ensures var rest := Remaining(pending, ready[..i]);
            && ready[i] in rest && rest[ready[i]] == pending[ready[i]]
            && Remaining(pending, ready[..i + 1]) == rest - {ready[i]}
    ensures Constructed(pending, ready)[..i + 1]
            == Constructed(pending, ready)[..i]
               + [Negotiation.Respond(ready[i], Negotiation.InRankOrder(pending[ready[i]]))]
  {
    NextPrefix(ready, i);
  }

  /** The messages received by the coordinator are the protocol's, rank by rank. */
  lemma {:induction false} FlattenIsSentAll(ss: seq<Settled>, lists: seq<seq<Request>>)
    requires |lists| == |ss| && forall r :: 0 <= r < |ss| ==> lists[r] == ss[r].sent
    ensures Flatten(lists) == SentAll(ss)
  {
    if ss != [] {
      var n := |ss| - 1;
      FlattenIsSentAll(ss[..n], lists[..n]);
      FlattenNext(lists, n);
      assert lists[..n + 1] == lists;
    }
  }

  /** The slow path on the coordinator: common hits first, then the tensors that every rank has
      now asked for, fused together. */
  method SlowPath(cfg: Config, cache: ResponseCache, table: map<string, Params>, hits: set<nat>,
                  coordinator: Coordinator, lists: seq<seq<Request>>)
    returns (list: seq<Response>)
    requires cache.Valid()
    requires CanAssemble(cache.view, table, hits, coordinator.messageTable, Flatten(lists), |lists|)
    modifies coordinator
    ensures list == Assembled(cfg, cache.view, table, hits, old(coordinator.messageTable), Flatten(lists), |lists|)
    ensures coordinator.messageTable == StillPending(old(coordinator.messageTable), Flatten(lists), |lists|)
  {
    Answers.ReadyOnce(coordinator.messageTable, Flatten(lists), |lists|);
    var ready := coordinator.CountAll(lists);
    var responses := PeekHits(cache, hits);
    var more := coordinator.ConstructReady(ready);
    list := Fusion.FuseResponses(cfg.fusion, responses + more, table);
  }

  /** The end of the slow path on every rank: the cache is updated with the coordinator's list. */
  method UpdateCache(cfg: Config, ghost k: Rank, ghost s: Settled, cache: ResponseCache, table: map<string, Params>,
                     list: seq<Response>, size: nat)
    requires cache.Valid() && s.cache == cache.view && s.params == cache.kept && table == k.table
    requires cache.capacity == cfg.capacity && CanUpdate(cfg, k, s, list, Insertions(list, size))
    requires forall i :: 0 <= i < |list| ==> list[i].names != []
    modifies cache
    ensures cache.Valid() && cache.capacity == old(cache.capacity)
    ensures cache.view == UpdatedCache(cfg, s, Insertions(list, size))
    ensures cache.kept == UpdatedParams(cfg, k, s, list, Insertions(list, size))
    ensures 0 < cfg.capacity && |NameSet(Fusion.SplitAll(list))| <= cfg.capacity ==>
              forall s :: s in Fusion.SplitAll(list) ==>
                s.rtype.Run? && s.rtype.op != Broadcast && |s.devices| == size ==> NameOf(s) in cache.view.bits
  {
    if 0 < cfg.capacity {
      var ok := cache.InsertAll(list, table, size);
      assert ok;
    }
    cache.IsWellFormed();
    RenumberFacts(cache.view);
    cache.UpdateCacheBits();
  }
}
