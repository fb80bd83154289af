/** The negotiation protocol as a state machine over any number of ranks. A step is either
    one rank enqueueing a tensor or one cycle of the background loop on all ranks
    (Controller::ComputeResponseList followed by PerformOperation). `Cycle` is `None` where
    the code would fail an assertion, throw, or wait for a collective that other ranks do
    not enter. */
module Protocol {
  import opened Messages
  import opened Negotiation
  import opened LruCache
  import opened Votes
  import opened Seqs
  import Fusion

  datatype Config = Config(capacity: nat, fusion: Fusion.Config)

  /** One rank: tensor_table_, message_queue_, the cache replica with the local parameters
      of its entries, and the names under stall inspection (cached_tensor_table). */
  datatype Rank = Rank(
    table: map<string, Params>,
    queue: seq<Request>,
    cache: Lru,
    params: map<string, Params>,
    watched: set<string>)

  /** All ranks and the coordinator's message_table_. */
  datatype Cluster = Cluster(ranks: seq<Rank>, pending: map<string, seq<Request>>)

  /** What the environment decides in a cycle: on each rank, which names have been waiting
      longer than the stall warning time when the stall check runs, and whether the rank
      wants to shut down. */
  datatype CycleInput = CycleInput(late: seq<set<string>>, shutdown: seq<bool>)

  datatype Outcome = Outcome(next: Cluster, lists: seq<ResponseList>)

  // ---------------------------------------------------------------- requests and the cache

  /** ResponseCache::cached for a request. */
  function StateOf(c: Lru, params: map<string, Params>, q: Request): CacheState {
    if !Has(c.order, q.name) then Miss
    else
      var e := Entry(c.order, q.name);
      if && q.name in params && params[q.name] == ParamsOf(q)
         && e.prescale == q.prescale && e.postscale == q.postscale
         && e.rtype == Run(q.op)
      then Hit else Invalid
  }

  /** ResponseCache::cached for a response about to be inserted. */
  function StateOfResponse(c: Lru, params: map<string, Params>, r: Response, p: Params): CacheState {
    if !Has(c.order, NameOf(r)) then Miss
    else
      var e := Entry(c.order, NameOf(r));
      if && NameOf(r) in params && params[NameOf(r)] == p
         && e.prescale == r.prescale && e.postscale == r.postscale
         && e.rtype == r.rtype
      then Hit else Invalid
  }

  function NamesOf(queue: seq<Request>): set<string> {
    set q | q in queue :: q.name
  }

  function Restrict(params: map<string, Params>, names: set<string>): map<string, Params> {
    map n | n in params && n in names :: params[n]
  }

  // ---------------------------------------------------------------- before the agreement

  /** cached_tensor_table after the queue has been classified. */
  function Watch(c: Lru, params: map<string, Params>, queue: seq<Request>, watched: set<string>): set<string> {
    if queue == [] then watched
    else
      var q := queue[|queue| - 1];
      var w := Watch(c, params, queue[..|queue| - 1], watched);
      if StateOf(c, params, q) == Hit then w + {q.name} else w - {q.name}
  }

  /** The names the stall check invalidates. */
  function Stalled(k: Rank, late: set<string>): set<string> {
    Watch(k.cache, k.params, k.queue, k.watched) * late
  }

  predicate CanVote(k: Rank, late: set<string>) {
    forall n :: n in Stalled(k, late) ==> n in k.cache.bits
  }

  function BitsOf(k: Rank, state: CacheState): set<nat> {
    set q | q in k.queue && StateOf(k.cache, k.params, q) == state && q.name in k.cache.bits :: k.cache.bits[q.name]
  }

  /** The bits of those names that are cached. */
  function BitsFor(bits: map<string, nat>, names: set<string>): set<nat> {
    set n | n in names && n in bits :: bits[n]
  }

  function CastVote(k: Rank, late: set<string>, shutdown: bool): Vote
    requires CanVote(k, late)
  {
    var stalled := Stalled(k, late);
    var invalid := BitsOf(k, Invalid) + BitsFor(k.cache.bits, stalled);
    Vote(BitsOf(k, Hit), invalid,
         (exists q :: q in k.queue && StateOf(k.cache, k.params, q) != Hit) || stalled != {},
         invalid != {},
         shutdown)
  }

  // ---------------------------------------------------------------- after the agreement

  /** The members of `s` below `hi`, in increasing order. */
  function Ascending(s: set<nat>, hi: nat): (bs: seq<nat>)
    ensures forall b :: b in bs <==> b in s && b < hi
    ensures forall i :: 0 <= i < |bs| ==> bs[i] < hi
    ensures forall i, j :: 0 <= i < j < |bs| ==> bs[i] < bs[j]
  {
    if hi == 0 then [] else Ascending(s, hi - 1) + if hi - 1 in s then [hi - 1] else []
  }

  predicate AllLive(c: Lru, bs: seq<nat>) {
    forall i :: 0 <= i < |bs| ==> Live(c, bs[i])
  }

  ghost predicate Distinct<T>(xs: seq<T>) {
    forall i, j :: 0 <= i < j < |xs| ==> xs[i] != xs[j]
  }

  /** Erase the entries of the given bits, in turn. */
  ghost function EraseAll(c: Lru, bs: seq<nat>): (c': Lru)
    requires WellFormed(c) && AllLive(c, bs) && Distinct(bs)
    decreases |bs|
  {
    if bs == [] then c
    else
      EraseFacts(c, bs[0]);
      OthersLive(c, bs);
      EraseAll(EraseBit(c, bs[0]), bs[1..])
  }

  lemma {:induction false} EraseAllBits(c: Lru, bs: seq<nat>)
    requires WellFormed(c) && AllLive(c, bs) && Distinct(bs)
    ensures var c' := EraseAll(c, bs);
            && WellFormed(c')
            && |c'.order| <= |c.order|
            && c'.outdated == (c.outdated || bs != [])
            && (forall n :: n in c'.bits <==> n in c.bits && c.bits[n] !in bs)
            && (forall n :: n in c'.bits ==> c'.bits[n] == c.bits[n])
    decreases |bs|
  {
    if bs != [] {
      var c1 := EraseBit(c, bs[0]);
      EraseFacts(c, bs[0]);
      OthersLive(c, bs);
      EraseAllBits(c1, bs[1..]);
      ErasedOrLater(c.bits, c1.bits, EraseAll(c1, bs[1..]).bits, bs);
    }
  }

  lemma {:induction false} ErasedOrLater(b: map<string, nat>, b1: map<string, nat>, b2: map<string, nat>, bs: seq<nat>)
    requires bs != []
    requires forall n :: n in b1 <==> n in b && b[n] != bs[0]
    requires forall n :: n in b1 ==> b1[n] == b[n]
    requires forall n :: n in b2 <==> n in b1 && b1[n] !in bs[1..]
    ensures forall n :: n in b2 <==> n in b && b[n] !in bs
  {
    assert forall x :: x in bs <==> x == bs[0] || x in bs[1..] by { assert bs == [bs[0]] + bs[1..]; }
  }

  lemma {:induction false} EraseAllOrder(c: Lru, bs: seq<nat>)
    requires WellFormed(c) && AllLive(c, bs) && Distinct(bs)
    ensures var c' := EraseAll(c, bs);
            forall r :: r in c'.order <==> r in c.order && NameOf(r) in c'.bits
    decreases |bs|
  {
    if bs == [] {
      forall r | r in c.order ensures NameOf(r) in c.bits { assert NameOf(r) in NameSet(c.order); }
    } else {
      EraseFacts(c, bs[0]);
      OthersLive(c, bs);
      EraseAllOrder(EraseBit(c, bs[0]), bs[1..]);
      EraseAllBits(EraseBit(c, bs[0]), bs[1..]);
    }
  }

  lemma {:induction false} OthersLive(c: Lru, bs: seq<nat>)
    requires WellFormed(c) && bs != [] && AllLive(c, bs) && Distinct(bs)
    ensures AllLive(EraseBit(c, bs[0]), bs[1..])
  {
    var c1 := EraseBit(c, bs[0]);
    EraseFacts(c, bs[0]);
    HasIffNamed(c1.order);
    forall i | 0 <= i < |bs[1..]| ensures Live(c1, bs[1..][i]) {
      assert bs[1..][i] == bs[i + 1] && Live(c, bs[i + 1]);
      assert c.slots[bs[0]] != c.slots[bs[i + 1]];
      HasIffNamed(c.order);
    }
  }

  /** A rank between the agreement and the responses: cache without the invalid entries,
      messages put back for the next cycle, messages for the coordinator. */
  datatype Settled = Settled(
    cache: Lru,
    params: map<string, Params>,
    kept: seq<Request>,
    sent: seq<Request>,
    watched: set<string>)

  ghost predicate CanSettle(k: Rank, v: Vote) {
    && WellFormed(k.cache)
    && forall b :: b in v.invalid ==> Live(k.cache, b)
  }

  /** Messages for the coordinator: those that are not (or no longer) hits. */
  function Sent(c: Lru, params: map<string, Params>, queue: seq<Request>): seq<Request> {
    if queue == [] then []
    else
      var q := queue[|queue| - 1];
      Sent(c, params, queue[..|queue| - 1]) + if StateOf(c, params, q) == Hit then [] else [q]
  }

  predicate IsUncommonHit(c: Lru, params: map<string, Params>, hits: set<nat>, q: Request) {
    StateOf(c, params, q) == Hit && !(q.name in c.bits && c.bits[q.name] in hits)
  }

  /** Messages for the next cycle: hits that are not hits everywhere. */
  function Kept(c: Lru, params: map<string, Params>, hits: set<nat>, queue: seq<Request>): seq<Request> {
    if queue == [] then []
    else
      var q := queue[|queue| - 1];
      Kept(c, params, hits, queue[..|queue| - 1]) + if IsUncommonHit(c, params, hits, q) then [q] else []
  }

  /** Names whose message is answered or negotiated in this cycle. */
  function Handled(c: Lru, params: map<string, Params>, hits: set<nat>, queue: seq<Request>): set<string> {
    set q | q in queue && !IsUncommonHit(c, params, hits, q) :: q.name
  }

  ghost function Settle(k: Rank, v: Vote): Settled
    requires CanSettle(k, v)
  {
    var bs := Ascending(v.invalid, |k.cache.slots|);
    var c := EraseAll(k.cache, bs);
    var params := Restrict(k.params, c.bits.Keys);
    var kept := Kept(c, params, v.hits, k.queue);
    Settled(c, params, kept, Sent(c, params, k.queue),
            Watch(k.cache, k.params, k.queue, k.watched) - Handled(c, params, v.hits, k.queue))
  }

  /** The rank settles to `s`. The quantifier over values equal to `k` says no more than its body
      would for `k` alone. It keeps the predicate one fact: the verifier does not unfold it, nor
      prove it conjunct by conjunct, before `CanSettle(k, v)` is mentioned. Predicates of this form in
      other modules have it for the same reason. */
  ghost predicate SettlesTo(k: Rank, v: Vote, s: Settled) {
    forall c {:trigger CanSettle(c, v)} :: c == k ==> CanSettle(c, v) && s == Settle(c, v)
  }

  datatype Branch = Early | Fast | Slow

  /** Which way a rank goes on: nothing to do, everything answered from the cache, or
      negotiation through the coordinator. */
  function BranchOf(cfg: Config, v: Vote): Branch {
    if cfg.capacity > 0 && !v.uncached then (if v.hits == {} then Early else Fast) else Slow
  }

  // ---------------------------------------------------------------- responses

  /** The cached responses of the common hits, in bit order. */
  function HitResponses(c: Lru, hits: set<nat>): seq<Response>
    requires forall b :: b in hits ==> Live(c, b)
  {
    var bs := Ascending(hits, |c.slots|);
    seq(|bs|, i requires 0 <= i < |bs| => Peek(c, bs[i]))
  }

  /** ResponseCache::get_response for each bit in turn: every one moves to the front. */
  ghost function TouchAll(c: Lru, bs: seq<nat>): (c': Lru)
    requires WellFormed(c) && AllLive(c, bs)
    ensures WellFormed(c') && c' == c.(order := c'.order)
    ensures forall r :: r in c'.order <==> r in c.order
    decreases |bs|
  {
    if bs == [] then c
    else
      var c1 := TouchAll(c, bs[..|bs| - 1]);
      var name := c.slots[bs[|bs| - 1]].value;
      assert Live(c, bs[|bs| - 1]);
      assert name in c1.bits;
      TouchFacts(c1, name);
      Touch(c1, name)
  }

  function Get(pending: map<string, seq<Request>>, name: string): seq<Request> {
    if name in pending then pending[name] else []
  }

  /** Controller::IncrementTensorCount over a sequence of messages: the new message table
      and the names that became complete, in order. */
  function Tally(pending: map<string, seq<Request>>, msgs: seq<Request>, n: nat)
      : (map<string, seq<Request>>, seq<string>)
  {
    if msgs == [] then (pending, [])
    else
      var m := msgs[|msgs| - 1];
      var t := Tally(pending, msgs[..|msgs| - 1], n);
      var requests := Get(t.0, m.name) + [m];
      (t.0[m.name := requests], t.1 + if |requests| == n then [m.name] else [])
  }

  /** The message table once the ready names have been constructed and erased. */
  function Remaining(pending: map<string, seq<Request>>, ready: seq<string>): map<string, seq<Request>> {
    map n | n in pending && n !in ready :: pending[n]
  }

  ghost predicate CanConstruct(pending: map<string, seq<Request>>, ready: seq<string>) {
    forall i :: 0 <= i < |ready| ==> ready[i] in pending && pending[ready[i]] != [] && OnePerRank(pending[ready[i]])
  }

  ghost function Constructed(pending: map<string, seq<Request>>, ready: seq<string>): seq<Response>
    requires CanConstruct(pending, ready)
  {
    seq(|ready|, i requires 0 <= i < |ready| => Respond(ready[i], InRankOrder(pending[ready[i]])))
  }

  predicate AllIn(rs: seq<Response>, table: map<string, Params>) {
    forall r :: r in rs ==> NameOf(r) in table
  }

  /** FuseResponses on one rank, with that rank's tensor table. */
  ghost function FuseOn(cfg: Config, table: map<string, Params>, rs: seq<Response>): seq<Response>
    requires AllIn(rs, table)
  {
    Fusion.Fuse(cfg.fusion.threshold, Fusion.CostsOf(cfg.fusion, table, rs), rs)
  }

  // ---------------------------------------------------------------- cache updates

  predicate Cacheable(r: Response, n: nat) {
    && r.rtype.Run? && r.rtype.op != Broadcast
    && |r.devices| == n
  }

  /** The single responses that a response list adds to the cache, in order. */
  function Insertions(rs: seq<Response>, n: nat): seq<Response> {
    if rs == [] then []
    else (if Cacheable(rs[0], n) then Fusion.Split(rs[0]) else []) + Insertions(rs[1..], n)
  }

  /** The effect of inserting responses on the shared part of the cache. */
  ghost function PutAll(c: Lru, capacity: nat, rs: seq<Response>): (c': Lru)
    requires WellFormed(c) && 0 < capacity && |c.order| <= capacity
    ensures WellFormed(c') && |c'.order| <= capacity && c'.outdated == c.outdated
    decreases |rs|
  {
    if rs == [] then c
    else
      PutFacts(c, capacity, rs[0]);
      PutAll(Put(c, capacity, rs[0]), capacity, rs[1..])
  }

  /** The effect on the local parameters; `None` when put_ would overwrite an entry whose
      parameters differ, or a tensor is not in the tensor table. */
  ghost function PutParams(c: Lru, params: map<string, Params>, capacity: nat, table: map<string, Params>,
                           rs: seq<Response>)
      : Option<map<string, Params>>
    requires WellFormed(c) && 0 < capacity && |c.order| <= capacity
    decreases |rs|
  {
    if rs == [] then Some(params)
    else
      var name := NameOf(rs[0]);
      if name !in table || StateOfResponse(c, params, rs[0], table[name]) == Invalid then None
      else
        PutFacts(c, capacity, rs[0]);
        var c1 := Put(c, capacity, rs[0]);
        var params1 := if name in c.bits then params else params[name := table[name]];
        PutParams(c1, Restrict(params1, c1.bits.Keys), capacity, table, rs[1..])
  }

  // ---------------------------------------------------------------- performing operations

  /** GetTensorEntriesFromResponse finds every name, once. */
  ghost predicate CanPerform(table: map<string, Params>, rs: seq<Response>) {
    && Distinct(Fusion.ListNames(rs))
    && forall n :: n in Fusion.ListNames(rs) ==> n in table
  }

  function Performed(table: map<string, Params>, rs: seq<Response>): map<string, Params> {
    table - set n | n in Fusion.ListNames(rs)
  }

  // ---------------------------------------------------------------- the cycle

  ghost predicate Prepared(cfg: Config, g: Cluster, input: CycleInput) {
    && |input.late| == |input.shutdown| == |g.ranks|
    && forall r :: 0 <= r < |g.ranks| ==>
         && WellFormed(g.ranks[r].cache)
         && |g.ranks[r].cache.order| <= cfg.capacity
         && |g.ranks[r].cache.slots| == |g.ranks[0].cache.slots|
         && CanVote(g.ranks[r], input.late[r])
  }

  ghost function VotesOf(cfg: Config, g: Cluster, input: CycleInput): (votes: seq<Vote>)
    requires Prepared(cfg, g, input)
    ensures |votes| == |g.ranks|
  {
    seq(|g.ranks|, r requires 0 <= r < |g.ranks| => CastVote(g.ranks[r], input.late[r], input.shutdown[r]))
  }

  /** All ranks agree on which collectives come next. */
  ghost predicate Matched(cfg: Config, g: Cluster, votes: seq<Vote>)
    requires |votes| == |g.ranks| > 0
  {
    forall r :: 0 <= r < |g.ranks| ==>
      CanSettle(g.ranks[r], Synced(votes, r)) && BranchOf(cfg, Synced(votes, r)) == BranchOf(cfg, Synced(votes, 0))
  }

  ghost function SettleAll(cfg: Config, g: Cluster, votes: seq<Vote>): (ss: seq<Settled>)
    requires |votes| == |g.ranks| > 0 && Matched(cfg, g, votes)
    ensures |ss| == |g.ranks|
  {
    seq(|g.ranks|, r requires 0 <= r < |g.ranks| => Settle(g.ranks[r], Synced(votes, r)))
  }

  /** The messages for the coordinator, rank by rank. */
  function SentAll(ss: seq<Settled>): seq<Request> {
    if ss == [] then [] else SentAll(ss[..|ss| - 1]) + ss[|ss| - 1].sent
  }

  /** The rank after a cycle that answered `rs` and left the cache in the given state. */
  function Finish(k: Rank, s: Settled, cache: Lru, params: map<string, Params>, rs: seq<Response>): Rank {
    Rank(Performed(k.table, rs), s.kept, cache, params, s.watched)
  }

  ghost function Cycle(cfg: Config, g: Cluster, input: CycleInput): Option<Outcome>
    requires |g.ranks| > 0
  {
    if !Prepared(cfg, g, input) then None
    else
      var votes := VotesOf(cfg, g, input);
      if !Matched(cfg, g, votes) then None
      else
        var ss := SettleAll(cfg, g, votes);
        match BranchOf(cfg, Synced(votes, 0))
        case Early => Some(EarlyCycle(g, votes, ss))
        case Fast => FastCycle(cfg, g, votes, ss)
        case Slow => SlowCycle(cfg, g, input, votes, ss)
  }

  ghost function EarlyCycle(g: Cluster, votes: seq<Vote>, ss: seq<Settled>): Outcome
    requires |votes| == |ss| == |g.ranks|
  {
    Outcome(
      Cluster(
        seq(|ss|, r requires 0 <= r < |ss| => Finish(g.ranks[r], ss[r], ss[r].cache, ss[r].params, [])),
        g.pending),
      seq(|ss|, r requires 0 <= r < |ss| => ResponseList([], Synced(votes, r).shutdown)))
  }

  ghost predicate CanAnswer(k: Rank, s: Settled, hits: set<nat>) {
    && WellFormed(s.cache)
    && (forall b :: b in hits ==> Live(s.cache, b))
    && AllIn(HitResponses(s.cache, hits), k.table)
  }

  /** The list a rank computes alone from its own cache and tensor table. */
  ghost function FastList(cfg: Config, k: Rank, s: Settled, hits: set<nat>): seq<Response>
    requires CanAnswer(k, s, hits)
  {
    FuseOn(cfg, k.table, HitResponses(s.cache, hits))
  }

  ghost predicate FastOk(cfg: Config, g: Cluster, votes: seq<Vote>, ss: seq<Settled>)
    requires |votes| == |ss| == |g.ranks|
  {
    forall r :: 0 <= r < |ss| ==>
      && CanAnswer(g.ranks[r], ss[r], Synced(votes, r).hits)
      && CanPerform(g.ranks[r].table, FastList(cfg, g.ranks[r], ss[r], Synced(votes, r).hits))
  }

  ghost function FastCache(s: Settled, hits: set<nat>): Lru
    requires WellFormed(s.cache) && forall b :: b in hits ==> Live(s.cache, b)
  {
    Renumber(TouchAll(s.cache, Ascending(hits, |s.cache.slots|)))
  }

  ghost function FastCycle(cfg: Config, g: Cluster, votes: seq<Vote>, ss: seq<Settled>): Option<Outcome>
    requires |votes| == |ss| == |g.ranks|
  {
    if !FastOk(cfg, g, votes, ss) then None
    else
      Some(Outcome(
        Cluster(
          seq(|ss|, r requires 0 <= r < |ss| =>
            var hits := Synced(votes, r).hits;
            Finish(g.ranks[r], ss[r], FastCache(ss[r], hits), ss[r].params, FastList(cfg, g.ranks[r], ss[r], hits))),
          g.pending),
        seq(|ss|, r requires 0 <= r < |ss| =>
          ResponseList(FastList(cfg, g.ranks[r], ss[r], Synced(votes, r).hits), Synced(votes, r).shutdown))))
  }

  /** What the coordinator answers on the slow path, before fusing: common hits, then the
      tensors that are now complete. */
  ghost predicate CanCoordinate(g: Cluster, votes: seq<Vote>, ss: seq<Settled>)
    requires |votes| == |ss| == |g.ranks| > 0
  {
    var t := Tally(g.pending, SentAll(ss), |ss|);
    && WellFormed(ss[0].cache)
    && (forall b :: b in Synced(votes, 0).hits ==> Live(ss[0].cache, b))
    && CanConstruct(t.0, t.1)
    && AllIn(HitResponses(ss[0].cache, Synced(votes, 0).hits) + Constructed(t.0, t.1), g.ranks[0].table)
  }

  ghost function Singles(g: Cluster, votes: seq<Vote>, ss: seq<Settled>): seq<Response>
    requires |votes| == |ss| == |g.ranks| > 0 && CanCoordinate(g, votes, ss)
  {
    var t := Tally(g.pending, SentAll(ss), |ss|);
    HitResponses(ss[0].cache, Synced(votes, 0).hits) + Constructed(t.0, t.1)
  }

  /** The rank can perform the operations of the coordinator's list and cache its
      responses `ins`. */
  ghost predicate CanUpdate(cfg: Config, k: Rank, s: Settled, list: seq<Response>, ins: seq<Response>) {
    && CanPerform(k.table, list)
    && WellFormed(s.cache) && |s.cache.order| <= cfg.capacity
    && (cfg.capacity > 0 ==> PutParams(s.cache, s.params, cfg.capacity, k.table, ins).Some?)
  }

  ghost function UpdatedCache(cfg: Config, s: Settled, ins: seq<Response>): Lru
    requires WellFormed(s.cache) && |s.cache.order| <= cfg.capacity
  {
    Renumber(if cfg.capacity > 0 then PutAll(s.cache, cfg.capacity, ins) else s.cache)
  }

  ghost function UpdatedParams(cfg: Config, k: Rank, s: Settled, list: seq<Response>, ins: seq<Response>)
      : map<string, Params>
    requires CanUpdate(cfg, k, s, list, ins)
  {
    if cfg.capacity > 0 then PutParams(s.cache, s.params, cfg.capacity, k.table, ins).value else s.params
  }

  /** The ranks once everybody has performed and cached the coordinator's list. */
  ghost function SlowRanks(cfg: Config, g: Cluster, ss: seq<Settled>, list: seq<Response>, ins: seq<Response>)
      : (ks: seq<Rank>)
    requires |ss| == |g.ranks| && forall r :: 0 <= r < |ss| ==> CanUpdate(cfg, g.ranks[r], ss[r], list, ins)
    ensures |ks| == |ss|
  {
    seq(|ss|, r requires 0 <= r < |ss| =>
      assert CanUpdate(cfg, g.ranks[r], ss[r], list, ins);
      Finish(g.ranks[r], ss[r], UpdatedCache(cfg, ss[r], ins), UpdatedParams(cfg, g.ranks[r], ss[r], list, ins), list))
  }

  ghost function SlowCycle(cfg: Config, g: Cluster, input: CycleInput, votes: seq<Vote>, ss: seq<Settled>)
      : Option<Outcome>
    requires |votes| == |ss| == |g.ranks| == |input.shutdown| > 0
  {
    if !CanCoordinate(g, votes, ss) then None
    else
      var list := FuseOn(cfg, g.ranks[0].table, Singles(g, votes, ss));
      var ins := Insertions(list, |ss|);
      if exists r :: 0 <= r < |ss| && !CanUpdate(cfg, g.ranks[r], ss[r], list, ins) then None
      else
        var t := Tally(g.pending, SentAll(ss), |ss|);
        var shutdown := exists r :: 0 <= r < |ss| && input.shutdown[r];
        Some(Outcome(
          Cluster(SlowRanks(cfg, g, ss, list, ins), Remaining(t.0, t.1)),
          seq(|ss|, r requires 0 <= r < |ss| => ResponseList(list, shutdown))))
  }

  // ---------------------------------------------------------------- enqueueing

  /** TensorQueue::AddToTensorQueue: a name that is already in the table is refused. */
  function Enqueue(g: Cluster, r: nat, q: Request): Cluster
    requires r < |g.ranks|
  {
    var k := g.ranks[r];
    if q.name in k.table then g
    else g.(ranks := g.ranks[r := k.(table := k.table[q.name := ParamsOf(q)], queue := k.queue + [q])])
  }

  function NewRank(): Rank { Rank(map[], [], EMPTY, map[], {}) }

  function Start(n: nat): Cluster { Cluster(seq(n, _ => NewRank()), map[]) }
}
