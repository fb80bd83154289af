/** How long tensors wait over whole runs of the program: the time a rank's stall inspector has for a
    name is the clock of the first pass since the tensor was submitted, and that decides when the
    name's cache entry is given up. */
module WaitingTimes {
  import opened Messages
  import opened LruCache
  import opened Protocol
  import opened ProtocolSpec
  import opened ProtocolCycle
  import opened ProtocolRuns
  import opened Controller
  import opened RunLoop
  import opened StallClock

  /** A rank submits a tensor, or all ranks make a pass. */
  datatype Event = Submit(rank: nat, q: Request) | Pass(envs: seq<Env>)

  predicate ValidEvent(n: nat, e: Event) {
    match e
    case Submit(rank, q) => rank < n && q.rank == rank
    case Pass(envs) => |envs| == n
  }

  /** The events are those of a run with these steps. */
  ghost predicate Recorded(n: nat, events: seq<Event>, steps: seq<Step>) {
    && n > 0 && |events| == |steps| && ValidRun(n, steps)
    && forall i :: 0 <= i < |events| ==> ValidEvent(n, events[i])
  }

  /** The clock of rank `r` in the first pass since it last submitted `x`, if there has been one. A
      submission that is refused, because `x` is still outstanding, does not count. */
  ghost function FirstPass(n: nat, events: seq<Event>, steps: seq<Step>, r: nat, x: string): Option<int>
    requires Recorded(n, events, steps) && r < n
  {
    if events == [] then None
    else
      var i := |events| - 1;
      var first := FirstPass(n, events[..i], steps[..i], r, x);
      match events[i]
      case Submit(rank, q) => if rank == r && q.name == x && x !in SpecExec(n, steps[..i])[r] then None else first
      case Pass(envs) => if first.Some? then first else Some(envs[r].now)
  }

  lemma {:induction false} FirstPassNext(n: nat, events: seq<Event>, steps: seq<Step>, e: Event, step: Step, r: nat,
                                         x: string)
    requires Recorded(n, events, steps) && ValidEvent(n, e) && ValidStep(n, step) && r < n
    ensures Recorded(n, events + [e], steps + [step])
    ensures var first := FirstPass(n, events, steps, r, x);
            FirstPass(n, events + [e], steps + [step], r, x)
            == match e
               case Submit(rank, q) => if rank == r && q.name == x && x !in SpecExec(n, steps)[r] then None else first
               case Pass(envs) => if first.Some? then first else Some(envs[r].now)
  {
    assert (events + [e])[..|events|] == events && (steps + [step])[..|steps|] == steps;
  }

  /** Rank `r` is `k`, and `times` has for exactly those of its queued messages that a pass has seen
      the clock of the first such pass. */
  ghost predicate ClockIs(n: nat, events: seq<Event>, steps: seq<Step>, r: nat, k: Rank, times: map<string, int>)
    requires Recorded(n, events, steps) && r < n
  {
    && times.Keys == k.watched
    && forall q :: q in k.queue ==>
         var first := FirstPass(n, events, steps, r, q.name);
         (q.name in times <==> first.Some?) && (first.Some? ==> times[q.name] == first.value)
  }

  lemma {:induction false} ClockAfterSubmit(cfg: Config, n: nat, events: seq<Event>, steps: seq<Step>, g: Cluster,
                                            rank: nat, q: Request, r: nat, times: map<string, int>)
    requires Recorded(n, events, steps) && r < n && rank < n && q.rank == rank
    requires Rel(cfg, g, SpecExec(n, steps)) && |g.ranks| == n && ClockIs(n, events, steps, r, g.ranks[r], times)
    ensures Recorded(n, events + [Submit(rank, q)], steps + [Add(rank, q)])
    ensures ClockIs(n, events + [Submit(rank, q)], steps + [Add(rank, q)], r, Enqueue(g, rank, q).ranks[r], times)
  {
    var e, step := Submit(rank, q), Add(rank, q);
    var o, k' := SpecExec(n, steps), Enqueue(g, rank, q).ranks[r];
    FirstPassNext(n, events, steps, e, step, r, q.name);
    assert TableMatches(g.ranks[r], o[r]) && QueueMatches(g.ranks[r], o[r]);
    forall p | p in k'.queue
      ensures var first := FirstPass(n, events + [e], steps + [step], r, p.name);
              (p.name in times <==> first.Some?) && (first.Some? ==> times[p.name] == first.value)
    {
      FirstPassNext(n, events, steps, e, step, r, p.name);
      if p !in g.ranks[r].queue {
        assert p == q && rank == r && q.name !in o[r];
        assert q.name !in NamesOf(g.ranks[r].queue);
      }
    }
  }

  lemma {:induction false} ClockAfterPass(cfg: Config, n: nat, events: seq<Event>, steps: seq<Step>, g: Cluster,
                                          input: CycleInput, envs: seq<Env>, next: Cluster, r: nat,
                                          times: map<string, int>, times': map<string, int>)
    requires Recorded(n, events, steps) && r < n && |envs| == |input.late| == |input.shutdown| == n
    requires Rel(cfg, g, SpecExec(n, steps)) && |g.ranks| == n && ClockIs(n, events, steps, r, g.ranks[r], times)
    requires Cycle(cfg, g, input).Some? && next == Cycle(cfg, g, input).value.next && |next.ranks| == n
    requires times'.Keys == next.ranks[r].watched && Aged(times, envs[r].now, times')
    ensures Recorded(n, events + [Pass(envs)], steps + [Tick(input)])
    ensures ClockIs(n, events + [Pass(envs)], steps + [Tick(input)], r, next.ranks[r], times')
  {
    var e, step := Pass(envs), Tick(input);
    WatchedAreQueued(cfg, g, SpecExec(n, steps), input, r);
    FirstPassNext(n, events, steps, e, step, r, "");
    forall p | p in next.ranks[r].queue
      ensures var first := FirstPass(n, events + [e], steps + [step], r, p.name);
              p.name in times' && first.Some? && times'[p.name] == first.value
    {
      FirstPassNext(n, events, steps, e, step, r, p.name);
      assert p in g.ranks[r].queue;
    }
  }

  /** `late` has exactly the names that are hits in the queue of rank `k` and have waited for more than
      the limit since the first pass that saw them, when the stall check is due. */
  ghost predicate LateIs(n: nat, events: seq<Event>, steps: seq<Step>, r: nat, k: Rank, env: Env, late: set<string>)
    requires Recorded(n, events, steps) && r < n
  {
    forall x {:trigger FirstPass(n, events, steps, r, x)} ::
      x in late <==>
        && env.check
        && (exists q :: q in k.queue && q.name == x && StateOf(k.cache, k.params, q) == Hit)
        && var first := FirstPass(n, events, steps, r, x);
           env.now - (if first.Some? then first.value else env.now) > env.limit
  }

  /** The stall check by the recorded times, without the order of the messages. */
  lemma {:induction false} LateMeans(k: Rank, start: map<string, int>, env: Env, x: string)
    requires WellFormed(k.cache) && DistinctRequests(k.queue) && start.Keys == k.watched <= NamesOf(k.queue)
    ensures x in LateNames(k, start, env) <==>
              && env.check
              && (exists q :: q in k.queue && q.name == x && StateOf(k.cache, k.params, q) == Hit)
              && env.now - (if x in start then start[x] else env.now) > env.limit
  {
    TimedAreWatched(k.cache, k.params, k.queue, start, env.now);
    TimesAged(k.cache, k.params, k.queue, start, env.now);
    WatchedIffHit(k, x);
  }

  lemma {:induction false} LateNow(cfg: Config, n: nat, events: seq<Event>, steps: seq<Step>, g: Cluster, r: nat,
                                   times: map<string, int>, env: Env)
    requires Recorded(n, events, steps) && r < n
    requires Rel(cfg, g, SpecExec(n, steps)) && |g.ranks| == n && ClockIs(n, events, steps, r, g.ranks[r], times)
    ensures LateIs(n, events, steps, r, g.ranks[r], env, LateNames(g.ranks[r], times, env))
  {
    var k := g.ranks[r];
    assert QueueMatches(k, SpecExec(n, steps)[r]);
    forall x {:trigger FirstPass(n, events, steps, r, x)}
      ensures x in LateNames(k, times, env) <==>
                && env.check
                && (exists q :: q in k.queue && q.name == x && StateOf(k.cache, k.params, q) == Hit)
                && var first := FirstPass(n, events, steps, r, x);
                   env.now - (if first.Some? then first.value else env.now) > env.limit
    {
      LateMeans(k, times, env, x);
    }
  }
}
