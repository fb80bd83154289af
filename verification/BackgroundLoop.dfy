/** The whole program, from start-up on: application threads submit tensors and the background
    loops of all ranks make their passes, in any order. Over the objects this is a run of the
    protocol. */
module BackgroundLoop {
  import opened Messages
  import opened LruCache
  import opened Protocol
  import opened ProtocolSpec
  import opened ProtocolCycle
  import opened ProtocolRuns
  import opened CacheSync
  import opened ResponseCache
  import opened TensorQueue
  import opened Controller
  import opened RunLoop
  import opened WaitingTimes

  /** The step of the protocol that an event is. */
  ghost predicate Realizes(e: Event, step: Step) {
    match e
    case Submit(rank, q) => step == Add(rank, q)
    case Pass(envs) => step.Tick? && step.input.shutdown == Shutdowns(envs)
  }

  /** The run `steps` leads to `g`, with response lists `lists`. */
  ghost predicate Leads(cfg: Config, n: nat, steps: seq<Step>, g: Cluster, lists: seq<seq<ResponseList>>) {
    forall c {:trigger Exec(c, n, steps)} :: c == cfg ==>
      n > 0 && ValidRun(n, steps) && Exec(c, n, steps) == Some(Trace(g, lists))
  }

  lemma {:induction false} LeadsNowhere(cfg: Config, n: nat)
    requires n > 0
    ensures Leads(cfg, n, [], Start(n), [])
  {
    assert Exec(cfg, n, []) == Some(Trace(Start(n), []));
  }

  lemma {:induction false} LeadsRelated(cfg: Config, n: nat, steps: seq<Step>, g: Cluster,
                                        lists: seq<seq<ResponseList>>)
    requires n > 0 && ValidRun(n, steps) && Leads(cfg, n, steps, g, lists)
    ensures Rel(cfg, g, SpecExec(n, steps)) && |g.ranks| == n
  {
    RunsRefine(cfg, n, steps);
  }

  lemma {:induction false} LeadsNext(cfg: Config, n: nat, steps: seq<Step>, g: Cluster, lists: seq<seq<ResponseList>>,
                                     step: Step, t: Trace)
    requires n > 0 && ValidRun(n, steps) && ValidStep(n, step) && Leads(cfg, n, steps, g, lists) && |g.ranks| == n
    requires Advance(cfg, Trace(g, lists), step) == Some(t)
    ensures ValidRun(n, steps + [step]) && Leads(cfg, n, steps + [step], t.g, t.lists)
  {
    assert Exec(cfg, n, steps) == Some(Trace(g, lists));
    assert (steps + [step])[..|steps|] == steps;
  }

  ghost predicate AllNew(os: Objects, n: nat)
    requires Apart(os, n)
    reads os.queues, os.caches, os.stalls
  {
    forall r {:trigger IsRank(NewRank(), os.queues[r], os.caches[r], os.stalls[r])} :: 0 <= r < n ==>
      IsRank(NewRank(), os.queues[r], os.caches[r], os.stalls[r])
  }

  method NewRankObjects(capacity: nat) returns (queue: TensorQueue, cache: ResponseCache, stall: StallInspector)
    ensures fresh(queue) && fresh(cache) && fresh(stall)
    ensures cache.Valid() && cache.capacity == capacity && IsRank(NewRank(), queue, cache, stall)
  {
    queue := new TensorQueue();
    cache := new ResponseCache();
    cache.SetCapacity(capacity);
    stall := new StallInspector();
  }

  method NewObjects(n: nat, capacity: nat) returns (os: Objects)
    ensures fresh(os.queues) && fresh(os.caches) && fresh(os.stalls)
    ensures Apart(os, n) && CachesValid(os.caches, capacity)
    ensures AllNew(os, n)
  {
    os := Objects([], [], []);
    for i := 0 to n
      invariant fresh(os.queues) && fresh(os.caches) && fresh(os.stalls)
      invariant Apart(os, i) && CachesValid(os.caches, capacity)
      invariant AllNew(os, i)
    {
      var queue, cache, stall := NewRankObjects(capacity);
      os := Objects(os.queues + [queue], os.caches + [cache], os.stalls + [stall]);
    }
  }

  method StartUp(n: nat, capacity: nat) returns (os: Objects, coordinator: Coordinator)
    ensures fresh(os.queues) && fresh(os.caches) && fresh(os.stalls) && fresh(coordinator)
    ensures Apart(os, n) && CachesValid(os.caches, capacity) && ClusterOf(os, n, coordinator) == Start(n)
    ensures forall r :: 0 <= r < n ==> os.stalls[r].cached == map[]
  {
    os := NewObjects(n, capacity);
    coordinator := new Coordinator();
    forall r | 0 <= r < n ensures RanksOf(os, n)[r] == NewRank() && os.stalls[r].cached == map[] {
      assert IsRank(NewRank(), os.queues[r], os.caches[r], os.stalls[r]);
    }
  }

  /** EnqueueTensor on one rank. */
  method SubmitTensor(os: Objects, coordinator: Coordinator, n: nat, r: nat, q: Request) returns (ok: bool)
    requires Apart(os, n) && r < n
    modifies os.queues[r]
    ensures ClusterOf(os, n, coordinator) == Enqueue(old(ClusterOf(os, n, coordinator)), r, q)
    ensures ok <==> q.name !in old(os.queues[r].table)
  {
    ghost var ks := RanksOf(os, n);
    ok := os.queues[r].Add(q);
    ghost var k := RankOf(os.queues[r], os.caches[r], os.stalls[r]);
    assert RanksOf(os, n) == ks[r := k];
  }

  // ---------------------------------------------------------------- waiting times

  ghost predicate ClocksAre(n: nat, events: seq<Event>, steps: seq<Step>, ks: seq<Rank>, times: seq<map<string, int>>)
    requires Recorded(n, events, steps)
  {
    && |ks| == |times| == n
    && forall r {:trigger ClockIs(n, events, steps, r, ks[r], times[r])} :: 0 <= r < n ==>
         ClockIs(n, events, steps, r, ks[r], times[r])
  }

  /** What a pass decides about waiting tensors, by the clocks of the ranks. */
  ghost predicate LateStep(n: nat, events: seq<Event>, steps: seq<Step>, ks: seq<Rank>, e: Event, step: Step)
    requires Recorded(n, events, steps) && ValidEvent(n, e)
  {
    e.Pass? ==>
      && step.Tick? && |step.input.late| == |ks| == n
      && forall r {:trigger LateIs(n, events, steps, r, ks[r], e.envs[r], step.input.late[r])} :: 0 <= r < n ==>
           LateIs(n, events, steps, r, ks[r], e.envs[r], step.input.late[r])
  }

  ghost predicate LateAt(cfg: Config, n: nat, events: seq<Event>, steps: seq<Step>, i: nat)
    requires Recorded(n, events, steps) && i < |events|
  {
    forall c {:trigger Exec(c, n, steps[..i])} :: c == cfg ==>
      && Exec(c, n, steps[..i]).Some?
      && LateStep(n, events[..i], steps[..i], Exec(c, n, steps[..i]).value.g.ranks, events[i], steps[i])
  }

  ghost predicate AllLate(cfg: Config, n: nat, events: seq<Event>, steps: seq<Step>)
    requires Recorded(n, events, steps)
  {
    forall i {:trigger LateAt(cfg, n, events, steps, i)} :: 0 <= i < |events| ==> LateAt(cfg, n, events, steps, i)
  }

  lemma {:induction false} ClocksStart(n: nat, times: seq<map<string, int>>)
    requires n > 0 && |times| == n && forall r :: 0 <= r < n ==> times[r] == map[]
    ensures Recorded(n, [], []) && ClocksAre(n, [], [], Start(n).ranks, times)
  {
  }

  lemma {:induction false} ClocksAfterSubmit(cfg: Config, n: nat, events: seq<Event>, steps: seq<Step>, g: Cluster,
                                             rank: nat, q: Request, times: seq<map<string, int>>)
    requires Recorded(n, events, steps) && rank < n && q.rank == rank
    requires Rel(cfg, g, SpecExec(n, steps)) && |g.ranks| == n && ClocksAre(n, events, steps, g.ranks, times)
    ensures Recorded(n, events + [Submit(rank, q)], steps + [Add(rank, q)])
    ensures ClocksAre(n, events + [Submit(rank, q)], steps + [Add(rank, q)], Enqueue(g, rank, q).ranks, times)
  {
    FirstPassNext(n, events, steps, Submit(rank, q), Add(rank, q), 0, "");
    forall r | 0 <= r < n
      ensures ClockIs(n, events + [Submit(rank, q)], steps + [Add(rank, q)], r, Enqueue(g, rank, q).ranks[r], times[r])
    {
      assert ClockIs(n, events, steps, r, g.ranks[r], times[r]);
      ClockAfterSubmit(cfg, n, events, steps, g, rank, q, r, times[r]);
    }
  }

  lemma {:induction false} ClocksAfterPass(cfg: Config, n: nat, events: seq<Event>, steps: seq<Step>, g: Cluster,
                                           input: CycleInput, envs: seq<Env>, out: Outcome,
                                           times: seq<map<string, int>>, times': seq<map<string, int>>)
    requires Recorded(n, events, steps) && |envs| == |input.late| == |input.shutdown| == |times'| == n
    requires Rel(cfg, g, SpecExec(n, steps)) && |g.ranks| == n && ClocksAre(n, events, steps, g.ranks, times)
    requires Cycle(cfg, g, input) == Some(out) && |out.next.ranks| == n
    requires forall r :: 0 <= r < n ==>
               times'[r].Keys == out.next.ranks[r].watched && Aged(times[r], envs[r].now, times'[r])
    ensures Recorded(n, events + [Pass(envs)], steps + [Tick(input)])
    ensures ClocksAre(n, events + [Pass(envs)], steps + [Tick(input)], out.next.ranks, times')
  {
    FirstPassNext(n, events, steps, Pass(envs), Tick(input), 0, "");
    forall r | 0 <= r < n
      ensures ClockIs(n, events + [Pass(envs)], steps + [Tick(input)], r, out.next.ranks[r], times'[r])
    {
      assert ClockIs(n, events, steps, r, g.ranks[r], times[r]);
      ClockAfterPass(cfg, n, events, steps, g, input, envs, out.next, r, times[r], times'[r]);
    }
  }

  lemma {:induction false} LatesNow(cfg: Config, n: nat, events: seq<Event>, steps: seq<Step>, g: Cluster,
                                    envs: seq<Env>, times: seq<map<string, int>>)
    requires Recorded(n, events, steps) && |envs| == n
    requires Rel(cfg, g, SpecExec(n, steps)) && |g.ranks| == n && ClocksAre(n, events, steps, g.ranks, times)
    ensures LateStep(n, events, steps, g.ranks, Pass(envs), Tick(InputOf(g.ranks, times, envs)))
  {
    var input := InputOf(g.ranks, times, envs);
    forall r | 0 <= r < n ensures LateIs(n, events, steps, r, g.ranks[r], envs[r], input.late[r]) {
      assert ClockIs(n, events, steps, r, g.ranks[r], times[r]);
      LateNow(cfg, n, events, steps, g, r, times[r], envs[r]);
    }
  }

  lemma {:induction false} AllLateNext(cfg: Config, n: nat, events: seq<Event>, steps: seq<Step>, g: Cluster,
                                       lists: seq<seq<ResponseList>>, e: Event, step: Step)
    requires Recorded(n, events, steps) && ValidEvent(n, e) && ValidStep(n, step) && AllLate(cfg, n, events, steps)
    requires Leads(cfg, n, steps, g, lists) && LateStep(n, events, steps, g.ranks, e, step)
    ensures Recorded(n, events + [e], steps + [step]) && AllLate(cfg, n, events + [e], steps + [step])
  {
    var events', steps' := events + [e], steps + [step];
    FirstPassNext(n, events, steps, e, step, 0, "");
    forall i | 0 <= i < |events'| ensures LateAt(cfg, n, events', steps', i) {
      if i < |events| {
        assert events'[..i] == events[..i] && steps'[..i] == steps[..i];
        assert LateAt(cfg, n, events, steps, i);
      } else {
        assert events'[..i] == events && steps'[..i] == steps;
        assert Exec(cfg, n, steps) == Some(Trace(g, lists));
      }
    }
  }

  // ---------------------------------------------------------------- events

  /** The objects stand where the events so far lead in the protocol, and every stall inspector has the
      waiting times of its rank. */
  ghost predicate Stands(cfg: Config, os: Objects, coordinator: Coordinator, n: nat, events: seq<Event>,
                         steps: seq<Step>, lists: seq<seq<ResponseList>>)
    requires Apart(os, n)
    reads os.queues, os.caches, os.stalls, coordinator
  {
    && Recorded(n, events, steps)
    && Leads(cfg, n, steps, ClusterOf(os, n, coordinator), lists)
    && ClocksAre(n, events, steps, RanksOf(os, n), StartTimes(os.stalls))
  }

  method HandleSubmit(cfg: Config, os: Objects, coordinator: Coordinator, n: nat, r: nat, q: Request,
                      ghost lists: seq<seq<ResponseList>>, ghost events: seq<Event>, ghost steps: seq<Step>)
    requires Apart(os, n) && r < n && q.rank == r && Stands(cfg, os, coordinator, n, events, steps, lists)
    modifies os.queues[r]
    ensures Stands(cfg, os, coordinator, n, events + [Submit(r, q)], steps + [Add(r, q)], lists)
  {
    ghost var g, times := ClusterOf(os, n, coordinator), StartTimes(os.stalls);
    LeadsRelated(cfg, n, steps, g, lists);
    ClocksAfterSubmit(cfg, n, events, steps, g, r, q, times);
    var ok := SubmitTensor(os, coordinator, n, r, q);
    assert StartTimes(os.stalls) == times;
    LeadsNext(cfg, n, steps, g, lists, Add(r, q), Trace(ClusterOf(os, n, coordinator), lists));
  }

  lemma {:induction false} PassStands(cfg: Config, n: nat, events: seq<Event>, steps: seq<Step>, g: Cluster,
                                      lists: seq<seq<ResponseList>>, envs: seq<Env>, input: CycleInput, out: Outcome,
                                      times: seq<map<string, int>>, times': seq<map<string, int>>)
    requires Recorded(n, events, steps) && |envs| == n && Leads(cfg, n, steps, g, lists)
    requires ClocksAre(n, events, steps, g.ranks, times) && Passed(cfg, g, times, envs, input, out, times')
    ensures |input.late| == n && input.shutdown == Shutdowns(envs)
    ensures LateStep(n, events, steps, g.ranks, Pass(envs), Tick(input))
    ensures Recorded(n, events + [Pass(envs)], steps + [Tick(input)])
    ensures Leads(cfg, n, steps + [Tick(input)], out.next, lists + [out.lists])
    ensures ClocksAre(n, events + [Pass(envs)], steps + [Tick(input)], out.next.ranks, times')
  {
    LeadsRelated(cfg, n, steps, g, lists);
    assert Cycle(cfg, g, input) == Some(out);
    LatesNow(cfg, n, events, steps, g, envs, times);
    ClocksAfterPass(cfg, n, events, steps, g, input, envs, out, times, times');
    LeadsNext(cfg, n, steps, g, lists, Tick(input), Trace(out.next, lists + [out.lists]));
  }

  method HandlePass(cfg: Config, os: Objects, coordinator: Coordinator, n: nat, envs: seq<Env>, timeline: bool,
                    lists: seq<seq<ResponseList>>, ghost events: seq<Event>, ghost steps: seq<Step>)
    returns (lists': seq<seq<ResponseList>>, ghost input: CycleInput)
    requires Apart(os, n) && CachesValid(os.caches, cfg.capacity) && |envs| == n
    requires cfg.capacity + NUM_STATUS_BITS < 0x8000_0000 && Stands(cfg, os, coordinator, n, events, steps, lists)
    modifies os.queues, os.caches, os.stalls, coordinator
    ensures CachesValid(os.caches, cfg.capacity) && |input.late| == n && input.shutdown == Shutdowns(envs)
    ensures LateStep(n, events, steps, old(RanksOf(os, n)), Pass(envs), Tick(input))
    ensures Stands(cfg, os, coordinator, n, events + [Pass(envs)], steps + [Tick(input)], lists')
  {
    ghost var g, times := ClusterOf(os, n, coordinator), StartTimes(os.stalls);
    assert Rel(cfg, g, SpecExec(n, steps)) by { LeadsRelated(cfg, n, steps, g, lists); }
    var more;
    more, input := RunLoopOnce(cfg, os, coordinator, envs, timeline, n, SpecExec(n, steps));
    lists' := lists + [more];
    ghost var out := Outcome(ClusterOf(os, n, coordinator), more);
    PassStands(cfg, n, events, steps, g, lists, envs, input, out, times, StartTimes(os.stalls));
  }

  /** One event, on the objects and in the protocol. */
  method Handle(cfg: Config, os: Objects, coordinator: Coordinator, n: nat, event: Event, timeline: bool,
                lists: seq<seq<ResponseList>>, ghost events: seq<Event>, ghost steps: seq<Step>)
    returns (lists': seq<seq<ResponseList>>, ghost step: Step)
    requires n > 0 && Apart(os, n) && CachesValid(os.caches, cfg.capacity) && ValidEvent(n, event)
    requires cfg.capacity + NUM_STATUS_BITS < 0x8000_0000 && Stands(cfg, os, coordinator, n, events, steps, lists)
    modifies os.queues, os.caches, os.stalls, coordinator
    ensures CachesValid(os.caches, cfg.capacity) && Realizes(event, step) && ValidStep(n, step)
    ensures LateStep(n, events, steps, old(RanksOf(os, n)), event, step)
    ensures Stands(cfg, os, coordinator, n, events + [event], steps + [step], lists')
  {
    match event
    case Submit(r, q) =>
      HandleSubmit(cfg, os, coordinator, n, r, q, lists, events, steps);
      lists', step := lists, Add(r, q);
    case Pass(envs) =>
      ghost var input;
      lists', input := HandlePass(cfg, os, coordinator, n, envs, timeline, lists, events, steps);
      step := Tick(input);
  }

  ghost predicate AllRealized(events: seq<Event>, steps: seq<Step>) {
    |steps| == |events| && forall i :: 0 <= i < |events| ==> Realizes(events[i], steps[i])
  }

  lemma {:induction false} RealizedNext(events: seq<Event>, steps: seq<Step>, e: Event, step: Step)
    requires AllRealized(events, steps) && Realizes(e, step)
    ensures AllRealized(events + [e], steps + [step])
  {
  }

  /** All of `events` have been handled, by `steps` of the protocol. */
  ghost predicate Reached(cfg: Config, os: Objects, coordinator: Coordinator, n: nat, events: seq<Event>,
                          steps: seq<Step>, lists: seq<seq<ResponseList>>)
    requires Apart(os, n)
    reads os.queues, os.caches, os.stalls, coordinator
  {
    forall es {:trigger Recorded(n, es, steps)} :: es == events ==>
      && Recorded(n, es, steps) && AllRealized(es, steps)
      && Stands(cfg, os, coordinator, n, es, steps, lists) && AllLate(cfg, n, es, steps)
  }

  /** One more event after `events`. */
  method HandleNext(cfg: Config, os: Objects, coordinator: Coordinator, n: nat, event: Event, timeline: bool,
                    lists: seq<seq<ResponseList>>, ghost events: seq<Event>, ghost steps: seq<Step>)
    returns (lists': seq<seq<ResponseList>>, ghost steps': seq<Step>)
    requires n > 0 && Apart(os, n) && CachesValid(os.caches, cfg.capacity) && ValidEvent(n, event)
    requires cfg.capacity + NUM_STATUS_BITS < 0x8000_0000 && Reached(cfg, os, coordinator, n, events, steps, lists)
    modifies os.queues, os.caches, os.stalls, coordinator
    ensures CachesValid(os.caches, cfg.capacity)
    ensures Reached(cfg, os, coordinator, n, events + [event], steps', lists')
  {
    assert Recorded(n, events, steps);
    ghost var g := ClusterOf(os, n, coordinator);
    ghost var step;
    lists', step := Handle(cfg, os, coordinator, n, event, timeline, lists, events, steps);
    AllLateNext(cfg, n, events, steps, g, lists, event, step);
    RealizedNext(events, steps, event, step);
    steps' := steps + [step];
  }

  /** Events in turn, from start-up on. */
  method HandleAll(cfg: Config, os: Objects, coordinator: Coordinator, n: nat, events: seq<Event>, timeline: bool)
    returns (lists: seq<seq<ResponseList>>, ghost steps: seq<Step>)
    requires n > 0 && Apart(os, n) && CachesValid(os.caches, cfg.capacity)
    requires cfg.capacity + NUM_STATUS_BITS < 0x8000_0000
    requires forall i :: 0 <= i < |events| ==> ValidEvent(n, events[i])
    requires Reached(cfg, os, coordinator, n, [], [], [])
    modifies os.queues, os.caches, os.stalls, coordinator
    ensures CachesValid(os.caches, cfg.capacity) && Reached(cfg, os, coordinator, n, events, steps, lists)
  {
    lists, steps := [], [];
    for i := 0 to |events|
      invariant CachesValid(os.caches, cfg.capacity) && Reached(cfg, os, coordinator, n, events[..i], steps, lists)
    {
      lists, steps := HandleNext(cfg, os, coordinator, n, events[i], timeline, lists, events[..i], steps);
      assert events[..i + 1] == events[..i] + [events[i]];
    }
    assert events[..|events|] == events;
  }

  /** Any events, in any order, from start-up on. The objects and all response lists are those of a
      run of the protocol that takes one step per event, so everything that is proved of runs holds
      of the program. A message that is still queued is timed from the first pass since its tensor
      was submitted, and a pass gives up the cache entry of a waiting tensor exactly when that is more
      than the limit ago. */
  method Run(cfg: Config, n: nat, events: seq<Event>, timeline: bool)
    returns (os: Objects, coordinator: Coordinator, lists: seq<seq<ResponseList>>, ghost steps: seq<Step>)
    requires n > 0 && cfg.capacity + NUM_STATUS_BITS < 0x8000_0000
    requires forall i :: 0 <= i < |events| ==> ValidEvent(n, events[i])
    ensures Apart(os, n) && CachesValid(os.caches, cfg.capacity) && QueuesValid(os.queues)
    ensures AllRealized(events, steps) && Recorded(n, events, steps)
    ensures Exec(cfg, n, steps) == Some(Trace(ClusterOf(os, n, coordinator), lists))
    ensures forall r, q :: 0 <= r < n && q in os.queues[r].queue ==>
              var times, first := os.stalls[r].cached, FirstPass(n, events, steps, r, q.name);
              (q.name in times <==> first.Some?) && (first.Some? ==> times[q.name] == first.value)
    ensures AllLate(cfg, n, events, steps)
  {
    os, coordinator := StartUp(n, cfg.capacity);
    LeadsNowhere(cfg, n);
    ClocksStart(n, StartTimes(os.stalls));
    lists, steps := HandleAll(cfg, os, coordinator, n, events, timeline);
    assert Recorded(n, events, steps);
    LeadsRelated(cfg, n, steps, ClusterOf(os, n, coordinator), lists);
    RelatedQueues(cfg, os, n, coordinator, SpecExec(n, steps));
    forall r, q | 0 <= r < n && q in os.queues[r].queue
      ensures var times, first := os.stalls[r].cached, FirstPass(n, events, steps, r, q.name);
              (q.name in times <==> first.Some?) && (first.Some? ==> times[q.name] == first.value)
    {
      assert ClockIs(n, events, steps, r, RanksOf(os, n)[r], StartTimes(os.stalls)[r]);
    }
  }
}
