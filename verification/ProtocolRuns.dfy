/** Whole runs of the protocol, from start-up through any interleaving of enqueued tensors
    and cycles. */
module ProtocolRuns {
  import opened Messages
  import opened Negotiation
  import opened LruCache
  import opened Protocol
  import opened ProtocolSpec
  import opened ProtocolCycle
  import Fusion

  datatype Step = Add(rank: nat, q: Request) | Tick(input: CycleInput)

  /** A rank stamps its own requests, and every cycle involves all ranks. */
  predicate ValidStep(n: nat, step: Step) {
    match step
    case Add(rank, q) => rank < n && q.rank == rank
    case Tick(input) => |input.late| == |input.shutdown| == n
  }

  predicate ValidRun(n: nat, steps: seq<Step>) {
    forall i :: 0 <= i < |steps| ==> ValidStep(n, steps[i])
  }

  /** The cluster after a run and, for each cycle, the response list of every rank. */
  datatype Trace = Trace(g: Cluster, lists: seq<seq<ResponseList>>)

  ghost function Advance(cfg: Config, t: Trace, step: Step): (t': Option<Trace>)
    requires |t.g.ranks| > 0 && ValidStep(|t.g.ranks|, step)
    ensures t'.Some? ==> |t'.value.g.ranks| == |t.g.ranks|
  {
    match step
    case Add(rank, q) => Some(t.(g := Enqueue(t.g, rank, q)))
    case Tick(input) =>
      var out := Cycle(cfg, t.g, input);
      if out.None? || |out.value.next.ranks| != |t.g.ranks| then None
      else Some(Trace(out.value.next, t.lists + [out.value.lists]))
  }

  ghost function Exec(cfg: Config, n: nat, steps: seq<Step>): (t: Option<Trace>)
    requires n > 0 && ValidRun(n, steps)
    ensures t.Some? ==> |t.value.g.ranks| == n
  {
    if steps == [] then Some(Trace(Start(n), []))
    else
      var before := Exec(cfg, n, steps[..|steps| - 1]);
      if before.None? then None else Advance(cfg, before.value, steps[|steps| - 1])
  }

  ghost function SpecAdvance(o: Outstanding, step: Step): (o': Outstanding)
    requires |o| > 0 && ValidStep(|o|, step)
    ensures |o'| == |o|
  {
    match step
    case Add(rank, q) => SpecEnqueue(o, rank, q)
    case Tick(_) => SpecCycle(o)
  }

  /** The outstanding requests after a run, by specification. */
  ghost function SpecExec(n: nat, steps: seq<Step>): (o: Outstanding)
    requires n > 0 && ValidRun(n, steps)
    ensures |o| == n
  {
    if steps == [] then SpecStart(n) else SpecAdvance(SpecExec(n, steps[..|steps| - 1]), steps[|steps| - 1])
  }

  lemma {:induction false} StepRefines(cfg: Config, t: Trace, o: Outstanding, step: Step)
    requires Rel(cfg, t.g, o) && ValidStep(|o|, step)
    ensures var t' := Advance(cfg, t, step); t'.Some? && Rel(cfg, t'.value.g, SpecAdvance(o, step))
  {
    match step
    case Add(rank, q) => EnqueueRelated(cfg, t.g, o, rank, q);
    case Tick(input) => CycleRefines(cfg, t.g, o, input);
  }

  /** Every run succeeds and stays related to its specification. */
  lemma {:induction false} RunsRefine(cfg: Config, n: nat, steps: seq<Step>)
    requires n > 0 && ValidRun(n, steps)
    ensures var t := Exec(cfg, n, steps); t.Some? && Rel(cfg, t.value.g, SpecExec(n, steps))
  {
    if steps == [] {
      StartRelated(cfg, n);
    } else {
      var front := steps[..|steps| - 1];
      RunsRefine(cfg, n, front);
      StepRefines(cfg, Exec(cfg, n, front).value, SpecExec(n, front), steps[|steps| - 1]);
    }
  }

  // ---------------------------------------------------------------- what users see

  /** Replica coherence: after any run all ranks cache the same responses in the same order
      under the same bits, within capacity and numbered without holes. */
  lemma {:induction false} ReplicasCoherent(cfg: Config, n: nat, steps: seq<Step>, r: nat)
    requires n > 0 && ValidRun(n, steps) && r < n
    ensures var t := Exec(cfg, n, steps);
            && t.Some?
            && t.value.g.ranks[r].cache == t.value.g.ranks[0].cache
            && var c := t.value.g.ranks[r].cache;
               && WellFormed(c) && |c.order| <= cfg.capacity
               && |c.slots| == |c.order| && forall b :: 0 <= b < |c.slots| ==> c.slots[b].Some?
  {
    RunsRefine(cfg, n, steps);
  }

  /** A name is outstanding on a rank exactly when it is in that rank's tensor table. */
  lemma {:induction false} TableIsOutstanding(cfg: Config, g: Cluster, o: Outstanding, r: nat)
    requires Rel(cfg, g, o) && r < |o|
    ensures g.ranks[r].table.Keys == o[r].Keys
  {
    assert TableMatches(g.ranks[r], o[r]);
  }

  /** How many of the requests are for name `x` and from rank `r`. */
  function Matching(qs: seq<Request>, r: nat, x: string): nat {
    if qs == [] then 0
    else
      var q := qs[|qs| - 1];
      Matching(qs[..|qs| - 1], r, x) + if q.name == x && q.rank == r then 1 else 0
  }

  lemma {:induction false} MatchingNone(qs: seq<Request>, r: nat, x: string)
    requires forall i :: 0 <= i < |qs| ==> !(qs[i].name == x && qs[i].rank == r)
    ensures Matching(qs, r, x) == 0
  {
    if qs != [] { MatchingNone(qs[..|qs| - 1], r, x); }
  }

  lemma {:induction false} MatchingOne(qs: seq<Request>, r: nat, x: string, i: nat)
    requires i < |qs| && forall j :: 0 <= j < |qs| ==> (qs[j].name == x && qs[j].rank == r <==> j == i)
    ensures Matching(qs, r, x) == 1
  {
    if i == |qs| - 1 {
      MatchingNone(qs[..i], r, x);
    } else {
      MatchingOne(qs[..|qs| - 1], r, x, i);
    }
  }

  /** The requests of rank `r` for `x` that are under way: in its queue or at the coordinator. */
  function UnderWay(g: Cluster, r: nat, x: string): nat
    requires r < |g.ranks|
  {
    Matching(g.ranks[r].queue, r, x) + Matching(Get(g.pending, x), r, x)
  }

  lemma {:induction false} QueuedOnce(cfg: Config, g: Cluster, o: Outstanding, r: nat, x: string)
    requires Rel(cfg, g, o) && r < |o|
    ensures Matching(g.ranks[r].queue, r, x) == if x in o[r] && o[r][x] in g.ranks[r].queue then 1 else 0
  {
    var queue := g.ranks[r].queue;
    assert QueueMatches(g.ranks[r], o[r]);
    if x in o[r] && o[r][x] in queue {
      var i :| 0 <= i < |queue| && queue[i] == o[r][x];
      MatchingOne(queue, r, x, i);
    } else {
      forall i | 0 <= i < |queue| ensures queue[i].name != x { assert queue[i] in queue; }
      MatchingNone(queue, r, x);
    }
  }

  lemma {:induction false} PendingOnce(cfg: Config, g: Cluster, o: Outstanding, r: nat, x: string)
    requires Rel(cfg, g, o) && r < |o|
    ensures Matching(Get(g.pending, x), r, x) == if x in o[r] && o[r][x] in Get(g.pending, x) then 1 else 0
  {
    var qs := Get(g.pending, x);
    assert x in g.pending ==> WaitingMatch(qs, o, x);
    forall i | 0 <= i < |qs| ensures x in o[qs[i].rank] && qs[i] == o[qs[i].rank][x] { assert qs[i] in qs; }
    if x in o[r] && o[r][x] in qs {
      var i :| 0 <= i < |qs| && qs[i] == o[r][x];
      MatchingOne(qs, r, x, i);
    } else {
      forall i | 0 <= i < |qs| ensures qs[i].rank != r { assert qs[i] in qs; }
      MatchingNone(qs, r, x);
    }
  }

  /** Nothing is lost or doubled: after any run, a tensor in a rank's table has exactly one request
      under way, a name that is not in the table has none, and no name is both cached and waiting at
      the coordinator. */
  lemma {:induction false} OneRequestUnderWay(cfg: Config, n: nat, steps: seq<Step>, r: nat, x: string)
    requires n > 0 && ValidRun(n, steps) && r < n
    ensures var t := Exec(cfg, n, steps);
            && t.Some?
            && var g := t.value.g;
               && UnderWay(g, r, x) == (if x in g.ranks[r].table then 1 else 0)
               && !(x in g.pending && x in g.ranks[r].cache.bits)
  {
    RunsRefine(cfg, n, steps);
    var g, o := Exec(cfg, n, steps).value.g, SpecExec(n, steps);
    TableIsOutstanding(cfg, g, o, r);
    QueuedOnce(cfg, g, o, r, x);
    PendingOnce(cfg, g, o, r, x);
  }

  /** The names a rank is told to process in a cycle. */
  ghost function Told(lists: seq<ResponseList>, r: nat): seq<string>
    requires r < |lists|
  {
    Fusion.ListNames(lists[r].responses)
  }

  /** A response for `x` names, for each rank, the device of that rank's tensor and outstanding
      request, and its operation is the one they all asked for. */
  ghost predicate Serves(g: Cluster, o: Outstanding, s: Response, x: string)
    requires |g.ranks| == |o|
  {
    && |s.devices| == |o|
    && forall k :: 0 <= k < |o| ==>
         && x in g.ranks[k].table && x in o[k]
         && s.devices[k] == g.ranks[k].table[x].device == o[k][x].device
         && (s.rtype == Error || s.rtype == Run(o[k][x].op))
  }

  /** What a cycle tells rank `r`: the list every rank gets, naming exactly the tensors that are
      in the tensor table of every rank, each once, with the response negotiation gives to the
      outstanding requests, which names every rank's device; the shutdown flag is raised exactly when
      some rank asked for it. */
  ghost predicate Tells(g: Cluster, o: Outstanding, input: CycleInput, out: Outcome, r: nat)
    requires r < |g.ranks| == |o| == |input.shutdown|
  {
    && |out.lists| == |o|
    && out.lists[r] == out.lists[0]
    && Distinct(Told(out.lists, r))
    && (forall x :: x in Told(out.lists, r) <==> forall k :: 0 <= k < |o| ==> x in g.ranks[k].table)
    && Answers(o, Fusion.SplitAll(out.lists[r].responses))
    && (forall s, x {:trigger Serves(g, o, s, x)} :: s in out.lists[r].responses && x in s.names ==> Serves(g, o, s, x))
    && (out.lists[r].shutdown <==> exists k :: 0 <= k < |o| && input.shutdown[k])
  }

  lemma {:induction false} CycleTells(cfg: Config, g: Cluster, o: Outstanding, input: CycleInput, r: nat)
    requires Rel(cfg, g, o) && |input.late| == |input.shutdown| == |o| && r < |o|
    ensures var out := Cycle(cfg, g, input); out.Some? && Tells(g, o, input, out.value, r)
  {
    CycleRefines(cfg, g, o, input);
    forall k | 0 <= k < |o| ensures g.ranks[k].table.Keys == o[k].Keys { TableIsOutstanding(cfg, g, o, k); }
    var list := Cycle(cfg, g, input).value.lists[r].responses;
    forall s, x {:trigger Serves(g, o, s, x)} | s in list && x in s.names ensures Serves(g, o, s, x) {
      ListedServes(g, o, list, s, x);
    }
  }

  lemma {:induction false} ListedServes(g: Cluster, o: Outstanding, list: seq<Response>, s: Response, x: string)
    requires RanksMatch(g, o) && Answers(o, Fusion.SplitAll(list)) && s in list && x in s.names
    ensures Serves(g, o, s, x)
  {
    var part := Fusion.PartFor(list, s, x);
    ResponseMeans(x, RequestsFor(o, x));
    forall k | 0 <= k < |o|
      ensures x in o[k] && TableMatches(g.ranks[k], o[k]) && RequestsFor(o, x)[k] in RequestsFor(o, x)
    {
      assert x in o[k] && RequestsFor(o, x)[k] == o[k][x];
    }
  }

  /** A cycle after any run answers, on every rank, exactly the tensors that all ranks wait for. */
  lemma {:induction false} CycleAnswers(cfg: Config, n: nat, steps: seq<Step>, input: CycleInput, r: nat)
    requires n > 0 && ValidRun(n, steps) && |input.late| == |input.shutdown| == n && r < n
    ensures var t := Exec(cfg, n, steps);
            && t.Some? && |t.value.g.ranks| == n
            && var out := Cycle(cfg, t.value.g, input);
               out.Some? && Tells(t.value.g, SpecExec(n, steps), input, out.value, r)
  {
    RunsRefine(cfg, n, steps);
    CycleTells(cfg, Exec(cfg, n, steps).value.g, SpecExec(n, steps), input, r);
  }

  // ---------------------------------------------------------------- conservation

  /** How often rank `r` accepted a tensor named `x` during a run. */
  ghost function Accepted(cfg: Config, n: nat, steps: seq<Step>, r: nat, x: string): nat
    requires n > 0 && ValidRun(n, steps) && r < n
  {
    if steps == [] then 0
    else
      var front, step := steps[..|steps| - 1], steps[|steps| - 1];
      var t := Exec(cfg, n, front);
      Accepted(cfg, n, front, r, x) + if t.Some? then AcceptedNow(t.value.g, step, r, x) else 0
  }

  /** How often rank `r` was told to process `x`. */
  ghost function Answered(lists: seq<seq<ResponseList>>, r: nat, x: string): nat {
    if lists == [] then 0
    else
      var last := lists[|lists| - 1];
      Answered(lists[..|lists| - 1], r, x) + if r < |last| then multiset(Told(last, r))[x] else 0
  }

  lemma {:induction false} CountDistinct(xs: seq<string>, x: string)
    requires Distinct(xs)
    ensures multiset(xs)[x] == if x in xs then 1 else 0
  {
    if xs != [] {
      var front, last := xs[..|xs| - 1], xs[|xs| - 1];
      assert xs == front + [last];
      CountDistinct(front, x);
      assert last !in front;
    }
  }

  function Held(g: Cluster, r: nat, x: string): nat {
    if r < |g.ranks| && x in g.ranks[r].table then 1 else 0
  }

  function AcceptedNow(g: Cluster, step: Step, r: nat, x: string): nat {
    if step.Add? && step.rank == r && step.q.name == x && Held(g, r, x) == 0 then 1 else 0
  }

  /** One cycle moves a name from the table to the answers, or leaves it. */
  lemma {:induction false} CycleConserves(cfg: Config, g: Cluster, o: Outstanding, input: CycleInput, r: nat, x: string)
    requires Rel(cfg, g, o) && |input.late| == |input.shutdown| == |o| && r < |o|
    ensures var out := Cycle(cfg, g, input);
            && out.Some? && |out.value.next.ranks| == |out.value.lists| == |g.ranks| == |o|
            && Held(g, r, x) == multiset(Told(out.value.lists, r))[x] + Held(out.value.next, r, x)
  {
    CycleRefines(cfg, g, o, input);
    var out := Cycle(cfg, g, input).value;
    TableIsOutstanding(cfg, g, o, r);
    TableIsOutstanding(cfg, out.next, SpecCycle(o), r);
    CountDistinct(Told(out.lists, r), x);
    assert out.lists[r] == out.lists[0];
  }

  lemma {:induction false} EnqueueConserves(g: Cluster, rank: nat, q: Request, r: nat, x: string)
    requires rank < |g.ranks| && r < |g.ranks|
    ensures Held(Enqueue(g, rank, q), r, x) == Held(g, r, x) + AcceptedNow(g, Add(rank, q), r, x)
  {
  }

  lemma {:induction false} AnsweredNext(lists: seq<seq<ResponseList>>, last: seq<ResponseList>, r: nat, x: string)
    requires r < |last|
    ensures Answered(lists + [last], r, x) == Answered(lists, r, x) + multiset(Told(last, r))[x]
  {
    assert (lists + [last])[..|lists|] == lists;
  }

  lemma {:induction false} StepConserves(cfg: Config, t: Trace, o: Outstanding, step: Step, r: nat, x: string)
    requires Rel(cfg, t.g, o) && ValidStep(|o|, step) && r < |o|
    ensures var t' := Advance(cfg, t, step);
            && t'.Some?
            && Answered(t'.value.lists, r, x) + Held(t'.value.g, r, x)
               == Answered(t.lists, r, x) + Held(t.g, r, x) + AcceptedNow(t.g, step, r, x)
  {
    match step
    case Add(rank, q) =>
      EnqueueConserves(t.g, rank, q, r, x);
    case Tick(input) =>
      CycleConserves(cfg, t.g, o, input, r, x);
      AnsweredNext(t.lists, Cycle(cfg, t.g, input).value.lists, r, x);
  }

  /** Conservation over whole runs: every accepted tensor is handed out exactly once or is
      still in the tensor table. */
  lemma {:induction false} Conservation(cfg: Config, n: nat, steps: seq<Step>, r: nat, x: string)
    requires n > 0 && ValidRun(n, steps) && r < n
    ensures var t := Exec(cfg, n, steps);
            && t.Some? && Accepted(cfg, n, steps, r, x) == Answered(t.value.lists, r, x) + Held(t.value.g, r, x)
  {
    if steps != [] {
      var front, step := steps[..|steps| - 1], steps[|steps| - 1];
      RunsRefine(cfg, n, front);
      Conservation(cfg, n, front, r, x);
      StepConserves(cfg, Exec(cfg, n, front).value, SpecExec(n, front), step, r, x);
    }
  }
}
