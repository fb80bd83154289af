/** The autotuner as the objects of parameter_manager.cc: parameters that update their fields in
    place, and the loop over the chain, proved against module Autotuner. */
module ParameterManager {
  import opened Autotuner

  class TunableParameter {
    const kind: Kind
    var tunable: bool
    var initial: Value
    var value: Value
    var bestValue: Value
    var bestScore: real
    var position: nat

    ghost function View(): Param
      reads this
    {
      Param(kind, tunable, initial, value, bestValue, bestScore, position)
    }

    /** The constructors of CategoricalParameter and BayesianParameter: the first value is in use. */
    constructor (kind: Kind)
      requires Points(kind) != []
      ensures var first := Points(kind)[0]; View() == Param(kind, true, first, first, first, 0.0, 0)
      ensures Starting(View()) && Fresh(View())
    {
      this.kind := kind;
      var first := Points(kind)[0];
      tunable, initial, value, bestValue, bestScore, position := true, first, first, first, 0.0, 0;
    }

    /** TunableParameter::SetValue: a fixed value is not tuned any more. */
    method SetValue(v: Value, fixed: bool)
      modifies this
      ensures View() == if fixed then old(View()).(bestValue := v, value := v, tunable := false)
              else old(View()).(bestValue := v)
      ensures old(Starting(View()) && Fresh(View())) ==> Starting(View()) && Fresh(View())
    {
      bestValue := v;
      if fixed {
        value := v;
        tunable := false;
      }
    }

    /** TunableParameter::Tune. */
    method Tune(score: real, sample: Value) returns (finished: bool, best: real)
      modifies this
      ensures (View(), finished) == TuneOne(old(View()), Observation(score, sample))
      ensures best == bestScore
    {
      if score > bestScore {
        bestScore := score;
        bestValue := value;
      }
      best := bestScore;
      if !tunable {
        return true, best;
      }
      position := position + 1;
      match kind {
        case Categorical(values) =>
          if position < |values| {
            value := values[position];
          }
          finished := position >= |values|;
        case Bayesian(points, maxSamples) =>
          value := if position < |points| then points[position] else sample;
          finished := position > maxSamples;
      }
      if finished {
        value := initial;
        position := 0;
      }
    }
  }

  ghost function Views(ps: seq<TunableParameter>): (r: seq<Param>)
    reads ps
    ensures |r| == |ps| && forall i :: 0 <= i < |ps| ==> r[i] == ps[i].View()
  {
    seq(|ps|, i requires 0 <= i < |ps| reads ps => ps[i].View())
  }

  class ParameterManager {
    const chain: seq<TunableParameter>
    const warmups: nat
    var warmup: nat
    var active: bool

    ghost predicate Valid() {
      forall i, j :: 0 <= i < j < |chain| ==> chain[i] != chain[j]
    }

    ghost function View(): Manager
      reads this, chain
    {
      Manager(Views(chain), active, warmup, warmups)
    }

    constructor (chain: seq<TunableParameter>, warmups: nat)
      requires forall i, j :: 0 <= i < j < |chain| ==> chain[i] != chain[j]
      ensures Valid() && this.chain == chain && View() == Manager(Views(chain), false, warmups, warmups)
    {
      this.chain, this.warmups := chain, warmups;
      warmup, active := warmups, false;
    }

    /** ParameterManager::SetAutoTuning. */
    method SetAutoTuning(on: bool)
      modifies this
      ensures active == on && warmup == if on != old(active) then warmups else old(warmup)
    {
      if on != active {
        warmup := warmups;
      }
      active := on;
    }

    method TuneAt(i: nat, score: real, sample: Value) returns (finished: bool, best: real)
      requires Valid() && i < |chain|
      modifies chain
      ensures Views(chain) == old(Views(chain))[i := TuneOne(old(Views(chain))[i], Observation(score, sample)).0]
      ensures finished == TuneOne(old(Views(chain))[i], Observation(score, sample)).1
      ensures best == Views(chain)[i].bestScore
    {
      finished, best := chain[i].Tune(score, sample);
    }

    method TuneNext(i: nat, score: real, sample: Value, ghost was: seq<Param>, ghost goal: (seq<Param>, bool))
      returns (finished: bool, best: real)
      requires Valid() && i < |chain| && TunedUpTo(goal, Views(chain), was, i, true, Observation(score, sample))
      modifies chain
      ensures TunedUpTo(goal, Views(chain), was, i + 1, finished, Observation(best, sample))
    {
      TunedAt(Views(chain), was, i, Observation(score, sample), goal);
      finished, best := TuneAt(i, score, sample);
    }

    /** The loop of Tune: the score goes to the first parameter, and as long as parameters finish
        their sweeps the best score goes on to the next. */
    method TuneAll(score: real, sample: Value) returns (finished: bool)
      requires Valid()
      modifies chain
      ensures (Views(chain), finished) == TuneChain(old(Views(chain)), Observation(score, sample))
    {
      ghost var was := Views(chain);
      ghost var goal := TuneChain(was, Observation(score, sample));
      finished := true;
      var best := score;
      var i := 0;
      assert was[0..] == was && was[..0] + goal.0 == goal.0;
      while i < |chain| && finished
        invariant 0 <= i <= |chain|
        invariant TunedUpTo(goal, Views(chain), was, i, finished, Observation(best, sample))
      {
        finished, best := TuneNext(i, best, sample, was, goal);
        i := i + 1;
      }
      assert finished ==> Views(chain)[..|chain|] + [] == Views(chain);
    }

    /** ParameterManager::Tune on the coordinator, called while tuning is on. */
    method Tune(score: real, sample: Value)
      requires Valid() && active
      modifies this, chain
      ensures View() == Call(old(View()), Observation(score, sample))
    {
      if warmup > 0 {
        warmup := warmup - 1;
      } else {
        var finished := TuneAll(score, sample);
        if finished {
          SetAutoTuning(false);
        }
      }
    }
  }

  lemma {:induction false} ChainAt(was: seq<Param>, i: nat, o: Observation)
    requires i < |was|
    ensures var (p, finished) := TuneOne(was[i], o);
            TuneChain(was[i..], o)
            == if finished
               then ([p] + TuneChain(was[i + 1..], o.(score := p.bestScore)).0,
                     TuneChain(was[i + 1..], o.(score := p.bestScore)).1)
               else ([p] + was[i + 1..], false)
  {
    assert was[i..] == [was[i]] + was[i + 1..];
    ChainStep(was[i], was[i + 1..], o);
  }

  /** The first `i` parameters are done; the rest still have to see `o`. */
  ghost predicate Towards(goal: (seq<Param>, bool), now: seq<Param>, was: seq<Param>, i: nat, o: Observation)
    requires i <= |now| == |was|
  {
    var r := TuneChain(was[i..], o);
    goal == (now[..i] + r.0, r.1)
  }

  /** The first `i` parameters are tuned; unless one of them is still sweeping, the others are as
      they were and observe `o`. */
  ghost predicate TunedUpTo(goal: (seq<Param>, bool), now: seq<Param>, was: seq<Param>, i: nat, finished: bool,
                            o: Observation)
  {
    && i <= |now| == |was|
    && if finished then now[i..] == was[i..] && Towards(goal, now, was, i, o) else goal == (now, false)
  }

  lemma {:induction false} TunedAt(before: seq<Param>, was: seq<Param>, i: nat, o: Observation,
                                   goal: (seq<Param>, bool))
    requires |before| == |was| && i < |was| && before[i..] == was[i..] && Towards(goal, before, was, i, o)
    ensures before[i] == was[i]
    ensures var (p, finished) := TuneOne(was[i], o); var after := before[i := p];
            if finished
            then after[i + 1..] == was[i + 1..] && Towards(goal, after, was, i + 1, o.(score := p.bestScore))
            else goal == (after, false)
  {
    ChainAt(was, i, o);
    var p := TuneOne(was[i], o).0;
    var rest, after := TuneChain(was[i + 1..], o.(score := p.bestScore)).0, before[i := p];
    assert before[i] == before[i..][0] && was[i] == was[i..][0];
    assert after[..i + 1] == before[..i] + [p];
    assert before[..i] + ([p] + rest) == after[..i + 1] + rest;
    assert before[i + 1..] == was[i + 1..] by { assert before[i..][1..] == was[i..][1..]; }
    assert after == before[..i] + ([p] + was[i + 1..]);
  }
}
