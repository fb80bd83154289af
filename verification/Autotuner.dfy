/** The autotuner's search: a chain of parameters, each swept through its values, the first one
    fastest. Whenever a parameter has finished a sweep, the best score so far is handed to the
    next one. What the Bayesian optimizer proposes is an input of each round. */
module Autotuner {
  import opened Products

  type Value = seq<real>

  datatype Kind =
    | Categorical(values: seq<Value>)
    | Bayesian(testPoints: seq<Value>, maxSamples: nat)

  /** TunableParameter; `position` is index_ of a categorical and iteration_ of a Bayesian one. */
  datatype Param = Param(
    kind: Kind,
    tunable: bool,
    initial: Value,
    value: Value,
    bestValue: Value,
    bestScore: real,
    position: nat)

  /** One round: its score, and what NextSample returns if it is asked. */
  datatype Observation = Observation(score: real, sample: Value)

  // ---------------------------------------------------------------- one round

  /** TunableParameter::UpdateBestValue. */
  function UpdateBest(p: Param, score: real): Param {
    if score > p.bestScore then p.(bestScore := score, bestValue := p.value) else p
  }

  /** OnTune: the value for the next round. */
  function Advance(p: Param, sample: Value): Param {
    var i := p.position + 1;
    p.(position := i,
       value := match p.kind
                case Categorical(values) => if i < |values| then values[i] else p.value
                case Bayesian(points, _) => if i < |points| then points[i] else sample)
  }

  predicate Done(p: Param) {
    match p.kind
    case Categorical(values) => p.position >= |values|
    case Bayesian(_, maxSamples) => p.position > maxSamples
  }

  /** TunableParameter::Tune: the new state and whether the parameter has finished a sweep. */
  function TuneOne(p: Param, o: Observation): (Param, bool) {
    var p1 := UpdateBest(p, o.score);
    if !p.tunable then (p1, true)
    else
      var p2 := Advance(p1, o.sample);
      if Done(p2) then (p2.(value := p2.initial, position := 0), true) else (p2, false)
  }

  /** The loop over parameter_chain_ in ParameterManager::Tune. */
  function TuneChain(ps: seq<Param>, o: Observation): (r: (seq<Param>, bool))
    ensures |r.0| == |ps|
  {
    if ps == [] then ([], true)
    else
      var (p, finished) := TuneOne(ps[0], o);
      if !finished then ([p] + ps[1..], false)
      else
        var (rest, all) := TuneChain(ps[1..], o.(score := p.bestScore));
        ([p] + rest, all)
  }

  // ---------------------------------------------------------------- many rounds

  function RunOne(p: Param, os: seq<Observation>): Param {
    if os == [] then p else TuneOne(RunOne(p, os[..|os| - 1]), os[|os| - 1]).0
  }

  function Run(ps: seq<Param>, os: seq<Observation>): (r: seq<Param>)
    ensures |r| == |ps|
  {
    if os == [] then ps else TuneChain(Run(ps, os[..|os| - 1]), os[|os| - 1]).0
  }

  /** The last of the rounds finished the whole chain. */
  predicate Finishes(ps: seq<Param>, os: seq<Observation>)
    requires os != []
  {
    TuneChain(Run(ps, os[..|os| - 1]), os[|os| - 1]).1
  }

  predicate SweepEnds(p: Param, os: seq<Observation>)
    requires os != []
  {
    TuneOne(RunOne(p, os[..|os| - 1]), os[|os| - 1]).1
  }

  /** What a parameter hands on to the rest of the chain: its best score, once for each sweep. */
  function HandedOn(p: Param, os: seq<Observation>): seq<Observation> {
    if os == [] then []
    else
      HandedOn(p, os[..|os| - 1]) +
      if SweepEnds(p, os) then [Observation(RunOne(p, os).bestScore, os[|os| - 1].sample)] else []
  }

  lemma {:induction false} ChainStep(q: Param, qs: seq<Param>, o: Observation)
    ensures var (p, finished) := TuneOne(q, o);
            TuneChain([q] + qs, o)
            == if finished
               then ([p] + TuneChain(qs, o.(score := p.bestScore)).0, TuneChain(qs, o.(score := p.bestScore)).1)
               else ([p] + qs, false)
  {
    assert ([q] + qs)[0] == q && ([q] + qs)[1..] == qs;
  }

  lemma {:induction false} HandedOnNext(p: Param, os: seq<Observation>)
    requires os != []
    ensures var front, o := os[..|os| - 1], os[|os| - 1]; var q := TuneOne(RunOne(p, front), o).0;
            && RunOne(p, os) == q
            && (!SweepEnds(p, os) ==> HandedOn(p, os) == HandedOn(p, front))
            && (SweepEnds(p, os) ==>
                  var handed := HandedOn(p, os);
                  handed != [] && handed[..|handed| - 1] == HandedOn(p, front)
                    && handed[|handed| - 1] == o.(score := q.bestScore))
  {
  }

  lemma {:induction false} RunNext(ps: seq<Param>, os: seq<Observation>)
    requires os != []
    ensures (Run(ps, os), Finishes(ps, os)) == TuneChain(Run(ps, os[..|os| - 1]), os[|os| - 1])
  {
  }

  /** The chain is its first parameter, and the rest run on what the first hands on. */
  lemma {:induction false} Decompose(p: Param, rest: seq<Param>, os: seq<Observation>)
    ensures Run([p] + rest, os) == [RunOne(p, os)] + Run(rest, HandedOn(p, os))
    ensures os != [] ==>
              (Finishes([p] + rest, os) <==>
               SweepEnds(p, os) && HandedOn(p, os) != [] && Finishes(rest, HandedOn(p, os)))
  {
    if os != [] {
      var front := os[..|os| - 1];
      Decompose(p, rest, front);
      RunNext([p] + rest, os);
      ChainStep(RunOne(p, front), Run(rest, HandedOn(p, front)), os[|os| - 1]);
      HandedOnNext(p, os);
      if SweepEnds(p, os) {
        RunNext(rest, HandedOn(p, os));
      }
    }
  }

  // ---------------------------------------------------------------- length of a sweep

  function Count(p: Param): nat {
    if !p.tunable then 1
    else match p.kind
      case Categorical(values) => |values|
      case Bayesian(_, maxSamples) => maxSamples + 1
  }

  function Rounds(ps: seq<Param>): nat {
    if ps == [] then 1 else Count(ps[0]) * Rounds(ps[1..])
  }

  /** The sweep of a parameter that round `f` belongs to. */
  function SweepOf(p: Param, f: nat): nat
    requires Count(p) > 0
  {
    f / Count(p)
  }

  /** At the start of tuning. */
  ghost predicate Fresh(p: Param) {
    p.position == 0 && p.bestScore == 0.0 && Count(p) > 0
  }

  lemma {:induction false} PositionIs(p: Param, os: seq<Observation>)
    requires Fresh(p)
    ensures var q := RunOne(p, os);
            && q.kind == p.kind && q.tunable == p.tunable
            && q.position == if p.tunable then |os| % Count(p) else 0
    ensures os != [] ==> (SweepEnds(p, os) <==> |os| % Count(p) == 0)
    ensures |HandedOn(p, os)| == |os| / Count(p)
  {
    if os != [] {
      PositionIs(p, os[..|os| - 1]);
      NextMod(|os| - 1, Count(p));
    }
  }

  lemma {:induction false} NextMod(n: nat, c: nat)
    requires c > 0
    ensures n % c + 1 == c ==> (n + 1) % c == 0 && (n + 1) / c == n / c + 1
    ensures n % c + 1 < c ==> (n + 1) % c == n % c + 1 && (n + 1) / c == n / c
  {
    var q, r := n / c, n % c;
    assert n == q * c + r;
    if r + 1 == c {
      assert n + 1 == (q + 1) * c;
      DivMod(n + 1, c, q + 1, 0);
    } else {
      DivMod(n + 1, c, q, r + 1);
    }
  }

  lemma {:induction false} DivMod(n: nat, c: nat, q: nat, r: nat)
    requires 0 <= r < c && n == q * c + r
    ensures n / c == q && n % c == r
  {
    var q', r' := n / c, n % c;
    assert (q - q') * c == r' - r;
    if q > q' { MulGrows(c, q - q'); }
    if q < q' {
      assert (q' - q) * c == r - r';
      MulGrows(c, q' - q);
    }
  }

  lemma {:induction false} MulParts(c: nat, q: nat, n: nat, r: nat)
    ensures c * (q * n + r) == q * (c * n) + c * r
  {
  }

  lemma {:induction false} MulMod(k: nat, c: nat, n: nat)
    requires c > 0 && n > 0
    ensures c * n > 0 && ((c * k) % (c * n) == 0 <==> k % n == 0)
  {
    var q, r := k / n, k % n;
    MulGrows(c, n);
    MulLess(r, n, c);
    MulParts(c, q, n, r);
    assert q * n + r == k;
    DivMod(c * k, c * n, q, c * r);
  }

  lemma {:induction false} ModMul(m: nat, c: nat, n: nat)
    requires c > 0 && n > 0 && c * n > 0 && m % (c * n) == 0
    ensures m % c == 0
  {
    var q := m / (c * n);
    assert m == (q * n) * c by { assert m == q * (c * n); }
    DivMod(m, c, q * n, 0);
  }

  ghost predicate AllFresh(ps: seq<Param>) {
    forall i :: 0 <= i < |ps| ==> Fresh(ps[i])
  }

  lemma {:induction false} RoundsPositive(ps: seq<Param>)
    requires AllFresh(ps)
    ensures Rounds(ps) > 0
  {
    if ps != [] {
      RoundsPositive(ps[1..]);
      MulGrows(Count(ps[0]), Rounds(ps[1..]));
    }
  }

  /** `m` rounds are `m / c` sweeps of the first parameter, and full passes of the whole chain
      exactly when those sweeps are full passes of the rest. */
  lemma {:induction false} Passes(m: nat, c: nat, n: nat)
    requires c > 0 && n > 0
    ensures c * n > 0 && (m % (c * n) == 0 <==> m % c == 0 && (m / c) % n == 0)
  {
    MulGrows(c, n);
    if m % c == 0 {
      assert m == c * (m / c);
      MulMod(m / c, c, n);
    } else if m % (c * n) == 0 {
      ModMul(m, c, n);
    }
  }

  /** The chain is finished exactly after every full pass over all combinations. */
  lemma {:induction false} FinishesIff(ps: seq<Param>, os: seq<Observation>)
    requires AllFresh(ps) && os != []
    ensures Rounds(ps) > 0 && (Finishes(ps, os) <==> |os| % Rounds(ps) == 0)
    decreases |ps|
  {
    RoundsPositive(ps);
    if ps != [] {
      var p, rest := ps[0], ps[1..];
      assert ps == [p] + rest;
      RoundsPositive(rest);
      PositionIs(p, os);
      Passes(|os|, Count(p), Rounds(rest));
      Decompose(p, rest, os);
      if SweepEnds(p, os) {
        FinishesIff(rest, HandedOn(p, os));
      }
    }
  }

  // ---------------------------------------------------------------- the best combination

  /** Round `f` is the first to reach the highest score, and that score is positive. */
  ghost predicate IsFirstMax(os: seq<Observation>, f: nat) {
    && f < |os| && os[f].score > 0.0
    && (forall i :: 0 <= i < |os| ==> os[i].score <= os[f].score)
    && (forall i :: 0 <= i < f ==> os[i].score < os[f].score)
  }

  lemma {:induction false} BestScoreIs(p: Param, os: seq<Observation>)
    requires p.bestScore == 0.0
    ensures var b := RunOne(p, os).bestScore; b == 0.0 || exists i :: 0 <= i < |os| && os[i].score == b
  {
    if os != [] {
      BestScoreIs(p, os[..|os| - 1]);
    }
  }

  lemma {:induction false} BestOfOne(p: Param, os: seq<Observation>, f: nat)
    requires p.bestScore == 0.0 && IsFirstMax(os, f)
    ensures RunOne(p, os).bestScore == os[f].score && RunOne(p, os).bestValue == RunOne(p, os[..f]).value
  {
    var front := os[..|os| - 1];
    if |os| == f + 1 {
      BestScoreIs(p, front);
    } else {
      assert front[..f] == os[..f];
      BestOfOne(p, front, f);
    }
  }

  lemma {:induction false} HandedOnPrefix(p: Param, os: seq<Observation>, t: nat)
    requires Fresh(p) && t <= |os|
    ensures var sweeps: nat, handed := t / Count(p), HandedOn(p, os);
            sweeps <= |handed| && HandedOn(p, os[..t]) == handed[..sweeps]
    decreases |os|
  {
    PositionIs(p, os);
    PositionIs(p, os[..t]);
    if t == |os| {
      assert os[..t] == os;
    } else {
      var front := os[..|os| - 1];
      HandedOnPrefix(p, front, t);
      assert front[..t] == os[..t];
      HandedOnNext(p, os);
    }
  }

  lemma {:induction false} WholeSweep(n: nat, c: nat, j: nat)
    requires c > 0 && j < n / c
    ensures 0 < (j + 1) * c <= n && ((j + 1) * c) / c == j + 1 && ((j + 1) * c) % c == 0
  {
    MulGrows(c, j + 1);
    EndOfSweep(n, c, j);
    DivMod((j + 1) * c, c, j + 1, 0);
  }

  lemma {:induction false} HandedOnEnd(p: Param, os: seq<Observation>, t: nat, j: nat)
    requires Fresh(p) && 0 < t <= |os| && t / Count(p) == j + 1 && t % Count(p) == 0
    ensures j < |HandedOn(p, os)|
    ensures HandedOn(p, os)[j] == Observation(RunOne(p, os[..t]).bestScore, os[t - 1].sample)
  {
    var prefix := os[..t];
    HandedOnPrefix(p, os, t);
    PositionIs(p, prefix);
    HandedOnNext(p, prefix);
    assert HandedOn(p, prefix)[j] == HandedOn(p, os)[j];
  }

  /** The score handed on after sweep `j` is the best of everything up to its end, with the proposal
      of its last round. */
  lemma {:induction false} HandedOnAt(p: Param, os: seq<Observation>, j: nat)
    requires Fresh(p) && j < |HandedOn(p, os)|
    ensures var t := (j + 1) * Count(p);
            && 0 < t <= |os|
            && HandedOn(p, os)[j] == Observation(RunOne(p, os[..t]).bestScore, os[t - 1].sample)
  {
    PositionIs(p, os);
    WholeSweep(|os|, Count(p), j);
    HandedOnEnd(p, os, (j + 1) * Count(p), j);
  }

  /** The sweep that contains the first best round is the first to hand on the best score. */
  lemma {:induction false} HandedOnMax(p: Param, os: seq<Observation>, f: nat)
    requires Fresh(p) && IsFirstMax(os, f) && |os| % Count(p) == 0
    ensures var handed, k := HandedOn(p, os), SweepOf(p, f); IsFirstMax(handed, k) && handed[k].score == os[f].score
  {
    var handed, k := HandedOn(p, os), SweepOf(p, f);
    assert k < |handed| by {
      PositionIs(p, os);
      EarlierSweep(f, |os|, Count(p));
    }
    FirstMaxAt(p, os, handed, f, k);
  }

  lemma {:induction false} FirstMaxAt(p: Param, os: seq<Observation>, handed: seq<Observation>, f: nat, k: nat)
    requires Fresh(p) && IsFirstMax(os, f) && handed == HandedOn(p, os) && k == SweepOf(p, f) && k < |handed|
    ensures IsFirstMax(handed, k) && handed[k].score == os[f].score
  {
    forall j | 0 <= j < |handed|
      ensures if j < k then handed[j].score < os[f].score else handed[j].score == os[f].score
    {
      HandedScore(p, os, f, k, j);
    }
  }

  lemma {:induction false} EarlierSweep(f: nat, n: nat, c: nat)
    requires c > 0 && f < n && n % c == 0
    ensures f / c < n / c
  {
    EndOfSweep(n, c, f / c);
    EndOfSweep(f, c, n / c - 1);
  }

  lemma {:induction false} HandedScore(p: Param, os: seq<Observation>, f: nat, k: nat, j: nat)
    requires Fresh(p) && IsFirstMax(os, f) && j < |HandedOn(p, os)| && k == SweepOf(p, f)
    ensures var s := HandedOn(p, os)[j].score; if j < k then s < os[f].score else s == os[f].score
  {
    var c := Count(p);
    var t := (j + 1) * c;
    HandedOnAt(p, os, j);
    EndOfSweep(f, c, j);
    var prefix := os[..t];
    if j < f / c {
      BestScoreIs(p, prefix);
    } else {
      assert IsFirstMax(prefix, f);
      BestOfOne(p, prefix, f);
    }
  }

  lemma {:induction false} EndOfSweep(f: nat, c: nat, j: nat)
    requires c > 0
    ensures j < f / c <==> (j + 1) * c <= f
  {
    var q, r := f / c, f % c;
    assert f == q * c + r;
    if j < q {
      assert q * c == (j + 1) * c + (q - j - 1) * c;
      if q > j + 1 { MulGrows(c, q - j - 1); }
    } else {
      assert (j + 1) * c == q * c + (j + 1 - q) * c;
      MulGrows(c, j + 1 - q);
    }
  }

  /** After full passes, every parameter reports the best score, and the value it had in the
      first round that reached it: together they are that round's combination. */
  lemma {:induction false} BestIsFirstMax(ps: seq<Param>, os: seq<Observation>, f: nat)
    requires AllFresh(ps) && IsFirstMax(os, f) && Rounds(ps) > 0 && |os| % Rounds(ps) == 0
    ensures forall i :: 0 <= i < |ps| ==>
              Run(ps, os)[i].bestScore == os[f].score && Run(ps, os)[i].bestValue == Run(ps, os[..f])[i].value
    decreases |ps|
  {
    if ps != [] {
      var p, rest := ps[0], ps[1..];
      var handed, k := HandedOn(p, os), SweepOf(p, f);
      assert ps == [p] + rest;
      assert |os| % Count(p) == 0 && Rounds(rest) > 0 && |handed| % Rounds(rest) == 0 by {
        RoundsPositive(rest);
        PositionIs(p, os);
        Passes(|os|, Count(p), Rounds(rest));
      }
      HandedOnMax(p, os, f);
      BestIsFirstMax(rest, handed, k);
      BestOfAll(p, rest, os, f, handed, k);
    }
  }

  lemma {:induction false} BestOfAll(p: Param, rest: seq<Param>, os: seq<Observation>, f: nat, handed: seq<Observation>,
                                     k: nat)
    requires Fresh(p) && IsFirstMax(os, f) && handed == HandedOn(p, os) && k == SweepOf(p, f) && k < |handed|
    requires forall i :: 0 <= i < |rest| ==>
               Run(rest, handed)[i].bestScore == os[f].score
                 && Run(rest, handed)[i].bestValue == Run(rest, handed[..k])[i].value
    ensures forall i :: 0 <= i < |[p] + rest| ==>
              && Run([p] + rest, os)[i].bestScore == os[f].score
              && Run([p] + rest, os)[i].bestValue == Run([p] + rest, os[..f])[i].value
  {
    BestOfOne(p, os, f);
    assert handed[..k] == HandedOn(p, os[..f]) by { HandedOnPrefix(p, os, f); }
    Decompose(p, rest, os);
    Decompose(p, rest, os[..f]);
    BestOfBoth(RunOne(p, os), Run(rest, handed), RunOne(p, os[..f]), Run(rest, handed[..k]), os[f].score);
  }

  lemma {:induction false} BestOfBoth(p: Param, ps: seq<Param>, q: Param, qs: seq<Param>, score: real)
    requires |ps| == |qs| && p.bestScore == score && p.bestValue == q.value
    requires forall i :: 0 <= i < |ps| ==> ps[i].bestScore == score && ps[i].bestValue == qs[i].value
    ensures forall i :: 0 <= i < |[p] + ps| ==>
              ([p] + ps)[i].bestScore == score && ([p] + ps)[i].bestValue == ([q] + qs)[i].value
  {
  }

  // ---------------------------------------------------------------- no positive score

  ghost predicate NoBest(ps: seq<Param>, qs: seq<Param>) {
    |qs| == |ps| && forall i :: 0 <= i < |ps| ==> qs[i].bestScore == 0.0 && qs[i].bestValue == ps[i].bestValue
  }

  lemma {:induction false} KeepsBest(ps: seq<Param>, o: Observation)
    requires o.score <= 0.0 && forall i :: 0 <= i < |ps| ==> ps[i].bestScore == 0.0
    ensures NoBest(ps, TuneChain(ps, o).0)
    decreases |ps|
  {
    if ps != [] {
      KeepsBest(ps[1..], o.(score := TuneOne(ps[0], o).0.bestScore));
    }
  }

  /** Without a positive score the configured values stay the best ones. */
  lemma {:induction false} NothingPositive(ps: seq<Param>, os: seq<Observation>)
    requires AllFresh(ps) && forall i :: 0 <= i < |os| ==> os[i].score <= 0.0
    ensures NoBest(ps, Run(ps, os))
  {
    if os != [] {
      var front := os[..|os| - 1];
      NothingPositive(ps, front);
      KeepsBest(Run(ps, front), os[|os| - 1]);
    }
  }

  // ---------------------------------------------------------------- every combination once

  /** `t` in the mixed radix of the value counts, first parameter first. */
  function Digits(ps: seq<Param>, t: nat): seq<nat>
    requires AllFresh(ps)
  {
    if ps == [] then [] else [t % Count(ps[0])] + Digits(ps[1..], SweepOf(ps[0], t))
  }

  /** The chain is an odometer: after `t` rounds the positions spell `t`. */
  lemma {:induction false} Odometer(ps: seq<Param>, os: seq<Observation>)
    requires AllFresh(ps)
    ensures |Digits(ps, |os|)| == |ps| && forall i :: 0 <= i < |ps| ==> Run(ps, os)[i].position == Digits(ps, |os|)[i]
    decreases |ps|
  {
    if ps != [] {
      var p, rest := ps[0], ps[1..];
      assert ps == [p] + rest;
      PositionIs(p, os);
      Decompose(p, rest, os);
      Odometer(rest, HandedOn(p, os));
    }
  }

  /** Within a pass no combination of positions comes twice. */
  lemma {:induction false} DigitsInjective(ps: seq<Param>, t: nat, u: nat)
    requires AllFresh(ps) && Rounds(ps) > 0 && t < Rounds(ps) && u < Rounds(ps) && Digits(ps, t) == Digits(ps, u)
    ensures t == u
    decreases |ps|
  {
    if ps != [] {
      var p, rest := ps[0], ps[1..];
      var c, n := Count(p), Rounds(rest);
      RoundsPositive(rest);
      assert Digits(ps, t)[0] == t % c && Digits(ps, t)[1..] == Digits(rest, SweepOf(p, t));
      assert Digits(ps, u)[0] == u % c && Digits(ps, u)[1..] == Digits(rest, SweepOf(p, u));
      SweepBound(t, c, n);
      SweepBound(u, c, n);
      DigitsInjective(rest, SweepOf(p, t), SweepOf(p, u));
      SameQuotient(t, u, c);
    }
  }

  lemma {:induction false} SameQuotient(t: nat, u: nat, c: nat)
    requires c > 0 && t / c == u / c && t % c == u % c
    ensures t == u
  {
    assert t == (t / c) * c + t % c && u == (u / c) * c + u % c;
  }

  lemma {:induction false} SweepBound(t: nat, c: nat, n: nat)
    requires c > 0 && n > 0 && t < c * n
    ensures t / c < n
  {
    EndOfSweep(t, c, n - 1);
  }

  // ---------------------------------------------------------------- the values in use

  /** The values a parameter goes through first: all values of a categorical parameter, the test
      points of a Bayesian one. */
  function Points(kind: Kind): seq<Value> {
    match kind
    case Categorical(values) => values
    case Bayesian(points, _) => points
  }

  /** A tunable parameter starts with its first value. */
  ghost predicate Starting(p: Param) {
    p.tunable ==> Points(p.kind) != [] && p.value == p.initial == Points(p.kind)[0]
  }

  /** `v` is what parameter `p` must have in use at position `d`, when `sample` is what the optimizer
      last proposed to it. */
  ghost predicate Uses(p: Param, d: nat, sample: Value, v: Value) {
    v == if !p.tunable then p.value
         else if d < |Points(p.kind)| then Points(p.kind)[d]
         else sample
  }

  /** The optimizer's proposal in the last round that tuned a parameter, when one in `w` rounds
      does; arbitrary before the first. */
  function LastSample(os: seq<Observation>, w: nat): Value
    requires w > 0
  {
    if os == [] then []
    else if |os| % w == 0 then os[|os| - 1].sample
    else LastSample(os[..|os| - 1], w)
  }

  lemma {:induction false} UsesNext(p: Param, q: Param, sample: Value, o: Observation)
    requires Starting(p) && Uses(p, q.position, sample, q.value)
    requires q.kind == p.kind && q.tunable == p.tunable && q.initial == p.initial
    ensures var r := TuneOne(q, o).0; r.initial == p.initial && Uses(p, r.position, o.sample, r.value)
  {
  }

  lemma {:induction false} ValueIs(p: Param, os: seq<Observation>)
    requires Fresh(p) && Starting(p)
    ensures var q := RunOne(p, os); q.initial == p.initial && Uses(p, q.position, LastSample(os, 1), q.value)
  {
    if os != [] {
      var front := os[..|os| - 1];
      ValueIs(p, front);
      PositionIs(p, front);
      UsesNext(p, RunOne(p, front), LastSample(front, 1), os[|os| - 1]);
    }
  }

  lemma {:induction false} DigitsFit(a: nat, w: nat, b: nat, c: nat)
    requires a < w && b < c
    ensures 0 <= a * c + b < c * w
  {
    MulGrows(c, w - a);
    MulParts(c, 1, a, w - a);
  }

  lemma {:induction false} LastHanded(p: Param, os: seq<Observation>, w: nat)
    requires Fresh(p) && w > 0
    ensures Count(p) * w > 0 && LastSample(HandedOn(p, os), w) == LastSample(os, Count(p) * w)
  {
    Passes(|os|, Count(p), w);
    if os != [] {
      LastHanded(p, os[..|os| - 1], w);
      PositionIs(p, os);
      HandedOnNext(p, os);
    }
  }

  ghost predicate AllStarting(ps: seq<Param>) {
    forall i :: 0 <= i < |ps| ==> Starting(ps[i])
  }

  /** How many rounds make one step of parameter `i`. */
  function Pace(ps: seq<Param>, i: nat): nat
    requires i <= |ps|
  {
    if i == 0 then 1 else Count(ps[0]) * Pace(ps[1..], i - 1)
  }

  lemma {:induction false} PacePositive(ps: seq<Param>, i: nat)
    requires AllFresh(ps) && i <= |ps|
    ensures Pace(ps, i) > 0
  {
    if i > 0 {
      PacePositive(ps[1..], i - 1);
      MulGrows(Count(ps[0]), Pace(ps[1..], i - 1));
    }
  }

  /** Parameter `i` uses what its position says. */
  ghost predicate UsesAt(ps: seq<Param>, os: seq<Observation>, i: nat)
    requires i < |ps|
  {
    var q := Run(ps, os)[i];
    Pace(ps, i) > 0 && Uses(ps[i], q.position, LastSample(os, Pace(ps, i)), q.value)
  }

  lemma {:induction false} ValueAt(ps: seq<Param>, os: seq<Observation>, i: nat)
    requires AllFresh(ps) && AllStarting(ps) && i < |ps|
    ensures UsesAt(ps, os, i)
    decreases |ps|
  {
    if i == 0 {
      RunParts(ps, os, 0);
      ValueIs(ps[0], os);
    } else {
      ValueAt(ps[1..], HandedOn(ps[0], os), i - 1);
      ValueLater(ps, os, i);
    }
  }

  lemma {:induction false} ValueLater(ps: seq<Param>, os: seq<Observation>, i: nat)
    requires AllFresh(ps) && 0 < i < |ps| && UsesAt(ps[1..], HandedOn(ps[0], os), i - 1)
    ensures UsesAt(ps, os, i)
  {
    RunParts(ps, os, i);
    PacePositive(ps, i);
    SampleLater(ps, os, i);
  }

  lemma {:induction false} SampleLater(ps: seq<Param>, os: seq<Observation>, i: nat)
    requires AllFresh(ps) && 0 < i < |ps| && Pace(ps, i) > 0 && Pace(ps[1..], i - 1) > 0
    ensures LastSample(HandedOn(ps[0], os), Pace(ps[1..], i - 1)) == LastSample(os, Pace(ps, i))
  {
    LastHanded(ps[0], os, Pace(ps[1..], i - 1));
  }

  lemma {:induction false} RunParts(ps: seq<Param>, os: seq<Observation>, i: nat)
    requires i < |ps|
    ensures Run(ps, os)[i] == if i == 0 then RunOne(ps[0], os) else Run(ps[1..], HandedOn(ps[0], os))[i - 1]
  {
    assert ps == [ps[0]] + ps[1..];
    Decompose(ps[0], ps[1..], os);
  }

  lemma {:induction false} DigitBound(ps: seq<Param>, t: nat, i: nat)
    requires AllFresh(ps) && i < |ps|
    ensures |Digits(ps, t)| == |ps| && Digits(ps, t)[i] < Count(ps[i])
    decreases |ps|
  {
    if i > 0 {
      DigitBound(ps[1..], SweepOf(ps[0], t), i - 1);
    } else if |ps| > 1 {
      DigitBound(ps[1..], SweepOf(ps[0], t), 0);
    }
  }

  /** The values in use after any rounds: a fixed parameter has its configured value, a categorical
      one the value that its digit of the round number says, and a Bayesian one the test point of
      its digit or, past the test points, what the optimizer last proposed. */
  lemma {:induction false} ValuesInUse(ps: seq<Param>, os: seq<Observation>, i: nat)
    requires AllFresh(ps) && AllStarting(ps) && i < |ps|
    ensures |Digits(ps, |os|)| == |ps| && Pace(ps, i) > 0
    ensures var p, d, v := ps[i], Digits(ps, |os|)[i], Run(ps, os)[i].value;
            && (!p.tunable ==> v == p.value)
            && (p.tunable && p.kind.Categorical? ==> d < |p.kind.values| && v == p.kind.values[d])
            && (p.tunable && p.kind.Bayesian? ==>
                  v == if d < |p.kind.testPoints| then p.kind.testPoints[d] else LastSample(os, Pace(ps, i)))
  {
    ValueAt(ps, os, i);
    Odometer(ps, os);
    DigitBound(ps, |os|, i);
  }

  /** The round of a pass whose positions are `ds`. */
  function Number(ps: seq<Param>, ds: seq<nat>): nat
    requires |ds| == |ps|
  {
    if ps == [] then 0 else ds[0] + Count(ps[0]) * Number(ps[1..], ds[1..])
  }

  lemma {:induction false} NumberFits(c: nat, n: nat, d: nat, k: nat)
    requires d < c && k < n
    ensures d + c * k < c * n && (d + c * k) / c == k && (d + c * k) % c == d
  {
    DivMod(d + c * k, c, k, d);
    DigitsFit(k, n, d, c);
  }

  /** Every combination of positions comes in some round of a pass. */
  lemma {:induction false} EveryCombination(ps: seq<Param>, ds: seq<nat>)
    requires AllFresh(ps) && |ds| == |ps| && forall i :: 0 <= i < |ps| ==> ds[i] < Count(ps[i])
    ensures Number(ps, ds) < Rounds(ps) && Digits(ps, Number(ps, ds)) == ds
    decreases |ps|
  {
    if ps != [] {
      var rest, later := ps[1..], ds[1..];
      assert forall i :: 0 <= i < |rest| ==> rest[i] == ps[i + 1] && later[i] == ds[i + 1];
      EveryCombination(rest, later);
      CombinationNext(ps, ds);
    }
  }

  lemma {:induction false} CombinationNext(ps: seq<Param>, ds: seq<nat>)
    requires AllFresh(ps) && |ds| == |ps| > 0 && ds[0] < Count(ps[0])
    requires Number(ps[1..], ds[1..]) < Rounds(ps[1..]) && Digits(ps[1..], Number(ps[1..], ds[1..])) == ds[1..]
    ensures Number(ps, ds) < Rounds(ps) && Digits(ps, Number(ps, ds)) == ds
  {
    NumberFits(Count(ps[0]), Rounds(ps[1..]), ds[0], Number(ps[1..], ds[1..]));
    assert ds == [ds[0]] + ds[1..];
  }

  /** Every combination of the values of the categorical parameters is in use in some round of a
      pass, whatever the scores are. */
  lemma {:induction false} EveryChoiceTried(ps: seq<Param>, os: seq<Observation>, choice: seq<nat>) returns (t: nat)
    requires AllFresh(ps) && AllStarting(ps) && |os| >= Rounds(ps)
    requires |choice| == |ps| && forall i :: 0 <= i < |ps| ==> choice[i] < Count(ps[i])
    ensures t < Rounds(ps)
    ensures forall i :: 0 <= i < |ps| && ps[i].tunable && ps[i].kind.Categorical? ==>
              choice[i] < |ps[i].kind.values| && Run(ps, os[..t])[i].value == ps[i].kind.values[choice[i]]
  {
    t := Number(ps, choice);
    EveryCombination(ps, choice);
    forall i | 0 <= i < |ps| && ps[i].tunable && ps[i].kind.Categorical?
      ensures choice[i] < |ps[i].kind.values| && Run(ps, os[..t])[i].value == ps[i].kind.values[choice[i]]
    {
      ValuesInUse(ps, os[..t], i);
    }
  }

  // ---------------------------------------------------------------- the manager

  /** What ParameterManager::Update and Tune work on. */
  datatype Manager = Manager(chain: seq<Param>, active: bool, warmup: nat, warmups: nat)

  /** ParameterManager::Tune on the coordinator, while tuning is on. Switching tuning off rearms
      the warmup. */
  function Call(m: Manager, o: Observation): Manager {
    if !m.active then m
    else if m.warmup > 0 then m.(warmup := m.warmup - 1)
    else
      var (ps, finished) := TuneChain(m.chain, o);
      if finished then m.(chain := ps, active := false, warmup := m.warmups) else m.(chain := ps)
  }

  function Calls(m: Manager, os: seq<Observation>): Manager {
    if os == [] then m else Call(Calls(m, os[..|os| - 1]), os[|os| - 1])
  }

  function Total(m: Manager): nat { m.warmup + Rounds(m.chain) }

  lemma {:induction false} SmallMod(n: nat, c: nat)
    requires 0 < n <= c
    ensures n % c == 0 <==> n == c
  {
  }

  lemma {:induction false} WarmupCalls(m: Manager, os: seq<Observation>)
    requires m.active && |os| <= m.warmup
    ensures Calls(m, os) == m.(warmup := m.warmup - |os|)
  {
    if os != [] {
      WarmupCalls(m, os[..|os| - 1]);
    }
  }

  /** While tuning, the chain has run on everything but the warmup. */
  lemma {:induction false} TuningCalls(m: Manager, os: seq<Observation>)
    requires m.active && AllFresh(m.chain) && m.warmup <= |os| <= Total(m)
    ensures Calls(m, os)
            == Manager(Run(m.chain, os[m.warmup..]), |os| < Total(m),
                       if |os| < Total(m) then 0 else m.warmups, m.warmups)
  {
    RoundsPositive(m.chain);
    if |os| == m.warmup {
      WarmupCalls(m, os);
    } else {
      var front, tuned := os[..|os| - 1], os[m.warmup..];
      TuningCalls(m, front);
      FinishesIff(m.chain, tuned);
      SmallMod(|tuned|, Rounds(m.chain));
      assert tuned[..|tuned| - 1] == front[m.warmup..] && tuned[|tuned| - 1] == os[|os| - 1];
    }
  }

  /** After tuning, nothing changes. */
  lemma {:induction false} LaterCalls(m: Manager, os: seq<Observation>, n: nat)
    requires n <= |os| && !Calls(m, os[..n]).active
    ensures Calls(m, os) == Calls(m, os[..n])
    decreases |os|
  {
    if n == |os| {
      assert os[..n] == os;
    } else {
      assert os[..|os| - 1][..n] == os[..n];
      LaterCalls(m, os[..|os| - 1], n);
    }
  }

  lemma {:induction false} TunedUntil(m: Manager, os: seq<Observation>, f: nat)
    requires m.active && AllFresh(m.chain) && m.warmup + f <= Total(m) <= |os|
    ensures Calls(m, os[..m.warmup + f]).chain == Run(m.chain, os[m.warmup..Total(m)][..f])
    ensures f < Rounds(m.chain) ==> Calls(m, os[..m.warmup + f]).active
  {
    TuningCalls(m, os[..m.warmup + f]);
    assert os[..m.warmup + f][m.warmup..] == os[m.warmup..Total(m)][..f];
  }

  lemma {:induction false} TuningStops(m: Manager, os: seq<Observation>)
    requires m.active && AllFresh(m.chain) && Total(m) <= |os| && Rounds(m.chain) > 0
    ensures !Calls(m, os).active && Calls(m, os[..Total(m) - 1]).active
    ensures Calls(m, os).chain == Run(m.chain, os[m.warmup..Total(m)])
  {
    var n := Total(m);
    TuningCalls(m, os[..n]);
    assert os[..n][m.warmup..] == os[m.warmup..n];
    LaterCalls(m, os, n);
    TunedUntil(m, os, Rounds(m.chain) - 1);
  }

  /** Tuning stops after exactly the warmup rounds plus one round for each combination, and what
      is then reported is, parameter by parameter, the value in use in the first round that
      reached the highest score, the warmup apart. */
  lemma {:induction false} ReportsFirstBest(m: Manager, os: seq<Observation>, f: nat)
    requires m.active && AllFresh(m.chain) && |os| >= Total(m)
    requires IsFirstMax(os[m.warmup..Total(m)], f)
    ensures !Calls(m, os).active && Calls(m, os[..Total(m) - 1]).active
    ensures |Calls(m, os).chain| == |Calls(m, os[..m.warmup + f]).chain| == |m.chain|
    ensures forall i :: 0 <= i < |m.chain| ==>
              Calls(m, os).chain[i].bestValue == Calls(m, os[..m.warmup + f]).chain[i].value
  {
    var tuned := os[m.warmup..Total(m)];
    RoundsPositive(m.chain);
    TuningStops(m, os);
    TunedUntil(m, os, f);
    SmallMod(|tuned|, Rounds(m.chain));
    BestIsFirstMax(m.chain, tuned, f);
  }

  /** What is reported at the end: every categorical parameter has the value of its digit of `f`,
      the first best round, and a fixed one its configured value. */
  lemma {:induction false} ReportsValues(m: Manager, os: seq<Observation>, f: nat, i: nat)
    requires m.active && AllFresh(m.chain) && AllStarting(m.chain) && |os| >= Total(m) && i < |m.chain|
    requires IsFirstMax(os[m.warmup..Total(m)], f)
    ensures |Calls(m, os).chain| == |m.chain| == |Digits(m.chain, f)|
    ensures var p, v := m.chain[i], Calls(m, os).chain[i].bestValue;
            && (!p.tunable ==> v == p.value)
            && (p.tunable && p.kind.Categorical? ==>
                  Digits(m.chain, f)[i] < |p.kind.values| && v == p.kind.values[Digits(m.chain, f)[i]])
  {
    ReportsFirstBest(m, os, f);
    TunedUntil(m, os, f);
    ValuesInUse(m.chain, os[m.warmup..Total(m)][..f], i);
  }

  /** The chain built by the ParameterManager constructor: the joint Bayesian parameter and three
      on/off parameters, of which some may be fixed. */
  lemma {:induction false} SourceChain(joint: Param, a: Param, b: Param, c: Param, samples: nat)
    requires joint.tunable && joint.kind.Bayesian? && joint.kind.maxSamples == samples
    requires forall p :: p in [a, b, c] ==> p.kind.Categorical? && |p.kind.values| == 2
    ensures Rounds([joint, a, b, c])
            == (samples + 1)
               * ((if a.tunable then 2 else 1) * ((if b.tunable then 2 else 1) * (if c.tunable then 2 else 1)))
  {
    assert [joint, a, b, c][1..] == [a, b, c] && [a, b, c][1..] == [b, c] && [b, c][1..] == [c] && [c][1..] == [];
    assert a in [a, b, c] && b in [a, b, c] && c in [a, b, c];
    assert Rounds([c]) == Count(c) * 1;
    assert Rounds([b, c]) == Count(b) * Rounds([c]);
    assert Rounds([a, b, c]) == Count(a) * Rounds([b, c]);
  }
}
