/** The coordinator's verdict on the requests of all ranks for one tensor
    (Controller::ConstructResponse). `Respond` is the specification, over requests in
    rank order; `ConstructResponse` is the code, over requests in arrival order. */
module Negotiation {
  import opened Messages

  /** Two requests for one name may be served by one collective. */
  predicate Compatible(a: Request, b: Request) {
    && a.dtype == b.dtype
    && a.op == b.op
    && (IsReduction(a.op) || a.op == Broadcast ==> a.shape == b.shape)
    && (IsReduction(a.op) ==> a.prescale == b.prescale && a.postscale == b.postscale)
    && (IsGather(a.op) ==> |a.shape| == |b.shape| && forall d :: 1 <= d < |a.shape| ==> a.shape[d] == b.shape[d])
    && (a.op == Broadcast ==> a.root == b.root)
    && (a.device == CPU_DEVICE_ID <==> b.device == CPU_DEVICE_ID)
  }

  /** A gather needs a first dimension. */
  predicate Gatherable(q: Request) {
    IsGather(q.op) ==> q.shape != []
  }

  predicate Agree(qs: seq<Request>) {
    && (forall i, j :: 0 <= i < |qs| && 0 <= j < |qs| ==> Compatible(qs[i], qs[j]))
    && (forall i :: 0 <= i < |qs| ==> Gatherable(qs[i]))
  }

  function DevicesOf(qs: seq<Request>): seq<int> {
    seq(|qs|, k requires 0 <= k < |qs| => qs[k].device)
  }

  function FirstDims(qs: seq<Request>): seq<nat>
    requires forall i :: 0 <= i < |qs| ==> qs[i].shape != []
  {
    seq(|qs|, k requires 0 <= k < |qs| => qs[k].shape[0])
  }

  /** The response to the requests `qs`, where `qs[k]` is the request of rank `k`. */
  function Respond(name: string, qs: seq<Request>): (r: Response)
    requires |qs| > 0
    ensures r.names == [name] && |r.devices| == |qs|
    ensures r.rtype.Error? <==> !Agree(qs)
  {
    var blank := Response(Error, [name], UInt8, DevicesOf(qs), [], 1.0, 1.0);
    var q := qs[0];
    if !Agree(qs) then blank
    else if IsReduction(q.op) then
      blank.(rtype := Run(q.op), dtype := q.dtype, sizes := [Product(q.shape)],
             prescale := q.prescale, postscale := q.postscale)
    else if q.op == Allgather then
      assert forall i :: 0 <= i < |qs| ==> Compatible(qs[0], qs[i]) && Gatherable(qs[i]);
      blank.(rtype := Run(q.op), sizes := FirstDims(qs))
    else blank.(rtype := Run(q.op))
  }

  /** What the response says, without the checks: it names every rank's device, it is an error exactly
      when two ranks differ in what their operation must agree on or nothing can be gathered, and
      otherwise it carries the operation and what that needs of the requests. */
  lemma {:induction false} ResponseMeans(name: string, qs: seq<Request>)
    requires |qs| > 0
    ensures var r, op := Respond(name, qs), qs[0].op;
            && |r.devices| == |qs| && (forall k :: 0 <= k < |qs| ==> r.devices[k] == qs[k].device)
            && (r.rtype == Error || r.rtype == Run(op))
            && (r.rtype == Run(op) <==>
                  && (forall q :: q in qs ==> q.dtype == qs[0].dtype && q.op == op)
                  && (forall q :: q in qs ==> (q.device == CPU_DEVICE_ID <==> qs[0].device == CPU_DEVICE_ID))
                  && (op in {Allreduce, Adasum, Broadcast} ==> forall q :: q in qs ==> q.shape == qs[0].shape)
                  && (op in {Allreduce, Adasum} ==>
                        forall q :: q in qs ==> q.prescale == qs[0].prescale && q.postscale == qs[0].postscale)
                  && (op in {Allgather, Alltoall} ==>
                        forall q :: q in qs ==> 0 < |q.shape| == |qs[0].shape| && q.shape[1..] == qs[0].shape[1..])
                  && (op == Broadcast ==> forall q :: q in qs ==> q.root == qs[0].root))
    ensures var r, op := Respond(name, qs), qs[0].op;
            if r.rtype != Error && op in {Allreduce, Adasum} then
              && r.dtype == qs[0].dtype && r.sizes == [Product(qs[0].shape)]
              && r.prescale == qs[0].prescale && r.postscale == qs[0].postscale
            else
              && r.dtype == UInt8 && r.prescale == 1.0 && r.postscale == 1.0
              && if r.rtype != Error && op == Allgather
                 then && |r.sizes| == |qs|
                      && forall k :: 0 <= k < |qs| ==> qs[k].shape != [] && r.sizes[k] == qs[k].shape[0]
                 else r.sizes == []
  {
    var q0 := qs[0];
    assert q0 in qs;
    if Agree(qs) {
      forall q | q in qs
        ensures Compatible(q0, q) && Gatherable(q) && (IsGather(q0.op) ==> q.shape[1..] == q0.shape[1..])
      {
        var i :| 0 <= i < |qs| && qs[i] == q;
        assert Compatible(qs[0], qs[i]) && Gatherable(qs[i]);
      }
    } else if i, j :| 0 <= i < |qs| && 0 <= j < |qs| && !Compatible(qs[i], qs[j]) {
      assert qs[i] in qs && qs[j] in qs;
      Differ(q0, qs[i], qs[j]);
    }
  }

  lemma {:induction false} Differ(q: Request, a: Request, b: Request)
    requires !Compatible(a, b)
    ensures !Compatible(q, a) || !Compatible(q, b)
  {
  }

  /** The requests hold exactly one per rank, in any order. */
  predicate OnePerRank(qs: seq<Request>) {
    && DistinctRanks(qs)
    && forall i :: 0 <= i < |qs| ==> qs[i].rank < |qs|
  }

  predicate DistinctRanks(qs: seq<Request>) {
    forall i, j :: 0 <= i < j < |qs| ==> qs[i].rank != qs[j].rank
  }

  // ---------------------------------------------------------------- counting

  ghost function RanksOf(qs: seq<Request>): set<nat> {
    set i | 0 <= i < |qs| :: qs[i].rank
  }

  ghost function Below(n: nat): (s: set<nat>)
    ensures |s| == n && forall k: nat :: k in s <==> k < n
  {
    if n == 0 then {} else Below(n - 1) + {n - 1}
  }

  lemma {:induction false} DistinctRanksCount(qs: seq<Request>)
    requires DistinctRanks(qs)
    ensures |RanksOf(qs)| == |qs|
  {
    if qs != [] {
      var front := qs[..|qs| - 1];
      DistinctRanksCount(front);
      RanksOfNext(qs);
    }
  }

  lemma {:induction false} RanksOfNext(qs: seq<Request>)
    requires qs != []
    ensures var front, last := qs[..|qs| - 1], qs[|qs| - 1].rank;
            && RanksOf(qs) == RanksOf(front) + {last}
            && (DistinctRanks(qs) ==> last !in RanksOf(front))
  {
    var front := qs[..|qs| - 1];
    forall x | x in RanksOf(qs) ensures x in RanksOf(front) + {qs[|qs| - 1].rank} {
      var i :| 0 <= i < |qs| && qs[i].rank == x;
      if i < |front| { assert front[i].rank == x; }
    }
    forall x | x in RanksOf(front) ensures x in RanksOf(qs) {
      var i :| 0 <= i < |front| && front[i].rank == x;
      assert qs[i].rank == x;
    }
  }

  lemma {:induction false} SubsetOfSameSize<T>(a: set<T>, b: set<T>)
    requires a <= b && |b| <= |a|
    ensures a == b
  {
    if x :| x in b && x !in a {
      SubsetSize(a, b - {x});
    }
  }

  lemma {:induction false} SubsetSize<T>(a: set<T>, b: set<T>)
    requires a <= b
    ensures |a| <= |b|
  {
    if a != {} {
      var x :| x in a;
      SubsetSize(a - {x}, b - {x});
    }
  }

  /** Counting requests counts ranks: with at most one request per rank there are at most
      `n`, and there are `n` exactly when every rank has sent one. */
  lemma {:induction false} CountIsAllRanks(qs: seq<Request>, n: nat)
    requires DistinctRanks(qs)
    requires forall q :: q in qs ==> q.rank < n
    ensures |qs| <= n
    ensures |qs| == n <==> forall k :: 0 <= k < n ==> k in RanksOf(qs)
  {
    DistinctRanksCount(qs);
    assert RanksOf(qs) <= Below(n);
    SubsetSize(RanksOf(qs), Below(n));
    if |qs| == n {
      SubsetOfSameSize(RanksOf(qs), Below(n));
    }
    if forall k :: 0 <= k < n ==> k in RanksOf(qs) {
      assert RanksOf(qs) == Below(n);
    }
  }

  // ---------------------------------------------------------------- rank order

  /** Index of the request of rank `k`. */
  ghost function IndexOfRank(qs: seq<Request>, k: nat): (i: nat)
    requires OnePerRank(qs) && k < |qs|
    ensures i < |qs| && qs[i].rank == k
  {
    CountIsAllRanks(qs, |qs|);
    assert k in RanksOf(qs);
    var i :| 0 <= i < |qs| && qs[i].rank == k;
    i
  }

  ghost function InRankOrder(qs: seq<Request>): (o: seq<Request>)
    requires OnePerRank(qs)
    ensures |o| == |qs| && forall k :: 0 <= k < |o| ==> o[k] in qs && o[k].rank == k
  {
    seq(|qs|, k requires 0 <= k < |qs| => qs[IndexOfRank(qs, k)])
  }

  /** There is only one way to put one request per rank in rank order. */
  lemma {:induction false} RankOrderUnique(qs: seq<Request>, o: seq<Request>)
    requires OnePerRank(qs) && |o| == |qs|
    requires forall q :: q in qs ==> o[q.rank] == q
    ensures InRankOrder(qs) == o
  {
    forall k | 0 <= k < |o| ensures InRankOrder(qs)[k] == o[k] {
      assert InRankOrder(qs)[k] in qs;
    }
  }

  lemma {:induction false} RankOrderHas(qs: seq<Request>, q: Request)
    requires OnePerRank(qs) && q in qs
    ensures InRankOrder(qs)[q.rank] == q
  {
    var i :| 0 <= i < |qs| && qs[i] == q;
    assert qs[IndexOfRank(qs, q.rank)].rank == q.rank;
    assert i == IndexOfRank(qs, q.rank);
  }

  /** The verdict, and the whole response, does not depend on the order in which the
      requests reached the coordinator. */
  lemma {:induction false} ArrivalOrderIrrelevant(name: string, qs: seq<Request>, qs': seq<Request>)
    requires |qs| > 0 && OnePerRank(qs) && multiset(qs) == multiset(qs')
    ensures |qs| == |qs'| && OnePerRank(qs')
    ensures Respond(name, InRankOrder(qs)) == Respond(name, InRankOrder(qs'))
  {
    assert |qs| == |multiset(qs)| == |multiset(qs')| == |qs'|;
    forall q | q in qs' ensures q in qs { assert q in multiset(qs); }
    forall i, j | 0 <= i < j < |qs'| ensures qs'[i].rank != qs'[j].rank {
      if qs'[i].rank == qs'[j].rank {
        RankOrderHas(qs, qs'[i]);
        RankOrderHas(qs, qs'[j]);
        RepeatedElement(qs', i, j);
        TwiceInMultiset(qs, qs'[i]);
      }
    }
    forall q | q in qs' ensures InRankOrder(qs)[q.rank] == q { RankOrderHas(qs, q); }
    RankOrderUnique(qs', InRankOrder(qs));
  }

  lemma {:induction false} RepeatedElement<T>(s: seq<T>, i: int, j: int)
    requires 0 <= i < j < |s| && s[i] == s[j]
    ensures multiset(s)[s[i]] >= 2
  {
    assert s == s[..i] + [s[i]] + s[i + 1..j] + [s[j]] + s[j + 1..];
  }

  lemma {:induction false} TwiceInMultiset(qs: seq<Request>, q: Request)
    requires DistinctRanks(qs)
    ensures multiset(qs)[q] <= 1
  {
    if qs != [] {
      var front, last := qs[..|qs| - 1], qs[|qs| - 1];
      assert qs == front + [last];
      TwiceInMultiset(front, q);
      if last == q {
        assert q !in front;
        assert q !in multiset(front);
      }
    }
  }

  // ---------------------------------------------------------------- the code

  /** Every request is compatible with the first one, which can be gathered. */
  predicate AgreeWithFirst(qs: seq<Request>)
    requires |qs| > 0
  {
    && (forall i :: 0 <= i < |qs| ==> Compatible(qs[0], qs[i]))
    && Gatherable(qs[0])
  }

  lemma {:induction false} FirstIsEnough(qs: seq<Request>)
    requires |qs| > 0 && OnePerRank(qs)
    ensures AgreeWithFirst(qs) <==> Agree(InRankOrder(qs))
  {
    var o := InRankOrder(qs);
    forall q | q in qs ensures q in o { RankOrderHas(qs, q); assert o[q.rank] == q; }
    if AgreeWithFirst(qs) {
      forall i, j | 0 <= i < |o| && 0 <= j < |o| ensures Compatible(o[i], o[j]) {
        var a :| 0 <= a < |qs| && qs[a] == o[i];
        var b :| 0 <= b < |qs| && qs[b] == o[j];
        assert Compatible(qs[0], qs[a]) && Compatible(qs[0], qs[b]);
      }
      forall i | 0 <= i < |o| ensures Gatherable(o[i]) {
        var a :| 0 <= a < |qs| && qs[a] == o[i];
        assert Compatible(qs[0], qs[a]);
      }
    }
    if Agree(o) {
      forall i | 0 <= i < |qs| ensures Compatible(qs[0], qs[i]) && Gatherable(qs[0]) {
        assert o[qs[0].rank] == qs[0] by { RankOrderHas(qs, qs[0]); }
        assert o[qs[i].rank] == qs[i] by { RankOrderHas(qs, qs[i]); }
      }
    }
  }

  /** The checks on data type, operation, shape and scale factors: each loop compares the
      requests with the first one and stops at the first difference. */
  method CheckReduction(qs: seq<Request>) returns (error: bool)
    requires |qs| > 0
    ensures error <==> exists i :: 1 <= i < |qs| && !SameReduction(qs[0], qs[i])
  {
    error := false;
    var dtype, op := qs[0].dtype, qs[0].op;
    var i := 1;
    while i < |qs| && !error
      invariant 1 <= i <= |qs|
      invariant error <==> exists j :: 1 <= j < i && qs[j].dtype != dtype
    {
      if dtype != qs[i].dtype { error := true; }
      i := i + 1;
    }
    i := 1;
    while i < |qs| && !error
      invariant 1 <= i <= |qs|
      invariant !error ==> forall j :: 1 <= j < |qs| ==> qs[j].dtype == dtype
      invariant !error ==> forall j :: 1 <= j < i ==> qs[j].op == op
      invariant error ==> exists j :: 1 <= j < |qs| && !SameReduction(qs[0], qs[j])
    {
      if op != qs[i].op { error := true; assert !SameReduction(qs[0], qs[i]); }
      i := i + 1;
    }
    if op == Allreduce || op == Adasum || op == Broadcast {
      i := 1;
      while i < |qs| && !error
        invariant 1 <= i <= |qs|
        invariant !error ==> forall j :: 1 <= j < |qs| ==> qs[j].dtype == dtype && qs[j].op == op
        invariant !error ==> forall j :: 1 <= j < i ==> qs[j].shape == qs[0].shape
        invariant error ==> exists j :: 1 <= j < |qs| && !SameReduction(qs[0], qs[j])
      {
        if qs[0].shape != qs[i].shape { error := true; assert !SameReduction(qs[0], qs[i]); }
        i := i + 1;
      }
    }
    if op == Allreduce || op == Adasum {
      i := 1;
      while i < |qs| && !error
        invariant 1 <= i <= |qs|
        invariant !error ==> forall j :: 1 <= j < |qs| ==>
                    qs[j].dtype == dtype && qs[j].op == op && qs[j].shape == qs[0].shape
        invariant !error ==> forall j :: 1 <= j < i ==> SameReduction(qs[0], qs[j])
        invariant error ==> exists j :: 1 <= j < |qs| && !SameReduction(qs[0], qs[j])
      {
        if qs[0].prescale != qs[i].prescale || qs[0].postscale != qs[i].postscale {
          error := true;
          assert !SameReduction(qs[0], qs[i]);
        }
        i := i + 1;
      }
    }
  }

  predicate SameReduction(a: Request, b: Request) {
    && a.dtype == b.dtype
    && a.op == b.op
    && (IsReduction(a.op) || a.op == Broadcast ==> a.shape == b.shape)
    && (IsReduction(a.op) ==> a.prescale == b.prescale && a.postscale == b.postscale)
  }

  predicate SameSlice(a: Request, b: Request) {
    |a.shape| == |b.shape| && forall d :: 1 <= d < |a.shape| ==> a.shape[d] == b.shape[d]
  }

  /** The shape checks of allgather and alltoall. They also collect, for allgather, the
      first dimensions by rank; `earlier` is the verdict of the checks before. */
  method CheckGather(qs: seq<Request>, earlier: bool) returns (error: bool, sizes: seq<nat>)
    requires |qs| > 0 && OnePerRank(qs)
    ensures error <==> earlier || qs[0].shape == [] || exists i :: 1 <= i < |qs| && !SameSlice(qs[0], qs[i])
    ensures |sizes| == |qs|
    ensures !error && qs[0].op == Allgather ==>
              forall i :: 0 <= i < |qs| ==> qs[i].shape != [] && sizes[qs[i].rank] == qs[i].shape[0]
  {
    error := earlier;
    sizes := seq(|qs|, _ => 0);
    var shape := qs[0].shape;
    if |shape| == 0 {
      error := true;
    } else {
      sizes := sizes[qs[0].rank := shape[0]];
    }
    var i := 1;
    while i < |qs| && !error
      invariant 1 <= i <= |qs| && |sizes| == |qs|
      invariant !error ==> !earlier && |shape| > 0
      invariant !error ==> forall j :: 1 <= j < i ==> SameSlice(qs[0], qs[j])
      invariant !error && qs[0].op == Allgather ==>
                  forall j :: 0 <= j < i ==> qs[j].shape != [] && sizes[qs[j].rank] == qs[j].shape[0]
      invariant error ==> earlier || |shape| == 0 || exists j :: 1 <= j < |qs| && !SameSlice(qs[0], qs[j])
    {
      if |shape| != |qs[i].shape| {
        error := true;
        assert !SameSlice(qs[0], qs[i]);
      } else {
        var d := 1;
        while d < |shape| && !error
          invariant 1 <= d && (d <= |shape| || |shape| == 0)
          invariant !error ==> forall e :: 1 <= e < d ==> shape[e] == qs[i].shape[e]
          invariant error ==> !SameSlice(qs[0], qs[i])
        {
          if shape[d] != qs[i].shape[d] { error := true; }
          d := d + 1;
        }
        if !error && qs[0].op == Allgather {
          sizes := sizes[qs[i].rank := qs[i].shape[0]];
        }
      }
      i := i + 1;
    }
  }

  /** The root-rank check of broadcast. */
  method CheckRoot(qs: seq<Request>, earlier: bool) returns (error: bool)
    requires |qs| > 0
    ensures error <==> earlier || exists i :: 1 <= i < |qs| && qs[i].root != qs[0].root
  {
    error := earlier;
    var i := 1;
    while i < |qs| && !error
      invariant 1 <= i <= |qs|
      invariant !error ==> !earlier && forall j :: 1 <= j < i ==> qs[j].root == qs[0].root
      invariant error ==> earlier || exists j :: 1 <= j < |qs| && qs[j].root != qs[0].root
    {
      if qs[0].root != qs[i].root { error := true; }
      i := i + 1;
    }
  }

  predicate OnCpu(q: Request) { q.device == CPU_DEVICE_ID }

  /** The CPU/GPU check, and the devices by rank. */
  method CheckDevices(qs: seq<Request>, earlier: bool) returns (error: bool, devices: seq<int>)
    requires |qs| > 0 && OnePerRank(qs)
    ensures error <==> earlier || exists i :: 1 <= i < |qs| && OnCpu(qs[i]) != OnCpu(qs[0])
    ensures devices == DevicesOf(InRankOrder(qs))
    ensures |devices| == |qs| && forall q :: q in qs ==> devices[q.rank] == q.device
  {
    error := earlier;
    var i := 1;
    while i < |qs| && !error
      invariant 1 <= i <= |qs|
      invariant !error ==> !earlier && forall j :: 1 <= j < i ==> OnCpu(qs[j]) == OnCpu(qs[0])
      invariant error ==> earlier || exists j :: 1 <= j < |qs| && OnCpu(qs[j]) != OnCpu(qs[0])
    {
      if OnCpu(qs[0]) != OnCpu(qs[i]) { error := true; }
      i := i + 1;
    }
    devices := seq(|qs|, _ => 0);
    i := 0;
    while i < |qs|
      invariant 0 <= i <= |qs| && |devices| == |qs|
      invariant forall j :: 0 <= j < i ==> devices[qs[j].rank] == qs[j].device
    {
      devices := devices[qs[i].rank := qs[i].device];
      i := i + 1;
    }
    forall k | 0 <= k < |qs| ensures devices[k] == InRankOrder(qs)[k].device {
      assert qs[IndexOfRank(qs, k)].rank == k;
    }
  }

  /** Controller::ConstructResponse: whatever the arrival order, the response is the one
      specified for the requests in rank order; it names every rank's device, is an error exactly
      when the requests disagree, and otherwise carries their common operation. */
  method ConstructResponse(name: string, qs: seq<Request>) returns (r: Response)
    requires |qs| > 0 && OnePerRank(qs)
    ensures r == Respond(name, InRankOrder(qs))
    ensures |r.devices| == |qs| && forall q :: q in qs ==> r.devices[q.rank] == q.device
    ensures r.rtype == Error || r.rtype == Run(qs[0].op)
    ensures r.rtype == Run(Allgather) ==>
              |r.sizes| == |qs| && forall q :: q in qs ==> q.shape != [] && r.sizes[q.rank] == q.shape[0]
    ensures r.rtype == Run(Allreduce) || r.rtype == Run(Adasum) ==>
              forall q :: q in qs ==>
                && r.dtype == q.dtype && r.sizes == [Product(q.shape)]
                && r.prescale == q.prescale && r.postscale == q.postscale
  {
    var op := qs[0].op;
    var error := CheckReduction(qs);
    var sizes: seq<nat> := [];
    if op == Allgather || op == Alltoall {
      error, sizes := CheckGather(qs, error);
    }
    if op == Allreduce || op == Adasum {
      sizes := [Product(qs[0].shape)];
    }
    if op == Broadcast {
      error := CheckRoot(qs, error);
    }
    var devices;
    error, devices := CheckDevices(qs, error);
    r := Response(Error, [name], UInt8, devices, [], 1.0, 1.0);
    if !error {
      if op == Allgather {
        r := r.(rtype := Run(op), sizes := sizes);
      } else if op == Allreduce || op == Adasum {
        r := r.(rtype := Run(op), sizes := sizes, dtype := qs[0].dtype,
                prescale := qs[0].prescale, postscale := qs[0].postscale);
      } else {
        r := r.(rtype := Run(op));
      }
    }
    ChecksMeanAgreement(qs);
    if !error {
      Assembled(name, qs, sizes);
    }
    ByArrival(name, qs);
  }

  lemma {:induction false} ByArrival(name: string, qs: seq<Request>)
    requires |qs| > 0 && OnePerRank(qs)
    ensures var r := Respond(name, InRankOrder(qs));
            && |r.devices| == |qs| && (forall q :: q in qs ==> r.devices[q.rank] == q.device)
            && (r.rtype == Error || r.rtype == Run(qs[0].op))
            && (r.rtype == Run(Allgather) ==>
                  |r.sizes| == |qs| && forall q :: q in qs ==> q.shape != [] && r.sizes[q.rank] == q.shape[0])
            && (r.rtype == Run(Allreduce) || r.rtype == Run(Adasum) ==>
                  forall q :: q in qs ==>
                    && r.dtype == q.dtype && r.sizes == [Product(q.shape)]
                    && r.prescale == q.prescale && r.postscale == q.postscale)
  {
    var o := InRankOrder(qs);
    ResponseMeans(name, o);
    forall q | q in qs ensures o[q.rank] == q && q in o { RankOrderHas(qs, q); assert o[q.rank] == q; }
    assert qs[0] in qs;
  }

  /** All the checks together are exactly `AgreeWithFirst`. */
  lemma {:induction false} ChecksMeanAgreement(qs: seq<Request>)
    requires |qs| > 0 && OnePerRank(qs)
    ensures Agree(InRankOrder(qs)) <==>
              && (forall i :: 1 <= i < |qs| ==> SameReduction(qs[0], qs[i]))
              && (IsGather(qs[0].op) ==> qs[0].shape != [] && forall i :: 1 <= i < |qs| ==> SameSlice(qs[0], qs[i]))
              && (qs[0].op == Broadcast ==> forall i :: 1 <= i < |qs| ==> qs[i].root == qs[0].root)
              && (forall i :: 1 <= i < |qs| ==> OnCpu(qs[i]) == OnCpu(qs[0]))
  {
    FirstIsEnough(qs);
    assert Compatible(qs[0], qs[0]);
    assert forall i :: 0 <= i < |qs| ==>
      (Compatible(qs[0], qs[i]) <==>
        && SameReduction(qs[0], qs[i])
        && (IsGather(qs[0].op) ==> SameSlice(qs[0], qs[i]))
        && (qs[0].op == Broadcast ==> qs[i].root == qs[0].root)
        && OnCpu(qs[i]) == OnCpu(qs[0]));
  }

  /** When the checks pass, the fields taken from the first request, and the first
      dimensions stored by rank, are those of the requests in rank order. */
  lemma {:induction false} Assembled(name: string, qs: seq<Request>, sizes: seq<nat>)
    requires |qs| > 0 && OnePerRank(qs) && Agree(InRankOrder(qs))
    requires IsReduction(qs[0].op) ==> sizes == [Product(qs[0].shape)]
    requires qs[0].op == Allgather ==> |sizes| == |qs|
    requires qs[0].op == Allgather ==>
               forall i :: 0 <= i < |qs| ==> qs[i].shape != [] && sizes[qs[i].rank] == qs[i].shape[0]
    ensures var r := Respond(name, InRankOrder(qs));
            && r.rtype == Run(qs[0].op)
            && (IsReduction(qs[0].op) || qs[0].op == Allgather ==> r.sizes == sizes)
            && (IsReduction(qs[0].op) ==>
                  r.dtype == qs[0].dtype && r.prescale == qs[0].prescale && r.postscale == qs[0].postscale)
  {
    var o := InRankOrder(qs);
    RankOrderHas(qs, qs[0]);
    assert Compatible(o[0], o[qs[0].rank]);
    if qs[0].op == Allgather {
      forall k | 0 <= k < |o| ensures o[k].shape != [] && o[k].shape[0] == sizes[k] {
        assert o[k] == qs[IndexOfRank(qs, k)];
      }
      assert Respond(name, o).sizes == sizes;
    }
  }
}
