/** Tensor fusion: Controller::FuseResponses packs single responses into fused ones, and
    ResponseCache::put unpacks them again. `Groups` is the specification of the packing. */
module Fusion {
  import opened Messages
  import opened Products
  import opened Seqs

  const FUSION_BUFFER_ATOMIC_UNIT: nat := 64
  const BATCHED_D2D_PADDING: nat := 16

  /** Smallest multiple of `unit` that is not below `x`. */
  function RoundUp(x: nat, unit: nat): (y: nat)
    requires unit > 0
    ensures x <= y < x + unit && y % unit == 0
  {
    RoundUpFacts(x, unit);
    ((x + unit - 1) / unit) * unit
  }

  lemma {:induction false} RoundUpFacts(x: nat, unit: nat)
    requires unit > 0
    ensures var y := ((x + unit - 1) / unit) * unit; x <= y < x + unit && y % unit == 0
  {
    var k := (x + unit - 1) / unit;
    assert x + unit - 1 == k * unit + (x + unit - 1) % unit;
    MultipleMod(k, unit);
  }

  lemma {:induction false} MultipleMod(k: nat, unit: nat)
    requires unit > 0
    ensures (k * unit) % unit == 0 && (k * unit) / unit == k
  {
    var q, r := (k * unit) / unit, (k * unit) % unit;
    assert k * unit == q * unit + r;
    assert (k - q) * unit == r;
    MulSign(k - q, unit);
  }

  lemma {:induction false} MulSign(x: int, unit: int)
    requires unit > 0
    ensures x >= 1 ==> x * unit >= unit
    ensures x <= -1 ==> x * unit <= -unit
  {
  }

  /** Controller::TensorFusionThresholdBytes: on a homogeneous cluster the proposed
      threshold is raised so that every local rank gets whole atomic units of float64. */
  function FusionThreshold(proposed: nat, homogeneous: bool, localSize: nat): (t: nat)
    requires localSize > 0
    ensures proposed <= t
    ensures homogeneous ==> t % (localSize * TypeSize(Float64) * FUSION_BUFFER_ATOMIC_UNIT) == 0
    ensures !homogeneous ==> t == proposed
    ensures t < proposed + localSize * TypeSize(Float64) * FUSION_BUFFER_ATOMIC_UNIT
  {
    if homogeneous then RoundUp(proposed, localSize * TypeSize(Float64) * FUSION_BUFFER_ATOMIC_UNIT) else proposed
  }

  /** `pad` says that batched device-to-device copies are in use. */
  datatype Config = Config(threshold: nat, pad: bool)

  /** The dimensions of one slice of a tensor along its first dimension. */
  function SliceDims(shape: seq<nat>): seq<nat> {
    if shape == [] then [] else shape[1..]
  }

  /** What fusion needs to know of a response: its bytes in a fused reduction, its bytes in
      a fused allgather, and the data type in the tensor table. */
  datatype Cost = Cost(reduce: nat, gather: nat, dtype: DataType)

  function CostOf(cfg: Config, r: Response, p: Params): Cost {
    Cost(ReduceBytes(cfg, r), GatherBytes(r, p), p.dtype)
  }

  type Costs = map<Response, Cost>

  function CostsOf(cfg: Config, table: map<string, Params>, rs: seq<Response>): Costs {
    map r | r in rs && NameOf(r) in table :: CostOf(cfg, r, table[NameOf(r)])
  }

  predicate Known(costs: Costs, rs: seq<Response>) {
    forall r :: r in rs ==> r in costs
  }

  /** Default values of the fields that only reductions fill in. */
  predicate Plain(r: Response) {
    r.dtype == UInt8 && r.prescale == 1.0 && r.postscale == 1.0
  }

  /** The form of a response for one tensor, as the coordinator builds it. */
  predicate Single(r: Response) {
    && |r.names| == 1
    && match r.rtype
       case Error => Plain(r) && r.sizes == []
       case Run(op) =>
         if IsReduction(op) then |r.sizes| == 1
         else Plain(r) && (if op == Allgather then |r.sizes| == |r.devices| else r.sizes == [])
  }

  predicate Reduces(r: Response) { r.rtype.Run? && IsReduction(r.rtype.op) }
  predicate Gathers(r: Response) { r.rtype == Run(Allgather) }

  /** Bytes a response adds to a fused reduction. */
  function ReduceBytes(cfg: Config, r: Response): nat {
    var bytes := if r.sizes == [] then 0 else r.sizes[0] * TypeSize(r.dtype);
    if cfg.pad then RoundUp(bytes, BATCHED_D2D_PADDING) else bytes
  }

  /** Bytes of the gathered output (Controller::TotalByteSizeOfAllgatherOutput). */
  function GatherBytes(r: Response, p: Params): nat {
    Sum(r.sizes) * Product(SliceDims(p.shape)) * TypeSize(p.dtype)
  }

  /** Bytes of `r` as counted while packing behind the head `h`. */
  function Bytes(costs: Costs, h: Response, r: Response): nat
    requires r in costs
  {
    if Reduces(h) then costs[r].reduce else costs[r].gather
  }

  /** `r` can share one collective with the head `h`. */
  predicate Fusable(costs: Costs, h: Response, r: Response)
    requires h in costs && r in costs
  {
    && h.rtype == r.rtype
    && h.devices == r.devices
    && (if Reduces(h)
        then h.dtype == r.dtype && h.prescale == r.prescale && h.postscale == r.postscale
        else costs[h].dtype == costs[r].dtype)
  }

  /** One look-ahead pass: which of `rest` join the head, and which are left for later.
      `bytes` is the size packed so far and `skipped` the size passed over. */
  function Absorb(threshold: nat, costs: Costs, h: Response, bytes: nat, skipped: nat, rest: seq<Response>)
      : (p: (seq<Response>, seq<Response>))
    requires h in costs && Known(costs, rest)
    ensures |p.1| <= |rest|
    ensures forall r :: r in p.1 ==> r in rest
    decreases |rest|
  {
    if rest == [] then ([], [])
    else
      var r := rest[0];
      var w := Bytes(costs, h, r);
      if Fusable(costs, h, r) && bytes + w <= threshold then
        var (taken, left) := Absorb(threshold, costs, h, bytes + w, skipped, rest[1..]);
        ([r] + taken, left)
      else if bytes + skipped + w <= threshold then
        var (taken, left) := Absorb(threshold, costs, h, bytes, skipped + w, rest[1..]);
        (taken, [r] + left)
      else ([], rest)
  }

  /** The first packed group and what is left. */
  function FirstGroup(threshold: nat, costs: Costs, rs: seq<Response>): (p: (seq<Response>, seq<Response>))
    requires rs != [] && Known(costs, rs)
    ensures |p.1| < |rs|
    ensures Known(costs, p.1)
  {
    var h := rs[0];
    if Reduces(h) || Gathers(h) then
      var (taken, left) := Absorb(threshold, costs, h, Bytes(costs, h, h), 0, rs[1..]);
      ([h] + taken, left)
    else ([h], rs[1..])
  }

  /** The groups of responses that are fused, in the order they are emitted. */
  function Groups(threshold: nat, costs: Costs, rs: seq<Response>): seq<seq<Response>>
    requires Known(costs, rs)
    decreases |rs|
  {
    if rs == [] then []
    else
      var (group, left) := FirstGroup(threshold, costs, rs);
      [group] + Groups(threshold, costs, left)
  }

  // ---------------------------------------------------------------- what packing guarantees

  ghost function TotalBytes(costs: Costs, h: Response, group: seq<Response>): nat
    requires Known(costs, group)
  {
    if group == [] then 0 else Bytes(costs, h, group[0]) + TotalBytes(costs, h, group[1..])
  }

  /** The pass divides `rest` in two, each part in the original order. */
  lemma {:induction false} AbsorbOrder(threshold: nat, costs: Costs, h: Response, bytes: nat, skipped: nat,
                                       rest: seq<Response>)
    requires h in costs && Known(costs, rest)
    ensures var p := Absorb(threshold, costs, h, bytes, skipped, rest); Interleaved(p.0, p.1, rest)
    decreases |rest|
  {
    InterleavedNone(rest);
    if rest != [] {
      var r, tail := rest[0], rest[1..];
      var w := Bytes(costs, h, r);
      assert rest == [r] + tail;
      if Fusable(costs, h, r) && bytes + w <= threshold {
        AbsorbOrder(threshold, costs, h, bytes + w, skipped, tail);
        var q := Absorb(threshold, costs, h, bytes + w, skipped, tail);
        InterleavedCons(r, q.0, q.1, tail);
      } else if bytes + skipped + w <= threshold {
        AbsorbOrder(threshold, costs, h, bytes, skipped + w, tail);
        var q := Absorb(threshold, costs, h, bytes, skipped + w, tail);
        InterleavedCons(r, q.0, q.1, tail);
      }
    }
  }

  /** What joins the head is compatible with it and stays under the threshold. */
  lemma {:induction false} AbsorbFits(threshold: nat, costs: Costs, h: Response, bytes: nat, skipped: nat,
                                      rest: seq<Response>)
    requires h in costs && Known(costs, rest)
    ensures var taken := Absorb(threshold, costs, h, bytes, skipped, rest).0;
            && Known(costs, taken)
            && (forall i :: 0 <= i < |taken| ==> Fusable(costs, h, taken[i]))
            && (taken != [] ==> bytes + TotalBytes(costs, h, taken) <= threshold)
    decreases |rest|
  {
    if rest != [] {
      var r, tail := rest[0], rest[1..];
      var w := Bytes(costs, h, r);
      if Fusable(costs, h, r) && bytes + w <= threshold {
        AbsorbFits(threshold, costs, h, bytes + w, skipped, tail);
        var q := Absorb(threshold, costs, h, bytes + w, skipped, tail);
        assert ([r] + q.0)[1..] == q.0;
      } else if bytes + skipped + w <= threshold {
        AbsorbFits(threshold, costs, h, bytes, skipped + w, tail);
      }
    }
  }

  /** A group is what the collective may run in one go: its members are compatible with its
      head and, when there are two or more, fit together under the threshold. */
  ghost predicate GoodGroup(threshold: nat, costs: Costs, group: seq<Response>) {
    && group != []
    && Known(costs, group)
    && (forall i :: 1 <= i < |group| ==> (Reduces(group[0]) || Gathers(group[0])) && Fusable(costs, group[0], group[i]))
    && (|group| >= 2 ==> TotalBytes(costs, group[0], group) <= threshold)
  }

  predicate NoneEmpty<T>(groups: seq<seq<T>>) {
    forall i :: 0 <= i < |groups| ==> groups[i] != []
  }

  ghost function Heads(groups: seq<seq<Response>>): seq<Response>
    requires NoneEmpty(groups)
  {
    if groups == [] then [] else [groups[0][0]] + Heads(groups[1..])
  }

  lemma {:induction false} FirstGroupFacts(threshold: nat, costs: Costs, rs: seq<Response>)
    requires rs != [] && Known(costs, rs)
    ensures var p := FirstGroup(threshold, costs, rs);
            && GoodGroup(threshold, costs, p.0)
            && p.0[0] == rs[0]
            && Interleaved(p.0[1..], p.1, rs[1..])
  {
    var h, rest := rs[0], rs[1..];
    var p := FirstGroup(threshold, costs, rs);
    var taken := p.0[1..];
    assert p.0 == [h] + taken;
    if Reduces(h) || Gathers(h) {
      AbsorbOrder(threshold, costs, h, Bytes(costs, h, h), 0, rest);
      AbsorbFits(threshold, costs, h, Bytes(costs, h, h), 0, rest);
    } else {
      InterleavedNone(rest);
    }
  }

  ghost predicate GoodGroups(threshold: nat, costs: Costs, groups: seq<seq<Response>>, rs: seq<Response>) {
    forall i :: 0 <= i < |groups| ==> GoodGroup(threshold, costs, groups[i]) && Subsequence(groups[i], rs)
  }

  lemma {:induction false} SubsequenceLater<T>(x: T, a: seq<T>, b: seq<T>, s: seq<T>)
    requires Subsequence(a, b) && Subsequence(b, s)
    ensures Subsequence(a, [x] + s) && Subsequence([x] + a, [x] + s)
  {
    SubsequenceTransitive(a, b, s);
    SubsequenceCons(x, a, s);
  }

  /** Each group is an in-order selection of the input, compatible with its head and within
      the threshold; and the heads keep the input order. */
  lemma {:induction false} GroupsAreGood(threshold: nat, costs: Costs, rs: seq<Response>)
    requires Known(costs, rs)
    ensures var groups := Groups(threshold, costs, rs);
            GoodGroups(threshold, costs, groups, rs) && NoneEmpty(groups) && Subsequence(Heads(groups), rs)
    decreases |rs|
  {
    if rs == [] {
      SubsequenceSelf(rs);
    } else {
      var (group, left) := FirstGroup(threshold, costs, rs);
      GroupsAreGood(threshold, costs, left);
      FirstGroupFacts(threshold, costs, rs);
      GoodAfter(threshold, costs, rs, group, left, Groups(threshold, costs, left));
    }
  }

  /** A good first group in front of good groups of what it leaves. */
  lemma {:induction false} GoodAfter(threshold: nat, costs: Costs, rs: seq<Response>, group: seq<Response>,
                                     left: seq<Response>, later: seq<seq<Response>>)
    requires rs != [] && GoodGroup(threshold, costs, group) && group[0] == rs[0]
    requires Interleaved(group[1..], left, rs[1..])
    requires GoodGroups(threshold, costs, later, left) && NoneEmpty(later) && Subsequence(Heads(later), left)
    ensures var groups := [group] + later;
            GoodGroups(threshold, costs, groups, rs) && NoneEmpty(groups) && Subsequence(Heads(groups), rs)
  {
    var h, rest, groups := rs[0], rs[1..], [group] + later;
    FirstIsSubsequence(rs, group, left);
    forall i | 0 <= i < |groups| ensures GoodGroup(threshold, costs, groups[i]) && Subsequence(groups[i], rs) {
      if i > 0 {
        assert groups[i] == later[i - 1];
        SubsequenceLater(h, groups[i], left, rest);
      }
    }
    HeadsAfter(h, rest, group, left, later);
  }

  lemma {:induction false} FirstIsSubsequence(rs: seq<Response>, group: seq<Response>, left: seq<Response>)
    requires rs != [] && group != [] && group[0] == rs[0] && Interleaved(group[1..], left, rs[1..])
    ensures Subsequence(group, rs) && Subsequence(left, rs[1..]) && rs == [rs[0]] + rs[1..]
  {
    InterleavedParts(group[1..], left, rs[1..]);
    SubsequenceCons(rs[0], group[1..], rs[1..]);
    assert rs == [rs[0]] + rs[1..] && group == [rs[0]] + group[1..];
  }

  lemma {:induction false} HeadsAfter(h: Response, rest: seq<Response>, group: seq<Response>, left: seq<Response>,
                                      later: seq<seq<Response>>)
    requires group != [] && group[0] == h && NoneEmpty(later)
    requires Subsequence(Heads(later), left) && Subsequence(left, rest)
    ensures NoneEmpty([group] + later) && Subsequence(Heads([group] + later), [h] + rest)
  {
    assert ([group] + later)[1..] == later;
    SubsequenceLater(h, Heads(later), left, rest);
  }

  /** Every response is in exactly one group. */
  lemma {:induction false} GroupsCover(threshold: nat, costs: Costs, rs: seq<Response>)
    requires Known(costs, rs)
    ensures multiset(Flatten(Groups(threshold, costs, rs))) == multiset(rs)
    decreases |rs|
  {
    if rs != [] {
      var p := FirstGroup(threshold, costs, rs);
      FirstGroupCovers(threshold, costs, rs);
      GroupsCover(threshold, costs, p.1);
      var later := Groups(threshold, costs, p.1);
      assert Groups(threshold, costs, rs) == [p.0] + later;
      assert ([p.0] + later)[1..] == later;
    }
  }

  lemma {:induction false} FirstGroupCovers(threshold: nat, costs: Costs, rs: seq<Response>)
    requires rs != [] && Known(costs, rs)
    ensures var p := FirstGroup(threshold, costs, rs); multiset(rs) == multiset(p.0) + multiset(p.1)
  {
    var p := FirstGroup(threshold, costs, rs);
    FirstGroupFacts(threshold, costs, rs);
    InterleavedCons(rs[0], p.0[1..], p.1, rs[1..]);
    assert p.0 == [rs[0]] + p.0[1..] && rs == [rs[0]] + rs[1..];
    InterleavedParts(p.0, p.1, rs);
  }

  // ---------------------------------------------------------------- fusing and splitting

  function AllNames(group: seq<Response>): seq<string> {
    seq(|group|, i requires 0 <= i < |group| => NameOf(group[i]))
  }

  function AllSizes(group: seq<Response>): seq<nat> {
    if group == [] then [] else AllSizes(group[..|group| - 1]) + group[|group| - 1].sizes
  }

  /** The fused response of a group: the head with the names and sizes of all. */
  function Merge(group: seq<Response>): Response
    requires group != []
  {
    group[0].(names := AllNames(group), sizes := AllSizes(group))
  }

  function MergeAll(groups: seq<seq<Response>>): seq<Response>
    requires NoneEmpty(groups)
  {
    if groups == [] then [] else [Merge(groups[0])] + MergeAll(groups[1..])
  }

  /** The `i`-th of `parts` equal pieces of `xs`. */
  function Chunk(xs: seq<nat>, parts: nat, i: nat): seq<nat>
    requires i < parts
  {
    var k := |xs| / parts;
    ChunkBounds(|xs|, parts, i);
    xs[i * k..i * k + k]
  }

  lemma {:induction false} ChunkBounds(len: nat, parts: nat, i: nat)
    requires i < parts
    ensures 0 <= i * (len / parts) <= i * (len / parts) + len / parts <= len
  {
    var k := len / parts;
    assert parts * k <= len;
    assert (i + 1) * k <= parts * k by { MulMonotone(i + 1, parts, k); }
  }

  lemma {:induction false} MulMonotone(a: nat, b: nat, k: nat)
    requires a <= b
    ensures a * k <= b * k
  {
    assert (b - a) * k >= 0;
    assert (b - a) * k == b * k - a * k;
  }

  /** The unfused responses ResponseCache::put recovers from a fused one. */
  function Split(r: Response): seq<Response> {
    if |r.names| > 1 then
      seq(|r.names|, i requires 0 <= i < |r.names| =>
        r.(names := [r.names[i]], sizes := Chunk(r.sizes, |r.names|, i)))
    else [r]
  }

  function SplitAll(rs: seq<Response>): seq<Response> {
    if rs == [] then [] else Split(rs[0]) + SplitAll(rs[1..])
  }

  /** Every name of a listed response has its own part, with the same fields. */
  lemma {:induction false} PartFor(rs: seq<Response>, r: Response, x: string) returns (s: Response)
    requires r in rs && x in r.names
    ensures s in SplitAll(rs) && s.names == [x] && s == r.(names := s.names, sizes := s.sizes)
  {
    if r == rs[0] {
      var i :| 0 <= i < |r.names| && r.names[i] == x;
      s := Split(r)[if |r.names| > 1 then i else 0];
      assert s in Split(r);
    } else {
      s := PartFor(rs[1..], r, x);
    }
  }

  /** Members of a group differ only in name and sizes, and have equally many sizes. */
  ghost predicate Uniform(group: seq<Response>) {
    && group != []
    && forall i :: 0 <= i < |group| ==>
         && |group[i].names| == 1
         && |group[i].sizes| == |group[0].sizes|
         && group[i] == group[0].(names := group[i].names, sizes := group[i].sizes)
  }

  lemma {:induction false} GoodGroupUniform(threshold: nat, costs: Costs, group: seq<Response>)
    requires GoodGroup(threshold, costs, group)
    requires forall r :: r in group ==> Single(r)
    ensures Uniform(group)
  {
    var h := group[0];
    assert Single(h);
    forall i | 0 <= i < |group|
      ensures |group[i].names| == 1 && |group[i].sizes| == |h.sizes|
      ensures group[i] == h.(names := group[i].names, sizes := group[i].sizes)
    {
      assert Single(group[i]);
    }
  }

  lemma {:induction false} AllSizesLength(group: seq<Response>, k: nat)
    requires forall i :: 0 <= i < |group| ==> |group[i].sizes| == k
    ensures |AllSizes(group)| == |group| * k
  {
    if group != [] {
      var n := |group| - 1;
      AllSizesLength(group[..n], k);
      MulSuccessor(n, k);
    }
  }

  lemma {:induction false} MulSuccessor(n: nat, k: nat)
    ensures (n + 1) * k == n * k + k
  {
  }

  lemma {:induction false} AllSizesChunk(group: seq<Response>, k: nat, i: nat)
    requires i < |group| && forall j :: 0 <= j < |group| ==> |group[j].sizes| == k
    ensures 0 <= i * k <= i * k + k <= |AllSizes(group)| && AllSizes(group)[i * k..i * k + k] == group[i].sizes
    decreases |group|
  {
    var n := |group| - 1;
    var front := group[..n];
    AllSizesLength(front, k);
    AllSizesLength(group, k);
    if i < n {
      AllSizesChunk(front, k, i);
      var a := i * k;
      assert AllSizes(group)[a..a + k] == AllSizes(front)[a..a + k];
    } else {
      var a := n * k;
      assert AllSizes(group)[a..a + k] == group[n].sizes;
    }
  }

  /** Splitting a fused response gives back its members, field by field and in order. */
  lemma {:induction false} SplitUndoesMerge(group: seq<Response>)
    requires Uniform(group)
    ensures Split(Merge(group)) == group
  {
    var m := Merge(group);
    var k := |group[0].sizes|;
    AllSizesLength(group, k);
    if |group| > 1 {
      assert |m.sizes| / |group| == k by { MultipleMod(k, |group|); }
      forall i | 0 <= i < |group| ensures Split(m)[i] == group[i] {
        AllSizesChunk(group, k, i);
        assert Chunk(m.sizes, |group|, i) == group[i].sizes;
        assert [m.names[i]] == group[i].names;
      }
    } else {
      assert group == [group[0]];
      assert m.names == group[0].names;
      assert m.sizes == group[0].sizes by {
        assert group[..0] == [];
        assert AllSizes(group) == AllSizes(group[..0]) + group[0].sizes;
      }
    }
  }

  lemma {:induction false} SplitAllUndoesMergeAll(groups: seq<seq<Response>>)
    requires forall i :: 0 <= i < |groups| ==> Uniform(groups[i])
    ensures NoneEmpty(groups)
    ensures SplitAll(MergeAll(groups)) == Flatten(groups)
  {
    if groups != [] {
      SplitUndoesMerge(groups[0]);
      SplitAllUndoesMergeAll(groups[1..]);
      assert MergeAll(groups)[1..] == MergeAll(groups[1..]);
    }
  }

  /** All tensor names of a response list, in order. */
  function ListNames(rs: seq<Response>): seq<string> {
    if rs == [] then [] else rs[0].names + ListNames(rs[1..])
  }

  lemma {:induction false} MergedNames(groups: seq<seq<Response>>)
    requires NoneEmpty(groups)
    ensures ListNames(MergeAll(groups)) == AllNames(Flatten(groups))
  {
    if groups != [] {
      MergedNames(groups[1..]);
      assert MergeAll(groups)[1..] == MergeAll(groups[1..]);
      AllNamesConcat(groups[0], Flatten(groups[1..]));
    }
  }

  lemma {:induction false} AllNamesConcat(a: seq<Response>, b: seq<Response>)
    ensures AllNames(a + b) == AllNames(a) + AllNames(b)
  {
  }

  /** The fused list. */
  function Fuse(threshold: nat, costs: Costs, rs: seq<Response>): seq<Response>
    requires Known(costs, rs)
  {
    GroupsAreGood(threshold, costs, rs);
    MergeAll(Groups(threshold, costs, rs))
  }

  /** Splitting undoes fusing: unpacking the fused list returns exactly the responses that
      were packed, each once and field by field. */
  lemma {:induction false} SplitUndoesFuse(threshold: nat, costs: Costs, rs: seq<Response>)
    requires Known(costs, rs)
    requires forall r :: r in rs ==> Single(r)
    ensures multiset(SplitAll(Fuse(threshold, costs, rs))) == multiset(rs)
    ensures ListNames(Fuse(threshold, costs, rs)) == AllNames(SplitAll(Fuse(threshold, costs, rs)))
  {
    var groups := Groups(threshold, costs, rs);
    GroupsAreGood(threshold, costs, rs);
    GroupsCover(threshold, costs, rs);
    forall i | 0 <= i < |groups| ensures Uniform(groups[i]) { GroupUniform(threshold, costs, rs, i); }
    SplitAllUndoesMergeAll(groups);
    MergedNames(groups);
  }

  lemma {:induction false} GroupUniform(threshold: nat, costs: Costs, rs: seq<Response>, i: nat)
    requires Known(costs, rs) && i < |Groups(threshold, costs, rs)| && forall r :: r in rs ==> Single(r)
    ensures var group := Groups(threshold, costs, rs)[i];
            GoodGroup(threshold, costs, group) && Uniform(group) && forall r :: r in group ==> r in rs
  {
    var groups := Groups(threshold, costs, rs);
    GroupsAreGood(threshold, costs, rs);
    GroupsCover(threshold, costs, rs);
    forall r | r in groups[i] ensures r in rs {
      FlattenMembers(groups, r);
      assert r in multiset(rs);
    }
    GoodGroupUniform(threshold, costs, groups[i]);
  }

  /** What runs as one collective: only reductions and allgathers, and of an allgather, whose
      response carries no data type, only tensors of one data type. */
  lemma {:induction false} FusedAlike(cfg: Config, table: map<string, Params>, rs: seq<Response>, r: Response)
    requires forall r :: r in rs ==> NameOf(r) in table && Single(r)
    requires Known(CostsOf(cfg, table, rs), rs) && r in Fuse(cfg.threshold, CostsOf(cfg, table, rs), rs)
    ensures r.names != [] && (|r.names| >= 2 ==> r.rtype in {Run(Allreduce), Run(Adasum), Run(Allgather)})
    ensures forall x :: x in r.names ==> x in table
    ensures r.rtype == Run(Allgather) ==> forall x :: x in r.names ==> table[x].dtype == table[r.names[0]].dtype
    ensures forall s :: s in Split(r) ==>
              && s in rs && s.rtype == r.rtype && s.devices == r.devices
              && s.dtype == r.dtype && s.prescale == r.prescale && s.postscale == r.postscale
  {
    var costs := CostsOf(cfg, table, rs);
    var groups := Groups(cfg.threshold, costs, rs);
    GroupsAreGood(cfg.threshold, costs, rs);
    var list := MergeAll(groups);
    MergeAllLength(groups);
    var i :| 0 <= i < |list| && list[i] == r;
    MergeAllAt(groups, i);
    GroupUniform(cfg.threshold, costs, rs, i);
    GroupAlike(cfg, table, rs, groups[i]);
    SplitUndoesMerge(groups[i]);
  }

  lemma {:induction false} MergeAllLength(groups: seq<seq<Response>>)
    requires NoneEmpty(groups)
    ensures |MergeAll(groups)| == |groups|
  {
    if groups != [] { MergeAllLength(groups[1..]); }
  }

  lemma {:induction false} GroupAlike(cfg: Config, table: map<string, Params>, rs: seq<Response>, group: seq<Response>)
    requires forall r :: r in rs ==> NameOf(r) in table
    requires GoodGroup(cfg.threshold, CostsOf(cfg, table, rs), group) && forall r :: r in group ==> r in rs
    ensures var r := Merge(group);
            && r.names != [] && (|r.names| >= 2 ==> r.rtype in {Run(Allreduce), Run(Adasum), Run(Allgather)})
            && (forall x :: x in r.names ==> x in table)
            && (r.rtype == Run(Allgather) ==> forall x :: x in r.names ==> table[x].dtype == table[r.names[0]].dtype)
  {
    var r := Merge(group);
    assert group[0] in group;
    if |group| >= 2 { assert Reduces(group[0]) || Gathers(group[0]); }
    forall x | x in r.names
      ensures x in table && (r.rtype == Run(Allgather) ==> table[x].dtype == table[NameOf(group[0])].dtype)
    {
      var i :| 0 <= i < |group| && NameOf(group[i]) == x;
      assert group[i] in group;
    }
  }

  lemma {:induction false} MergeAllAt(groups: seq<seq<Response>>, i: nat)
    requires NoneEmpty(groups) && i < |groups|
    ensures |MergeAll(groups)| == |groups| && MergeAll(groups)[i] == Merge(groups[i])
  {
    if |groups| > 1 { MergeAllAt(groups[1..], if i > 0 then i - 1 else 0); }
  }

  // ---------------------------------------------------------------- the code

  /** Controller::FuseResponses. `responses` is the deque of single responses; `table` is
      the tensor table consulted for the shapes of gathered tensors. */
  method FuseResponses(cfg: Config, responses: seq<Response>, table: map<string, Params>) returns (list: seq<Response>)
    requires forall r :: r in responses ==> NameOf(r) in table && Single(r)
    ensures Known(CostsOf(cfg, table, responses), responses)
    ensures list == Fuse(cfg.threshold, CostsOf(cfg, table, responses), responses)
    ensures multiset(SplitAll(list)) == multiset(responses)
    ensures forall r :: r in list && |r.names| >= 2 ==> r.rtype in {Run(Allreduce), Run(Adasum), Run(Allgather)}
    ensures forall r :: r in list && r.rtype == Run(Allgather) ==>
              forall x :: x in r.names ==>
                x in table && r.names[0] in table && table[x].dtype == table[r.names[0]].dtype
    ensures forall r, s :: r in list && s in Split(r) ==>
              && s in responses && s.rtype == r.rtype && s.devices == r.devices
              && s.dtype == r.dtype && s.prescale == r.prescale && s.postscale == r.postscale
  {
    ghost var costs := CostsOf(cfg, table, responses);
    GroupsAreGood(cfg.threshold, costs, responses);
    ghost var done: seq<seq<Response>> := [];
    var queue := responses;
    list := [];
    while queue != []
      invariant forall r :: r in queue ==> r in costs && Single(r)
      invariant NoneEmpty(done)
      invariant done + Groups(cfg.threshold, costs, queue) == Groups(cfg.threshold, costs, responses)
      invariant list == MergeAll(done)
      decreases |queue|
    {
      ghost var p := FirstGroup(cfg.threshold, costs, queue);
      NextGroup(cfg.threshold, costs, responses, done, queue);
      var response := queue[0];
      queue := queue[1..];
      assert Single(response);
      MergeOne(response);
      if Reduces(response) {
        response, queue := PackReduction(cfg, costs, response, queue);
      } else if Gathers(response) {
        response, queue := PackGather(cfg, costs, table, response, queue);
      }
      assert queue == p.1 && response == Merge(p.0);
      done := done + [p.0];
      list := list + [response];
    }
    assert done + [] == done;
    SplitUndoesFuse(cfg.threshold, costs, responses);
    forall r | r in list { FusedAlike(cfg, table, responses, r); }
  }

  lemma {:induction false} GroupsNext(threshold: nat, costs: Costs, queue: seq<Response>)
    requires Known(costs, queue) && queue != []
    ensures var p := FirstGroup(threshold, costs, queue);
            && p.0 != [] && Groups(threshold, costs, queue) == [p.0] + Groups(threshold, costs, p.1)
            && forall r :: r in p.1 ==> r in queue
  {
    FirstGroupFacts(threshold, costs, queue);
    var p := FirstGroup(threshold, costs, queue);
    InterleavedParts(p.0[1..], p.1, queue[1..]);
    assert Groups(threshold, costs, queue) == [p.0] + Groups(threshold, costs, p.1);
    forall r | r in p.1 ensures r in queue {
      assert r in multiset(p.1) && r in multiset(queue[1..]);
    }
  }

  lemma {:induction false} NextGroup(threshold: nat, costs: Costs, rs: seq<Response>, done: seq<seq<Response>>,
                                     queue: seq<Response>)
    requires Known(costs, rs) && Known(costs, queue) && queue != [] && NoneEmpty(done)
    requires done + Groups(threshold, costs, queue) == Groups(threshold, costs, rs)
    ensures var p := FirstGroup(threshold, costs, queue);
            && NoneEmpty(done + [p.0])
            && done + [p.0] + Groups(threshold, costs, p.1) == Groups(threshold, costs, rs)
            && MergeAll(done + [p.0]) == MergeAll(done) + [Merge(p.0)]
            && forall r :: r in p.1 ==> r in queue
  {
    GroupsNext(threshold, costs, queue);
    var (group, left) := FirstGroup(threshold, costs, queue);
    ConcatAssociative(done, [group], Groups(threshold, costs, left));
    MergeAllSnoc(done, group);
  }

  lemma {:induction false} MergeOne(r: Response)
    requires |r.names| == 1
    ensures Merge([r]) == r
  {
    assert [r][..0] == [];
    assert AllSizes([r]) == r.sizes;
  }

  lemma {:induction false} MergeAllSnoc(groups: seq<seq<Response>>, g: seq<Response>)
    requires g != [] && NoneEmpty(groups)
    ensures MergeAll(groups + [g]) == MergeAll(groups) + [Merge(g)]
  {
    if groups != [] {
      assert (groups + [g])[1..] == groups[1..] + [g];
      MergeAllSnoc(groups[1..], g);
    } else {
      assert groups + [g] == [g] && [g][1..] == [];
    }
  }

  lemma {:induction false} MergeSnoc(group: seq<Response>, r: Response)
    requires group != []
    ensures Merge(group + [r]) == Merge(group).(names := Merge(group).names + [NameOf(r)],
                                                sizes := Merge(group).sizes + r.sizes)
  {
    assert (group + [r])[..|group|] == group;
    assert AllNames(group + [r]) == AllNames(group) + [NameOf(r)];
  }

  /** The packing pass that started behind `h` and ends in `goal` has so far taken `group`
      and passed over `left`, and still has `queue` to look at. */
  ghost predicate Resumes(threshold: nat, costs: Costs, h: Response, goal: (seq<Response>, seq<Response>),
                          group: seq<Response>, bytes: nat, left: seq<Response>, skipped: nat, queue: seq<Response>)
  {
    && h in costs
    && Known(costs, queue)
    && var p := Absorb(threshold, costs, h, bytes, skipped, queue);
       [h] + goal.0 == group + p.0 && goal.1 == left + p.1
  }

  /** The pass is over. */
  ghost predicate Ended(h: Response, goal: (seq<Response>, seq<Response>),
                        group: seq<Response>, left: seq<Response>, queue: seq<Response>)
  {
    [h] + goal.0 == group && goal.1 == left + queue
  }

  lemma {:induction false} Started(threshold: nat, costs: Costs, h: Response, bytes: nat, rest: seq<Response>)
    requires Single(h) && h in costs && Known(costs, rest)
    ensures Merge([h]) == h
    ensures Resumes(threshold, costs, h, Absorb(threshold, costs, h, bytes, 0, rest), [h], bytes, [], 0, rest)
  {
    MergeOne(h);
    var p := Absorb(threshold, costs, h, bytes, 0, rest);
    assert [] + p.1 == p.1;
  }

  lemma {:induction false} TakeNext(threshold: nat, costs: Costs, h: Response, goal: (seq<Response>, seq<Response>),
                                    group: seq<Response>, bytes: nat, left: seq<Response>, skipped: nat,
                                    queue: seq<Response>, w: nat)
    requires Resumes(threshold, costs, h, goal, group, bytes, left, skipped, queue) && queue != []
    requires w == Bytes(costs, h, queue[0])
    requires Fusable(costs, h, queue[0]) && bytes + w <= threshold
    ensures Resumes(threshold, costs, h, goal, group + [queue[0]], bytes + w, left, skipped, queue[1..])
  {
    var p := Absorb(threshold, costs, h, bytes + w, skipped, queue[1..]);
    assert group + ([queue[0]] + p.0) == (group + [queue[0]]) + p.0;
  }

  lemma {:induction false} SkipNext(threshold: nat, costs: Costs, h: Response, goal: (seq<Response>, seq<Response>),
                                    group: seq<Response>, bytes: nat, left: seq<Response>, skipped: nat,
                                    queue: seq<Response>, w: nat)
    requires Resumes(threshold, costs, h, goal, group, bytes, left, skipped, queue) && queue != []
    requires w == Bytes(costs, h, queue[0])
    requires !(Fusable(costs, h, queue[0]) && bytes + w <= threshold)
    ensures bytes + (skipped + w) <= threshold ==>
              Resumes(threshold, costs, h, goal, group, bytes, left + [queue[0]], skipped + w, queue[1..])
    ensures bytes + (skipped + w) > threshold ==> Ended(h, goal, group, left, queue)
  {
    var p := Absorb(threshold, costs, h, bytes, skipped, queue);
    if bytes + (skipped + w) <= threshold {
      var q := Absorb(threshold, costs, h, bytes, skipped + w, queue[1..]);
      assert left + ([queue[0]] + q.1) == (left + [queue[0]]) + q.1;
    } else {
      assert group + [] == group;
    }
  }

  lemma {:induction false} Resumed(threshold: nat, costs: Costs, h: Response, goal: (seq<Response>, seq<Response>),
                                   group: seq<Response>, bytes: nat, left: seq<Response>, skipped: nat)
    requires Resumes(threshold, costs, h, goal, group, bytes, left, skipped, [])
    ensures Ended(h, goal, group, left, [])
  {
    assert group + [] == group;
  }

  /** Look past a response that does not go with the head, as long as it would fit the buffer. */
  method Skip(threshold: nat, ghost costs: Costs, ghost head: Response, ghost goal: (seq<Response>, seq<Response>),
              ghost group: seq<Response>, size: nat, skipped: seq<Response>, skippedSize: nat, queue: seq<Response>,
              nextSize: nat)
    returns (skipped': seq<Response>, skippedSize': nat, queue': seq<Response>, stop: bool)
    requires Resumes(threshold, costs, head, goal, group, size, skipped, skippedSize, queue) && queue != []
    requires nextSize == Bytes(costs, head, queue[0])
    requires !(Fusable(costs, head, queue[0]) && size + nextSize <= threshold)
    ensures queue' == if stop then queue else queue[1..]
    ensures !stop ==> Resumes(threshold, costs, head, goal, group, size, skipped', skippedSize', queue')
    ensures stop ==> Ended(head, goal, group, skipped', queue')
  {
    SkipNext(threshold, costs, head, goal, group, size, skipped, skippedSize, queue, nextSize);
    skipped', skippedSize', queue', stop := skipped, skippedSize + nextSize, queue, false;
    if size + skippedSize' <= threshold {
      skipped', queue' := skipped + [queue[0]], queue[1..];
    } else {
      stop := true;
    }
  }

  /** Whether the next reduction goes with the fused response, and its size. */
  method ReductionMatches(cfg: Config, ghost costs: Costs, ghost head: Response, ghost group: seq<Response>,
                          response: Response, next: Response)
    returns (matches: bool, size: nat)
    requires Reduces(head) && head in costs && next in costs && costs[next].reduce == ReduceBytes(cfg, next)
    requires group != [] && group[0] == head && response == Merge(group)
    ensures matches <==> Fusable(costs, head, next)
    ensures size == Bytes(costs, head, next)
  {
    size := ReductionBytes(cfg, next);
    matches := && response.rtype == next.rtype && response.devices == next.devices && response.dtype == next.dtype
               && response.prescale == next.prescale && response.postscale == next.postscale;
  }

  /** Add the name and size of a reduction to the fused response. */
  method AppendOne(response: Response, next: Response, ghost group: seq<Response>) returns (merged: Response)
    requires group != [] && response == Merge(group) && Single(next) && Reduces(next)
    ensures merged == Merge(group + [next])
  {
    MergeSnoc(group, next);
    assert next.sizes == [next.sizes[0]];
    merged := response.(names := response.names + [next.names[0]], sizes := response.sizes + [next.sizes[0]]);
  }

  /** Response::add_allgather_response. */
  method AppendAll(response: Response, next: Response, ghost group: seq<Response>) returns (merged: Response)
    requires group != [] && response == Merge(group) && next.names != []
    ensures merged == Merge(group + [next])
  {
    MergeSnoc(group, next);
    merged := response.(names := response.names + [next.names[0]], sizes := response.sizes + next.sizes);
  }

  lemma {:induction false} TakenReductions(threshold: nat, costs: Costs, head: Response, bytes: nat,
                                           rest: seq<Response>)
    requires Reduces(head) && head in costs && Known(costs, rest)
    ensures forall r :: r in Absorb(threshold, costs, head, bytes, 0, rest).0 ==>
              && r.rtype == head.rtype && r.devices == head.devices
              && r.dtype == head.dtype && r.prescale == head.prescale && r.postscale == head.postscale
  {
    AbsorbFits(threshold, costs, head, bytes, 0, rest);
  }

  lemma {:induction false} TakenGathers(cfg: Config, costs: Costs, table: map<string, Params>, head: Response,
                                        bytes: nat, rest: seq<Response>)
    requires Gathers(head) && head in costs && Known(costs, rest) && Priced(cfg, costs, table)
    ensures NameOf(head) in table
    ensures forall r :: r in Absorb(cfg.threshold, costs, head, bytes, 0, rest).0 ==>
              && r.rtype == head.rtype && r.devices == head.devices
              && NameOf(r) in table && table[NameOf(r)].dtype == table[NameOf(head)].dtype
  {
    AbsorbFits(cfg.threshold, costs, head, bytes, 0, rest);
  }

  /** The inner loop for allreduce and adasum heads. */
  method PackReduction(cfg: Config, ghost costs: Costs, head: Response, rest: seq<Response>)
    returns (response: Response, queue: seq<Response>)
    requires Single(head) && Reduces(head) && head in costs && Known(costs, rest)
    requires forall r :: r in costs ==> costs[r].reduce == ReduceBytes(cfg, r)
    requires forall r :: r in rest ==> Single(r)
    ensures var p := Absorb(cfg.threshold, costs, head, Bytes(costs, head, head), 0, rest);
            && response == Merge([head] + p.0) && queue == p.1
            && forall r :: r in p.0 ==>
                 && r.rtype == head.rtype && r.devices == head.devices
                 && r.dtype == head.dtype && r.prescale == head.prescale && r.postscale == head.postscale
  {
    response, queue := head, rest;
    var size: nat := ReductionBytes(cfg, response);
    var skipped: seq<Response> := [];
    var skippedSize: nat := 0;
    ghost var group := [head];
    ghost var goal := Absorb(cfg.threshold, costs, head, size, 0, rest);
    Started(cfg.threshold, costs, head, size, rest);
    var stop := false;
    while queue != [] && !stop
      invariant forall r :: r in queue ==> r in costs && Single(r)
      invariant group != [] && group[0] == head && response == Merge(group)
      invariant !stop ==> Resumes(cfg.threshold, costs, head, goal, group, size, skipped, skippedSize, queue)
      invariant stop ==> Ended(head, goal, group, skipped, queue)
      decreases |queue|, !stop
    {
      var next := queue[0];
      var matches, nextSize := ReductionMatches(cfg, costs, head, group, response, next);
      if matches && size + nextSize <= cfg.threshold {
        TakeNext(cfg.threshold, costs, head, goal, group, size, skipped, skippedSize, queue, nextSize);
        response := AppendOne(response, next, group);
        group := group + [next];
        size := size + nextSize;
        queue := queue[1..];
      } else {
        skipped, skippedSize, queue, stop :=
          Skip(cfg.threshold, costs, head, goal, group, size, skipped, skippedSize, queue, nextSize);
      }
    }
    if !stop { Resumed(cfg.threshold, costs, head, goal, group, size, skipped, skippedSize); }
    TakenReductions(cfg.threshold, costs, head, Bytes(costs, head, head), rest);
    queue := PushFront(skipped, queue);
  }

  /** `costs` is what the tensor table says about the responses. */
  ghost predicate Priced(cfg: Config, costs: Costs, table: map<string, Params>) {
    forall r {:trigger NameOf(r)} :: r in costs ==> NameOf(r) in table && costs[r] == CostOf(cfg, r, table[NameOf(r)])
  }

  /** Bytes of the gathered output of `r`, from its tensor table entry. */
  method AllgatherBytes(cfg: Config, ghost costs: Costs, table: map<string, Params>, r: Response) returns (bytes: nat)
    requires Priced(cfg, costs, table) && r in costs && NameOf(r) in table
    ensures bytes == costs[r].gather
  {
    bytes := AllgatherOutputBytes(r, table[NameOf(r)]);
  }

  /** Whether `next` can join the response packed so far, and its size. */
  method GatherMatches(cfg: Config, ghost costs: Costs, table: map<string, Params>, ghost head: Response,
                       ghost group: seq<Response>, response: Response, entry: Params, next: Response)
    returns (matches: bool, size: nat)
    requires Priced(cfg, costs, table) && head in costs && next in costs && Gathers(head)
    requires NameOf(head) in table && entry == table[NameOf(head)]
    requires group != [] && group[0] == head && response == Merge(group)
    ensures matches <==> Fusable(costs, head, next)
    ensures size == Bytes(costs, head, next)
  {
    var nextEntry := table[NameOf(next)];
    size := AllgatherBytes(cfg, costs, table, next);
    matches := response.rtype == next.rtype && response.devices == next.devices && entry.dtype == nextEntry.dtype;
  }

  /** The inner loop for allgather heads. */
  method PackGather(cfg: Config, ghost costs: Costs, table: map<string, Params>, head: Response, rest: seq<Response>)
    returns (response: Response, queue: seq<Response>)
    requires Single(head) && Gathers(head) && head in costs && Known(costs, rest)
    requires Priced(cfg, costs, table)
    requires forall r :: r in rest ==> Single(r)
    ensures var p := Absorb(cfg.threshold, costs, head, Bytes(costs, head, head), 0, rest);
            && response == Merge([head] + p.0) && queue == p.1
            && NameOf(head) in table
            && forall r :: r in p.0 ==>
                 && r.rtype == head.rtype && r.devices == head.devices
                 && NameOf(r) in table && table[NameOf(r)].dtype == table[NameOf(head)].dtype
  {
    response, queue := head, rest;
    var entry := table[NameOf(head)];
    var size: nat := AllgatherBytes(cfg, costs, table, head);
    var skipped: seq<Response> := [];
    var skippedSize: nat := 0;
    ghost var group := [head];
    ghost var goal := Absorb(cfg.threshold, costs, head, size, 0, rest);
    Started(cfg.threshold, costs, head, size, rest);
    var stop := false;
    while queue != [] && !stop
      invariant forall r :: r in queue ==> r in costs && Single(r)
      invariant group != [] && group[0] == head && response == Merge(group)
      invariant !stop ==> Resumes(cfg.threshold, costs, head, goal, group, size, skipped, skippedSize, queue)
      invariant stop ==> Ended(head, goal, group, skipped, queue)
      decreases |queue|, !stop
    {
      var next := queue[0];
      var matches, nextSize := GatherMatches(cfg, costs, table, head, group, response, entry, next);
      if matches && size + nextSize <= cfg.threshold {
        TakeNext(cfg.threshold, costs, head, goal, group, size, skipped, skippedSize, queue, nextSize);
        response := AppendAll(response, next, group);
        group := group + [next];
        size := size + nextSize;
        queue := queue[1..];
      } else {
        skipped, skippedSize, queue, stop :=
          Skip(cfg.threshold, costs, head, goal, group, size, skipped, skippedSize, queue, nextSize);
      }
    }
    if !stop { Resumed(cfg.threshold, costs, head, goal, group, size, skipped, skippedSize); }
    TakenGathers(cfg, costs, table, head, Bytes(costs, head, head), rest);
    queue := PushFront(skipped, queue);
  }

  /** Bytes a response takes in the fusion buffer, padded for batched copies. */
  method ReductionBytes(cfg: Config, r: Response) returns (bytes: nat)
    ensures bytes == ReduceBytes(cfg, r)
  {
    bytes := if r.sizes == [] then 0 else r.sizes[0] * TypeSize(r.dtype);
    if cfg.pad {
      bytes := RoundUp(bytes, BATCHED_D2D_PADDING);
    }
  }

  /** Skipped responses go back to the front of the deque, last one first. */
  method PushFront(skipped: seq<Response>, queue: seq<Response>) returns (q: seq<Response>)
    ensures q == skipped + queue
  {
    q := queue;
    var rest := skipped;
    while rest != []
      invariant rest + q == skipped + queue
      decreases |rest|
    {
      q := [rest[|rest| - 1]] + q;
      rest := rest[..|rest| - 1];
    }
  }

  lemma {:induction false} SliceNext(shape: seq<nat>, i: nat, first: nat)
    requires 1 <= i < |shape|
    ensures var dims := SliceDims(shape);
            i <= |dims| && first * Product(dims[..i - 1]) * shape[i] == first * Product(dims[..i])
  {
    var dims := SliceDims(shape);
    assert dims[..i][..i - 1] == dims[..i - 1] && dims[..i][i - 1] == shape[i];
    MulAssoc(first, Product(dims[..i - 1]), shape[i]);
  }

  /** Controller::TotalByteSizeOfAllgatherOutput. */
  method AllgatherOutputBytes(r: Response, entry: Params) returns (bytes: nat)
    ensures bytes == GatherBytes(r, entry)
  {
    var sizes := r.sizes;
    var total: nat := 0;
    for i := 0 to |sizes|
      invariant total == Sum(sizes[..i])
    {
      assert sizes[..i + 1][..i] == sizes[..i];
      total := total + sizes[i];
    }
    assert sizes[..|sizes|] == sizes;
    ghost var first := total;
    ghost var dims := SliceDims(entry.shape);
    var i := 1;
    while i < |entry.shape|
      invariant 1 <= i && (i <= |entry.shape| || |entry.shape| == 0)
      invariant i - 1 <= |dims| && total == first * Product(dims[..i - 1])
    {
      SliceNext(entry.shape, i, first);
      total := total * entry.shape[i];
      i := i + 1;
    }
    assert dims[..|dims|] == dims;
    bytes := total * TypeSize(entry.dtype);
  }
}
