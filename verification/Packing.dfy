/** How much fusion packs into one collective: never more than the threshold, and no less than a
    single look-ahead pass can. */
module Packing {
  import opened Messages
  import opened Products
  import opened Seqs
  import opened Fusion

  /** Bytes of the responses in the buffer of a fused allgather, or of a fused reduction. */
  ghost function BufferBytes(cfg: Config, table: map<string, Params>, gather: bool, rs: seq<Response>): nat
    requires forall r :: r in rs ==> NameOf(r) in table
  {
    if rs == [] then 0
    else
      (if gather then GatherBytes(rs[0], table[NameOf(rs[0])]) else ReduceBytes(cfg, rs[0]))
      + BufferBytes(cfg, table, gather, rs[1..])
  }

  /** Products and sums of dimensions: of one dimension, and of dimensions in two parts. */
  lemma {:induction false} SizesMean(a: seq<nat>, b: seq<nat>, x: nat)
    ensures Product([]) == 1 && Product([x]) == x && Product(a + b) == Product(a) * Product(b)
    ensures Sum([]) == 0 && Sum([x]) == x && Sum(a + b) == Sum(a) + Sum(b)
    decreases |b|
  {
    assert [x][..0] == [];
    if b == [] {
      assert a + b == a;
    } else {
      var front := b[..|b| - 1];
      SizesMean(a, front, x);
      assert (a + b)[..|a + b| - 1] == a + front;
      MulAssoc(Product(a), Product(front), b[|b| - 1]);
    }
  }

  /** What a tensor takes: for a reduction its elements, in whole units of padding when copies are
      batched; for an allgather the rows of all ranks. */
  lemma {:induction false} BytesMean(cfg: Config, r: Response, p: Params)
    ensures r.sizes == [] ==> ReduceBytes(cfg, r) == 0
    ensures r.sizes != [] ==>
              var bytes := r.sizes[0] * TypeSize(r.dtype);
              if cfg.pad then bytes <= ReduceBytes(cfg, r) < bytes + 16 && ReduceBytes(cfg, r) % 16 == 0
              else ReduceBytes(cfg, r) == bytes
    ensures GatherBytes(r, p)
            == Sum(r.sizes) * Product(if p.shape == [] then [] else p.shape[1..]) * TypeSize(p.dtype)
  {
  }

  lemma {:induction false} TotalIsBuffer(cfg: Config, table: map<string, Params>, all: seq<Response>, h: Response,
                                         rs: seq<Response>)
    requires forall r :: r in all ==> NameOf(r) in table
    requires forall r :: r in rs ==> r in all
    ensures Known(CostsOf(cfg, table, all), rs)
    ensures TotalBytes(CostsOf(cfg, table, all), h, rs) == BufferBytes(cfg, table, !Reduces(h), rs)
  {
    if rs != [] {
      assert rs[0] in rs;
      TotalIsBuffer(cfg, table, all, h, rs[1..]);
    }
  }

  // ---------------------------------------------------------------- sums

  lemma {:induction false} TotalCons(costs: Costs, h: Response, r: Response, rs: seq<Response>)
    requires r in costs && Known(costs, rs)
    ensures Known(costs, [r] + rs) && TotalBytes(costs, h, [r] + rs) == Bytes(costs, h, r) + TotalBytes(costs, h, rs)
  {
    assert ([r] + rs)[1..] == rs;
  }

  lemma {:induction false} TotalConcat(costs: Costs, h: Response, a: seq<Response>, b: seq<Response>)
    requires Known(costs, a) && Known(costs, b)
    ensures Known(costs, a + b) && TotalBytes(costs, h, a + b) == TotalBytes(costs, h, a) + TotalBytes(costs, h, b)
  {
    if a == [] {
      assert a + b == b;
    } else {
      assert (a + b)[1..] == a[1..] + b;
      TotalConcat(costs, h, a[1..], b);
    }
  }

  lemma {:induction false} SameMembers<T>(a: seq<T>, b: seq<T>)
    requires multiset(a) == multiset(b)
    ensures forall x :: x in a <==> x in b
  {
    forall x ensures x in a <==> x in b {
      assert x in a <==> x in multiset(a);
      assert x in b <==> x in multiset(b);
    }
  }

  lemma {:induction false} TotalPermuted(costs: Costs, h: Response, a: seq<Response>, b: seq<Response>)
    requires Known(costs, a) && Known(costs, b) && multiset(a) == multiset(b)
    ensures TotalBytes(costs, h, a) == TotalBytes(costs, h, b)
    decreases |a|
  {
    SameMembers(a, b);
    if a == [] {
      assert |b| == |multiset(b)| == 0;
    } else {
      var x, rest := a[0], a[1..];
      assert x in a;
      var k :| 0 <= k < |b| && b[k] == x;
      Remove(a, b, k);
      TotalPermuted(costs, h, rest, b[..k] + b[k + 1..]);
      TotalAround(costs, h, b, k);
    }
  }

  lemma {:induction false} Remove<T>(a: seq<T>, b: seq<T>, k: nat)
    requires a != [] && k < |b| && b[k] == a[0] && multiset(a) == multiset(b)
    ensures multiset(a[1..]) == multiset(b[..k] + b[k + 1..])
  {
    assert a == [a[0]] + a[1..] && b == b[..k] + [b[k]] + b[k + 1..];
    assert multiset(a) == multiset{a[0]} + multiset(a[1..]);
    assert multiset(b) == multiset(b[..k]) + multiset{b[k]} + multiset(b[k + 1..]);
    assert multiset(b[..k] + b[k + 1..]) == multiset(b[..k]) + multiset(b[k + 1..]);
    assert multiset(a[1..]) == multiset(a) - multiset{a[0]};
  }

  lemma {:induction false} TotalAround(costs: Costs, h: Response, b: seq<Response>, k: nat)
    requires Known(costs, b) && k < |b|
    ensures Known(costs, b[..k] + b[k + 1..])
    ensures TotalBytes(costs, h, b) == Bytes(costs, h, b[k]) + TotalBytes(costs, h, b[..k] + b[k + 1..])
  {
    assert b == b[..k] + ([b[k]] + b[k + 1..]);
    TotalConcat(costs, h, b[..k], [b[k]] + b[k + 1..]);
    TotalConcat(costs, h, b[..k], b[k + 1..]);
    assert ([b[k]] + b[k + 1..])[1..] == b[k + 1..];
  }

  // ---------------------------------------------------------------- why a response is left

  /** A response that goes with the head is left for later only when what was packed and what was
      left up to it exceed the threshold. */
  lemma {:induction false} LeftOver(threshold: nat, costs: Costs, h: Response, bytes: nat, skipped: nat,
                                    rest: seq<Response>, k: nat)
    requires h in costs && Known(costs, rest)
    requires var left := Absorb(threshold, costs, h, bytes, skipped, rest).1;
             k < |left| && left[k] in costs && Fusable(costs, h, left[k])
    ensures var (taken, left) := Absorb(threshold, costs, h, bytes, skipped, rest);
            && Known(costs, taken) && Known(costs, left[..k + 1])
            && bytes + skipped + TotalBytes(costs, h, taken) + TotalBytes(costs, h, left[..k + 1]) > threshold
    decreases |rest|
  {
    var r, tail := rest[0], rest[1..];
    var w := Bytes(costs, h, r);
    if Fusable(costs, h, r) && bytes + w <= threshold {
      LeftOver(threshold, costs, h, bytes + w, skipped, tail, k);
      TotalCons(costs, h, r, Absorb(threshold, costs, h, bytes + w, skipped, tail).0);
    } else if bytes + skipped + w <= threshold && k > 0 {
      LeftOver(threshold, costs, h, bytes, skipped + w, tail, k - 1);
      var later := Absorb(threshold, costs, h, bytes, skipped + w, tail).1;
      TotalCons(costs, h, r, later[..k]);
      assert ([r] + later)[..k + 1] == [r] + later[..k];
    } else {
      LeftHere(threshold, costs, h, bytes, skipped, rest, k);
    }
  }

  lemma {:induction false} LeftHere(threshold: nat, costs: Costs, h: Response, bytes: nat, skipped: nat,
                                    rest: seq<Response>, k: nat)
    requires h in costs && Known(costs, rest) && rest != []
    requires var w := Bytes(costs, h, rest[0]);
             && (Fusable(costs, h, rest[0]) ==> bytes + w > threshold)
             && (bytes + skipped + w <= threshold ==> k == 0)
    requires var left := Absorb(threshold, costs, h, bytes, skipped, rest).1;
             k < |left| && left[k] in costs && Fusable(costs, h, left[k])
    ensures var (taken, left) := Absorb(threshold, costs, h, bytes, skipped, rest);
            && Known(costs, taken) && Known(costs, left[..k + 1])
            && bytes + skipped + TotalBytes(costs, h, taken) + TotalBytes(costs, h, left[..k + 1]) > threshold
  {
    var left := Absorb(threshold, costs, h, bytes, skipped, rest).1;
    AbsorbFits(threshold, costs, h, bytes, skipped, rest);
    assert left[0] == rest[0];
    TotalCons(costs, h, rest[0], left[1..k + 1]);
    assert left[..k + 1] == [rest[0]] + left[1..k + 1];
  }

  /** As long as the responses from some head on fit together, everything later that goes with the
      head is in its group. */
  lemma {:induction false} GroupsMaximal(threshold: nat, costs: Costs, rs: seq<Response>, i: nat, s: Response)
    requires Known(costs, rs) && i < |Groups(threshold, costs, rs)| && Groups(threshold, costs, rs)[i] != []
    requires s in Flatten(Groups(threshold, costs, rs)[i + 1..])
    requires var h := Groups(threshold, costs, rs)[i][0];
             h in costs && s in costs && (Reduces(h) || Gathers(h)) && Fusable(costs, h, s)
    ensures var groups := Groups(threshold, costs, rs);
            && Known(costs, Flatten(groups[i..]))
            && TotalBytes(costs, groups[i][0], Flatten(groups[i..])) > threshold
    decreases |rs|
  {
    var groups := Groups(threshold, costs, rs);
    var (group, left) := FirstGroup(threshold, costs, rs);
    var later := Groups(threshold, costs, left);
    assert groups == [group] + later && groups[1..] == later;
    if i > 0 {
      assert groups[i..] == later[i - 1..] && groups[i + 1..] == later[i..];
      GroupsMaximal(threshold, costs, left, i - 1, s);
    } else {
      FirstMaximal(threshold, costs, rs, s);
      assert groups[0..] == groups;
    }
  }

  lemma {:induction false} FirstMaximal(threshold: nat, costs: Costs, rs: seq<Response>, s: Response)
    requires Known(costs, rs) && rs != [] && s in costs
    requires (Reduces(rs[0]) || Gathers(rs[0])) && Fusable(costs, rs[0], s)
    requires s in Flatten(Groups(threshold, costs, FirstGroup(threshold, costs, rs).1))
    ensures var all := Flatten(Groups(threshold, costs, rs));
            Known(costs, all) && TotalBytes(costs, rs[0], all) > threshold
  {
    var h, all := rs[0], Flatten(Groups(threshold, costs, rs));
    var (group, left) := FirstGroup(threshold, costs, rs);
    GroupsCover(threshold, costs, left);
    SameMembers(Flatten(Groups(threshold, costs, left)), left);
    var k :| 0 <= k < |left| && left[k] == s;
    var start := Bytes(costs, h, h);
    LeftOver(threshold, costs, h, start, 0, rs[1..], k);
    var taken := Absorb(threshold, costs, h, start, 0, rs[1..]).0;
    assert group == [h] + taken && group[1..] == taken;
    AllBytes(threshold, costs, rs);
    TotalConcat(costs, h, left[..k + 1], left[k + 1..]);
    assert left[..k + 1] + left[k + 1..] == left;
  }

  lemma {:induction false} AllBytes(threshold: nat, costs: Costs, rs: seq<Response>)
    requires Known(costs, rs) && rs != []
    ensures var all := Flatten(Groups(threshold, costs, rs)); var (group, left) := FirstGroup(threshold, costs, rs);
            && Known(costs, all) && Known(costs, group) && Known(costs, left)
            && TotalBytes(costs, rs[0], all) == TotalBytes(costs, rs[0], group) + TotalBytes(costs, rs[0], left)
  {
    var all := Flatten(Groups(threshold, costs, rs));
    var (group, left) := FirstGroup(threshold, costs, rs);
    FirstGroupCovers(threshold, costs, rs);
    GroupsCover(threshold, costs, rs);
    SameMembers(all, rs);
    SameMembers(group + left, rs);
    forall r | r in group ensures r in costs { assert r in group + left; }
    TotalConcat(costs, rs[0], group, left);
    TotalPermuted(costs, rs[0], group + left, all);
  }

  // ---------------------------------------------------------------- the fused list

  lemma {:induction false} FusedAt(cfg: Config, table: map<string, Params>, rs: seq<Response>, i: nat)
    requires forall r :: r in rs ==> NameOf(r) in table && Single(r)
    requires Known(CostsOf(cfg, table, rs), rs) && i < |Fuse(cfg.threshold, CostsOf(cfg, table, rs), rs)|
    ensures var costs := CostsOf(cfg, table, rs);
            var groups, list := Groups(cfg.threshold, costs, rs), Fuse(cfg.threshold, costs, rs);
            && |list| == |groups| && groups[i] != [] && list[i] == Merge(groups[i]) && Split(list[i]) == groups[i]
            && GoodGroup(cfg.threshold, costs, groups[i])
            && (forall r :: r in groups[i] ==> r in rs) && groups[i][0] in rs
  {
    var costs := CostsOf(cfg, table, rs);
    var groups := Groups(cfg.threshold, costs, rs);
    GroupsAreGood(cfg.threshold, costs, rs);
    MergeAllLength(groups);
    MergeAllAt(groups, i);
    GroupUniform(cfg.threshold, costs, rs, i);
    SplitUndoesMerge(groups[i]);
  }

  lemma {:induction false} GroupFits(threshold: nat, costs: Costs, group: seq<Response>)
    requires GoodGroup(threshold, costs, group)
    ensures |Merge(group).names| > 1 ==>
              && TotalBytes(costs, group[0], group) <= threshold
              && (Reduces(group[0]) <==> Merge(group).rtype != Run(Allgather))
  {
    if |group| > 1 { assert Fusable(costs, group[0], group[1]); }
  }

  /** With the threshold of TensorFusionThresholdBytes, which is also the size of the fusion buffer,
      every operation on more than one tensor fits the buffer; and the buffer exceeds what was
      proposed by less than one unit. */
  lemma {:induction false} FitsBuffer(cfg: Config, proposed: nat, homogeneous: bool, localSize: nat,
                                      table: map<string, Params>, rs: seq<Response>, i: nat)
    requires localSize > 0 && cfg.threshold == FusionThreshold(proposed, homogeneous, localSize)
    requires forall r :: r in rs ==> NameOf(r) in table && Single(r)
    requires Known(CostsOf(cfg, table, rs), rs) && i < |Fuse(cfg.threshold, CostsOf(cfg, table, rs), rs)|
    ensures var r := Fuse(cfg.threshold, CostsOf(cfg, table, rs), rs)[i];
            && (forall s :: s in Split(r) ==> NameOf(s) in table)
            && (|r.names| > 1 ==>
                  BufferBytes(cfg, table, r.rtype == Run(Allgather), Split(r))
                  <= FusionThreshold(proposed, homogeneous, localSize)
                  < proposed + localSize * TypeSize(Float64) * FUSION_BUFFER_ATOMIC_UNIT)
  {
    FusedAt(cfg, table, rs, i);
    var group := Groups(cfg.threshold, CostsOf(cfg, table, rs), rs)[i];
    TotalIsBuffer(cfg, table, rs, group[0], group);
    GroupFits(cfg.threshold, CostsOf(cfg, table, rs), group);
  }

  /** Two collectives of one list could have been one only if the responses from the first of them
      on do not fit the threshold together. In particular, a list that fits has one collective for
      each kind. */
  lemma {:induction false} SeparateOnlyIfFull(cfg: Config, table: map<string, Params>, rs: seq<Response>, i: nat,
                                              j: nat)
    requires forall r :: r in rs ==> NameOf(r) in table && Single(r)
    requires Known(CostsOf(cfg, table, rs), rs) && i < j < |Fuse(cfg.threshold, CostsOf(cfg, table, rs), rs)|
    requires var list := Fuse(cfg.threshold, CostsOf(cfg, table, rs), rs); var a, b := list[i], list[j];
             && a.rtype == b.rtype && a.devices == b.devices
             && if a.rtype == Run(Allgather)
                then NameOf(a) in table && NameOf(b) in table && table[NameOf(a)].dtype == table[NameOf(b)].dtype
                else && a.rtype in {Run(Allreduce), Run(Adasum)}
                     && a.dtype == b.dtype && a.prescale == b.prescale && a.postscale == b.postscale
    ensures var list := Fuse(cfg.threshold, CostsOf(cfg, table, rs), rs);
            && (forall s :: s in SplitAll(list[i..]) ==> NameOf(s) in table)
            && BufferBytes(cfg, table, list[i].rtype == Run(Allgather), SplitAll(list[i..])) > cfg.threshold
  {
    FusedAt(cfg, table, rs, i);
    FusedAt(cfg, table, rs, j);
    var groups := Groups(cfg.threshold, CostsOf(cfg, table, rs), rs);
    HeadsFusable(cfg, table, rs, groups[i], groups[j]);
    LaterMember(groups, i, j);
    FullFrom(cfg, table, rs, i, groups[j][0]);
  }

  lemma {:induction false} LaterMember<T>(ss: seq<seq<T>>, i: nat, j: nat)
    requires i < j < |ss| && ss[j] != []
    ensures ss[j][0] in Flatten(ss[i + 1..])
  {
    assert ss[i + 1..][j - i - 1] == ss[j];
    FlattenMembers(ss[i + 1..], ss[j][0]);
  }

  lemma {:induction false} FullFrom(cfg: Config, table: map<string, Params>, rs: seq<Response>, i: nat, s: Response)
    requires forall r :: r in rs ==> NameOf(r) in table && Single(r)
    requires Known(CostsOf(cfg, table, rs), rs) && i < |Groups(cfg.threshold, CostsOf(cfg, table, rs), rs)|
    requires var costs := CostsOf(cfg, table, rs);
             var groups := Groups(cfg.threshold, costs, rs);
             && groups[i] != [] && s in Flatten(groups[i + 1..])
             && var h := groups[i][0];
                h in costs && s in costs && (Reduces(h) || Gathers(h)) && Fusable(costs, h, s)
    ensures var costs := CostsOf(cfg, table, rs);
            var groups, list := Groups(cfg.threshold, costs, rs), Fuse(cfg.threshold, costs, rs);
            && |list| == |groups| && (forall s :: s in SplitAll(list[i..]) ==> NameOf(s) in table)
            && BufferBytes(cfg, table, !Reduces(groups[i][0]), SplitAll(list[i..])) > cfg.threshold
  {
    var groups := Groups(cfg.threshold, CostsOf(cfg, table, rs), rs);
    GroupsMaximal(cfg.threshold, CostsOf(cfg, table, rs), rs, i, s);
    SplitFrom(cfg, table, rs, i);
    TotalIsBuffer(cfg, table, rs, groups[i][0], Flatten(groups[i..]));
  }

  lemma {:induction false} HeadsFusable(cfg: Config, table: map<string, Params>, rs: seq<Response>, g: seq<Response>,
                                        g': seq<Response>)
    requires g != [] && g' != [] && g[0] in rs && g'[0] in rs && forall r :: r in rs ==> NameOf(r) in table
    requires var a, b := Merge(g), Merge(g');
             && a.rtype == b.rtype && a.devices == b.devices
             && if a.rtype == Run(Allgather)
                then NameOf(a) in table && NameOf(b) in table && table[NameOf(a)].dtype == table[NameOf(b)].dtype
                else && a.rtype in {Run(Allreduce), Run(Adasum)}
                     && a.dtype == b.dtype && a.prescale == b.prescale && a.postscale == b.postscale
    ensures var costs, h, s := CostsOf(cfg, table, rs), g[0], g'[0];
            && h in costs && s in costs && Fusable(costs, h, s)
            && if Merge(g).rtype == Run(Allgather) then Gathers(h) && !Reduces(h) else Reduces(h)
  {
  }

  lemma {:induction false} SplitFrom(cfg: Config, table: map<string, Params>, rs: seq<Response>, i: nat)
    requires forall r :: r in rs ==> NameOf(r) in table && Single(r)
    requires Known(CostsOf(cfg, table, rs), rs) && i <= |Groups(cfg.threshold, CostsOf(cfg, table, rs), rs)|
    ensures var costs := CostsOf(cfg, table, rs);
            var groups, list := Groups(cfg.threshold, costs, rs), Fuse(cfg.threshold, costs, rs);
            && |list| == |groups| && SplitAll(list[i..]) == Flatten(groups[i..])
            && forall r :: r in Flatten(groups[i..]) ==> r in rs
  {
    var costs := CostsOf(cfg, table, rs);
    var groups := Groups(cfg.threshold, costs, rs);
    GroupsAreGood(cfg.threshold, costs, rs);
    MergeAllFrom(groups, i);
    forall k | 0 <= k < |groups| ensures Uniform(groups[k]) && forall r :: r in groups[k] ==> r in rs {
      GroupUniform(cfg.threshold, costs, rs, k);
    }
    SplitAllUndoesMergeAll(groups[i..]);
    forall r | r in Flatten(groups[i..]) ensures r in rs { FlattenMembers(groups[i..], r); }
  }

  lemma {:induction false} MergeAllFrom(groups: seq<seq<Response>>, i: nat)
    requires NoneEmpty(groups) && i <= |groups|
    ensures |MergeAll(groups)| == |groups| && MergeAll(groups)[i..] == MergeAll(groups[i..])
  {
    MergeAllLength(groups);
    if i > 0 {
      MergeAllFrom(groups[1..], i - 1);
      assert groups[1..][i - 1..] == groups[i..];
    } else {
      assert groups[0..] == groups;
    }
  }
}
