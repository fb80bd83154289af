/** ProcessSetTable as the mutable object each process holds, its collective checks, and the
    loops of its methods proved against module ProcessSets. */
module ProcessSetTable {
  import opened Messages
  import opened ProcessSets
  import opened ProcessSetAgreement

  // ---------------------------------------------------------------- the checks of ProcessSet::Initialize

  ghost predicate SameLengths(vs: seq<seq<int>>) {
    forall p, q :: 0 <= p < |vs| && 0 <= q < |vs| ==> |vs[p]| == |vs[q]|
  }

  function Largest(vs: seq<seq<int>>, i: nat): (m: int)
    requires |vs| > 0 && forall p :: 0 <= p < |vs| ==> i < |vs[p]|
    ensures forall p :: 0 <= p < |vs| ==> vs[p][i] <= m
    ensures exists p :: 0 <= p < |vs| && vs[p][i] == m
  {
    var n := |vs| - 1;
    if n == 0 then vs[0][i]
    else
      var m := Largest(vs[..n], i);
      if vs[n][i] > m then vs[n][i] else m
  }

  function Smallest(vs: seq<seq<int>>, i: nat): (m: int)
    requires |vs| > 0 && forall p :: 0 <= p < |vs| ==> i < |vs[p]|
    ensures forall p :: 0 <= p < |vs| ==> vs[p][i] >= m
    ensures exists p :: 0 <= p < |vs| && vs[p][i] == m
  {
    var n := |vs| - 1;
    if n == 0 then vs[0][i]
    else
      var m := Smallest(vs[..n], i);
      if vs[n][i] < m then vs[n][i] else m
  }

  /** What process `p` compares with its own list after the MAX, and after the MIN, reduction. */
  ghost predicate PassesMax(vs: seq<seq<int>>, p: nat)
    requires p < |vs| && SameLengths(vs)
  {
    vs[p] == seq(|vs[p]|, i requires 0 <= i < |vs[p]| => Largest(vs, i))
  }

  ghost predicate PassesMin(vs: seq<seq<int>>, p: nat)
    requires p < |vs| && SameLengths(vs)
  {
    vs[p] == seq(|vs[p]|, i requires 0 <= i < |vs[p]| => Smallest(vs, i))
  }

  /** The two reductions tell a process that all lists are its own, and nothing less. */
  lemma {:induction false} ChecksMeanEqual(vs: seq<seq<int>>, p: nat)
    requires p < |vs| && SameLengths(vs)
    ensures PassesMax(vs, p) && PassesMin(vs, p) <==> forall q :: 0 <= q < |vs| ==> vs[q] == vs[p]
  {
    if PassesMax(vs, p) && PassesMin(vs, p) {
      forall q | 0 <= q < |vs| ensures vs[q] == vs[p] {
        forall i | 0 <= i < |vs[p]| ensures vs[q][i] == vs[p][i] {
          assert vs[p][i] == Largest(vs, i) && vs[p][i] == Smallest(vs, i);
        }
      }
    }
  }

  /** What happens to one process: it skips the checks, waits for a collective that another one
      does not enter, throws, or passes. */
  datatype Verdict = Skips | Waits | Throws | Passes

  ghost predicate AllEmpty(vs: seq<seq<int>>) { forall p :: 0 <= p < |vs| ==> vs[p] == [] }

  ghost predicate NoneEmpty(vs: seq<seq<int>>) { forall p :: 0 <= p < |vs| ==> vs[p] != [] }

  ghost predicate AllEqual(vs: seq<seq<int>>) { forall p :: 0 <= p < |vs| ==> vs[p] == vs[0] }

  /** The gathering of the lengths, which a process with an empty list does not enter. */
  ghost function LengthCheck(vs: seq<seq<int>>, p: nat): Verdict
    requires p < |vs|
  {
    if vs[p] == [] then Skips
    else if !NoneEmpty(vs) then Waits
    else if forall q :: 0 <= q < |vs| ==> |vs[q]| == |vs[p]| then Passes
    else Throws
  }

  /** The length check has one verdict on all processes exactly when all lists are empty or none
      is; and then nobody waits. */
  lemma {:induction false} LengthVerdict(vs: seq<seq<int>>)
    requires |vs| > 0
    ensures (forall p :: 0 <= p < |vs| ==> LengthCheck(vs, p) == LengthCheck(vs, 0)) <==> AllEmpty(vs) || NoneEmpty(vs)
    ensures NoneEmpty(vs) ==> LengthCheck(vs, 0) == if SameLengths(vs) then Passes else Throws
  {
    if !AllEmpty(vs) && !NoneEmpty(vs) {
      var p :| 0 <= p < |vs| && vs[p] != [];
      var q :| 0 <= q < |vs| && vs[q] == [];
      assert LengthCheck(vs, p) == Waits && LengthCheck(vs, q) == Skips;
    }
  }

  /** The list of process `p` is at least every other list, element by element. */
  ghost predicate Dominates(vs: seq<seq<int>>, p: nat)
    requires p < |vs| && SameLengths(vs)
  {
    forall q, i :: 0 <= q < |vs| && 0 <= i < |vs[p]| ==> vs[q][i] <= vs[p][i]
  }

  lemma {:induction false} MaxMeansDominates(vs: seq<seq<int>>, p: nat)
    requires p < |vs| && SameLengths(vs)
    ensures PassesMax(vs, p) <==> Dominates(vs, p)
  {
    if PassesMax(vs, p) {
      forall q, i | 0 <= q < |vs| && 0 <= i < |vs[p]| ensures vs[q][i] <= vs[p][i] {
        assert vs[p][i] == Largest(vs, i);
      }
    }
    if Dominates(vs, p) {
      forall i | 0 <= i < |vs[p]| ensures vs[p][i] == Largest(vs, i) {
        var q :| 0 <= q < |vs| && vs[q][i] == Largest(vs, i);
      }
    }
  }

  /** The MAX check gives one verdict on all processes exactly when the lists are equal or none
      of them dominates the others. Otherwise some processes throw while others go on to the
      MIN reduction. */
  lemma {:induction false} MaxVerdict(vs: seq<seq<int>>)
    requires |vs| > 0 && SameLengths(vs)
    ensures (forall p :: 0 <= p < |vs| ==> (PassesMax(vs, p) <==> PassesMax(vs, 0)))
            <==> ((forall q :: 0 <= q < |vs| ==> vs[q] == vs[0]) || forall p :: 0 <= p < |vs| ==> !Dominates(vs, p))
  {
    forall p | 0 <= p < |vs| ensures PassesMax(vs, p) <==> Dominates(vs, p) { MaxMeansDominates(vs, p); }
    if forall p :: 0 <= p < |vs| ==> PassesMax(vs, p) {
      forall q | 0 <= q < |vs| ensures vs[q] == vs[0] {
        assert Dominates(vs, q) && Dominates(vs, 0);
        forall i | 0 <= i < |vs[0]| ensures vs[q][i] == vs[0][i] {}
      }
    }
  }

  /** All checks of ProcessSet::Initialize, in turn. */
  ghost function Checked(vs: seq<seq<int>>, p: nat): Verdict
    requires p < |vs|
  {
    if LengthCheck(vs, p) != Passes then LengthCheck(vs, p)
    else if !PassesMax(vs, p) then Throws
    else if exists q :: 0 <= q < |vs| && !PassesMax(vs, q) then Waits
    else if !PassesMin(vs, p) then Throws
    else Passes
  }

  ghost predicate Succeeds(v: Verdict) { v == Skips || v == Passes }

  lemma {:induction false} DominatedByAll(vs: seq<seq<int>>)
    requires |vs| > 0 && SameLengths(vs) && forall p :: 0 <= p < |vs| ==> PassesMax(vs, p)
    ensures AllEqual(vs)
  {
    forall p | 0 <= p < |vs| ensures Dominates(vs, p) { MaxMeansDominates(vs, p); }
    forall q | 0 <= q < |vs| ensures vs[q] == vs[0] {
      assert Dominates(vs, q) && Dominates(vs, 0);
      forall i | 0 <= i < |vs[0]| ensures vs[q][i] == vs[0][i] {}
    }
  }

  lemma {:induction false} EqualListsPass(vs: seq<seq<int>>, p: nat)
    requires p < |vs| && AllEqual(vs)
    ensures Checked(vs, p) == if vs[0] == [] then Skips else Passes
  {
    if vs[0] != [] {
      forall q | 0 <= q < |vs| ensures vs[q] == vs[p] && PassesMax(vs, q) && PassesMin(vs, q) {
        ChecksMeanEqual(vs, q);
      }
    }
  }

  /** Initialization succeeds on all processes exactly when they registered the same list. */
  lemma {:induction false} SucceedsIffEqual(vs: seq<seq<int>>)
    requires |vs| > 0
    ensures (forall p :: 0 <= p < |vs| ==> Succeeds(Checked(vs, p))) <==> AllEqual(vs)
  {
    if AllEqual(vs) {
      forall p | 0 <= p < |vs| ensures Succeeds(Checked(vs, p)) { EqualListsPass(vs, p); }
    } else if forall p :: 0 <= p < |vs| ==> Succeeds(Checked(vs, p)) {
      assert Succeeds(Checked(vs, 0));
      LengthVerdict(vs);
      var q :| 0 <= q < |vs| && vs[q] != vs[0];
      assert Succeeds(Checked(vs, q));
      DominatedByAll(vs);
    }
  }

  /** Lists of one length that differ: who dominates waits, and the others throw. */
  lemma {:induction false} UnequalVerdicts(vs: seq<seq<int>>)
    requires |vs| > 0 && NoneEmpty(vs) && SameLengths(vs) && !AllEqual(vs)
    ensures forall p :: 0 <= p < |vs| ==> Checked(vs, p) == if Dominates(vs, p) then Waits else Throws
    ensures exists p :: 0 <= p < |vs| && !Dominates(vs, p)
  {
    forall p | 0 <= p < |vs| ensures PassesMax(vs, p) <==> Dominates(vs, p) { MaxMeansDominates(vs, p); }
    if forall p :: 0 <= p < |vs| ==> PassesMax(vs, p) { DominatedByAll(vs); }
    var q :| 0 <= q < |vs| && !PassesMax(vs, q);
  }

  /** All processes get the same verdict exactly when all lists are empty, or none is and they
      differ in length, are equal, or none of them dominates the others. */
  lemma {:induction false} OneVerdictIff(vs: seq<seq<int>>)
    requires |vs| > 0
    ensures (forall p :: 0 <= p < |vs| ==> Checked(vs, p) == Checked(vs, 0))
            <==> (AllEmpty(vs) ||
                  (NoneEmpty(vs) &&
                   (!SameLengths(vs) || AllEqual(vs) || forall p :: 0 <= p < |vs| ==> !Dominates(vs, p))))
  {
    LengthVerdict(vs);
    if NoneEmpty(vs) && SameLengths(vs) {
      if AllEqual(vs) {
        forall p | 0 <= p < |vs| ensures Checked(vs, p) == Checked(vs, 0) {
          EqualListsPass(vs, p);
          EqualListsPass(vs, 0);
        }
      } else {
        UnequalVerdicts(vs);
      }
    } else {
      forall p | 0 <= p < |vs| ensures Checked(vs, p) == LengthCheck(vs, p) {}
    }
  }

  /** Every process has `m` sets to initialize. */
  ghost predicate PendingCount(w: seq<Process>, m: nat)
    requires AllKnown(w)
  {
    forall p :: 0 <= p < |w| ==> |Pending(w[p].table)| == m
  }

  /** The lists that the processes are about to initialize together, in the `j`-th place. */
  ghost function RankLists(w: seq<Process>, m: nat, j: nat): (vs: seq<seq<int>>)
    requires AllKnown(w) && PendingCount(w, m) && j < m
    ensures |vs| == |w| && forall p :: 0 <= p < |w| ==> vs[p] == Pending(w[p].table)[j]
  {
    seq(|w|, p requires 0 <= p < |w| => Pending(w[p].table)[j])
  }

  /** The condition under which a round initializes is that of the checks, for all pending sets. */
  lemma {:induction false} RoundChecks(w: seq<Process>, m: nat)
    requires |w| > 0 && AllKnown(w) && PendingCount(w, m)
    ensures SamePending(w) <==>
            forall j, p :: 0 <= j < m && 0 <= p < |w| ==> Succeeds(Checked(RankLists(w, m, j), p))
  {
    forall j | 0 <= j < m
      ensures (forall p :: 0 <= p < |w| ==> Succeeds(Checked(RankLists(w, m, j), p))) <==>
              forall p :: 0 <= p < |w| ==> Pending(w[p].table)[j] == Pending(w[0].table)[j]
    {
      SucceedsIffEqual(RankLists(w, m, j));
    }
    if forall j, p :: 0 <= j < m && 0 <= p < |w| ==> Succeeds(Checked(RankLists(w, m, j), p)) {
      forall p | 0 <= p < |w| ensures Pending(w[p].table) == Pending(w[0].table) {
        forall j | 0 <= j < m ensures Pending(w[p].table)[j] == Pending(w[0].table)[j] {}
      }
    }
  }

  /** The table of two processes with `ranks` registered on top of the global set. */
  function OneAdded(ranks: seq<int>): Table {
    Table([0, 1], map[0 := ProcessSet(Iota(2), true), 1 := ProcessSet(ranks, false)], [], 2, NO_PENDING_REMOVAL)
  }

  lemma {:induction false} FirstAdd(ranks: seq<int>)
    requires ranks == [] || ranks == [0] || ranks == [1]
    ensures Known(StartTable(2).ids, StartTable(2).sets)
    ensures AddCall(Process(StartTable(2), Idle), ranks, 2) == Process(OneAdded(ranks), Adding(1))
    ensures Known(OneAdded(ranks).ids, OneAdded(ranks).sets) && Pending(OneAdded(ranks)) == [ranks]
  {
    var t, u := StartTable(2), OneAdded(ranks);
    assert SortRanks(ranks) == ranks;
    NotThere(ranks);
    assert Enter(t, ranks) == u;
    OnePending(ranks);
  }

  lemma {:induction false} NotThere(ranks: seq<int>)
    requires ranks == [] || ranks == [0] || ranks == [1]
    ensures Known(StartTable(2).ids, StartTable(2).sets)
    ensures First(StartTable(2).ids, StartTable(2).sets, ranks) == -1
  {
    var t := StartTable(2);
    assert |Iota(2)| == 2;
    assert t.ids[1..] == [];
  }

  lemma {:induction false} OnePending(ranks: seq<int>)
    ensures Known(OneAdded(ranks).ids, OneAdded(ranks).sets) && Pending(OneAdded(ranks)) == [ranks]
  {
    var u := OneAdded(ranks);
    assert u.ids[..1] == [0] && u.ids[..1][..0] == [];
    assert PendingOf(u.ids[..1], u.sets) == PendingOf([], u.sets) + [];
  }

  /** Two processes have each begun an add, and nothing else. */
  lemma {:induction false} TwoAdds(a: seq<int>, b: seq<int>)
    requires (a == [] || a == [0] || a == [1]) && (b == [] || b == [0] || b == [1])
    ensures Exec(Start(2), [BeginAdd(0, a), BeginAdd(1, b)])
            == Some([Process(OneAdded(a), Adding(1)), Process(OneAdded(b), Adding(1))])
  {
    var w0, steps := Start(2), [BeginAdd(0, a), BeginAdd(1, b)];
    var x := Process(StartTable(2), Idle);
    var w1 := [Process(OneAdded(a), Adding(1)), x];
    assert w0 == [x, x];
    AddOf([x, x], 0, a, w1);
    AddOf(w1, 1, b, [Process(OneAdded(a), Adding(1)), Process(OneAdded(b), Adding(1))]);
    ExecTwo(w0, steps[0], steps[1], w1);
  }

  lemma {:induction false} ExecTwo(w: seq<Process>, first: Step, second: Step, w1: seq<Process>)
    requires Next(w, first) == Some(w1)
    ensures Exec(w, [first, second]) == Next(w1, second)
  {
    assert [first, second][..1] == [first] && [first][..0] == [];
    assert Exec(w, []) == Some(w) && Exec(w, [first]) == Some(w1);
  }

  lemma {:induction false} AddOf(w: seq<Process>, p: nat, ranks: seq<int>, w': seq<Process>)
    requires |w| == 2 && p < 2 && (ranks == [] || ranks == [0] || ranks == [1])
    requires w[p] == Process(StartTable(2), Idle) && w' == w[p := Process(OneAdded(ranks), Adding(1))] && AllKnown(w)
    ensures AllKnown(w') && Next(w, BeginAdd(p, ranks)) == Some(w')
  {
    FirstAdd(ranks);
  }

  /** Two processes, one adding {1} and the other {0}: the counts agree and the lists do not; the
      first passes the MAX check and waits in the MIN reduction, the second throws. */
  lemma {:induction false} MaxVerdictSplits() returns (w: seq<Process>)
    ensures Exec(Start(2), [BeginAdd(0, [1]), BeginAdd(1, [0])]) == Some(w)
    ensures AllKnown(w) && SameCounts(w) && !SamePending(w) && |w| == 2
    ensures Pending(w[0].table) == [[1]] && Pending(w[1].table) == [[0]]
    ensures Checked([[1], [0]], 0) == Waits && Checked([[1], [0]], 1) == Throws
  {
    w := [Process(OneAdded([1]), Adding(1)), Process(OneAdded([0]), Adding(1))];
    TwoAdds([1], [0]);
    FirstAdd([1]);
    FirstAdd([0]);
    assert Pending(w[0].table)[0] != Pending(w[1].table)[0];
    OneDominates([[1], [0]]);
  }

  lemma {:induction false} OneDominates(vs: seq<seq<int>>)
    requires vs == [[1], [0]]
    ensures Checked(vs, 0) == Waits && Checked(vs, 1) == Throws
  {
    assert vs[0] == [1] && vs[1] == [0];
    UnequalVerdicts(vs);
    assert vs[0][0] > vs[1][0];
  }

  /** One adding the empty list and the other {0}: the first goes on without any check, and the
      second waits for it. */
  lemma {:induction false} LengthVerdictSplits() returns (w: seq<Process>)
    ensures Exec(Start(2), [BeginAdd(0, []), BeginAdd(1, [0])]) == Some(w)
    ensures AllKnown(w) && SameCounts(w) && !SamePending(w) && |w| == 2
    ensures Pending(w[0].table) == [[]] && Pending(w[1].table) == [[0]]
    ensures Checked([[], [0]], 0) == Skips && Checked([[], [0]], 1) == Waits
  {
    w := [Process(OneAdded([]), Adding(1)), Process(OneAdded([0]), Adding(1))];
    TwoAdds([], [0]);
    FirstAdd([]);
    FirstAdd([0]);
    assert Pending(w[0].table)[0] != Pending(w[1].table)[0];
    OneSkips([[], [0]]);
  }

  lemma {:induction false} OneSkips(vs: seq<seq<int>>)
    requires vs == [[], [0]]
    ensures Checked(vs, 0) == Skips && Checked(vs, 1) == Waits
  {
    assert vs[0] == [] && vs[1] != [];
  }

  // ---------------------------------------------------------------- the object

  /** The gathered buffer holds a count and a mark for each process. */
  function CountAt(buffer: seq<int>, p: nat): int
    requires 2 * p + 1 < |buffer|
  {
    buffer[2 * p]
  }

  function MarkAt(buffer: seq<int>, p: nat): int
    requires 2 * p + 1 < |buffer|
  {
    buffer[2 * p + 1]
  }

  class ProcessSetTable {
    var ids: seq<int>
    var sets: map<int, ProcessSet>
    var free: seq<int>
    var next: int
    var mark: int

    ghost function View(): Table
      reads this
    {
      Table(ids, sets, free, next, mark)
    }

    /** The constructor registers the global set; Initialize_ makes it ready. */
    constructor (size: nat)
      ensures View() == StartTable(size)
    {
      ids, sets, free, next, mark := [0], map[0 := ProcessSet(Iota(size), true)], [], 1, NO_PENDING_REMOVAL;
    }

    /** ProcessSetTable::RegisterProcessSet. */
    method RegisterProcessSet(globalRanks: seq<int>, size: nat) returns (r: Registration)
      modifies this
      ensures r == Register(old(View()), globalRanks, size)
      ensures View() == if r.Entered? then r.table else old(View())
    {
      var ranks := globalRanks;
      if ranks != [] && 0 in sets {
        ranks := SortRanks(ranks);
        var i := 0;
        while i + 1 < |ranks|
          invariant 0 <= i <= |ranks|
          invariant forall j :: 0 <= j < i && j + 1 < |ranks| ==> ranks[j] != ranks[j + 1]
        {
          if ranks[i] == ranks[i + 1] {
            return DuplicateRank;
          }
          i := i + 1;
        }
        assert !HasAdjacent(ranks);
        i := 0;
        while i < |ranks|
          invariant 0 <= i <= |ranks| && forall j :: 0 <= j < i ==> 0 <= ranks[j] < size
        {
          if ranks[i] < 0 || ranks[i] >= size {
            return InvalidRank;
          }
          i := i + 1;
        }
      }
      var id;
      if free != [] {
        id := free[0];
        free := free[1..];
      } else {
        id := next;
        next := next + 1;
      }
      sets := sets[id := ProcessSet(ranks, false)];
      ids := ids + [id];
      r := Entered(Table(ids, sets, free, next, mark), id);
    }

    /** ProcessSetTable::FindId. */
    method FindId(ranks: seq<int>) returns (id: int)
      requires Known(ids, sets)
      ensures id == First(ids, sets, ranks)
    {
      var i := 0;
      assert ids[0..] == ids;
      while i < |ids|
        invariant 0 <= i <= |ids| && First(ids, sets, ranks) == First(ids[i..], sets, ranks)
      {
        assert ids[i..][0] == ids[i] && ids[i..][1..] == ids[i + 1..];
        if sets[ids[i]].ranks == ranks {
          return ids[i];
        }
        i := i + 1;
      }
      id := -1;
    }

    /** ProcessSetTable::DeregisterProcessSet. */
    method DeregisterProcessSet(id: int)
      modifies this
      ensures View() == Deregister(old(View()), id)
    {
      if id in sets {
        sets := sets - {id};
        var i := 0;
        assert ids[..0] + Remove(ids[0..], id) == Remove(ids, id);
        while i < |ids| && ids[i] != id
          invariant 0 <= i <= |ids| && ids[..i] + Remove(ids[i..], id) == Remove(ids, id)
          modifies {}
        {
          RemoveStep(ids, i, id);
          i := i + 1;
        }
        if i == |ids| {
          assert ids[i..] == [] && ids[..i] + [] == ids;
        } else {
          assert ids[i..][0] == id && ids[i..][1..] == ids[i + 1..];
          ids := ids[..i] + ids[i + 1..];
        }
        free := free + [id];
      }
    }

    /** ProcessSetTable::MarkProcessSetForRemoval: the global set cannot be marked. */
    method MarkProcessSetForRemoval(id: int) returns (ok: bool)
      requires id != 0 ==> mark == NO_PENDING_REMOVAL
      modifies this`mark
      ensures ok <==> id != 0
      ensures View() == if ok then old(View()).(mark := id) else old(View())
    {
      ok := id != 0;
      if ok {
        mark := id;
      }
    }

    /** ProcessSetTable::ProcessSetHasJustBeenRemoved. */
    method ProcessSetHasJustBeenRemoved() returns (removed: bool)
      modifies this`mark
      ensures removed <==> old(mark) == SUCCESSFUL_REMOVAL
      ensures View() == if removed then old(View()).(mark := NO_PENDING_REMOVAL) else old(View())
    {
      removed := mark == SUCCESSFUL_REMOVAL;
      if removed {
        mark := NO_PENDING_REMOVAL;
      }
    }

    /** The comparison loop of a round over the gathered pairs of count and mark. It stops early
        once both agreements are lost. */
    method Compare(buffer: seq<int>, size: nat) returns (sameCounts: bool, sameMarks: bool)
      requires |buffer| == 2 * size
      ensures sameCounts <==> forall p :: 0 <= p < size ==> CountAt(buffer, p) == |ids|
      ensures sameMarks <==> forall p :: 0 <= p < size ==> MarkAt(buffer, p) == mark
    {
      sameCounts, sameMarks := true, true;
      var k := 0;
      while k < size && (sameCounts || sameMarks)
        invariant 0 <= k <= size
        invariant sameCounts <==> forall p :: 0 <= p < k ==> CountAt(buffer, p) == |ids|
        invariant sameMarks <==> forall p :: 0 <= p < k ==> MarkAt(buffer, p) == mark
      {
        if CountAt(buffer, k) != |ids| {
          sameCounts := false;
        }
        if MarkAt(buffer, k) != mark {
          sameMarks := false;
        }
        k := k + 1;
      }
    }

    /** Initialize every registered set that is not initialized yet; `count` is how many. `lists`
        has, for each of them, what all processes registered; this process is number `me`. */
    method InitializeAll(size: nat, lists: map<int, seq<seq<int>>>, me: nat) returns (ok: bool, count: nat)
      requires WellFormed(View()) && Heard(sets, lists, me)
      modifies this`sets
      ensures ok <==> AllSucceed(old(sets), lists, me)
      ensures ok ==> View() == InitAll(old(View()), size) && count == |Pending(old(View()))|
    {
      ghost var t := View();
      KnownIds(t);
      count := 0;
      for i := 0 to |ids|
        invariant InitializedUpTo(t, sets, size, i)
        invariant count == |PendingOf(ids[..i], t.sets)|
        invariant AcceptedUpTo(t, lists, me, i)
      {
        PendingNext(t, i);
        InitializedNext(t, sets, size, i);
        var s := sets[ids[i]];
        if !s.initialized {
          count := count + 1;
        }
        ok, s := InitializeOne(s, ids[i], lists, me, size, t.sets);
        if !ok {
          return false, count;
        }
        sets := sets[ids[i] := s];
      }
      PendingNext(t, |ids|);
      InitAllIs(t, sets, size);
      AllAccepted(t, lists, me);
      ok := true;
    }

    /** InitializeRegisteredAndRemoveMarkedIfReady_, given the gathered pairs. It does not come
        through exactly when it initializes and a check of this process throws or waits for ever. */
    method RoundStep(buffer: seq<int>, size: nat, lists: map<int, seq<seq<int>>>, me: nat)
      returns (ok: bool, count: nat)
      requires WellFormed(View()) && |buffer| == 2 * size && Heard(sets, lists, me)
      modifies this
      ensures var sameCounts := forall p :: 0 <= p < size ==> CountAt(buffer, p) == |old(ids)|;
              var sameMarks := forall p :: 0 <= p < size ==> MarkAt(buffer, p) == old(mark);
              && (ok <==> (sameCounts ==> AllSucceed(old(sets), lists, me)))
              && (ok ==> View() == RoundOn(old(View()), sameCounts, sameMarks, size))
              && (ok ==> count == if sameCounts then |Pending(old(View()))| else 0)
    {
      KnownIds(View());
      var sameCounts, sameMarks := Compare(buffer, size);
      ok, count := true, 0;
      if sameCounts {
        ok, count := InitializeAll(size, lists, me);
        if !ok {
          return;
        }
      }
      if sameMarks && mark != NO_PENDING_REMOVAL && mark != SUCCESSFUL_REMOVAL {
        DeregisterProcessSet(mark);
        mark := SUCCESSFUL_REMOVAL;
      }
    }
  }

  /** What process `me` hears about its pending sets. */
  ghost predicate Heard(sets: map<int, ProcessSet>, lists: map<int, seq<seq<int>>>, me: nat) {
    forall id :: id in sets && !sets[id].initialized ==>
      id in lists && me < |lists[id]| && lists[id][me] == sets[id].ranks
  }

  ghost predicate Accepted(sets: map<int, ProcessSet>, lists: map<int, seq<seq<int>>>, me: nat, id: int) {
    id in sets && !sets[id].initialized ==> id in lists && me < |lists[id]| && Succeeds(Checked(lists[id], me))
  }

  ghost predicate AllSucceed(sets: map<int, ProcessSet>, lists: map<int, seq<seq<int>>>, me: nat) {
    forall id :: id in sets ==> Accepted(sets, lists, me, id)
  }

  ghost predicate AcceptedUpTo(t: Table, lists: map<int, seq<seq<int>>>, me: nat, i: nat) {
    && i <= |t.ids|
    && forall j {:trigger Accepted(t.sets, lists, me, t.ids[j])} :: 0 <= j < i ==> Accepted(t.sets, lists, me, t.ids[j])
  }

  lemma {:induction false} AllAccepted(t: Table, lists: map<int, seq<seq<int>>>, me: nat)
    requires WellFormed(t) && AcceptedUpTo(t, lists, me, |t.ids|)
    ensures AllSucceed(t.sets, lists, me)
  {
    forall id | id in t.sets ensures Accepted(t.sets, lists, me, id) {
      assert id in t.ids;
      var j :| 0 <= j < |t.ids| && t.ids[j] == id;
      assert Accepted(t.sets, lists, me, t.ids[j]);
    }
  }

  /** The set at place `j` once the first `i` are initialized. */
  ghost function InitUpTo(t: Table, size: nat, i: nat, j: nat): ProcessSet
    requires Known(t.ids, t.sets) && j < |t.ids|
  {
    if j < i then Ready(t.sets[t.ids[j]], size) else t.sets[t.ids[j]]
  }

  ghost predicate InitializedUpTo(t: Table, sets: map<int, ProcessSet>, size: nat, i: nat)
    requires Known(t.ids, t.sets)
  {
    && sets.Keys == t.sets.Keys
    && forall j {:trigger InitUpTo(t, size, i, j)} :: 0 <= j < |t.ids| ==> sets[t.ids[j]] == InitUpTo(t, size, i, j)
  }

  lemma {:induction false} InitializedNext(t: Table, sets: map<int, ProcessSet>, size: nat, i: nat)
    requires WellFormed(t) && Known(t.ids, t.sets) && i < |t.ids| && InitializedUpTo(t, sets, size, i)
    ensures t.ids[i] in sets && sets[t.ids[i]] == t.sets[t.ids[i]]
    ensures InitializedUpTo(t, sets[t.ids[i] := Ready(t.sets[t.ids[i]], size)], size, i + 1)
  {
    assert sets[t.ids[i]] == InitUpTo(t, size, i, i);
    var sets' := sets[t.ids[i] := Ready(t.sets[t.ids[i]], size)];
    forall j | 0 <= j < |t.ids| ensures sets'[t.ids[j]] == InitUpTo(t, size, i + 1, j) {
      assert sets[t.ids[j]] == InitUpTo(t, size, i, j);
    }
  }

  /** ProcessSet::Initialize on process `me`, when `vs` are the lists that all registered: the
      lengths are gathered and compared, then the lists with their maximum and minimum. A collective
      that some process does not enter ends in `Waits`. */
  method Initialize(s: ProcessSet, vs: seq<seq<int>>, me: nat, size: nat) returns (v: Verdict, s': ProcessSet)
    requires !s.initialized && me < |vs| && vs[me] == s.ranks
    ensures v == Checked(vs, me)
    ensures s' == if Succeeds(v) then Ready(s, size) else s
  {
    s' := s;
    if s.ranks == [] {
      return Skips, ProcessSet(Iota(size), true);
    }
    if exists q :: 0 <= q < |vs| && vs[q] == [] {
      return Waits, s;
    }
    var i := 0;
    while i < |vs|
      invariant 0 <= i <= |vs| && forall q :: 0 <= q < i ==> |vs[q]| == |vs[me]|
    {
      if |vs[i]| != |s.ranks| {
        return Throws, s;
      }
      i := i + 1;
    }
    v := Reduce(vs, me);
    if v == Passes {
      s' := ProcessSet(s.ranks, true);
    }
  }

  /** The MAX reduction and then the MIN reduction, which a process that has thrown does not enter. */
  method Reduce(vs: seq<seq<int>>, me: nat) returns (v: Verdict)
    requires me < |vs| && NoneEmpty(vs) && SameLengths(vs)
    ensures v == Checked(vs, me)
  {
    var ranks := vs[me];
    var largest := seq(|ranks|, k requires 0 <= k < |ranks| => Largest(vs, k));
    var smallest := seq(|ranks|, k requires 0 <= k < |ranks| => Smallest(vs, k));
    assert forall q :: 0 <= q < |vs| ==> (PassesMax(vs, q) <==> vs[q] == largest);
    if ranks != largest {
      v := Throws;
    } else if exists q :: 0 <= q < |vs| && vs[q] != largest {
      v := Waits;
    } else if ranks != smallest {
      v := Throws;
    } else {
      v := Passes;
    }
  }

  method InitializeOne(s: ProcessSet, id: int, lists: map<int, seq<seq<int>>>, me: nat, size: nat,
                       ghost sets: map<int, ProcessSet>)
    returns (ok: bool, s': ProcessSet)
    requires id in sets && s == sets[id] && Heard(sets, lists, me)
    ensures ok <==> Accepted(sets, lists, me, id)
    ensures ok ==> s' == Ready(s, size)
  {
    ok, s' := true, s;
    if !s.initialized {
      var v;
      v, s' := Initialize(s, lists[id], me, size);
      ok := v == Skips || v == Passes;
    }
  }

  lemma {:induction false} PendingNext(t: Table, i: nat)
    requires WellFormed(t) && i <= |t.ids|
    ensures Known(t.ids, t.sets) && Known(t.ids[..i], t.sets)
    ensures i < |t.ids| ==>
              |PendingOf(t.ids[..i + 1], t.sets)|
              == |PendingOf(t.ids[..i], t.sets)| + if t.sets[t.ids[i]].initialized then 0 else 1
    ensures i == |t.ids| ==> PendingOf(t.ids[..i], t.sets) == Pending(t)
  {
    KnownIds(t);
    if i < |t.ids| {
      assert t.ids[..i + 1][..i] == t.ids[..i];
    } else {
      assert t.ids[..i] == t.ids;
    }
  }

  lemma {:induction false} InitAllIs(t: Table, sets: map<int, ProcessSet>, size: nat)
    requires WellFormed(t) && Known(t.ids, t.sets) && InitializedUpTo(t, sets, size, |t.ids|)
    ensures sets == InitAll(t, size).sets
  {
    forall id | id in sets ensures sets[id] == Ready(t.sets[id], size) {
      assert id in t.ids;
      var j :| 0 <= j < |t.ids| && t.ids[j] == id;
      assert sets[t.ids[j]] == InitUpTo(t, size, |t.ids|, j);
    }
  }

  lemma {:induction false} KnownIds(t: Table)
    requires WellFormed(t)
    ensures Known(t.ids, t.sets)
  {
    forall i | 0 <= i < |t.ids| ensures t.ids[i] in t.sets { assert t.ids[i] in t.ids; }
  }

  lemma {:induction false} RemoveStep(ids: seq<int>, i: nat, id: int)
    requires i < |ids| && ids[i] != id
    ensures ids[..i] + Remove(ids[i..], id) == ids[..i + 1] + Remove(ids[i + 1..], id)
  {
    assert ids[i..][0] == ids[i] && ids[i..][1..] == ids[i + 1..];
  }

  /** The pairs gathered in a round, two numbers for each process. */
  function Gathered(w: seq<Process>): (buffer: seq<int>)
    ensures |buffer| == 2 * |w|
    ensures forall p :: 0 <= p < |w| ==> CountAt(buffer, p) == |w[p].table.ids| && MarkAt(buffer, p) == w[p].table.mark
  {
    seq(2 * |w|, k requires 0 <= k < 2 * |w| => if k % 2 == 0 then |w[k / 2].table.ids| else w[k / 2].table.mark)
  }

  /** Comparing the gathered pairs with one's own gives every process the same verdict. */
  lemma {:induction false} GatheredTells(w: seq<Process>, q: nat)
    requires q < |w|
    ensures (forall p :: 0 <= p < |w| ==> CountAt(Gathered(w), p) == |w[q].table.ids|) <==> SameCounts(w)
    ensures (forall p :: 0 <= p < |w| ==> MarkAt(Gathered(w), p) == w[q].table.mark) <==> SameMarks(w)
  {
    if forall p :: 0 <= p < |w| ==> CountAt(Gathered(w), p) == |w[q].table.ids| {
      forall p | 0 <= p < |w| ensures |w[p].table.ids| == |w[q].table.ids| {
        assert CountAt(Gathered(w), p) == |w[p].table.ids|;
      }
      assert |w[0].table.ids| == |w[q].table.ids|;
    }
    if forall p :: 0 <= p < |w| ==> MarkAt(Gathered(w), p) == w[q].table.mark {
      forall p | 0 <= p < |w| ensures w[p].table.mark == w[q].table.mark {
        assert MarkAt(Gathered(w), p) == w[p].table.mark;
      }
      assert w[0].table.mark == w[q].table.mark;
    }
  }
}
