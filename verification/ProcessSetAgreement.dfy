/** All processes together: on each one, a user thread that makes one blocking call at a time
    (add or remove a process set), and a background thread. In a round the background threads
    exchange their registration counts and marks and act on what all of them see. */
module ProcessSetAgreement {
  import opened Messages
  import opened ProcessSets

  /** What the user thread is blocked in. */
  datatype Call = Idle | Adding(id: int) | Removing(id: int)

  datatype Process = Process(table: Table, call: Call)

  datatype Step =
    | BeginAdd(p: nat, ranks: seq<int>)
    | PollAdd(p: nat)
    | BeginRemove(p: nat, id: int)
    | PollRemove(p: nat)
    | Round

  function StartTable(size: nat): Table {
    Table([0], map[0 := ProcessSet(Iota(size), true)], [], 1, NO_PENDING_REMOVAL)
  }

  function Start(size: nat): (w: seq<Process>)
    ensures |w| == size
  {
    seq(size, _ => Process(StartTable(size), Idle))
  }

  ghost predicate AllKnown(w: seq<Process>) {
    forall p :: 0 <= p < |w| ==> Known(w[p].table.ids, w[p].table.sets)
  }

  /** horovod_add_process_set up to its blocking loop: an existing set and an invalid rank list
      are reported to the caller and change nothing. */
  function AddCall(x: Process, ranks: seq<int>, size: nat): Process
    requires Known(x.table.ids, x.table.sets)
  {
    var t, sorted := x.table, SortRanks(ranks);
    var id := First(t.ids, t.sets, sorted);
    if id in t.sets then (if t.sets[id].initialized then x else Process(t, Adding(id)))
    else
      match Register(t, sorted, size)
      case Entered(t', id') => Process(t', Adding(id'))
      case _ => x
  }

  /** horovod_remove_process_set up to its blocking loop; marking set 0 throws. */
  function RemoveCall(x: Process, id: int): Process {
    if id in x.table.sets && id != 0 then Process(x.table.(mark := id), Removing(id)) else x
  }

  /** One turn of the blocking loop of an add call. */
  function AddPoll(x: Process): Process {
    if x.call.Adding? && x.call.id in x.table.sets && x.table.sets[x.call.id].initialized then x.(call := Idle) else x
  }

  /** One turn of the blocking loop of a remove call (ProcessSetHasJustBeenRemoved). */
  function RemovePoll(x: Process): Process {
    if x.call.Removing? && x.table.mark == SUCCESSFUL_REMOVAL
    then Process(x.table.(mark := NO_PENDING_REMOVAL), Idle)
    else x
  }

  ghost predicate SameCounts(w: seq<Process>) {
    forall p :: 0 <= p < |w| ==> |w[p].table.ids| == |w[0].table.ids|
  }

  ghost predicate SameMarks(w: seq<Process>) {
    forall p :: 0 <= p < |w| ==> w[p].table.mark == w[0].table.mark
  }

  /** Initializing is collective: it succeeds when all processes initialize the same rank lists
      in the same order. */
  ghost predicate SamePending(w: seq<Process>)
    requires AllKnown(w)
  {
    forall p :: 0 <= p < |w| ==> Pending(w[p].table) == Pending(w[0].table)
  }

  /** InitializeRegisteredAndRemoveMarkedIfReady_ on one process, given what all of them sent. */
  function RoundOn(t: Table, sameCounts: bool, sameMarks: bool, size: nat): Table {
    var t1 := if sameCounts then InitAll(t, size) else t;
    if sameMarks && t1.mark != NO_PENDING_REMOVAL && t1.mark != SUCCESSFUL_REMOVAL
    then Deregister(t1, t1.mark).(mark := SUCCESSFUL_REMOVAL) else t1
  }

  /** `None` where a process would throw or wait for a collective that others do not enter. */
  ghost function Next(w: seq<Process>, step: Step): Option<seq<Process>> {
    if !AllKnown(w) then None
    else match step
      case BeginAdd(p, ranks) => Some(if p < |w| && w[p].call == Idle then w[p := AddCall(w[p], ranks, |w|)] else w)
      case PollAdd(p) => Some(if p < |w| then w[p := AddPoll(w[p])] else w)
      case BeginRemove(p, id) => Some(if p < |w| && w[p].call == Idle then w[p := RemoveCall(w[p], id)] else w)
      case PollRemove(p) => Some(if p < |w| then w[p := RemovePoll(w[p])] else w)
      case Round => RoundAll(w)
  }

  ghost function RoundAll(w: seq<Process>): Option<seq<Process>>
    requires AllKnown(w)
  {
    if SameCounts(w) && !SamePending(w) then None
    else
      Some(seq(|w|, p requires 0 <= p < |w| =>
        w[p].(table := RoundOn(w[p].table, SameCounts(w), SameMarks(w), |w|))))
  }

  ghost function Exec(w: seq<Process>, steps: seq<Step>): Option<seq<Process>> {
    if steps == [] then Some(w)
    else
      var prev := Exec(w, steps[..|steps| - 1]);
      if prev.None? then None else Next(prev.value, steps[|steps| - 1])
  }

  // ---------------------------------------------------------------- the invariant

  /** Rank lists the table accepts: sorted, without duplicates, in range. */
  ghost predicate Proper(ranks: seq<int>, size: nat) {
    StrictlyIncreasing(ranks) && InRange(ranks, size)
  }

  ghost predicate Settled(b: Table, size: nat) {
    && WellFormed(b) && b.mark == NO_PENDING_REMOVAL && b.sets[0].ranks == Iota(size)
    && forall id :: id in b.sets ==>
         b.sets[id].initialized && Proper(b.sets[id].ranks, size) && (size > 0 ==> b.sets[id].ranks != [])
  }

  /** Blocked in an add whose set is registered on top of `b` but not initialized. */
  ghost predicate Waiting(x: Process, b: Table, size: nat) {
    && x.call == Adding(NextId(b))
    && exists ranks :: Proper(ranks, size) && x.table == Enter(b, ranks)
  }

  ghost predicate Fits(x: Process, b: Table, size: nat) {
    match x.call
    case Idle => x.table == b
    case Adding(id) => Waiting(x, b, size) || (x.table == b && id in b.sets)
    case Removing(id) =>
      && x.table.(mark := NO_PENDING_REMOVAL) == b
      && (x.table.mark == SUCCESSFUL_REMOVAL || (x.table.mark == id && id in b.sets && id != 0))
  }

  /** All processes have the table `b`, except that some wait for one new set on top of it. */
  ghost predicate Common(w: seq<Process>, b: Table) {
    Settled(b, |w|) && forall p :: 0 <= p < |w| ==> Fits(w[p], b, |w|)
  }

  lemma {:induction false} StartCommon(size: nat)
    ensures Common(Start(size), StartTable(size))
  {
    var b := StartTable(size);
    assert 0 in b.ids;
    assert forall x :: x in b.ids ==> x == 0;
  }

  // ---------------------------------------------------------------- one process

  lemma {:induction false} WaitingFacts(x: Process, b: Table, size: nat)
    requires Settled(b, size) && Waiting(x, b, size)
    ensures var id := NextId(b); var t := x.table;
            && WellFormed(t) && id !in b.sets && id in t.sets && !t.sets[id].initialized
            && Proper(t.sets[id].ranks, size) && t == Enter(b, t.sets[id].ranks)
            && |t.ids| == |b.ids| + 1 && t.mark == NO_PENDING_REMOVAL
  {
    var ranks :| Proper(ranks, size) && x.table == Enter(b, ranks);
    NextIdIsNew(b);
    EnterFacts(b, ranks);
  }

  /** Each table is well formed and extends the common one by at most the next id. */
  lemma {:induction false} FitsFacts(x: Process, b: Table, size: nat)
    requires Settled(b, size) && Fits(x, b, size)
    ensures WellFormed(x.table) && Known(x.table.ids, x.table.sets)
    ensures Waiting(x, b, size) <==> |x.table.ids| == |b.ids| + 1
    ensures !Waiting(x, b, size) ==> x.table.(mark := NO_PENDING_REMOVAL) == b && |x.table.ids| == |b.ids|
    ensures forall id :: id in b.sets ==> id in x.table.sets && x.table.sets[id] == b.sets[id]
    ensures forall id :: id in x.table.sets ==> id in b.sets || (id == NextId(b) && !x.table.sets[id].initialized)
  {
    if Waiting(x, b, size) {
      WaitingFacts(x, b, size);
    }
    forall i | 0 <= i < |x.table.ids| ensures x.table.ids[i] in x.table.sets {
      assert x.table.ids[i] in x.table.ids;
    }
  }

  lemma {:induction false} AddCallKeeps(x: Process, b: Table, ranks: seq<int>, size: nat)
    requires Settled(b, size) && Fits(x, b, size) && x.call == Idle
    requires Known(x.table.ids, x.table.sets)
    ensures Fits(AddCall(x, ranks, size), b, size)
  {
    var sorted := SortRanks(ranks);
    var again := SortRanks(sorted);
    SortFacts(sorted);
    if !HasAdjacent(again) {
      SortedDistinct(again);
    }
    var y := AddCall(x, ranks, size);
    if y != x && y.table != x.table {
      if sorted == [] { assert Proper(sorted, size) && y.table == Enter(b, sorted); }
      else { assert Proper(again, size) && y.table == Enter(b, again); }
    }
  }

  // ---------------------------------------------------------------- rounds

  lemma {:induction false} NothingPending(ids: seq<int>, sets: map<int, ProcessSet>)
    requires Known(ids, sets) && forall i :: 0 <= i < |ids| ==> sets[ids[i]].initialized
    ensures PendingOf(ids, sets) == []
  {
    if ids != [] {
      NothingPending(ids[..|ids| - 1], sets);
    }
  }

  lemma {:induction false} PendingOne(x: Process, b: Table, size: nat)
    requires Settled(b, size) && Waiting(x, b, size) && Known(x.table.ids, x.table.sets)
    ensures NextId(b) in x.table.sets && Pending(x.table) == [x.table.sets[NextId(b)].ranks]
  {
    WaitingFacts(x, b, size);
    var t, n := x.table, |b.ids|;
    assert t.ids[..n] == b.ids && t.ids[n] == NextId(b);
    forall i | 0 <= i < n ensures b.ids[i] in b.sets && t.sets[b.ids[i]] == b.sets[b.ids[i]] {
      assert b.ids[i] in b.ids;
    }
    NothingPending(b.ids, t.sets);
  }

  lemma {:induction false} InitNothing(t: Table, size: nat)
    requires forall id :: id in t.sets ==> t.sets[id].initialized
    ensures InitAll(t, size) == t
  {
    var sets := InitAll(t, size).sets;
    assert sets.Keys == t.sets.Keys;
    forall id | id in t.sets ensures sets[id] == t.sets[id] {
      assert Ready(t.sets[id], size) == t.sets[id];
    }
    assert sets == t.sets;
  }

  /** The common table once the set that everybody waits for is initialized. */
  lemma {:induction false} Initialized(b: Table, ranks: seq<int>, size: nat)
    requires Settled(b, size) && Proper(ranks, size)
    ensures var b' := InitAll(Enter(b, ranks), size); Settled(b', size) && NextId(b) in b'.sets
  {
    NextIdIsNew(b);
    EnterFacts(b, ranks);
  }

  /** With equal counts, either everybody waits or nobody does. */
  lemma {:induction false} CountsTell(w: seq<Process>, b: Table)
    requires Common(w, b) && |w| > 0 && SameCounts(w)
    ensures forall p :: 0 <= p < |w| ==> (Waiting(w[p], b, |w|) <==> Waiting(w[0], b, |w|))
  {
    FitsFacts(w[0], b, |w|);
    forall p | 0 <= p < |w| ensures Waiting(w[p], b, |w|) <==> Waiting(w[0], b, |w|) {
      FitsFacts(w[p], b, |w|);
    }
  }

  lemma {:induction false} SameRanks(w: seq<Process>, b: Table)
    requires Common(w, b) && |w| > 0 && AllKnown(w) && SamePending(w)
    requires forall p :: 0 <= p < |w| ==> Waiting(w[p], b, |w|)
    ensures forall p :: 0 <= p < |w| ==> w[p].table == w[0].table
  {
    PendingOne(w[0], b, |w|);
    WaitingFacts(w[0], b, |w|);
    forall p | 0 <= p < |w| ensures w[p].table == w[0].table {
      PendingOne(w[p], b, |w|);
      WaitingFacts(w[p], b, |w|);
      assert Pending(w[p].table)[0] == Pending(w[0].table)[0];
    }
  }

  /** Everybody waits: the set is initialized everywhere. */
  lemma {:induction false} RoundAdds(w: seq<Process>, b: Table) returns (b': Table)
    requires Common(w, b) && |w| > 0 && AllKnown(w) && SameCounts(w) && SamePending(w)
    requires forall p :: 0 <= p < |w| ==> Waiting(w[p], b, |w|)
    ensures Common(RoundAll(w).value, b')
    ensures b' == InitAll(w[0].table, |w|) && NextId(b) in b'.sets
    ensures forall p :: 0 <= p < |w| ==> RoundAll(w).value[p] == Process(b', Adding(NextId(b)))
  {
    SameRanks(w, b);
    b' := InitAll(w[0].table, |w|);
    WaitingFacts(w[0], b, |w|);
    Initialized(b, w[0].table.sets[NextId(b)].ranks, |w|);
  }

  /** Nothing to initialize on this process: only the mark matters. */
  lemma {:induction false} RoundOnOne(x: Process, b: Table, sameCounts: bool, sameMarks: bool, size: nat)
    requires Settled(b, size) && Fits(x, b, size) && (sameCounts ==> !Waiting(x, b, size))
    ensures RoundOn(x.table, sameCounts, sameMarks, size)
            == if sameMarks && x.table.mark >= 0
               then Deregister(x.table, x.table.mark).(mark := SUCCESSFUL_REMOVAL)
               else x.table
  {
    FitsFacts(x, b, size);
    if sameCounts {
      InitNothing(x.table, size);
    }
    if Waiting(x, b, size) {
      WaitingFacts(x, b, size);
    } else if x.call.Removing? && x.table.mark != SUCCESSFUL_REMOVAL {
      assert x.call.id in b.ids;
    }
  }

  /** A mark is an id only while removing it, and then the table is the common one. */
  lemma {:induction false} MarkFacts(x: Process, b: Table, size: nat)
    requires Settled(b, size) && Fits(x, b, size) && x.table.mark >= 0
    ensures x.call == Removing(x.table.mark) && x.table == b.(mark := x.table.mark)
    ensures x.table.mark in b.sets && x.table.mark != 0
  {
    if Waiting(x, b, size) {
      WaitingFacts(x, b, size);
    }
  }

  /** Everybody marks the same id: it is removed everywhere. */
  lemma {:induction false} RoundRemoves(w: seq<Process>, b: Table) returns (b': Table)
    requires Common(w, b) && |w| > 0 && AllKnown(w) && RoundAll(w).Some?
    requires SameMarks(w) && w[0].table.mark >= 0
    ensures Common(RoundAll(w).value, b') && w[0].table.mark in b.sets && w[0].table.mark != 0
    ensures b' == Deregister(b, w[0].table.mark)
    ensures forall p :: 0 <= p < |w| ==> RoundAll(w).value[p] == Process(b'.(mark := SUCCESSFUL_REMOVAL), w[p].call)
  {
    var id := w[0].table.mark;
    MarkFacts(w[0], b, |w|);
    b' := Deregister(b, id);
    DeregisterFacts(b, id);
    forall p | 0 <= p < |w|
      ensures RoundAll(w).value[p] == Process(b'.(mark := SUCCESSFUL_REMOVAL), w[p].call) && w[p].call.Removing?
    {
      MarkFacts(w[p], b, |w|);
      FitsFacts(w[p], b, |w|);
      RoundOnOne(w[p], b, SameCounts(w), SameMarks(w), |w|);
    }
  }

  /** Otherwise nothing changes. */
  lemma {:induction false} RoundIdles(w: seq<Process>, b: Table)
    requires Common(w, b) && |w| > 0 && AllKnown(w) && RoundAll(w).Some?
    requires !(SameMarks(w) && w[0].table.mark >= 0)
    requires SameCounts(w) ==> forall p :: 0 <= p < |w| ==> !Waiting(w[p], b, |w|)
    ensures RoundAll(w).value == w
  {
    forall p | 0 <= p < |w| ensures RoundAll(w).value[p] == w[p] {
      RoundOnOne(w[p], b, SameCounts(w), SameMarks(w), |w|);
    }
  }

  lemma {:induction false} RoundKeeps(w: seq<Process>, b: Table) returns (b': Table)
    requires Common(w, b) && |w| > 0 && AllKnown(w) && RoundAll(w).Some?
    ensures Common(RoundAll(w).value, b')
  {
    if SameMarks(w) && w[0].table.mark >= 0 {
      b' := RoundRemoves(w, b);
    } else if SameCounts(w) && Waiting(w[0], b, |w|) {
      CountsTell(w, b);
      b' := RoundAdds(w, b);
    } else {
      if SameCounts(w) { CountsTell(w, b); }
      RoundIdles(w, b);
      b' := b;
    }
  }

  lemma {:induction false} CommonKnown(w: seq<Process>, b: Table)
    requires Common(w, b)
    ensures AllKnown(w)
  {
    forall p | 0 <= p < |w| ensures Known(w[p].table.ids, w[p].table.sets) {
      FitsFacts(w[p], b, |w|);
    }
  }

  lemma {:induction false} NextKeeps(w: seq<Process>, b: Table, step: Step) returns (b': Table)
    requires Common(w, b) && Next(w, step).Some?
    ensures |Next(w, step).value| == |w| && Common(Next(w, step).value, b')
  {
    b' := b;
    match step
    case BeginAdd(p, ranks) => if p < |w| && w[p].call == Idle { AddCallKeeps(w[p], b, ranks, |w|); }
    case PollAdd(p) => if p < |w| { PollAddKeeps(w[p], b, |w|); }
    case BeginRemove(p, id) =>
    case PollRemove(p) =>
    case Round => if |w| > 0 { b' := RoundKeeps(w, b); }
  }

  lemma {:induction false} PollAddKeeps(x: Process, b: Table, size: nat)
    requires Settled(b, size) && Fits(x, b, size)
    ensures Fits(AddPoll(x), b, size)
  {
    if Waiting(x, b, size) {
      WaitingFacts(x, b, size);
    }
  }

  lemma {:induction false} ExecCommon(size: nat, steps: seq<Step>) returns (b: Table)
    requires Exec(Start(size), steps).Some?
    ensures |Exec(Start(size), steps).value| == size && Common(Exec(Start(size), steps).value, b)
  {
    if steps == [] {
      StartCommon(size);
      b := StartTable(size);
    } else {
      b := ExecCommon(size, steps[..|steps| - 1]);
      b := NextKeeps(Exec(Start(size), steps[..|steps| - 1]).value, b, steps[|steps| - 1]);
    }
  }

  // ---------------------------------------------------------------- what holds in every run

  /** In every reachable state: an initialized id means the same ranks on every process, the
      global set is live and initialized, live and free ids partition 0 .. next-1, and an id
      that an add call is about to return is initialized on every process. */
  lemma {:induction false} ProcessesAgree(size: nat, steps: seq<Step>, p: nat, q: nat)
    requires Exec(Start(size), steps).Some? && p < size && q < size
    ensures var w := Exec(Start(size), steps).value;
            && |w| == size
            && var s, t := w[p].table, w[q].table;
            && (forall id :: id in s.sets && s.sets[id].initialized ==> id in t.sets && t.sets[id] == s.sets[id])
            && WellFormed(s) && 0 in s.sets && s.sets[0].initialized
            && (forall id :: id in s.sets && s.sets[id].initialized ==> Proper(s.sets[id].ranks, size))
            && (AddPoll(w[p]) != w[p] ==> w[p].call.id in t.sets && t.sets[w[p].call.id].initialized)
  {
    var b := ExecCommon(size, steps);
    var w := Exec(Start(size), steps).value;
    FitsFacts(w[p], b, size);
    FitsFacts(w[q], b, size);
  }

  /** Equal registration counts mean equal live ids, registered in the same order, so all
      processes are about to initialize the same ids. */
  lemma {:induction false} EqualCountsEqualIds(size: nat, steps: seq<Step>, p: nat, q: nat)
    requires Exec(Start(size), steps).Some? && p < size && q < size
    ensures var w := Exec(Start(size), steps).value;
            && |w| == size
            && (|w[p].table.ids| == |w[q].table.ids| ==>
                  && w[p].table.ids == w[q].table.ids
                  && w[p].table.free == w[q].table.free && w[p].table.next == w[q].table.next
                  && forall id :: id in w[p].table.sets ==>
                       id in w[q].table.sets && w[p].table.sets[id].initialized == w[q].table.sets[id].initialized)
  {
    var b := ExecCommon(size, steps);
    var w := Exec(Start(size), steps).value;
    FitsFacts(w[p], b, size);
    FitsFacts(w[q], b, size);
    if |w[p].table.ids| == |w[q].table.ids| && Waiting(w[p], b, size) {
      WaitingFacts(w[p], b, size);
      WaitingFacts(w[q], b, size);
    }
  }

  /** Two processes hold different ranks under one id. */
  ghost predicate Disagreement(w: seq<Process>) {
    exists p, q, id :: 0 <= p < |w| && 0 <= q < |w| && id in w[p].table.sets && id in w[q].table.sets
                    && w[p].table.sets[id].ranks != w[q].table.sets[id].ranks
  }

  /** A round fails exactly when every process waits for a new set and two of them gave
      different ranks for it. */
  lemma {:induction false} RoundFailsIff(size: nat, steps: seq<Step>)
    requires Exec(Start(size), steps).Some? && size > 0
    ensures var w := Exec(Start(size), steps).value;
            && |w| == size
            && (Next(w, Round).None? <==>
                  SameCounts(w) && Disagreement(w))
  {
    var b := ExecCommon(size, steps);
    var w := Exec(Start(size), steps).value;
    CommonKnown(w, b);
    if SameCounts(w) {
      CountsTell(w, b);
      if Waiting(w[0], b, size) {
        DifferentRanks(w, b);
      } else {
        NobodyWaits(w, b);
      }
    }
  }

  lemma {:induction false} NobodyWaits(w: seq<Process>, b: Table)
    requires Common(w, b) && |w| > 0 && AllKnown(w)
    requires forall p :: 0 <= p < |w| ==> !Waiting(w[p], b, |w|)
    ensures SamePending(w) && !Disagreement(w)
  {
    FitsFacts(w[0], b, |w|);
    forall p | 0 <= p < |w| ensures Pending(w[p].table) == [] && w[p].table.sets == b.sets {
      FitsFacts(w[p], b, |w|);
      NothingPending(w[p].table.ids, w[p].table.sets);
    }
  }

  lemma {:induction false} DifferentRanks(w: seq<Process>, b: Table)
    requires Common(w, b) && |w| > 0 && AllKnown(w)
    requires forall p :: 0 <= p < |w| ==> Waiting(w[p], b, |w|)
    ensures !SamePending(w) <==> Disagreement(w)
  {
    if SamePending(w) {
      SameRanks(w, b);
    } else {
      var p :| 0 <= p < |w| && Pending(w[p].table) != Pending(w[0].table);
      PendingOne(w[p], b, |w|);
      PendingOne(w[0], b, |w|);
      var id := NextId(b);
      assert w[p].table.sets[id].ranks != w[0].table.sets[id].ranks;
    }
  }

  /** A set disappears from every process in the same round or from none, only if all processes
      marked it, and never the global one. */
  lemma {:induction false} RemovedTogether(size: nat, steps: seq<Step>, p: nat, id: int)
    requires Exec(Start(size), steps).Some? && Next(Exec(Start(size), steps).value, Round).Some? && p < size
    requires var w := Exec(Start(size), steps).value;
             |w| == size && id in w[p].table.sets && |Next(w, Round).value| == size
               && id !in Next(w, Round).value[p].table.sets
    ensures id != 0
    ensures var w := Exec(Start(size), steps).value; var w' := Next(w, Round).value;
            && |w| == |w'| == size
            && forall q :: 0 <= q < size ==>
                 w[q].call == Removing(id) && id in w[q].table.sets && id !in w'[q].table.sets
                   && w'[q].table.mark == SUCCESSFUL_REMOVAL
  {
    var b := ExecCommon(size, steps);
    var w := Exec(Start(size), steps).value;
    if SameMarks(w) && w[0].table.mark >= 0 {
      var b' := RoundRemoves(w, b);
      RemovedIs(b, w[0].table.mark, id, w[p], size);
      forall q | 0 <= q < size ensures w[q].call == Removing(id) && id in w[q].table.sets {
        assert w[q].table.mark == id;
        MarkFacts(w[q], b, size);
      }
    } else {
      RoundKeepsSets(w, b, p, id);
    }
  }

  lemma {:induction false} RemovedIs(b: Table, gone: int, id: int, x: Process, size: nat)
    requires Settled(b, size) && gone in b.sets && Fits(x, b, size) && x.table.mark == gone
    requires id in x.table.sets && id !in Deregister(b, gone).sets
    ensures id == gone
  {
    assert gone in b.ids;
    MarkFacts(x, b, size);
  }

  lemma {:induction false} RoundKeepsSets(w: seq<Process>, b: Table, p: nat, id: int)
    requires Common(w, b) && AllKnown(w) && RoundAll(w).Some? && p < |w| && id in w[p].table.sets
    requires !(SameMarks(w) && w[0].table.mark >= 0)
    ensures id in RoundAll(w).value[p].table.sets
  {
    if SameCounts(w) && Waiting(w[0], b, |w|) {
      CountsTell(w, b);
      SameRanks(w, b);
      var b' := RoundAdds(w, b);
    } else {
      if SameCounts(w) { CountsTell(w, b); }
      RoundIdles(w, b);
    }
  }

  /** Progress of add: when every process waits with the same ranks, the next round initializes
      the set everywhere and every blocked call returns the same id. */
  lemma {:induction false} AddReturns(size: nat, steps: seq<Step>)
    requires Exec(Start(size), steps).Some? && size > 0
    requires var w := Exec(Start(size), steps).value;
             |w| == size &&
             forall p :: 0 <= p < size ==>
               w[p].call.Adding? && AddPoll(w[p]) == w[p] && w[p].table.sets == w[0].table.sets
    ensures var w := Exec(Start(size), steps).value; var next := Next(w, Round);
            && next.Some? && |next.value| == size
            && forall p :: 0 <= p < size ==>
                 && next.value[p].call == w[0].call
                 && w[0].call.id in next.value[p].table.sets
                 && next.value[p].table.sets[w[0].call.id].initialized
                 && next.value[p].table.sets == next.value[0].table.sets
                 && AddPoll(next.value[p]).call == Idle
  {
    var b := ExecCommon(size, steps);
    var w := Exec(Start(size), steps).value;
    CommonKnown(w, b);
    forall p | 0 <= p < size ensures Waiting(w[p], b, size) {
      FitsFacts(w[p], b, size);
    }
    DifferentRanks(w, b);
    forall p | 0 <= p < size ensures |w[p].table.ids| == |b.ids| + 1 { FitsFacts(w[p], b, size); }
    RoundReturns(w, b);
  }

  lemma {:induction false} RoundReturns(w: seq<Process>, b: Table)
    requires Common(w, b) && |w| > 0 && AllKnown(w) && SameCounts(w) && SamePending(w)
    requires forall p :: 0 <= p < |w| ==> Waiting(w[p], b, |w|)
    ensures var next := Next(w, Round); var id := NextId(b);
            && next.Some? && |next.value| == |w| && w[0].call == Adding(id)
            && forall p :: 0 <= p < |w| ==>
                 && next.value[p].call == Adding(id) && id in next.value[p].table.sets
                 && next.value[p].table.sets[id].initialized
                 && next.value[p].table.sets == next.value[0].table.sets
                 && AddPoll(next.value[p]).call == Idle
  {
    var b' := RoundAdds(w, b);
  }

  /** Progress of remove: when every process has marked the same set, the next round removes it
      and every blocked call returns. */
  lemma {:induction false} RemoveReturns(size: nat, steps: seq<Step>, id: int)
    requires Exec(Start(size), steps).Some? && size > 0
    requires var w := Exec(Start(size), steps).value;
             |w| == size && forall p :: 0 <= p < size ==> w[p].table.mark == id >= 0
    ensures var w := Exec(Start(size), steps).value; var next := Next(w, Round);
            && next.Some? && |next.value| == size
            && forall p :: 0 <= p < size ==>
                 id !in next.value[p].table.sets && id in next.value[p].table.free
                   && RemovePoll(next.value[p]).call == Idle
  {
    var b := ExecCommon(size, steps);
    var w := Exec(Start(size), steps).value;
    CommonKnown(w, b);
    forall p | 0 <= p < size ensures !Waiting(w[p], b, size) && w[p].call.Removing? {
      MarkFacts(w[p], b, size);
      FitsFacts(w[p], b, size);
    }
    NobodyWaits(w, b);
    var b' := RoundRemoves(w, b);
    assert b'.free[|b'.free| - 1] == id;
  }

  // ---------------------------------------------------------------- sets with the same ranks

  /** No two sets of the table have the same ranks. */
  ghost predicate Unique(t: Table) {
    && (forall id :: id in t.sets ==> t.sets[id].ranks != [])
    && forall x, y :: x in t.sets && y in t.sets && x != y ==> t.sets[x].ranks != t.sets[y].ranks
  }

  /** Process `p` never adds the empty list; the others may. */
  predicate AddsNothingEmpty(steps: seq<Step>, p: nat) {
    BeginAdd(p, []) !in steps
  }

  lemma {:induction false} AddCallUnique(x: Process, ranks: seq<int>, size: nat)
    requires WellFormed(x.table) && Known(x.table.ids, x.table.sets) && x.call == Idle
    requires Unique(x.table) && ranks != []
    ensures Unique(AddCall(x, ranks, size).table)
  {
    NextIdIsNew(x.table);
    NewRanks(x, ranks, size);
  }

  lemma {:induction false} RoundUnique(t: Table, sameCounts: bool, sameMarks: bool, size: nat)
    requires Unique(t)
    ensures Unique(RoundOn(t, sameCounts, sameMarks, size))
  {
    var t1 := if sameCounts then InitAll(t, size) else t;
    assert forall id :: id in t1.sets ==> id in t.sets && t1.sets[id].ranks == t.sets[id].ranks;
    assert Unique(t1);
  }

  lemma {:induction false} NextUnique(w: seq<Process>, b: Table, step: Step, p: nat)
    requires Common(w, b) && Next(w, step).Some? && step != BeginAdd(p, []) && p < |w| && Unique(w[p].table)
    ensures p < |Next(w, step).value| && Unique(Next(w, step).value[p].table)
  {
    match step
    case BeginAdd(q, ranks) =>
      if q == p && w[p].call == Idle {
        FitsFacts(w[p], b, |w|);
        AddCallUnique(w[p], ranks, |w|);
      }
    case PollAdd(q) =>
    case BeginRemove(q, id) =>
    case PollRemove(q) =>
    case Round => RoundUnique(w[p].table, SameCounts(w), SameMarks(w), |w|);
  }

  /** Asking for ranks that already have a set does not make another one: in every run, no two sets
      of a process that never asks for the empty list have the same ranks. */
  lemma {:induction false} RanksUnique(size: nat, steps: seq<Step>, p: nat)
    requires Exec(Start(size), steps).Some? && p < size && AddsNothingEmpty(steps, p)
    ensures p < |Exec(Start(size), steps).value| && Unique(Exec(Start(size), steps).value[p].table)
  {
    if steps != [] {
      var n := |steps| - 1;
      RanksUnique(size, steps[..n], p);
      var b := ExecCommon(size, steps[..n]);
      NextUnique(Exec(Start(size), steps[..n]).value, b, steps[n], p);
    }
  }

  /** An add of the empty list always makes a second set of all ranks: FindId compares the empty
      list with rank lists that Initialize has filled in. */
  lemma {:induction false} EmptyAddDuplicates(size: nat, steps: seq<Step>, p: nat)
    requires Exec(Start(size), steps).Some? && p < size
    requires var w := Exec(Start(size), steps).value; |w| == size && w[p].call == Idle
    ensures var y := Exec(Start(size), steps).value[p];
            && Known(y.table.ids, y.table.sets)
            && var x := AddCall(y, [], size);
            && x.call.Adding? && x.call.id != 0 && x.call.id in x.table.sets
            && 0 in x.table.sets && Ready(x.table.sets[x.call.id], size).ranks == x.table.sets[0].ranks
  {
    var b := ExecCommon(size, steps);
    var w := Exec(Start(size), steps).value;
    var t := w[p].table;
    FitsFacts(w[p], b, size);
    NextIdIsNew(t);
    EmptyNotFound(t, size);
  }

  lemma {:induction false} EmptyNotFound(t: Table, size: nat)
    requires Settled(t, size) && size > 0 && Known(t.ids, t.sets)
    ensures First(t.ids, t.sets, []) !in t.sets
  {
    assert -1 !in t.ids;
    FirstFacts(t.ids, t.sets, []);
  }

  /** The add call enters a new set that will have the ranks of a set which is there already. */
  ghost predicate Duplicates(x: Process, ranks: seq<int>, size: nat)
    requires Known(x.table.ids, x.table.sets)
  {
    var y := AddCall(x, ranks, size);
    && y.call.Adding? && y.call.id !in x.table.sets && y.call.id in y.table.sets
    && exists id :: id in x.table.sets && x.table.sets[id].ranks == Ready(y.table.sets[y.call.id], size).ranks
  }

  /** An add call that does not find its ranks enters them, or refuses them. */
  lemma {:induction false} NewRanks(x: Process, ranks: seq<int>, size: nat)
    requires WellFormed(x.table) && Known(x.table.ids, x.table.sets) && ranks != []
    ensures var y := AddCall(x, ranks, size); var sorted := SortRanks(ranks);
            sorted != [] &&
            (y.call.Adding? && y.call.id !in x.table.sets && y.call.id in y.table.sets && x.call == Idle ==>
               && y.table.sets[y.call.id].ranks == sorted
               && forall id :: id in x.table.sets ==> x.table.sets[id].ranks != sorted)
  {
    var t, sorted := x.table, SortRanks(ranks);
    SortFacts(ranks);
    SortSorted(sorted);
    assert sorted != [] by { assert ranks[0] in multiset(ranks); }
    FirstFacts(t.ids, t.sets, sorted);
    forall id | id in t.sets && First(t.ids, t.sets, sorted) == -1 ensures t.sets[id].ranks != sorted {
      assert id in t.ids;
      var i :| 0 <= i < |t.ids| && t.ids[i] == id;
    }
  }

  /** In every reachable state, an add call makes a second set for ranks that have one already
      exactly when it is given the empty list. */
  lemma {:induction false} DuplicatesIffEmpty(size: nat, steps: seq<Step>, p: nat, ranks: seq<int>)
    requires Exec(Start(size), steps).Some? && p < size
    requires var w := Exec(Start(size), steps).value; |w| == size && w[p].call == Idle
    ensures var x := Exec(Start(size), steps).value[p];
            Known(x.table.ids, x.table.sets) && (Duplicates(x, ranks, size) <==> ranks == [])
  {
    var b := ExecCommon(size, steps);
    var x := Exec(Start(size), steps).value[p];
    FitsFacts(x, b, size);
    if ranks == [] {
      EmptyAddDuplicates(size, steps, p);
      NextIdIsNew(x.table);
      EmptyNotFound(x.table, size);
    } else {
      NewRanks(x, ranks, size);
    }
  }

  // ---------------------------------------------------------------- repeated ranks over whole runs

  /** Two sets of the table with the same ranks are both sets of all ranks. */
  ghost predicate OnlyGlobalRepeats(t: Table, size: nat) {
    forall x, y ::
      x in t.sets && y in t.sets && x != y && Ready(t.sets[x], size).ranks == Ready(t.sets[y], size).ranks ==>
      Ready(t.sets[x], size).ranks == Iota(size)
  }

  lemma {:induction false} AddCallRepeats(x: Process, ranks: seq<int>, size: nat)
    requires WellFormed(x.table) && Known(x.table.ids, x.table.sets) && x.call == Idle
    requires OnlyGlobalRepeats(x.table, size)
    ensures OnlyGlobalRepeats(AddCall(x, ranks, size).table, size)
  {
    NextIdIsNew(x.table);
    if ranks != [] {
      NewRanks(x, ranks, size);
    }
  }

  lemma {:induction false} RoundRepeats(t: Table, sameCounts: bool, sameMarks: bool, size: nat)
    requires OnlyGlobalRepeats(t, size)
    ensures OnlyGlobalRepeats(RoundOn(t, sameCounts, sameMarks, size), size)
  {
    var t1 := if sameCounts then InitAll(t, size) else t;
    assert forall id :: id in t1.sets ==>
      id in t.sets && Ready(t1.sets[id], size).ranks == Ready(t.sets[id], size).ranks;
    assert OnlyGlobalRepeats(t1, size);
  }

  lemma {:induction false} NextRepeats(w: seq<Process>, b: Table, step: Step)
    requires Common(w, b) && Next(w, step).Some?
    requires forall p :: 0 <= p < |w| ==> OnlyGlobalRepeats(w[p].table, |w|)
    ensures forall p :: 0 <= p < |Next(w, step).value| ==> OnlyGlobalRepeats(Next(w, step).value[p].table, |w|)
  {
    match step
    case BeginAdd(p, ranks) =>
      if p < |w| && w[p].call == Idle {
        FitsFacts(w[p], b, |w|);
        AddCallRepeats(w[p], ranks, |w|);
      }
    case PollAdd(p) =>
    case BeginRemove(p, id) =>
    case PollRemove(p) =>
    case Round =>
      forall p | 0 <= p < |w| ensures OnlyGlobalRepeats(RoundOn(w[p].table, SameCounts(w), SameMarks(w), |w|), |w|) {
        RoundRepeats(w[p].table, SameCounts(w), SameMarks(w), |w|);
      }
  }

  /** In every run, whatever was added, only the set of all ranks is ever repeated. */
  lemma {:induction false} RepeatsAreGlobal(size: nat, steps: seq<Step>)
    requires Exec(Start(size), steps).Some?
    ensures var w := Exec(Start(size), steps).value;
            |w| == size && forall p :: 0 <= p < size ==> OnlyGlobalRepeats(w[p].table, size)
  {
    if steps != [] {
      var n := |steps| - 1;
      RepeatsAreGlobal(size, steps[..n]);
      var b := ExecCommon(size, steps[..n]);
      NextRepeats(Exec(Start(size), steps[..n]).value, b, steps[n]);
      var b' := ExecCommon(size, steps);
    }
  }
}
