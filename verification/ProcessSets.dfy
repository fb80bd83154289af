/** Process sets: the table one process keeps (ProcessSetTable), and the agreement by which
    all processes initialize and remove process sets together. */
module ProcessSets {
  import opened Messages

  const NO_PENDING_REMOVAL: int := -1
  const SUCCESSFUL_REMOVAL: int := -2

  datatype ProcessSet = ProcessSet(ranks: seq<int>, initialized: bool)

  /** ids_, id_to_process_set_, free_ids_, next_id_ and id_to_be_removed_. */
  datatype Table = Table(ids: seq<int>, sets: map<int, ProcessSet>, free: seq<int>, next: int, mark: int)

  // ---------------------------------------------------------------- rank lists

  ghost predicate Increasing(s: seq<int>) {
    forall i, j :: 0 <= i < j < |s| ==> s[i] <= s[j]
  }

  ghost predicate StrictlyIncreasing(s: seq<int>) {
    forall i, j :: 0 <= i < j < |s| ==> s[i] < s[j]
  }

  function Insert(x: int, s: seq<int>): seq<int> {
    if s == [] || x <= s[0] then [x] + s else [s[0]] + Insert(x, s[1..])
  }

  /** std::sort. */
  function SortRanks(s: seq<int>): seq<int> {
    if s == [] then [] else Insert(s[0], SortRanks(s[1..]))
  }

  lemma {:induction false} InsertElements(x: int, s: seq<int>)
    ensures multiset(Insert(x, s)) == multiset(s) + multiset{x}
  {
    if s != [] && x > s[0] {
      assert s == [s[0]] + s[1..];
      InsertElements(x, s[1..]);
    }
  }

  lemma {:induction false} InsertKeepsOrder(x: int, s: seq<int>)
    requires Increasing(s)
    ensures Increasing(Insert(x, s))
  {
    if s != [] && x > s[0] {
      var rest := Insert(x, s[1..]);
      InsertKeepsOrder(x, s[1..]);
      InsertElements(x, s[1..]);
      forall i | 0 <= i < |rest| ensures s[0] <= rest[i] {
        assert rest[i] in multiset(rest);
        assert rest[i] == x || rest[i] in s[1..];
      }
    }
  }

  /** Sorting gives an increasing list of the same elements. */
  lemma {:induction false} SortFacts(s: seq<int>)
    ensures Increasing(SortRanks(s)) && multiset(SortRanks(s)) == multiset(s)
  {
    if s != [] {
      assert s == [s[0]] + s[1..];
      SortFacts(s[1..]);
      InsertKeepsOrder(s[0], SortRanks(s[1..]));
      InsertElements(s[0], SortRanks(s[1..]));
    }
  }

  /** Sorting a sorted list changes nothing. */
  lemma {:induction false} SortSorted(s: seq<int>)
    requires Increasing(s)
    ensures SortRanks(s) == s
  {
    if s != [] {
      SortSorted(s[1..]);
      assert |s| > 1 ==> s[0] <= s[1..][0];
    }
  }

  /** Some element equals its successor (std::adjacent_find). */
  predicate HasAdjacent(s: seq<int>) {
    exists i :: 0 <= i < |s| - 1 && s[i] == s[i + 1]
  }

  predicate InRange(s: seq<int>, size: nat) {
    forall i :: 0 <= i < |s| ==> 0 <= s[i] < size
  }

  lemma {:induction false} SortedDistinct(s: seq<int>)
    requires Increasing(s) && !HasAdjacent(s)
    ensures StrictlyIncreasing(s)
  {
    forall i, j | 0 <= i < j < |s| ensures s[i] < s[j] {
      assert s[i] <= s[i + 1] && s[i] != s[i + 1];
      assert i + 1 < j ==> s[i + 1] <= s[j];
    }
  }

  function Iota(n: nat): (s: seq<int>)
    ensures |s| == n && forall i :: 0 <= i < n ==> s[i] == i
  {
    seq(n, i => i)
  }

  // ---------------------------------------------------------------- the table

  /** Live and free ids partition 0 .. next-1, and the global set is live. */
  ghost predicate WellFormed(t: Table) {
    && (forall i, j :: 0 <= i < j < |t.ids| ==> t.ids[i] != t.ids[j])
    && (forall i, j :: 0 <= i < j < |t.free| ==> t.free[i] != t.free[j])
    && (forall x :: x in t.ids ==> x !in t.free)
    && (forall x :: 0 <= x < t.next <==> x in t.ids || x in t.free)
    && (forall x :: x in t.ids <==> x in t.sets)
    && 0 in t.sets
  }

  ghost predicate Known(ids: seq<int>, sets: map<int, ProcessSet>) {
    forall i :: 0 <= i < |ids| ==> ids[i] in sets
  }

  /** The first id, in table order, with the given ranks; -1 if there is none. */
  function First(ids: seq<int>, sets: map<int, ProcessSet>, ranks: seq<int>): (r: int)
    requires Known(ids, sets)
  {
    if ids == [] then -1 else if sets[ids[0]].ranks == ranks then ids[0] else First(ids[1..], sets, ranks)
  }

  lemma {:induction false} FirstFacts(ids: seq<int>, sets: map<int, ProcessSet>, ranks: seq<int>)
    requires Known(ids, sets) && -1 !in ids
    ensures var r := First(ids, sets, ranks);
            if r == -1 then forall i :: 0 <= i < |ids| ==> sets[ids[i]].ranks != ranks
            else exists k :: && 0 <= k < |ids| && ids[k] == r && sets[r].ranks == ranks
                             && forall i :: 0 <= i < k ==> sets[ids[i]].ranks != ranks
  {
    if ids != [] && sets[ids[0]].ranks != ranks {
      FirstFacts(ids[1..], sets, ranks);
      forall i | 0 < i < |ids| ensures ids[i] == ids[1..][i - 1] {}
    }
  }

  function NextId(t: Table): int {
    if t.free != [] then t.free[0] else t.next
  }

  /** Allocate an id, the longest free one first, and enter an uninitialized set under it. */
  function Enter(t: Table, ranks: seq<int>): Table {
    var id := NextId(t);
    Table(t.ids + [id], t.sets[id := ProcessSet(ranks, false)],
          if t.free != [] then t.free[1..] else [],
          if t.free != [] then t.next else t.next + 1, t.mark)
  }

  datatype Registration = Entered(table: Table, id: int) | DuplicateRank | InvalidRank

  /** ProcessSetTable::RegisterProcessSet. */
  function Register(t: Table, ranks: seq<int>, size: nat): Registration {
    if ranks != [] && 0 in t.sets then
      var sorted := SortRanks(ranks);
      if HasAdjacent(sorted) then DuplicateRank
      else if !InRange(sorted, size) then InvalidRank
      else Entered(Enter(t, sorted), NextId(t))
    else Entered(Enter(t, ranks), NextId(t))
  }

  function Remove(ids: seq<int>, id: int): seq<int> {
    if ids == [] then [] else if ids[0] == id then ids[1..] else [ids[0]] + Remove(ids[1..], id)
  }

  /** ProcessSetTable::DeregisterProcessSet. */
  function Deregister(t: Table, id: int): Table {
    if id in t.sets then t.(ids := Remove(t.ids, id), sets := t.sets - {id}, free := t.free + [id]) else t
  }

  /** ProcessSet::Initialize once the processes agree: an empty rank list means all ranks. */
  function Ready(s: ProcessSet, size: nat): ProcessSet {
    if s.initialized then s else ProcessSet(if s.ranks == [] then Iota(size) else s.ranks, true)
  }

  function InitAll(t: Table, size: nat): Table {
    t.(sets := map id | id in t.sets :: Ready(t.sets[id], size))
  }

  /** Rank lists of the sets that are not initialized, in id order of the table. */
  function Pending(t: Table): seq<seq<int>>
    requires Known(t.ids, t.sets)
  {
    PendingOf(t.ids, t.sets)
  }

  function PendingOf(ids: seq<int>, sets: map<int, ProcessSet>): seq<seq<int>>
    requires Known(ids, sets)
  {
    if ids == [] then []
    else
      var n := |ids| - 1;
      PendingOf(ids[..n], sets) + if sets[ids[n]].initialized then [] else [sets[ids[n]].ranks]
  }

  lemma {:induction false} RemoveFacts(ids: seq<int>, id: int)
    requires id in ids && forall i, j :: 0 <= i < j < |ids| ==> ids[i] != ids[j]
    ensures var r := Remove(ids, id);
            && |r| == |ids| - 1
            && (forall x :: x in r <==> x in ids && x != id)
            && forall i, j :: 0 <= i < j < |r| ==> r[i] != r[j]
  {
    assert ids == [ids[0]] + ids[1..];
    assert forall x :: x in ids <==> x == ids[0] || x in ids[1..];
    assert ids[0] !in ids[1..];
    if ids[0] != id {
      RemoveFacts(ids[1..], id);
    }
  }

  lemma {:induction false} NextIdIsNew(t: Table)
    requires WellFormed(t)
    ensures NextId(t) !in t.ids && NextId(t) !in t.sets && 0 <= NextId(t)
  {
    if t.free != [] {
      assert t.free[0] in t.free;
    } else {
      assert !(0 <= t.next < t.next);
      assert 0 in t.ids;
    }
  }

  /** Registering keeps the ids partitioned. */
  lemma {:induction false} EnterFacts(t: Table, ranks: seq<int>)
    requires WellFormed(t)
    ensures WellFormed(Enter(t, ranks))
  {
    var t', id := Enter(t, ranks), NextId(t);
    NextIdIsNew(t);
    assert forall x :: x in t'.ids <==> x in t.ids || x == id;
    if t.free != [] {
      assert t.free == [id] + t'.free;
      assert forall x :: x in t.free <==> x == id || x in t'.free;
      assert id !in t'.free;
    }
  }

  /** Deregistering keeps the ids partitioned. */
  lemma {:induction false} DeregisterFacts(t: Table, id: int)
    requires WellFormed(t) && id in t.sets && id != 0
    ensures WellFormed(Deregister(t, id))
  {
    var t' := Deregister(t, id);
    RemoveFacts(t.ids, id);
    assert forall x :: x in t'.free <==> x in t.free || x == id;
  }

  // ---------------------------------------------------------------- what the operations mean

  ghost predicate Repeats(s: seq<int>) {
    exists i, j :: 0 <= i < j < |s| && s[i] == s[j]
  }

  lemma {:induction false} RepeatedTwice(s: seq<int>, i: nat, j: nat)
    requires i < j < |s| && s[i] == s[j]
    ensures multiset(s)[s[i]] >= 2
  {
    assert s == s[..i] + [s[i]] + s[i + 1..j] + [s[j]] + s[j + 1..];
  }

  lemma {:induction false} OnceEach(s: seq<int>, x: int)
    requires !Repeats(s)
    ensures multiset(s)[x] <= 1
  {
    if s != [] {
      var front, last := s[..|s| - 1], s[|s| - 1];
      assert s == front + [last];
      forall i, j | 0 <= i < j < |front| ensures front[i] != front[j] { assert s[i] != s[j]; }
      OnceEach(front, x);
      if last == x {
        assert x !in front;
        assert x !in multiset(front);
      }
    }
  }

  lemma {:induction false} SameRepeats(a: seq<int>, b: seq<int>)
    requires multiset(a) == multiset(b) && Repeats(a)
    ensures Repeats(b)
  {
    var i, j :| 0 <= i < j < |a| && a[i] == a[j];
    RepeatedTwice(a, i, j);
    if !Repeats(b) { OnceEach(b, a[i]); }
  }

  /** Sorting brings equal ranks together. */
  lemma {:induction false} AdjacentIffRepeats(s: seq<int>)
    ensures HasAdjacent(SortRanks(s)) <==> Repeats(s)
  {
    var sorted := SortRanks(s);
    SortFacts(s);
    if HasAdjacent(sorted) {
      SameRepeats(sorted, s);
    } else {
      SortedDistinct(sorted);
      if Repeats(s) { SameRepeats(s, sorted); }
    }
  }

  lemma {:induction false} SortedInRange(s: seq<int>, size: nat)
    ensures InRange(SortRanks(s), size) <==> InRange(s, size)
  {
    SortFacts(s);
    forall x ensures x in SortRanks(s) <==> x in s {
      assert x in SortRanks(s) <==> x in multiset(SortRanks(s));
      assert x in s <==> x in multiset(s);
    }
    if InRange(s, size) {
      forall i | 0 <= i < |SortRanks(s)| ensures 0 <= SortRanks(s)[i] < size { assert SortRanks(s)[i] in s; }
    }
    if InRange(SortRanks(s), size) {
      forall i | 0 <= i < |s| ensures 0 <= s[i] < size { assert s[i] in SortRanks(s); }
    }
  }

  /** Which rank lists are refused, and what a new set is: the same ranks in increasing order, not
      initialized, under the id that has been free for longest or else the next number, after all
      other sets, which stay as they are. */
  lemma {:induction false} RegisterMeans(t: Table, ranks: seq<int>, size: nat)
    requires WellFormed(t)
    ensures var r := Register(t, ranks, size);
            && (r == DuplicateRank <==> Repeats(ranks))
            && (r == InvalidRank <==> !Repeats(ranks) && exists i :: 0 <= i < |ranks| && !(0 <= ranks[i] < size))
            && (r.Entered? ==>
                  && r.id == (if t.free == [] then t.next else t.free[0]) && r.id !in t.sets
                  && r.table.ids == t.ids + [r.id] && r.table.mark == t.mark
                  && r.table.free == (if t.free == [] then [] else t.free[1..])
                  && r.table.next == (if t.free == [] then t.next + 1 else t.next)
                  && r.table.sets.Keys == t.sets.Keys + {r.id}
                  && (forall id :: id in t.sets ==> r.table.sets[id] == t.sets[id])
                  && var s := r.table.sets[r.id];
                     !s.initialized && multiset(s.ranks) == multiset(ranks) && StrictlyIncreasing(s.ranks))
  {
    NextIdIsNew(t);
    if ranks != [] {
      AdjacentIffRepeats(ranks);
      SortedInRange(ranks, size);
      SortFacts(ranks);
      if !HasAdjacent(SortRanks(ranks)) { SortedDistinct(SortRanks(ranks)); }
    }
  }

  /** The ids of removed sets wait in the order of removal; the other sets keep their order. */
  lemma {:induction false} DeregisterMeans(t: Table, id: int)
    requires WellFormed(t)
    ensures var t' := Deregister(t, id);
            && t'.next == t.next && t'.mark == t.mark
            && (id !in t.sets ==> t' == t)
            && (forall k :: 0 <= k < |t.ids| && t.ids[k] == id ==> t'.ids == t.ids[..k] + t.ids[k + 1..])
            && (id in t.sets ==> t'.free == t.free + [id] && t'.sets == t.sets - {id})
  {
    forall k | 0 <= k < |t.ids| && t.ids[k] == id ensures Deregister(t, id).ids == t.ids[..k] + t.ids[k + 1..] {
      assert id in t.ids;
      RemoveAt(t.ids, k);
    }
  }

  lemma {:induction false} RemoveAt(ids: seq<int>, k: nat)
    requires k < |ids| && forall i, j :: 0 <= i < j < |ids| ==> ids[i] != ids[j]
    ensures Remove(ids, ids[k]) == ids[..k] + ids[k + 1..]
  {
    if k > 0 {
      assert ids[0] != ids[k];
      var rest := ids[1..];
      RemoveAt(rest, k - 1);
      assert rest[k - 1] == ids[k] && rest[..k - 1] == ids[1..k] && rest[k..] == ids[k + 1..];
      assert [ids[0]] + (ids[1..k] + ids[k + 1..]) == ids[..k] + ids[k + 1..];
    }
  }

  /** A set that is registered and initialized keeps its ranks; the set with no ranks gets all. */
  lemma {:induction false} InitMeans(t: Table, size: nat, id: int)
    requires id in t.sets
    ensures var s, s' := t.sets[id], InitAll(t, size).sets[id];
            && s'.initialized && (s.initialized || s.ranks != [] ==> s'.ranks == s.ranks)
            && (!s.initialized && s.ranks == [] ==>
                  |s'.ranks| == size && forall i :: 0 <= i < size ==> s'.ranks[i] == i)
    ensures InitAll(t, size) == t.(sets := InitAll(t, size).sets) && InitAll(t, size).sets.Keys == t.sets.Keys
  {
  }
}
