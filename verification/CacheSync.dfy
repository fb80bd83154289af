/** CacheCoordinator: the per-cycle agreement on cache bits and status flags through bitwise
    reductions of packed 64-bit words. A word is its 64 bits, least significant first. */
module CacheSync {
  import opened Votes

  const WORD: nat := 64
  const NUM_STATUS_BITS: nat := 3
  const SHOULD_SHUT_DOWN: nat := 0
  const UNCACHED_IN_QUEUE: nat := 1
  const INVALID_IN_QUEUE: nat := 2
  const UINT32: nat := 0x1_0000_0000

  type Word = w: seq<bool> | |w| == WORD witness seq(WORD, _ => false)

  function Zeros(): Word { seq(WORD, _ => false) }
  function Ones(): Word { seq(WORD, _ => true) }
  function Not(w: Word): Word { seq(WORD, i requires 0 <= i < WORD => !w[i]) }
  function And(a: Word, b: Word): Word { seq(WORD, i requires 0 <= i < WORD => a[i] && b[i]) }
  function Or(a: Word, b: Word): Word { seq(WORD, i requires 0 <= i < WORD => a[i] || b[i]) }
  function Xor(a: Word, b: Word): Word { seq(WORD, i requires 0 <= i < WORD => a[i] != b[i]) }

  /** 1ull << k */
  function Bit(k: nat): Word
    requires k < WORD
  {
    Zeros()[k := true]
  }

  /** __builtin_ffsll: one plus the position of the least significant set bit, or zero. */
  function Ffs(w: Word): (f: nat)
    ensures f <= WORD
    ensures f == 0 <==> forall i :: 0 <= i < WORD ==> !w[i]
    ensures f > 0 ==> w[f - 1] && forall i :: 0 <= i < f - 1 ==> !w[i]
  {
    FfsFrom(w, 0)
  }

  function FfsFrom(w: Word, k: nat): (f: nat)
    requires k <= WORD
    ensures f <= WORD
    ensures f == 0 <==> forall i :: k <= i < WORD ==> !w[i]
    ensures f > 0 ==> k < f && w[f - 1] && forall i :: k <= i < f - 1 ==> !w[i]
    decreases WORD - k
  {
    if k == WORD then 0 else if w[k] then k + 1 else FfsFrom(w, k + 1)
  }

  /** Bit `k` of a packed vector. */
  predicate Marked(v: seq<Word>, k: nat)
    requires k < WORD * |v|
  {
    v[k / WORD][k % WORD]
  }

  /** Words needed for `n` cache bits and the status bits. */
  function Count(n: nat): (c: nat)
    ensures n + NUM_STATUS_BITS <= WORD * c < n + NUM_STATUS_BITS + WORD
  {
    (n + NUM_STATUS_BITS + WORD - 1) / WORD
  }

  /** A shifted bit position as the uint32 that cache_hits_ stores. */
  function Unshift(k: nat): nat {
    if k >= NUM_STATUS_BITS then k - NUM_STATUS_BITS else k + UINT32 - NUM_STATUS_BITS
  }

  function Unshifted(bits: set<nat>): set<nat> {
    set k | k in bits :: Unshift(k)
  }

  /** Status bits wrap around and stay apart from the cache bits. */
  lemma {:induction false} UnshiftedFacts(bits: set<nat>, n: nat)
    requires n + NUM_STATUS_BITS < 0x8000_0000 && forall k :: k in bits ==> k < n + NUM_STATUS_BITS
    ensures forall j :: 0 <= j < NUM_STATUS_BITS ==> (Unshift(j) in Unshifted(bits) <==> j in bits)
    ensures forall b: nat ::
              b in Unshifted(bits) - {Unshift(0), Unshift(1), Unshift(2)} <==> b < n && b + NUM_STATUS_BITS in bits
  {
    forall b: nat
      ensures b in Unshifted(bits) - {Unshift(0), Unshift(1), Unshift(2)} <==> b < n && b + NUM_STATUS_BITS in bits
    {
      if b + NUM_STATUS_BITS in bits { assert Unshift(b + NUM_STATUS_BITS) == b; }
    }
  }

  /** Setting, or flipping, one bit of a packed vector. */
  lemma {:induction false} UpdateMark(v: seq<Word>, k: nat, w: Word, j: nat)
    requires k < WORD * |v| && j < WORD * |v|
    ensures j / WORD < |v| && k / WORD < |v|
    ensures Marked(v[k / WORD := w], j) == if j / WORD == k / WORD then w[j % WORD] else Marked(v, j)
  {
  }

  /** Taking away the lowest set bit. */
  lemma {:induction false} Lowest(ll: Word, word: Word, low: nat, idx: nat)
    requires idx == Ffs(ll) && idx != 0 && low <= WORD && forall i :: 0 <= i < low ==> !ll[i]
    requires forall i :: low <= i < WORD ==> ll[i] == word[i]
    ensures var ll' := And(ll, Not(Bit(idx - 1)));
            && low < idx <= WORD && word[idx - 1] && (forall i :: low <= i < idx - 1 ==> !word[i])
            && (forall i :: 0 <= i < idx ==> !ll'[i]) && forall i :: idx <= i < WORD ==> ll'[i] == word[i]
  {
    assert ll[idx - 1];
  }

  /** The positions of the set bits of a word, found least significant first. */
  method SetBits(word: Word) returns (s: set<nat>)
    ensures forall i: nat :: i in s <==> i < WORD && word[i]
  {
    s := {};
    var ll := word;
    ghost var low := 0;
    while Ffs(ll) != 0
      invariant 0 <= low <= WORD
      invariant forall i :: 0 <= i < low ==> !ll[i]
      invariant forall i :: low <= i < WORD ==> ll[i] == word[i]
      invariant forall i: nat :: i in s <==> i < low && word[i]
      decreases WORD - low
    {
      var idx := Ffs(ll);
      Lowest(ll, word, low, idx);
      s := s + {idx - 1};
      ll := And(ll, Not(Bit(idx - 1)));
      low := idx;
    }
  }

  /** The positions of the set bits among the first `count` words. */
  method AllSetBits(v: seq<Word>, first: nat, count: nat, negate: bool) returns (s: set<nat>)
    requires first + count <= |v|
    ensures forall k: nat :: k in s <==> k < WORD * count && Marked(v[first..first + count], k) != negate
  {
    s := {};
    var i := 0;
    while i < count
      invariant 0 <= i <= count
      invariant forall k: nat :: k in s <==> k < WORD * i && Marked(v[first..first + count], k) != negate
    {
      var shift := i * WORD;
      var ll := if negate then Not(v[first + i]) else v[first + i];
      var bits := SetBits(ll);
      ghost var before := s;
      s := s + set b | b in bits :: shift + b;
      forall k: nat ensures k in s <==> k < WORD * (i + 1) && Marked(v[first..first + count], k) != negate {
        if shift <= k < shift + WORD {
          assert k / WORD == i && k % WORD == k - shift;
          assert k in s <==> k - shift in bits;
        } else {
          assert k in s <==> k in before;
        }
      }
      i := i + 1;
    }
  }

  // ---------------------------------------------------------------- the collectives

  /** Controller::CrossRankBitwiseAnd, by its result. */
  function AndAll(vs: seq<seq<Word>>, len: nat): (v: seq<Word>)
    requires forall r :: 0 <= r < |vs| ==> |vs[r]| == len
    ensures |v| == len
    ensures forall k :: 0 <= k < WORD * len ==> (Marked(v, k) <==> forall r :: 0 <= r < |vs| ==> Marked(vs[r], k))
  {
    seq(len, j requires 0 <= j < len =>
      seq(WORD, i requires 0 <= i < WORD => forall r :: 0 <= r < |vs| ==> vs[r][j][i]))
  }

  /** Controller::CrossRankBitwiseOr, by its result. */
  function OrAll(vs: seq<seq<Word>>, len: nat): (v: seq<Word>)
    requires forall r :: 0 <= r < |vs| ==> |vs[r]| == len
    ensures |v| == len
    ensures forall k :: 0 <= k < WORD * len ==> (Marked(v, k) <==> exists r :: 0 <= r < |vs| && Marked(vs[r], k))
  {
    seq(len, j requires 0 <= j < len =>
      seq(WORD, i requires 0 <= i < WORD => exists r :: 0 <= r < |vs| && vs[r][j][i]))
  }

  // ---------------------------------------------------------------- one rank

  /** What a rank puts at position `k` of the first round: three inverted flags, then its
      hits that it does not hold invalid. */
  predicate FirstRound(v: Vote, k: nat) {
    if k == SHOULD_SHUT_DOWN then !v.shutdown
    else if k == UNCACHED_IN_QUEUE then !v.uncached
    else if k == INVALID_IN_QUEUE then !v.invalidInQueue
    else k - NUM_STATUS_BITS in v.hits - v.invalid
  }

  /** Set bit `k` of a packed vector. */
  method SetMark(v: seq<Word>, k: nat) returns (v': seq<Word>)
    requires k < WORD * |v|
    ensures |v'| == |v|
    ensures forall j :: 0 <= j < WORD * |v| ==> Marked(v', j) == (j == k || Marked(v, j))
  {
    var shift := k / WORD;
    v' := v[shift := Or(v[shift], Bit(k % WORD))];
    forall j | 0 <= j < WORD * |v| ensures Marked(v', j) == (j == k || Marked(v, j)) {
      UpdateMark(v, k, v'[shift], j);
    }
  }

  /** Flip bit `k` of a packed vector. */
  method FlipMark(v: seq<Word>, k: nat) returns (v': seq<Word>)
    requires k < WORD * |v|
    ensures |v'| == |v|
    ensures forall j :: 0 <= j < WORD * |v| ==> Marked(v', j) == ((j == k) != Marked(v, j))
  {
    var shift := k / WORD;
    v' := v[shift := Xor(v[shift], Bit(k % WORD))];
    forall j | 0 <= j < WORD * |v| ensures Marked(v', j) == ((j == k) != Marked(v, j)) {
      UpdateMark(v, k, v'[shift], j);
    }
  }

  class CacheCoordinator {
    const numActiveBits: nat
    var hits: set<nat>
    var invalid: set<nat>
    var timelineBits: set<nat>
    var shutdown: bool
    var uncached: bool
    var invalidInQueue: bool
    var synced: bool

    constructor (n: nat)
      ensures numActiveBits == n && !synced && View() == Vote({}, {}, false, false, false) && timelineBits == {}
    {
      numActiveBits := n;
      hits, invalid, timelineBits := {}, {}, {};
      shutdown, uncached, invalidInQueue, synced := false, false, false, false;
    }

    ghost function View(): Vote
      reads this
    {
      Vote(hits, invalid, uncached, invalidInQueue, shutdown)
    }

    /** Before the agreement: bits in range, and the invalid flag tells whether there are
        invalid bits. */
    ghost predicate Recording()
      reads this
    {
      && !synced
      && (forall b :: b in hits || b in invalid ==> b < numActiveBits)
      && (invalidInQueue <==> invalid != {})
      && timelineBits == {}
      && numActiveBits + NUM_STATUS_BITS < 0x8000_0000
    }

    method RecordHit(bit: nat)
      requires Recording() && bit < numActiveBits
      modifies this`hits
      ensures Recording() && View() == old(View()).(hits := old(hits) + {bit})
    {
      hits := hits + {bit};
    }

    method RecordInvalidBit(bit: nat)
      requires Recording() && bit < numActiveBits
      modifies this`invalid, this`invalidInQueue
      ensures Recording() && View() == old(View()).(invalid := old(invalid) + {bit}, invalidInQueue := true)
    {
      invalid := invalid + {bit};
      invalidInQueue := true;
    }

    method SetUncachedInQueue(value: bool)
      requires Recording()
      modifies this`uncached
      ensures Recording() && View() == old(View()).(uncached := value)
    {
      uncached := value;
    }

    method SetShouldShutDown(value: bool)
      requires Recording()
      modifies this`shutdown
      ensures Recording() && View() == old(View()).(shutdown := value)
    {
      shutdown := value;
    }

    /** sync, up to the first collective: status flags and hits are packed into `v`; with
        the timeline on, a second half `ext` holds the complement of the hits. */
    method PackFirst(timeline: bool) returns (v: seq<Word>, ext: seq<Word>)
      requires Recording()
      modifies this`hits
      ensures Recording() && View() == old(View()).(hits := old(hits) - invalid)
      ensures |v| == Count(numActiveBits) && |ext| == if timeline then |v| else 0
      ensures forall k :: 0 <= k < WORD * |v| ==> Marked(v, k) == FirstRound(old(View()), k)
      ensures timeline ==> forall k :: 0 <= k < WORD * |v| ==>
                Marked(ext, k) == !(k >= NUM_STATUS_BITS && FirstRound(old(View()), k))
    {
      v := PackStatus();
      ext := if timeline then seq(|v|, _ => Ones()) else [];
      hits := hits - invalid;
      v, ext := PackHits(v, ext, timeline);
    }

    method PackStatus() returns (v: seq<Word>)
      ensures |v| == Count(numActiveBits)
      ensures forall k :: 0 <= k < WORD * |v| ==> Marked(v, k) == (k < NUM_STATUS_BITS && FirstRound(View(), k))
    {
      v := seq(Count(numActiveBits), _ => Zeros());
      if !shutdown { v := SetMark(v, SHOULD_SHUT_DOWN); }
      if !uncached { v := SetMark(v, UNCACHED_IN_QUEUE); }
      if !invalidInQueue { v := SetMark(v, INVALID_IN_QUEUE); }
    }

    method PackHits(status: seq<Word>, ones: seq<Word>, timeline: bool) returns (v: seq<Word>, ext: seq<Word>)
      requires |status| == Count(numActiveBits) && |ones| == if timeline then |status| else 0
      requires forall b :: b in hits ==> b < numActiveBits
      requires forall k :: NUM_STATUS_BITS <= k < WORD * |status| ==> !Marked(status, k)
      requires forall k :: 0 <= k < WORD * |ones| ==> Marked(ones, k)
      ensures |v| == |status| && |ext| == |ones|
      ensures forall k :: 0 <= k < WORD * |v| ==>
                Marked(v, k) == if k < NUM_STATUS_BITS then Marked(status, k) else k - NUM_STATUS_BITS in hits
      ensures timeline ==> forall k :: 0 <= k < WORD * |v| ==>
                Marked(ext, k) == !(k >= NUM_STATUS_BITS && k - NUM_STATUS_BITS in hits)
    {
      v, ext := status, ones;
      var todo := hits;
      while todo != {}
        invariant todo <= hits && |v| == |status| && |ext| == |ones|
        invariant forall k :: 0 <= k < WORD * |v| ==>
                    Marked(v, k)
                    == if k < NUM_STATUS_BITS then Marked(status, k) else k - NUM_STATUS_BITS in hits - todo
        invariant timeline ==> forall k :: 0 <= k < WORD * |v| ==>
                    Marked(ext, k) == !(k >= NUM_STATUS_BITS && k - NUM_STATUS_BITS in hits - todo)
        decreases todo
      {
        var bit :| bit in todo;
        todo := todo - {bit};
        v := SetMark(v, bit + NUM_STATUS_BITS);
        if timeline { ext := FlipMark(ext, bit + NUM_STATUS_BITS); }
      }
    }

    /** sync, between the collectives: the set bits of the common vector are the common
        hits and the flags that no rank raised. */
    method UnpackFirst(v: seq<Word>)
      requires Recording() && |v| == Count(numActiveBits)
      requires forall k :: 0 <= k < WORD * |v| && k >= numActiveBits + NUM_STATUS_BITS ==> !Marked(v, k)
      modifies this`hits, this`shutdown, this`uncached, this`invalidInQueue
      ensures forall b: nat :: b in hits <==> b < numActiveBits && Marked(v, b + NUM_STATUS_BITS)
      ensures shutdown == (old(shutdown) || !Marked(v, SHOULD_SHUT_DOWN))
      ensures uncached == (old(uncached) || !Marked(v, UNCACHED_IN_QUEUE))
      ensures invalidInQueue == (old(invalidInQueue) || !Marked(v, INVALID_IN_QUEUE))
    {
      var bits := AllSetBits(v, 0, |v|, false);
      assert v[0..|v|] == v;
      hits := Unshifted(bits);
      UnshiftedFacts(bits, numActiveBits);
      if Unshift(SHOULD_SHUT_DOWN) !in hits { shutdown := true; }
      if Unshift(UNCACHED_IN_QUEUE) !in hits { uncached := true; }
      if Unshift(INVALID_IN_QUEUE) !in hits { invalidInQueue := true; }
      hits := hits - {Unshift(SHOULD_SHUT_DOWN), Unshift(UNCACHED_IN_QUEUE), Unshift(INVALID_IN_QUEUE)};
    }

    /** sync, up to the second collective: the invalid bits, unshifted. */
    method PackInvalid() returns (v: seq<Word>)
      requires forall b :: b in invalid ==> b < numActiveBits
      ensures |v| == Count(numActiveBits)
      ensures forall k :: 0 <= k < WORD * |v| ==> Marked(v, k) == (k in invalid)
    {
      v := seq(Count(numActiveBits), _ => Zeros());
      var todo := invalid;
      while todo != {}
        invariant todo <= invalid && |v| == Count(numActiveBits)
        invariant forall k :: 0 <= k < WORD * |v| ==> Marked(v, k) == (k in invalid - todo)
        decreases todo
      {
        var bit :| bit in todo;
        todo := todo - {bit};
        v := SetMark(v, bit);
      }
    }

    /** sync, after the second collective: everybody's invalid bits. */
    method UnpackInvalid(v: seq<Word>)
      modifies this`invalid
      ensures forall b: nat :: b in invalid <==> b < WORD * |v| && Marked(v, b)
    {
      invalid := AllSetBits(v, 0, |v|, false);
      assert v[0..|v|] == v;
    }

    /** sync, the timeline: bits that are a hit somewhere and invalid nowhere. */
    method UnpackTimeline(ext: seq<Word>)
      requires forall k :: 0 <= k < NUM_STATUS_BITS && k < WORD * |ext| ==> Marked(ext, k)
      modifies this`timelineBits
      ensures forall b: nat :: b in timelineBits <==>
                || b in old(timelineBits)
                || (b + NUM_STATUS_BITS < WORD * |ext| && !Marked(ext, b + NUM_STATUS_BITS) && b !in invalid)
    {
      var bits := AllSetBits(ext, 0, |ext|, true);
      assert ext[0..|ext|] == ext;
      ghost var before := timelineBits;
      var fresh' := set k | k in bits && Unshift(k) !in invalid :: Unshift(k);
      timelineBits := timelineBits + fresh';
      forall b: nat ensures b in fresh' <==>
                b + NUM_STATUS_BITS < WORD * |ext| && !Marked(ext, b + NUM_STATUS_BITS) && b !in invalid
      {
        if b in fresh' {
          var k :| k in bits && Unshift(k) !in invalid && Unshift(k) == b;
          assert k >= NUM_STATUS_BITS;
        }
        if b + NUM_STATUS_BITS < WORD * |ext| && !Marked(ext, b + NUM_STATUS_BITS) && b !in invalid {
          assert b + NUM_STATUS_BITS in bits && Unshift(b + NUM_STATUS_BITS) == b;
        }
      }
    }
  }

  // ---------------------------------------------------------------- all ranks

  ghost function AllViews(cs: seq<CacheCoordinator>): seq<Vote>
    reads cs
  {
    seq(|cs|, r requires 0 <= r < |cs| reads cs => cs[r].View())
  }

  ghost function AllHits(votes: seq<Vote>): set<nat> {
    set k, b | 0 <= k < |votes| && b in votes[k].hits :: b
  }

  /** A rank's record between the two collectives. */
  ghost function HalfSynced(votes: seq<Vote>, r: nat): Vote
    requires r < |votes|
  {
    Synced(votes, r).(invalid := votes[r].invalid)
  }

  ghost predicate InRange(votes: seq<Vote>, n: nat) {
    forall r, b :: 0 <= r < |votes| && (b in votes[r].hits || b in votes[r].invalid) ==> b < n
  }

  /** Reading the conjunction of everybody's first-round bits gives the agreed record. */
  lemma {:induction false} FirstRoundAgreement(votes: seq<Vote>, r: nat, n: nat, common: seq<Word>, v: Vote)
    requires r < |votes| && InRange(votes, n) && |common| == Count(n)
    requires forall k :: 0 <= k < WORD * |common| ==>
               (Marked(common, k) <==> forall j :: 0 <= j < |votes| ==> FirstRound(votes[j], k))
    requires forall b: nat :: b in v.hits <==> b < n && Marked(common, b + NUM_STATUS_BITS)
    requires v.shutdown == (votes[r].shutdown || !Marked(common, SHOULD_SHUT_DOWN))
    requires v.uncached == (votes[r].uncached || !Marked(common, UNCACHED_IN_QUEUE))
    requires v.invalidInQueue == (votes[r].invalidInQueue || !Marked(common, INVALID_IN_QUEUE))
    requires v.invalid == votes[r].invalid
    ensures v == HalfSynced(votes, r)
  {
    var s := HalfSynced(votes, r);
    forall b: nat ensures b in v.hits <==> b in s.hits {
      if b < n {
        assert forall j :: 0 <= j < |votes| ==>
          (FirstRound(votes[j], b + NUM_STATUS_BITS) <==> b in votes[j].hits - votes[j].invalid);
      }
    }
    assert v.hits == s.hits;
    assert forall j :: 0 <= j < |votes| ==>
      && FirstRound(votes[j], SHOULD_SHUT_DOWN) == !votes[j].shutdown
      && FirstRound(votes[j], UNCACHED_IN_QUEUE) == !votes[j].uncached
      && FirstRound(votes[j], INVALID_IN_QUEUE) == !votes[j].invalidInQueue;
  }

  /** CacheCoordinator::sync on all ranks together: it computes exactly the set algebra of
      `Synced`, for any number of ranks and bits. */
  method SyncAll(cs: seq<CacheCoordinator>, timeline: bool)
    requires |cs| > 0 && forall i, j :: 0 <= i < j < |cs| ==> cs[i] != cs[j]
    requires forall i :: 0 <= i < |cs| ==> cs[i].Recording() && cs[i].numActiveBits == cs[0].numActiveBits
    modifies cs
    ensures forall r :: 0 <= r < |cs| ==> cs[r].synced && cs[r].View() == Synced(old(AllViews(cs)), r)
    ensures forall r :: 0 <= r < |cs| ==>
              cs[r].timelineBits == if timeline then AllHits(old(AllViews(cs))) - AllInvalid(old(AllViews(cs))) else {}
  {
    ghost var votes := AllViews(cs);
    var n := cs[0].numActiveBits;
    var vs, exts := FirstVectors(cs, timeline);
    var common := AndAll(vs, Count(n));
    ReadFirst(cs, common, votes);
    AgreeInvalid(cs, votes);
    NoInvalidBits(votes);
    Conclude(cs, timeline, if timeline then AndAll(exts, Count(n)) else [], votes);
  }

  /** The second round, which takes place only when some rank has invalid bits. */
  method AgreeInvalid(cs: seq<CacheCoordinator>, ghost votes: seq<Vote>)
    requires |cs| == |votes| > 0 && forall i, j :: 0 <= i < j < |cs| ==> cs[i] != cs[j]
    requires forall i :: 0 <= i < |cs| ==>
               && cs[i].numActiveBits == cs[0].numActiveBits
               && cs[i].View() == HalfSynced(votes, i) && !cs[i].synced && cs[i].timelineBits == {}
    requires InRange(votes, cs[0].numActiveBits)
    requires forall r :: 0 <= r < |votes| ==> (votes[r].invalidInQueue <==> votes[r].invalid != {})
    modifies cs
    ensures forall i :: 0 <= i < |cs| ==> cs[i].View() == Synced(votes, i) && !cs[i].synced && cs[i].timelineBits == {}
  {
    assert forall r :: 0 <= r < |cs| ==> cs[r].invalidInQueue == cs[0].invalidInQueue;
    if cs[0].invalidInQueue {
      SecondRound(cs, votes);
    }
    NoInvalidBits(votes);
  }

  lemma {:induction false} NoInvalidBits(votes: seq<Vote>)
    requires forall r :: 0 <= r < |votes| ==> (votes[r].invalidInQueue <==> votes[r].invalid != {})
    ensures (forall r :: 0 <= r < |votes| ==> !votes[r].invalidInQueue) ==> AllInvalid(votes) == {}
    ensures forall r :: 0 <= r < |votes| ==> Synced(votes, r).invalid == AllInvalid(votes)
  {
    if r :| 0 <= r < |votes| && votes[r].invalidInQueue {
    } else {
      assert AllInvalid(votes) == {};
    }
  }

  /** Timeline bits, if wanted, and the end of the agreement. */
  method Conclude(cs: seq<CacheCoordinator>, timeline: bool, ext: seq<Word>, ghost votes: seq<Vote>)
    requires |cs| == |votes| > 0 && forall i, j :: 0 <= i < j < |cs| ==> cs[i] != cs[j]
    requires forall i :: 0 <= i < |cs| ==> cs[i].View() == Synced(votes, i) && cs[i].timelineBits == {}
    requires forall i :: 0 <= i < |cs| ==> Synced(votes, i).invalid == AllInvalid(votes)
    requires InRange(votes, cs[0].numActiveBits)
    requires timeline ==> |ext| == Count(cs[0].numActiveBits)
    requires timeline ==> forall k :: 0 <= k < WORD * |ext| ==>
               (Marked(ext, k) <==> forall j :: 0 <= j < |votes| ==> !(k >= NUM_STATUS_BITS && FirstRound(votes[j], k)))
    modifies cs
    ensures forall i :: 0 <= i < |cs| ==>
              && cs[i].synced && cs[i].View() == Synced(votes, i)
              && cs[i].timelineBits == if timeline then AllHits(votes) - AllInvalid(votes) else {}
  {
    for i := 0 to |cs|
      invariant forall j :: 0 <= j < i ==>
                  && cs[j].synced && cs[j].View() == Synced(votes, j)
                  && cs[j].timelineBits == if timeline then AllHits(votes) - AllInvalid(votes) else {}
      invariant forall j :: i <= j < |cs| ==> cs[j].View() == Synced(votes, j) && cs[j].timelineBits == {}
    {
      if timeline {
        cs[i].UnpackTimeline(ext);
        assert cs[i].timelineBits == AllHits(votes) - AllInvalid(votes) by {
          TimelineSet(votes, cs[0].numActiveBits, ext, cs[i].timelineBits);
        }
      }
      cs[i].synced := true;
    }
  }

  lemma {:induction false} TimelineSet(votes: seq<Vote>, n: nat, ext: seq<Word>, bits: set<nat>)
    requires InRange(votes, n) && |ext| == Count(n)
    requires forall k :: 0 <= k < WORD * |ext| ==>
               (Marked(ext, k) <==> forall j :: 0 <= j < |votes| ==> !(k >= NUM_STATUS_BITS && FirstRound(votes[j], k)))
    requires forall b: nat :: b in bits <==>
               b + NUM_STATUS_BITS < WORD * |ext| && !Marked(ext, b + NUM_STATUS_BITS) && b !in AllInvalid(votes)
    ensures bits == AllHits(votes) - AllInvalid(votes)
  {
    forall b: nat ensures b in bits <==> b in AllHits(votes) - AllInvalid(votes) {
      if b in AllHits(votes) - AllInvalid(votes) {
        var j :| 0 <= j < |votes| && b in votes[j].hits;
        assert FirstRound(votes[j], b + NUM_STATUS_BITS);
      }
      if b in bits {
        var j :| 0 <= j < |votes| && FirstRound(votes[j], b + NUM_STATUS_BITS);
        assert b in votes[j].hits;
      }
    }
  }

  /** Every rank packs its first-round vectors. */
  method FirstVectors(cs: seq<CacheCoordinator>, timeline: bool) returns (vs: seq<seq<Word>>, exts: seq<seq<Word>>)
    requires |cs| > 0 && forall i, j :: 0 <= i < j < |cs| ==> cs[i] != cs[j]
    requires forall i :: 0 <= i < |cs| ==> cs[i].Recording() && cs[i].numActiveBits == cs[0].numActiveBits
    modifies cs
    ensures |vs| == |exts| == |cs|
    ensures forall i :: 0 <= i < |cs| ==>
              && cs[i].Recording()
              && cs[i].View() == old(cs[i].View()).(hits := old(cs[i].hits) - old(cs[i].invalid))
              && |vs[i]| == Count(cs[0].numActiveBits) && |exts[i]| == if timeline then |vs[i]| else 0
    ensures forall i, k :: 0 <= i < |cs| && 0 <= k < WORD * |vs[i]| ==>
              Marked(vs[i], k) == FirstRound(old(cs[i].View()), k)
    ensures timeline ==> forall i, k :: 0 <= i < |cs| && 0 <= k < WORD * |exts[i]| ==>
              Marked(exts[i], k) == !(k >= NUM_STATUS_BITS && FirstRound(old(cs[i].View()), k))
  {
    vs, exts := [], [];
    for i := 0 to |cs|
      invariant |vs| == |exts| == i
      invariant forall j :: 0 <= j < i ==>
                  && cs[j].Recording()
                  && cs[j].View() == old(cs[j].View()).(hits := old(cs[j].hits) - old(cs[j].invalid))
                  && |vs[j]| == Count(cs[0].numActiveBits) && |exts[j]| == if timeline then |vs[j]| else 0
      invariant forall j, k :: 0 <= j < i && 0 <= k < WORD * |vs[j]| ==>
                  Marked(vs[j], k) == FirstRound(old(cs[j].View()), k)
      invariant timeline ==> forall j, k :: 0 <= j < i && 0 <= k < WORD * |exts[j]| ==>
                  Marked(exts[j], k) == !(k >= NUM_STATUS_BITS && FirstRound(old(cs[j].View()), k))
      invariant forall j :: i <= j < |cs| ==> cs[j].Recording() && cs[j].View() == old(cs[j].View())
    {
      var v, ext := cs[i].PackFirst(timeline);
      vs, exts := vs + [v], exts + [ext];
    }
  }

  /** Every rank reads the common first-round vector. */
  method ReadFirst(cs: seq<CacheCoordinator>, common: seq<Word>, ghost votes: seq<Vote>)
    requires |cs| == |votes| > 0 && forall i, j :: 0 <= i < j < |cs| ==> cs[i] != cs[j]
    requires forall i :: 0 <= i < |cs| ==>
               && cs[i].Recording() && cs[i].numActiveBits == cs[0].numActiveBits
               && cs[i].View() == votes[i].(hits := votes[i].hits - votes[i].invalid)
    requires InRange(votes, cs[0].numActiveBits) && |common| == Count(cs[0].numActiveBits)
    requires forall k :: 0 <= k < WORD * |common| ==>
               (Marked(common, k) <==> forall j :: 0 <= j < |votes| ==> FirstRound(votes[j], k))
    modifies cs
    ensures forall i :: 0 <= i < |cs| ==>
              cs[i].View() == HalfSynced(votes, i) && !cs[i].synced && cs[i].timelineBits == {}
  {
    forall k | 0 <= k < WORD * |common| && k >= cs[0].numActiveBits + NUM_STATUS_BITS ensures !Marked(common, k) {
      assert !FirstRound(votes[0], k);
    }
    for i := 0 to |cs|
      invariant forall j :: 0 <= j < i ==>
                  cs[j].View() == HalfSynced(votes, j) && !cs[j].synced && cs[j].timelineBits == {}
      invariant forall j :: i <= j < |cs| ==>
                  && cs[j].Recording() && cs[j].View() == votes[j].(hits := votes[j].hits - votes[j].invalid)
    {
      cs[i].UnpackFirst(common);
      FirstRoundAgreement(votes, i, cs[0].numActiveBits, common, cs[i].View());
    }
  }

  /** The second collective, which all ranks enter or none. */
  method SecondRound(cs: seq<CacheCoordinator>, ghost votes: seq<Vote>)
    requires |cs| == |votes| > 0 && forall i, j :: 0 <= i < j < |cs| ==> cs[i] != cs[j]
    requires forall i :: 0 <= i < |cs| ==>
               && cs[i].numActiveBits == cs[0].numActiveBits
               && cs[i].View() == HalfSynced(votes, i) && !cs[i].synced && cs[i].timelineBits == {}
    requires InRange(votes, cs[0].numActiveBits)
    modifies cs
    ensures forall i :: 0 <= i < |cs| ==>
              && cs[i].View() == HalfSynced(votes, i).(invalid := AllInvalid(votes))
              && !cs[i].synced && cs[i].timelineBits == {}
  {
    var vs := InvalidVectors(cs, votes);
    var union := OrAll(vs, Count(cs[0].numActiveBits));
    UnionMarks(votes, vs, union, cs[0].numActiveBits);
    for i := 0 to |cs|
      invariant forall j :: 0 <= j < i ==>
                  && cs[j].View() == HalfSynced(votes, j).(invalid := AllInvalid(votes))
                  && !cs[j].synced && cs[j].timelineBits == {}
      invariant forall j :: i <= j < |cs| ==>
                  cs[j].View() == HalfSynced(votes, j) && !cs[j].synced && cs[j].timelineBits == {}
    {
      cs[i].UnpackInvalid(union);
      assert cs[i].invalid == AllInvalid(votes);
    }
  }

  method InvalidVectors(cs: seq<CacheCoordinator>, ghost votes: seq<Vote>) returns (vs: seq<seq<Word>>)
    requires |cs| == |votes| > 0 && InRange(votes, cs[0].numActiveBits)
    requires forall i :: 0 <= i < |cs| ==>
               cs[i].numActiveBits == cs[0].numActiveBits && cs[i].View() == HalfSynced(votes, i)
    ensures |vs| == |votes| && forall j :: 0 <= j < |vs| ==> |vs[j]| == Count(cs[0].numActiveBits)
    ensures forall j, k :: 0 <= j < |vs| && 0 <= k < WORD * |vs[j]| ==> Marked(vs[j], k) == (k in votes[j].invalid)
  {
    vs := [];
    for i := 0 to |cs|
      invariant |vs| == i && forall j :: 0 <= j < i ==> |vs[j]| == Count(cs[0].numActiveBits)
      invariant forall j, k :: 0 <= j < i && 0 <= k < WORD * |vs[j]| ==> Marked(vs[j], k) == (k in votes[j].invalid)
    {
      assert cs[i].View() == HalfSynced(votes, i);
      var v := cs[i].PackInvalid();
      vs := vs + [v];
    }
  }

  /** The bitwise or of the vectors is the union of the invalid bits. */
  lemma {:induction false} UnionMarks(votes: seq<Vote>, vs: seq<seq<Word>>, union: seq<Word>, n: nat)
    requires |vs| == |votes| && InRange(votes, n) && |union| == Count(n)
    requires forall j :: 0 <= j < |vs| ==> |vs[j]| == Count(n)
    requires forall j, k :: 0 <= j < |vs| && 0 <= k < WORD * |vs[j]| ==> Marked(vs[j], k) == (k in votes[j].invalid)
    requires forall k :: 0 <= k < WORD * |union| ==>
               (Marked(union, k) <==> exists j :: 0 <= j < |vs| && Marked(vs[j], k))
    ensures forall b: nat :: b in AllInvalid(votes) <==> b < WORD * |union| && Marked(union, b)
  {
    forall b: nat ensures b in AllInvalid(votes) <==> b < WORD * |union| && Marked(union, b) {
      if b in AllInvalid(votes) {
        var j :| 0 <= j < |votes| && b in votes[j].invalid;
        assert Marked(vs[j], b);
      }
    }
  }
}
