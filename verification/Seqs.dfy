/** Concatenation and subsequences. */
module Seqs {

  function Flatten<T>(ss: seq<seq<T>>): seq<T> {
    if ss == [] then [] else ss[0] + Flatten(ss[1..])
  }

  lemma {:induction false} ConcatAssociative<T>(a: seq<T>, b: seq<T>, c: seq<T>)
    ensures (a + b) + c == a + (b + c)
  {
  }

  /** `f` lists, in increasing order, the places in `s` where the elements of `a` stand. */
  ghost predicate Embeds<T>(f: seq<nat>, a: seq<T>, s: seq<T>) {
    && |f| == |a|
    && (forall i :: 0 <= i < |f| ==> f[i] < |s| && a[i] == s[f[i]])
    && (forall i, j :: 0 <= i < j < |f| ==> f[i] < f[j])
  }

  /** `a` is `s` with some elements left out. */
  ghost predicate Subsequence<T>(a: seq<T>, s: seq<T>) {
    exists f :: Embeds(f, a, s)
  }

  lemma {:induction false} SubsequenceSelf<T>(s: seq<T>)
    ensures Subsequence(s, s) && Subsequence([], s)
  {
    assert Embeds(seq(|s|, i => i), s, s);
    assert Embeds([], [], s);
  }

  lemma {:induction false} SubsequenceCons<T>(x: T, a: seq<T>, s: seq<T>)
    requires Subsequence(a, s)
    ensures Subsequence([x] + a, [x] + s) && Subsequence(a, [x] + s)
  {
    var f :| Embeds(f, a, s);
    var g := seq(|f|, i requires 0 <= i < |f| => f[i] + 1);
    assert Embeds(g, a, [x] + s);
    assert Embeds([0] + g, [x] + a, [x] + s);
  }

  /** The elements of `s` whose mark in `mask` is `side`. */
  ghost function Pick<T>(mask: seq<bool>, side: bool, s: seq<T>): seq<T>
    requires |mask| == |s|
  {
    if s == [] then []
    else (if mask[0] == side then [s[0]] else []) + Pick(mask[1..], side, s[1..])
  }

  /** `s` is an interleaving of `a` and `b`. */
  ghost predicate Interleaved<T>(a: seq<T>, b: seq<T>, s: seq<T>) {
    exists mask: seq<bool> :: |mask| == |s| && Pick(mask, true, s) == a && Pick(mask, false, s) == b
  }

  lemma {:induction false} InterleavedNone<T>(s: seq<T>)
    ensures Interleaved([], s, s)
  {
    if s == [] {
      assert Pick([], true, s) == [];
    } else {
      InterleavedNone(s[1..]);
      var mask: seq<bool> :| |mask| == |s[1..]| && Pick(mask, true, s[1..]) == []
        && Pick(mask, false, s[1..]) == s[1..];
      assert ([false] + mask)[1..] == mask;
      assert Pick([false] + mask, true, s) == [];
    }
  }

  lemma {:induction false} InterleavedCons<T>(x: T, a: seq<T>, b: seq<T>, s: seq<T>)
    requires Interleaved(a, b, s)
    ensures Interleaved([x] + a, b, [x] + s)
    ensures Interleaved(a, [x] + b, [x] + s)
  {
    var mask: seq<bool> :| |mask| == |s| && Pick(mask, true, s) == a && Pick(mask, false, s) == b;
    assert ([x] + s)[1..] == s && ([true] + mask)[1..] == mask && ([false] + mask)[1..] == mask;
    assert Pick([true] + mask, true, [x] + s) == [x] + a;
    assert Pick([false] + mask, true, [x] + s) == a;
  }

  lemma {:induction false} PickSubsequence<T>(mask: seq<bool>, side: bool, s: seq<T>)
    requires |mask| == |s|
    ensures Subsequence(Pick(mask, side, s), s)
  {
    if s == [] {
      SubsequenceSelf(s);
    } else {
      PickSubsequence(mask[1..], side, s[1..]);
      SubsequenceCons(s[0], Pick(mask[1..], side, s[1..]), s[1..]);
      assert s == [s[0]] + s[1..];
      assert Pick(mask, side, s) == [s[0]] + Pick(mask[1..], side, s[1..])
        || Pick(mask, side, s) == Pick(mask[1..], side, s[1..]);
    }
  }

  lemma {:induction false} PickMultiset<T>(mask: seq<bool>, s: seq<T>)
    requires |mask| == |s|
    ensures multiset(s) == multiset(Pick(mask, true, s)) + multiset(Pick(mask, false, s))
  {
    if s != [] {
      PickMultiset(mask[1..], s[1..]);
      assert s == [s[0]] + s[1..];
    }
  }

  lemma {:induction false} InterleavedParts<T>(a: seq<T>, b: seq<T>, s: seq<T>)
    requires Interleaved(a, b, s)
    ensures Subsequence(a, s) && Subsequence(b, s)
    ensures multiset(s) == multiset(a) + multiset(b)
  {
    var mask: seq<bool> :| |mask| == |s| && Pick(mask, true, s) == a && Pick(mask, false, s) == b;
    PickSubsequence(mask, true, s);
    PickSubsequence(mask, false, s);
    PickMultiset(mask, s);
  }

  lemma {:induction false} SubsequenceTransitive<T>(a: seq<T>, b: seq<T>, c: seq<T>)
    requires Subsequence(a, b) && Subsequence(b, c)
    ensures Subsequence(a, c)
  {
    var f :| Embeds(f, a, b);
    var g :| Embeds(g, b, c);
    assert Embeds(seq(|f|, i requires 0 <= i < |f| => g[f[i]]), a, c);
  }

  lemma {:induction false} FlattenMembers<T>(ss: seq<seq<T>>, x: T)
    ensures x in Flatten(ss) <==> exists i :: 0 <= i < |ss| && x in ss[i]
  {
    if ss != [] {
      FlattenMembers(ss[1..], x);
      if x in Flatten(ss) && x !in ss[0] {
        var i :| 0 <= i < |ss[1..]| && x in ss[1..][i];
        assert x in ss[i + 1];
      }
      if i :| 0 <= i < |ss| && x in ss[i] {
        if i > 0 { assert x in ss[1..][i - 1]; }
      }
    }
  }

  lemma {:induction false} FlattenNext<T>(ss: seq<seq<T>>, i: nat)
    requires i < |ss|
    ensures Flatten(ss[..i + 1]) == Flatten(ss[..i]) + ss[i]
  {
    if i == 0 {
      assert ss[..1][1..] == [];
      assert [] + ss[0] == ss[0] && ss[0] + [] == ss[0];
    } else {
      FlattenNext(ss[1..], i - 1);
      assert ss[..i + 1][1..] == ss[1..][..i] && ss[..i][1..] == ss[1..][..i - 1];
      ConcatAssociative(ss[0], Flatten(ss[1..][..i - 1]), ss[i]);
    }
  }

  /** A prefix grows by one element. */
  lemma {:induction false} NextPrefix<T>(s: seq<T>, i: nat)
    requires i < |s|
    ensures s[..i + 1] == s[..i] + [s[i]] && s[..i + 1][..i] == s[..i]
  {
  }

  /** Popping the front of a queue after appending to its back. */
  lemma {:induction false} Rotate<T>(s: seq<T>, i: nat, done: seq<T>, more: seq<T>)
    requires i < |s|
    ensures (s[i..] + done)[0] == s[i] && (s[i..] + done + more)[1..] == s[i + 1..] + (done + more)
  {
  }
}
