/** Rounding to the nearest of an increasing list of numbers, ties to the even place
    (roundTiesToEven, section 4.3.1 of IEEE 754-2019). Everything from half way between the last
    two numbers on goes to the last one. */
module Rounding {
  import opened Products

  ghost predicate Increasing(vs: seq<int>) {
    forall i, j :: 0 <= i < j < |vs| ==> vs[i] < vs[j]
  }

  /** `x` is above the middle between `a` and `b`, or on it and the place of `b` is even. */
  predicate Above(x: int, a: int, b: int, even: bool) {
    2 * x > a + b || (2 * x == a + b && even)
  }

  predicate Below(x: int, a: int, b: int, even: bool) {
    2 * x < a + b || (2 * x == a + b && even)
  }

  ghost predicate Nearest(vs: seq<int>, x: int, u: nat) {
    && u < |vs|
    && (u > 0 ==> Above(x, vs[u - 1], vs[u], u % 2 == 0))
    && (u + 1 < |vs| ==> Below(x, vs[u], vs[u + 1], u % 2 == 0))
  }

  /** Rounding is monotone. */
  lemma {:induction false} NearestMonotone(vs: seq<int>, x: int, y: int, u: nat, v: nat)
    requires Increasing(vs) && x <= y && Nearest(vs, x, u) && Nearest(vs, y, v)
    ensures u <= v
  {
  }

  /** There is only one nearest number. */
  lemma {:induction false} NearestUnique(vs: seq<int>, x: int, u: nat, v: nat)
    requires Increasing(vs) && Nearest(vs, x, u) && Nearest(vs, x, v)
    ensures u == v
  {
    NearestMonotone(vs, x, x, u, v);
    NearestMonotone(vs, x, x, v, u);
  }

  /** A nearest number of the list up to place `top`: the last one that `x` is above the middle
      below. */
  ghost function Round(vs: seq<int>, x: int, top: nat): (u: nat)
    requires top < |vs| && (top + 1 < |vs| ==> Below(x, vs[top], vs[top + 1], top % 2 == 0))
    ensures Nearest(vs, x, u)
  {
    if top == 0 || Above(x, vs[top - 1], vs[top], top % 2 == 0) then top else Round(vs, x, top - 1)
  }

  /** A number of the list is nearest to itself. */
  lemma {:induction false} NearestExact(vs: seq<int>, u: nat)
    requires Increasing(vs) && u < |vs|
    ensures Nearest(vs, vs[u], u)
  {
  }

  function Distance(x: int, y: int): nat { if x < y then y - x else x - y }

  /** No number of the list is nearer, unless `x` is beyond the last one. */
  lemma {:induction false} NearestIsClosest(vs: seq<int>, x: int, u: nat, v: nat)
    requires Increasing(vs) && Nearest(vs, x, u) && v < |vs|
    ensures Distance(x, vs[u]) <= Distance(x, vs[v])
  {
    if v < u {
      assert vs[v] <= vs[u - 1] < vs[u];
    } else if v > u {
      assert vs[u] < vs[u + 1] <= vs[v];
    }
  }

  /** Rounding `x`, which lies `a` above number `u` where the next number is `2 * b` above it. */
  lemma {:induction false} RoundGap(vs: seq<int>, x: int, u: nat, a: int, b: int, up: bool)
    requires Increasing(vs) && u + 1 < |vs| && 0 <= a < 2 * b && x == vs[u] + a && vs[u + 1] == vs[u] + 2 * b
    requires up <==> a > b || (a == b && u % 2 == 1)
    ensures Nearest(vs, x, if up then u + 1 else u)
  {
    if up {
      if u + 2 < |vs| { assert vs[u + 1] < vs[u + 2]; }
    } else if u > 0 {
      assert vs[u - 1] < vs[u];
    }
  }

  /** The same with the gap cut in `2 * h` parts of size `w`, of which `x` is `rem` above `u`. */
  lemma {:induction false} RoundRemainder(vs: seq<int>, x: int, u: nat, rem: nat, h: nat, w: nat, up: bool)
    requires Increasing(vs) && u + 1 < |vs| && w > 0 && rem < 2 * h
    requires x == vs[u] + rem * w && vs[u + 1] == vs[u] + 2 * (h * w)
    requires up <==> rem > h || (rem == h && u % 2 == 1)
    ensures Nearest(vs, x, if up then u + 1 else u)
  {
    Compare(rem, h, w);
    RoundGap(vs, x, u, rem * w, h * w, up);
  }

  lemma {:induction false} Compare(rem: nat, h: nat, w: nat)
    requires w > 0 && rem < 2 * h
    ensures 0 <= rem * w < 2 * (h * w)
    ensures (rem * w > h * w <==> rem > h) && (rem * w == h * w <==> rem == h)
  {
    if rem < h { MulLess(rem, h, w); }
    if rem > h { MulLess(h, rem, w); }
    MulLess(rem, 2 * h, w);
    assert (2 * h) * w == 2 * (h * w);
  }
}
