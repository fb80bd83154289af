/** float16_sum rounds twice: the single precision addition rounds the exact sum, and
    Float2HalfBits rounds the result again. Single precision has 24 bits and half precision 11, so
    that the two roundings together give the half nearest to the exact sum. */
module HalfSum {
  import opened Products
  import opened Rounding
  import opened Half

  // ---------------------------------------------------------------- singles

  /** The magnitudes of all singles up to infinity. */
  function Singles(): (vs: seq<int>)
    ensures |vs| == INF_SINGLE + 1 && forall a :: 0 <= a < |vs| ==> vs[a] == SingleValue(a)
  {
    seq(INF_SINGLE + 1, a requires 0 <= a => SingleValue(a))
  }

  function SingleUlpExponent(e: nat): nat { if e == 0 then 0 else e - 1 }

  function SingleScaled(e: nat, m: nat): nat {
    if e == 0 then m else (0x80_0000 + m) * Pow2(e - 1)
  }

  lemma {:induction false} SingleFields(a: nat)
    ensures SingleValue(a) == SingleScaled(a / 0x80_0000, a % 0x80_0000)
  {
  }

  lemma {:induction false} SingleScaledNext(e: nat, m: nat)
    requires m < 0x80_0000
    ensures (if m < 0x7f_ffff then SingleScaled(e, m + 1) else SingleScaled(e + 1, 0))
            == SingleScaled(e, m) + Pow2(SingleUlpExponent(e))
  {
    var p := Pow2(SingleUlpExponent(e));
    Distribute(0x80_0000 + m, 1, p);
    if m == 0x7f_ffff && e > 0 {
      assert Pow2(e) == 2 * p;
    }
  }

  lemma {:induction false} SingleNext(a: nat)
    ensures SingleValue(a + 1) == SingleValue(a) + Pow2(SingleUlpExponent(a / 0x80_0000))
  {
    var e, m := a / 0x80_0000, a % 0x80_0000;
    SingleFields(a);
    SingleFields(a + 1);
    SingleScaledNext(e, m);
    if m < 0x7f_ffff {
      assert (a + 1) / 0x80_0000 == e && (a + 1) % 0x80_0000 == m + 1;
    } else {
      assert (a + 1) / 0x80_0000 == e + 1 && (a + 1) % 0x80_0000 == 0;
    }
  }

  lemma {:induction false} SinglesIncrease(a: nat, b: nat)
    requires a < b
    ensures SingleValue(a) < SingleValue(b)
    decreases b - a
  {
    SingleNext(b - 1);
    if a < b - 1 {
      SinglesIncrease(a, b - 1);
    }
  }

  /** A number of at most 24 bits is a single. */
  lemma {:induction false} Representable(m: nat, w: nat) returns (a: nat)
    requires m < 0x100_0000 && w <= 253
    ensures a < INF_SINGLE && SingleValue(a) == m * Pow2(w)
    decreases w
  {
    if w == 0 {
      a := m;
    } else if m < 0x80_0000 {
      a := Representable(2 * m, w - 1);
      MulAssoc(m, 2, Pow2(w - 1));
    } else {
      a := (w + 1) * 0x80_0000 + (m - 0x80_0000);
      assert a / 0x80_0000 == w + 1 && a % 0x80_0000 == m - 0x80_0000;
    }
  }

  /** The nearest single is at most half a unit in its last place away. */
  lemma {:induction false} NearestSingle(x: int, a: nat)
    requires Nearest(Singles(), x, a) && a < INF_SINGLE
    ensures var s, ulp := SingleValue(a), Pow2(SingleUlpExponent(a / 0x80_0000));
            2 * x <= 2 * s + ulp && (x >= 0 ==> 2 * x >= 2 * s - ulp)
  {
    SingleNext(a);
    if a > 0 {
      SingleNext(a - 1);
      Pow2Monotone(SingleUlpExponent((a - 1) / 0x80_0000), SingleUlpExponent(a / 0x80_0000));
    }
  }

  /** A single below `2 * 1024 * 2^g` has its last place at most at `2^(g-13)`. */
  lemma {:induction false} UlpOfSingle(a: nat, g: nat)
    requires g >= 13 && SingleValue(a) < 2048 * Pow2(g)
    ensures SingleUlpExponent(a / 0x80_0000) <= g - 13
  {
    var e := a / 0x80_0000;
    if e > g - 12 {
      SingleFields(a);
      Pow2Monotone(g - 12, e - 1);
      Pow2Shift(g - 13);
      assert Pow2(g - 12) == 2 * Pow2(g - 13);
      AtLeast(a % 0x80_0000, Pow2(e - 1), Pow2(g - 12));
    }
  }

  // ---------------------------------------------------------------- halves

  function GapExponent(u: nat): nat { UlpExponent(u / 1024) }

  function Significand(u: nat): (c: nat)
    ensures c < 2048
  {
    if u / 1024 == 0 then u % 1024 else 1024 + u % 1024
  }

  lemma {:induction false} HalfIs(u: nat)
    ensures HalfValue(u) == Significand(u) * Pow2(GapExponent(u))
  {
  }

  lemma {:induction false} HalfBound(u: nat)
    ensures HalfValue(u) < 2048 * Pow2(GapExponent(u))
  {
    HalfIs(u);
    MulLess(Significand(u), 2048, Pow2(GapExponent(u)));
  }

  /** A half is a multiple of every power of two up to its last place. */
  lemma {:induction false} HalfMultiple(u: nat, w: nat) returns (n: nat)
    requires w <= GapExponent(u)
    ensures HalfValue(u) == n * Pow2(w)
  {
    var c, g := Significand(u), GapExponent(u);
    n := c * Pow2(g - w);
    HalfIs(u);
    Pow2Add(g - w, w);
    MulAssoc(c, Pow2(g - w), Pow2(w));
  }

  lemma {:induction false} GapMonotone(q: nat, p: nat)
    requires q <= p
    ensures GapExponent(q) <= GapExponent(p)
  {
  }

  /** Multiples of one number that are at most half of it apart are equal. */
  lemma {:induction false} CloseMultiples(m: int, n: int, p: nat)
    requires p > 0 && 0 - p <= 2 * (m * p - n * p) <= p
    ensures m == n
  {
    if m > n {
      Distribute(n, m - n, p);
      MulGrows(p, m - n);
    } else if m < n {
      MulGrows(p, n - m);
      Distribute(m, n - m, p);
    }
  }

  /** The exact sum or difference of two halves. */
  predicate IsSum(x: int, p: nat, q: nat) {
    x == HalfValue(p) + HalfValue(q) || x == HalfValue(p) - HalfValue(q)
  }

  lemma {:induction false} Combine(x: int, s: int, t: int, a: int, b: int, p: int) returns (n: int)
    requires s == a * p && t == b * p && (x == s + t || x == s - t)
    ensures x == n * p
  {
    if x == s + t {
      n := a + b;
      Distribute(a, b, p);
    } else {
      n := a - b;
      Distribute(a - b, b, p);
    }
  }

  lemma {:induction false} SumMultiple(x: int, p: nat, q: nat, w: nat) returns (n: int)
    requires IsSum(x, p, q) && w <= GapExponent(p) && w <= GapExponent(q)
    ensures x == n * Pow2(w)
  {
    var a := HalfMultiple(p, w);
    var b := HalfMultiple(q, w);
    n := Combine(x, HalfValue(p), HalfValue(q), a, b, Pow2(w));
  }

  /** The middle between half `k` and the next: a multiple of `2^(g-1)`. */
  lemma {:induction false} MiddleMultiple(k: nat, t: int, w: nat) returns (n: nat)
    requires 2 * t == HalfValue(k) + HalfValue(k + 1) && w < GapExponent(k)
    ensures t == n * Pow2(w) && t == HalfValue(k) + Pow2(GapExponent(k) - 1)
  {
    var g := GapExponent(k);
    HalfNext(k);
    var a := HalfMultiple(k, w);
    n := a + Pow2(g - 1 - w);
    Pow2Add(g - 1 - w, w);
    Distribute(a, Pow2(g - 1 - w), Pow2(w));
  }

  /** When both halves are multiples of the single's last place, the sum is exact. */
  lemma {:induction false} SameScale(x: int, p: nat, q: nat, k: nat, t: int, g: nat)
    requires IsSum(x, p, q) && q <= p && g == GapExponent(k) && g >= 13 && GapExponent(q) >= g - 13
    requires 2 * t == HalfValue(k) + HalfValue(k + 1)
    requires 0 - Pow2(g - 13) <= 2 * (x - t) <= Pow2(g - 13)
    ensures x == t
  {
    GapMonotone(q, p);
    var m := SumMultiple(x, p, q, g - 13);
    var n := MiddleMultiple(k, t, g - 13);
    CloseMultiples(m, n, Pow2(g - 13));
  }

  /** A summand that takes the other one near the middle is not small. */
  lemma {:induction false} FarFromMiddle(x: int, v: int, y: int, lo: int, t: int, small: int)
    requires x == v + y || x == v - y
    requires y >= 0 && t == lo + 8192 * small && 0 - small <= x - t <= small
    requires v <= lo || v >= lo + 2 * (8192 * small)
    ensures y >= 2048 * small
  {
  }

  lemma {:induction false} NotBetween(p: nat, k: nat)
    ensures HalfValue(p) <= HalfValue(k) || HalfValue(p) >= HalfValue(k + 1)
  {
    if p < k { HalvesIncrease(p, k); }
    if p > k + 1 { HalvesIncrease(k + 1, p); }
  }

  /** So the smaller summand reaches down to the single's last place. */
  lemma {:induction false} MiddleAt(k: nat, t: int, small: nat)
    requires GapExponent(k) >= 14 && 2 * t == HalfValue(k) + HalfValue(k + 1) && small == Pow2(GapExponent(k) - 14)
    ensures HalfValue(k + 1) == HalfValue(k) + 2 * (8192 * small) && t == HalfValue(k) + 8192 * small
  {
    var g := GapExponent(k);
    Pow2Shift(g - 14);
    assert Pow2(g) == 2 * Pow2(g - 1);
    HalfNext(k);
  }

  lemma {:induction false} NotTooSmall(x: int, p: nat, q: nat, k: nat, t: int, g: nat)
    requires IsSum(x, p, q) && g == GapExponent(k) && g >= 14
    requires 2 * t == HalfValue(k) + HalfValue(k + 1)
    requires 0 - Pow2(g - 13) <= 2 * (x - t) <= Pow2(g - 13)
    ensures GapExponent(q) >= g - 13
  {
    var small := Pow2(g - 14);
    assert Pow2(g - 13) == 2 * small;
    MiddleAt(k, t, small);
    NotBetween(p, k);
    FarFromMiddle(x, HalfValue(p), HalfValue(q), HalfValue(k), t, small);
    HalfBound(q);
    if GapExponent(q) < g - 13 {
      Pow2Monotone(GapExponent(q), g - 14);
    }
  }

  /** If the single nearest to a sum of halves is the middle between two halves, it is the sum. */
  lemma {:induction false} MiddleIsExact(x: int, p: nat, q: nat, k: nat, a: nat)
    requires IsSum(x, p, q) && q <= p && x >= 0 && a < INF_SINGLE
    requires 2 * SingleValue(a) == HalfValue(k) + HalfValue(k + 1) && Nearest(Singles(), x, a)
    ensures x == SingleValue(a)
  {
    var g, t := GapExponent(k), SingleValue(a);
    NearestSingle(x, a);
    HalfNext(k);
    HalfBoundNext(k);
    UlpOfSingle(a, g);
    Pow2Monotone(SingleUlpExponent(a / 0x80_0000), g - 13);
    NotTooSmall(x, p, q, k, t, g);
    SameScale(x, p, q, k, t, g);
  }

  lemma {:induction false} HalfBoundNext(k: nat)
    ensures HalfValue(k) + Pow2(GapExponent(k)) <= 2048 * Pow2(GapExponent(k))
  {
    HalfIs(k);
    var c, p := Significand(k), Pow2(GapExponent(k));
    Distribute(c, 1, p);
    if c + 1 < 2048 { MulLess(c + 1, 2048, p); }
  }

  // ---------------------------------------------------------------- one rounding

  lemma {:induction false} SinglesIncreasing()
    ensures Increasing(Singles())
  {
    var vs := Singles();
    forall i, j | 0 <= i < j < |vs| ensures vs[i] < vs[j] { SinglesIncrease(i, j); }
  }

  /** The middle between neighbouring halves has 12 bits and is a single. */
  lemma {:induction false} MiddleRepresentable(k: nat) returns (c: nat)
    requires k < INF_HALF
    ensures c < INF_SINGLE && 2 * SingleValue(c) == HalfValue(k) + HalfValue(k + 1)
  {
    var g, n := GapExponent(k), Significand(k);
    c := Representable(2 * n + 1, g - 1);
    HalfIs(k);
    HalfNext(k);
    assert Pow2(g) == 2 * Pow2(g - 1);
    MiddleOf(n, Pow2(g - 1));
  }

  lemma {:induction false} MiddleOf(n: nat, p: nat)
    ensures 2 * ((2 * n + 1) * p) == n * (2 * p) + n * (2 * p) + 2 * p
  {
  }

  /** On the same side of a middle before and after rounding to a single. */
  lemma {:induction false} SameSide(x: int, p: nat, q: nat, k: nat, a: nat)
    requires IsSum(x, p, q) && q <= p && x >= 0 && a < INF_SINGLE && k < INF_HALF && Nearest(Singles(), x, a)
    ensures var m := HalfValue(k) + HalfValue(k + 1); var y := SingleValue(a);
            (2 * x < m <==> 2 * y < m) && (2 * x == m <==> 2 * y == m)
  {
    var c := MiddleRepresentable(k);
    SinglesIncreasing();
    NearestExact(Singles(), c);
    var t := SingleValue(c);
    if x <= t { NearestMonotone(Singles(), x, t, a, c); }
    if x >= t { NearestMonotone(Singles(), t, x, c, a); }
    if a == c {
      MiddleIsExact(x, p, q, k, a);
    } else if a < c {
      SinglesIncrease(a, c);
    } else {
      SinglesIncrease(c, a);
    }
  }

  /** Rounding the exact sum of two halves to a single first does not change the nearest half. */
  lemma {:induction false} DoubleRounding(x: int, p: nat, q: nat, a: nat, u: nat)
    requires IsSum(x, p, q) && q <= p && x >= 0 && a < INF_SINGLE && Nearest(Singles(), x, a)
    requires Nearest(Halves(), SingleValue(a), u)
    ensures Nearest(Halves(), x, u)
  {
    if u > 0 { SameSide(x, p, q, u - 1, a); }
    if u < INF_HALF { SameSide(x, p, q, u, a); }
  }

  /** The sum of finite halves does not overflow in single precision. */
  lemma {:induction false} NoOverflow(x: int, p: nat, q: nat, a: nat, k: nat)
    requires IsSum(x, p, q) && q <= p < INF_HALF && k == 155 && Nearest(Singles(), x, a)
    ensures a < INF_SINGLE
  {
    var b := Representable(2048, k);
    SinglesIncreasing();
    NearestExact(Singles(), b);
    HalvesIncrease(p, INF_HALF);
    HalvesIncrease(q, INF_HALF);
    InfinityIs(INF_HALF, k);
    NearestMonotone(Singles(), x, SingleValue(b), a, b);
  }

  lemma {:induction false} InfinityIs(u: nat, k: nat)
    requires u == INF_HALF && k == 155
    ensures HalfValue(u) == 1024 * Pow2(k)
  {
    assert u / 1024 == 31 && u % 1024 == 0;
  }

  function Magnitude(s: int): nat { if s < 0 then 0 - s else s }

  /** The sign bit of a sum: that of the exact sum `s`; an exact zero is negative only when both
      summands have the sign bit set. */
  function SumSign(s: int, a: nat, b: nat): nat {
    if s < 0 || (s == 0 && a == 1 && b == 1) then 1 else 0
  }

  /** `r` is the single precision sum of the singles `f` and `g` by the standard: the exact sum
      rounded to the nearest single. */
  ghost predicate SingleSum(f: nat, g: nat, r: nat) {
    var s := SignedSingle(f) + SignedSingle(g);
    && r < 0x1_0000_0000 && !IsNaNSingle(r)
    && Nearest(Singles(), Magnitude(s), r % SIGN_SINGLE)
    && r / SIGN_SINGLE == SumSign(s, f / SIGN_SINGLE, g / SIGN_SINGLE)
  }

  /** `d` is the half precision sum of the halves `a` and `b`: their exact sum, rounded once. */
  ghost predicate HalfSum(a: nat, b: nat, d: nat) {
    var s := SignedHalf(a) + SignedHalf(b);
    && d < 0x1_0000
    && Nearest(Halves(), Magnitude(s), d % SIGN_HALF)
    && d / SIGN_HALF == SumSign(s, a / SIGN_HALF, b / SIGN_HALF)
  }

  predicate IsFinite(h: nat) { h < 0x1_0000 && h % SIGN_HALF < INF_HALF }

  lemma {:induction false} WidenedValue(h: nat, f: nat)
    requires IsFinite(h) && Widens(h, f)
    ensures SignedSingle(f) == SignedHalf(h)
  {
  }

  lemma {:induction false} ExactSum(a: nat, b: nat) returns (p: nat, q: nat)
    requires IsFinite(a) && IsFinite(b)
    ensures q <= p < INF_HALF
    ensures var s := SignedHalf(a) + SignedHalf(b); IsSum(Magnitude(s), p, q)
  {
    var u, v := a % SIGN_HALF, b % SIGN_HALF;
    if u < v {
      HalvesIncrease(u, v);
      p, q := v, u;
    } else {
      if v < u { HalvesIncrease(v, u); }
      p, q := u, v;
    }
  }

  /** For finite halves and a correctly rounding single precision addition, what float16_sum
      stores is the half nearest to the exact sum, ties to even, overflow to infinity. */
  lemma {:induction false} SumRoundsOnce(a: nat, b: nat, f: nat, g: nat, r: nat, d: nat)
    requires IsFinite(a) && IsFinite(b) && Widens(a, f) && Widens(b, g)
    requires SingleSum(f, g, r) && Converts(r, d)
    ensures HalfSum(a, b, d)
  {
    WidenedValue(a, f);
    WidenedValue(b, g);
    var s := SignedHalf(a) + SignedHalf(b);
    var x := Magnitude(s);
    var p, q := ExactSum(a, b);
    NoOverflow(x, p, q, r % SIGN_SINGLE, 155);
    DoubleRounding(x, p, q, r % SIGN_SINGLE, d % SIGN_HALF);
  }

  /** A single precision adder by the standard, as far as finite numbers go. */
  ghost predicate CorrectAdder(add: (nat, nat) -> nat) {
    forall f: nat, g: nat :: f % SIGN_SINGLE < INF_SINGLE && g % SIGN_SINGLE < INF_SINGLE ==> SingleSum(f, g, add(f, g))
  }

  /** With a correct adder, float16_sum stores the half precision sum of finite halves. */
  lemma {:induction false} StoresHalfSum(add: (nat, nat) -> nat, a: nat, b: nat, d: nat)
    requires CorrectAdder(add) && IsFinite(a) && IsFinite(b) && SumOf(add, a, b, d)
    ensures HalfSum(a, b, d)
  {
    var f, g :| Widens(a, f) && Widens(b, g) && Converts(add(f, g), d);
    SumRoundsOnce(a, b, f, g, add(f, g), d);
  }

  lemma {:induction false} Fields(a: nat, g: nat, r: nat)
    requires a <= INF_SINGLE && g <= 1 && r == a + g * SIGN_SINGLE
    ensures r < 0x1_0000_0000 && r % SIGN_SINGLE == a && r / SIGN_SINGLE == g
  {
  }

  ghost function RoundedSum(s: int): (a: nat)
    ensures a <= INF_SINGLE && Nearest(Singles(), Magnitude(s), a)
  {
    Round(Singles(), Magnitude(s), INF_SINGLE)
  }

  /** The adder that rounds the exact sum. */
  ghost function IdealAdd(f: nat, g: nat): nat {
    var s := SignedSingle(f) + SignedSingle(g);
    RoundedSum(s) + SumSign(s, f / SIGN_SINGLE, g / SIGN_SINGLE) * SIGN_SINGLE
  }

  /** There is a correct adder. */
  lemma {:induction false} IdealIsCorrect()
    ensures CorrectAdder(IdealAdd)
  {
    forall f: nat, g: nat ensures SingleSum(f, g, IdealAdd(f, g)) {
      var s := SignedSingle(f) + SignedSingle(g);
      Fields(RoundedSum(s), SumSign(s, f / SIGN_SINGLE, g / SIGN_SINGLE), IdealAdd(f, g));
    }
  }
}
