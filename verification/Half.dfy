/** Conversion between half and single precision and the half precision sum. Bit patterns are
    numbers; magnitudes are measured in units of 2^-149, the smallest positive single, so that
    every finite half and single is a natural number. */
module Half {
  import opened Products
  import opened Rounding

  function Pow2(n: nat): (p: nat)
    ensures p > 0
  {
    if n == 0 then 1 else 2 * Pow2(n - 1)
  }

  lemma {:induction false} MulTwice(x: nat, y: nat)
    ensures x * (2 * y) == 2 * (x * y)
  {
  }

  lemma {:induction false} Pow2Add(a: nat, b: nat)
    ensures Pow2(a + b) == Pow2(a) * Pow2(b)
    decreases b
  {
    if b > 0 {
      Pow2Add(a, b - 1);
      MulTwice(Pow2(a), Pow2(b - 1));
    }
  }

  lemma {:induction false} Pow2Monotone(a: nat, b: nat)
    requires a <= b
    ensures Pow2(a) <= Pow2(b)
  {
    Pow2Add(a, b - a);
    MulGrows(Pow2(a), Pow2(b - a));
  }

  lemma {:induction false} Distribute(a: int, b: int, p: int)
    ensures (a + b) * p == a * p + b * p
  {
  }

  // ---------------------------------------------------------------- values

  const SIGN_HALF: nat := 0x8000
  const INF_HALF: nat := 0x7c00
  const SIGN_SINGLE: nat := 0x8000_0000
  const INF_SINGLE: nat := 0x7f80_0000

  /** The significand `1024 + q`, or `q` when the exponent field is zero, scaled. */
  function Scaled(e: nat, q: nat): nat {
    if e == 0 then q * Pow2(125) else (1024 + q) * Pow2(124 + e)
  }

  /** Magnitude of a half. The pattern of infinity counts as 2^16, the number that would follow
      the largest finite half. */
  function HalfValue(u: nat): nat { Scaled(u / 1024, u % 1024) }

  /** Magnitude of a single. */
  function SingleValue(a: nat): nat {
    if a < 0x80_0000 then a else (0x80_0000 + a % 0x80_0000) * Pow2(a / 0x80_0000 - 1)
  }

  /** The magnitudes of all halves up to infinity. */
  function Halves(): (vs: seq<int>)
    ensures |vs| == INF_HALF + 1 && forall u :: 0 <= u < |vs| ==> vs[u] == HalfValue(u)
  {
    seq(INF_HALF + 1, u requires 0 <= u => HalfValue(u))
  }

  function UlpExponent(e: nat): nat { if e == 0 then 125 else 124 + e }

  lemma {:induction false} ScaledNext(e: nat, q: nat)
    requires q < 1024
    ensures (if q < 1023 then Scaled(e, q + 1) else Scaled(e + 1, 0)) == Scaled(e, q) + Pow2(UlpExponent(e))
  {
    var p := Pow2(UlpExponent(e));
    Distribute(1024 + q, 1, p);
    Distribute(q, 1, p);
    if q == 1023 && e > 0 {
      assert Pow2(124 + e + 1) == 2 * p;
    }
  }

  /** From one half to the next there is one unit in the last place. */
  lemma {:induction false} HalfNext(u: nat)
    ensures HalfValue(u + 1) == HalfValue(u) + Pow2(UlpExponent(u / 1024))
  {
    var e, q := u / 1024, u % 1024;
    ScaledNext(e, q);
    if q < 1023 {
      assert (u + 1) / 1024 == e && (u + 1) % 1024 == q + 1;
    } else {
      assert (u + 1) / 1024 == e + 1 && (u + 1) % 1024 == 0;
    }
  }

  lemma {:induction false} HalvesIncrease(u: nat, v: nat)
    requires u < v
    ensures HalfValue(u) < HalfValue(v)
    decreases v - u
  {
    HalfNext(v - 1);
    if u < v - 1 {
      HalvesIncrease(u, v - 1);
    }
  }

  lemma {:induction false} HalvesIncreasing()
    ensures Increasing(Halves())
  {
    var vs := Halves();
    forall i, j | 0 <= i < j < |vs| ensures vs[i] < vs[j] { HalvesIncrease(i, j); }
  }

  // ---------------------------------------------------------------- single to half

  predicate IsNaNSingle(s: nat) { s % SIGN_SINGLE > INF_SINGLE }

  predicate IsNaNHalf(d: nat) { d % SIGN_HALF > INF_HALF }

  /** `d` is the conversion of the single `s`: the sign is kept, the magnitude is rounded to the
      nearest half, infinity stays, and NaN becomes one positive NaN. */
  ghost predicate Converts(s: nat, d: nat) {
    if IsNaNSingle(s) then d == 0x7fff
    else
      && d < 0x1_0000
      && d / SIGN_HALF == s / SIGN_SINGLE
      && Nearest(Halves(), SingleValue(s % SIGN_SINGLE), d % SIGN_HALF)
  }

  lemma {:induction false} Pow2Shift(k: nat)
    ensures Pow2(k + 13) == 8192 * Pow2(k)
  {
    Pow2Add(k, 13);
    assert Pow2(13) == 8192;
  }

  lemma {:induction false} SplitSignificand(m: nat, w: nat)
    ensures (0x80_0000 + m) * w == (1024 + m / 0x2000) * (8192 * w) + (m % 0x2000) * w
  {
    var q, rem := m / 0x2000, m % 0x2000;
    assert 0x80_0000 + m == (1024 + q) * 8192 + rem;
    Distribute((1024 + q) * 8192, rem, w);
    assert (1024 + q) * 8192 * w == (1024 + q) * (8192 * w);
  }

  lemma {:induction false} NormalHalf(e: nat, q: nat)
    requires 113 <= e <= 142 && q < 1024
    ensures var u := (e - 112) * 1024 + q; var vs := Halves();
            u + 1 < |vs| && vs[u] == (1024 + q) * Pow2(e + 12) && vs[u + 1] == vs[u] + Pow2(e + 12)
  {
    var u := (e - 112) * 1024 + q;
    assert u / 1024 == e - 112 && u % 1024 == q;
    HalfNext(u);
  }

  /** A single that is normal as a half. */
  lemma {:induction false} RoundsNormal(e: nat, m: nat, up: bool)
    requires 113 <= e <= 142 && m < 0x80_0000
    requires var u := (e - 112) * 1024 + m / 0x2000; var rem := m % 0x2000;
             up <==> rem > 0x1000 || (rem == 0x1000 && u % 2 == 1)
    ensures var u := (e - 112) * 1024 + m / 0x2000;
            Nearest(Halves(), (0x80_0000 + m) * Pow2(e - 1), if up then u + 1 else u)
  {
    var q, rem, w := m / 0x2000, m % 0x2000, Pow2(e - 1);
    var u := (e - 112) * 1024 + q;
    NormalHalf(e, q);
    Pow2Shift(e - 1);
    SplitSignificand(m, w);
    HalvesIncreasing();
    RoundRemainder(Halves(), (0x80_0000 + m) * w, u, rem, 0x1000, w, up);
  }

  lemma {:induction false} AtLeast(m: nat, p: nat, q: nat)
    requires p >= q
    ensures (0x80_0000 + m) * p >= 0x80_0000 * q
  {
    Distribute(0x80_0000, m, p);
  }

  lemma {:induction false} InfinityValue(u: nat, k: nat)
    requires u == INF_HALF && k == 142
    ensures HalfValue(u) == 0x80_0000 * Pow2(k)
  {
    assert u / 1024 == 31 && u % 1024 == 0;
    Pow2Shift(k);
    assert Pow2(124 + u / 1024) == Pow2(k + 13);
  }

  /** From 2^16 on, infinity included, everything rounds to infinity. */
  lemma {:induction false} RoundsToInfinity(e: nat, m: nat)
    requires 143 <= e
    ensures Nearest(Halves(), (0x80_0000 + m) * Pow2(e - 1), INF_HALF)
  {
    var k: nat := 142;
    InfinityValue(INF_HALF, k);
    Pow2Monotone(k, e - 1);
    AtLeast(m, Pow2(e - 1), Pow2(k));
    HalvesIncreasing();
  }

  lemma {:induction false} CompareHalf(r: nat, d: nat, low: nat)
    requires r < 0x2000 && low < d
    ensures var rem, h := r * d + low, 0x1000 * d;
            && 0 <= rem < 2 * h
            && (rem > h <==> r > 0x1000 || (r == 0x1000 && low > 0))
            && (rem == h <==> r == 0x1000 && low == 0)
  {
    Distribute(r, 1, d);
    if r + 1 < 0x2000 { MulLess(r + 1, 0x2000, d); }
    if r + 1 < 0x1000 { MulLess(r + 1, 0x1000, d); }
    if r > 0x1000 { MulLess(0x1000, r, d); }
  }

  lemma {:induction false} RoundBit(high: nat)
    ensures var r := high % 0x2000;
            (high / 0x1000 % 2 == 1 <==> r >= 0x1000) && (r >= 0x1000 ==> (high % 0x1000 == 0 <==> r == 0x1000))
  {
  }

  /** The bits shifted out and those below the last place, as one remainder. */
  lemma {:induction false} Remainder(mant: nat, d: nat)
    requires d > 0
    ensures var high, low := mant / d, mant % d;
            mant == high / 0x2000 * (2 * (0x1000 * d)) + (high % 0x2000 * d + low)
  {
    var high, low := mant / d, mant % d;
    var q, r := high / 0x2000, high % 0x2000;
    assert mant == high * d + low;
    assert high == q * 0x2000 + r;
    Distribute(q * 0x2000, r, d);
    assert q * 0x2000 * d == q * (2 * (0x1000 * d));
  }

  /** The exponents of a shifted significand add up to the unit of subnormal halves. */
  lemma {:induction false} ShiftedUnit(e: nat, k: nat)
    requires 1 <= e && 1 <= k && e + k == 113
    ensures 2 * (0x1000 * Pow2(k)) * Pow2(e - 1) == Pow2(e + k + 12)
  {
    Pow2Add(k, e - 1);
    Pow2Shift(k + e - 1);
    assert 2 * (0x1000 * Pow2(k)) * Pow2(e - 1) == 8192 * (Pow2(k) * Pow2(e - 1));
  }

  lemma {:induction false} SubnormalHalf(u: nat, k: nat)
    requires u < 1024 && k == 125
    ensures var vs := Halves(); u + 1 < |vs| && vs[u] == u * Pow2(k) && vs[u + 1] == vs[u] + Pow2(k)
  {
    HalfNext(u);
  }

  lemma {:induction false} ShiftBound(mant: nat, d: nat)
    requires mant < 0x100_0000 && d >= 2
    ensures mant / d < 0x80_0000
  {
    assert mant == mant / d * d + mant % d;
  }

  lemma {:induction false} RoundsParts(u: nat, rem: nat, h: nat, w: nat, k: nat, up: bool)
    requires u < 1024 && rem < 2 * h && w > 0 && k == 125 && 2 * h * w == Pow2(k)
    requires up <==> rem > h || (rem == h && u % 2 == 1)
    ensures Nearest(Halves(), (u * (2 * h) + rem) * w, if up then u + 1 else u)
  {
    SubnormalHalf(u, k);
    Placed(u, h, rem, w);
    HalvesIncreasing();
    RoundRemainder(Halves(), (u * (2 * h) + rem) * w, u, rem, h, w, up);
  }

  /** A single that is subnormal as a half, or rounds up from there to the smallest normal one. */
  lemma {:induction false} RoundsSubnormal(e: nat, k: nat, mant: nat, d: nat, high: nat, low: nat, up: bool)
    requires 1 <= e && 1 <= k && e + k == 113 && mant < 0x100_0000
    requires d == Pow2(k) && high == mant / d && low == mant % d
    requires up <==> high / 0x1000 % 2 == 1 && (low != 0 || high % 0x1000 != 0 || high / 0x2000 % 2 == 1)
    ensures high / 0x2000 < 1024
    ensures Nearest(Halves(), mant * Pow2(e - 1), if up then high / 0x2000 + 1 else high / 0x2000)
  {
    ShiftBound(mant, d);
    Remainder(mant, d);
    ShiftedUnit(e, k);
    RoundsUp(high, low, d, up);
    RoundsParts(high / 0x2000, high % 0x2000 * d + low, 0x1000 * d, Pow2(e - 1), e + k + 12, up);
  }

  lemma {:induction false} RoundsUp(high: nat, low: nat, d: nat, up: bool)
    requires high < 0x80_0000 && low < d
    requires up <==> high / 0x1000 % 2 == 1 && (low != 0 || high % 0x1000 != 0 || high / 0x2000 % 2 == 1)
    ensures var u, rem, h := high / 0x2000, high % 0x2000 * d + low, 0x1000 * d;
            u < 1024 && 0 <= rem < 2 * h && (up <==> rem > h || (rem == h && u % 2 == 1))
  {
    CompareHalf(high % 0x2000, d, low);
    RoundBit(high);
  }

  lemma {:induction false} Placed(u: nat, h: nat, rem: nat, w: nat)
    ensures (u * (2 * h) + rem) * w == u * (2 * h * w) + rem * w && 2 * h * w == 2 * (h * w)
  {
    Distribute(u * (2 * h), rem, w);
    assert u * (2 * h) * w == u * (2 * h * w);
  }

  /** Anything below half of the smallest half rounds to zero. */
  lemma {:induction false} RoundsToZero(x: int, k: nat)
    requires k == 124 && 0 <= x < Pow2(k)
    ensures Nearest(Halves(), x, 0)
  {
    SubnormalHalf(0, k + 1);
  }

  lemma {:induction false} TinySingle(e: nat, mant: nat, k: nat)
    requires 1 <= e <= 81 && mant < 0x100_0000 && k == 124
    ensures mant * Pow2(e - 1) < Pow2(k)
  {
    Pow2Monotone(e + 23, k);
    Pow2Twice(e - 1);
    MulLess(mant, 0x100_0000, Pow2(e - 1));
  }

  lemma {:induction false} Pow2Twice(k: nat)
    ensures Pow2(k + 24) == 0x100_0000 * Pow2(k)
  {
    Pow2Shift(k + 11);
    Pow2Add(k, 11);
    assert Pow2(11) == 2048;
  }

  /** The fields of a single. */
  lemma {:induction false} Fields(s: nat, g: nat, a: nat)
    requires s < 0x1_0000_0000 && g == s / SIGN_SINGLE && a == s % SIGN_SINGLE
    ensures s / 0x80_0000 % 0x100 == a / 0x80_0000 < 0x100 && s % 0x80_0000 == a % 0x80_0000
  {
    var q, r := a / 0x80_0000, a % 0x80_0000;
    assert s == (g * 256 + q) * 0x80_0000 + r;
    assert s / 0x80_0000 == g * 256 + q;
  }

  lemma {:induction false} NaNFields(a: nat)
    requires a < SIGN_SINGLE
    ensures a > INF_SINGLE <==> a / 0x80_0000 == 255 && a % 0x80_0000 != 0
    ensures a < 0x80_0000 <==> a / 0x80_0000 == 0
  {
  }

  lemma {:induction false} SignOf(s: nat, u: nat, sign: nat)
    requires s < 0x1_0000_0000 && !IsNaNSingle(s) && u <= INF_HALF && Nearest(Halves(), SingleValue(s % SIGN_SINGLE), u)
    requires sign == if s / SIGN_SINGLE == 1 then SIGN_HALF else 0
    ensures Converts(s, u + sign)
  {
    SignedFields(u, s / SIGN_SINGLE, u + sign);
  }

  /** The fields of a half with its sign. */
  lemma {:induction false} SignedFields(u: nat, g: nat, d: nat)
    requires u <= INF_HALF && g <= 1 && d == u + if g == 1 then SIGN_HALF else 0
    ensures d < 0x1_0000 && d % SIGN_HALF == u && d / SIGN_HALF == g
  {
  }

  /** The last steps of Float2HalfBits. */
  method RoundToEven(u: nat, mantissa: nat, sticky: bool) returns (r: nat)
    ensures var up := mantissa / 0x1000 % 2 == 1 && (sticky || mantissa % 0x1000 != 0 || u % 2 == 1);
            r == if up then u + 1 else u
  {
    var roundBit := mantissa / 0x1000 % 2;
    var stickyBit := sticky || mantissa % 0x1000 != 0;
    r := u;
    if (roundBit == 1 && stickyBit) || (roundBit == 1 && u % 2 == 1) {
      r := u + 1;
    }
  }

  method NormalBits(exp: int, mantissa: nat) returns (u: nat)
    requires -14 <= exp <= 15 && mantissa < 0x80_0000
    ensures u == (exp + 15) * 1024 + mantissa / 0x2000
  {
    u := (exp + 15) % 0x20 * 1024 + mantissa / 0x2000;
  }

  /** Float2HalfBits for a single that is normal as a half. */
  method NormalToHalf(exp: int, mantissa: nat) returns (u: nat)
    requires -14 <= exp <= 15 && mantissa < 0x80_0000
    ensures Nearest(Halves(), (0x80_0000 + mantissa) * Pow2(exp + 126), u)
  {
    u := NormalBits(exp, mantissa);
    ghost var rem := mantissa % 0x2000;
    RoundsNormal(exp + 127, mantissa, rem > 0x1000 || (rem == 0x1000 && u % 2 == 1));
    RoundBit(mantissa);
    u := RoundToEven(u, mantissa, false);
  }

  /** Shift right by `rshift`, with a sticky bit for what falls out. */
  method ShiftRight(mantissa: nat, rshift: nat) returns (shifted: nat, sticky: bool)
    requires mantissa < 0x100_0000 && rshift > 0
    ensures shifted == mantissa / Pow2(rshift) && sticky == (mantissa % Pow2(rshift) != 0)
    ensures shifted / 0x2000 % 0x400 == shifted / 0x2000
  {
    Pow2Even(rshift);
    shifted, sticky := Divide(mantissa, Pow2(rshift));
    FractionFits(shifted);
  }

  method Divide(mant: nat, d: nat) returns (q: nat, inexact: bool)
    requires mant < 0x100_0000 && d >= 2
    ensures q == mant / d < 0x80_0000 && inexact == (mant % d != 0)
  {
    q, inexact := mant / d, mant % d != 0;
    ShiftBound(mant, d);
  }

  lemma {:induction false} Pow2Even(k: nat)
    requires k > 0
    ensures Pow2(k) >= 2
  {
    assert Pow2(k) == 2 * Pow2(k - 1);
  }

  lemma {:induction false} FractionFits(n: nat)
    requires n < 0x80_0000
    ensures n / 0x2000 % 0x400 == n / 0x2000
  {
  }

  /** Float2HalfBits for a single that is subnormal as a half. */
  method SubnormalToHalf(e: nat, rshift: nat, mantissa: nat) returns (u: nat)
    requires 1 <= e && 1 <= rshift && e + rshift == 113 && mantissa < 0x100_0000
    ensures Nearest(Halves(), mantissa * Pow2(e - 1), u)
  {
    var shifted, sticky := ShiftRight(mantissa, rshift);
    u := shifted / 0x2000 % 0x400;
    RoundsSubnormal(e, rshift, mantissa, Pow2(rshift), shifted, mantissa % Pow2(rshift),
                    shifted / 0x1000 % 2 == 1 && (sticky || shifted % 0x1000 != 0 || u % 2 == 1));
    u := RoundToEven(u, shifted, sticky);
  }

  /** Float2HalfBits for smaller singles; `x` is the magnitude. */
  method SmallToHalf(exp: int, m: nat, ghost x: int) returns (u: nat)
    requires -127 <= exp < -14 && m < 0x80_0000
    requires x == if exp == -127 then m else (0x80_0000 + m) * Pow2(exp + 126)
    ensures Nearest(Halves(), x, u)
  {
    var rshift: nat := -14 - exp;
    if rshift < 32 {
      u := SubnormalToHalf(exp + 127, rshift, m + 0x80_0000);
      assert x == (m + 0x80_0000) * Pow2(exp + 126);
    } else {
      u := RoundToEven(0, 0, false);
      SmallIsTiny(exp, m, x, 124);
      RoundsToZero(x, 124);
    }
  }

  lemma {:induction false} SmallIsTiny(exp: int, m: nat, x: int, k: nat)
    requires -127 <= exp <= -46 && m < 0x80_0000 && k == 124
    requires x == if exp == -127 then m else (0x80_0000 + m) * Pow2(exp + 126)
    ensures 0 <= x < Pow2(k)
  {
    if exp == -127 {
      Pow2Twice(k - 24);
      MulGrows(0x100_0000, Pow2(k - 24));
    } else {
      TinySingle(exp + 127, 0x80_0000 + m, k);
      MulSign(0x80_0000 + m, Pow2(exp + 126));
    }
  }

  lemma {:induction false} MulSign(a: nat, b: nat)
    ensures a * b >= 0
  {
  }

  /** Float2HalfBits: the result is the nearest half, ties to even, overflow to infinity. */
  method Float2HalfBits(s: nat) returns (d: nat)
    requires s < 0x1_0000_0000
    ensures Converts(s, d)
  {
    var sign := if s / SIGN_SINGLE == 1 then SIGN_HALF else 0;
    var exp: int := s / 0x80_0000 % 0x100 - 127;
    var mantissa := s % 0x80_0000;
    var a := s % SIGN_SINGLE;
    Fields(s, s / SIGN_SINGLE, a);
    NaNFields(a);
    if exp > 15 && exp == 128 && mantissa != 0 {
      return 0x7fff;
    }
    var u := Magnitude(a, exp, mantissa);
    SignOf(s, u, sign);
    d := u + sign;
  }

  method Magnitude(a: nat, exp: int, mantissa: nat) returns (u: nat)
    requires a < SIGN_SINGLE && exp == a / 0x80_0000 - 127 && mantissa == a % 0x80_0000
    ensures u <= INF_HALF && Nearest(Halves(), SingleValue(a), u)
  {
    NaNFields(a);
    if a == 0 {
      u := 0;
      SmallIsTiny(-127, 0, 0, 124);
      RoundsToZero(0, 124);
    } else if exp > 15 {
      u := 0x7c00;
      RoundsToInfinity(exp + 127, mantissa);
    } else if exp >= -14 {
      u := NormalToHalf(exp, mantissa);
    } else {
      u := SmallToHalf(exp, mantissa, SingleValue(a));
    }
  }

  // ---------------------------------------------------------------- half to single

  /** `f` is the half `h` as a single: sign and magnitude are kept, infinity stays, and NaN
      becomes one NaN. */
  ghost predicate Widens(h: nat, f: nat) {
    if IsNaNHalf(h) then f == 0x7fff_ffff
    else
      && f < 0x1_0000_0000 && f / SIGN_SINGLE == h / SIGN_HALF && !IsNaNSingle(f)
      && if h % SIGN_HALF == INF_HALF then f % SIGN_SINGLE == INF_SINGLE
         else f % SIGN_SINGLE < INF_SINGLE && SingleValue(f % SIGN_SINGLE) == HalfValue(h % SIGN_HALF)
  }

  lemma {:induction false} Compose(e: nat, q: nat, a: nat)
    requires 1 <= e <= 142 && q < 1024 && a == e * 0x80_0000 + q * 0x2000
    ensures a < INF_SINGLE && a / 0x80_0000 == e && a % 0x80_0000 == q * 0x2000
    ensures SingleValue(a) == (1024 + q) * Pow2(e + 12)
  {
    assert a / 0x80_0000 == e && a % 0x80_0000 == q * 0x2000;
    Pow2Shift(e - 1);
    ComposeScaled(q, Pow2(e - 1));
  }

  lemma {:induction false} ComposeScaled(q: nat, w: nat)
    ensures (0x80_0000 + q * 0x2000) * w == (1024 + q) * (8192 * w)
  {
    assert 0x80_0000 + q * 0x2000 == (1024 + q) * 8192;
    assert (1024 + q) * 8192 * w == (1024 + q) * (8192 * w);
  }

  lemma {:induction false} HalfFields(h: nat, u: nat)
    requires h < 0x1_0000 && u == h % SIGN_HALF
    ensures h / 1024 % 0x20 == u / 1024 && h % 1024 == u % 1024
    ensures (u > INF_HALF <==> u / 1024 == 31 && u % 1024 != 0) && (u == INF_HALF <==> u / 1024 == 31 && u % 1024 == 0)
  {
    var g := h / SIGN_HALF;
    assert h == (g * 32 + u / 1024) * 1024 + u % 1024;
    assert h / 1024 == g * 32 + u / 1024;
  }

  lemma {:induction false} WidenSign(h: nat, a: nat, sign: nat)
    requires h < 0x1_0000 && !IsNaNHalf(h) && sign == h / SIGN_HALF && a < SIGN_SINGLE
    requires if h % SIGN_HALF == INF_HALF then a == INF_SINGLE
             else a < INF_SINGLE && SingleValue(a) == HalfValue(h % SIGN_HALF)
    ensures Widens(h, sign * SIGN_SINGLE + a)
  {
    var f := sign * SIGN_SINGLE + a;
    assert f / SIGN_SINGLE == sign && f % SIGN_SINGLE == a;
  }

  lemma {:induction false} NormalizeNext(fraction: nat, mantissa: nat, shifts: nat)
    requires shifts <= 10 && mantissa == fraction * Pow2(shifts) && Pow2(shifts) <= mantissa < 2048
    requires mantissa / 1024 % 2 == 0
    ensures shifts < 10 && mantissa * 2 == fraction * Pow2(shifts + 1) && Pow2(shifts + 1) <= mantissa * 2 < 2048
  {
    assert Pow2(shifts + 1) == 2 * Pow2(shifts);
    MulTwice(fraction, Pow2(shifts));
    ShiftsLeft(shifts, mantissa);
  }

  /** The normalizing loop for subnormal halves. */
  method Normalize(fraction: nat) returns (exp: nat, mantissa: nat)
    requires 0 < fraction < 1024
    ensures 103 <= exp <= 113 && 1024 <= mantissa < 2048 && mantissa == fraction * Pow2(113 - exp)
  {
    exp, mantissa := 113, fraction;
    ghost var shifts := 0;
    while mantissa / 1024 % 2 == 0
      invariant shifts == 113 - exp <= 10 && mantissa == fraction * Pow2(shifts) && Pow2(shifts) <= mantissa < 2048
      decreases 2048 - mantissa
    {
      NormalizeNext(fraction, mantissa, shifts);
      mantissa := mantissa * 2;
      exp := exp - 1;
      shifts := shifts + 1;
    }
  }

  lemma {:induction false} ShiftsLeft(shifts: nat, mantissa: nat)
    requires shifts <= 10 && Pow2(shifts) <= mantissa < 1024
    ensures shifts < 10
  {
    assert Pow2(10) == 1024;
  }

  lemma {:induction false} SubnormalExact(fraction: nat, exp: nat, mantissa: nat)
    requires 0 < fraction < 1024 && 103 <= exp <= 113 && 1024 <= mantissa < 2048
             && mantissa == fraction * Pow2(113 - exp)
    ensures mantissa * Pow2(exp + 12) == fraction * Pow2(125)
  {
    var shifts: nat := 113 - exp;
    Pow2Add(shifts, exp + 12);
    assert shifts + (exp + 12) == 125;
    MulAssoc(fraction, Pow2(shifts), Pow2(exp + 12));
  }

  /** HalfBits2Float: the conversion is exact. */
  method HalfBits2Float(h: nat) returns (f: nat)
    requires h < 0x1_0000
    ensures Widens(h, f)
  {
    var sign := h / SIGN_HALF;
    var exp := h / 1024 % 0x20;
    var mantissa := h % 1024;
    ghost var u := h % SIGN_HALF;
    HalfFields(h, u);
    var a;
    if exp > 0 && exp < 31 {
      a := (exp + 112) * 0x80_0000 + mantissa * 0x2000;
      Compose(exp + 112, mantissa, a);
    } else if exp == 0 {
      a := SubnormalToSingle(mantissa);
    } else {
      if mantissa != 0 {
        return 0x7fff_ffff;
      }
      a := 0xff * 0x80_0000;
    }
    WidenSign(h, a, sign);
    f := sign * SIGN_SINGLE + a;
  }

  method SubnormalToSingle(fraction: nat) returns (a: nat)
    requires fraction < 1024
    ensures a < INF_SINGLE && SingleValue(a) == Scaled(0, fraction)
  {
    if fraction != 0 {
      var exp, mantissa := Normalize(fraction);
      a := exp * 0x80_0000 + mantissa % 1024 * 0x2000;
      Compose(exp, mantissa - 1024, a);
      SubnormalExact(fraction, exp, mantissa);
    } else {
      a := 0;
    }
  }

  // ---------------------------------------------------------------- laws of the conversions

  /** Converting a half that is not NaN to a single and back gives it back. */
  lemma {:induction false} RoundTrip(h: nat, f: nat, d: nat)
    requires h < 0x1_0000 && !IsNaNHalf(h) && Widens(h, f) && Converts(f, d)
    ensures d == h
  {
    var u := h % SIGN_HALF;
    HalvesIncreasing();
    if u == INF_HALF {
      InfinitySingle(f % SIGN_SINGLE);
      NearestUnique(Halves(), SingleValue(f % SIGN_SINGLE), d % SIGN_HALF, u);
    } else {
      NearestExact(Halves(), u);
      NearestUnique(Halves(), HalfValue(u), d % SIGN_HALF, u);
    }
    assert h == h / SIGN_HALF * SIGN_HALF + u && d == d / SIGN_HALF * SIGN_HALF + d % SIGN_HALF;
  }

  lemma {:induction false} InfinitySingle(a: nat)
    requires a == INF_SINGLE
    ensures Nearest(Halves(), SingleValue(a), INF_HALF)
  {
    assert a / 0x80_0000 == 255 && a % 0x80_0000 == 0;
    RoundsToInfinity(255, 0);
  }

  function SignedSingle(s: nat): int {
    if s / SIGN_SINGLE == 1 then 0 - SingleValue(s % SIGN_SINGLE) else SingleValue(s % SIGN_SINGLE)
  }

  /** Infinity counts as 2^16. */
  function SignedHalf(d: nat): int {
    if d / SIGN_HALF == 1 then 0 - HalfValue(d % SIGN_HALF) else HalfValue(d % SIGN_HALF)
  }

  /** The conversion to half is monotone. */
  lemma {:induction false} ConvertsMonotone(s: nat, t: nat, d: nat, e: nat)
    requires !IsNaNSingle(s) && !IsNaNSingle(t) && Converts(s, d) && Converts(t, e)
    requires SignedSingle(s) <= SignedSingle(t)
    ensures SignedHalf(d) <= SignedHalf(e)
  {
    var x, y := SingleValue(s % SIGN_SINGLE), SingleValue(t % SIGN_SINGLE);
    var u, v := d % SIGN_HALF, e % SIGN_HALF;
    if x <= y { MagnitudesMonotone(x, y, u, v); }
    if y <= x { MagnitudesMonotone(y, x, v, u); }
    MagnitudesMonotone(0, x, 0, u) by { ZeroIsZero(); }
    MagnitudesMonotone(0, y, 0, v) by { ZeroIsZero(); }
    if x == 0 { ZeroOnly(u); }
    if y == 0 { ZeroOnly(v); }
  }

  lemma {:induction false} MagnitudesMonotone(x: int, y: int, u: nat, v: nat)
    requires x <= y && Nearest(Halves(), x, u) && Nearest(Halves(), y, v)
    ensures HalfValue(u) <= HalfValue(v)
  {
    HalvesIncreasing();
    NearestMonotone(Halves(), x, y, u, v);
    if u < v { HalvesIncrease(u, v); }
  }

  lemma {:induction false} ZeroIsZero()
    ensures Nearest(Halves(), 0, 0) && HalfValue(0) == 0
  {
    HalvesIncreasing();
    assert Halves()[0] == HalfValue(0) == 0;
    NearestExact(Halves(), 0);
  }

  lemma {:induction false} ZeroOnly(u: nat)
    requires Nearest(Halves(), 0, u)
    ensures HalfValue(u) == 0
  {
    ZeroIsZero();
    HalvesIncreasing();
    NearestUnique(Halves(), 0, 0, u);
  }

  // ---------------------------------------------------------------- the sum

  /** `d` is the half that float16_sum stores for `a` (in inout) and `b` (in in), when singles are
      added by `add`. */
  ghost predicate SumOf(add: (nat, nat) -> nat, a: nat, b: nat, d: nat) {
    exists f, g :: Widens(a, f) && Widens(b, g) && Converts(add(f, g), d)
  }

  /** One step of the loop of float16_sum. */
  method SumOne(x: nat, y: nat, add: (nat, nat) -> nat) returns (half: nat)
    requires x < 0x1_0000 && y < 0x1_0000 && forall x, y :: add(x, y) < 0x1_0000_0000
    ensures SumOf(add, x, y, half)
  {
    var inFloat := HalfBits2Float(y);
    var inoutFloat := HalfBits2Float(x);
    half := Float2HalfBits(add(inoutFloat, inFloat));
  }

  /** The scalar loop of float16_sum. */
  method Float16Sum(input: array<nat>, inout: array<nat>, len: nat, add: (nat, nat) -> nat)
    requires len <= input.Length && len <= inout.Length && input != inout
    requires forall i :: 0 <= i < len ==> input[i] < 0x1_0000 && inout[i] < 0x1_0000
    requires forall x, y :: add(x, y) < 0x1_0000_0000
    modifies inout
    ensures forall i :: 0 <= i < len ==> SumOf(add, old(inout[i]), input[i], inout[i])
    ensures forall i :: len <= i < inout.Length ==> inout[i] == old(inout[i])
  {
    for i := 0 to len
      invariant forall j :: 0 <= j < i ==> SumOf(add, old(inout[j]), input[j], inout[j])
      invariant forall j :: i <= j < inout.Length ==> inout[j] == old(inout[j])
    {
      inout[i] := SumOne(inout[i], input[i], add);
    }
  }
}
