/** I2S_Init, Libraries/STM32F10x_StdPeriph_Driver/src/stm32f10x_spi.c:218-362: the audio clock divider
    is computed in tenths with 16-bit truncation and packed with two flag bits. */
module I2sInit {
  import opened Words

  // ----- Source clock -----

  const HSE_VALUE := 25_000_000
  const U32 := 0x1_0000_0000

  /** The multiplier settings of PLL3 that the clock header offers, with their code and factor. */
  datatype Pll3Mul = X8 | X9 | X10 | X11 | X12 | X13 | X14 | X16 | X20

  function Code(m: Pll3Mul): nat {
    match m
    case X8 => 6 case X9 => 7 case X10 => 8 case X11 => 9 case X12 => 10 case X13 => 11 case X14 => 12
    case X16 => 14 case X20 => 15
  }

  function Factor(m: Pll3Mul): nat {
    match m
    case X8 => 8 case X9 => 9 case X10 => 10 case X11 => 11 case X12 => 12 case X13 => 13 case X14 => 14
    case X16 => 16 case X20 => 20
  }

  predicate FromPll3(cfgr2: Word, spi2: bool) {
    cfgr2[if spi2 then 17 else 18]
  }

  /** The oscillator divided by one more than bits 4-7. */
  function Predivided(cfgr2: Word): (r: nat)
    ensures r <= HSE_VALUE
  {
    HSE_VALUE / (Number4(cfgr2, 4) + 1)
  }

  method Multiplier(field: nat) returns (tmp: nat)
    requires field < 16
    ensures tmp <= 20 && forall m: Pll3Mul :: Code(m) == field ==> tmp == Factor(m)
    ensures tmp == if 5 < field < 15 then field + 2 else if field == 15 then 20 else field
  {
    tmp := field;
    if tmp > 5 && tmp < 15 {
      tmp := tmp + 2;
    } else if tmp == 15 {
      tmp := 20;
    }
  }

  method Pll3Clock(cfgr2: Word) returns (clock: nat)
    ensures forall m: Pll3Mul :: Code(m) == Number4(cfgr2, 12) ==> clock == Predivided(cfgr2) * Factor(m) * 2
    ensures var k := Number4(cfgr2, 12);
            clock == 25_000_000 / (Number4(cfgr2, 4) + 1) * (if 5 < k < 15 then k + 2 else if k == 15 then 20 else k) * 2
    ensures clock <= 1_000_000_000
  {
    var tmp := Multiplier(Number4(cfgr2, 12));
    var p := Predivided(cfgr2);
    PllBound(p, tmp);
    clock := p * tmp * 2;
    forall m: Pll3Mul | Code(m) == Number4(cfgr2, 12) ensures clock == p * Factor(m) * 2 {
      assert tmp == Factor(m);
    }
  }

  /** Reads bits 12-15 (multiplier), 4-7 (predivider less one) and the source bit of the peripheral;
      the value of SYSCLK is a parameter. Every product stays below 2^32. */
  method SourceClock(cfgr2: Word, spi2: bool, sysclk: nat) returns (sourceclock: nat)
    requires sysclk < U32
    ensures !FromPll3(cfgr2, spi2) ==> sourceclock == sysclk
    ensures FromPll3(cfgr2, spi2) ==>
              forall m: Pll3Mul :: Code(m) == Number4(cfgr2, 12) ==>
                sourceclock == Predivided(cfgr2) * Factor(m) * 2
    ensures FromPll3(cfgr2, spi2) ==> sourceclock <= 1_000_000_000
    ensures var k := Number4(cfgr2, 12);
            sourceclock == if !cfgr2[if spi2 then 17 else 18] then sysclk else
                             25_000_000 / (Number4(cfgr2, 4) + 1) * (if 5 < k < 15 then k + 2 else if k == 15 then 20 else k) * 2
    ensures sourceclock < U32
  {
    var bit := if spi2 then 17 else 18;
    SingleBit(cfgr2, bit);
    if And(cfgr2, Shl(ONE, bit)) != ZERO {
      sourceclock := Pll3Clock(cfgr2);
    } else {
      sourceclock := sysclk;
    }
  }

  lemma SingleBit(w: Word, j: nat)
    requires j < 32
    ensures And(w, Shl(ONE, j)) != ZERO <==> w[j]
  {
  }

  lemma PllBound(a: nat, m: nat)
    requires a <= HSE_VALUE && m <= 20
    ensures a * m <= HSE_VALUE * 20
  {
    Difference(a, HSE_VALUE, m);
    Scale(HSE_VALUE, m, 20);
  }

  // ----- The divider -----

  /** The clock that the divider divides: one period per sample at 256 or 32 ticks per channel. */
  function Scaled(sourceclock: nat, mclk: bool, packetlength: nat): nat
    requires packetlength in {1, 2}
  {
    if mclk then sourceclock / 256 else if packetlength == 1 then sourceclock / 32 else sourceclock / 64
  }

  /** floor(s / f + 1/2) */
  function Rounded(s: nat, f: nat): nat
    requires f > 0
  {
    (2 * s + f) / (2 * f)
  }

  /** The divider in tenths, plus the five that rounds. */
  function Tenths(s: nat, f: nat): nat
    requires f > 0
  {
    s * 10 / f + 5
  }

  /** What the code keeps of it: sixteen bits, then whole units. */
  function Kept(s: nat, f: nat): nat
    requires f > 0
  {
    Tenths(s, f) % 0x10000 / 10
  }

  // Products, one at a time.

  lemma Scale(f: nat, a: int, b: int)
    requires a <= b
    ensures f * a <= f * b
  {
  }

  lemma Spread(a: int, b: int, c: int, e: int)
    ensures (a - b) * (c + e) == a * c + a * e - b * c - b * e
  {
    assert (a - b) * (c + e) == a * (c + e) - b * (c + e);
  }

  lemma Steps(f: nat, d: int, n: int)
    ensures n > d ==> n * f >= d * f + f
    ensures n < d ==> n * f <= d * f - f
    ensures n < d - 1 ==> n * f <= d * f - 2 * f
  {
    if n > d {
      Scale(f, d + 1, n);
    } else if n < d - 1 {
      Scale(f, n, d - 2);
    } else if n < d {
      assert n == d - 1;
    }
  }

  /** q is n / m exactly when m * q <= n < m * q + m. */
  lemma Quotient(n: nat, m: nat, q: nat)
    requires m > 0
    ensures q == n / m <==> m * q <= n < m * q + m
  {
    var e := n / m;
    assert m * e <= n < m * e + m;
    if q < e {
      assert m * q + m == m * (q + 1) <= m * e;
    } else if e < q {
      assert m * e + m == m * (e + 1) <= m * q;
    }
  }

  /** Bounds that characterise the rounded quotient. */
  lemma RoundedBounds(s: nat, f: nat, d: nat)
    requires f > 0
    ensures d == Rounded(s, f) <==> 2 * (d * f) <= 2 * s + f < 2 * (d * f) + 2 * f
  {
    Quotient(2 * s + f, 2 * f, d);
    assert (2 * f) * d == 2 * (d * f);
  }

  /** Rounding in tenths is rounding, when nothing is lost. */
  lemma TenthsRound(s: nat, f: nat)
    requires f > 0
    ensures Tenths(s, f) / 10 == Rounded(s, f)
  {
    var q := s * 10 / f;
    Quotient(s * 10, f, q);
    var d := (q + 5) / 10;
    TenthsBounds(s, f, q, d);
    RoundedBounds(s, f, d);
  }

  lemma TenthsBounds(s: nat, f: nat, q: nat, d: nat)
    requires f * q <= 10 * s < f * q + f && 10 * d <= q + 5 < 10 * d + 10
    ensures 2 * (d * f) <= 2 * s + f < 2 * (d * f) + 2 * f
  {
    TenthsLow(f, q, d);
    TenthsHigh(f, q, d);
    FifthOf(s, f, f * q, d * f);
  }

  lemma TenTimes(f: nat, d: nat)
    ensures f * (10 * d) == 10 * (d * f)
  {
  }

  lemma TenthsLow(f: nat, q: nat, d: nat)
    requires 10 * d <= q + 5
    ensures 10 * (d * f) <= f * q + 5 * f
  {
    Scale(f, 10 * d, q + 5);
    Spread(f, 0, q, 5);
    TenTimes(f, d);
  }

  lemma TenthsHigh(f: nat, q: nat, d: nat)
    requires q + 5 < 10 * d + 10
    ensures f * q + 6 * f <= 10 * (d * f) + 10 * f
  {
    Scale(f, q + 6, 10 * d + 10);
    Spread(f, 0, q, 6);
    Spread(f, 0, 10 * d, 10);
    TenTimes(f, d);
  }

  lemma FifthOf(s: int, f: int, fq: int, df: int)
    requires fq <= 10 * s < fq + f && 10 * df <= fq + 5 * f && fq + 6 * f <= 10 * df + 10 * f
    ensures 2 * df <= 2 * s + f < 2 * df + 2 * f
  {
  }

  /** The kept divider is the rounded quotient if and only if the sixteen bits suffice. */
  lemma KeptExact(s: nat, f: nat)
    requires f > 0
    ensures Kept(s, f) == Rounded(s, f) <==> Tenths(s, f) < 0x10000
  {
    TenthsRound(s, f);
  }

  /** No integer divider is nearer to s / f than the rounded one; only one tied with it from below. */
  lemma RoundedIsNearest(s: nat, f: nat, n: int)
    requires f > 0
    ensures var d := Rounded(s, f);
            && Abs(s - d * f) <= Abs(s - n * f)
            && (n != d && Abs(s - d * f) == Abs(s - n * f) ==> n == d - 1)
  {
    var d := Rounded(s, f);
    RoundedBounds(s, f, d);
    Steps(f, d, n);
  }

  function Abs(x: int): nat {
    if x < 0 then -x else x
  }

  // ----- The frequency the divider gives -----

  /** |s / d - f| <= |s / n - f|, multiplied out. */
  predicate NoFurther(s: nat, f: nat, d: nat, n: nat) {
    Abs(s - d * f) * n <= Abs(s - n * f) * d
  }

  /** s / f is at most the harmonic midpoint 2d(d+1)/(2d+1) of d and d + 1. */
  predicate BelowMidpoint(s: nat, f: nat, d: nat) {
    s * (2 * d + 1) <= 2 * f * (d * (d + 1))
  }

  /** The header comment promises the most accurate audio frequency. When the clock to be divided is
      really n / m, of which the code keeps a whole number s that is no larger, the divider nearest to
      s / f gives that frequency exactly when n / m is at most the harmonic midpoint, which lies a little
      under the arithmetic one. */
  lemma FrequencyNearestExactly(n: nat, m: nat, s: nat, f: nat, d: nat)
    requires f > 0 && m > 0 && s * m <= n && d == Rounded(s, f) && d > 0
    ensures (forall e: nat :: e > 0 ==> NoFurther(n, m * f, d, e)) <==> BelowMidpoint(n, m * f, d)
  {
    RoundedBounds(s, f, d);
    TimesTicks(n, m, s, f, d);
    NearestFrom(n, m * f, d);
  }

  lemma TimesTicks(n: nat, m: nat, s: nat, f: nat, d: nat)
    requires 2 * (d * f) <= 2 * s + f && s * m <= n && m > 0 && f > 0
    ensures 2 * (d * (m * f)) <= 2 * n + m * f && m * f > 0
  {
    Scale(m, 2 * (d * f), 2 * s + f);
    Scale(m, 1, f);
    assert m * (2 * (d * f)) == 2 * (d * (m * f)) by {
      assert m * (d * f) == d * (m * f);
    }
    assert m * (2 * s + f) == 2 * (s * m) + m * f;
  }

  lemma NearestFrom(s: nat, f: nat, d: nat)
    requires 2 * (d * f) <= 2 * s + f && f > 0 && d > 0
    ensures (forall n: nat :: n > 0 ==> NoFurther(s, f, d, n)) <==> BelowMidpoint(s, f, d)
  {
    if BelowMidpoint(s, f, d) {
      forall n: nat | n > 0 ensures NoFurther(s, f, d, n) {
        if n > d {
          FrequencyAbove(s, f, d, n - d);
        } else if n < d {
          FrequencyBelow(s, f, d, d - n);
        }
      }
    } else {
      FrequencyNext(s, f, d);
    }
  }

  /** Clock ticks per sample. */
  function Ticks(mclk: bool, packetlength: nat): (m: nat)
    requires packetlength in {1, 2}
    ensures m > 0
  {
    if mclk then 256 else 32 * packetlength
  }

  lemma ScaledFloors(c: nat, mclk: bool, packetlength: nat)
    requires packetlength in {1, 2}
    ensures Scaled(c, mclk, packetlength) == c / Ticks(mclk, packetlength)
    ensures Scaled(c, mclk, packetlength) * Ticks(mclk, packetlength) <= c
  {
  }

  /** On SYSCLK: the condition is on the clock itself, not on what is left after the first division. */
  lemma SysclkNearestExactly(sysclk: nat, mclk: bool, packetlength: nat, f: nat, d: nat)
    requires packetlength in {1, 2} && f > 0 && d == Rounded(Scaled(sysclk, mclk, packetlength), f) && d > 0
    ensures (forall e: nat :: e > 0 ==> NoFurther(sysclk, Ticks(mclk, packetlength) * f, d, e))
            <==> BelowMidpoint(sysclk, Ticks(mclk, packetlength) * f, d)
  {
    ScaledFloors(sysclk, mclk, packetlength);
    FrequencyNearestExactly(sysclk, Ticks(mclk, packetlength), Scaled(sysclk, mclk, packetlength), f, d);
  }

  /** On PLL3 likewise: the oscillator divided by p is also cut to a whole number first. */
  lemma Pll3NearestExactly(p: nat, mul: Pll3Mul, mclk: bool, packetlength: nat, f: nat, d: nat)
    requires packetlength in {1, 2} && 0 < p && f > 0
    requires d == Rounded(Scaled(HSE_VALUE / p * Factor(mul) * 2, mclk, packetlength), f) && d > 0
    ensures var n, m := HSE_VALUE * Factor(mul) * 2, p * Ticks(mclk, packetlength);
            (forall e: nat :: e > 0 ==> NoFurther(n, m * f, d, e)) <==> BelowMidpoint(n, m * f, d)
  {
    var c, t := HSE_VALUE / p * Factor(mul) * 2, Ticks(mclk, packetlength);
    var s := Scaled(c, mclk, packetlength);
    ScaledFloors(c, mclk, packetlength);
    Pll3Floors(p, Factor(mul), s, t);
    FrequencyNearestExactly(HSE_VALUE * Factor(mul) * 2, p * t, s, f, d);
  }

  lemma Pll3Floors(p: nat, mul: nat, s: nat, t: nat)
    requires p > 0 && t > 0 && s * t <= HSE_VALUE / p * mul * 2
    ensures p * t > 0 && s * (p * t) <= HSE_VALUE * mul * 2
  {
    var q := HSE_VALUE / p;
    assert q * mul * 2 == q * (mul * 2) && HSE_VALUE * mul * 2 == HSE_VALUE * (mul * 2);
    CutTwice(HSE_VALUE, p, q, mul * 2, s, t);
    Scale(p, 1, t);
  }

  lemma CutTwice(h: nat, p: nat, q: nat, k: nat, s: nat, t: nat)
    requires p > 0 && q == h / p && s * t <= q * k
    ensures s * (p * t) <= h * k
  {
    Quotient(h, p, q);
    Scale(p, s * t, q * k);
    assert p * (s * t) == s * (p * t) && p * (q * k) == (p * q) * k;
    Difference(p * q, h, k);
  }

  /** The two sides of NoFurther in the products of s, d, f and k. */
  lemma Sides(s: int, f: int, d: int, k: int)
    ensures (s - d * f) * (d + k) == s * d + s * k - d * f * d - d * f * k
    ensures (s - (d + k) * f) * d == s * d - d * f * d - d * f * k
  {
    Spread(s, d * f, d, k);
    Spread(0, -(d + k), f, 0);
    assert (d + k) * f == d * f + k * f;
    Spread(s, d * f + k * f, d, 0);
    assert (d * f + k * f) * d == d * f * d + k * f * d;
    Rotate(k, f, d);
  }

  lemma Rotate(k: int, f: int, d: int)
    ensures k * f * d == d * f * k
  {
    assert k * f * d == (f * d) * k;
  }

  lemma Midpoint(s: nat, f: nat, d: nat)
    ensures BelowMidpoint(s, f, d) <==> 2 * (s * d) + s <= 2 * (d * f * d) + 2 * (d * f)
  {
    assert s * (2 * d + 1) == 2 * (s * d) + s;
    assert d * (d + 1) == d * d + d;
    assert 2 * f * (d * d + d) == 2 * f * (d * d) + 2 * f * d;
    assert f * (d * d) == d * f * d;
  }

  /** So s / f lies below d + 1. */
  lemma MidpointIsBelowNext(s: nat, f: nat, d: nat)
    requires 2 * (s * d) + s <= 2 * (d * f * d) + 2 * (d * f) && d > 0 && f > 0
    ensures s < d * f + f
  {
    assert (d * f + f) * d == d * f * d + d * f;
    if s >= d * f + f {
      Difference(d * f + f, s, d);
    }
  }

  lemma FrequencyAbove(s: nat, f: nat, d: nat, k: nat)
    requires 2 * (d * f) <= 2 * s + f && d > 0 && k > 0 && f > 0
    requires BelowMidpoint(s, f, d)
    ensures NoFurther(s, f, d, d + k)
  {
    Sides(s, f, d, k);
    Midpoint(s, f, d);
    MidpointIsBelowNext(s, f, d);
    Steps(f, d, d + k);
    AboveSum(s, d * f, d, k) by { Scale(f, 1, d); }
    AbsTimes(s - d * f, d + k, d * f * d + d * f * k - s * d);
    AbsIs(s - (d + k) * f, d);
  }

  lemma AboveSum(s: nat, df: nat, d: nat, k: nat)
    requires k > 0 && s <= 2 * df && 2 * (s * d) + s <= 2 * (df * d) + 2 * df
    ensures s * d + s * k - df * d - df * k <= df * d + df * k - s * d
    ensures df * d + df * k - s * d - s * k <= df * d + df * k - s * d
  {
    Difference(s, 2 * df, k - 1);
    Spread(s, 0, k, -1);
    Spread(2 * df, 0, k, -1);
    assert (2 * df) * k == 2 * (df * k);
    Difference(0, s, k);
  }

  lemma AbsTimes(x: int, n: nat, bound: int)
    requires x * n <= bound && -(x * n) <= bound
    ensures Abs(x) * n <= bound
  {
    Negate(x, n);
  }

  lemma AbsIs(x: int, n: nat)
    ensures Abs(x) * n == if x < 0 then -(x * n) else x * n
  {
    Negate(x, n);
  }

  lemma Negate(a: int, b: int)
    ensures (-a) * b == -(a * b)
  {
  }

  lemma Difference(a: int, b: int, k: nat)
    requires a <= b
    ensures a * k <= b * k
  {
  }

  lemma FrequencyBelow(s: nat, f: nat, d: nat, k: nat)
    requires 2 * (d * f) <= 2 * s + f && 0 < k < d && f > 0
    ensures NoFurther(s, f, d, d - k)
  {
    Sides(s, f, d, 0 - k);
    Negate(k, s);
    Negate(k, d * f);
    assert s >= (d - k) * f by { Steps(f, d, d - k); }
    BelowSum(s, f, d, k);
    AbsTimes(s - d * f, d - k, s * d - d * f * d + d * f * k);
    AbsIs(s - (d - k) * f, d);
  }

  lemma BelowSum(s: nat, f: nat, d: nat, k: nat)
    requires 2 * (d * f) <= 2 * s + f && 0 < k < d
    ensures s * d - s * k - d * f * d + d * f * k <= s * d - d * f * d + d * f * k
    ensures -(s * d - s * k - d * f * d + d * f * k) <= s * d - d * f * d + d * f * k
  {
    // (2d - 1) f <= 2s, times 2d - k
    Difference(0, 2 * s - 2 * (d * f) + f, 2 * d - k);
    Expand(s, f, d, k);
    Scale(d * f, 1, k);
    Scale(f, 0, k);
    Scale(s, 0, k);
  }

  lemma Expand(s: int, f: int, d: int, k: int)
    ensures (2 * s - 2 * (d * f) + f) * (2 * d - k)
            == 4 * (s * d) - 2 * (s * k) - 4 * (d * f * d) + 2 * (d * f * k) + 2 * (d * f) - f * k
  {
    var df := d * f;
    Spread(2 * s - 2 * df, -f, 2 * d, -k);
    Spread(2 * s, 2 * df, 2 * d, -k);
    assert (2 * df) * (2 * d) == 4 * (df * d) && (2 * df) * (-k) == -2 * (df * k);
    assert f * (2 * d) == 2 * df;
  }

  lemma FrequencyNext(s: nat, f: nat, d: nat)
    requires 2 * (d * f) <= 2 * s + f && d > 0 && f > 0
    requires !BelowMidpoint(s, f, d)
    ensures !NoFurther(s, f, d, d + 1)
  {
    Sides(s, f, d, 1);
    Midpoint(s, f, d);
    assert s > d * f by {
      if s <= d * f { Difference(s, d * f, d); }
    }
    Steps(f, d, d + 1);
    Negate(s - (d + 1) * f, d);
  }

  /** A setting that misses the promise: PLL3 at 110 MHz, 96 kHz with the master clock out. The code
      divides by 4; dividing by 5 comes closer to 96 kHz. */
  lemma FrequencyCanMiss()
    ensures var c := HSE_VALUE / 5 * Factor(X11) * 2;
            var s := Scaled(c, true, 1);
            && Kept(s, 96000) == Rounded(s, 96000) == 4
            && !NoFurther(s, 96000, 4, 5) && !NoFurther(c, 256 * 96000, 4, 5)
  {
    assert HSE_VALUE / 5 * Factor(X11) * 2 == 110_000_000;
    KeptExact(429_687, 96000);
    RoundedBounds(429_687, 96000, 4);
  }

  /** And one that misses it only because the clock is cut to a whole number first: SYSCLK at
      9,102,320 Hz, 8 kHz with the master clock out. What is left of the clock lies below the midpoint of
      4 and 5, the clock itself above it. */
  lemma FlooredCanMiss()
    ensures var s := Scaled(9_102_320, true, 1);
            && Kept(s, 8000) == Rounded(s, 8000) == 4
            && BelowMidpoint(s, 8000, 4) && !BelowMidpoint(9_102_320, 256 * 8000, 4)
            && !NoFurther(9_102_320, 256 * 8000, 4, 5)
  {
    assert Scaled(9_102_320, true, 1) == 35_555;
    KeptExact(35_555, 8000);
    RoundedBounds(35_555, 8000, 4);
  }

  /** For every offered rate, at least 8 kHz, no clock up to 1 GHz overflows the sixteen bits; PLL3
      never exceeds that. */
  lemma OfferedRatesFit(sourceclock: nat, mclk: bool, packetlength: nat, f: nat)
    requires sourceclock <= 1_000_000_000 && packetlength in {1, 2} && f >= 8000
    ensures Tenths(Scaled(sourceclock, mclk, packetlength), f) < 0x10000
  {
    var s := Scaled(sourceclock, mclk, packetlength);
    assert s <= 31_250_000;
    var q := s * 10 / f;
    Quotient(s * 10, f, q);
    Difference(8000, f, q);
  }

  // ----- The prescaler register -----

  /** The low bits of a number. */
  function Bits(n: nat, len: nat): (b: seq<bool>)
    ensures |b| == len
  {
    if len == 0 then [] else [n % 2 == 1] + Bits(n / 2, len - 1)
  }

  function Value(b: seq<bool>): nat {
    if b == [] then 0 else (if b[0] then 1 else 0) + 2 * Value(b[1..])
  }

  function Power(len: nat): nat {
    if len == 0 then 1 else 2 * Power(len - 1)
  }

  lemma {:induction false} BitsValue(n: nat, len: nat)
    requires n < Power(len)
    ensures Value(Bits(n, len)) == n
  {
    if len > 0 {
      BitsValue(n / 2, len - 1);
      assert Bits(n, len)[1..] == Bits(n / 2, len - 1);
    }
  }

  lemma EightBits(n: nat)
    requires n <= 0xFF
    ensures Value(Bits(n, 8)) == n
  {
    assert Power(8) == 2 * Power(7) == 4 * Power(6) == 8 * Power(5) == 16 * Power(4);
    BitsValue(n, 8);
  }

  lemma FourValue(b: seq<bool>)
    requires |b| >= 4
    ensures Value(b) == (if b[0] then 1 else 0) + (if b[1] then 2 else 0) + (if b[2] then 4 else 0)
                        + (if b[3] then 8 else 0) + 16 * Value(b[4..])
  {
    assert b[1..][1..] == b[2..] && b[2..][1..] == b[3..] && b[3..][1..] == b[4..];
  }

  lemma EightValue(b: seq<bool>)
    requires |b| == 8
    ensures Value(b) == (if b[0] then 1 else 0) + (if b[1] then 2 else 0) + (if b[2] then 4 else 0) + (if b[3] then 8 else 0)
                        + (if b[4] then 16 else 0) + (if b[5] then 32 else 0) + (if b[6] then 64 else 0) + (if b[7] then 128 else 0)
  {
    FourValue(b);
    FourValue(b[4..]);
  }

  /** What a reader of the register finds: bits 0-7 are half the divider, bit 8 is its parity. */
  function DividerOf(i2spr: Word): (r: nat)
    ensures r == (if i2spr[8] then 1 else 0)
                 + (if i2spr[0] then 2 else 0) + (if i2spr[1] then 4 else 0) + (if i2spr[2] then 8 else 0)
                 + (if i2spr[3] then 16 else 0) + (if i2spr[4] then 32 else 0) + (if i2spr[5] then 64 else 0)
                 + (if i2spr[6] then 128 else 0) + (if i2spr[7] then 256 else 0)
  {
    EightValue(i2spr[..8]);
    2 * Value(i2spr[..8]) + (if i2spr[8] then 1 else 0)
  }

  /** The divider that reaches the hardware: anything it cannot hold is replaced by 4. */
  function Written(d: nat): nat {
    if 4 <= d <= 511 then d else 4
  }

  /** i2sdiv | i2sodd | mclk: the three parts stay apart. */
  lemma PackedParts(i2sdiv: nat, odd: bool, mclk: bool, w: Word)
    requires i2sdiv <= 0xFF
    requires w == Or(Pad(Bits(i2sdiv, 8)), Or(Shl(Pad([odd]), 8), Shl(Pad([mclk]), 9)))
    ensures Value(w[..8]) == i2sdiv && w[8] == odd && w[9] == mclk && forall i :: 10 <= i < 32 ==> !w[i]
  {
    EightBits(i2sdiv);
    assert w[..8] == Bits(i2sdiv, 8);
  }

  /** The written register differs from the documented one exactly when the sixteen bits overflow and
      what is left of them looks like another divider. */
  lemma WrittenExact(s: nat, f: nat)
    requires f > 0
    ensures Written(Kept(s, f)) == Written(Rounded(s, f)) <==> Tenths(s, f) < 0x10000 || !(5 <= Kept(s, f) <= 511)
  {
    KeptExact(s, f);
    TenthsRound(s, f);
  }

  // ----- The initialiser -----

  const DEFAULT_FREQ := 2

  datatype Mode = SlaveTx | SlaveRx | MasterTx | MasterRx
  datatype Standard = Phillips | MSB | LSB | PCMShort | PCMLong
  datatype Format = F16 | F16Extended | F24 | F32

  function ModeBits(m: Mode): Word {
    Shl(Pad(match m case SlaveTx => [] case SlaveRx => [true] case MasterTx => [false, true] case MasterRx => [true, true]), 8)
  }

  function StandardBits(s: Standard): Word {
    Shl(Pad(match s
            case Phillips => []
            case MSB => [true]
            case LSB => [false, true]
            case PCMShort => [true, true]
            case PCMLong => [true, true, false, true]), 4)
  }

  function FormatBits(f: Format): Word {
    Pad(match f case F16 => [] case F16Extended => [true] case F24 => [true, true] case F32 => [true, false, true])
  }

  function PolarityBits(high: bool): Word {
    Shl(Pad([high]), 3)
  }

  datatype Init = Init(mode: Mode, standard: Standard, format: Format, mclk: bool, freq: nat, cpolHigh: bool)

  /** I2SCFGR_CLEAR_Mask, 0xF040: the bits kept from before. */
  predicate KeptBit(i: nat) {
    i == 6 || 12 <= i < 16
  }

  ghost predicate Configured(before: Word, after: Word, init: Init) {
    forall i :: 0 <= i < 32 ==>
      after[i] == ((before[i] && KeptBit(i)) || i == 11 || ModeBits(init.mode)[i] || StandardBits(init.standard)[i]
                   || FormatBits(init.format)[i] || PolarityBits(init.cpolHigh)[i])
  }

  /** No two fields of the register overlap. */
  lemma FieldsApart(before: Word, after: Word, init: Init)
    requires Configured(before, after, init)
    ensures after[..3] == FormatBits(init.format)[..3] && after[3] == init.cpolHigh
    ensures after[4..6] == StandardBits(init.standard)[4..6] && after[7] == StandardBits(init.standard)[7]
    ensures after[8..10] == ModeBits(init.mode)[8..10]
  {
    var m, s, f, p := ModeBits(init.mode), StandardBits(init.standard), FormatBits(init.format), PolarityBits(init.cpolHigh);
    ModePlace(init.mode);
    StandardPlace(init.standard);
    FormatPlace(init.format);
    PolarityPlace(init.cpolHigh);
    FieldsRead(before, after, m, s, f, p);
  }

  lemma ModePlace(m: Mode)
    ensures forall i :: 0 <= i < 32 ==>
              (ModeBits(m)[i] <==> (i == 8 && (m.SlaveRx? || m.MasterRx?)) || (i == 9 && (m.MasterTx? || m.MasterRx?)))
  {
  }

  lemma StandardPlace(s: Standard)
    ensures forall i :: 0 <= i < 32 ==>
              (StandardBits(s)[i] <==>
                 || (i == 4 && (s.MSB? || s.PCMShort? || s.PCMLong?))
                 || (i == 5 && (s.LSB? || s.PCMShort? || s.PCMLong?))
                 || (i == 7 && s.PCMLong?))
  {
  }

  lemma FormatPlace(f: Format)
    ensures forall i :: 0 <= i < 32 ==>
              (FormatBits(f)[i] <==> (i == 0 && !f.F16?) || (i == 1 && f.F24?) || (i == 2 && f.F32?))
  {
  }

  lemma PolarityPlace(high: bool)
    ensures forall i :: 0 <= i < 32 ==> (PolarityBits(high)[i] <==> i == 3 && high)
  {
  }

  lemma FieldsRead(before: Word, after: Word, m: Word, s: Word, f: Word, p: Word)
    requires forall i :: 0 <= i < 32 ==>
               after[i] == ((before[i] && KeptBit(i)) || i == 11 || m[i] || s[i] || f[i] || p[i])
    requires forall i :: 0 <= i < 32 && m[i] ==> 8 <= i < 10
    requires forall i :: 0 <= i < 32 && s[i] ==> 4 <= i < 6 || i == 7
    requires forall i :: 0 <= i < 32 && f[i] ==> i < 3
    requires forall i :: 0 <= i < 32 && p[i] ==> i == 3
    ensures after[..3] == f[..3] && after[3] == p[3] && after[4..6] == s[4..6] && after[7] == s[7] && after[8..10] == m[8..10]
    ensures after[0] == f[0] && after[1] == f[1] && after[2] == f[2]
    ensures after[4] == s[4] && after[5] == s[5] && after[8] == m[8] && after[9] == m[9]
    ensures after[6] == before[6] && after[12..16] == before[12..16]
    ensures after[11] && !after[10] && forall i :: 16 <= i < 32 ==> !after[i]
  {
  }

  /** The configuration register bit by bit. */
  lemma ConfiguredBits(before: Word, after: Word, init: Init)
    requires Configured(before, after, init)
    ensures after[8] == (init.mode.SlaveRx? || init.mode.MasterRx?)
    ensures after[9] == (init.mode.MasterTx? || init.mode.MasterRx?)
    ensures after[4] == (init.standard.MSB? || init.standard.PCMShort? || init.standard.PCMLong?)
    ensures after[5] == (init.standard.LSB? || init.standard.PCMShort? || init.standard.PCMLong?)
    ensures after[7] == init.standard.PCMLong?
    ensures after[0] == !init.format.F16? && after[1] == init.format.F24? && after[2] == init.format.F32?
    ensures after[3] == init.cpolHigh && after[11] && !after[10]
    ensures after[6] == before[6] && after[12..16] == before[12..16] && forall i :: 16 <= i < 32 ==> !after[i]
  {
    var m, s, f, p := ModeBits(init.mode), StandardBits(init.standard), FormatBits(init.format), PolarityBits(init.cpolHigh);
    ModePlace(init.mode);
    StandardPlace(init.standard);
    FormatPlace(init.format);
    PolarityPlace(init.cpolHigh);
    FieldsRead(before, after, m, s, f, p);
  }

  lemma CodesDiffer(a: Init, b: Init)
    ensures ModeBits(a.mode)[8..10] == ModeBits(b.mode)[8..10] ==> a.mode == b.mode
    ensures FormatBits(a.format)[..3] == FormatBits(b.format)[..3] ==> a.format == b.format
    ensures StandardBits(a.standard)[4..6] == StandardBits(b.standard)[4..6]
              && StandardBits(a.standard)[7] == StandardBits(b.standard)[7] ==>
              a.standard == b.standard
  {
    ModesDiffer(a.mode, b.mode);
    FormatsDiffer(a.format, b.format);
    StandardsDiffer(a.standard, b.standard);
  }

  lemma ModesDiffer(a: Mode, b: Mode)
    ensures ModeBits(a)[8..10] == ModeBits(b)[8..10] ==> a == b
  {
    var x, y := ModeBits(a), ModeBits(b);
    assert x[8..10] == y[8..10] ==> x[8..10][0] == y[8..10][0] && x[8..10][1] == y[8..10][1];
  }

  lemma FormatsDiffer(a: Format, b: Format)
    ensures FormatBits(a)[..3] == FormatBits(b)[..3] ==> a == b
  {
    var x, y := FormatBits(a), FormatBits(b);
    assert x[..3] == y[..3] ==> x[..3][0] == y[..3][0] && x[..3][1] == y[..3][1] && x[..3][2] == y[..3][2];
  }

  lemma StandardsDiffer(a: Standard, b: Standard)
    ensures StandardBits(a)[4..6] == StandardBits(b)[4..6] && StandardBits(a)[7] == StandardBits(b)[7] ==> a == b
  {
    var x, y := StandardBits(a), StandardBits(b);
    assert x[4..6] == y[4..6] ==> x[4..6][0] == y[4..6][0] && x[4..6][1] == y[4..6][1];
  }

  /** Every choice can be read back from the configuration register. */
  lemma ConfigurationReadable(before: Word, before': Word, after: Word, a: Init, b: Init)
    requires Configured(before, after, a) && Configured(before', after, b)
    ensures a.mode == b.mode && a.standard == b.standard && a.format == b.format && a.cpolHigh == b.cpolHigh
  {
    FieldsApart(before, after, a);
    FieldsApart(before', after, b);
    CodesDiffer(a, b);
  }

  /** The requested rate's divider as the code computes it; the default rate asks for 4. */
  function Asked(init: Init, sourceclock: nat): nat
    requires init.freq > 0
  {
    if init.freq == DEFAULT_FREQ then 4
    else Kept(Scaled(sourceclock, init.mclk, if init.format == F16 then 1 else 2), init.freq)
  }

  class Spi {
    var i2scfgr: Word
    var i2spr: Word

    method Divide(init: Init, sourceclock: nat) returns (i2sdiv: nat, i2sodd: nat)
      requires init.freq > 0 && sourceclock < U32
      ensures 2 * i2sdiv + i2sodd == Asked(init, sourceclock) && i2sodd < 2
      ensures if init.freq == 2 then i2sdiv == 2 && i2sodd == 0 else
                var s := sourceclock / if init.mclk then 256 else if init.format.F16? then 32 else 64;
                2 * i2sdiv + i2sodd == (s * 10 / init.freq + 5) % 0x1_0000 / 10
    {
      if init.freq == DEFAULT_FREQ {
        i2sdiv, i2sodd := 2, 0;
      } else {
        var packetlength := if init.format == F16 then 1 else 2;
        var tmp;
        if init.mclk {
          tmp := (sourceclock / 256 * 10 / init.freq + 5) % 0x10000;
        } else {
          tmp := (sourceclock / (32 * packetlength) * 10 / init.freq + 5) % 0x10000;
        }
        tmp := tmp / 10;
        i2sodd := tmp % 2;
        i2sdiv := (tmp - i2sodd) / 2;
      }
    }

    /** The write to I2SPR. */
    method Program(init: Init, sourceclock: nat)
      requires init.freq > 0 && sourceclock < U32
      modifies this`i2spr
      ensures DividerOf(i2spr) == Written(Asked(init, sourceclock))
      ensures i2spr[9] == init.mclk && forall i :: 10 <= i < 32 ==> !i2spr[i]
      ensures if init.freq == 2 then DividerOf(i2spr) == 4 else
                var s := sourceclock / if init.mclk then 256 else if init.format.F16? then 32 else 64;
                var d := (s * 10 / init.freq + 5) % 0x1_0000 / 10;
                DividerOf(i2spr) == if 4 <= d <= 511 then d else 4
    {
      var i2sdiv, i2sodd := Divide(init, sourceclock);
      if i2sdiv < 2 || i2sdiv > 0xFF {
        i2sdiv, i2sodd := 2, 0;
      }
      i2spr := Or(Pad(Bits(i2sdiv, 8)), Or(Shl(Pad([i2sodd == 1]), 8), Shl(Pad([init.mclk]), 9)));
      PackedParts(i2sdiv, i2sodd == 1, init.mclk, i2spr);
    }

    /** The two writes to I2SCFGR: clear, then set. */
    method Configure(init: Init)
      modifies this`i2scfgr
      ensures Configured(old(i2scfgr), i2scfgr, init)
    {
      i2scfgr := And(i2scfgr, Or(Shl(ONE, 6), Shl(Ones(4), 12)));
      var tmpreg := i2scfgr;
      tmpreg := Or(tmpreg, Or(Shl(ONE, 11), Or(ModeBits(init.mode), Or(StandardBits(init.standard),
                   Or(FormatBits(init.format), PolarityBits(init.cpolHigh))))));
      i2scfgr := tmpreg;
    }

    /** I2S_Init: whatever the registers held, the written divider is the rounded quotient of the scaled
        clock and the rate when sixteen bits suffice, or 4 when the prescaler cannot hold it. */
    method Init(init: Init, spi2: bool, cfgr2: Word, sysclk: nat) returns (ghost sourceclock: nat)
      requires init.freq > 0 && sysclk < U32
      modifies this
      ensures FromPll3(cfgr2, spi2) ==> sourceclock <= 1_000_000_000
      ensures !FromPll3(cfgr2, spi2) ==> sourceclock == sysclk
      ensures DividerOf(i2spr) == Written(Asked(init, sourceclock))
      ensures init.freq != DEFAULT_FREQ ==>
                var s := Scaled(sourceclock, init.mclk, if init.format == F16 then 1 else 2);
                Tenths(s, init.freq) < 0x10000 ==> DividerOf(i2spr) == Written(Rounded(s, init.freq))
      ensures i2spr[9] == init.mclk && forall i :: 10 <= i < 32 ==> !i2spr[i]
      ensures Configured(old(i2scfgr), i2scfgr, init)
      ensures var k := Number4(cfgr2, 12);
              sourceclock == if !cfgr2[if spi2 then 17 else 18] then sysclk else
                               25_000_000 / (Number4(cfgr2, 4) + 1) * (if 5 < k < 15 then k + 2 else if k == 15 then 20 else k) * 2
      ensures if init.freq == 2 then DividerOf(i2spr) == 4 else
                var s := sourceclock / if init.mclk then 256 else if init.format.F16? then 32 else 64;
                var d := (s * 10 / init.freq + 5) % 0x1_0000 / 10;
                DividerOf(i2spr) == if 4 <= d <= 511 then d else 4
      ensures i2scfgr[8] == (init.mode.SlaveRx? || init.mode.MasterRx?)
      ensures i2scfgr[9] == (init.mode.MasterTx? || init.mode.MasterRx?)
      ensures i2scfgr[4] == (init.standard.MSB? || init.standard.PCMShort? || init.standard.PCMLong?)
      ensures i2scfgr[5] == (init.standard.LSB? || init.standard.PCMShort? || init.standard.PCMLong?)
      ensures i2scfgr[7] == init.standard.PCMLong?
      ensures i2scfgr[0] == !init.format.F16? && i2scfgr[1] == init.format.F24? && i2scfgr[2] == init.format.F32?
      ensures i2scfgr[3] == init.cpolHigh && i2scfgr[11] && !i2scfgr[10]
      ensures i2scfgr[6] == old(i2scfgr)[6] && i2scfgr[12..16] == old(i2scfgr)[12..16]
    {
      i2spr := Shl(ONE, 1);
      var clock := SourceClock(cfgr2, spi2, sysclk);
      sourceclock := clock;
      Program(init, clock);
      if init.freq != DEFAULT_FREQ {
        KeptExact(Scaled(clock, init.mclk, if init.format == F16 then 1 else 2), init.freq);
      }
      Configure(init);
      ConfiguredBits(old(i2scfgr), i2scfgr, init);
    }
  }
}
