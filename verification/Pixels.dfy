/** From logical coordinates to pixels in binary32: logic_to_pixel and the radius rule of
    logical_to_screen_ball, src/client/screenballmanager.c lines 52-74. */
module Pixels {
  import opened Arith
  import opened Binary32

  /** A C conversion from a floating value to int: toward zero. */
  function Truncate(v: real): int {
    if v >= 0.0 then v.Floor else -(-v).Floor
  }

  /** logic_to_pixel. The parameter is a float; so are the quotient, the converted size and the product. */
  function LogicToPixel(v: real, size: int): int {
    Truncate(Times(Over(Round(v), 1000.0), Round(size as real)))
  }

  /** The radius rule on a screen whose smaller side is `min`. */
  function ScreenRadius(radius: int, min: int): int {
    var scaled := LogicToPixel(radius as real, min);
    if scaled <= min then 5 else scaled
  }

  // ---------- Order and range ----------

  lemma ProductMono(a: real, b: real, s: real)
    requires a <= b && s >= 0.0
    ensures a * s <= b * s
  {
  }

  lemma TruncateMono(a: real, b: real)
    requires a <= b
    ensures Truncate(a) <= Truncate(b)
  {
  }

  lemma TimesMono(a: real, b: real, s: real)
    requires a <= b && s >= 0.0
    ensures Times(a, s) <= Times(b, s)
  {
    ProductMono(a, b, s);
    RoundMono(a * s, b * s);
  }

  lemma PixelMonotone(u: real, v: real, size: int)
    requires u <= v && size >= 0
    ensures LogicToPixel(u, size) <= LogicToPixel(v, size)
  {
    RoundMono(u, v);
    RoundMono(Round(u) / 1000.0, Round(v) / 1000.0);
    RoundSign(size as real);
    TimesMono(Over(Round(u), 1000.0), Over(Round(v), 1000.0), Round(size as real));
    TruncateMono(Times(Over(Round(u), 1000.0), Round(size as real)),
                 Times(Over(Round(v), 1000.0), Round(size as real)));
  }

  /** The pixel is a function of the two floats, the coordinate as stored and the side as converted. */
  lemma PixelOfFloats(u: real, v: real, side: int, size: int)
    requires Round(u) == Round(v) && Round(side as real) == Round(size as real)
    ensures LogicToPixel(u, side) == LogicToPixel(v, size)
  {
  }

  lemma TimesNegated(q: real, s: real)
    ensures Times(-q, s) == -Times(q, s)
  {
    assert -q * s == -(q * s);
    assert Round(-(q * s)) == -Round(q * s);
  }

  lemma OverNegated(v: real)
    ensures Over(-v, 1000.0) == -Over(v, 1000.0)
  {
    assert -v / 1000.0 == -(v / 1000.0);
  }

  /** Negative coordinates mirror positive ones: the conversion to int goes toward zero. */
  lemma PixelNegated(v: real, size: int)
    ensures LogicToPixel(-v, size) == -LogicToPixel(v, size)
  {
    assert Round(-v) == -Round(v);
    OverNegated(Round(v));
    TimesNegated(Over(Round(v), 1000.0), Round(size as real));
  }

  lemma PixelOfZero(size: int)
    ensures LogicToPixel(0.0, size) == 0
  {
  }

  /** A whole coordinate inside the field lands on the screen, whatever the rounding. */
  lemma PixelOnScreen(v: int, size: int)
    requires 0 <= v < 1000 && size > 0
    ensures 0 <= LogicToPixel(v as real, size) < size
  {
    PixelOfZero(size);
    PixelMonotone(0.0, v as real, size);
    PixelMonotone(v as real, 999.0, size);
    LastPixel(size);
  }

  lemma LastPixel(size: int)
    requires size > 0
    ensures LogicToPixel(999.0, size) < size
  {
    RoundWhole(999);
    var q, s := Over(999.0, 1000.0), Round(size as real);
    RoundClose(0.999);
    RoundClose(size as real);
    BelowSize(size as real, q, s, Times(q, s));
  }

  lemma BelowSize(n: real, q: real, s: real, t: real)
    requires n > 0.0 && Close(q, 0.999) && Close(s, n) && q >= 0.0 && s >= 0.0 && t == Times(q, s)
    ensures t < n
  {
    TimesClose(0.999, q, s);
    NearlyAll(n, s, q * s, t);
  }

  lemma NearlyAll(n: real, s: real, p: real, t: real)
    requires n > 0.0 && Close(s, n) && Close(p, 0.999 * s) && Close(t, p)
    ensures t < n
  {
  }

  lemma TimesClose(x: real, r: real, s: real)
    requires Close(r, x) && r >= 0.0 && s >= 0.0
    ensures Close(r * s, x * s) && Close(Times(r, s), r * s)
  {
    var y := (r - x) * 16777216.0;
    ProductMono(0.0, x, s);
    ProductMono(0.0, r, s);
    ProductMono(-x, y, s);
    ProductMono(y, x, s);
    assert y * s == (r * s - x * s) * 16777216.0;
    RoundClose(r * s);
  }

  // ---------- Against exact division ----------

  /** The pixel of a whole number is the quotient of the integer division, except that rounding may
      lose one where the division leaves no remainder. */
  lemma PixelOfWhole(n: nat, size: nat)
    requires n <= EXACT && size <= EXACT
    ensures var m, pixel := n * size, LogicToPixel(n as real, size);
            && (m < 8000000 ==> pixel == m / 1000 || (m % 1000 == 0 && pixel == m / 1000 - 1))
            && (m >= 8000 ==> pixel > 5)
  {
    RoundWhole(n);
    RoundWhole(size);
    var x, s := n as real / 1000.0, size as real;
    RoundClose(x);
    ThousandthOfProduct(n, size);
    WholeTimes(x, s, n * size, Over(n as real, 1000.0), Times(Over(n as real, 1000.0), s));
  }

  lemma ThousandthOfProduct(n: nat, size: nat)
    ensures n as real / 1000.0 * size as real == (n * size) as real / 1000.0
  {
  }

  /** `m` thousandths are x * s; `t` is the same in floats. */
  lemma WholeTimes(x: real, s: real, m: nat, q: real, t: real)
    requires s >= 0.0 && x * s == m as real / 1000.0 && Close(q, x) && q >= 0.0 && t == Times(q, s)
    ensures m < 8000000 ==> Truncate(t) == m / 1000 || (m % 1000 == 0 && Truncate(t) == m / 1000 - 1)
    ensures m >= 8000 ==> Truncate(t) > 5
  {
    TimesClose(x, q, s);
    if m < 8000000 {
      WholePixel(m, q * s, t);
    }
    if m >= 8000 {
      LargeAfterAll(m, q * s, t);
    }
  }

  lemma LargeAfterAll(m: nat, p: real, t: real)
    requires m >= 8000 && Close(p, m as real / 1000.0) && Close(t, p)
    ensures t >= 7.0
  {
  }

  lemma WholePixel(m: nat, p: real, t: real)
    requires m < 8000000 && Close(p, m as real / 1000.0) && Close(t, p)
    ensures t >= 0.0 && (t.Floor == m / 1000 || (m % 1000 == 0 && t.Floor == m / 1000 - 1))
  {
    var k, r := m / 1000, m % 1000;
    assert m == 1000 * k + r;
    assert m as real / 1000.0 == k as real + r as real / 1000.0;
    if r > 0 {
      assert k as real <= t < k as real + 1.0;
    } else if k > 0 {
      assert k as real - 1.0 <= t < k as real + 1.0;
    } else {
      assert p == 0.0;
    }
  }

  // ---------- Evaluation of single products ----------

  /** `a` is the significand of `x` at the scale d = 2^k. */
  predicate Significand(a: nat, x: real, k: nat, d: real) {
    x > 0.0 && d == Power(2, k) as real && HALF as real <= x * d < EXACT as real && Nearby(x * d) == a
  }

  lemma RoundSignificand(a: nat, x: real, k: nat, d: real)
    requires Significand(a, x, k, d)
    ensures Round(x) == a as real / d
  {
    RoundAt(x, k, d, x * d);
  }

  lemma TimesSignificand(b: nat, q: real, s: real, j: nat, e: real)
    requires Significand(b, q * s, j, e)
    ensures Times(q, s) == b as real / e
  {
    RoundSignificand(b, q * s, j, e);
  }

  /** Rounding x gives q, of significand `a`; the product with `s` gives `b`. */
  lemma FloatProduct(x: real, k: nat, d: real, a: nat, q: real, s: real, j: nat, e: real, b: nat)
    requires Significand(a, x, k, d) && q == a as real / d && Significand(b, q * s, j, e)
    ensures Times(Round(x), s) == b as real / e
  {
    RoundSignificand(a, x, k, d);
    TimesSignificand(b, q, s, j, e);
  }

  lemma PowersOfTwo()
    ensures Power(2, 14) == 16384 && Power(2, 15) == 32768 && Power(2, 16) == 65536 && Power(2, 17) == 131072
    ensures Power(2, 18) == 262144 && Power(2, 19) == 524288 && Power(2, 20) == 1048576
    ensures Power(2, 21) == 2097152 && Power(2, 22) == 4194304
  {
    assert Power(2, 7) == 128;
  }

  lemma MorePowers()
    ensures Power(2, 23) == 8388608 && Power(2, 24) == 16777216 && Power(2, 25) == 33554432
    ensures Power(2, 26) == 67108864 && Power(2, 27) == 134217728 && Power(2, 28) == 268435456
    ensures Power(2, 29) == 536870912 && Power(2, 30) == 1073741824
  {
    PowersOfTwo();
    assert Power(2, 24) == 4 * Power(2, 22);
  }

  lemma PixelProduct(n: nat, size: nat)
    requires n <= EXACT && size <= EXACT
    ensures LogicToPixel(n as real, size) == Truncate(Times(Round(n as real / 1000.0), size as real))
  {
    RoundWhole(n);
    RoundWhole(size);
  }

  // ---------- The radius rule ----------

  lemma SmallRadius(radius: int, min: int)
    requires radius <= 1000 && 0 < min <= EXACT
    ensures LogicToPixel(radius as real, min) <= min
  {
    RoundWhole(1000);
    RoundWhole(1);
    RoundWhole(min);
    PixelMonotone(radius as real, 1000.0, min);
    assert Times(1.0, min as real) == min as real;
  }

  lemma LargeScreen(radius: int, min: int)
    requires radius > 1000 && 1000 < min <= EXACT
    ensures LogicToPixel(radius as real, min) > min
  {
    RoundWhole(1001);
    RoundWhole(min);
    PixelMonotone(1001.0, radius as real, min);
    var q := Over(1001.0, 1000.0);
    RoundClose(1.001);
    AboveSize(min as real, q, Times(q, min as real));
  }

  lemma AboveSize(n: real, q: real, t: real)
    requires n >= 1001.0 && Close(q, 1.001) && q >= 0.0 && t == Times(q, n)
    ensures t >= n + 1.0
  {
    TimesClose(1.001, q, n);
    MoreThanAll(n, q * n, t);
  }

  lemma MoreThanAll(n: real, p: real, t: real)
    requires n >= 1001.0 && Close(p, 1.001 * n) && Close(t, p)
    ensures t >= n + 1.0
  {
  }

  lemma LargeRadius(radius: int, min: int)
    requires radius >= 3000 && 0 < min <= 1000
    ensures LogicToPixel(radius as real, min) > min
  {
    PixelMonotone(3000.0, radius as real, min);
    PixelOfWhole(3000, min);
  }

  // ---------- On the limit of the rule ----------

  lemma DivisorsOf1000(min: nat, c: nat)
    requires min * c == 1000
    ensures min in {1, 2, 4, 5, 8, 10, 20, 25, 40, 50, 100, 125, 200, 250, 500, 1000}
  {
    assert min <= 31 || c <= 31 by {
      if min >= 32 && c >= 32 {
        MulMono(32, min, c);
      }
    }
  }

  // The radii on the limit are 1000 + 1000 / min for the divisors of 1000; their quotients by 1000 are
  // 1 + 1 / min.

  lemma SmallBoundary(min: nat)
    requires min in {2, 4, 5, 8}
    ensures Truncate(Times(Round(1.0 + 1.0 / min as real), min as real)) == min + 1
  {
    PowersOfTwo();
    MorePowers();
    if min == 2 {
      FloatProduct(1.5, 23, 8388608.0, 12582912, 12582912.0 / 8388608.0, 2.0, 22, 4194304.0, 12582912);
    } else if min == 4 {
      FloatProduct(1.25, 23, 8388608.0, 10485760, 10485760.0 / 8388608.0, 4.0, 21, 2097152.0, 10485760);
    } else if min == 5 {
      FloatProduct(1.2, 23, 8388608.0, 10066330, 10066330.0 / 8388608.0, 5.0, 21, 2097152.0, 12582912);
    } else if min == 8 {
      FloatProduct(1.125, 23, 8388608.0, 9437184, 9437184.0 / 8388608.0, 8.0, 20, 1048576.0, 9437184);
    }
  }

  lemma TenBoundary(min: nat)
    requires min in {10}
    ensures Truncate(Times(Round(1.0 + 1.0 / min as real), min as real)) == min + 1
  {
    PowersOfTwo();
    MorePowers();
    if min == 10 {
      FloatProduct(1.1, 23, 8388608.0, 9227469, 9227469.0 / 8388608.0, 10.0, 20, 1048576.0, 11534336);
    }
  }

  lemma MiddleBoundary(min: nat)
    requires min in {20, 25, 40}
    ensures Truncate(Times(Round(1.0 + 1.0 / min as real), min as real)) == min + 1
  {
    PowersOfTwo();
    MorePowers();
    if min == 20 {
      FloatProduct(1.05, 23, 8388608.0, 8808038, 8808038.0 / 8388608.0, 20.0, 19, 524288.0, 11010048);
    } else if min == 25 {
      FloatProduct(1.04, 23, 8388608.0, 8724152, 8724152.0 / 8388608.0, 25.0, 19, 524288.0, 13631488);
    } else if min == 40 {
      FloatProduct(1.025, 23, 8388608.0, 8598323, 8598323.0 / 8388608.0, 40.0, 18, 262144.0, 10747904);
    }
  }

  lemma LargeBoundary(min: nat)
    requires min in {50, 100, 125, 200}
    ensures Truncate(Times(Round(1.0 + 1.0 / min as real), min as real)) == min + 1
  {
    PowersOfTwo();
    MorePowers();
    if min == 50 {
      FloatProduct(1.02, 23, 8388608.0, 8556380, 8556380.0 / 8388608.0, 50.0, 18, 262144.0, 13369344);
    } else if min == 100 {
      FloatProduct(1.01, 23, 8388608.0, 8472494, 8472494.0 / 8388608.0, 100.0, 17, 131072.0, 13238272);
    } else if min == 125 {
      FloatProduct(1.008, 23, 8388608.0, 8455717, 8455717.0 / 8388608.0, 125.0, 17, 131072.0, 16515072);
    } else if min == 200 {
      FloatProduct(1.005, 23, 8388608.0, 8430551, 8430551.0 / 8388608.0, 200.0, 16, 65536.0, 13172736);
    }
  }

  lemma LargestBoundary(min: nat)
    requires min in {250, 500, 1000}
    ensures Truncate(Times(Round(1.0 + 1.0 / min as real), min as real)) == if min == 250 then 250 else min + 1
  {
    PowersOfTwo();
    MorePowers();
    if min == 250 {
      FloatProduct(1.004, 23, 8388608.0, 8422162, 8422162.0 / 8388608.0, 250.0, 16, 65536.0, 16449535);
    } else if min == 500 {
      FloatProduct(1.002, 23, 8388608.0, 8405385, 8405385.0 / 8388608.0, 500.0, 15, 32768.0, 16416768);
    } else if min == 1000 {
      FloatProduct(1.001, 23, 8388608.0, 8396997, 8396997.0 / 8388608.0, 1000.0, 14, 16384.0, 16400385);
    }
  }

  lemma LimitQuotient(radius: nat, min: nat)
    requires min > 0 && radius * min == 1000 * (min + 1)
    ensures radius as real / 1000.0 == 1.0 + 1.0 / min as real
  {
    var r, m := radius as real, min as real;
    assert r * m == 1000.0 * (m + 1.0);
    assert r == 1000.0 * (1.0 + 1.0 / m);
  }

  /** On the limit of the radius rule the rounding decides, and it goes down on one screen only. */
  lemma BoundaryRadius(radius: nat, min: nat)
    requires 0 < min && radius * min == 1000 * (min + 1)
    ensures LogicToPixel(radius as real, min) > min <==> min != 250
  {
    var c := radius - 1000;
    assert c * min == 1000;
    DivisorsOf1000(min, c);
    PixelProduct(radius, min);
    LimitQuotient(radius, min);
    if min == 1 {
      RoundWhole(2);
      RoundWhole(1);
    } else if min <= 8 {
      SmallBoundary(min);
    } else if min == 10 {
      TenBoundary(min);
    } else if min <= 40 {
      MiddleBoundary(min);
    } else if min <= 200 {
      LargeBoundary(min);
    } else {
      LargestBoundary(min);
    }
  }

  /** A scaled radius exceeds the screen exactly from 1000 * (min + 1) on, but for one pair of numbers
      that rounding puts below. */
  lemma ExceedsScreen(radius: int, min: int)
    requires 0 < min <= EXACT
    ensures LogicToPixel(radius as real, min) > min <==>
            radius * min >= 1000 * (min + 1) && !(radius == 1004 && min == 250)
  {
    if radius <= 1000 {
      SmallRadius(radius, min);
      MulMono(radius, 1000, min);
    } else if min > 1000 {
      LargeScreen(radius, min);
      MulMono(1001, radius, min);
    } else if radius >= 3000 {
      LargeRadius(radius, min);
      MulMono(3000, radius, min);
    } else if radius * min == 1000 * (min + 1) {
      BoundaryRadius(radius, min);
      MulInjective(radius, 1004, min);
    } else {
      MulMono(radius, 3000, min);
      PixelOfWhole(radius, min);
    }
  }

  // ---------- Scaled radius 5 ----------

  // The products 5000 and 6000, by their odd factors.

  lemma FiveProducts(m: nat)
    requires m in {1, 5, 25, 125, 625}
    ensures Truncate(Times(Round(5.0 / m as real), m as real)) == 5
  {
    PowersOfTwo();
    MorePowers();
    if m == 1 {
      RoundWhole(5);
    } else if m == 5 {
      FloatProduct(5.0 / 5.0, 23, 8388608.0, 8388608, 8388608.0 / 8388608.0, 5.0, 21, 2097152.0, 10485760);
    } else if m == 25 {
      FloatProduct(5.0 / 25.0, 26, 67108864.0, 13421773, 13421773.0 / 67108864.0, 25.0, 21, 2097152.0, 10485760);
    } else if m == 125 {
      FloatProduct(5.0 / 125.0, 28, 268435456.0, 10737418, 10737418.0 / 268435456.0, 125.0, 21, 2097152.0, 10485760);
    } else if m == 625 {
      FloatProduct(5.0 / 625.0, 30, 1073741824.0, 8589935, 8589935.0 / 1073741824.0, 625.0, 21, 2097152.0, 10485760);
    }
  }

  lemma SixProducts(m: nat)
    requires m in {1, 3, 5, 15}
    ensures Truncate(Times(Round(6.0 / m as real), m as real)) == 6
  {
    PowersOfTwo();
    MorePowers();
    if m == 1 {
      RoundWhole(6);
    } else if m == 3 {
      FloatProduct(6.0 / 3.0, 22, 4194304.0, 8388608, 8388608.0 / 4194304.0, 3.0, 21, 2097152.0, 12582912);
    } else if m == 5 {
      FloatProduct(6.0 / 5.0, 23, 8388608.0, 10066330, 10066330.0 / 8388608.0, 5.0, 21, 2097152.0, 12582912);
    } else if m == 15 {
      FloatProduct(6.0 / 15.0, 25, 33554432.0, 13421773, 13421773.0 / 33554432.0, 15.0, 21, 2097152.0, 12582912);
    }
  }

  lemma MoreSixProducts(m: nat)
    requires m in {25, 75, 125, 375}
    ensures Truncate(Times(Round(6.0 / m as real), m as real)) == 6
  {
    PowersOfTwo();
    MorePowers();
    if m == 25 {
      FloatProduct(6.0 / 25.0, 26, 67108864.0, 16106127, 16106127.0 / 67108864.0, 25.0, 21, 2097152.0, 12582912);
    } else if m == 75 {
      FloatProduct(6.0 / 75.0, 27, 134217728.0, 10737418, 10737418.0 / 134217728.0, 75.0, 21, 2097152.0, 12582912);
    } else if m == 125 {
      FloatProduct(6.0 / 125.0, 28, 268435456.0, 12884902, 12884902.0 / 268435456.0, 125.0, 21, 2097152.0, 12582912);
    } else if m == 375 {
      FloatProduct(6.0 / 375.0, 29, 536870912.0, 8589935, 8589935.0 / 536870912.0, 375.0, 21, 2097152.0, 12582913);
    }
  }

  lemma OddDivisors(n: nat, m: nat)
    requires m % 2 == 1
    ensures n * m == 5000 ==> m in {1, 5, 25, 125, 625}
    ensures n * m == 6000 ==> m in {1, 3, 5, 15, 25, 75, 125, 375}
  {
  }

  lemma RoundTwice(x: real)
    requires x > 0.0
    ensures Round(2.0 * x) == 2.0 * Round(x)
  {
  }

  lemma TimesSame(a: real, s: real, b: real, t: real)
    requires a * s == b * t
    ensures Times(a, s) == Times(b, t)
  {
  }

  /** A factor of two moves between the factors without changing the rounding. */
  lemma MoveFactor(x: real, s: real)
    requires x > 0.0
    ensures Times(Round(2.0 * x), s) == Times(Round(x), 2.0 * s)
  {
    RoundTwice(x);
    TimesSame(2.0 * Round(x), s, Round(x), 2.0 * s);
  }

  /** Where the scaled radius is 5 or 6 exactly, rounding loses nothing. */
  lemma {:induction false} SmallProducts(n: nat, m: nat, k: nat)
    requires (k == 5 || k == 6) && n * m == 1000 * k
    ensures Truncate(Times(Round(n as real / 1000.0), m as real)) == k
    decreases m
  {
    if m % 2 == 0 {
      var h := m / 2;
      SmallProducts(2 * n, h, k);
      MoveFactor(n as real / 1000.0, h as real);
    } else {
      OddDivisors(n, m);
      if k == 5 {
        FiveProducts(m);
      } else if m <= 15 {
        SixProducts(m);
      } else {
        MoreSixProducts(m);
      }
    }
  }

  lemma FivePixels(radius: nat, min: nat)
    requires radius < 3000 && 0 < min <= EXACT
    ensures LogicToPixel(radius as real, min) == 5 <==> 5000 <= radius * min < 6000
  {
    PixelOfWhole(radius, min);
    PixelProduct(radius, min);
    if radius * min == 5000 {
      SmallProducts(radius, min, 5);
    } else if radius * min == 6000 {
      SmallProducts(radius, min, 6);
    }
  }

  /** The rule of the source is inverted: it keeps a scaled radius that exceeds the smaller side of the
      screen and replaces every other one by 5. So the screen shows the scaled radius exactly in that
      case, or where it happens to be 5. */
  lemma RadiusRule(radius: int, min: int)
    requires 0 < min <= EXACT
    ensures var p, scaled := radius * min, LogicToPixel(radius as real, min);
            var exceeds := p >= 1000 * (min + 1) && !(radius == 1004 && min == 250);
            && ScreenRadius(radius, min) == (if exceeds then scaled else 5)
            && (ScreenRadius(radius, min) == scaled <==> exceeds || 5000 <= p < 6000)
  {
    ExceedsScreen(radius, min);
    if radius < 0 {
      MulMono(radius, 0, min);
      PixelMonotone(radius as real, 0.0, min);
      PixelOfZero(min);
    } else if radius >= 3000 {
      MulMono(3000, radius, min);
    } else {
      FivePixels(radius, min);
    }
  }

  /** Every radius of the game is replaced by 5, on every screen. */
  lemma GameRadius(radius: int, min: int)
    requires 0 <= radius < 1000 && min > 0
    ensures ScreenRadius(radius, min) == 5
  {
    PixelOnScreen(radius, min);
  }

  /** The start radius 20 survives exactly on screens whose smaller side is 250 to 299 pixels. */
  lemma StartRadius(min: int)
    requires 0 < min <= EXACT
    ensures ScreenRadius(20, min) == LogicToPixel(20.0, min) <==> 250 <= min < 300
  {
    RadiusRule(20, min);
  }
}
