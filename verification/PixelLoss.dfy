/** Exactly which pixels logic_to_pixel (src/client/screenballmanager.c lines 52-54) loses to the rounding of
    binary32, and on which coordinates of the program's own screen that happens. */
module PixelLoss {
  import opened Arith
  import opened Binary32
  import opened Pixels

  /** The least j with m * 2^j >= bound. */
  function Exponent(m: nat, bound: nat): nat
    requires m > 0
    decreases bound - m
  {
    if m >= bound then 0 else 1 + Exponent(2 * m, bound)
  }

  lemma {:induction false} ExponentIs(m: nat, bound: nat)
    requires 0 < m < bound
    ensures var d := Power(2, Exponent(m, bound)); bound <= m * d <= 2 * bound - 2 && d % 2 == 0
    decreases bound - m
  {
    var e := Power(2, Exponent(2 * m, bound));
    assert Power(2, Exponent(m, bound)) == 2 * e;
    assert m * (2 * e) == (2 * m) * e;
    if 2 * m < bound {
      ExponentIs(2 * m, bound);
    }
  }

  /** The scale at which n / 1000 has 24 significant bits. */
  function QuotientScale(n: nat): nat
    requires n > 0
  {
    Power(2, Exponent(n, 0x80_0000 * 1000))
  }

  /** The significand of the float quotient of `n` by 1000. */
  function QuotientSignificand(n: nat): nat
    requires n > 0
  {
    Nearest(n * QuotientScale(n), 1000) / 1000
  }

  /** The floats just below `k` are 1 / ScaleBelow(k) apart. */
  function ScaleBelow(k: nat): nat
    requires k > 0
  {
    Power(2, Exponent(k, 0x80_0001))
  }

  /** The division by 1000 leaves no remainder, and the float product falls short of the quotient by more
      than half a spacing. */
  predicate Lost(n: nat, size: nat) {
    n * size > 0 && n * size % 1000 == 0 &&
    var k, d := n * size / 1000, QuotientScale(n);
    2 * ScaleBelow(k) * (k * d - QuotientSignificand(n) * size) > d
  }

  // ---------- Rounding next to a whole number ----------

  lemma NearbyBelow(y: real, b: nat)
    requires b % 2 == 0 && b as real - 1.0 <= y < b as real
    ensures Nearby(y) == if b as real - y <= 0.5 then b else b - 1
  {
  }

  lemma QuotientAtLeast(b: int, k: int, g: nat)
    requires g > 0
    ensures b as real / g as real >= k as real <==> b >= k * g
  {
    var z := b as real / g as real;
    assert z * g as real == b as real;
    ProductAsReal(k, g);
    Order(z, k as real, g as real);
  }

  lemma RoundBelow(k: nat, i: nat, g: nat, p: real, y: real)
    requires k > 0 && g == Power(2, i) && g % 2 == 0 && 0x80_0000 < k * g <= 0x100_0000
    requires p > 0.0 && y == p * g as real && (k * g) as real - 1.0 <= y < (k * g) as real
    ensures Round(p) >= k as real <==> (k * g) as real - y <= 0.5
  {
    EvenProduct(k, g);
    NearbyBelow(y, k * g);
    RoundAt(p, i, g as real, y);
    QuotientAtLeast(Nearby(y), k, g);
  }

  lemma EvenProduct(k: nat, g: nat)
    requires g % 2 == 0
    ensures k * g % 2 == 0
  {
    var h := g / 2;
    assert k * g == 2 * (k * h);
  }

  /** A product near `k` rounds to at least `k` exactly if it falls short by at most half a spacing. */
  lemma RoundNear(k: nat, p: real)
    requires 0 < k <= 8000 && Close(p, k as real)
    ensures Round(p) >= k as real <==> (k as real - p) * ScaleBelow(k) as real <= 0.5
  {
    var g := ScaleBelow(k);
    ExponentIs(k, 0x80_0001);
    if k as real <= p {
      RoundWhole(k);
      RoundMono(k as real, p);
      ProductMono(k as real - p, 0.0, g as real);
    } else {
      ProductAsReal(k, g);
      ShortBy(k as real, p, g as real, (k * g) as real);
      RoundBelow(k, Exponent(k, 0x80_0001), g, p, p * g as real);
    }
  }

  lemma ShortBy(k: real, p: real, g: real, b: real)
    requires 0.0 < (k - p) * 16777216.0 <= k && g > 0.0 && k * g == b && b <= 16777216.0
    ensures 0.0 < b - p * g <= 1.0 && (k - p) * g == b - p * g
  {
    ShortfallBound(k - p, k, g);
    Distribute(k, p, g);
  }

  lemma Distribute(a: real, b: real, c: real)
    ensures (a - b) * c == a * c - b * c
  {
  }

  lemma ShortfallBound(c: real, k: real, g: real)
    requires 0.0 < c * 16777216.0 <= k && g > 0.0 && k * g <= 16777216.0
    ensures 0.0 < c * g <= 1.0
  {
    ProductMono(c * 16777216.0, k, g);
    Order(0.0, c, g);
    assert c * 16777216.0 * g == c * g * 16777216.0;
  }

  // ---------- The quotient ----------

  lemma NearestThousand(m: nat)
    ensures Nearest(m, 1000) == 1000 * Nearby(m as real / 1000.0)
  {
    var v := Nearby(m as real / 1000.0);
    NearestQuotient(m, 1000, m as real / 1000.0);
    ProductAsReal(1000, v);
  }

  lemma QuotientAt(x: real, j: nat, d: real, m: nat, y: real)
    requires x > 0.0 && d == Power(2, j) as real && x * d == y && y == m as real / 1000.0
    requires 8388608000 <= m < 16777216000
    ensures Round(x) == (Nearest(m, 1000) / 1000) as real / d
  {
    RoundAt(x, j, d, y);
    NearestThousand(m);
    assert Nearest(m, 1000) / 1000 == Nearby(y);
  }

  lemma QuotientRounded(n: nat)
    requires 0 < n < 8000000
    ensures Over(n as real, 1000.0) == QuotientSignificand(n) as real / QuotientScale(n) as real
  {
    var j := Exponent(n, 0x80_0000 * 1000);
    var d := Power(2, j);
    ExponentIs(n, 0x80_0000 * 1000);
    ThousandthOfProduct(n, d);
    QuotientAt(n as real / 1000.0, j, d as real, n * d, (n * d) as real / 1000.0);
  }

  // ---------- The exact pixel ----------

  /** The shortfall of the product, in whole numbers. */
  lemma Shortfall(k: nat, a: nat, d: nat, size: nat, g: nat, c: real)
    requires d > 0 && c == k as real - a as real / d as real * size as real
    ensures c * g as real <= 0.5 <==> 2 * g * (k * d - a * size) <= d
  {
    var w, z := d as real, k * d - a * size;
    ProductAsReal(k, d);
    ProductAsReal(a, size);
    assert c * w == z as real by {
      assert a as real / w * size as real * w == a as real * size as real;
    }
    ProductAsReal(g, z);
    InScale(c, w, g as real, (g * z) as real);
    assert 2 * g * z == 2 * (g * z);
  }

  lemma InScale(c: real, w: real, g: real, v: real)
    requires w > 0.0 && g * (c * w) == v
    ensures c * g <= 0.5 <==> 2.0 * v <= w
  {
    assert c * g * w == v;
    Order(0.5, c * g, w);
  }

  lemma ProductNear(x: real, s: real, k: nat, q: real)
    requires x * s == k as real && 0 < k < 8000 && Close(q, x) && q >= 0.0 && s >= 0.0
    ensures Times(q, s) >= k as real <==> (k as real - q * s) * ScaleBelow(k) as real <= 0.5
  {
    TimesClose(x, q, s);
    RoundNear(k, q * s);
  }

  lemma WholeThousandths(n: nat, size: nat, k: nat)
    requires n * size == 1000 * k
    ensures n as real / 1000.0 * size as real == k as real
  {
    ThousandthOfProduct(n, size);
  }

  lemma KeptProduct(x: real, s: real, k: nat, q: real)
    requires x >= 0.0 && s >= 0.0 && x * s == k as real && 0 < k < 8000 && q == Round(x)
    ensures Times(q, s) >= k as real <==> (k as real - q * s) * ScaleBelow(k) as real <= 0.5
  {
    RoundClose(x);
    ProductNear(x, s, k, q);
  }

  lemma WholeProduct(n: nat, size: nat, k: nat)
    requires 0 < n < 8000000 && size <= EXACT && n * size == 1000 * k && 0 < k < 8000
    ensures Times(Over(n as real, 1000.0), size as real) >= k as real <==>
            2 * ScaleBelow(k) * (k * QuotientScale(n) - QuotientSignificand(n) * size) <= QuotientScale(n)
  {
    var a, d := QuotientSignificand(n), QuotientScale(n);
    WholeThousandths(n, size, k);
    KeptProduct(n as real / 1000.0, size as real, k, Over(n as real, 1000.0));
    QuotientRounded(n);
    Shortfall(k, a, d, size, ScaleBelow(k), k as real - a as real / d as real * size as real);
  }

  lemma NoPixel(n: nat, size: nat)
    requires n * size == 0
    ensures Over(n as real, 1000.0) * size as real == 0.0
  {
    if n > 0 {
      MulMono(1, n, size);
    }
  }

  /** The pixel of a whole number is the quotient of the integer division, less one exactly if `Lost`. */
  lemma PixelExactly(n: nat, size: nat)
    requires n <= EXACT && size <= EXACT && n * size < 8000000
    ensures LogicToPixel(n as real, size) == n * size / 1000 - if Lost(n, size) then 1 else 0
  {
    PixelOfWhole(n, size);
    var q, k := Over(n as real, 1000.0), n * size / 1000;
    RoundWhole(n);
    RoundWhole(size);
    if n * size == 0 {
      NoPixel(n, size);
    } else if n * size % 1000 == 0 {
      MulMono(1, size, n);
      WholeProduct(n, size, k);
    }
  }

  // ---------- The program's screen, 1920 by 1080 ----------

  lemma {:induction false} PowerOrder(i: nat, j: nat)
    requires i <= j
    ensures Power(2, j) >= Power(2, i) && Power(2, j) % Power(2, i) == 0
    decreases j
  {
    if i < j {
      PowerOrder(i, j - 1);
      var q := Power(2, j - 1) / Power(2, i);
      assert Power(2, j) == (2 * q) * Power(2, i) + 0;
      DivModUnique(Power(2, j), Power(2, i), 2 * q, 0);
    } else {
      DivModUnique(Power(2, j), Power(2, i), 1, 0);
    }
  }

  lemma LargeFactor(t: nat, d: nat)
    requires 1 <= t < 40 && t * d >= 40 * 0x80_0000
    ensures d > 0x80_0000
  {
    if d <= 0x80_0000 {
      MulMono(d, 0x80_0000, t);
    }
  }

  lemma Reassociate(t: nat, d: nat)
    ensures 25 * t * d == 25 * (t * d)
  {
  }

  lemma FortiethScale(t: nat)
    requires 1 <= t < 40
    ensures Exponent(25 * t, 0x80_0000 * 1000) >= 24
    ensures QuotientScale(25 * t) % 0x100_0000 == 0 && 40 * 0x80_0000 <= t * QuotientScale(25 * t)
  {
    var j, d := Exponent(25 * t, 0x80_0000 * 1000), QuotientScale(25 * t);
    ExponentIs(25 * t, 0x80_0000 * 1000);
    Reassociate(t, d);
    LargeFactor(t, d);
    MorePowers();
    if j < 24 {
      PowerOrder(j, 23);
    }
    PowerOrder(24, j);
  }

  /** Forty times a rounding to whole numbers, for a multiple of 8. */
  lemma FortiethError(m: nat, a: nat)
    requires m % 8 == 0 && 1000 * a == Nearest(25 * m, 1000)
    ensures -16 <= m - 40 * a <= 16 && (m % 40 == 0 ==> m == 40 * a)
  {
    NearestRounds(25 * m, 1000);
  }

  lemma MultipleOf8(t: nat, d: nat)
    requires d % 0x100_0000 == 0
    ensures t * d % 8 == 0
  {
    var h := d / 0x100_0000;
    assert t * d == 8 * (t * (0x20_0000 * h)) by {
      assert d == 8 * (0x20_0000 * h);
    }
  }

  lemma SignificandTimes(n: nat)
    requires n > 0
    ensures 1000 * QuotientSignificand(n) == Nearest(n * QuotientScale(n), 1000)
  {
    NearestRounds(n * QuotientScale(n), 1000);
  }

  /** The quotient of the coordinate 25 t. */
  lemma FortiethRounded(t: nat)
    requires 1 <= t < 40
    ensures var m := t * QuotientScale(25 * t);
            && 40 * 0x80_0000 <= m && -16 <= m - 40 * QuotientSignificand(25 * t) <= 16
            && (m % 40 == 0 ==> m == 40 * QuotientSignificand(25 * t))
  {
    var d := QuotientScale(25 * t);
    FortiethScale(t);
    MultipleOf8(t, d);
    SignificandTimes(25 * t);
    Reassociate(t, d);
    FortiethError(t * d, QuotientSignificand(25 * t));
  }

  lemma {:induction false} PowerTimes(i: nat, k: nat)
    ensures Power(2, i + k) == Power(2, i) * Power(2, k)
    decreases k
  {
    if k > 0 {
      PowerTimes(i, k - 1);
      assert Power(2, i + k) == 2 * Power(2, i + k - 1);
    }
  }

  lemma PowerStep(i: nat, j: nat)
    requires Power(2, j) < 2 * Power(2, i)
    ensures Power(2, j) <= Power(2, i)
  {
    if j <= i {
      PowerOrder(j, i);
    } else {
      PowerOrder(i + 1, j);
    }
  }

  lemma TwiceProduct(c: nat, p: nat, q: nat)
    requires c <= 2 * p
    ensures c * q <= 2 * (q * p) && p * q == q * p
  {
    MulMono(c, 2 * p, q);
  }

  /** A power of two below `c` times another is at most 2^x times it, where c <= 2^(x+1). */
  lemma PowerRatio(i: nat, j: nat, x: nat, c: nat)
    requires Power(2, j) < c * Power(2, i) && c <= 2 * Power(2, x)
    ensures Power(2, j) <= Power(2, x) * Power(2, i)
  {
    TwiceProduct(c, Power(2, x), Power(2, i));
    PowerTimes(i, x);
    PowerStep(i + x, j);
  }

  lemma OddProduct(t: nat, j: nat)
    requires t * Power(2, j) == 21 && t < 40
    ensures t == 21
  {
    if j > 0 {
      EvenProduct(t, Power(2, j));
    }
  }

  /** The only multiple t * 2^j between 40 and 43 times 2^23 is at t = 21. */
  lemma OnlyTwentyOne(t: nat, j: nat)
    requires 1 <= t < 40 && j >= 24 && 40 * 0x80_0000 < t * Power(2, j) < 43 * 0x80_0000
    ensures t == 21
  {
    MorePowers();
    PowerTimes(j - 24, 24);
    var h := Power(2, j - 24);
    ThreeFactors(t, h);
    OddProduct(t, j - 24);
  }

  lemma ThreeFactors(t: nat, h: nat)
    ensures t * (h * 0x100_0000) == 0x100_0000 * (t * h)
  {
  }

  /** On a side of 40 c pixels, a lost pixel needs a scale d of the quotient below 32 c times that of
      the pixel. */
  lemma LostNeeds(c: nat, r: int, d: nat, g: nat)
    requires r <= 16 && 2 * g * (c * r) > d
    ensures 32 * c * g > d && r != 0
  {
    FactorOut(c, r, g);
    MulMono(r, 16, 2 * c * g);
  }

  lemma FactorOut(c: nat, r: int, g: nat)
    ensures 2 * g * (c * r) == r * (2 * c * g) && 16 * (2 * c * g) == 32 * c * g
  {
  }

  lemma LostAt(t: nat, c: nat)
    requires t > 0 && c * t > 0 && Lost(25 * t, 40 * c)
    ensures var d, a := QuotientScale(25 * t), QuotientSignificand(25 * t);
            2 * ScaleBelow(c * t) * (c * (t * d - 40 * a)) > d
  {
    var d, a := QuotientScale(25 * t), QuotientSignificand(25 * t);
    FieldProduct(t, c);
    FieldShortfall(t, c, d, a);
  }

  lemma FieldProduct(t: nat, c: nat)
    ensures 25 * t * (40 * c) == 1000 * (c * t)
  {
  }

  lemma FieldShortfall(t: nat, c: nat, d: nat, a: nat)
    ensures c * t * d - a * (40 * c) == c * (t * d - 40 * a)
  {
  }

  /** Then the product of `t` with that scale is small. */
  lemma ScaleRoom(t: nat, c: nat, d: nat, g: nat, x: nat)
    requires d <= x * g && c * t * g <= 0x100_0000
    ensures c * (t * d) <= x * 0x100_0000
  {
    MulMono(d, x * g, c * t);
    MulMono(c * t * g, 0x100_0000, x);
    assert x * g * (c * t) == c * t * g * x && d * (c * t) == c * (t * d);
  }

  lemma PixelScale(k: nat)
    requires 0 < k <= 8000
    ensures k * ScaleBelow(k) <= 0x100_0000
  {
    ExponentIs(k, 0x80_0001);
  }

  /** What a pixel lost on a side of 40 c pixels says about the scale of the quotient. */
  lemma LostScale(t: nat, c: nat, x: nat)
    requires 1 <= t < 40 && 0 < c * t <= 8000 && 32 * c <= 2 * Power(2, x) && Lost(25 * t, 40 * c)
    ensures c * (t * QuotientScale(25 * t)) <= Power(2, x) * 0x100_0000
    ensures t * QuotientScale(25 * t) > 40 * 0x80_0000
  {
    var d, a, g := QuotientScale(25 * t), QuotientSignificand(25 * t), ScaleBelow(c * t);
    FortiethRounded(t);
    LostAt(t, c);
    LostNeeds(c, t * d - 40 * a, d, g);
    PowerRatio(Exponent(c * t, 0x80_0001), Exponent(25 * t, 0x80_0000 * 1000), x, 32 * c);
    PixelScale(c * t);
    ScaleRoom(t, c, d, g, Power(2, x));
  }

  lemma LostOnWidth(t: nat)
    requires 1 <= t < 40 && Lost(25 * t, 1920)
    ensures t == 21
  {
    assert Power(2, 10) == 1024;
    LostScale(t, 48, 10);
    FortiethScale(t);
    OnlyTwentyOne(t, Exponent(25 * t, 0x80_0000 * 1000));
  }

  lemma NothingLostOnHeight(t: nat)
    requires 1 <= t < 40
    ensures !Lost(25 * t, 1080)
  {
    assert Power(2, 9) == 512;
    if Lost(25 * t, 1080) {
      LostScale(t, 27, 9);
      assert false;
    }
  }

  lemma MultipleOf25(n: nat, z: int)
    requires n == 25 * z
    ensures n == 25 * (n / 25)
  {
  }

  lemma Divisible(n: nat)
    requires n * 1920 % 1000 == 0 || n * 1080 % 1000 == 0
    ensures n == 25 * (n / 25)
  {
    if n * 1920 % 1000 == 0 {
      MultipleOf25(n, 12 * (n * 1920 / 1000) - 23 * n);
    } else {
      MultipleOf25(n, 13 * (n * 1080 / 1000) - 14 * n);
    }
  }

  /** On the width of the program's screen one column of the field is displaced: 525 goes to pixel 1007
      instead of 1008. */
  lemma PixelOnWidth(n: nat)
    requires n < 1000
    ensures LogicToPixel(n as real, 1920) == n * 1920 / 1000 - if n == 525 then 1 else 0
  {
    PixelExactly(n, 1920);
    if n == 525 {
      WidthLoss();
    } else if Lost(n, 1920) {
      Divisible(n);
      LostOnWidth(n / 25);
    }
  }

  lemma WidthLoss()
    ensures LogicToPixel(525.0, 1920) == 1007
  {
    PowersOfTwo();
    MorePowers();
    PixelProduct(525, 1920);
    FloatProduct(525.0 / 1000.0, 24, 16777216.0, 8808038, 8808038.0 / 16777216.0, 1920.0, 14, 16384.0, 16515071);
  }

  /** On its height none is. */
  lemma PixelOnHeight(n: nat)
    requires n < 1000
    ensures LogicToPixel(n as real, 1080) == n * 1080 / 1000
  {
    PixelExactly(n, 1080);
    if Lost(n, 1080) {
      Divisible(n);
      NothingLostOnHeight(n / 25);
    }
  }
}
