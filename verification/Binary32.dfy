/** The rounding of whole numbers to IEEE 754 binary32, the float of the program: 24 significant bits,
    ties to even. Sums and conversions of whole-number floats are whole numbers again, so integers
    with this rounding model the program's coordinates. */
module Binary32 {
  import opened Arith

  /** 2^24: up to here every whole number is a float. */
  const EXACT := 0x100_0000

  /** 2^23 */
  const HALF := 0x80_0000

  /** The distance between neighbouring floats at magnitude `m`, but at least 1. */
  function Ulp(m: nat): (u: nat)
    ensures u > 0
  {
    if m < EXACT then 1 else 2 * Ulp(m / 2)
  }

  /** The multiple of `u` nearest to `m`; of two equally near, the even one. */
  function Nearest(m: nat, u: nat): nat
    requires u > 0
  {
    var q, r := m / u, m % u;
    if 2 * r < u || (2 * r == u && q % 2 == 0) then q * u else (q + 1) * u
  }

  function Float(n: int): int {
    if -EXACT <= n <= EXACT then n
    else if n < 0 then 0 - Nearest(-n, Ulp(-n))
    else Nearest(n, Ulp(n))
  }

  /** Rounding goes to a multiple of the spacing, by at most half of it, and is symmetric. */
  lemma FloatRounds(n: int)
    ensures var u := Ulp(Abs(n)); Float(n) % u == 0 && 2 * Abs(Float(n) - n) <= u
    ensures Float(-n) == -Float(n)
  {
    var m, u := Abs(n), Ulp(Abs(n));
    if m > EXACT {
      NearestRounds(m, u);
      MultipleNegated(Nearest(m, u), u);
    } else if m == EXACT {
      assert Ulp(m / 2) == 1;
    }
  }

  lemma NearestRounds(m: nat, u: nat)
    requires u > 0
    ensures Nearest(m, u) % u == 0 && 2 * Abs(Nearest(m, u) - m) <= u
  {
    var q, r := m / u, m % u;
    assert m == q * u + r && (q + 1) * u == q * u + u;
    DivModUnique(q * u, u, q, 0);
    DivModUnique((q + 1) * u, u, q + 1, 0);
  }

  lemma MultipleNegated(k: int, u: nat)
    requires u > 0 && k % u == 0
    ensures -k % u == 0
  {
    var q := k / u;
    assert k == q * u;
    assert -k == -q * u + 0;
    DivModUnique(-k, u, -q, 0);
  }

  // ---------- Real numbers ----------

  /** The whole number nearest to `x`; of two equally near, the even one. */
  function Nearby(x: real): int {
    var f := x.Floor;
    if x - f as real < 0.5 || (x - f as real == 0.5 && f % 2 == 0) then f else f + 1
  }

  /** How far a positive number is from having its last significant bit at 1. */
  function Scale(x: real): nat
    requires x > 0.0
  {
    if x >= EXACT as real then x.Floor else FloorOf(HALF as real / x)
  }

  function FloorOf(x: real): nat
    requires x >= 0.0
  {
    x.Floor
  }

  lemma HalvesSmaller(x: real)
    requires x > 0.0
    ensures x >= EXACT as real ==> Scale(x / 2.0) < Scale(x)
    ensures x < HALF as real ==> Scale(2.0 * x) < Scale(x)
  {
    if x < HALF as real {
      var y := HALF as real / x;
      assert y > 1.0;
      assert HALF as real / (2.0 * x) == y / 2.0;
    } else if x >= EXACT as real && x / 2.0 < EXACT as real {
      assert HALF as real / (x / 2.0) <= 1.0;
    }
  }

  /** A positive number rounded to 24 significant bits. */
  function Significant(x: real): real
    requires x > 0.0
    decreases Scale(x)
  {
    HalvesSmaller(x);
    if x >= EXACT as real then 2.0 * Significant(x / 2.0)
    else if x < HALF as real then Significant(2.0 * x) / 2.0
    else Nearby(x) as real
  }

  /** The conversion of a real number to binary32, overflow and underflow aside. */
  function Round(x: real): real {
    if x > 0.0 then Significant(x) else if x < 0.0 then -Significant(-x) else 0.0
  }

  /** The product and the quotient of two floats. */
  function Times(a: real, b: real): real { Round(a * b) }

  function Over(a: real, b: real): real
    requires b != 0.0
  {
    Round(a / b)
  }

  /** x * 2^k and x * 2^-k */
  function Raised(x: real, k: nat): real
    decreases k
  {
    if k == 0 then x else Raised(2.0 * x, k - 1)
  }

  function Lowered(x: real, k: nat): real
    decreases k
  {
    if k == 0 then x else Lowered(x, k - 1) / 2.0
  }

  lemma {:induction false} RaisedGrows(x: real, k: nat)
    requires x > 0.0
    ensures Raised(x, k) >= x && (k > 0 ==> Raised(x, k) >= 2.0 * x)
    decreases k
  {
    if k > 0 {
      RaisedGrows(2.0 * x, k - 1);
    }
  }

  lemma {:induction false} RaisedIs(x: real, k: nat, d: real)
    requires d == Power(2, k) as real
    ensures Raised(x, k) == x * d
    decreases k
  {
    if k > 0 {
      RaisedIs(2.0 * x, k - 1, d / 2.0);
      TwiceTimes(x, d / 2.0);
    }
  }

  lemma {:induction false} LoweredIs(x: real, k: nat, d: real)
    requires d == Power(2, k) as real
    ensures Lowered(x, k) == x / d
    decreases k
  {
    if k > 0 {
      LoweredIs(x, k - 1, d / 2.0);
      TwiceOver(x, d / 2.0);
    }
  }

  lemma TwiceTimes(x: real, e: real)
    ensures (2.0 * x) * e == x * (2.0 * e)
  {
  }

  lemma TwiceOver(x: real, e: real)
    requires e > 0.0
    ensures x / e / 2.0 == x / (2.0 * e)
  {
  }

  lemma {:induction false} SignificantAt(x: real, k: nat)
    requires x > 0.0 && HALF as real <= Raised(x, k) < EXACT as real
    ensures Significant(x) == Lowered(Nearby(Raised(x, k)) as real, k)
    decreases k
  {
    if k > 0 {
      RaisedGrows(x, k);
      SignificantAt(2.0 * x, k - 1);
    }
  }

  /** Rounding at the scale d = 2^k: the last significant bit counts 1/d. */
  lemma RoundAt(x: real, k: nat, d: real, y: real)
    requires x > 0.0 && d == Power(2, k) as real && y == x * d && HALF as real <= y < EXACT as real
    ensures Round(x) == Nearby(y) as real / d
  {
    RaisedIs(x, k, d);
    SignificantAt(x, k);
    LoweredIs(Nearby(y) as real, k, d);
  }

  lemma {:induction false} SignificantClose(x: real)
    requires x > 0.0
    ensures -x <= (Significant(x) - x) * 16777216.0 <= x
    decreases Scale(x)
  {
    HalvesSmaller(x);
    if x >= EXACT as real {
      SignificantClose(x / 2.0);
    } else if x < HALF as real {
      SignificantClose(2.0 * x);
    }
  }

  /** `r` differs from `x` by at most one part in 2^24. */
  predicate Close(r: real, x: real) {
    x >= 0.0 && -x <= (r - x) * 16777216.0 <= x
  }

  /** The relative error of rounding is at most 2^-24. */
  lemma RoundClose(x: real)
    requires x >= 0.0
    ensures Close(Round(x), x) && Round(x) >= 0.0
  {
    if x > 0.0 {
      SignificantClose(x);
    }
  }

  lemma {:induction false} SignificantWhole(n: nat)
    requires 1 <= n <= EXACT
    ensures Significant(n as real) == n as real
    decreases n == EXACT, EXACT - n
  {
    if n == EXACT {
      SignificantWhole(HALF);
    } else if n < HALF {
      SignificantWhole(2 * n);
      assert (2 * n) as real == 2.0 * n as real;
    }
  }

  lemma RoundWhole(n: int)
    requires -EXACT <= n <= EXACT
    ensures Round(n as real) == n as real
  {
    if n != 0 {
      SignificantWhole(Abs(n));
    }
  }

  lemma {:induction false} SignificantBound(x: real)
    requires x > 0.0
    ensures x < EXACT as real ==> Significant(x) <= EXACT as real
    ensures x >= EXACT as real ==> Significant(x) >= EXACT as real
    decreases Scale(x)
  {
    HalvesSmaller(x);
    if x >= EXACT as real {
      SignificantBound(x / 2.0);
    } else if x < HALF as real {
      SignificantBound(2.0 * x);
    }
  }

  lemma NearbyMono(x: real, y: real)
    requires x <= y
    ensures Nearby(x) <= Nearby(y)
  {
  }

  lemma {:induction false} SignificantMono(x: real, y: real)
    requires 0.0 < x <= y
    ensures Significant(x) <= Significant(y)
    decreases Scale(x)
  {
    HalvesSmaller(x);
    if x >= EXACT as real {
      SignificantMono(x / 2.0, y / 2.0);
    } else if y < HALF as real {
      SignificantMono(2.0 * x, 2.0 * y);
    } else if y >= EXACT as real {
      SignificantBound(x);
      SignificantBound(y);
    } else if x < HALF as real {
      SignificantBound(2.0 * x);
    } else {
      NearbyMono(x, y);
    }
  }

  lemma RoundMono(x: real, y: real)
    requires x <= y
    ensures Round(x) <= Round(y)
  {
    if x > 0.0 {
      SignificantMono(x, y);
    } else if y < 0.0 {
      SignificantMono(-y, -x);
    }
    RoundSign(x);
    RoundSign(y);
  }

  lemma RoundSign(x: real)
    ensures x >= 0.0 ==> Round(x) >= 0.0
    ensures x <= 0.0 ==> Round(x) <= 0.0
  {
    if x > 0.0 {
      SignificantClose(x);
    } else if x < 0.0 {
      SignificantClose(-x);
    }
  }

  // ---------- Both forms of rounding agree on whole numbers ----------

  /** The spacing doubles with the magnitude. */
  lemma UlpHalf(x: real)
    requires x >= EXACT as real
    ensures Ulp(x.Floor) == 2 * Ulp((x / 2.0).Floor)
  {
    assert (x / 2.0).Floor == x.Floor / 2;
  }

  lemma {:induction false} RaisedStep(x: real, k: nat)
    ensures Raised(x, k + 1) == 2.0 * Raised(x, k)
    decreases k
  {
    if k > 0 {
      RaisedStep(2.0 * x, k - 1);
    }
  }

  /** A large number is z * 2^k with z in the range of 24 bits; rounding and spacing scale with it. */
  lemma {:induction false} LargeParts(x: real) returns (z: real, k: nat)
    requires x >= HALF as real
    ensures x == Raised(z, k) && Significant(x) == Raised(Nearby(z) as real, k) && Ulp(x.Floor) == Power(2, k)
    decreases Scale(x)
  {
    if x < EXACT as real {
      z, k := x, 0;
    } else {
      HalvesSmaller(x);
      UlpHalf(x);
      z, k := LargeParts(x / 2.0);
      RaisedStep(z, k);
      RaisedStep(Nearby(z) as real, k);
      k := k + 1;
    }
  }

  lemma Order(a: real, b: real, w: real)
    requires w > 0.0
    ensures a < b <==> a * w < b * w
  {
  }

  /** Where `d` is the fraction r / w, against a fixed fraction. */
  lemma Fraction(d: real, r: real, w: real, c: real)
    requires w > 0.0 && d * w == r
    ensures (d < c <==> r < c * w) && (c < d <==> c * w < r)
  {
    Order(d, c, w);
    Order(c, d, w);
  }

  lemma NearbyAt(z: real, q: int, r: nat, u: nat)
    requires r < u && (z - q as real) * u as real == r as real
    ensures Nearby(z) == if 2 * r < u || (2 * r == u && q % 2 == 0) then q else q + 1
  {
    var d, w := z - q as real, u as real;
    Fraction(d, r as real, w, 0.0);
    Fraction(d, r as real, w, 1.0);
    Fraction(d, r as real, w, 0.5);
    assert z.Floor == q;
  }

  lemma ProductAsReal(a: int, b: int)
    ensures (a * b) as real == a as real * b as real
  {
  }

  lemma NearestQuotient(m: nat, u: nat, z: real)
    requires u > 0 && m as real == u as real * z
    ensures Nearest(m, u) as real == u as real * Nearby(z) as real
  {
    var q, r := m / u, m % u;
    assert m == q * u + r;
    ProductAsReal(q, u);
    assert (z - q as real) * u as real == u as real * z - q as real * u as real;
    NearbyAt(z, q, r, u);
    ProductAsReal(u, Nearby(z));
  }

  lemma RaisedBy(x: real, k: nat, u: nat, y: real)
    requires u == Power(2, k) && y == Raised(x, k)
    ensures y == u as real * x
  {
    RaisedIs(x, k, u as real);
  }

  lemma NearestRaised(m: nat, u: nat, k: nat, z: real)
    requires u == Power(2, k) && m as real == Raised(z, k)
    ensures Nearest(m, u) as real == Raised(Nearby(z) as real, k)
  {
    RaisedBy(z, k, u, m as real);
    NearestQuotient(m, u, z);
    RaisedBy(Nearby(z) as real, k, u, Raised(Nearby(z) as real, k));
  }

  lemma LargeIsRound(m: nat)
    requires m > EXACT
    ensures Nearest(m, Ulp(m)) as real == Significant(m as real)
  {
    var z, k := LargeParts(m as real);
    assert (m as real).Floor == m;
    NearestRaised(m, Ulp(m), k, z);
  }

  lemma FloatIsRound(n: int)
    ensures Float(n) as real == Round(n as real)
  {
    if Abs(n) <= EXACT {
      RoundWhole(n);
    } else {
      LargeIsRound(Abs(n));
    }
  }
}
