/** C integer arithmetic where it differs from Dafny's (section 6.5.5 of ISO C11), powers, and the
    few multiplication and division facts the proofs need. */
module Arith {

  /** C division: truncates toward zero. */
  function Div(a: int, b: int): int
    requires b != 0
  {
    if a >= 0 then a / b else -(-a / b)
  }

  /** C remainder: takes the sign of the dividend. */
  function Rem(a: int, b: int): int
    requires b != 0
  {
    if a >= 0 then a % b else -(-a % b)
  }

  function Abs(a: int): nat { if a < 0 then -a else a }

  function Max(a: int, b: int): int { if a < b then b else a }

  function Min(a: int, b: int): int { if a < b then a else b }

  function Power(b: nat, k: nat): (r: nat)
    ensures b > 0 ==> r > 0
  {
    if k == 0 then 1 else b * Power(b, k - 1)
  }

  lemma MulMono(a: int, b: int, l: nat)
    requires a <= b
    ensures a * l <= b * l
  {
  }

  lemma MulStrict(a: int, b: int, l: nat)
    requires a < b
    ensures a * l + l <= b * l
  {
    MulMono(a + 1, b, l);
  }

  lemma MulInjective(a: int, b: int, d: int)
    requires d != 0
    ensures a * d == b * d <==> a == b
  {
  }

  /** Quotient and remainder are unique. */
  lemma DivModUnique(k: int, l: int, q: int, r: int)
    requires 0 <= r < l && k == q * l + r
    ensures k / l == q && k % l == r
  {
    var d := k / l - q;
    assert d * l == (k / l) * l - q * l;
    assert d * l == r - k % l;
    if d >= 1 {
      MulMono(1, d, l);
    } else if d <= -1 {
      MulMono(d, -1, l);
    }
  }

  lemma DivDiv(v: nat, m: nat)
    requires m > 0
    ensures (v / m) / 2 == v / (2 * m)
  {
    var q, r := v / m, v % m;
    assert v == q * m + r;
    var h, s := q / 2, q % 2;
    assert q * m == h * (2 * m) + s * m by { assert q == 2 * h + s; }
    DivModUnique(v, 2 * m, h, s * m + r);
  }

  lemma NextRemainder(m: nat, n: nat)
    requires n > 0
    ensures (m + 1) % n == if m % n + 1 == n then 0 else m % n + 1
  {
    var q, r := m / n, m % n;
    if r + 1 == n {
      assert m + 1 == (q + 1) * n + 0;
      DivModUnique(m + 1, n, q + 1, 0);
    } else {
      DivModUnique(m + 1, n, q, r + 1);
    }
  }

  lemma SameRemainder(p: nat, t: nat, n: nat)
    requires p < n
    ensures (p + t) % n == p <==> t % n == 0
  {
    var q, r := t / n, t % n;
    if p + r < n {
      DivModUnique(p + t, n, q, p + r);
    } else {
      assert p + t == (q + 1) * n + (p + r - n);
      DivModUnique(p + t, n, q + 1, p + r - n);
    }
  }
}
