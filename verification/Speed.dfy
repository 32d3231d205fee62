/** The speed commands on one component, src/server/localball_list.c lines 46-83. */
module Speed {
  import opened Arith

  const MAX_SPEED := 2000
  const MIN_SPEED := -2000

  function Up(d: int): int {
    if d > 0 then (if d > MAX_SPEED then MAX_SPEED else d * 2)
    else if d < 0 then (if d < MIN_SPEED then MIN_SPEED else d * 2)
    else d
  }

  function Down(d: int): int {
    if d > 0 then (if d > 1 then Div(d, 2) else 1)
    else if d < 0 then (if d < -1 then Div(d, 2) else -1)
    else d
  }

  function Ups(d: int, k: nat): int {
    if k == 0 then d else Up(Ups(d, k - 1))
  }

  function Downs(d: int, k: nat): int {
    if k == 0 then d else Down(Downs(d, k - 1))
  }

  predicate InRange(d: int) {
    1 <= d <= 4000 || -4000 <= d <= -1
  }

  predicate SameSign(d: int, e: int) {
    (d > 0 <==> e > 0) && (d < 0 <==> e < 0)
  }

  lemma SpeedsBounded(d: int)
    requires InRange(d)
    ensures InRange(Up(d)) && InRange(Down(d)) && SameSign(d, Up(d)) && SameSign(d, Down(d))
  {
  }

  lemma {:induction false} OddSymmetry(d: int, k: nat)
    ensures Ups(-d, k) == -Ups(d, k) && Downs(-d, k) == -Downs(d, k)
  {
    if k > 0 {
      OddSymmetry(d, k - 1);
    }
  }

  lemma {:induction false} PositiveUps(d: int, k: nat)
    requires d >= 1 && (k >= 1 ==> d * Power(2, k - 1) <= MAX_SPEED)
    ensures Ups(d, k) == d * Power(2, k)
  {
    if k >= 1 {
      if k >= 2 {
        assert d * Power(2, k - 2) * 2 == d * Power(2, k - 1);
      }
      PositiveUps(d, k - 1);
    }
  }

  lemma {:induction false} PositiveUpsClamped(d: int, k: nat)
    requires d >= 1 && k >= 1 && d * Power(2, k - 1) > MAX_SPEED
    ensures Ups(d, k) == 2000 || Ups(d, k) == 4000
  {
    if k >= 2 && d * Power(2, k - 2) > MAX_SPEED {
      PositiveUpsClamped(d, k - 1);
    } else {
      PositiveUps(d, k - 1);
    }
  }

  lemma {:induction false} PositiveDowns(d: int, k: nat)
    requires d >= 1
    ensures Downs(d, k) == Max(1, d / Power(2, k))
  {
    if k >= 1 {
      PositiveDowns(d, k - 1);
      DivDiv(d, Power(2, k - 1));
    }
  }

  function Sign(d: int): int {
    if d < 0 then -1 else if d > 0 then 1 else 0
  }

  /** While no step clamps, k speed-ups multiply by 2^k. */
  lemma UpsUnclamped(d: int, k: nat)
    requires k >= 1 ==> Abs(d) * Power(2, k - 1) <= MAX_SPEED
    ensures Ups(d, k) == d * Power(2, k)
  {
    if d > 0 {
      PositiveUps(d, k);
    } else if d < 0 {
      PositiveUps(-d, k);
      OddSymmetry(d, k);
      assert -d * Power(2, k) == -(d * Power(2, k));
    } else {
      ZeroStays(k);
    }
  }

  /** Once a step has clamped, the speed alternates between 2000 and 4000. */
  lemma UpsClamped(d: int, k: nat)
    requires k >= 1 && Abs(d) * Power(2, k - 1) > MAX_SPEED
    ensures Ups(d, k) == Sign(d) * 2000 || Ups(d, k) == Sign(d) * 4000
  {
    if d == 0 {
      assert false;
    }
    PositiveUpsClamped(Abs(d), k);
    OddSymmetry(d, k);
  }

  lemma {:induction false} PositiveAfterClamp(d: int, k: nat, j: nat)
    requires d * Power(2, k) > 2000 && (k == 0 || d * Power(2, k - 1) <= 2000) && d >= 1 && j >= 1
    ensures Ups(d, k + j) == if j % 2 == 1 then 2000 else 4000
    decreases j
  {
    if j > 1 {
      PositiveAfterClamp(d, k, j - 1);
    } else {
      PositiveUps(d, k);
    }
    assert Ups(d, k + j) == Up(Ups(d, k + j - 1));
  }

  /** After the k speed-ups that first exceed 2000, further ones give 2000, 4000, 2000, ... in turn. */
  lemma AfterClamp(d: int, k: nat, j: nat)
    requires Abs(d) * Power(2, k) > 2000 && (k == 0 || Abs(d) * Power(2, k - 1) <= 2000) && j >= 1
    ensures Ups(d, k + j) == Sign(d) * if j % 2 == 1 then 2000 else 4000
  {
    if d == 0 {
      assert false;
    }
    PositiveAfterClamp(Abs(d), k, j);
    OddSymmetry(d, k + j);
  }

  /** k speed-downs divide by 2^k, but never below 1. */
  lemma DownsDivide(d: int, k: nat)
    ensures Downs(d, k) == Sign(d) * Max(1, Abs(d) / Power(2, k))
  {
    if d > 0 {
      PositiveDowns(d, k);
    } else if d < 0 {
      PositiveDowns(-d, k);
      OddSymmetry(d, k);
    } else {
      ZeroStays(k);
    }
  }

  lemma {:induction false} ZeroStays(k: nat)
    ensures Ups(0, k) == 0 && Downs(0, k) == 0
  {
    if k > 0 {
      ZeroStays(k - 1);
    }
  }

  /** Exactly which speeds k speed-ups followed by k speed-downs restore. */
  predicate Restorable(d: int, k: nat) {
    k == 0 || -1 <= d <= 1 || -MAX_SPEED <= d * Power(2, k - 1) <= MAX_SPEED
  }

  lemma RestoredPositive(d: int, k: nat)
    requires d >= 1
    ensures Downs(Ups(d, k), k) == d <==> Restorable(d, k)
  {
    if k >= 1 {
      var m := Power(2, k - 1);
      assert Power(2, k) == 2 * m;
      if d * m <= MAX_SPEED {
        PositiveUps(d, k);
        PositiveDowns(d * (2 * m), k);
        DivModUnique(d * (2 * m), 2 * m, d, 0);
      } else {
        PositiveUpsClamped(d, k);
        PositiveDowns(Ups(d, k), k);
        SmallQuotient(Ups(d, k), d, m);
      }
    }
  }

  lemma SmallQuotient(u: nat, d: nat, m: nat)
    requires m > 0 && u <= 4000 && d * m > 2000
    ensures u / (2 * m) < d
  {
  }

  /** Restored for every component and every k, if and only if `Restorable`. */
  lemma RestoredExactly(d: int, k: nat)
    ensures Downs(Ups(d, k), k) == d <==> Restorable(d, k)
  {
    if d > 0 {
      RestoredPositive(d, k);
    } else if d < 0 {
      RestoredPositive(-d, k);
      OddSymmetry(d, k);
      OddSymmetry(Ups(d, k), k);
      if k >= 1 {
        assert -d * Power(2, k - 1) == -(d * Power(2, k - 1));
        assert Restorable(d, k) <==> Restorable(-d, k);
      }
    } else {
      ZeroStays(k);
    }
  }
}
