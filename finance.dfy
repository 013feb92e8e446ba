// Finance primitives of the buy-vs-rent engine: powers, NumPy-style rounding,
// the annuity payment `pmt` and the annuity future value `fv_annuity`.
// Money and rates are exact reals.

module Finance {

  function Abs(x: real): real
  {
    if x < 0.0 then -x else x
  }

  lemma MulNonNegative(a: real, b: real)
    requires a >= 0.0 && b >= 0.0
    ensures a * b >= 0.0
  {
  }

  lemma Quotient(x: real, y: real, d: real)
    requires d != 0.0 && x * d == y
    ensures x == y / d
  {
  }

  /** b^n for a natural exponent; the source's `(1 + r) ** n`. */
  function Pow(b: real, n: nat): real
  {
    if n == 0 then 1.0 else b * Pow(b, n - 1)
  }

  lemma {:induction false} PowPositive(b: real, n: nat)
    requires b > 0.0
    ensures Pow(b, n) > 0.0
  {
    if n > 0 {
      PowPositive(b, n - 1);
    }
  }

  lemma {:induction false} PowAtLeastOne(b: real, n: nat)
    requires b >= 1.0
    ensures Pow(b, n) >= 1.0
  {
    if n > 0 {
      PowAtLeastOne(b, n - 1);
      var x := Pow(b, n - 1);
      assert b * x == (b - 1.0) * x + x;
    }
  }

  lemma {:induction false} PowAtMostOne(b: real, n: nat)
    requires 0.0 < b <= 1.0
    ensures 0.0 < Pow(b, n) <= 1.0
  {
    if n > 0 {
      PowAtMostOne(b, n - 1);
      var x := Pow(b, n - 1);
      MulNonNegative(1.0 - b, x);
      assert b * x == x - (1.0 - b) * x;
      assert b * x > 0.0;
    }
  }

  /** A factor of at least 1 raised to a higher power is no smaller. */
  lemma {:induction false} PowMonotone(b: real, m: nat, n: nat)
    requires b >= 1.0 && m <= n
    ensures Pow(b, m) <= Pow(b, n)
  {
    if m < n {
      PowMonotone(b, m, n - 1);
      PowAtLeastOne(b, n - 1);
      var x := Pow(b, n - 1);
      assert b * x == (b - 1.0) * x + x;
      MulNonNegative(b - 1.0, x);
    }
  }

  /** Compounding at a rate a >= 0 adds at least a over one year or more. */
  lemma PowGrowth(a: real, early: nat, late: nat)
    requires a >= 0.0 && early < late
    ensures Pow(1.0 + a, late) - Pow(1.0 + a, early) >= a
  {
    var b := 1.0 + a;
    var x := Pow(b, early);
    PowAtLeastOne(b, early);
    PowMonotone(b, early + 1, late);
    assert Pow(b, early + 1) == b * x;
    MulNonNegative(a, x - 1.0);
    assert b * x - x == a + a * (x - 1.0);
  }

  lemma {:induction false} PowOfOne(n: nat)
    ensures Pow(1.0, n) == 1.0
  {
    if n > 0 {
      PowOfOne(n - 1);
    }
  }

  /** A growth factor 1 + r with r > -1, raised to a positive power, is above 1
      exactly when r is positive and below 1 exactly when r is negative. */
  lemma GrowthFactorPow(r: real, n: nat)
    requires r > -1.0 && n > 0
    ensures Pow(1.0 + r, n) > 0.0
    ensures r > 0.0 <==> Pow(1.0 + r, n) > 1.0
    ensures r < 0.0 <==> Pow(1.0 + r, n) < 1.0
  {
    var b := 1.0 + r;
    var x := Pow(b, n - 1);
    assert Pow(b, n) == b * x;
    if r == 0.0 {
      PowOfOne(n);
    } else if r > 0.0 {
      PowAtLeastOne(b, n - 1);
      assert b * x == r * x + x;
      assert r * x > 0.0;
    } else {
      PowAtMostOne(b, n - 1);
      assert b * x == x + r * x;
      assert r * x < 0.0;
    }
  }

  /** Round half to even, as NumPy's `np.round(x)` does. */
  function RoundHalfEven(x: real): (n: int)
    ensures -0.5 <= n as real - x <= 0.5
    ensures (n as real - x == 0.5 || x - n as real == 0.5) ==> n % 2 == 0
  {
    var f := x.Floor;
    if x - f as real < 0.5 then f
    else if x - f as real > 0.5 then f + 1
    else if f % 2 == 0 then f
    else f + 1
  }

  /** A whole number of cents. */
  predicate IsCents(x: real)
  {
    (x * 100.0).Floor as real == x * 100.0
  }

  /** `np.round(x, 2)`: the nearest whole number of cents, ties to an even cent. */
  function Round2(x: real): (r: real)
    ensures -0.005 <= r - x <= 0.005
    ensures IsCents(r)
  {
    RoundHalfEven(x * 100.0) as real / 100.0
  }

  /** A rounding rule that moves no amount by more than half a cent. The ledger
      is stated for any such rule; `Round2` is one. */
  ghost predicate WithinHalfCent(roundCents: real -> real)
  {
    forall x :: -0.005 <= roundCents(x) - x <= 0.005
  }

  lemma Round2WithinHalfCent()
    ensures WithinHalfCent(Round2)
  {
    forall x
      ensures -0.005 <= Round2(x) - x <= 0.005
    {
    }
  }

  lemma RoundHalfEvenMonotone(x: real, y: real)
    requires x <= y
    ensures RoundHalfEven(x) <= RoundHalfEven(y)
  {
    if x < y {
      assert (RoundHalfEven(x) as real) < RoundHalfEven(y) as real + 1.0;
    }
  }

  lemma Round2Monotone(x: real, y: real)
    requires x <= y
    ensures Round2(x) <= Round2(y)
  {
    RoundHalfEvenMonotone(x * 100.0, y * 100.0);
  }

  /** `amount * (1 + rate) ** periods`: an amount compounded over `periods` periods. */
  function Compounded(amount: real, rate: real, periods: nat): real
  {
    amount * Pow(1.0 + rate, periods)
  }

  lemma CompoundedStep(amount: real, rate: real, periods: nat)
    requires periods > 0
    ensures Compounded(amount, rate, periods) == Compounded(amount, rate, periods - 1) * (1.0 + rate)
  {
    var p := Pow(1.0 + rate, periods - 1);
    assert amount * ((1.0 + rate) * p) == (amount * p) * (1.0 + rate);
  }

  /** Reference definition of an ordinary annuity: the balance of an account that
      grows by `rate` every period and receives `payment` at the end of each of
      `periods` periods. */
  function Accumulated(rate: real, periods: nat, payment: real): real
  {
    if periods == 0 then 0.0
    else Accumulated(rate, periods - 1, payment) * (1.0 + rate) + payment
  }

  /** `fv_annuity`: an explicit linear branch at rate 0, the closed form otherwise. */
  function FvAnnuity(rate: real, periods: nat, payment: real): real
  {
    if rate == 0.0 then payment * periods as real
    else payment * (Pow(1.0 + rate, periods) - 1.0) / rate
  }

  lemma {:induction false} AccumulatedZeroRate(periods: nat, payment: real)
    ensures Accumulated(0.0, periods, payment) == payment * periods as real
  {
    if periods > 0 {
      AccumulatedZeroRate(periods - 1, payment);
    }
  }

  lemma {:induction false} AccumulatedClosedForm(rate: real, periods: nat, payment: real)
    ensures Accumulated(rate, periods, payment) * rate == payment * (Pow(1.0 + rate, periods) - 1.0)
  {
    if periods > 0 {
      AccumulatedClosedForm(rate, periods - 1, payment);
      ClosedFormStep(rate, payment, Accumulated(rate, periods - 1, payment), Pow(1.0 + rate, periods - 1),
                     Accumulated(rate, periods, payment), Pow(1.0 + rate, periods));
    }
  }

  lemma ClosedFormStep(rate: real, payment: real, before: real, powBefore: real, after: real, powAfter: real)
    requires before * rate == payment * (powBefore - 1.0)
    requires after == before * (1.0 + rate) + payment && powAfter == (1.0 + rate) * powBefore
    ensures after * rate == payment * (powAfter - 1.0)
  {
    calc {
      after * rate;
      (before * rate) * (1.0 + rate) + payment * rate;
      payment * (powBefore - 1.0) * (1.0 + rate) + payment * rate;
      payment * ((1.0 + rate) * powBefore - 1.0);
    }
  }

  /** Both branches of `fv_annuity` agree with the accumulation they stand for;
      in particular `FvAnnuity(0, n, p) == p * n` exactly. */

  /** An annuity is linear in its payment. */
  /** At every rate `fv_annuity` is the account that grows by `rate` and
      receives `payment` every period. */
  lemma FvAnnuityAccumulates(rate: real, periods: nat, payment: real)
    ensures FvAnnuity(rate, periods, payment) == Accumulated(rate, periods, payment)
  {
    if rate == 0.0 {
      AccumulatedZeroRate(periods, payment);
    } else {
      AccumulatedClosedForm(rate, periods, payment);
      Quotient(Accumulated(rate, periods, payment), payment * (Pow(1.0 + rate, periods) - 1.0), rate);
    }
  }

  lemma {:induction false} AccumulatedLinear(rate: real, periods: nat, payment: real)
    ensures Accumulated(rate, periods, payment) == payment * Accumulated(rate, periods, 1.0)
  {
    if periods > 0 {
      AccumulatedLinear(rate, periods - 1, payment);
    }
  }

  /** With a non-negative rate, the account holds at least what was paid in. */
  lemma {:induction false} AccumulatedCoversContributions(rate: real, periods: nat, payment: real)
    requires rate >= 0.0 && payment >= 0.0
    ensures Accumulated(rate, periods, payment) >= payment * periods as real
  {
    if periods > 0 {
      AccumulatedCoversContributions(rate, periods - 1, payment);
      var a := Accumulated(rate, periods - 1, payment);
      assert a * (1.0 + rate) == a + a * rate;
    }
  }

  lemma FvAnnuityCoversContributions(rate: real, periods: nat, payment: real)
    requires rate >= 0.0 && payment >= 0.0
    ensures FvAnnuity(rate, periods, payment) >= payment * periods as real
  {
    FvAnnuityAccumulates(rate, periods, payment);
    AccumulatedCoversContributions(rate, periods, payment);
  }

  /** The closed-form payment r·P / (1 - q^-1), for the growth factor
      q = (1 + r)^n, accumulates over the n periods to P·q, and with r > 0
      exceeds one period's interest r·P. */
  lemma ClosedFormPayment(rate: real, periods: nat, principal: real, q: real)
    requires rate > -1.0 && rate != 0.0 && periods > 0
    requires q == Pow(1.0 + rate, periods)
    ensures q > 0.0 && 1.0 - 1.0 / q != 0.0
    ensures FvAnnuity(rate, periods, rate * principal / (1.0 - 1.0 / q)) == principal * q
    ensures rate > 0.0 && principal > 0.0 ==> rate * principal / (1.0 - 1.0 / q) > rate * principal
  {
    GrowthFactorPow(rate, periods);
    var d := 1.0 - 1.0 / q;
    assert d * q == q - 1.0;
    var payment := rate * principal / d;
    assert payment * d == rate * principal;
    calc {
      payment * (q - 1.0);
      payment * (d * q);
      (payment * d) * q;
      (rate * principal) * q;
      (principal * q) * rate;
    }
    Quotient(principal * q, payment * (q - 1.0), rate);
    if rate > 0.0 && principal > 0.0 {
      assert 0.0 < d < 1.0;
      assert payment > 0.0;
    }
  }

  /** The divisor of `pmt`: 1 - (1 + rate)^-periods. */
  function PmtDenominator(rate: real, periods: nat): real
    requires rate > -1.0
  {
    PowPositive(1.0 + rate, periods);
    1.0 - 1.0 / Pow(1.0 + rate, periods)
  }

  /** Over one or more periods the divisor of `pmt` vanishes exactly at a zero
      rate: there the formula as written divides by zero. */
  lemma PmtDenominatorZero(rate: real, periods: nat)
    requires rate > -1.0 && periods > 0
    ensures PmtDenominator(rate, periods) == 0.0 <==> rate == 0.0
  {
    var q := Pow(1.0 + rate, periods);
    GrowthFactorPow(rate, periods);
    if rate == 0.0 {
      PowOfOne(periods);
    }
    assert (1.0 / q) * q == 1.0;
  }

  /** `pmt`: the fixed payment that retires `principal` over `periods` periods,
      rate·principal / (1 - (1 + rate)^-periods). The divisor is 0 at rate 0,
      so a zero rate is outside its domain. The payments' future value equals
      the principal compounded over the term: the loan is paid off exactly. */
  function Pmt(rate: real, periods: nat, principal: real): (payment: real)
    requires rate > -1.0 && rate != 0.0 && periods > 0
    ensures FvAnnuity(rate, periods, payment) == principal * Pow(1.0 + rate, periods)
    ensures rate > 0.0 && principal > 0.0 ==> payment > rate * principal
  {
    var q := Pow(1.0 + rate, periods);
    ClosedFormPayment(rate, periods, principal, q);
    rate * principal / PmtDenominator(rate, periods)
  }

  /** `pmt` with the zero-rate branch it lacks, the way `fv_annuity` has one:
      at a zero rate the level payment is the principal spread evenly over the
      periods. At every rate above -1 the payments' future value equals the
      principal compounded over the term. */
  function LevelPayment(rate: real, periods: nat, principal: real): (payment: real)
    requires rate > -1.0 && periods > 0
    ensures FvAnnuity(rate, periods, payment) == principal * Pow(1.0 + rate, periods)
    ensures rate != 0.0 ==> payment == Pmt(rate, periods, principal)
  {
    if rate == 0.0 then
      EvenSplit(principal, periods);
      principal / periods as real
    else
      Pmt(rate, periods, principal)
  }

  lemma EvenSplit(principal: real, periods: nat)
    requires periods > 0
    ensures FvAnnuity(0.0, periods, principal / periods as real) == principal * Pow(1.0 + 0.0, periods)
  {
    PowOfOne(periods);
    var n := periods as real;
    assert (principal / n) * n == principal;
  }
}
