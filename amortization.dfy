// The monthly amortization ledger: the `for period in range(1, periods + 1)`
// loop that fills the monthly DataFrame row by row, and the cumulative columns
// computed after it.

module Amortization {
  import opened Finance
  import opened Columns

  /** What the ledger is built from: the loan principal, the monthly rate, the
      fixed P&I payment (already rounded to cents), the fixed monthly fees
      (property tax + HOA + insurance) and the number of monthly periods. */
  datatype Loan = Loan(principal: real, rate: real, pAndI: real, fees: real, periods: nat)
  {
    /** The "Payment" column: P&I plus fees. */
    function Payment(): real
    {
      pAndI + fees
    }
  }

  /** The monthly DataFrame, column by column; entry k of a column is the row of
      period k + 1. The constant columns P&I, Fees and Payment are one value each. */
  datatype Ledger = Ledger(
    pAndI: real, fees: real, payment: real,
    startBalance: seq<real>, interestPaid: seq<real>, principalPaid: seq<real>, endBalance: seq<real>,
    cumPrincipal: seq<real>, cumPayment: seq<real>)

  /** One month's interest on a balance, before rounding. */
  function Interest(balance: real, rate: real): real
  {
    balance * rate
  }

  /** One row of the monthly DataFrame, as the loop writes it. */
  datatype Month = Month(startBalance: real, interestPaid: real, principalPaid: real, endBalance: real)

  /** One month of the ledger from its starting balance: the month's interest
      rounded to cents, the rest of the P&I as principal paid, and the balance
      that leaves. */
  function Step(pAndI: real, rate: real, roundCents: real -> real, start: real): Month
  {
    var interest := roundCents(Interest(start, rate));
    Month(start, interest, pAndI - interest, start - (pAndI - interest))
  }

  /** The balance owed after n monthly payments, one `Step` after another from
      the principal. */
  function BalanceAfter(loan: Loan, roundCents: real -> real, n: nat): real
  {
    if n == 0 then loan.principal
    else Step(loan.pAndI, loan.rate, roundCents, BalanceAfter(loan, roundCents, n - 1)).endBalance
  }

  ghost predicate HasRows(l: Ledger, n: nat)
  {
    && |l.startBalance| == n && |l.interestPaid| == n && |l.principalPaid| == n
    && |l.endBalance| == n && |l.cumPrincipal| == n && |l.cumPayment| == n
  }

  /** The bookkeeping of row k (period k + 1). */
  ghost predicate RowFollows(loan: Loan, roundCents: real -> real, l: Ledger, k: nat)
    requires HasRows(l, loan.periods) && k < loan.periods
  {
    && l.startBalance[k] == (if k == 0 then loan.principal else l.endBalance[k - 1])
    && var m := Step(loan.pAndI, loan.rate, roundCents, l.startBalance[k]);
       l.interestPaid[k] == m.interestPaid && l.principalPaid[k] == m.principalPaid && l.endBalance[k] == m.endBalance
  }

  /** A complete monthly ledger for `loan`. */
  ghost predicate IsLedger(loan: Loan, roundCents: real -> real, l: Ledger)
  {
    && l.pAndI == loan.pAndI && l.fees == loan.fees && l.payment == loan.Payment()
    && HasRows(l, loan.periods)
    && (forall k :: 0 <= k < loan.periods ==> RowFollows(loan, roundCents, l, k))
    && (forall k {:trigger l.cumPrincipal[k]} :: 0 <= k < loan.periods ==> l.cumPrincipal[k] == Sum(l.principalPaid[..k + 1]))
    && (forall k :: 0 <= k < loan.periods ==> l.cumPayment[k] == (k + 1) as real * loan.Payment())
  }

  /** Row k + 1 of the ledger as the recurrence has it, interest rounded to
      cents: the step from the balance after k payments. */
  function MonthAt(loan: Loan, k: nat): (m: Month)
    ensures m.startBalance == BalanceAfter(loan, Round2, k)
    ensures m.endBalance == BalanceAfter(loan, Round2, k + 1)
  {
    Step(loan.pAndI, loan.rate, Round2, BalanceAfter(loan, Round2, k))
  }

  /** Builds the monthly ledger. Row 1 starts from the principal, every later row
      from the previous row's ending balance; in every row principal paid plus
      interest paid is the P&I and the ending balance is the starting balance
      less the principal paid; the cumulative principal is the running sum of
      principal paid and the cumulative payment is k times the payment. */
  method BuildLedger(loan: Loan) returns (l: Ledger)
    ensures IsLedger(loan, Round2, l)
  {
    var rows := new Month[loan.periods];
    FillLedger(loan, rows);
    l := Assemble(loan, rows[..]);
  }

  /** The `for period in range(1, periods + 1)` loop: fills the rows of the
      ledger one by one, each row starting from the previous one's ending
      balance; row k + 1 is the recurrence's. */
  method FillLedger(loan: Loan, rows: array<Month>)
    requires rows.Length == loan.periods
    modifies rows
    ensures forall k :: 0 <= k < rows.Length ==> rows[k] == MonthAt(loan, k)
  {
    for period := 1 to rows.Length + 1
      invariant forall k :: 0 <= k < period - 1 ==> rows[k] == MonthAt(loan, k)
    {
      var startBalance := if period == 1 then loan.principal else rows[period - 2].endBalance;
      var interestPaid := Round2(Interest(startBalance, loan.rate));
      var principalPaid := loan.pAndI - interestPaid;
      rows[period - 1] := Month(startBalance, interestPaid, principalPaid, startBalance - principalPaid);
    }
  }

  /** The ledger holding, column by column, the rows the loop filled, with the
      two cumulative columns added by `cumsum`. */
  function Assemble(loan: Loan, rows: seq<Month>): (l: Ledger)
    requires |rows| == loan.periods
    requires forall k :: 0 <= k < |rows| ==> rows[k] == MonthAt(loan, k)
    ensures IsLedger(loan, Round2, l)
  {
    var n := |rows|;
    var paid := seq(n, k requires 0 <= k < n => rows[k].principalPaid);
    var l := Ledger(loan.pAndI, loan.fees, loan.Payment(),
                    seq(n, k requires 0 <= k < n => rows[k].startBalance),
                    seq(n, k requires 0 <= k < n => rows[k].interestPaid),
                    paid,
                    seq(n, k requires 0 <= k < n => rows[k].endBalance),
                    Cumsum(paid), CumsumOfConstant(loan.Payment(), n));
    assert forall k :: 0 <= k < n ==> RowFollows(loan, Round2, l, k) by {
      forall k | 0 <= k < n
        ensures RowFollows(loan, Round2, l, k)
      {
        var m := rows[k];
        assert m == MonthAt(loan, k);
        assert m == Step(loan.pAndI, loan.rate, Round2, BalanceAfter(loan, Round2, k));
        assert l.startBalance[k] == m.startBalance && l.interestPaid[k] == m.interestPaid;
        assert l.principalPaid[k] == m.principalPaid && l.endBalance[k] == m.endBalance;
        if k > 0 {
          assert l.endBalance[k - 1] == MonthAt(loan, k - 1).endBalance;
        }
      }
    }
    l
  }

  /** Every row of a ledger agrees with the recurrence: row k starts with the
      balance after k payments and ends with the balance after k + 1. */
  lemma {:induction false} LedgerFollowsRecurrence(loan: Loan, roundCents: real -> real, l: Ledger, k: nat)
    requires IsLedger(loan, roundCents, l) && k < loan.periods
    ensures l.startBalance[k] == BalanceAfter(loan, roundCents, k)
    ensures l.endBalance[k] == BalanceAfter(loan, roundCents, k + 1)
  {
    assert RowFollows(loan, roundCents, l, k);
    if k > 0 {
      LedgerFollowsRecurrence(loan, roundCents, l, k - 1);
    }
  }

  /** The principal paid over rows lo..hi-1 is the drop in balance across them. */
  lemma {:induction false} PrincipalTelescopes(loan: Loan, roundCents: real -> real, l: Ledger, lo: nat, hi: nat)
    requires IsLedger(loan, roundCents, l) && lo < hi <= loan.periods
    ensures Sum(l.principalPaid[lo..hi]) == l.startBalance[lo] - l.endBalance[hi - 1]
  {
    assert RowFollows(loan, roundCents, l, hi - 1);
    assert l.principalPaid[lo..hi][..hi - lo - 1] == l.principalPaid[lo..hi - 1];
    if lo + 1 < hi {
      PrincipalTelescopes(loan, roundCents, l, lo, hi - 1);
      assert RowFollows(loan, roundCents, l, hi - 1);
    }
  }

  /** The cumulative principal column is the principal repaid so far. */
  lemma PrincipalRepaid(loan: Loan, roundCents: real -> real, l: Ledger, k: nat)
    requires IsLedger(loan, roundCents, l) && k < loan.periods
    ensures l.cumPrincipal[k] == loan.principal - l.endBalance[k]
  {
    assert RowFollows(loan, roundCents, l, 0);
    assert l.principalPaid[0..k + 1] == l.principalPaid[..k + 1];
    PrincipalTelescopes(loan, roundCents, l, 0, k + 1);
  }

  /** Over any run of rows lo..hi-1, principal paid plus interest paid is the
      P&I times the number of rows. */
  lemma PaymentsSplit(loan: Loan, roundCents: real -> real, l: Ledger, lo: nat, hi: nat)
    requires IsLedger(loan, roundCents, l) && lo <= hi <= loan.periods
    ensures Sum(l.principalPaid[lo..hi]) + Sum(l.interestPaid[lo..hi]) == (hi - lo) as real * loan.pAndI
  {
    RowsSplit(loan, roundCents, l);
    SliceOfComplements(l.principalPaid, l.interestPaid, loan.pAndI, lo, hi);
  }

  /** In every row principal paid plus interest paid is the P&I. */
  lemma RowsSplit(loan: Loan, roundCents: real -> real, l: Ledger)
    requires IsLedger(loan, roundCents, l)
    ensures forall k :: 0 <= k < |l.principalPaid| ==> l.principalPaid[k] + l.interestPaid[k] == loan.pAndI
  {
    forall k | 0 <= k < |l.principalPaid|
      ensures l.principalPaid[k] + l.interestPaid[k] == loan.pAndI
    {
      assert RowFollows(loan, roundCents, l, k);
    }
  }

  /** One month of the ledger is one month of exact interest less the P&I,
      give or take the half cent of interest rounding. */
  lemma BalanceStep(loan: Loan, roundCents: real -> real, n: nat)
    requires WithinHalfCent(roundCents) && n > 0
    ensures var b := BalanceAfter(loan, roundCents, n - 1);
            Abs(BalanceAfter(loan, roundCents, n) - (b + Interest(b, loan.rate) - loan.pAndI)) <= 0.005
  {
    var b := BalanceAfter(loan, roundCents, n - 1);
    var interest := Interest(b, loan.rate);
    assert -0.005 <= roundCents(interest) - interest <= 0.005;
  }

  /** The balance of the schedule without rounding: the principal compounded
      over n months less the future value of n P&I payments. */
  function ExactBalance(principal: real, rate: real, payment: real, n: nat): real
  {
    principal * Pow(1.0 + rate, n) - Accumulated(rate, n, payment)
  }

  /** The unrounded schedule follows the ledger's recurrence with exact interest. */
  lemma ExactStep(principal: real, rate: real, payment: real, n: nat)
    requires n > 0
    ensures var e := ExactBalance(principal, rate, payment, n - 1);
            ExactBalance(principal, rate, payment, n) == e + Interest(e, rate) - payment
  {
    var q := 1.0 + rate;
    var p := Pow(q, n - 1);
    var a := Accumulated(rate, n - 1, payment);
    assert Pow(q, n) == q * p;
    assert principal * (q * p) == q * (principal * p);
    assert a * q == q * a;
  }

  lemma Compound(x: real, rate: real)
    ensures x + Interest(x, rate) == (1.0 + rate) * x
  {
  }

  lemma ScaledDrift(q: real, b: real, exact: real, bNext: real, exactNext: real, payment: real, bound: real)
    requires q >= 0.0 && Abs(b - exact) <= bound
    requires Abs(bNext - (q * b - payment)) <= 0.005
    requires exactNext == q * exact - payment
    ensures Abs(bNext - exactNext) <= bound * q + 0.005
  {
    var e := b - exact;
    ScaledBound(q, e, bound);
    var qe := q * e;
    assert q * b - q * exact == qe;
    assert bNext - exactNext == (bNext - (q * b - payment)) + qe;
    assert bound * q == q * bound;
  }

  lemma DriftStep(rate: real, b: real, exact: real, bNext: real, exactNext: real, payment: real, bound: real)
    requires rate > -1.0 && Abs(b - exact) <= bound
    requires Abs(bNext - (b + Interest(b, rate) - payment)) <= 0.005
    requires exactNext == exact + Interest(exact, rate) - payment
    ensures Abs(bNext - exactNext) <= bound * (1.0 + rate) + 0.005
  {
    Compound(b, rate);
    Compound(exact, rate);
    ScaledDrift(1.0 + rate, b, exact, bNext, exactNext, payment, bound);
  }

  /** Rounding interest to cents each month makes the balance drift from the
      exact schedule by at most the future value of half a cent per month. */
  lemma {:induction false} RoundingDrift(loan: Loan, roundCents: real -> real, n: nat)
    requires WithinHalfCent(roundCents) && loan.rate > -1.0
    ensures Abs(BalanceAfter(loan, roundCents, n) - ExactBalance(loan.principal, loan.rate, loan.pAndI, n))
            <= Accumulated(loan.rate, n, 0.005)
  {
    if n > 0 {
      RoundingDrift(loan, roundCents, n - 1);
      DriftOfMonth(loan, roundCents, n);
    }
  }

  /** One more month widens the drift by one month's growth and half a cent. */
  lemma DriftOfMonth(loan: Loan, roundCents: real -> real, n: nat)
    requires WithinHalfCent(roundCents) && loan.rate > -1.0 && n > 0
    requires Abs(BalanceAfter(loan, roundCents, n - 1) - ExactBalance(loan.principal, loan.rate, loan.pAndI, n - 1))
             <= Accumulated(loan.rate, n - 1, 0.005)
    ensures Abs(BalanceAfter(loan, roundCents, n) - ExactBalance(loan.principal, loan.rate, loan.pAndI, n))
            <= Accumulated(loan.rate, n, 0.005)
  {
    BalanceStep(loan, roundCents, n);
    ExactStep(loan.principal, loan.rate, loan.pAndI, n);
    DriftGrows(loan.rate, n,
               BalanceAfter(loan, roundCents, n - 1),
               ExactBalance(loan.principal, loan.rate, loan.pAndI, n - 1),
               BalanceAfter(loan, roundCents, n),
               ExactBalance(loan.principal, loan.rate, loan.pAndI, n),
               loan.pAndI);
  }

  lemma DriftGrows(rate: real, n: nat, b: real, exact: real, bNext: real, exactNext: real, payment: real)
    requires rate > -1.0 && n > 0 && Abs(b - exact) <= Accumulated(rate, n - 1, 0.005)
    requires Abs(bNext - (b + Interest(b, rate) - payment)) <= 0.005
    requires exactNext == exact + Interest(exact, rate) - payment
    ensures Abs(bNext - exactNext) <= Accumulated(rate, n, 0.005)
  {
    DriftStep(rate, b, exact, bNext, exactNext, payment, Accumulated(rate, n - 1, 0.005));
  }

  lemma ScaledBound(q: real, e: real, bound: real)
    requires q >= 0.0 && Abs(e) <= bound
    ensures Abs(q * e) <= q * bound
  {
    if e >= 0.0 {
      assert q * (bound - e) >= 0.0;
    } else {
      assert q * (bound + e) >= 0.0;
    }
  }

  lemma {:induction false} AccumulatedOfOneNonNegative(rate: real, n: nat)
    requires rate > -1.0
    ensures Accumulated(rate, n, 1.0) >= 0.0
  {
    if n > 0 {
      AccumulatedOfOneNonNegative(rate, n - 1);
      MulNonNegative(Accumulated(rate, n - 1, 1.0), 1.0 + rate);
    }
  }

  /** With the P&I within half a cent of the level payment (as rounding it to
      cents leaves it), the balance after the last period is within the future value of one
      cent per month of zero. */
  lemma FinalBalanceNearZero(loan: Loan, roundCents: real -> real)
    requires WithinHalfCent(roundCents)
    requires loan.rate > -1.0 && loan.periods > 0
    requires Abs(loan.pAndI - LevelPayment(loan.rate, loan.periods, loan.principal)) <= 0.005
    ensures Abs(BalanceAfter(loan, roundCents, loan.periods)) <= FvAnnuity(loan.rate, loan.periods, 0.01)
  {
    var r, n := loan.rate, loan.periods;
    var level := LevelPayment(r, n, loan.principal);
    RoundingDrift(loan, roundCents, n);
    FvAnnuityAccumulates(r, n, level);
    ExactBalanceSmall(loan.principal, r, loan.pAndI, level, n);
    FvAnnuityAccumulates(r, n, 0.01);
    AccumulatedLinear(r, n, 0.005);
    AccumulatedLinear(r, n, 0.01);
    LeftoverBound(BalanceAfter(loan, roundCents, n), ExactBalance(loan.principal, r, loan.pAndI, n),
                  Accumulated(r, n, 1.0));
  }

  /** Paying m instead of a level payment that retires the loan in n months
      (its annuity is the principal compounded over them) leaves, after n
      months of the unrounded schedule, the future value of the shortfall. */
  lemma ExactBalanceOfPayment(principal: real, rate: real, payment: real, level: real, n: nat)
    requires Accumulated(rate, n, level) == principal * Pow(1.0 + rate, n)
    ensures ExactBalance(principal, rate, payment, n) == Accumulated(rate, n, 1.0) * (level - payment)
  {
    AccumulatedLinear(rate, n, level);
    AccumulatedLinear(rate, n, payment);
    DifferenceOfMultiples(level, payment, Accumulated(rate, n, 1.0));
  }

  lemma DifferenceOfMultiples(a: real, b: real, c: real)
    ensures a * c - b * c == c * (a - b)
  {
  }

  /** With a P&I within half a cent of the level payment that retires the
      loan, the unrounded schedule ends within the future value of half a cent
      per month of zero. */
  lemma ExactBalanceSmall(principal: real, rate: real, payment: real, level: real, n: nat)
    requires rate > -1.0
    requires Accumulated(rate, n, level) == principal * Pow(1.0 + rate, n)
    requires Abs(payment - level) <= 0.005
    ensures Accumulated(rate, n, 1.0) >= 0.0
    ensures Abs(ExactBalance(principal, rate, payment, n)) <= 0.005 * Accumulated(rate, n, 1.0)
  {
    ExactBalanceOfPayment(principal, rate, payment, level, n);
    AccumulatedOfOneNonNegative(rate, n);
    ScaledGap(ExactBalance(principal, rate, payment, n), Accumulated(rate, n, 1.0), level, payment);
  }

  lemma ScaledGap(exact: real, one: real, level: real, payment: real)
    requires one >= 0.0 && exact == one * (level - payment) && Abs(payment - level) <= 0.005
    ensures Abs(exact) <= 0.005 * one
  {
    ScaledBound(one, level - payment, 0.005);
  }

  /** The arithmetic of the bound: a balance within 0.005·A of an amount that
      is itself within 0.005·A of zero is within 0.01·A of zero. */
  lemma LeftoverBound(balance: real, exact: real, one: real)
    requires Abs(exact) <= 0.005 * one
    requires Abs(balance - exact) <= 0.005 * one
    ensures Abs(balance) <= 0.01 * one
  {
  }
}
