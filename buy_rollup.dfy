// The yearly buy table: the `for year in range(1, years + 1)` loop that rolls
// the monthly ledger up into years, the cumulative columns after it, and the
// home value and net columns computed over the whole table.

module BuyRollup {
  import opened Finance
  import opened Columns
  import opened Amortization

  /** The sale side of buying: the purchase price, the yearly appreciation, the
      selling cost as a fraction of the price and the down payment. */
  datatype Sale = Sale(homeValue: real, appreciation: real, sellingFee: real, downPayment: real)

  /** The yearly buy DataFrame, column by column; entry i is the row of year
      i + 1. The constant columns P&I, Fees and Payment are one value each. */
  datatype YearlyBuy = YearlyBuy(
    pAndI: real, fees: real, payment: real,
    interestPaid: seq<real>, principalPaid: seq<real>, startBalance: seq<real>, endBalance: seq<real>,
    cumPrincipal: seq<real>, cumPayment: seq<real>, homeValue: seq<real>, net: seq<real>)

  /** What the home sells for after `year` years of appreciation, less the
      selling cost, before rounding. */
  function Proceeds(sale: Sale, year: nat): real
  {
    sale.homeValue * Pow(1.0 + sale.appreciation, year) * (1.0 - sale.sellingFee)
  }

  /** The "Home Value" of year `year`: the sale proceeds to the cent. The
      table's index starts at 1, so year 1 is already appreciated once. */
  function HomeValue(sale: Sale, year: nat): (v: real)
    ensures IsCents(v)
    ensures -0.005 <= v - Proceeds(sale, year) <= 0.005
  {
    Round2(Proceeds(sale, year))
  }

  ghost predicate HasYears(y: YearlyBuy, years: nat)
  {
    && |y.interestPaid| == years && |y.principalPaid| == years && |y.startBalance| == years
    && |y.endBalance| == years && |y.cumPrincipal| == years && |y.cumPayment| == years
    && |y.homeValue| == years && |y.net| == years
  }

  /** Row i (year i + 1) covers ledger rows 12i .. 12i + 11. */
  ghost predicate YearRowFollows(l: Ledger, y: YearlyBuy, i: nat)
    requires HasRows(l, 12 * |y.interestPaid|) && HasYears(y, |y.interestPaid|) && i < |y.interestPaid|
  {
    && y.interestPaid[i] == Sum(l.interestPaid[12 * i..12 * i + 12])
    && y.principalPaid[i] == Sum(l.principalPaid[12 * i..12 * i + 12])
    && y.startBalance[i] == l.startBalance[12 * i]
    && y.endBalance[i] == l.endBalance[12 * i + 11]
  }

  /** The cumulative columns are running totals of principal and payment. */
  ghost predicate RunningTotals(y: YearlyBuy, years: nat)
    requires HasYears(y, years)
  {
    && y.cumPrincipal == Cumsum(y.principalPaid)
    && y.cumPayment == CumsumOfConstant(y.payment, years)
  }

  /** The home value column and the net column. */
  ghost predicate Valuation(sale: Sale, y: YearlyBuy, years: nat)
    requires HasYears(y, years)
  {
    && (forall i :: 0 <= i < years ==> y.homeValue[i] == HomeValue(sale, i + 1))
    && (forall i :: 0 <= i < years ==>
          y.net[i] == y.homeValue[i] - y.endBalance[i] - y.cumPayment[i] - sale.downPayment)
  }

  /** A complete yearly buy table rolled up from the monthly ledger `l`. */
  ghost predicate IsYearlyBuy(l: Ledger, sale: Sale, years: nat, y: YearlyBuy)
  {
    && y.pAndI == l.pAndI * 12.0 && y.fees == l.fees * 12.0
    && y.payment == l.payment * 12.0
    && HasRows(l, 12 * years) && HasYears(y, years)
    && (forall i :: 0 <= i < years ==> YearRowFollows(l, y, i))
    && RunningTotals(y, years)
    && Valuation(sale, y, years)
  }

  /** One row of the yearly buy DataFrame, as the loop writes it. */
  datatype Year = Year(interestPaid: real, principalPaid: real, startBalance: real, endBalance: real)

  /** Year i + 1 rolled up from ledger rows 12i .. 12i + 11. */
  function YearAt(l: Ledger, years: nat, i: nat): (y: Year)
    requires HasRows(l, 12 * years) && i < years
  {
    Year(Sum(l.interestPaid[12 * i..12 * i + 12]), Sum(l.principalPaid[12 * i..12 * i + 12]),
         l.startBalance[12 * i], l.endBalance[12 * i + 11])
  }

  /** Rolls the monthly ledger up into `years` yearly rows: interest and
      principal are summed over each year's twelve months, the starting balance
      is the first month's and the ending balance the last month's. */
  method RollupYears(l: Ledger, sale: Sale, years: nat) returns (y: YearlyBuy)
    requires HasRows(l, 12 * years)
    ensures IsYearlyBuy(l, sale, years, y)
  {
    var rows := new Year[years];
    FillYears(l, years, rows);
    y := AssembleYears(l, sale, years, rows[..]);
  }

  /** The `for year in range(1, years + 1)` loop: fills the yearly rows, each
      from its own twelve rows of the ledger. */
  method FillYears(l: Ledger, years: nat, rows: array<Year>)
    requires HasRows(l, 12 * years) && rows.Length == years
    modifies rows
    ensures forall i :: 0 <= i < years ==> rows[i] == YearAt(l, years, i)
  {
    for year := 1 to years + 1
      invariant forall i :: 0 <= i < year - 1 ==> rows[i] == YearAt(l, years, i)
    {
      var first := 12 * (year - 1);
      rows[year - 1] := Year(Sum(l.interestPaid[first..first + 12]), Sum(l.principalPaid[first..first + 12]),
                             l.startBalance[first], l.endBalance[first + 11]);
    }
  }

  /** The yearly table holding, column by column, the rows the loop filled,
      with the cumulative, home value and net columns computed over whole
      columns. */
  function AssembleYears(l: Ledger, sale: Sale, years: nat, rows: seq<Year>): (y: YearlyBuy)
    requires HasRows(l, 12 * years) && |rows| == years
    requires forall i :: 0 <= i < years ==> rows[i] == YearAt(l, years, i)
    ensures IsYearlyBuy(l, sale, years, y)
  {
    var payment := l.payment * 12.0;
    var cumPayment := CumsumOfConstant(payment, years);
    var homes := HomeValues(sale, years);
    var principal := seq(years, i requires 0 <= i < years => rows[i].principalPaid);
    var ending := seq(years, i requires 0 <= i < years => rows[i].endBalance);
    var y := YearlyBuy(l.pAndI * 12.0, l.fees * 12.0, payment,
                       seq(years, i requires 0 <= i < years => rows[i].interestPaid), principal,
                       seq(years, i requires 0 <= i < years => rows[i].startBalance), ending,
                       Cumsum(principal), cumPayment, homes,
                       NetColumn(homes, ending, cumPayment, sale.downPayment));
    assert HasYears(y, years);
    assert forall i :: 0 <= i < years ==> YearRowFollows(l, y, i) by {
      forall i | 0 <= i < years
        ensures YearRowFollows(l, y, i)
      {
        assert rows[i] == YearAt(l, years, i);
      }
    }
    assert RunningTotals(y, years);
    assert Valuation(sale, y, years);
    y
  }

  /** The "Home Value" column, years 1 .. `years`. */
  function HomeValues(sale: Sale, years: nat): seq<real>
  {
    seq(years, i requires 0 <= i < years => HomeValue(sale, i + 1))
  }

  /** The "Net" column: home value less ending balance, cumulative payment and
      down payment. */
  function NetColumn(homes: seq<real>, ending: seq<real>, cumPayment: seq<real>, downPayment: real): seq<real>
    requires |homes| == |ending| == |cumPayment|
  {
    seq(|homes|, i requires 0 <= i < |homes| => homes[i] - ending[i] - cumPayment[i] - downPayment)
  }

  /** Year 1 starts from the principal and every later year starts where the
      previous one ended. */
  lemma YearsChain(loan: Loan, roundCents: real -> real, l: Ledger, sale: Sale, years: nat, y: YearlyBuy, i: nat)
    requires IsLedger(loan, roundCents, l) && loan.periods == 12 * years
    requires IsYearlyBuy(l, sale, years, y) && i < years
    ensures i == 0 ==> y.startBalance[i] == loan.principal
    ensures i > 0 ==> y.startBalance[i] == y.endBalance[i - 1]
  {
    assert YearRowFollows(l, y, i);
    assert RowFollows(loan, roundCents, l, 12 * i);
    if i > 0 {
      assert YearRowFollows(l, y, i - 1);
    }
  }

  /** A year's principal paid is the drop in balance over the year. */
  lemma YearPrincipal(loan: Loan, roundCents: real -> real, l: Ledger, sale: Sale, years: nat, y: YearlyBuy, i: nat)
    requires IsLedger(loan, roundCents, l) && loan.periods == 12 * years
    requires IsYearlyBuy(l, sale, years, y) && i < years
    ensures y.principalPaid[i] == y.startBalance[i] - y.endBalance[i]
  {
    assert YearRowFollows(l, y, i);
    PrincipalTelescopes(loan, roundCents, l, 12 * i, 12 * i + 12);
  }

  /** A year's principal plus interest is twelve P&I payments, the year's
      "P&I" column. */
  lemma YearPayments(loan: Loan, roundCents: real -> real, l: Ledger, sale: Sale, years: nat, y: YearlyBuy, i: nat)
    requires IsLedger(loan, roundCents, l) && loan.periods == 12 * years
    requires IsYearlyBuy(l, sale, years, y) && i < years
    ensures y.principalPaid[i] + y.interestPaid[i] == y.pAndI
  {
    assert YearRowFollows(l, y, i);
    PaymentsSplit(loan, roundCents, l, 12 * i, 12 * i + 12);
    assert (12 * i + 12 - 12 * i) as real == 12.0;
  }

  /** The yearly cumulative principal is the principal repaid by the end of the
      year. */
  lemma {:induction false} YearPrincipalRepaid(loan: Loan, roundCents: real -> real, l: Ledger, sale: Sale, years: nat, y: YearlyBuy, i: nat)
    requires IsLedger(loan, roundCents, l) && loan.periods == 12 * years
    requires IsYearlyBuy(l, sale, years, y) && i < years
    ensures y.cumPrincipal[i] == loan.principal - y.endBalance[i]
  {
    YearPrincipal(loan, roundCents, l, sale, years, y, i);
    YearsChain(loan, roundCents, l, sale, years, y, i);
    assert y.principalPaid[..i + 1][..i] == y.principalPaid[..i];
    assert y.cumPrincipal[i] == Sum(y.principalPaid[..i]) + y.principalPaid[i];
    if i > 0 {
      YearPrincipalRepaid(loan, roundCents, l, sale, years, y, i - 1);
    }
  }

  /** Year i + 1 lines up with month 12(i + 1) of the ledger: the same ending
      balance, cumulative principal and cumulative payment. */
  lemma YearMatchesMonth(loan: Loan, roundCents: real -> real, l: Ledger, sale: Sale, years: nat, y: YearlyBuy, i: nat)
    requires IsLedger(loan, roundCents, l) && loan.periods == 12 * years
    requires IsYearlyBuy(l, sale, years, y) && i < years
    ensures y.endBalance[i] == BalanceAfter(loan, roundCents, 12 * (i + 1))
    ensures y.cumPrincipal[i] == l.cumPrincipal[12 * i + 11]
    ensures y.cumPayment[i] == l.cumPayment[12 * i + 11]
  {
    var k := 12 * i + 11;
    assert YearRowFollows(l, y, i);
    LedgerFollowsRecurrence(loan, roundCents, l, k);
    YearPrincipalRepaid(loan, roundCents, l, sale, years, y, i);
    PrincipalRepaid(loan, roundCents, l, k);
  }

  /** The buy net of year i + 1: the home value less the balance still owed
      after 12(i + 1) months, everything paid so far and the down payment. */
  lemma BuyNet(loan: Loan, roundCents: real -> real, l: Ledger, sale: Sale, years: nat, y: YearlyBuy, i: nat)
    requires IsLedger(loan, roundCents, l) && loan.periods == 12 * years
    requires IsYearlyBuy(l, sale, years, y) && i < years
    ensures y.net[i] == HomeValue(sale, i + 1) - BalanceAfter(loan, roundCents, 12 * (i + 1))
                        - (12 * (i + 1)) as real * loan.Payment() - sale.downPayment
  {
    YearMatchesMonth(loan, roundCents, l, sale, years, y, i);
  }

  /** With non-negative appreciation and a selling cost of at most the price,
      the home value never falls from one year to a later one. */
  lemma HomeValueNonDecreasing(sale: Sale, early: nat, late: nat)
    requires sale.homeValue >= 0.0 && sale.appreciation >= 0.0 && sale.sellingFee <= 1.0
    requires early <= late
    ensures HomeValue(sale, early) <= HomeValue(sale, late)
  {
    ProceedsNonDecreasing(sale, early, late);
    Round2Monotone(Proceeds(sale, early), Proceeds(sale, late));
  }

  lemma ProceedsNonDecreasing(sale: Sale, early: nat, late: nat)
    requires sale.homeValue >= 0.0 && sale.appreciation >= 0.0 && sale.sellingFee <= 1.0
    requires early <= late
    ensures Proceeds(sale, early) <= Proceeds(sale, late)
  {
    var b := 1.0 + sale.appreciation;
    PowMonotone(b, early, late);
    ScaledOrder(sale.homeValue, Pow(b, early), Pow(b, late), 1.0 - sale.sellingFee);
  }

  /** With positive appreciation, and a year's appreciation of the net sale
      price worth more than a cent, the home value rises strictly every year. */
  lemma HomeValueIncreasing(sale: Sale, early: nat, late: nat)
    requires sale.homeValue >= 0.0 && sale.appreciation >= 0.0 && sale.sellingFee <= 1.0
    requires sale.homeValue * sale.appreciation * (1.0 - sale.sellingFee) > 0.01 && early < late
    ensures HomeValue(sale, early) < HomeValue(sale, late)
  {
    ProceedsIncrease(sale, early, late);
  }

  lemma ProceedsIncrease(sale: Sale, early: nat, late: nat)
    requires sale.homeValue >= 0.0 && sale.appreciation >= 0.0 && sale.sellingFee <= 1.0 && early < late
    ensures Proceeds(sale, late) - Proceeds(sale, early) >= sale.homeValue * sale.appreciation * (1.0 - sale.sellingFee)
  {
    PowGrowth(sale.appreciation, early, late);
    ScaledGrowth(sale.homeValue, Pow(1.0 + sale.appreciation, early), Pow(1.0 + sale.appreciation, late),
                 1.0 - sale.sellingFee, sale.appreciation);
  }

  lemma ScaledGrowth(h: real, x: real, y: real, f: real, gain: real)
    requires h >= 0.0 && f >= 0.0 && y - x >= gain
    ensures h * y * f - h * x * f >= h * gain * f
  {
    MulNonNegative(h * f, y - x - gain);
    assert h * y * f - h * x * f - h * gain * f == (h * f) * (y - x - gain);
  }

  lemma ScaledOrder(h: real, x: real, y: real, f: real)
    requires h >= 0.0 && f >= 0.0 && x <= y
    ensures h * x * f <= h * y * f
  {
    MulNonNegative(h * f, y - x);
    assert h * y * f - h * x * f == (h * f) * (y - x);
  }
}
