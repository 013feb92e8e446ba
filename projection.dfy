// The whole projection: from the sidebar inputs to the monthly ledger, the two
// yearly tables and the buy-versus-rent comparison over the plotted horizon.

module Projection {
  import opened Finance
  import opened Amortization
  import opened BuyRollup
  import opened RentRollup

  /** Why a comparison cannot be drawn: more plotted years than the tables
      have rows. */
  datatype Failure = HorizonTooLong

  datatype Result<T> = Ok(value: T) | Err(failure: Failure)

  /** The sidebar inputs, already scaled as the script scales them: money in
      dollars, percentages as fractions. */
  datatype Inputs = Inputs(
    plotYears: nat, homeValue: real, downPaymentPercent: real, hoa: real, apr: real,
    homeAppreciation: real, sellingFee: real, rent: real, stockGrowth: real)

  /** The ranges the sliders allow. */
  predicate WithinSliders(p: Inputs)
  {
    && 5 <= p.plotYears <= 30
    && 500000.0 <= p.homeValue <= 3000000.0
    && 0.0 <= p.downPaymentPercent <= 1.0
    && 0.0 <= p.hoa <= 500.0
    && 0.0 <= p.apr <= 0.05
    && 0.0 <= p.homeAppreciation <= 0.2
    && 0.0 <= p.sellingFee <= 0.1
    && 500.0 <= p.rent <= 10000.0
    && 0.0 <= p.stockGrowth <= 0.5
  }

  /** One row of the comparison: the buy and the rent net of a year. */
  datatype NetPoint = NetPoint(year: nat, buy: real, rent: real)

  /** The comparison table: years 1 .. `plotYears` of both net columns, side
      by side. A horizon longer than either column does not fit the table. */
  function Compare(buyNet: seq<real>, rentNet: seq<real>, plotYears: nat): (r: Result<seq<NetPoint>>)
    ensures r.Ok? <==> plotYears <= |buyNet| && plotYears <= |rentNet|
    ensures r.Err? ==> r.failure == HorizonTooLong
    ensures r.Ok? ==> |r.value| == plotYears
    ensures r.Ok? ==> forall i :: 0 <= i < plotYears ==> r.value[i] == NetPoint(i + 1, buyNet[i], rentNet[i])
  {
    if plotYears > |buyNet| || plotYears > |rentNet| then Err(HorizonTooLong)
    else Ok(seq(plotYears, i requires 0 <= i < plotYears => NetPoint(i + 1, buyNet[i], rentNet[i])))
  }

  /** Truncation keeps the earlier years: the comparison over a shorter
      horizon is the beginning of the comparison over a longer one. */
  lemma CompareTruncates(buyNet: seq<real>, rentNet: seq<real>, shorter: nat, longer: nat)
    requires shorter <= longer && Compare(buyNet, rentNet, longer).Ok?
    ensures Compare(buyNet, rentNet, shorter).Ok?
    ensures Compare(buyNet, rentNet, shorter).value == Compare(buyNet, rentNet, longer).value[..shorter]
  {
    var s := Compare(buyNet, rentNet, shorter).value;
    var l := Compare(buyNet, rentNet, longer).value;
    assert forall i :: 0 <= i < shorter ==> s[i] == l[i];
  }

  /** `np.round(home_value * tax_rate / 12)` with a 1.25% yearly tax rate:
      the monthly property tax in whole dollars. */
  function PropertyTax(homeValue: real): (t: real)
    ensures t == t.Floor as real
    ensures -0.5 <= t - homeValue * 0.0125 / 12.0 <= 0.5
  {
    RoundHalfEven(homeValue * 0.0125 / 12.0) as real
  }

  /** Property tax, HOA and the $100 home insurance, every month. */
  function MonthlyFees(p: Inputs): (f: real)
    ensures -0.5 <= f - (p.homeValue * 0.0125 / 12.0 + p.hoa + 100.0) <= 0.5
  {
    PropertyTax(p.homeValue) + p.hoa + 100.0
  }

  /** The loan: the price less the down payment. */
  function Principal(p: Inputs): real
  {
    p.homeValue * (1.0 - p.downPaymentPercent)
  }

  function DownPayment(p: Inputs): real
  {
    p.homeValue * p.downPaymentPercent
  }

  /** The loan and the down payment together pay the price. */
  lemma PriceIsFinanced(p: Inputs)
    ensures Principal(p) + DownPayment(p) == p.homeValue
  {
    assert p.homeValue * (1.0 - p.downPaymentPercent) == p.homeValue - p.homeValue * p.downPaymentPercent;
  }

  /** The P&I: the level payment over 30 years of monthly payments, rounded
      to cents. It is `pmt` for every rate but zero, where `pmt` divides by
      zero and the level payment is the principal spread evenly. */
  function Mortgage(p: Inputs): (m: real)
    requires WithinSliders(p)
    ensures IsCents(m)
    ensures Abs(m - LevelPayment(p.apr / 12.0, 360, Principal(p))) <= 0.005
    ensures p.apr != 0.0 ==> Abs(m - Pmt(p.apr / 12.0, 360, Principal(p))) <= 0.005
  {
    Round2(LevelPayment(p.apr / 12.0, 360, Principal(p)))
  }

  function LoanFor(p: Inputs): Loan
    requires WithinSliders(p)
  {
    Loan(Principal(p), p.apr / 12.0, Mortgage(p), MonthlyFees(p), 360)
  }

  function SaleFor(p: Inputs): Sale
  {
    Sale(p.homeValue, p.homeAppreciation, p.sellingFee, DownPayment(p))
  }

  function RentingFor(p: Inputs, saving: real): Renting
  {
    Renting(p.rent, p.stockGrowth, saving, DownPayment(p))
  }

  /** Everything the script computes for one set of inputs. */
  datatype Outcome = Outcome(
    loan: Loan, totalPayment: real, saving: real,
    ledger: Ledger, buy: YearlyBuy, rent: YearlyRent, chart: seq<NetPoint>)

  /** Runs the projection. Every input within the sliders yields the ledger,
      the two yearly tables and the comparison, with the ledger starting from
      the loan that together with the down payment pays the price and ending
      within the future value of a cent a month of zero. */
  method Project(p: Inputs) returns (o: Outcome)
    requires WithinSliders(p)
    ensures
      && o.loan == LoanFor(p)
      && o.totalPayment == o.loan.Payment()
      && o.saving == Saving(o.totalPayment, p.rent)
      && IsLedger(o.loan, Round2, o.ledger)
      && IsYearlyBuy(o.ledger, SaleFor(p), 30, o.buy)
      && o.rent == RentTable(RentingFor(p, o.saving), 30)
      && |o.chart| == p.plotYears
      && (forall i :: 0 <= i < p.plotYears ==> o.chart[i] == NetPoint(i + 1, o.buy.net[i], o.rent.net[i]))
      && o.ledger.startBalance[0] + DownPayment(p) == p.homeValue
      && Abs(o.ledger.endBalance[359]) <= FvAnnuity(p.apr / 12.0, 360, 0.01)
  {
    var loan := LoanFor(p);
    var totalPayment := loan.Payment();
    var saving := Saving(totalPayment, p.rent);
    var ledger := BuildLedger(loan);
    var buy := RollupYears(ledger, SaleFor(p), 30);
    var rent := RentTable(RentingFor(p, saving), 30);
    var chart := Compare(buy.net, rent.net, p.plotYears);
    assert chart.Ok?;
    o := Outcome(loan, totalPayment, saving, ledger, buy, rent, chart.value);
    LedgerOfInputs(p, ledger);
  }

  /** The ledger of a loan taken on slider inputs starts from the price less
      the down payment and, the P&I being rounded to cents, ends within the
      future value of a cent a month of zero. */
  lemma LedgerOfInputs(p: Inputs, ledger: Ledger)
    requires WithinSliders(p) && IsLedger(LoanFor(p), Round2, ledger)
    ensures ledger.startBalance[0] + DownPayment(p) == p.homeValue
    ensures Abs(ledger.endBalance[359]) <= FvAnnuity(p.apr / 12.0, 360, 0.01)
  {
    var loan := LoanFor(p);
    assert RowFollows(loan, Round2, ledger, 0);
    PriceIsFinanced(p);
    Round2WithinHalfCent();
    FinalBalanceNearZero(loan, Round2);
    LedgerFollowsRecurrence(loan, Round2, ledger, 359);
  }
}
