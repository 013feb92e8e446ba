// The rent side: the monthly `saving`, and the yearly rent table whose columns
// are whole-column expressions of the year index.

module RentRollup {
  import opened Finance
  import opened Columns

  /** `saving`: what the renter has left each month compared with the buyer's
      total monthly payment, or 0 when rent costs at least as much. */
  function Saving(totalPayment: real, rent: real): (s: real)
    ensures s >= 0.0 && s >= totalPayment - rent
    ensures s == 0.0 || s == totalPayment - rent
  {
    if totalPayment - rent > 0.0 then totalPayment - rent else 0.0
  }

  /** The renter's situation: the monthly rent, the yearly stock growth, the
      monthly saving invested and the down payment, invested instead of spent. */
  datatype Renting = Renting(rent: real, growth: real, saving: real, downPayment: real)

  /** The yearly rent DataFrame; entry i of a column is the row of year i + 1.
      The constant columns Rent and Saving are one value each. */
  datatype YearlyRent = YearlyRent(rent: real, saving: real, cumRent: seq<real>, asset: seq<real>, net: seq<real>)

  /** The invested account after `year` years, before rounding: the yearly
      savings as an annuity plus the down payment compounded. */
  function Invested(r: Renting, year: nat): real
  {
    FvAnnuity(r.growth, year, r.saving * 12.0) + Compounded(r.downPayment, r.growth, year)
  }

  /** The "Asset" of year `year`, to the cent. */
  function Asset(r: Renting, year: nat): (a: real)
    ensures IsCents(a)
    ensures -0.005 <= a - Invested(r, year) <= 0.005
  {
    Round2(Invested(r, year))
  }

  /** Reference definition of the renter's account: it starts with the down
      payment, and every year it grows by `growth` and then receives a year of
      savings. */
  function Portfolio(growth: real, annualSaving: real, start: real, years: nat): real
  {
    if years == 0 then start
    else Portfolio(growth, annualSaving, start, years - 1) * (1.0 + growth) + annualSaving
  }

  lemma {:induction false} PortfolioSplits(growth: real, annualSaving: real, start: real, years: nat)
    ensures Portfolio(growth, annualSaving, start, years)
         == Accumulated(growth, years, annualSaving) + Compounded(start, growth, years)
  {
    if years > 0 {
      PortfolioSplits(growth, annualSaving, start, years - 1);
      CompoundedStep(start, growth, years);
      Distribute(Accumulated(growth, years - 1, annualSaving), Compounded(start, growth, years - 1), 1.0 + growth);
    }
  }

  lemma Distribute(x: real, y: real, q: real)
    ensures (x + y) * q == x * q + y * q
  {
  }

  /** The asset column follows the account year by year: `fv_annuity` plus the
      compounded down payment is exactly the account that grows and receives
      the savings every year. */
  lemma InvestedIsPortfolio(r: Renting, year: nat)
    ensures Invested(r, year) == Portfolio(r.growth, r.saving * 12.0, r.downPayment, year)
  {
    var annualSaving := r.saving * 12.0;
    FvAnnuityAccumulates(r.growth, year, annualSaving);
    PortfolioSplits(r.growth, annualSaving, r.downPayment, year);
  }

  lemma {:induction false} PortfolioNonNegative(growth: real, annualSaving: real, start: real, years: nat)
    requires growth >= 0.0 && annualSaving >= 0.0 && start >= 0.0
    ensures Portfolio(growth, annualSaving, start, years) >= 0.0
  {
    if years > 0 {
      PortfolioNonNegative(growth, annualSaving, start, years - 1);
      MulNonNegative(Portfolio(growth, annualSaving, start, years - 1), 1.0 + growth);
    }
  }

  /** With non-negative growth and contributions the account never shrinks. */
  lemma {:induction false} PortfolioNonDecreasing(growth: real, annualSaving: real, start: real, early: nat, late: nat)
    requires growth >= 0.0 && annualSaving >= 0.0 && start >= 0.0 && early <= late
    ensures Portfolio(growth, annualSaving, start, early) <= Portfolio(growth, annualSaving, start, late)
  {
    if early < late {
      PortfolioNonDecreasing(growth, annualSaving, start, early, late - 1);
      PortfolioNonNegative(growth, annualSaving, start, late - 1);
      var x := Portfolio(growth, annualSaving, start, late - 1);
      MulNonNegative(x, growth);
      assert x * (1.0 + growth) == x + x * growth;
    }
  }

  /** With non-negative growth, saving and down payment the asset never falls
      from one year to a later one. */
  lemma AssetNonDecreasing(r: Renting, early: nat, late: nat)
    requires r.growth >= 0.0 && r.saving >= 0.0 && r.downPayment >= 0.0 && early <= late
    ensures Asset(r, early) <= Asset(r, late)
  {
    InvestedIsPortfolio(r, early);
    InvestedIsPortfolio(r, late);
    PortfolioNonDecreasing(r.growth, r.saving * 12.0, r.downPayment, early, late);
    Round2Monotone(Invested(r, early), Invested(r, late));
  }

  /** The "Asset" column, years 1 .. `years`. */
  function Assets(r: Renting, years: nat): seq<real>
  {
    seq(years, i requires 0 <= i < years => Asset(r, i + 1))
  }

  /** The "Net" column: asset less cumulative rent, the down payment and the
      savings invested so far. */
  function RentNets(asset: seq<real>, cumRent: seq<real>, downPayment: real, annualSaving: real): seq<real>
    requires |asset| == |cumRent|
  {
    seq(|asset|, i requires 0 <= i < |asset| => asset[i] - cumRent[i] - downPayment - (i + 1) as real * annualSaving)
  }

  /** The yearly rent table for years 1 .. `years`. */
  function RentTable(r: Renting, years: nat): (t: YearlyRent)
    ensures t.rent == 12.0 * r.rent && t.saving == 12.0 * r.saving
    ensures |t.cumRent| == years && |t.asset| == years && |t.net| == years
    ensures forall i :: 0 <= i < years ==> t.cumRent[i] == 12.0 * r.rent * (i + 1) as real
    ensures forall i :: 0 <= i < years ==> t.asset[i] == Asset(r, i + 1)
    ensures forall i :: 0 <= i < years ==>
              t.net[i] == Asset(r, i + 1) - 12.0 * (i + 1) as real * (r.rent + r.saving) - r.downPayment
  {
    var cumRent := CumsumOfConstant(r.rent * 12.0, years);
    var asset := Assets(r, years);
    YearlyRent(r.rent * 12.0, r.saving * 12.0, cumRent, asset,
               RentNets(asset, cumRent, r.downPayment, r.saving * 12.0))
  }

  /** With non-negative growth the invested account holds at least the down
      payment plus every saving put in. */
  lemma InvestedCoversContributions(r: Renting, year: nat)
    requires r.growth >= 0.0 && r.saving >= 0.0 && r.downPayment >= 0.0
    ensures Invested(r, year) >= r.saving * 12.0 * year as real + r.downPayment
  {
    var q := Pow(1.0 + r.growth, year);
    FvAnnuityCoversContributions(r.growth, year, r.saving * 12.0);
    PowAtLeastOne(1.0 + r.growth, year);
    MulNonNegative(r.downPayment, q - 1.0);
    assert Compounded(r.downPayment, r.growth, year) == r.downPayment + r.downPayment * (q - 1.0);
  }

  /** Adding back the rent paid so far, the renter's net is the asset less
      the down payment and the savings put in. */
  lemma NetPlusRent(r: Renting, years: nat, i: nat)
    requires i < years
    ensures var t := RentTable(r, years);
            t.net[i] + t.cumRent[i] == Asset(r, i + 1) - r.saving * 12.0 * (i + 1) as real - r.downPayment
  {
    var t := RentTable(r, years);
    var year := (i + 1) as real;
    assert 12.0 * year * (r.rent + r.saving) == 12.0 * r.rent * year + r.saving * 12.0 * year;
  }

  /** Hence the renter's net is never below minus the rent paid so far, give
      or take the half cent of rounding. */
  lemma RentNetBound(r: Renting, years: nat, i: nat)
    requires r.growth >= 0.0 && r.saving >= 0.0 && r.downPayment >= 0.0 && i < years
    ensures RentTable(r, years).net[i] >= -RentTable(r, years).cumRent[i] - 0.005
  {
    NetPlusRent(r, years, i);
    InvestedCoversContributions(r, i + 1);
  }
}
