# Buy-vs-rent projection engine, in Dafny

The model covers the financial engine of the real-estate calculator in `app.py`, a Streamlit page that compares buying a home with renting it. From the sidebar inputs, the engine computes:

- the monthly principal-and-interest payment (`pmt`, rounded to cents);
- the property tax, the fees and the total monthly payment;
- the renter's monthly `saving`;
- the 360-row monthly amortization ledger, which the `for period` loop fills;
- the yearly buy table, which the `for year` loop rolls up from the ledger, with the appreciated home value and the buyer's net position;
- the yearly rent table: cumulative rent, the invested asset (`fv_annuity` plus the compounded down payment) and the renter's net position;
- the two net columns, side by side over the plotted horizon.

Money is exact `real`. NumPy's `np.round` is modelled as round-half-to-even: to cents for `np.round(x, 2)`, to whole dollars for the property tax.

The two loops of the script are methods:

- `Amortization.FillLedger` writes rows into an array of `Month` rows.
- `BuyRollup.FillYears` writes rows into an array of `Year` rows.

Each loop is proved against a specification function that gives a row's contents (`MonthAt`, `YearAt`). The pandas column operations (`cumsum`, `np.sum` over a slice, whole-column arithmetic, `loc[:plot_years]`) are library calls, not loops in the script, so they are functions.

The modules:

| Module | File | Contents |
|---|---|---|
| `Finance` | `finance.dfy` | powers, rounding, `pmt`, `fv_annuity`, and their reference definitions |
| `Columns` | `columns.dfy` | `np.sum` and `cumsum` |
| `Amortization` | `amortization.dfy` | the monthly ledger, its recurrence and the rounding-drift bound |
| `BuyRollup` | `buy_rollup.dfy` | the yearly buy table |
| `RentRollup` | `rent_rollup.dfy` | `saving` and the yearly rent table |
| `Projection` | `projection.dfy` | inputs, the tax, the mortgage, the comparison, the whole run |

Main results:

- **Ledger recurrence.** The ledger follows the recurrence exactly.
- **Buy rollup.** The yearly buy table agrees with the monthly ledger, year by year. The cumulative principal equals the principal less the remaining balance, both in the ledger and in the yearly table.
- **Annuities.** `fv_annuity` equals the account that grows and receives a payment every period, and `pmt` repays the loan in that sense.
- **Final balance.** Interest is rounded to cents every month and the P&I is rounded to cents. Even so, the balance after the last month stays within the future value of one cent a month of zero.
- **Monotonicity.** The home value and the renter's asset never decrease over time.

## Model

| member | source | states |
|---|---|---|
| Finance.RoundHalfEven | app.py:82 | `np.round` to an integer: within 0.5 of x, and a tie goes to the even integer |
| Finance.Round2 | app.py:98 | `np.round(x, 2)`: a whole number of cents within half a cent of x |
| Finance.Round2WithinHalfCent | app.py:121 | the cents rounding used on the interest is a half-cent rounding, the hypothesis the ledger's drift lemmas take |
| Finance.RoundHalfEvenMonotone | app.py:82 | rounding to an integer never reverses the order of two values |
| Finance.Round2Monotone | app.py:146 | rounding to cents never reverses the order of two values, so rounded columns keep the order of the exact ones |
| Finance.GrowthFactorPow | app.py:9 | for a rate above -100% and n > 0, (1 + rate)^n is positive, above 1 exactly when the rate is positive, and below 1 exactly when it is negative |
| Finance.PowMonotone | app.py:146 | a growth factor of at least 1, raised to a later year, is at least as large |
| Finance.PowGrowth | app.py:146 | with a non-negative rate a, (1 + a)^late exceeds (1 + a)^early by at least a when early < late |
| Finance.CompoundedStep | app.py:157 | an amount compounded over n periods is the amount compounded over n - 1 periods, grown once more |
| Finance.AccumulatedZeroRate | app.py:12-13 | at rate 0 the reference annuity is payment × periods, the explicit branch of `fv_annuity` |
| Finance.AccumulatedClosedForm | app.py:15 | the reference annuity (grow, then add the payment, every period) times the rate is payment × ((1 + rate)^periods − 1), the closed form of `fv_annuity` |
| Finance.FvAnnuity | app.py:11-15 | `fv_annuity` with both branches as written: payment × periods at rate 0, payment × ((1 + rate)^periods − 1) / rate otherwise; what it computes is stated by FvAnnuityAccumulates |
| Finance.FvAnnuityAccumulates | app.py:11-15 | `fv_annuity`, in both branches and at every rate, equals the reference annuity that accumulates the payments period by period |
| Finance.AccumulatedLinear | app.py:11-15 | the annuity is linear in the payment |
| Finance.AccumulatedCoversContributions | app.py:11-15 | with a non-negative rate and payment, the reference annuity holds at least the payments put in |
| Finance.FvAnnuityCoversContributions | app.py:11-15 | with a non-negative rate and payment, `fv_annuity` is at least payment × periods |
| Finance.ClosedFormPayment | app.py:8-9 | for a rate other than 0 and above -100%, the divisor of `pmt` is non-zero. Paying the `pmt` expression each period accumulates the principal compounded over the term, and at a positive rate and principal the payment exceeds one period's interest |
| Finance.PmtDenominatorZero | app.py:8-9 | as written, the divisor 1 − (1 + rate)^−periods of `pmt` is zero exactly when the rate is zero |
| Finance.Pmt | app.py:8-9 | `pmt` at a rate other than 0: the payment repays the loan, i.e. `fv_annuity` of the payment equals the principal compounded over the term; at a positive rate and principal it exceeds one period's interest |
| Finance.LevelPayment | app.py:8-9 | the payment that repays the loan at every rate above -100%, zero included; it equals `pmt` at every rate other than 0 |
| Finance.EvenSplit | app.py:12-13 | at rate 0, paying principal / periods every period accumulates exactly the principal |
| Columns.SumOfComplements | app.py:122 | two columns whose rows always add up to the same total sum to that total times the number of rows |
| Columns.SliceOfComplements | app.py:140-141 | the same holds for any run of rows lo..hi-1 of the two columns |
| Columns.SumRepeat | app.py:126 | the sum of n copies of x is n × x |
| Columns.Cumsum | app.py:125 | `cumsum`: same length, and entry i is the sum of entries 0..i |
| Columns.CumsumRepeat | app.py:126 | entry i of the running total of a constant column is (i + 1) times the constant |
| Columns.CumsumOfConstant | app.py:126 | `cumsum` of a constant column: entry i is (i + 1) times the constant |
| Amortization.FillLedger | app.py:115-123 | after the loop, every one of the `periods` rows is the recurrence's row for its period |
| Amortization.Assemble | app.py:112-126 | from the loop's rows it builds a complete ledger: constant P&I, fees and payment columns; every row follows the bookkeeping of lines 116-123; `Cumulative Principal` and `Cumulative Payment` are running totals |
| Amortization.BuildLedger | app.py:112-126 | returns a complete ledger for the loan, rounding interest to cents |
| Amortization.LedgerFollowsRecurrence | app.py:115-123 | in any ledger, the starting and ending balances of row k are the balances after k and k + 1 payments of the recurrence |
| Amortization.PrincipalTelescopes | app.py:122-123 | the principal paid over rows lo..hi-1 equals the drop in balance across them |
| Amortization.PrincipalRepaid | app.py:125 | `Cumulative Principal` of row k is the loan principal less that row's ending balance |
| Amortization.RowsSplit | app.py:121-122 | in every row, principal paid plus interest paid is the P&I |
| Amortization.PaymentsSplit | app.py:140-141 | over any run of rows, total principal plus total interest is the number of rows times the P&I |
| Amortization.BalanceStep | app.py:121-123 | one month of the ledger moves the balance by its exact interest less the P&I, give or take half a cent |
| Amortization.ExactStep | app.py:121-123 | the unrounded schedule (principal compounded less the annuity of the P&I) follows the same recurrence with exact interest |
| Amortization.DriftOfMonth | app.py:121-123 | if the ledger is within the future value of half a cent a month of the unrounded schedule after n − 1 months, it is still within it after n months |
| Amortization.RoundingDrift | app.py:121 | after n months the ledger's balance is within the future value of half a cent a month of the unrounded schedule's balance |
| Amortization.AccumulatedOfOneNonNegative | app.py:11-15 | at a rate above -100%, the annuity of one unit per period is non-negative |
| Amortization.ExactBalanceOfPayment | app.py:98 | paying m instead of a level payment that retires the loan (its annuity equals the compounded principal) leaves, in the unrounded schedule, the future value of the shortfall |
| Amortization.ExactBalanceSmall | app.py:98 | with m within half a cent of a level payment that retires the loan, the unrounded schedule ends within the future value of half a cent a month of zero |
| Amortization.FinalBalanceNearZero | app.py:98-123 | with the P&I within half a cent of the level payment, as `np.round(…, 2)` leaves it, the ledger's last ending balance is within the future value of one cent a month of zero, however the interest is rounded to cents |
| BuyRollup.HomeValue | app.py:146 | the year's `Home Value` is, to the cent, the price appreciated over `year` years less the selling cost |
| BuyRollup.FillYears | app.py:139-143 | after the loop, year i holds the sums of interest and principal over months 12i..12i+11, the starting balance of month 12i and the ending balance of month 12i+11 |
| BuyRollup.AssembleYears | app.py:135-147 | from the loop's rows it builds a complete yearly table: 12 × the monthly constants, the rolled-up rows, running totals, `Home Value` and `Net` |
| BuyRollup.RollupYears | app.py:135-147 | returns a complete yearly buy table for the ledger |
| BuyRollup.YearsChain | app.py:142-143 | year 1 starts at the loan principal and every later year starts where the previous one ended |
| BuyRollup.YearPrincipal | app.py:141-143 | a year's principal paid is its starting balance less its ending balance |
| BuyRollup.YearPayments | app.py:136-141 | a year's principal plus interest is the yearly `P&I` column |
| BuyRollup.YearPrincipalRepaid | app.py:144 | the yearly `Cumulative Principal` is the loan principal less the year's ending balance |
| BuyRollup.YearMatchesMonth | app.py:143-145 | year i's ending balance is the recurrence's balance after 12(i + 1) months, and its running totals equal the monthly ledger's at month 12(i + 1) |
| BuyRollup.BuyNet | app.py:145-147 | the buyer's net in year i + 1 is the home value less the balance still owed after 12(i + 1) months, less everything paid so far, less the down payment |
| BuyRollup.ProceedsNonDecreasing | app.py:146 | with non-negative appreciation, the unrounded sale proceeds never fall from one year to a later one |
| BuyRollup.HomeValueNonDecreasing | app.py:146 | with non-negative appreciation, the `Home Value` column never decreases |
| BuyRollup.ProceedsIncrease | app.py:146 | between two different years, the unrounded proceeds grow by at least price × appreciation × (1 − selling fee) |
| BuyRollup.HomeValueIncreasing | app.py:146 | when that yearly gain exceeds a cent, the `Home Value` column strictly increases |
| RentRollup.Saving | app.py:100-103 | `saving` is non-negative and at least the buyer's total payment less the rent; it is either 0 or exactly that difference |
| RentRollup.Asset | app.py:157 | `Asset` is, to the cent, `fv_annuity` of the yearly saving plus the down payment compounded |
| RentRollup.PortfolioSplits | app.py:157 | the account that starts with the down payment, grows every year and receives the yearly saving equals the annuity of the savings plus the compounded down payment |
| RentRollup.InvestedIsPortfolio | app.py:157 | the unrounded asset is exactly that year-by-year account |
| RentRollup.PortfolioNonNegative | app.py:157 | with non-negative growth, saving and down payment, the account is never negative |
| RentRollup.PortfolioNonDecreasing | app.py:157 | with non-negative growth, saving and down payment, the account never shrinks |
| RentRollup.AssetNonDecreasing | app.py:157 | the `Asset` column never decreases from one year to a later one |
| RentRollup.RentTable | app.py:153-158 | the yearly rent table: `Rent` and `Saving` are 12 × the monthly amounts, cumulative rent grows by a year's rent each year, and net is asset less the rent and savings paid so far, less the down payment |
| RentRollup.InvestedCoversContributions | app.py:157 | with non-negative growth, the account holds at least the down payment plus every saving put in |
| RentRollup.NetPlusRent | app.py:154-158 | the renter's net plus the rent paid so far is the asset less the down payment and the savings put in |
| RentRollup.RentNetBound | app.py:154-158 | with non-negative growth, the renter's net is never below minus the rent paid so far, less half a cent of rounding |
| Projection.PropertyTax | app.py:81-82 | the monthly property tax is whole dollars within 50 cents of 1.25% of the price over 12 |
| Projection.MonthlyFees | app.py:99 | the monthly fees (property tax, HOA and the $100 insurance) are within 50 cents of 1.25% of the price over 12, plus the HOA, plus $100 |
| Projection.PriceIsFinanced | app.py:84-85 | principal plus down payment is the price |
| Projection.Mortgage | app.py:98 | the P&I is in cents, within half a cent of the level payment over 360 months at apr / 12, and so within half a cent of `pmt` whenever the rate is not 0 |
| Projection.Compare | app.py:206-207 | the comparison is drawn exactly when the horizon fits both net columns, and then row i is year i + 1 with the two nets; otherwise it fails with `HorizonTooLong` |
| Projection.CompareTruncates | app.py:206-207 | the comparison over a shorter horizon is the beginning of the one over a longer horizon |
| Projection.LedgerOfInputs | app.py:84-123 | for slider inputs, the ledger starts at the price less the down payment and ends within the future value of a cent a month of zero |
| Projection.Project | app.py:81-158 | for every input the sliders allow, the run yields the loan, total payment, saving, a complete ledger, the yearly buy and rent tables and the comparison over `plot_years`; the ledger starts at the price less the down payment and ends within the future value of a cent a month of zero |

## Left out

- The Streamlit page is not modelled: the title, selectbox, markdown and summary text are outside the model. Each slider is kept only as the range `Projection.WithinSliders` allows. The sliders' step sizes are not modelled, so every value in a range is allowed.
- The chart is not modelled: the `melt` into long form and the Altair plot (`plot_net_balance`) draw the comparison but compute nothing.
- `pd.date_range` is not modelled: it labels rows with dates and does not affect any amount. Rows are numbered instead, with entry k being period or year k + 1.
- `df_summary` and the commented-out alternative formula of `fv_annuity` are not modelled, because the result uses neither.
- IEEE-754 doubles are not modelled: amounts are exact reals, and rounding is modelled only where the script rounds explicitly (`np.round`). Float representation error, such as a value that is exactly a half cent in decimal but not in binary, is outside the model.
- Amortization.FillLedger and Amortization.BuildLedger are proved for rounding to cents, as the script does. The lemmas about any ledger (LedgerFollowsRecurrence, RoundingDrift, FinalBalanceNearZero and the rest) are stated for any rounding within half a cent, a wider class.
- Projection.Compare: pandas raises a shape error when `plot_years` exceeds the 30 rows of the tables. The model reports that error as `HorizonTooLong`. The sliders never allow it.
- BuyRollup.HomeValue uses exponent `y` for year `y`, so year 1 is already appreciated once, as the code at line 146 does. The model follows the code.
- Finance.Pmt requires a rate other than 0, because the code's divisor is zero there. The projection uses Finance.LevelPayment instead (see Findings).

## Findings

| source | as written | input that shows it | evidently intended | confidence | as-written member | corrected member |
|---|---|---|---|---|---|---|
| app.py:8-9 | `pmt` divides by 1 − (1 + rate)^−periods and has no branch for a zero rate | the Interest slider at its minimum 0.0 (app.py:72) gives a monthly rate of 0, so the divisor is 1 − 1 = 0 and the division fails | the level payment principal / periods, just as `fv_annuity` has an explicit zero-rate branch (app.py:12-13) | high; not executed | Finance.PmtDenominatorZero | Finance.LevelPayment |
