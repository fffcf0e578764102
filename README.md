# Trading journal metrics in Dafny

A verified model of the arithmetic core of a Streamlit trading journal (`TJ.py`).
The app logs trades by hand and shows simple performance statistics. The core has two pieces:

- **Per-trade derived fields** (`TJ.py` lines 115-131). When a trade is entered, the
  form computes four fields from its numbers: planned risk:reward, P&L, return
  percentage and realized risk:reward. A price left at 0.0 means "not entered",
  because the code tests the prices for truthiness. Each field that cannot be
  computed is `None`. Module `TradeMetrics` (`trade_metrics.dfy`) holds one pure
  function per field, plus `ComputeMetrics`, which assembles the record.
- **`calc_stats`** (`TJ.py` lines 43-66). This computes the dashboard statistics over
  the filtered journal rows: trade count, win rate, average realized R:R, average and
  total P&L, and maximum drawdown. Module `JournalStats` (`journal_stats.dfy`) models
  it as the method `CalcStats`. The method keeps the source's running-peak loop and is
  proved equal to recursive specification functions. Lemmas then state what those
  functions mean.

Module `Wrappers` (`wrappers.dfy`) holds the `Option` type. It stands for Python `None`
and for pandas NaN cells.

Modelling choices:

- Prices, fees and statistics are exact `real`s. Quantity is an `int`.
- The form's widgets bound the inputs (`TJ.py` lines 86-95): quantity ≥ 1, and prices
  and fees ≥ 0. The computation block does not depend on these bounds, so
  `ComputeMetrics` has no precondition. The bounds appear as the predicate
  `FormBounds`, which lemmas take as a hypothesis where a property needs it.
- Only `"LONG"` gives direction +1, and every other side gives -1. `Side` is therefore
  `Long | Short`.
- A journal row is reduced to the two columns `calc_stats` reads: `pnl`, an
  `Option<real>` where an open trade is `None`, and `rr_realized`. The `rr_realized`
  cell is a finite number, an infinity, or missing (`RrCell`). This keeps the step
  that replaces infinities by NaN before averaging visible.
- pandas NaN-skipping is modelled explicitly:
  - `sum` gives 0 over no values.
  - `mean` gives NaN (`None`) over no values.
  - `cumsum` leaves a NaN cell as NaN.
  - Python's `max`/`min` keep the running value when the new value is NaN.

  As a result, open trades add nothing to the totals or the drawdown, but they do
  count in the win-rate denominator.
- `calc_stats` runs on the rows in stored order, before the dashboard sorts them. The
  model takes the sequence as given, and the drawdown depends on that order.

Facts about `TJ.py` that shape the contracts:

- `calc_stats` returns an empty dictionary for an empty frame (lines 44-45), which the
  model gives as `None`. The dashboard's `stats.get(..., 0)` (lines 208-211) supplies
  the zeros shown on the page.
- `avg_rr` and `avg_pnl` are pandas means (lines 59-62), so each is NaN (`None`) when
  no value is present: no finite realized R:R, or no closed trade.
- The return percentage is computed only when `entry > 0` (line 128), on top of the
  truthiness test of entry and exit (line 125).
- The realized R:R is computed only when `risk = abs(entry - sl) * qty` is positive
  (lines 130-131), so it also needs `qty > 0`. The form's quantity widget guarantees
  that (line 86).
- The P&L subtracts the fees (line 127), so a long trade that exits above its entry
  can still show a negative P&L when the fees exceed the gross gain. The model proves
  the sign of the P&L before fees for any fees (`PnlSignLaw`), and the sign of the P&L
  itself for fee-free trades (`FeeFreeWinningDirection`).

## Model

| member | source | states |
|---|---|---|
| `TradeMetrics.Direction` | TJ.py:126 | the direction is +1 exactly for a long trade and −1 otherwise |
| `TradeMetrics.PlannedRR` | TJ.py:116-120 | defined exactly when stop, target and entry are entered and the stop differs from the entry; then it is ≥ 0 and times the risk \|entry − stop\| gives the reward \|target − entry\| |
| `TradeMetrics.Pnl` | TJ.py:122-127 | defined exactly when entry and exit are both entered; then P&L plus fees is the favourable move times the quantity |
| `TradeMetrics.PnlPct` | TJ.py:123-128 | defined exactly when entry and exit are entered and the entry is positive; then return × entry = 100 × favourable move |
| `TradeMetrics.RealizedRR` | TJ.py:124-131 | defined exactly when the P&L is, the stop is entered, differs from the entry and the quantity is positive; then R:R × (\|entry − stop\| × qty) = P&L (no division by zero) |
| `TradeMetrics.ComputeMetrics` | TJ.py:115-131 | each of the four fields has its own applicability condition: a missing stop or target never blocks the P&L, and the return is defined only alongside the P&L |
| `TradeMetrics.PnlPctDefinedWithPnl` | TJ.py:125-128 | under the form's bounds (non-negative entry, line 87) the return is defined exactly when the P&L is |
| `TradeMetrics.RealizedDefinedness` | TJ.py:125-131 | under the form's bounds the realized R:R is defined exactly when entry, exit and stop are entered and the stop differs from the entry |
| `TradeMetrics.PnlSignLaw` | TJ.py:126-127 | for qty ≥ 1, P&L before fees is positive, negative or zero exactly as the favourable move is; zero exactly when exit equals entry |
| `TradeMetrics.FeeFreeWinningDirection` | TJ.py:126-127 | without fees, a long trade exiting above entry or a short trade exiting below it has a positive P&L |
| `TradeMetrics.SideFlipMove` | TJ.py:126 | the favourable move of a long trade is the negation of the short trade's on the same prices |
| `TradeMetrics.SideFlipPnl` | TJ.py:126-127 | without fees, switching LONG to SHORT negates the P&L |
| `TradeMetrics.SideFlipPnlPct` | TJ.py:126-128 | switching LONG to SHORT negates the return percentage |
| `TradeMetrics.SideFlipRealized` | TJ.py:126-131 | without fees, switching LONG to SHORT negates the realized R:R |
| `TradeMetrics.SideFlipNegates` | TJ.py:116-131 | without fees, switching side negates P&L, return and realized R:R and leaves planned R:R unchanged |
| `TradeMetrics.PnlPctIgnoresSizeAndFees` | TJ.py:128 | the return percentage does not depend on the quantity or the fees |
| `TradeMetrics.TargetHitRealizesPlan` | TJ.py:116-131 | a fee-free trade that exits at its target on the winning side realizes exactly its planned R:R |
| `TradeMetrics.StopHitLosesOneR` | TJ.py:125-131 | a fee-free trade stopped out on the losing side realizes exactly −1 R |
| `TradeMetrics.LongExample` | TJ.py:125-128 | entry 100, exit 110, LONG, qty 10, fees 5 gives P&L 95 and return 10, with both R:R fields undefined |
| `TradeMetrics.PlannedExample` | TJ.py:116-120 | entry 100, stop 90, target 130 gives a planned R:R of 3 |
| `JournalStats.Pnls` | TJ.py:46-49 | the `pnl` column: one cell per row, each equal to that row's P&L (NaN for an open trade) |
| `JournalStats.FiniteRrs` | TJ.py:59 | the averaged R:R column keeps exactly the finite cells, with their values; infinities and NaN become absent |
| `JournalStats.CountPresent` | TJ.py:62 | the number of closed trades is at most the number of rows |
| `JournalStats.CountPresentZero` | TJ.py:62 | no value is counted exactly when every value is absent |
| `JournalStats.MeanPresent` | TJ.py:62 | the mean is defined exactly when something is counted, and mean × count = total |
| `JournalStats.MeanDefinedness` | TJ.py:59-62 | `avg_pnl` / `avg_rr` are NaN exactly when no row has a (finite) value |
| `JournalStats.MeanBetween` | TJ.py:59-62 | an average lies between any lower and upper bound of the values averaged |
| `JournalStats.SumPresent` | TJ.py:63 | pandas `sum` skips NaN cells and is 0 when no value is present; what else it means is stated by `SumPresentAppend`, `TotalIgnoresOrder`, `SumAtLeast` and `SumAtMost` |
| `JournalStats.SumAtLeast` | TJ.py:62-63 | a lower bound on every value, times the count, bounds the total from below |
| `JournalStats.SumAtMost` | TJ.py:62-63 | an upper bound on every value, times the count, bounds the total from above |
| `JournalStats.CumSum` | TJ.py:49 | pandas `cumsum`: one cell per P&L cell; its cell-by-cell meaning is stated by `CumSumAt` |
| `JournalStats.CumSumAt` | TJ.py:49 | each cumulative cell is the total of the P&L up to and including it, and NaN where that row's P&L is NaN |
| `JournalStats.RunningPeak` | TJ.py:51-53 | the running peak is never below its starting value 0 |
| `JournalStats.RunningPeakIsMax` | TJ.py:51-53 | the running peak is at least every visited cumulative value, and is either 0 or one of them |
| `JournalStats.MaxDrawdown` | TJ.py:50-55 | the maximum drawdown is never above 0 |
| `JournalStats.MaxDrawdownIsLeast` | TJ.py:50-55 | the maximum drawdown is at most each cell's value minus the running peak up to that cell, and is either 0 or equal to one of them |
| `JournalStats.VisitStep` | TJ.py:52-55 | visiting one cell changes the peak and the drawdown exactly as one loop pass does; a NaN cell changes neither |
| `JournalStats.IsWin` | TJ.py:46 | an open trade (NaN P&L) and a break-even trade are never wins; its consequences for the count are stated by `WinCountExtremes` |
| `JournalStats.WinCount` | TJ.py:46 | the number of wins is at most the number of rows |
| `JournalStats.WinCountExtremes` | TJ.py:46 | no wins exactly when no row has a positive P&L; all rows wins exactly when every row does |
| `JournalStats.WinRate` | TJ.py:58 | in [0, 100]; rate × rows = 100 × wins; 0 exactly with no wins, 100 exactly when every row wins |
| `JournalStats.CalcStats` | TJ.py:43-66 | None exactly for no rows; otherwise the count of all rows, the win rate over all rows, the mean finite R:R, the mean and total P&L over closed trades, and the drawdown loop's result equal to `MaxDrawdown` of the cumulative P&L (so, by their contracts, a win rate in [0, 100] and a drawdown ≤ 0) |
| `JournalStats.NoLossNoDrawdown` | TJ.py:49-55 | if no P&L is negative, the peak is the running total and the maximum drawdown is 0 |
| `JournalStats.DrawdownWithinLosses` | TJ.py:49-55 | the peak lies between the cumulative P&L and that plus all losses, so the drawdown is never deeper than the sum of the losing trades |
| `JournalStats.OpenTradeAppended` | TJ.py:46-63 | appending an open trade leaves total P&L, average P&L, drawdown and win count unchanged (while the row count grows) |
| `JournalStats.CumSumOfThree` | TJ.py:49 | the cumulative P&L of three closed trades a, b, c is a, a+b, a+b+c |
| `JournalStats.DrawdownOfThree` | TJ.py:50-55 | the drawdown of three present cumulative values, replayed step by step from peak 0 |
| `JournalStats.DrawdownExampleRecovering` | TJ.py:49-55 | P&L 100, −50, 30 gives a maximum drawdown of −50 |
| `JournalStats.DrawdownExampleLateLoss` | TJ.py:49-55 | P&L 100, 30, −80 gives a maximum drawdown of −80 |
| `JournalStats.DrawdownExampleLossesFirst` | TJ.py:49-55 | P&L −50, −50, 100 gives −100 |
| `JournalStats.DrawdownExampleWinBetween` | TJ.py:49-55 | P&L −50, 100, −50 gives −50 |
| `JournalStats.DrawdownDependsOnOrder` | TJ.py:49-63 | two orderings of the same trades have the same total P&L but different maximum drawdowns |
| `JournalStats.WinRateExample` | TJ.py:46-58 | P&L 50, −20, 0 gives one win in three, a win rate of 100/3; a zero P&L is not a win |
| `JournalStats.SumPresentAppend` | TJ.py:63 | the total over two consecutive stretches of rows is the sum of their totals |
| `JournalStats.TotalIgnoresOrder` | TJ.py:63 | the total P&L does not depend on which stretch of rows comes first |

## Left out

- The Streamlit page is not modelled: page setup, tabs, input widgets, preview text, save button, rerun and metric cards. The widgets' bounds survive only as the predicate `FormBounds`.
- `load_journal`, `save_journal` and the append of a new row (CSV reading and writing, and the default empty schema) are not modelled. They are persistence with nothing to compute.
- Dashboard filtering by date, symbol and side, the sort by date and time, the group-by and the plotly charts are not modelled. `calc_stats` is modelled on whatever rows it is given.
- The `round(..., 1)` and `round(..., 2)` calls in `calc_stats` are not modelled, and neither is float rounding in general. The model uses exact reals.
- `losses` (`TJ.py` line 47) is computed and never used, so it is not modelled.
- The branch giving `avg_rr = 0` when the `rr_realized` column is missing is not modelled. The journal schema always has that column, and the frame is non-empty there.
- `JournalStats.CalcStats`: the `pnl` column is taken to hold finite numbers or NaN only. An infinite P&L cannot come from the form's arithmetic over reals and is not modelled.
- The JSON-file, password-gated variant of the journal is not part of this model.
