/**
 * The dashboard statistics over a (filtered) list of journal rows: trade count,
 * win rate, average realized R:R, average and total P&L, and the maximum
 * drawdown of the cumulative P&L, anchored at a starting peak of 0.
 *
 * Sums, counts and running values are defined by recursion on the LAST
 * element, the order in which the rows are visited.
 */
module JournalStats {
  import opened Wrappers

  /** A stored `rr_realized` cell: a finite number, an infinity, or empty (NaN). */
  datatype RrCell = Finite(x: real) | Infinite(positive: bool) | Missing

  /** The two columns of a journal row that the statistics read. An open trade has no P&L. */
  datatype Row = Row(pnl: Option<real>, rrRealized: RrCell)

  /** The statistics dictionary; None stands for a NaN entry. */
  datatype Stats = Stats(
    totalTrades: nat,
    winRate: real,
    avgRr: Option<real>,
    avgPnl: Option<real>,
    totalPnl: real,
    maxDrawdown: real)

  function Last<T>(s: seq<T>): T
    requires s != []
  {
    s[|s| - 1]
  }

  function Init<T>(s: seq<T>): seq<T>
    requires s != []
  {
    s[..|s| - 1]
  }

  // ---------------------------------------------------------------- columns

  /** The `pnl` column. */
  function Pnls(rows: seq<Row>): (p: seq<Option<real>>)
    ensures |p| == |rows| && forall i :: 0 <= i < |rows| ==> p[i] == rows[i].pnl
  {
    seq(|rows|, i requires 0 <= i < |rows| => rows[i].pnl)
  }

  /** The `rr_realized` column once infinities are replaced by NaN: only finite values remain. */
  function FiniteRrs(rows: seq<Row>): (p: seq<Option<real>>)
    ensures |p| == |rows|
    ensures forall i :: 0 <= i < |rows| ==> (p[i].Some? <==> rows[i].rrRealized.Finite?)
    ensures forall i :: 0 <= i < |rows| && p[i].Some? ==> p[i].value == rows[i].rrRealized.x
  {
    seq(|rows|, i requires 0 <= i < |rows| =>
      match rows[i].rrRealized
      case Finite(x) => Some(x)
      case _ => None)
  }

  // ------------------------------------------------- NaN-skipping reductions

  /** pandas `sum`: the total of the present values; 0 when there are none. */
  function SumPresent(p: seq<Option<real>>): (s: real)
    ensures CountPresent(p) == 0 ==> s == 0.0
  {
    if p == [] then 0.0
    else SumPresent(Init(p)) + (match Last(p) case Some(x) => x case None => 0.0)
  }

  /** pandas `count`: how many values are present. */
  function CountPresent(p: seq<Option<real>>): (n: nat)
    ensures n <= |p|
  {
    if p == [] then 0 else CountPresent(Init(p)) + (if Last(p).Some? then 1 else 0)
  }

  /** pandas `mean`: the average of the present values, NaN (None) when there are none. */
  function MeanPresent(p: seq<Option<real>>): (r: Option<real>)
    ensures r.Some? <==> CountPresent(p) > 0
    ensures r.Some? ==> r.value * CountPresent(p) as real == SumPresent(p)
  {
    var n := CountPresent(p);
    if n == 0 then None
    else
      var mean := SumPresent(p) / n as real;
      assert mean * n as real == SumPresent(p);
      Some(mean)
  }

  /** Nothing is counted exactly when every value is absent. */
  lemma {:induction false} CountPresentZero(p: seq<Option<real>>)
    ensures CountPresent(p) == 0 <==> forall i :: 0 <= i < |p| ==> p[i].None?
  {
    if p != [] {
      CountPresentZero(Init(p));
      assert forall i :: 0 <= i < |p| - 1 ==> p[i] == Init(p)[i];
    }
  }

  /** The average is NaN exactly when no value is present: only closed trades are averaged. */
  lemma MeanDefinedness(p: seq<Option<real>>)
    ensures MeanPresent(p).None? <==> forall i :: 0 <= i < |p| ==> p[i].None?
  {
    CountPresentZero(p);
  }

  // ----------------------------------------------------------- cumulative P&L

  /** pandas `cumsum`: the running total at each present value; a NaN cell stays NaN. */
  function CumSum(p: seq<Option<real>>): (c: seq<Option<real>>)
    ensures |c| == |p|
  {
    if p == [] then []
    else
      CumSum(Init(p)) + [match Last(p) case Some(x) => Some(SumPresent(Init(p)) + x) case None => None]
  }

  /** The running peak after visiting `eq`, starting from 0 and skipping NaN cells. */
  function RunningPeak(eq: seq<Option<real>>): (peak: real)
    ensures peak >= 0.0
  {
    if eq == [] then 0.0
    else
      var before := RunningPeak(Init(eq));
      match Last(eq)
      case None => before
      case Some(v) => if v > before then v else before
  }

  /** The running peak is the greatest value visited, or the starting 0 when that is greater. */
  lemma {:induction false} RunningPeakIsMax(eq: seq<Option<real>>)
    ensures forall j :: 0 <= j < |eq| && eq[j].Some? ==> eq[j].value <= RunningPeak(eq)
    ensures RunningPeak(eq) == 0.0 || exists j :: 0 <= j < |eq| && eq[j] == Some(RunningPeak(eq))
  {
    if eq != [] {
      RunningPeakIsMax(Init(eq));
      assert forall j :: 0 <= j < |eq| - 1 ==> eq[j] == Init(eq)[j];
    }
  }

  /** The drawdown registered at cell `i`: its value less the running peak up to and including it. */
  function DrawdownAt(eq: seq<Option<real>>, i: nat): real
    requires i < |eq| && eq[i].Some?
  {
    eq[i].value - RunningPeak(eq[..i + 1])
  }

  /** The maximum drawdown after visiting `eq`, never above 0. */
  function MaxDrawdown(eq: seq<Option<real>>): (dd: real)
    ensures dd <= 0.0
  {
    if eq == [] then 0.0
    else
      var before := MaxDrawdown(Init(eq));
      match Last(eq)
      case None => before
      case Some(v) =>
        var peak := RunningPeak(eq);
        if v - peak < before then v - peak else before
  }

  /** The maximum drawdown is the least drawdown registered at any visited cell, or 0 if none is below 0. */
  lemma {:induction false} MaxDrawdownIsLeast(eq: seq<Option<real>>)
    ensures forall i: nat :: i < |eq| && eq[i].Some? ==> MaxDrawdown(eq) <= DrawdownAt(eq, i)
    ensures MaxDrawdown(eq) == 0.0 || exists i: nat :: i < |eq| && eq[i].Some? && MaxDrawdown(eq) == DrawdownAt(eq, i)
  {
    if eq != [] {
      var init := Init(eq);
      MaxDrawdownIsLeast(init);
      assert forall i: nat :: i < |eq| - 1 ==> eq[i] == init[i] && eq[..i + 1] == init[..i + 1];
      assert init == eq[..|eq| - 1] && eq == eq[..|eq|];
    }
  }

  // ----------------------------------------------------------------- win rate

  /** `df["pnl"] > 0`: a present, strictly positive P&L. */
  predicate IsWin(r: Row): (b: bool)
    ensures r.pnl == None || r.pnl == Some(0.0) ==> !b
  {
    r.pnl.Some? && r.pnl.value > 0.0
  }

  /** The rows with a strictly positive P&L; a break-even or open trade is not a win. */
  function WinCount(rows: seq<Row>): (n: nat)
    ensures n <= |rows|
  {
    if rows == [] then 0 else WinCount(Init(rows)) + (if IsWin(Last(rows)) then 1 else 0)
  }

  /** No wins exactly when no row is a win, and all rows are wins exactly when every row is. */
  lemma {:induction false} WinCountExtremes(rows: seq<Row>)
    ensures WinCount(rows) == 0 <==> forall i :: 0 <= i < |rows| ==> !IsWin(rows[i])
    ensures WinCount(rows) == |rows| <==> forall i :: 0 <= i < |rows| ==> IsWin(rows[i])
  {
    if rows != [] {
      WinCountExtremes(Init(rows));
      assert forall i :: 0 <= i < |rows| - 1 ==> rows[i] == Init(rows)[i];
    }
  }

  /** Winners as a percentage of ALL rows, open trades included; 0 for no rows. */
  function WinRate(wins: nat, total: nat): (r: real)
    requires wins <= total
    ensures 0.0 <= r <= 100.0
    ensures total > 0 ==> r * total as real == 100.0 * wins as real
    ensures r == 0.0 <==> wins == 0
    ensures r == 100.0 <==> wins == total && total > 0
  {
    if total > 0 then
      var rate := wins as real / total as real * 100.0;
      assert rate * total as real == 100.0 * wins as real;
      assert rate <= 100.0 by {
        assert rate * total as real <= 100.0 * total as real;
      }
      rate
    else 0.0
  }

  // -------------------------------------------------------------- calc_stats

  /** Visiting cell `i` updates the peak and the drawdown exactly as one pass of the drawdown loop does. */
  lemma VisitStep(eq: seq<Option<real>>, i: nat)
    requires i < |eq|
    ensures var peak := RunningPeak(eq[..i]);
            var maxDd := MaxDrawdown(eq[..i]);
            match eq[i]
            case None =>
              RunningPeak(eq[..i + 1]) == peak && MaxDrawdown(eq[..i + 1]) == maxDd
            case Some(v) =>
              var peak' := if v > peak then v else peak;
              RunningPeak(eq[..i + 1]) == peak' &&
              MaxDrawdown(eq[..i + 1]) == if v - peak' < maxDd then v - peak' else maxDd
  {
    var pre := eq[..i + 1];
    assert Init(pre) == eq[..i] && Last(pre) == eq[i];
    assert pre[..|pre|] == pre;
  }

  /**
   * The statistics of the rows in the order given; None for no rows (the
   * empty dictionary). The drawdown loop visits the cumulative P&L one cell
   * at a time; a NaN cell leaves both the peak and the drawdown as they are.
   */
  method CalcStats(rows: seq<Row>) returns (stats: Option<Stats>)
    ensures stats.None? <==> rows == []
    ensures stats.Some? ==> stats.value.totalTrades == |rows|
    ensures stats.Some? ==> stats.value.winRate == WinRate(WinCount(rows), |rows|)
    ensures stats.Some? ==> stats.value.avgRr == MeanPresent(FiniteRrs(rows))
    ensures stats.Some? ==> stats.value.avgPnl == MeanPresent(Pnls(rows))
    ensures stats.Some? ==> stats.value.totalPnl == SumPresent(Pnls(rows))
    ensures stats.Some? ==> stats.value.maxDrawdown == MaxDrawdown(CumSum(Pnls(rows)))
  {
    if rows == [] {
      return None;
    }
    var wins := WinCount(rows);
    var total := |rows|;
    var eq := CumSum(Pnls(rows));
    var maxDd := 0.0;
    var peak := 0.0;
    for i := 0 to |eq|
      invariant peak == RunningPeak(eq[..i])
      invariant maxDd == MaxDrawdown(eq[..i])
    {
      VisitStep(eq, i);
      match eq[i]
      case Some(v) =>
        peak := if v > peak then v else peak;
        var dd := v - peak;
        maxDd := if dd < maxDd then dd else maxDd;
      case None =>
    }
    assert eq[..|eq|] == eq;
    stats := Some(Stats(
      total,
      WinRate(wins, total),
      MeanPresent(FiniteRrs(rows)),
      MeanPresent(Pnls(rows)),
      SumPresent(Pnls(rows)),
      maxDd));
  }

  // ------------------------------------------------------------------ lemmas

  /** Each present cumulative value is the total of the present P&L values up to and including it. */
  lemma {:induction false} CumSumAt(p: seq<Option<real>>, i: nat)
    requires i < |p|
    ensures CumSum(p)[i] == if p[i].Some? then Some(SumPresent(p[..i + 1])) else None
  {
    var init := Init(p);
    if i == |p| - 1 {
      assert p[..i + 1] == p;
      assert init == p[..i];
    } else {
      CumSumAt(init, i);
      assert init[..i + 1] == p[..i + 1];
    }
  }

  /** Visiting one more cumulative cell extends the cumulative sequence by one. */
  lemma CumSumInit(p: seq<Option<real>>)
    requires p != []
    ensures Init(CumSum(p)) == CumSum(Init(p))
  {
  }

  /** With no losing trade the peak is the running total, so no drawdown is ever registered. */
  lemma {:induction false} NoLossNoDrawdown(p: seq<Option<real>>)
    requires forall i :: 0 <= i < |p| && p[i].Some? ==> p[i].value >= 0.0
    ensures SumPresent(p) >= 0.0
    ensures RunningPeak(CumSum(p)) == SumPresent(p)
    ensures MaxDrawdown(CumSum(p)) == 0.0
  {
    if p != [] {
      var c := CumSum(p);
      NoLossNoDrawdown(Init(p));
      CumSumInit(p);
      assert c[..|c|] == c;
    }
  }

  /**
   * The money given back by the losing trades, as a non-negative amount. This is a
   * measure for `DrawdownWithinLosses` only; it does not stand for any frame of `calc_stats`.
   */
  function LossTotal(p: seq<Option<real>>): (r: real)
    ensures r >= 0.0
  {
    if p == [] then 0.0
    else LossTotal(Init(p)) + (match Last(p) case Some(x) => if x < 0.0 then -x else 0.0 case None => 0.0)
  }

  /**
   * The running peak lies between the current cumulative P&L and that plus all
   * losses so far, so the drawdown is never deeper than the sum of the losing trades.
   */
  lemma {:induction false} DrawdownWithinLosses(p: seq<Option<real>>)
    ensures SumPresent(p) <= RunningPeak(CumSum(p)) <= SumPresent(p) + LossTotal(p)
    ensures MaxDrawdown(CumSum(p)) >= -LossTotal(p)
  {
    if p != [] {
      var c := CumSum(p);
      DrawdownWithinLosses(Init(p));
      CumSumInit(p);
      assert c[..|c|] == c;
    }
  }

  /** A row whose trade is still open changes neither the P&L figures nor the drawdown, but it does count as a trade. */
  lemma OpenTradeAppended(rows: seq<Row>, r: Row)
    requires r.pnl.None?
    ensures SumPresent(Pnls(rows + [r])) == SumPresent(Pnls(rows))
    ensures MeanPresent(Pnls(rows + [r])) == MeanPresent(Pnls(rows))
    ensures MaxDrawdown(CumSum(Pnls(rows + [r]))) == MaxDrawdown(CumSum(Pnls(rows)))
    ensures WinCount(rows + [r]) == WinCount(rows)
  {
    var p := Pnls(rows + [r]);
    assert Init(rows + [r]) == rows;
    assert Init(p) == Pnls(rows);
    CumSumInit(p);
    var c := CumSum(p);
    assert Last(c) == None;
  }

  /** The cumulative P&L of three closed trades. */
  lemma CumSumOfThree(p: seq<Option<real>>, a: real, b: real, c: real)
    requires p == [Some(a), Some(b), Some(c)]
    ensures CumSum(p) == [Some(a), Some(a + b), Some(a + b + c)]
  {
    var q1, q2 := [Some(a)], [Some(a), Some(b)];
    assert p[..1] == q1 && p[..2] == q2 && p[..3] == p;
    assert Init(q1) == [] && Init(q2) == q1 && Init(p) == q2;
    assert SumPresent(q1) == a && SumPresent(q2) == a + b && SumPresent(p) == a + b + c;
    CumSumAt(p, 0);
    CumSumAt(p, 1);
    CumSumAt(p, 2);
  }

  /** The drawdown of three present cumulative values, replayed cell by cell. */
  lemma DrawdownOfThree(c: seq<Option<real>>, x: real, y: real, z: real)
    requires c == [Some(x), Some(y), Some(z)]
    ensures var p1 := if x > 0.0 then x else 0.0;
            var d1 := if x - p1 < 0.0 then x - p1 else 0.0;
            var p2 := if y > p1 then y else p1;
            var d2 := if y - p2 < d1 then y - p2 else d1;
            var p3 := if z > p2 then z else p2;
            MaxDrawdown(c) == if z - p3 < d2 then z - p3 else d2
  {
    assert c[..0] == [];
    VisitStep(c, 0);
    VisitStep(c, 1);
    VisitStep(c, 2);
    assert c[..3] == c;
  }

  /** The cumulative P&L of 100, -50, 30 falls 50 below its peak of 100. */
  lemma DrawdownExampleRecovering(p: seq<Option<real>>)
    requires p == [Some(100.0), Some(-50.0), Some(30.0)]
    ensures MaxDrawdown(CumSum(p)) == -50.0
  {
    CumSumOfThree(p, 100.0, -50.0, 30.0);
    DrawdownOfThree(CumSum(p), 100.0, 50.0, 80.0);
  }

  /** A late loss of 80 after a peak of 130 registers in full: the drawdown is -80. */
  lemma DrawdownExampleLateLoss(p: seq<Option<real>>)
    requires p == [Some(100.0), Some(30.0), Some(-80.0)]
    ensures MaxDrawdown(CumSum(p)) == -80.0
  {
    CumSumOfThree(p, 100.0, 30.0, -80.0);
    DrawdownOfThree(CumSum(p), 100.0, 130.0, 50.0);
  }

  /** Two losses of 50 in a row, then a win of 100: the cumulative P&L digs to -100. */
  lemma DrawdownExampleLossesFirst(p: seq<Option<real>>)
    requires p == [Some(-50.0), Some(-50.0), Some(100.0)]
    ensures MaxDrawdown(CumSum(p)) == -100.0
  {
    CumSumOfThree(p, -50.0, -50.0, 100.0);
    DrawdownOfThree(CumSum(p), -50.0, -100.0, 0.0);
  }

  /** The same trades with the win between the losses: the fall is capped at -50. */
  lemma DrawdownExampleWinBetween(q: seq<Option<real>>)
    requires q == [Some(-50.0), Some(100.0), Some(-50.0)]
    ensures MaxDrawdown(CumSum(q)) == -50.0
  {
    CumSumOfThree(q, -50.0, 100.0, -50.0);
    DrawdownOfThree(CumSum(q), -50.0, 50.0, 0.0);
  }

  /** The same three trades in two orders: equal totals, different drawdowns. */
  lemma DrawdownDependsOnOrder(p: seq<Option<real>>, q: seq<Option<real>>)
    requires p == [Some(-50.0), Some(-50.0), Some(100.0)]
    requires q == [Some(-50.0), Some(100.0), Some(-50.0)]
    ensures multiset(p) == multiset(q)
    ensures SumPresent(p) == SumPresent(q)
    ensures MaxDrawdown(CumSum(p)) != MaxDrawdown(CumSum(q))
  {
    DrawdownExampleLossesFirst(p);
    DrawdownExampleWinBetween(q);
    TotalIgnoresOrder(p[..2], p[2..]);
    assert p[..2] + p[2..] == p;
    assert p[2..] + p[..2] == [Some(100.0), Some(-50.0), Some(-50.0)];
    TotalIgnoresOrder(q[..1], q[1..]);
    assert q[..1] + q[1..] == q;
    assert q[1..] + q[..1] == [Some(100.0), Some(-50.0), Some(-50.0)];
  }

  /** Trades of 50, -20 and 0: one win in three, a win rate of 100/3 (33.3 once rounded). */
  lemma WinRateExample(rows: seq<Row>)
    requires |rows| == 3
    requires rows[0].pnl == Some(50.0) && rows[1].pnl == Some(-20.0) && rows[2].pnl == Some(0.0)
    ensures WinRate(WinCount(rows), |rows|) == 100.0 / 3.0
  {
    assert Init(rows) == rows[..2] && Init(rows[..2]) == rows[..1] && Init(rows[..1]) == [];
    assert WinCount(rows[..1]) == 1;
    assert WinCount(rows[..2]) == 1;
    assert WinCount(rows) == 1;
  }

  /** Totals add up over consecutive stretches of the journal. */
  lemma {:induction false} SumPresentAppend(a: seq<Option<real>>, b: seq<Option<real>>)
    ensures SumPresent(a + b) == SumPresent(a) + SumPresent(b)
  {
    if b == [] {
      assert a + b == a;
    } else {
      assert Init(a + b) == a + Init(b) && Last(a + b) == Last(b);
      SumPresentAppend(a, Init(b));
    }
  }

  /** Unlike the drawdown, the total P&L does not depend on which stretch of trades comes first. */
  lemma TotalIgnoresOrder(a: seq<Option<real>>, b: seq<Option<real>>)
    ensures SumPresent(a + b) == SumPresent(b + a)
  {
    SumPresentAppend(a, b);
    SumPresentAppend(b, a);
  }

  /** Arithmetic step of the lower bound on a total: one more value at or above the bound. */
  lemma StepAtLeast(lo: real, n: real, total: real, x: real)
    requires lo * n <= total && lo <= x
    ensures lo * (n + 1.0) <= total + x
  {
  }

  /** Arithmetic step of the upper bound on a total: one more value at or below the bound. */
  lemma StepAtMost(hi: real, n: real, total: real, x: real)
    requires total <= hi * n && x <= hi
    ensures total + x <= hi * (n + 1.0)
  {
  }

  /** Dividing bounds by a positive count. */
  lemma UnscaleBound(lo: real, hi: real, n: real, m: real, total: real)
    requires n > 0.0 && lo * n <= total <= hi * n && m * n == total
    ensures lo <= m <= hi
  {
  }

  /** A lower bound on every present value bounds the total from below, scaled by the count. */
  lemma {:induction false} SumAtLeast(p: seq<Option<real>>, lo: real)
    requires forall i :: 0 <= i < |p| && p[i].Some? ==> lo <= p[i].value
    ensures lo * CountPresent(p) as real <= SumPresent(p)
  {
    if p != [] {
      var init := Init(p);
      assert forall i :: 0 <= i < |init| ==> init[i] == p[i];
      SumAtLeast(init, lo);
      if Last(p).Some? {
        StepAtLeast(lo, CountPresent(init) as real, SumPresent(init), Last(p).value);
      }
    }
  }

  /** An upper bound on every present value bounds the total from above, scaled by the count. */
  lemma {:induction false} SumAtMost(p: seq<Option<real>>, hi: real)
    requires forall i :: 0 <= i < |p| && p[i].Some? ==> p[i].value <= hi
    ensures SumPresent(p) <= hi * CountPresent(p) as real
  {
    if p != [] {
      var init := Init(p);
      assert forall i :: 0 <= i < |init| ==> init[i] == p[i];
      SumAtMost(init, hi);
      if Last(p).Some? {
        StepAtMost(hi, CountPresent(init) as real, SumPresent(init), Last(p).value);
      }
    }
  }

  /** An average (of P&L or of realized R:R) lies between the least and the greatest value averaged. */
  lemma MeanBetween(p: seq<Option<real>>, lo: real, hi: real)
    requires forall i :: 0 <= i < |p| && p[i].Some? ==> lo <= p[i].value <= hi
    requires MeanPresent(p).Some?
    ensures lo <= MeanPresent(p).value <= hi
  {
    var n := CountPresent(p) as real;
    var m := MeanPresent(p).value;
    SumAtLeast(p, lo);
    SumAtMost(p, hi);
    UnscaleBound(lo, hi, n, m, SumPresent(p));
  }
}
