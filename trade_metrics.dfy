/**
 * The derived fields computed for a new journal entry from the numbers typed
 * into the trade form: planned risk:reward, P&L, return percentage and
 * realized risk:reward. A price field left at 0.0 counts as "not entered",
 * because the form code tests the numbers for truthiness.
 */
module TradeMetrics {
  import opened Wrappers

  /** The "Side" select box. Only LONG trades with direction +1; every other side trades with -1. */
  datatype Side = Long | Short

  /** The numeric inputs of the new-trade form. */
  datatype TradeInput = TradeInput(
    side: Side,
    qty: int,
    entry: real,
    exitPrice: real,
    sl: real,
    tp: real,
    fees: real)

  /** The four derived fields stored with every record; None is a field shown as "-" and saved empty. */
  datatype Metrics = Metrics(
    rrPlanned: Option<real>,
    pnl: Option<real>,
    pnlPct: Option<real>,
    rrRealized: Option<real>)

  /** What the form's widgets guarantee: at least one unit, and no negative price or fee. */
  predicate FormBounds(t: TradeInput) {
    t.qty >= 1 && t.entry >= 0.0 && t.exitPrice >= 0.0 && t.sl >= 0.0 && t.tp >= 0.0 && t.fees >= 0.0
  }

  function Abs(x: real): (r: real)
    ensures r >= 0.0 && (r == x || r == -x)
  {
    if x < 0.0 then -x else x
  }

  function Direction(side: Side): (d: real)
    ensures d == 1.0 <==> side == Long
    ensures d == 1.0 || d == -1.0
  {
    if side == Long then 1.0 else -1.0
  }

  /** The price move per unit in the trade's favour: positive for a winning exit before fees. */
  function Move(t: TradeInput): real {
    (t.exitPrice - t.entry) * Direction(t.side)
  }

  function Negate(o: Option<real>): Option<real> {
    match o
    case None => None
    case Some(x) => Some(-x)
  }

  /** A quotient times its non-zero divisor gives back the dividend. */
  lemma DivTimes(x: real, k: real)
    requires k != 0.0
    ensures (x / k) * k == x
  {
  }

  /** Planned risk:reward: needs stop, target and entry entered, and a stop away from the entry. */
  function PlannedRR(t: TradeInput): (r: Option<real>)
    ensures r.Some? <==> t.sl != 0.0 && t.tp != 0.0 && t.entry != 0.0 && t.sl != t.entry
    ensures r.Some? ==> r.value >= 0.0 && r.value * Abs(t.entry - t.sl) == Abs(t.tp - t.entry)
  {
    if t.sl != 0.0 && t.tp != 0.0 && t.entry != 0.0 then
      var risk := Abs(t.entry - t.sl);
      var reward := Abs(t.tp - t.entry);
      if risk > 0.0 then DivTimes(reward, risk); Some(reward / risk) else None
    else None
  }

  /** P&L: needs entry and exit entered; the move times the size, less the fees. */
  function Pnl(t: TradeInput): (r: Option<real>)
    ensures r.Some? <==> t.entry != 0.0 && t.exitPrice != 0.0
    ensures r.Some? ==> r.value + t.fees == Move(t) * t.qty as real
  {
    if t.entry != 0.0 && t.exitPrice != 0.0 then
      Some((t.exitPrice - t.entry) * Direction(t.side) * t.qty as real - t.fees)
    else None
  }

  /** Return percentage: computed with the P&L, and only over a positive entry price. */
  function PnlPct(t: TradeInput): (r: Option<real>)
    ensures r.Some? <==> t.entry != 0.0 && t.exitPrice != 0.0 && t.entry > 0.0
    ensures r.Some? ==> r.value * t.entry == 100.0 * Move(t)
  {
    if t.entry != 0.0 && t.exitPrice != 0.0 then
      if t.entry > 0.0 then
        var pct := (t.exitPrice - t.entry) * Direction(t.side) / t.entry * 100.0;
        DivTimes(Move(t), t.entry);
        assert pct * t.entry == ((Move(t) / t.entry) * t.entry) * 100.0;
        Some(pct)
      else None
    else None
  }

  /** Realized risk:reward: the P&L over the money at risk between entry and stop, when that is positive. */
  function RealizedRR(t: TradeInput): (r: Option<real>)
    ensures r.Some? <==> Pnl(t).Some? && t.sl != 0.0 && t.sl != t.entry && t.qty > 0
    ensures r.Some? ==> r.value * (Abs(t.entry - t.sl) * t.qty as real) == Pnl(t).value
  {
    match Pnl(t)
    case None => None
    case Some(pnl) =>
      if t.sl != 0.0 && t.entry != 0.0 then
        var risk := Abs(t.entry - t.sl) * t.qty as real;
        assert risk > 0.0 <==> t.sl != t.entry && t.qty > 0 by {
          var q := t.qty as real;
          if t.sl != t.entry && t.qty > 0 {
            assert Abs(t.entry - t.sl) > 0.0 && q > 0.0;
          } else if t.sl == t.entry {
            assert risk == 0.0 * q;
          } else {
            assert q <= 0.0;
          }
        }
        if risk > 0.0 then DivTimes(pnl, risk); Some(pnl / risk) else None
      else None
  }

  /**
   * The preview block of the form. Each field has its own guard: a missing
   * stop or target never blocks the P&L, and no guard ever lets a division
   * by zero through.
   */
  function ComputeMetrics(t: TradeInput): (m: Metrics)
    ensures m.rrPlanned.Some? <==> t.sl != 0.0 && t.tp != 0.0 && t.entry != 0.0 && t.sl != t.entry
    ensures m.pnl.Some? <==> t.entry != 0.0 && t.exitPrice != 0.0
    ensures m.pnlPct.Some? <==> m.pnl.Some? && t.entry > 0.0
    ensures m.rrRealized.Some? <==> m.pnl.Some? && t.sl != 0.0 && t.sl != t.entry && t.qty > 0
  {
    Metrics(PlannedRR(t), Pnl(t), PnlPct(t), RealizedRR(t))
  }

  /** Two numbers that agree after multiplying by the same non-zero factor are equal. */
  lemma CancelFactor(x: real, y: real, k: real)
    requires k != 0.0 && x * k == y * k
    ensures x == y
  {
    assert (x - y) * k == 0.0;
  }

  /** Multiplying by a common factor keeps two numbers opposite. */
  lemma NegateFactor(x: real, y: real, k: real)
    requires x == -y
    ensures x * k == -(y * k)
  {
  }

  /** Under the form's bounds an entry price that was entered is positive, so the return is there whenever the P&L is. */
  lemma PnlPctDefinedWithPnl(t: TradeInput)
    requires FormBounds(t)
    ensures ComputeMetrics(t).pnlPct.Some? <==> ComputeMetrics(t).pnl.Some?
  {
  }

  /** Under the form's bounds the realized R:R needs exactly a closed trade and a stop away from the entry. */
  lemma RealizedDefinedness(t: TradeInput)
    requires FormBounds(t)
    ensures ComputeMetrics(t).rrRealized.Some? <==>
              t.entry != 0.0 && t.exitPrice != 0.0 && t.sl != 0.0 && t.sl != t.entry
  {
  }

  /** P&L before fees has the sign of the favourable move: fees are the only way a winning move can show a loss. */
  lemma PnlSignLaw(t: TradeInput)
    requires t.qty >= 1
    requires ComputeMetrics(t).pnl.Some?
    ensures var gross := ComputeMetrics(t).pnl.value + t.fees;
            && (gross > 0.0 <==> Move(t) > 0.0)
            && (gross < 0.0 <==> Move(t) < 0.0)
            && (gross == 0.0 <==> t.exitPrice == t.entry)
  {
    var q := t.qty as real;
    assert q >= 1.0;
    if Move(t) > 0.0 {
      assert Move(t) * q >= Move(t) * 1.0;
    } else if Move(t) < 0.0 {
      assert Move(t) * q <= Move(t) * 1.0;
    }
  }

  /** With no fees, a long trade that exits above its entry makes money, and so does a short trade that exits below it. */
  lemma FeeFreeWinningDirection(t: TradeInput)
    requires t.qty >= 1 && t.fees == 0.0 && t.entry != 0.0 && t.exitPrice != 0.0
    requires (t.side == Long && t.exitPrice > t.entry) || (t.side == Short && t.exitPrice < t.entry)
    ensures ComputeMetrics(t).pnl.Some? && ComputeMetrics(t).pnl.value > 0.0
  {
    PnlSignLaw(t);
  }

  /** Flipping the side negates the favourable move of the same prices. */
  lemma SideFlipMove(t: TradeInput)
    ensures Move(t.(side := Long)) == -Move(t.(side := Short))
  {
    assert Direction(Long) == 1.0 && Direction(Short) == -1.0;
  }

  /** Without fees, flipping the side negates the P&L. */
  lemma SideFlipPnl(t: TradeInput)
    requires t.fees == 0.0
    ensures ComputeMetrics(t.(side := Long)).pnl == Negate(ComputeMetrics(t.(side := Short)).pnl)
  {
    var tl, ts := t.(side := Long), t.(side := Short);
    SideFlipMove(t);
    var q := t.qty as real;
    var long, short := ComputeMetrics(tl).pnl, ComputeMetrics(ts).pnl;
    if long.Some? {
      assert long.value == Move(tl) * q;
      assert short.value == Move(ts) * q;
      NegateFactor(Move(tl), Move(ts), q);
      assert short.Some?;
      assert long.value == -short.value;
      assert Negate(short) == Some(-short.value);
    }
  }

  /** Flipping the side negates the return percentage, fees or not. */
  lemma SideFlipPnlPct(t: TradeInput)
    ensures ComputeMetrics(t.(side := Long)).pnlPct == Negate(ComputeMetrics(t.(side := Short)).pnlPct)
  {
    var tl, ts := t.(side := Long), t.(side := Short);
    SideFlipMove(t);
    var long, short := PnlPct(tl), PnlPct(ts);
    if long.Some? {
      var x, y := long.value, short.value;
      assert x * t.entry == 100.0 * Move(tl);
      assert y * t.entry == 100.0 * Move(ts);
      assert x * t.entry == -(y * t.entry);
      NegateFactor(-y, y, t.entry);
      CancelFactor(x, -y, t.entry);
    }
  }

  /** Without fees, flipping the side negates the realized R:R. */
  lemma SideFlipRealized(t: TradeInput)
    requires t.fees == 0.0
    ensures ComputeMetrics(t.(side := Long)).rrRealized == Negate(ComputeMetrics(t.(side := Short)).rrRealized)
  {
    var tl, ts := t.(side := Long), t.(side := Short);
    SideFlipPnl(t);
    var long, short := ComputeMetrics(tl), ComputeMetrics(ts);
    if long.rrRealized.Some? {
      assert short.rrRealized.Some?;
      var risk := Abs(t.entry - t.sl) * t.qty as real;
      assert long.rrRealized.value * risk == long.pnl.value;
      assert short.rrRealized.value * risk == short.pnl.value;
      assert long.pnl.value == -short.pnl.value;
      assert (-short.rrRealized.value) * risk == -(short.rrRealized.value * risk);
      CancelFactor(long.rrRealized.value, -short.rrRealized.value, risk);
    }
  }

  /**
   * Without fees, flipping the side of the same prices negates P&L, return and
   * realized R:R; the planned R:R does not depend on the side at all.
   */
  lemma SideFlipNegates(t: TradeInput)
    requires t.fees == 0.0
    ensures var long := ComputeMetrics(t.(side := Long));
            var short := ComputeMetrics(t.(side := Short));
            && long.rrPlanned == short.rrPlanned
            && long.pnl == Negate(short.pnl)
            && long.pnlPct == Negate(short.pnlPct)
            && long.rrRealized == Negate(short.rrRealized)
  {
    SideFlipPnl(t);
    SideFlipPnlPct(t);
    SideFlipRealized(t);
  }

  /** The return percentage is per unit of price: neither the position size nor the fees change it. */
  lemma PnlPctIgnoresSizeAndFees(t: TradeInput, qty: int, fees: real)
    ensures ComputeMetrics(t.(qty := qty, fees := fees)).pnlPct == ComputeMetrics(t).pnlPct
  {
    var u := t.(qty := qty, fees := fees);
    var a := ComputeMetrics(u).pnlPct;
    var b := ComputeMetrics(t).pnlPct;
    if a.Some? {
      assert Move(u) == Move(t);
      CancelFactor(a.value, b.value, t.entry);
    }
  }

  /** A fee-free trade that exits exactly at its target, on the winning side, realizes the planned R:R. */
  lemma TargetHitRealizesPlan(t: TradeInput)
    requires t.qty >= 1 && t.fees == 0.0
    requires t.entry != 0.0 && t.sl != 0.0 && t.tp != 0.0 && t.sl != t.entry
    requires t.exitPrice == t.tp && Move(t) >= 0.0
    ensures ComputeMetrics(t).rrRealized == ComputeMetrics(t).rrPlanned
  {
    var m := ComputeMetrics(t);
    var q := t.qty as real;
    var risk := Abs(t.entry - t.sl);
    var planned := m.rrPlanned.value;
    assert m.pnl.value == Abs(t.tp - t.entry) * q;
    assert planned * (risk * q) == (planned * risk) * q;
    assert risk * q > 0.0;
    CancelFactor(m.rrRealized.value, planned, risk * q);
  }

  /** A fee-free trade stopped out on the losing side realizes exactly minus one R. */
  lemma StopHitLosesOneR(t: TradeInput)
    requires t.qty >= 1 && t.fees == 0.0
    requires t.entry != 0.0 && t.sl != 0.0 && t.sl != t.entry
    requires t.exitPrice == t.sl && Move(t) < 0.0
    ensures ComputeMetrics(t).rrRealized == Some(-1.0)
  {
    var m := ComputeMetrics(t);
    var q := t.qty as real;
    var risk := Abs(t.entry - t.sl);
    assert Move(t) == -risk;
    assert m.pnl.value == -risk * q;
    assert risk * q > 0.0;
    CancelFactor(m.rrRealized.value, -1.0, risk * q);
  }

  /** Entry 100, exit 110, long 10 units with 5 in fees: P&L 95 and a 10% return. */
  lemma LongExample()
    ensures var m := ComputeMetrics(TradeInput(Long, 10, 100.0, 110.0, 0.0, 0.0, 5.0));
            m.pnl == Some(95.0) && m.pnlPct == Some(10.0) && m.rrPlanned == None && m.rrRealized == None
  {
  }

  /** Entry 100, stop 90, target 130: a planned R:R of 3. */
  lemma PlannedExample()
    ensures ComputeMetrics(TradeInput(Long, 1, 100.0, 0.0, 90.0, 130.0, 0.0)).rrPlanned == Some(3.0)
  {
  }
}
