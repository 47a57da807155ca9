// What trading, corporate actions and financing do to the value of the simulated book.
module SimulatedValue {
  import opened Decimals
  import opened Sums
  import opened Simulation
  import opened ExecutionBounds

  // The value of a book with every priced holding marked at the prices traded at.
  ghost function ValueAt(p: Portfolio, prices: Prices): real {
    TotalValue(MarkToMarket(p, prices))
  }

  // What a fill costs against the mid price: the half-spread paid and the commission.
  function Friction(f: Fill, mid: real): real {
    f.qty * (f.price - mid) + f.commission
  }

  ghost function Frictions(fills: seq<Fill>, prices: Prices): real {
    if fills == [] then 0.0
    else
      var f := fills[|fills| - 1];
      Frictions(fills[..|fills| - 1], prices) + Friction(f, MidOf(prices, f.ticker))
  }

  // A position left under the dust threshold is written off.
  ghost function DustBound(fills: seq<Fill>, prices: Prices): real {
    if fills == [] then 0.0
    else DustBound(fills[..|fills| - 1], prices) + Times(DUST, MidOf(prices, fills[|fills| - 1].ticker))
  }

  lemma MarkedValues(p: Portfolio, prices: Prices, t: Ticker, h: Holding)
    ensures Values(MarkToMarket(p.(holdings := p.holdings[t := h]), prices).holdings)
            == Values(MarkToMarket(p, prices).holdings)[t := MarketValue(Marked(t, h, prices))]
  {
    hide MarketValue, Marked;
    var p' := p.(holdings := p.holdings[t := h]);
    var m, n := MarkToMarket(p', prices).holdings, MarkToMarket(p, prices).holdings;
    assert m == n[t := Marked(t, h, prices)];
    assert Values(m).Keys == Values(n)[t := MarketValue(Marked(t, h, prices))].Keys;
  }

  // Replacing one holding moves the value by the change of that holding and of cash.
  lemma ReplacedHolding(p: Portfolio, q: Portfolio, prices: Prices, t: Ticker, h: Holding)
    requires q.holdings == p.holdings[t := h]
    ensures ValueAt(q, prices) - ValueAt(p, prices)
            == q.cash - p.cash + MarketValue(Marked(t, h, prices))
               - (if t in p.holdings then MarketValue(Marked(t, p.holdings[t], prices)) else 0.0)
  {
    hide MarketValue, Marked;
    var values := Values(MarkToMarket(p, prices).holdings);
    MarkedValues(p, prices, t, h);
    TotalPut(values, t, MarketValue(Marked(t, h, prices)));
    assert MarkToMarket(q, prices).holdings == MarkToMarket(p.(holdings := p.holdings[t := h]), prices).holdings;
  }

  lemma FilledQty(h: Holding, delta: real, price: real, mid: real)
    ensures var g := Filled(h, delta, price, mid);
            g.mark == mid && Abs(g.qty - (h.qty + delta)) <= DUST
  {}

  lemma SmallTimes(x: real, mid: real)
    requires mid > 0.0 && Abs(x) <= DUST
    ensures Abs(Times(x, mid)) <= Times(DUST, mid)
  {
    hide Times;
    TimesGrows(mid, x, DUST);
    TimesGrows(mid, -DUST, x);
    TimesTurns(mid, x);
    TimesTurns(mid, DUST);
  }

  lemma FillProducts(q: real, delta: real, after: real, price: real, mid: real, commission: real)
    ensures -(delta * price) - commission + after * mid - q * mid
            == Times(after - (q + delta), mid) - (delta * (price - mid) + commission)
  {}

  // One fill at a positive mid costs its friction, but for dust.
  lemma FillConservesValue(p: Portfolio, t: Ticker, delta: real, prices: Prices, c: Costs)
    requires t in prices && prices[t] > 0.0
    ensures var f := FillOf(t, delta, prices[t], c);
            Abs(ValueAt(ApplyFill(p, t, delta, prices[t], c), prices) - (ValueAt(p, prices) - Friction(f, prices[t])))
            <= Times(DUST, prices[t])
  {
    hide Filled, ExecPrice, ValueAt, Times, Friction;
    var mid, h, f := prices[t], HoldingOf(p, t), FillOf(t, delta, prices[t], c);
    var g := Filled(h, delta, f.price, mid);
    FilledQty(h, delta, f.price, mid);
    ReplacedHolding(p, ApplyFill(p, t, delta, mid, c), prices, t, g);
    FillProducts(h.qty, delta, g.qty, f.price, mid, f.commission);
    FrictionOf(f, mid);
    SmallTimes(g.qty - (h.qty + delta), mid);
  }

  lemma FrictionOf(f: Fill, mid: real)
    ensures Friction(f, mid) == f.qty * (f.price - mid) + f.commission
  {}

  lemma FrictionsGrow(fills: seq<Fill>, f: Fill, prices: Prices)
    ensures Frictions(fills + [f], prices) == Frictions(fills, prices) + Friction(f, MidOf(prices, f.ticker))
    ensures DustBound(fills + [f], prices) == DustBound(fills, prices) + Times(DUST, MidOf(prices, f.ticker))
  {
    assert (fills + [f])[..|fills|] == fills;
  }

  // The value of a book together with what its fills have cost so far.
  ghost predicate Conserved(start: real, p: Portfolio, prices: Prices) {
    Abs(ValueAt(p, prices) - (start - Frictions(p.fills, prices))) <= DustBound(p.fills, prices)
  }

  lemma TradeConserves(start: real, p: Portfolio, x: Target, prices: Prices, floor: real, c: Costs)
    requires Conserved(start, p, prices) && x.ticker in prices && prices[x.ticker] > 0.0
    ensures Conserved(start, Trade(p, x, prices, floor, c), prices)
  {
    hide TradedQty, ValueAt, Filled, Friction, Times, Frictions, DustBound, ExecPrice;
    var delta := TradedQty(p, x, prices[x.ticker], floor);
    if delta != 0.0 {
      FillConservesValue(p, x.ticker, delta, prices, c);
      FrictionsGrow(p.fills, FillOf(x.ticker, delta, prices[x.ticker], c), prices);
    }
  }

  lemma {:induction false} TradesConserve(
      start: real, p: Portfolio, xs: seq<Target>, prices: Prices, floor: real, c: Costs)
    requires Conserved(start, p, prices) && Priced(xs, prices)
    ensures Conserved(start, Trades(p, xs, prices, floor, c), prices)
  {
    hide Conserved, Trade;
    if xs != [] {
      TradesConserve(start, p, xs[..|xs| - 1], prices, floor, c);
      TradeConserves(start, Trades(p, xs[..|xs| - 1], prices, floor, c), xs[|xs| - 1], prices, floor, c);
    }
  }

  lemma NothingTraded(p: Portfolio, prices: Prices)
    ensures Conserved(ValueAt(p, prices), p.(fills := []), prices)
  {
    assert MarkToMarket(p.(fills := []), prices).holdings == MarkToMarket(p, prices).holdings;
  }

  // A call of `execute` neither creates nor destroys value: at the prices it trades at, the book is worth what
  // it was, less the spread and commission of the fills it made, up to the dust of closed positions.
  lemma ExecuteConservesValue(
      p: Portfolio, ds: seq<Decision>, prices: Prices, holdKeeps: bool, maxGross: real, c: Costs)
    ensures Conserved(ValueAt(p, prices), Execute(p, ds, prices, holdKeeps, maxGross, c), prices)
  {
    hide Conserved, Plan, Trades, CashFloor, TotalValue;
    NothingTraded(p, prices);
    TradesConserve(ValueAt(p, prices), p.(fills := []), Plan(p, ds, prices, holdKeeps, maxGross), prices,
                   CashFloor(TotalValue(p), maxGross), c);
  }

  // The friction of a fill at plausible costs is never a gain.
  lemma FrictionIsACost(t: Ticker, delta: real, mid: real, c: Costs)
    requires Plausible(c) && mid > 0.0
    ensures Friction(FillOf(t, delta, mid, c), mid) >= 0.0
  {
    hide ExecPrice, Abs;
    SpreadCost(delta, mid, c);
    var f := FillOf(t, delta, mid, c);
    AbsIsNonNegative(f.notional);
    ProductNotNegative(Abs(f.notional), c.commissionBps / 10000.0);
  }

  lemma AbsIsNonNegative(x: real)
    ensures Abs(x) >= 0.0
  {}

  lemma SpreadGap(delta: real, mid: real, c: Costs)
    ensures ExecPrice(delta, mid, c) - mid
            == if delta > 0.0 then Times(mid, c.spreadBps / 20000.0) else -Times(mid, c.spreadBps / 20000.0)
  {
    var h := c.spreadBps / 20000.0;
    assert c.spreadBps / 2.0 / 10000.0 == h;
    assert mid * (1.0 + h) == mid + mid * h && mid * (1.0 - h) == mid - mid * h;
  }

  lemma SpreadCost(delta: real, mid: real, c: Costs)
    requires Plausible(c) && mid > 0.0
    ensures delta * (ExecPrice(delta, mid, c) - mid) >= 0.0
  {
    hide ExecPrice, Times;
    var h := Times(mid, c.spreadBps / 20000.0);
    SpreadGap(delta, mid, c);
    TimesGrows(mid, 0.0, c.spreadBps / 20000.0);
    TimesNothing(mid);
    if delta > 0.0 {
      ProductNotNegative(delta, h);
    } else {
      ProductNotNegative(-delta, h);
      assert delta * -h == -delta * h;
    }
  }

  // --- cost basis ----------------------------------------------------------------------------

  // The shares a fill closes, signed like the position it closes.
  function Closed(h: Holding, delta: real): real {
    if h.qty > 0.0 && delta < 0.0 then Min(h.qty, -delta)
    else if h.qty < 0.0 && delta > 0.0 then -Min(-h.qty, delta)
    else 0.0
  }

  // The basis after a fill is the basis before, plus the money paid, plus the gain on the shares closed.
  lemma FilledBasis(h: Holding, delta: real, price: real, mid: real)
    requires delta != 0.0 && (h.qty + delta == 0.0 || Abs(h.qty + delta) >= DUST)
    ensures var g := Filled(h, delta, price, mid);
            g.qty * g.avgCost == h.qty * h.avgCost + delta * price + (price - h.avgCost) * Closed(h, delta)
  {
    var q, a, n := h.qty, h.avgCost, h.qty + delta;
    if (q >= 0.0 && delta > 0.0) || (q <= 0.0 && delta < 0.0) {
      assert n * ((a * q + price * delta) / n) == a * q + price * delta;
    } else if Abs(delta) >= Abs(q) {
      assert Closed(h, delta) == q;
      assert n * price == q * price + delta * price;
      assert (price - a) * q == price * q - a * q;
    } else {
      assert Closed(h, delta) == -delta;
      assert n * a == q * a + delta * a;
      assert (price - a) * -delta == a * delta - price * delta;
    }
  }

  // --- corporate actions and financing -------------------------------------------------------

  lemma SplitKeepsHolding(h: Holding, r: NonZero)
    ensures MarketValue(SplitHolding(h, r)) == MarketValue(h)
    ensures SplitHolding(h, r).qty * SplitHolding(h, r).avgCost == h.qty * h.avgCost
  {
    assert h.qty * r * (h.avgCost / r) == h.qty * h.avgCost by {
      assert r * (h.avgCost / r) == h.avgCost;
    }
    if h.mark != 0.0 {
      assert r * (h.mark / r) == h.mark;
      assert h.qty * r * (h.mark / r) == h.qty * h.mark;
    }
  }

  lemma TotalReplaced(p: Portfolio, q: Portfolio, t: Ticker, h: Holding)
    requires t in p.holdings && q.holdings == p.holdings[t := h]
    ensures TotalValue(q) - TotalValue(p) == q.cash - p.cash + MarketValue(h) - MarketValue(p.holdings[t])
  {
    hide MarketValue;
    TotalPut(Values(p.holdings), t, MarketValue(h));
    assert Values(q.holdings) == Values(p.holdings)[t := MarketValue(h)];
  }

  // What an action is worth to a holding: nothing for a split, the payment for a dividend (a cost to a short),
  // the cash instead of the position for a merger.
  function Gain(h: Holding, a: CorporateAction): real {
    match a
    case Split(_) => 0.0
    case Dividend(d) => Times(h.qty, d)
    case MergerCash(m) => Times(h.qty, m) - MarketValue(h)
  }

  // An action moves the value of the book by what it is worth to the holding, and by nothing else.
  lemma ActionMovesValue(p: Portfolio, t: Ticker, a: CorporateAction)
    ensures TotalValue(ApplyAction(p, t, a)) == TotalValue(p) + Gain(HoldingOf(p, t), a)
  {
    hide TotalValue, SplitHolding, MarketValue, Times;
    if t in p.holdings && p.holdings[t].qty != 0.0 {
      HeldAction(p, t, a);
    } else {
      NoGain(HoldingOf(p, t), a);
    }
  }

  lemma HeldAction(p: Portfolio, t: Ticker, a: CorporateAction)
    requires t in p.holdings && p.holdings[t].qty != 0.0
    ensures TotalValue(ApplyAction(p, t, a)) == TotalValue(p) + Gain(p.holdings[t], a)
  {
    hide SplitHolding, TotalValue, MarketValue;
    var h, q := p.holdings[t], ApplyAction(p, t, a);
    match a {
      case Split(r) =>
        SplitKeepsHolding(h, r);
        TotalReplaced(p, q, t, SplitHolding(h, r));
      case Dividend(d) =>
        CashOnly(p, q);
      case MergerCash(m) =>
        TotalReplaced(p, q, t, Holding(0.0, 0.0, h.mark));
        NoGain(Holding(0.0, 0.0, h.mark), a);
    }
  }

  lemma NoGain(h: Holding, a: CorporateAction)
    requires h.qty == 0.0
    ensures Gain(h, a) == 0.0 && MarketValue(h) == 0.0
  {}

  lemma CashOnly(p: Portfolio, q: Portfolio)
    requires q.holdings == p.holdings
    ensures TotalValue(q) - TotalValue(p) == q.cash - p.cash
  {}

  // Financing only ever takes value.
  lemma FinancingIsACost(p: Portfolio, c: Costs)
    ensures TotalValue(AccrueFinancing(p, c)) == TotalValue(p) - Financing(p, c)
    ensures Financing(p, c) >= 0.0
  {
    hide Financing;
    CashOnly(p, AccrueFinancing(p, c));
    ChargeIsNonNegative(p, c);
  }

  lemma ChargeIsNonNegative(p: Portfolio, c: Costs)
    ensures Financing(p, c) >= 0.0
  {}

  // --- what the daily charge is --------------------------------------------------------------

  function Size(h: Holding): real {
    Abs(h.qty * h.mark)
  }

  // The size of every short holding at its mark.
  ghost function ShortSizes(p: Portfolio): map<Ticker, real> {
    map t | t in p.holdings && p.holdings[t].qty < 0.0 :: Size(p.holdings[t])
  }

  ghost predicate PositiveMarks(p: Portfolio) {
    forall t :: t in p.holdings ==> p.holdings[t].mark >= 0.0
  }

  lemma ShortSize(h: Holding)
    requires h.qty < 0.0 && h.mark >= 0.0
    ensures -MarketValue(h) == Size(h) >= 0.0
    ensures Size(h) == 0.0 <==> h.mark == 0.0
  {
    ProductNotNegative(-h.qty, h.mark);
    assert -h.qty * h.mark == -(h.qty * h.mark);
    if h.mark > 0.0 {
      ProductPositive(-h.qty, h.mark);
    }
  }

  lemma ShortEntry(p: Portfolio, t: Ticker)
    requires PositiveMarks(p) && t in p.holdings
    ensures t in ShortSizes(p) <==> p.holdings[t].qty < 0.0
    ensures ShortValues(p.holdings)[t] == if t in ShortSizes(p) then ShortSizes(p)[t] else 0.0
    ensures t in ShortSizes(p) ==> ShortSizes(p)[t] >= 0.0
    ensures t in ShortSizes(p) ==> (ShortSizes(p)[t] == 0.0 <==> p.holdings[t].mark == 0.0)
  {
    hide Size, MarketValue;
    if p.holdings[t].qty < 0.0 {
      ShortSize(p.holdings[t]);
    }
  }

  lemma ShortsAreSized(p: Portfolio)
    requires PositiveMarks(p)
    ensures Total(ShortValues(p.holdings)) == Total(ShortSizes(p)) && Total(ShortSizes(p)) >= 0.0
    ensures Total(ShortSizes(p)) == 0.0
            <==> forall t :: t in p.holdings && p.holdings[t].qty < 0.0 ==> p.holdings[t].mark == 0.0
  {
    var m, n := ShortValues(p.holdings), ShortSizes(p);
    assert m.Keys == p.holdings.Keys && n.Keys <= p.holdings.Keys;
    hide ShortValues, ShortSizes, PositiveMarks;
    forall t | t in p.holdings
      ensures t in n <==> p.holdings[t].qty < 0.0
      ensures m[t] == if t in n then n[t] else 0.0
      ensures t in n ==> n[t] >= 0.0 && (n[t] == 0.0 <==> p.holdings[t].mark == 0.0)
    {
      ShortEntry(p, t);
    }
    TotalSkipsZeros(m, n);
    TotalOfGains(n);
  }

  // Per trading day: the financing rate on the cash debit, and financing plus borrow on the short side.
  lemma DailyCharge(p: Portfolio, c: Costs)
    requires c.financingBps > 0.0 && c.borrowBps >= 0.0 && PositiveMarks(p)
    ensures 2520000.0 * (p.cash - AccrueFinancing(p, c).cash)
            == Times(Max(0.0, -p.cash), c.financingBps)
               + Times(Total(ShortSizes(p)), c.financingBps + c.borrowBps)
  {
    hide ShortValues, ShortSizes, Total, PositiveMarks, Times;
    ShortsAreSized(p);
    ChargeOf(Max(0.0, -p.cash), Total(ShortSizes(p)), c.financingBps, c.financingBps + c.borrowBps);
  }

  lemma ChargeOf(debit: real, shorts: real, carry: real, borrow: real)
    requires debit >= 0.0 && shorts >= 0.0 && carry >= 0.0 && borrow >= 0.0
    ensures var charge := Times(debit, carry / 10000.0 / 252.0) + Times(shorts, borrow / 10000.0 / 252.0);
            && charge >= 0.0
            && 2520000.0 * charge == Times(debit, carry) + Times(shorts, borrow)
  {
    hide Times;
    PerDay(debit, carry);
    PerDay(shorts, borrow);
  }

  lemma PerDay(x: real, rate: real)
    requires x >= 0.0 && rate >= 0.0
    ensures Times(x, rate / 10000.0 / 252.0) >= 0.0
    ensures 2520000.0 * Times(x, rate / 10000.0 / 252.0) == Times(x, rate)
  {
    var daily := rate / 10000.0 / 252.0;
    assert 2520000.0 * daily == rate;
    ProductNotNegative(x, daily);
    assert 2520000.0 * (x * daily) == x * (2520000.0 * daily);
  }

  // Nothing is charged exactly when financing is off, or there is no debit and no short of any value.
  lemma ChargesNothingExactly(p: Portfolio, c: Costs)
    requires c.borrowBps >= 0.0 && PositiveMarks(p)
    ensures AccrueFinancing(p, c) == p
            <==> c.financingBps <= 0.0
                 || (p.cash >= 0.0
                     && forall t :: t in p.holdings && p.holdings[t].qty < 0.0 ==> p.holdings[t].mark == 0.0)
  {
    if c.financingBps > 0.0 {
      DailyCharge(p, c);
      ShortsAreSized(p);
      hide Financing, ShortSizes, ShortValues, Total, Times, PositiveMarks;
      TimesSign(Max(0.0, -p.cash), c.financingBps);
      TimesSign(Total(ShortSizes(p)), c.financingBps + c.borrowBps);
    }
  }

  // --- marks, splits and mergers, field by field ---------------------------------------------

  lemma MarkingSetsMarks(p: Portfolio, prices: Prices, t: Ticker)
    requires t in p.holdings
    ensures var q := MarkToMarket(p, prices);
            && q.cash == p.cash && q.holdings.Keys == p.holdings.Keys
            && q.holdings[t].qty == p.holdings[t].qty && q.holdings[t].avgCost == p.holdings[t].avgCost
            && q.holdings[t].mark == if t in prices && prices[t] > 0.0 then prices[t] else p.holdings[t].mark
  {}

  // A split multiplies the shares, a cash merger ends the position, a dividend changes no holding.
  lemma ActionSetsHolding(p: Portfolio, t: Ticker, a: CorporateAction)
    requires t in p.holdings && p.holdings[t].qty != 0.0
    ensures var h, q := p.holdings[t], ApplyAction(p, t, a);
            && t in q.holdings && (forall u :: u != t ==> HoldingOf(q, u) == HoldingOf(p, u))
            && match a
               case Split(r) => q.cash == p.cash && q.holdings[t].qty == h.qty * r
               case Dividend(_) => q.holdings == p.holdings
               case MergerCash(_) => q.holdings[t].qty == 0.0 && q.holdings[t].avgCost == 0.0
  {}

  // --- turnover ------------------------------------------------------------------------------

  ghost function FilledNotional(fills: seq<Fill>): real {
    if fills == [] then 0.0 else FilledNotional(fills[..|fills| - 1]) + Abs(fills[|fills| - 1].notional)
  }

  lemma {:induction false} TradesTurnOver(p: Portfolio, xs: seq<Target>, prices: Prices, floor: real, c: Costs)
    requires Priced(xs, prices)
    ensures var q := Trades(p, xs, prices, floor, c);
            q.turnover - FilledNotional(q.fills) == p.turnover - FilledNotional(p.fills)
  {
    hide TradedQty, Filled, ExecPrice, Abs;
    if xs != [] {
      var q := Trades(p, xs[..|xs| - 1], prices, floor, c);
      TradesTurnOver(p, xs[..|xs| - 1], prices, floor, c);
      var x := xs[|xs| - 1];
      var f := FillOf(x.ticker, TradedQty(q, x, prices[x.ticker], floor), prices[x.ticker], c);
      assert (q.fills + [f])[..|q.fills|] == q.fills;
    }
  }

  // Turnover grows by the notional of the day's fills, buys and sells alike.
  lemma ExecuteTurnsOver(p: Portfolio, ds: seq<Decision>, prices: Prices, holdKeeps: bool, maxGross: real, c: Costs)
    ensures var q := Execute(p, ds, prices, holdKeeps, maxGross, c);
            q.turnover == p.turnover + FilledNotional(q.fills)
  {
    hide Plan, Trades, CashFloor, TotalValue;
    TradesTurnOver(p.(fills := []), Plan(p, ds, prices, holdKeeps, maxGross), prices,
                   CashFloor(TotalValue(p), maxGross), c);
  }
}
