// The simulated book of a backtest: marks, financing, corporate actions and the execution of target weights.
module Simulation {
  import opened Decimals
  import opened Sums
  import opened Sorting

  type Ticker = string
  type Prices = map<Ticker, real>
  type NonZero = r: real | r != 0.0 witness 1.0

  datatype Costs = Costs(commissionBps: real, spreadBps: real, financingBps: real, borrowBps: real)

  datatype Holding = Holding(qty: real, avgCost: real, mark: real)

  datatype Fill = Fill(ticker: Ticker, qty: real, price: real, commission: real, notional: real, cashDelta: real)

  datatype Portfolio = Portfolio(cash: real, holdings: map<Ticker, Holding>, fills: seq<Fill>, turnover: real)

  function MarketValue(h: Holding): real {
    h.qty * h.mark
  }

  ghost function Values(holdings: map<Ticker, Holding>): map<Ticker, real> {
    map t | t in holdings :: MarketValue(holdings[t])
  }

  ghost function TotalValue(p: Portfolio): real {
    p.cash + Total(Values(p.holdings))
  }

  // --- marks and financing -------------------------------------------------------------------

  function Marked(t: Ticker, h: Holding, prices: Prices): Holding {
    if t in prices && prices[t] > 0.0 then h.(mark := prices[t]) else h
  }

  function MarkToMarket(p: Portfolio, prices: Prices): Portfolio {
    p.(holdings := map t | t in p.holdings :: Marked(t, p.holdings[t], prices))
  }

  ghost function ShortValues(holdings: map<Ticker, Holding>): map<Ticker, real> {
    map t | t in holdings :: if holdings[t].qty < 0.0 then -MarketValue(holdings[t]) else 0.0
  }

  // One day of carry on the cash debit, and of carry plus borrow on the short side.
  ghost function Financing(p: Portfolio, c: Costs): real {
    if c.financingBps <= 0.0 then 0.0
    else
      Max(0.0, Times(Max(0.0, -p.cash), c.financingBps / 10000.0 / 252.0)
               + Times(Max(0.0, Total(ShortValues(p.holdings))), (c.financingBps + c.borrowBps) / 10000.0 / 252.0))
  }

  ghost function AccrueFinancing(p: Portfolio, c: Costs): Portfolio {
    p.(cash := p.cash - Financing(p, c))
  }

  // --- corporate actions ---------------------------------------------------------------------

  datatype CorporateAction =
    | Split(ratio: NonZero)
    | Dividend(perShare: real)
    | MergerCash(perShare: real)

  function SplitHolding(h: Holding, r: NonZero): Holding {
    Holding(h.qty * r, h.avgCost / r, if h.mark != 0.0 then h.mark / r else h.mark)
  }

  function ApplyAction(p: Portfolio, t: Ticker, a: CorporateAction): Portfolio {
    if t !in p.holdings || p.holdings[t].qty == 0.0 then p
    else
      var h := p.holdings[t];
      match a
      case Split(r) =>
        p.(holdings := p.holdings[t := SplitHolding(h, r)])
      case Dividend(d) => p.(cash := p.cash + h.qty * d)
      case MergerCash(c) =>
        p.(cash := p.cash + h.qty * c, holdings := p.holdings[t := Holding(0.0, 0.0, h.mark)])
  }

  function ApplyActions(p: Portfolio, t: Ticker, actions: seq<CorporateAction>): Portfolio {
    if actions == [] then p
    else ApplyAction(ApplyActions(p, t, actions[..|actions| - 1]), t, actions[|actions| - 1])
  }

  // --- one fill ------------------------------------------------------------------------------

  function HoldingOf(p: Portfolio, t: Ticker): Holding {
    if t in p.holdings then p.holdings[t] else Holding(0.0, 0.0, 0.0)
  }

  function QtyOf(p: Portfolio, t: Ticker): real {
    HoldingOf(p, t).qty
  }

  function ExecPrice(delta: real, mid: real, c: Costs): real {
    mid * (1.0 + (if delta > 0.0 then 1.0 else -1.0) * c.spreadBps / 2.0 / 10000.0)
  }

  function FillOf(t: Ticker, delta: real, mid: real, c: Costs): Fill {
    var price := ExecPrice(delta, mid, c);
    var notional := delta * price;
    var commission := Abs(notional) * (c.commissionBps / 10000.0);
    Fill(t, delta, price, commission, notional, -notional - commission)
  }

  const DUST := 0.000000001

  function Filled(h: Holding, delta: real, price: real, mid: real): Holding {
    var qty := h.qty + delta;
    var cost :=
      if (h.qty >= 0.0 && delta > 0.0) || (h.qty <= 0.0 && delta < 0.0) then
        if qty != 0.0 then (h.avgCost * h.qty + price * delta) / qty else h.avgCost
      else if Abs(delta) >= Abs(h.qty) then
        if qty != 0.0 then price else 0.0
      else h.avgCost;
    if Abs(qty) < DUST then Holding(0.0, 0.0, mid) else Holding(qty, cost, mid)
  }

  function ApplyFill(p: Portfolio, t: Ticker, delta: real, mid: real, c: Costs): Portfolio {
    var f := FillOf(t, delta, mid, c);
    Portfolio(
      p.cash + f.cashDelta,
      p.holdings[t := Filled(HoldingOf(p, t), delta, f.price, mid)],
      p.fills + [f],
      p.turnover + Abs(f.notional))
  }

  // --- targets -------------------------------------------------------------------------------

  datatype Verb = Buy | Sell | Hold | OpenShort

  datatype Decision = Decision(ticker: Ticker, verb: Verb, weightPct: real)

  datatype Target = Target(ticker: Ticker, qty: real)

  // A dictionary write: a symbol decided twice keeps its first place and takes the last quantity.
  function PutTarget(targets: seq<Target>, x: Target): (r: seq<Target>)
    ensures forall i :: 0 <= i < |r| ==> r[i] == x || r[i] in targets
  {
    if targets == [] then [x]
    else if targets[0].ticker == x.ticker then [x] + targets[1..]
    else [targets[0]] + PutTarget(targets[1..], x)
  }

  predicate Skipped(d: Decision, prices: Prices, holdKeeps: bool) {
    d.ticker !in prices || prices[d.ticker] <= 0.0 || (d.verb == Hold && holdKeeps)
  }

  function TargetOf(d: Decision, prices: Prices, equity: real): Target
    requires d.ticker in prices && prices[d.ticker] > 0.0
  {
    Target(d.ticker,
           if d.verb == Sell || d.verb == Hold then 0.0
           else (equity * (d.weightPct / 100.0)) / prices[d.ticker])
  }

  function Resolve(ds: seq<Decision>, prices: Prices, equity: real, holdKeeps: bool): seq<Target> {
    if ds == [] then []
    else
      var done := Resolve(ds[..|ds| - 1], prices, equity, holdKeeps);
      var d := ds[|ds| - 1];
      if Skipped(d, prices, holdKeeps) then done else PutTarget(done, TargetOf(d, prices, equity))
  }

  function Tickers(targets: seq<Target>): set<Ticker> {
    set x | x in targets :: x.ticker
  }

  predicate Priced(targets: seq<Target>, prices: Prices) {
    forall i :: 0 <= i < |targets| ==> targets[i].ticker in prices && prices[targets[i].ticker] > 0.0
  }

  predicate Distinct(targets: seq<Target>) {
    forall i, j :: 0 <= i < j < |targets| ==> targets[i].ticker != targets[j].ticker
  }

  // A missing or zero fill price falls back to the mark.
  function PriceOr(prices: Prices, t: Ticker, mark: real): real {
    if t in prices && prices[t] != 0.0 then prices[t] else mark
  }

  function Exposure(qty: real, price: real): real {
    Abs(qty * price)
  }

  ghost function Exposures(p: Portfolio, prices: Prices): map<Ticker, real> {
    map t | t in p.holdings :: Exposure(p.holdings[t].qty, PriceOr(prices, t, p.holdings[t].mark))
  }

  ghost function HeldGross(p: Portfolio, prices: Prices, targets: seq<Target>): real {
    Total(Exposures(p, prices) - Tickers(targets))
  }

  function TargetGross(targets: seq<Target>, prices: Prices): real
    requires Priced(targets, prices)
  {
    if targets == [] then 0.0
    else
      var x := targets[|targets| - 1];
      TargetGross(targets[..|targets| - 1], prices) + Exposure(x.qty, prices[x.ticker])
  }

  lemma {:induction false} TargetGrossNonNegative(xs: seq<Target>, prices: Prices)
    requires Priced(xs, prices)
    ensures TargetGross(xs, prices) >= 0.0
  {
    if xs != [] {
      TargetGrossNonNegative(xs[..|xs| - 1], prices);
    }
  }

  function Scaled(targets: seq<Target>, scale: real): (r: seq<Target>)
    ensures |r| == |targets|
    ensures forall i :: 0 <= i < |r| ==> r[i] == Target(targets[i].ticker, Times(targets[i].qty, scale))
  {
    seq(|targets|, i requires 0 <= i < |targets| => Target(targets[i].ticker, Times(targets[i].qty, scale)))
  }

  function Budget(maxGross: real, equity: real, held: real): real {
    maxGross * equity - held
  }

  function ScaleInto(budget: real, gross: real): real
    requires gross > 0.0
  {
    Max(0.0, budget) / gross
  }

  // Pro-rata scaling of the targeted names into the gross budget left by the others.
  ghost function Capped(p: Portfolio, prices: Prices, targets: seq<Target>, maxGross: real): (r: seq<Target>)
    requires Priced(targets, prices)
    ensures Priced(r, prices)
  {
    var equity, gross := TotalValue(p), TargetGross(targets, prices);
    var budget := Budget(maxGross, equity, HeldGross(p, prices, targets));
    if maxGross > 0.0 && equity > 0.0 && gross > budget && gross > 0.0 then
      Scaled(targets, ScaleInto(budget, gross))
    else targets
  }

  // --- trading -------------------------------------------------------------------------------

  function MidOf(prices: Prices, t: Ticker): real {
    if t in prices then prices[t] else 0.0
  }

  function TradeNotional(p: Portfolio, x: Target, prices: Prices): real {
    Times(x.qty - QtyOf(p, x.ticker), MidOf(prices, x.ticker))
  }

  // Ascending by notional: reductions come first.
  function ByNotional(p: Portfolio, prices: Prices): Ordering<Target> {
    (x: Target, y: Target) => TradeNotional(p, x, prices) <= TradeNotional(p, y, prices)
  }

  lemma SortedPriced(xs: seq<Target>, p: Portfolio, prices: Prices)
    requires Priced(xs, prices)
    ensures Priced(Sort(xs, ByNotional(p, prices)), prices)
  {
    var ys := Sort(xs, ByNotional(p, prices));
    SameElements(xs, ys);
    forall i | 0 <= i < |ys|
      ensures ys[i].ticker in prices && prices[ys[i].ticker] > 0.0
    {
      assert ys[i] in xs;
    }
  }

  // The signed quantity actually traded: a buy that would breach the cash floor is cut to what is left above
  // it, and anything under a dollar is not traded.
  function TradedQty(p: Portfolio, x: Target, price: real, floor: real): real
    requires price > 0.0
  {
    var delta := x.qty - QtyOf(p, x.ticker);
    var notional := Times(delta, price);
    var clipped := if notional > 0.0 && p.cash - notional < floor then Max(0.0, p.cash - floor) / price else delta;
    if Abs(Times(clipped, price)) < 1.0 then 0.0 else clipped
  }

  function Trade(p: Portfolio, x: Target, prices: Prices, floor: real, c: Costs): Portfolio
    requires x.ticker in prices && prices[x.ticker] > 0.0
  {
    var delta := TradedQty(p, x, prices[x.ticker], floor);
    if delta == 0.0 then p else ApplyFill(p, x.ticker, delta, prices[x.ticker], c)
  }

  function Trades(p: Portfolio, xs: seq<Target>, prices: Prices, floor: real, c: Costs): Portfolio
    requires Priced(xs, prices)
  {
    if xs == [] then p
    else Trade(Trades(p, xs[..|xs| - 1], prices, floor, c), xs[|xs| - 1], prices, floor, c)
  }

  function CashFloor(equity: real, maxGross: real): real {
    -Max(0.0, maxGross - 1.0) * equity
  }

  lemma {:induction false} ResolvedPriced(ds: seq<Decision>, prices: Prices, equity: real, holdKeeps: bool)
    ensures Priced(Resolve(ds, prices, equity, holdKeeps), prices)
    ensures Distinct(Resolve(ds, prices, equity, holdKeeps))
  {
    if ds != [] {
      ResolvedPriced(ds[..|ds| - 1], prices, equity, holdKeeps);
      var d := ds[|ds| - 1];
      if !Skipped(d, prices, holdKeeps) {
        PutKeepsDistinct(Resolve(ds[..|ds| - 1], prices, equity, holdKeeps), TargetOf(d, prices, equity));
      }
    }
  }

  lemma {:induction false} PutKeepsDistinct(targets: seq<Target>, x: Target)
    requires Distinct(targets)
    ensures Distinct(PutTarget(targets, x))
  {
    if targets != [] && targets[0].ticker != x.ticker {
      var rest := PutTarget(targets[1..], x);
      PutKeepsDistinct(targets[1..], x);
      forall i | 0 <= i < |rest|
        ensures rest[i].ticker != targets[0].ticker
      {
        if rest[i] in targets[1..] {
          var k :| 0 <= k < |targets[1..]| && targets[1..][k] == rest[i];
          assert targets[k + 1] == rest[i];
        }
      }
    }
  }

  // Everything `execute` decides before it trades.
  ghost function Plan(
      p: Portfolio, ds: seq<Decision>, prices: Prices, holdKeeps: bool, maxGross: real): (r: seq<Target>)
    ensures Priced(r, prices)
  {
    var equity := TotalValue(p);
    ResolvedPriced(ds, prices, equity, holdKeeps);
    var capped := Capped(p, prices, Resolve(ds, prices, equity, holdKeeps), maxGross);
    SortedPriced(capped, p, prices);
    Sort(capped, ByNotional(p, prices))
  }

  ghost function Execute(
      p: Portfolio, ds: seq<Decision>, prices: Prices, holdKeeps: bool, maxGross: real, c: Costs): Portfolio
  {
    Trades(p.(fills := []), Plan(p, ds, prices, holdKeeps, maxGross), prices,
           CashFloor(TotalValue(p), maxGross), c)
  }
}
