// The mutable simulated portfolio, step by step as the code updates it, against its specification.
module SimulatedBook {
  import opened Decimals
  import opened Sums
  import opened Sorting
  import opened Simulation

  class SimulatedPortfolio {
    const costs: Costs
    var cash: real
    var positions: map<Ticker, Holding>
    var fillsToday: seq<Fill>
    var turnover: real

    function State(): Portfolio
      reads this
    {
      Portfolio(cash, positions, fillsToday, turnover)
    }

    constructor (startingCash: real, costs: Costs)
      ensures this.costs == costs && State() == Portfolio(startingCash, map[], [], 0.0)
    {
      this.costs := costs;
      cash, positions, fillsToday, turnover := startingCash, map[], [], 0.0;
    }

    method Value() returns (v: real)
      ensures v == Simulation.TotalValue(State())
    {
      var held := Sum(map t | t in positions :: MarketValue(positions[t]));
      assert Values(positions) == map t | t in positions :: MarketValue(positions[t]);
      v := cash + held;
    }

    method MarkToMarket(prices: Prices)
      modifies this`positions
      ensures State() == Simulation.MarkToMarket(old(State()), prices)
    {
      hide Marked, MarkedBut;
      var todo := positions.Keys;
      ghost var was := positions;
      NothingMarked(was, prices);
      while todo != {}
        invariant todo <= was.Keys && MarkedBut(positions, was, todo, prices)
        decreases |todo|
      {
        var t :| t in todo;
        OneMoreMarked(positions, was, todo, prices, t);
        if t in prices && prices[t] > 0.0 {
          positions := positions[t := positions[t].(mark := prices[t])];
        }
        todo := todo - {t};
      }
      AllMarked(positions, was, prices);
    }

    method AccrueFinancing() returns (charge: real)
      modifies this`cash
      ensures State() == Simulation.AccrueFinancing(old(State()), costs)
      ensures charge == Financing(old(State()), costs)
    {
      hide Times;
      if costs.financingBps <= 0.0 {
        return 0.0;
      }
      var marginBorrow := Max(0.0, -cash);
      var shorts := map t | t in positions :: if positions[t].qty < 0.0 then -MarketValue(positions[t]) else 0.0;
      assert ShortValues(positions) == shorts;
      var shortNotional := Sum(shorts);
      var daily := costs.financingBps / 10000.0 / 252.0;
      var shortDaily := (costs.financingBps + costs.borrowBps) / 10000.0 / 252.0;
      charge := Times(marginBorrow, daily) + Times(Max(0.0, shortNotional), shortDaily);
      if charge <= 0.0 {
        return 0.0;
      }
      cash := cash - charge;
    }

    method ApplyCorporateAction(t: Ticker, action: CorporateAction)
      modifies this`cash, this`positions
      ensures State() == ApplyAction(old(State()), t, action)
    {
      if t !in positions || positions[t].qty == 0.0 {
        return;
      }
      hide SplitHolding;
      var h := positions[t];
      match action {
        case Split(r) =>
          positions := positions[t := SplitHolding(h, r)];
        case Dividend(d) =>
          cash := cash + h.qty * d;
        case MergerCash(c) =>
          cash := cash + h.qty * c;
          positions := positions[t := h.(qty := 0.0, avgCost := 0.0)];
      }
    }

    method ApplyCorporateActions(t: Ticker, actions: seq<CorporateAction>)
      modifies this`cash, this`positions
      ensures State() == ApplyActions(old(State()), t, actions)
    {
      hide ApplyAction;
      for i := 0 to |actions|
        invariant State() == ApplyActions(old(State()), t, actions[..i])
      {
        assert actions[..i + 1][..i] == actions[..i];
        ApplyCorporateAction(t, actions[i]);
      }
      assert actions[..|actions|] == actions;
    }

    method FillOrder(t: Ticker, delta: real, mid: real)
      modifies this`cash, this`positions, this`turnover, this`fillsToday
      ensures State() == Simulation.ApplyFill(old(State()), t, delta, mid, costs)
    {
      var f := FillOf(t, delta, mid, costs);
      cash := cash + f.cashDelta;
      var h := if t in positions then positions[t] else Holding(0.0, 0.0, 0.0);
      positions := positions[t := Filled(h, delta, f.price, mid)];
      turnover := turnover + Abs(f.notional);
      fillsToday := fillsToday + [f];
    }

    method ResolveTargets(ds: seq<Decision>, prices: Prices, equity: real, holdKeeps: bool)
      returns (targets: seq<Target>)
      ensures targets == Resolve(ds, prices, equity, holdKeeps)
    {
      hide TargetOf, PutTarget;
      targets := [];
      for i := 0 to |ds|
        invariant targets == Resolve(ds[..i], prices, equity, holdKeeps)
      {
        assert ds[..i + 1][..i] == ds[..i];
        var d := ds[i];
        if d.ticker !in prices || prices[d.ticker] <= 0.0 || (d.verb == Hold && holdKeeps) {
          continue;
        }
        targets := PutTarget(targets, TargetOf(d, prices, equity));
      }
      assert ds[..|ds|] == ds;
    }

    static method SumTargets(targets: seq<Target>, prices: Prices) returns (gross: real)
      requires Priced(targets, prices)
      ensures gross == TargetGross(targets, prices)
    {
      hide Exposure;
      gross := 0.0;
      for i := 0 to |targets|
        invariant Priced(targets[..i], prices) && gross == TargetGross(targets[..i], prices)
      {
        assert targets[..i + 1][..i] == targets[..i];
        gross := gross + Exposure(targets[i].qty, prices[targets[i].ticker]);
      }
      assert targets[..|targets|] == targets;
    }

    method SumOthers(targets: seq<Target>, prices: Prices) returns (held: real)
      ensures held == HeldGross(State(), prices, targets)
    {
      hide Exposure, PriceOr;
      var names := set x | x in targets :: x.ticker;
      var others := map t | t in positions && t !in names ::
        Exposure(positions[t].qty, PriceOr(prices, t, positions[t].mark));
      assert others == Exposures(State(), prices) - Tickers(targets);
      held := Sum(others);
    }

    method CapTargets(targets: seq<Target>, prices: Prices, equity: real, maxGross: real) returns (r: seq<Target>)
      requires Priced(targets, prices) && equity == Simulation.TotalValue(State())
      ensures r == Capped(State(), prices, targets, maxGross)
    {
      hide Simulation.TotalValue, TargetGross, HeldGross, Scaled, Budget, ScaleInto;
      r := targets;
      if maxGross > 0.0 && equity > 0.0 {
        var held := SumOthers(targets, prices);
        var gross := SumTargets(targets, prices);
        var budget := Budget(maxGross, equity, held);
        if gross > budget && gross > 0.0 {
          r := Scaled(targets, ScaleInto(budget, gross));
        }
      }
    }

    method Execute(ds: seq<Decision>, prices: Prices, holdKeeps: bool, maxGross: real) returns (fills: seq<Fill>)
      modifies this`cash, this`positions, this`turnover, this`fillsToday
      ensures State() == Simulation.Execute(old(State()), ds, prices, holdKeeps, maxGross, costs)
      ensures fills == fillsToday
    {
      hide Trade, Simulation.TotalValue, Capped, Sort, ByNotional, Resolve, CashFloor;
      ghost var before := State();
      fillsToday := [];
      var equity := Value();
      assert equity == Simulation.TotalValue(before) by {
        ValueIgnoresFills(before);
      }
      ResolvedPriced(ds, prices, equity, holdKeeps);
      var targets := ResolveTargets(ds, prices, equity, holdKeeps);
      targets := CapTargets(targets, prices, equity, maxGross);
      assert Capped(State(), prices, Resolve(ds, prices, equity, holdKeeps), maxGross)
             == Capped(before, prices, Resolve(ds, prices, equity, holdKeeps), maxGross) by {
        CapIgnoresFills(before, prices, Resolve(ds, prices, equity, holdKeeps), maxGross);
      }
      SortIgnoresFills(targets, before, prices);
      SortedPriced(targets, before, prices);
      var items := Sort(targets, ByNotional(State(), prices));
      var floor := CashFloor(equity, maxGross);
      for i := 0 to |items|
        invariant Priced(items[..i], prices)
        invariant State() == Trades(before.(fills := []), items[..i], prices, floor, costs)
      {
        assert items[..i + 1][..i] == items[..i];
        TradeTarget(items[i], prices[items[i].ticker], floor, prices);
      }
      assert items[..|items|] == items;
      fills := fillsToday;
    }

    // A buy that would breach the floor is cut to what is affordable.
    method ClipToFloor(x: Target, price: real, floor: real) returns (delta: real, notional: real)
      requires price > 0.0
      ensures TradedQty(State(), x, price, floor) == if Abs(notional) < 1.0 then 0.0 else delta
      ensures Abs(notional) >= 1.0 ==> delta != 0.0
    {
      hide Times, Max;
      ghost var full := x.qty - QtyOf(State(), x.ticker);
      delta := x.qty - if x.ticker in positions then positions[x.ticker].qty else 0.0;
      assert delta == full;
      notional := Times(delta, price);
      if notional > 0.0 && cash - notional < floor {
        delta := Max(0.0, cash - floor) / price;
        notional := Times(delta, price);
      }
      TimesNothing(price);
      assert Times(0.0, price) == 0.0;
    }

    method TradeTarget(x: Target, price: real, floor: real, ghost prices: Prices)
      requires x.ticker in prices && prices[x.ticker] == price > 0.0
      modifies this`cash, this`positions, this`turnover, this`fillsToday
      ensures State() == Trade(old(State()), x, prices, floor, costs)
    {
      hide Simulation.ApplyFill, TradedQty;
      var delta, notional := ClipToFloor(x, price, floor);
      if Abs(notional) < 1.0 {
        return;
      }
      FillOrder(x.ticker, delta, price);
    }
  }

  // Every holding but those still to do carries its new mark.
  ghost predicate MarkedBut(now: map<Ticker, Holding>, was: map<Ticker, Holding>, todo: set<Ticker>, prices: Prices) {
    && now.Keys == was.Keys
    && forall t :: t in was ==> now[t] == if t in todo then was[t] else Marked(t, was[t], prices)
  }

  lemma NothingMarked(was: map<Ticker, Holding>, prices: Prices)
    ensures MarkedBut(was, was, was.Keys, prices)
  {}

  lemma OneMoreMarked(
      now: map<Ticker, Holding>, was: map<Ticker, Holding>, todo: set<Ticker>, prices: Prices, t: Ticker)
    requires MarkedBut(now, was, todo, prices) && t in todo && t in was
    ensures t in now
    ensures MarkedBut(if t in prices && prices[t] > 0.0 then now[t := now[t].(mark := prices[t])] else now, was,
                      todo - {t}, prices)
  {}

  lemma AllMarked(now: map<Ticker, Holding>, was: map<Ticker, Holding>, prices: Prices)
    requires MarkedBut(now, was, {}, prices)
    ensures now == map t | t in was :: Marked(t, was[t], prices)
  {}

  lemma ValueIgnoresFills(p: Portfolio)
    ensures TotalValue(p.(fills := [])) == TotalValue(p)
  {}

  lemma CapIgnoresFills(p: Portfolio, prices: Prices, xs: seq<Target>, maxGross: real)
    requires Priced(xs, prices)
    ensures Capped(p.(fills := []), prices, xs, maxGross) == Capped(p, prices, xs, maxGross)
  {
    hide TotalValue, TargetGross, Scaled, Budget, ScaleInto, Exposure, PriceOr;
    ValueIgnoresFills(p);
    assert Exposures(p.(fills := []), prices) == Exposures(p, prices);
  }

  lemma SortIgnoresFills(xs: seq<Target>, p: Portfolio, prices: Prices)
    ensures Sort(xs, ByNotional(p.(fills := []), prices)) == Sort(xs, ByNotional(p, prices))
  {
    SortsAlike(xs, ByNotional(p.(fills := []), prices), ByNotional(p, prices));
  }
}
