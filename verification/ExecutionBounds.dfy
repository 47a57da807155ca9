// What one call of `execute` can do to cash and to gross exposure.
module ExecutionBounds {
  import opened Decimals
  import opened Sorting
  import opened Simulation

  // --- order of trades -----------------------------------------------------------------------

  lemma IsAscending(p: Portfolio, prices: Prices)
    ensures IsOrdering(ByNotional(p, prices))
  {}

  lemma {:induction false} PermutedDistinct(xs: seq<Target>, ys: seq<Target>)
    requires Distinct(xs) && multiset(xs) == multiset(ys)
    ensures Distinct(ys)
  {
    forall i, j | 0 <= i < j < |ys|
      ensures ys[i].ticker != ys[j].ticker
    {
      if ys[i].ticker == ys[j].ticker {
        TwoPlaces(xs, ys, i, j);
      }
    }
  }

  lemma CountsTwice(ys: seq<Target>, i: nat, j: nat)
    requires i < j < |ys| && ys[i] == ys[j]
    ensures multiset(ys)[ys[i]] >= 2
  {
    assert ys == ys[..j] + ys[j..];
    assert ys[..j][i] == ys[i] && ys[j..][0] == ys[j];
    assert ys[i] in multiset(ys[..j]) && ys[i] in multiset(ys[j..]);
  }

  lemma TwoPlaces(xs: seq<Target>, ys: seq<Target>, i: nat, j: nat)
    requires Distinct(xs) && multiset(xs) == multiset(ys) && i < j < |ys|
    ensures ys[i].ticker != ys[j].ticker
  {
    SameElements(xs, ys);
    if ys[i] == ys[j] {
      CountsTwice(ys, i, j);
      AtMostOne(xs, ys[i]);
      assert false;
    }
    assert ys[i] in xs && ys[j] in xs;
  }

  lemma {:induction false} AtMostOne(xs: seq<Target>, x: Target)
    requires Distinct(xs)
    ensures multiset(xs)[x] <= 1
  {
    if xs != [] {
      var n := |xs| - 1;
      assert xs == xs[..n] + [xs[n]];
      AtMostOne(xs[..n], x);
      assert x == xs[n] ==> x !in xs[..n];
    }
  }

  lemma PlanIsOrdered(p: Portfolio, ds: seq<Decision>, prices: Prices, holdKeeps: bool, maxGross: real)
    ensures var xs := Plan(p, ds, prices, holdKeeps, maxGross); Distinct(xs) && Sorted(xs, ByNotional(p, prices))
  {
    hide TradeNotional, Insert, IsOrdering, Sorted, Sort, ByNotional;
    var targets := Resolve(ds, prices, TotalValue(p), holdKeeps);
    ResolvedPriced(ds, prices, TotalValue(p), holdKeeps);
    var capped := Capped(p, prices, targets, maxGross);
    IsAscending(p, prices);
    SortSorts(capped, ByNotional(p, prices));
    PermutedDistinct(capped, Sort(capped, ByNotional(p, prices)));
  }

  // A trade touches its own symbol only.
  lemma {:induction false} UntouchedByTrades(
      p: Portfolio, xs: seq<Target>, prices: Prices, floor: real, c: Costs, t: Ticker)
    requires Priced(xs, prices) && (forall i :: 0 <= i < |xs| ==> xs[i].ticker != t)
    ensures HoldingOf(Trades(p, xs, prices, floor, c), t) == HoldingOf(p, t)
    ensures t in Trades(p, xs, prices, floor, c).holdings <==> t in p.holdings
  {
    hide TradedQty, FillOf, Filled;
    if xs != [] {
      UntouchedByTrades(p, xs[..|xs| - 1], prices, floor, c, t);
    }
  }

  lemma PrefixPriced(xs: seq<Target>, prices: Prices, k: nat)
    requires Priced(xs, prices) && k <= |xs|
    ensures Priced(xs[..k], prices)
  {}

  // So each symbol's turn finds it as it was before trading began.
  lemma NotionalAtTurn(p: Portfolio, xs: seq<Target>, prices: Prices, floor: real, c: Costs, k: nat)
    requires Priced(xs, prices) && Distinct(xs) && k < |xs|
    ensures Priced(xs[..k], prices)
    ensures TradeNotional(Trades(p, xs[..k], prices, floor, c), xs[k], prices) == TradeNotional(p, xs[k], prices)
  {
    PrefixPriced(xs, prices, k);
    UntouchedByTrades(p, xs[..k], prices, floor, c, xs[k].ticker);
  }

  lemma {:induction false} LastTouch(
      p: Portfolio, xs: seq<Target>, prices: Prices, floor: real, c: Costs, i: nat, m: nat)
    requires Priced(xs, prices) && Distinct(xs) && i < m <= |xs|
    ensures Priced(xs[..m], prices) && Priced(xs[..i + 1], prices)
    ensures HoldingOf(Trades(p, xs[..m], prices, floor, c), xs[i].ticker)
            == HoldingOf(Trades(p, xs[..i + 1], prices, floor, c), xs[i].ticker)
    decreases m
  {
    hide TradedQty, FillOf, Filled;
    if m > i + 1 {
      LastTouch(p, xs, prices, floor, c, i, m - 1);
      assert xs[..m][..m - 1] == xs[..m - 1];
      assert xs[..m][m - 1] == xs[m - 1];
    }
  }

  // --- cash ----------------------------------------------------------------------------------

  // Spread and commission on top of a buy's mid notional.
  function Drag(c: Costs): real {
    (1.0 + c.spreadBps / 20000.0) * (1.0 + c.commissionBps / 10000.0) - 1.0
  }

  ghost predicate Plausible(c: Costs) {
    0.0 <= c.commissionBps < 10000.0 && 0.0 <= c.spreadBps < 20000.0
  }

  lemma BuyCost(t: Ticker, delta: real, mid: real, c: Costs)
    requires Plausible(c) && delta > 0.0 && mid > 0.0
    ensures FillOf(t, delta, mid, c).cashDelta == -Times(1.0 + Drag(c), Times(delta, mid))
  {
    hide FillOf, Abs, Drag, ExecPrice, Times;
    DragIs(c);
    BuyPrice(delta, mid, c);
    FillCash(t, delta, mid, c);
    BuyProducts(delta, mid, 1.0 + c.spreadBps / 20000.0, c.commissionBps / 10000.0, ExecPrice(delta, mid, c),
                FillOf(t, delta, mid, c).notional, 1.0 + Drag(c));
  }

  lemma DragIs(c: Costs)
    ensures 1.0 + Drag(c) == (1.0 + c.spreadBps / 20000.0) * (1.0 + c.commissionBps / 10000.0)
  {}

  lemma BuyPrice(delta: real, mid: real, c: Costs)
    requires delta > 0.0
    ensures ExecPrice(delta, mid, c) == mid * (1.0 + c.spreadBps / 20000.0)
  {
    assert c.spreadBps / 2.0 / 10000.0 == c.spreadBps / 20000.0;
  }

  lemma BuyProducts(delta: real, mid: real, h: real, k: real, price: real, notional: real, cost: real)
    requires delta > 0.0 && mid > 0.0 && h >= 1.0
    requires price == mid * h && notional == delta * price && cost == h * (1.0 + k)
    ensures -notional - Abs(notional) * k == -Times(cost, Times(delta, mid))
  {
    var n := delta * mid;
    ProductPositive(delta, mid);
    ProductPositive(n, h);
    assert notional == n * h;
    assert n * h * k == n * (h * k);
    assert cost == h + h * k;
    assert cost * n == n * h + n * (h * k);
  }

  // What a reduction keeps of its mid notional.
  function Keep(c: Costs): real {
    (1.0 - c.spreadBps / 20000.0) * (1.0 - c.commissionBps / 10000.0)
  }

  lemma KeepIsPositive(c: Costs)
    requires Plausible(c)
    ensures Keep(c) > 0.0
  {
    var a, b := 1.0 - c.spreadBps / 20000.0, 1.0 - c.commissionBps / 10000.0;
    assert a > 0.0 && b > 0.0;
    ProductPositive(a, b);
    assert Keep(c) == a * b;
  }

  lemma SellProceeds(t: Ticker, delta: real, mid: real, c: Costs)
    requires Plausible(c) && delta < 0.0 && mid > 0.0
    ensures FillOf(t, delta, mid, c).cashDelta == Times(Keep(c), -Times(delta, mid))
  {
    hide FillOf, Abs, Keep, ExecPrice, Times;
    var h := 1.0 - c.spreadBps / 20000.0;
    assert h > 0.0;
    KeepIs(c);
    SellPrice(delta, mid, c);
    FillCash(t, delta, mid, c);
    SellProducts(delta, mid, h, c.commissionBps / 10000.0, ExecPrice(delta, mid, c), FillOf(t, delta, mid, c).notional,
                 Keep(c));
  }

  lemma KeepIs(c: Costs)
    ensures Keep(c) == (1.0 - c.spreadBps / 20000.0) * (1.0 - c.commissionBps / 10000.0)
  {}

  lemma SellPrice(delta: real, mid: real, c: Costs)
    requires delta < 0.0
    ensures ExecPrice(delta, mid, c) == mid * (1.0 - c.spreadBps / 20000.0)
  {
    assert c.spreadBps / 2.0 / 10000.0 == c.spreadBps / 20000.0;
  }

  lemma SellProducts(delta: real, mid: real, h: real, k: real, price: real, notional: real, keep: real)
    requires delta < 0.0 && mid > 0.0 && h > 0.0
    requires price == mid * h && notional == delta * price && keep == h * (1.0 - k)
    ensures -notional - Abs(notional) * k == Times(keep, -Times(delta, mid))
  {
    var n := -delta * mid;
    ProductPositive(-delta, mid);
    ProductPositive(n, h);
    assert -Times(delta, mid) == n;
    assert notional == -(n * h);
    assert n * h * k == n * (h * k);
    assert keep == h - h * k;
    assert keep * n == n * h - n * (h * k);
  }

  lemma FillCash(t: Ticker, delta: real, mid: real, c: Costs)
    ensures var f := FillOf(t, delta, mid, c);
            f.notional == delta * ExecPrice(delta, mid, c)
            && f.cashDelta == -f.notional - Abs(f.notional) * (c.commissionBps / 10000.0)
  {}

  lemma DragIsNonnegative(c: Costs)
    requires Plausible(c)
    ensures Drag(c) >= 0.0
  {
    var s, k := c.spreadBps / 20000.0, c.commissionBps / 10000.0;
    assert s * k >= 0.0;
    assert (1.0 + s) * (1.0 + k) == 1.0 + s + k + s * k;
  }

  // What one trade does to cash: a reduction never lowers it; a buy spends at most what lies above the floor,
  // plus its costs, and below the floor nothing is bought.
  ghost predicate CashRule(before: real, after: real, notional: real, floor: real, c: Costs) {
    if notional <= 0.0 then after >= before
    else after == before || (before > floor && after <= before && after >= floor - Times(Drag(c), before - floor))
  }

  // The mid notional actually traded, from the one asked for and the room above the floor: reductions in full,
  // buys up to the room, nothing under a dollar.
  function Executed(n: real, room: real): real {
    if n < 0.0 then if -n < 1.0 then 0.0 else n
    else if n < 1.0 || room < 1.0 then 0.0
    else Min(n, room)
  }

  lemma TradedNotional(p: Portfolio, x: Target, price: real, floor: real)
    requires price > 0.0
    ensures var n, delta := Times(x.qty - QtyOf(p, x.ticker), price), TradedQty(p, x, price, floor);
            && Times(delta, price) == Executed(n, p.cash - floor)
            && (delta > 0.0 <==> Executed(n, p.cash - floor) > 0.0)
            && (delta < 0.0 <==> Executed(n, p.cash - floor) < 0.0)
  {
    hide Times, QtyOf;
    TimesNothing(price);
    DividedTimes(Max(0.0, p.cash - floor), price);
    TimesSign(TradedQty(p, x, price, floor), price);
  }

  // What a buy of a notional takes from the room above the floor.
  function Spent(room: real, n: real, drag: real): real {
    Times(1.0 + drag, Executed(n, room))
  }

  lemma BuySpends(p: Portfolio, x: Target, prices: Prices, floor: real, c: Costs)
    requires Plausible(c) && x.ticker in prices && prices[x.ticker] > 0.0 && TradeNotional(p, x, prices) > 0.0
    ensures Trade(p, x, prices, floor, c).cash
            == p.cash - Spent(p.cash - floor, TradeNotional(p, x, prices), Drag(c))
  {
    hide TradedQty, FillOf, Drag, Filled, Times, QtyOf;
    var delta := TradedQty(p, x, prices[x.ticker], floor);
    TradedNotional(p, x, prices[x.ticker], floor);
    if delta > 0.0 {
      BuyCost(x.ticker, delta, prices[x.ticker], c);
    } else {
      TimesNothing(1.0 + Drag(c));
    }
  }

  // What a reduction brings in.
  function Received(n: real, keep: real): real {
    if n <= -1.0 then Times(keep, -n) else 0.0
  }

  lemma ReductionPays(p: Portfolio, x: Target, prices: Prices, floor: real, c: Costs)
    requires Plausible(c) && x.ticker in prices && prices[x.ticker] > 0.0 && TradeNotional(p, x, prices) <= 0.0
    ensures Trade(p, x, prices, floor, c).cash == p.cash + Received(TradeNotional(p, x, prices), Keep(c))
  {
    hide TradedQty, FillOf, Filled, Times, QtyOf, Keep;
    var delta := TradedQty(p, x, prices[x.ticker], floor);
    TradedNotional(p, x, prices[x.ticker], floor);
    if delta < 0.0 {
      SellProceeds(x.ticker, delta, prices[x.ticker], c);
    }
  }

  lemma ReceivedIsGain(n: real, keep: real)
    requires keep > 0.0
    ensures Received(n, keep) >= 0.0
  {
    if n <= -1.0 {
      ProductPositive(keep, -n);
    }
  }

  lemma OneMore(k: real, m: real)
    ensures Times(1.0 + k, m) == m + Times(k, m)
  {}

  lemma SpendingRule(room: real, n: real, drag: real)
    requires drag >= 0.0 && n > 0.0
    ensures Spent(room, n, drag) == 0.0 || (room > 0.0 && 0.0 <= Spent(room, n, drag) <= room + Times(drag, room))
  {
    hide Times;
    var m := Executed(n, room);
    OneMore(drag, m);
    TimesNothing(drag);
    TimesNothing(1.0 + drag);
    if m > 0.0 {
      TimesGrows(drag, 0.0, m);
      TimesGrows(drag, m, room);
    }
  }

  lemma TradeCash(p: Portfolio, x: Target, prices: Prices, floor: real, c: Costs)
    requires Plausible(c) && x.ticker in prices && prices[x.ticker] > 0.0
    ensures CashRule(p.cash, Trade(p, x, prices, floor, c).cash, TradeNotional(p, x, prices), floor, c)
  {
    hide Trade, TradeNotional, Spent, Times, Drag, Received, Keep;
    if TradeNotional(p, x, prices) <= 0.0 {
      ReductionPays(p, x, prices, floor, c);
      KeepIsPositive(c);
      ReceivedIsGain(TradeNotional(p, x, prices), Keep(c));
    } else {
      BuySpends(p, x, prices, floor, c);
      DragIsNonnegative(c);
      SpendingRule(p.cash - floor, TradeNotional(p, x, prices), Drag(c));
    }
  }

  function CashAfter(p: Portfolio, xs: seq<Target>, prices: Prices, floor: real, c: Costs, k: nat): real
    requires Priced(xs, prices) && k <= |xs|
  {
    PrefixPriced(xs, prices, k);
    Trades(p, xs[..k], prices, floor, c).cash
  }

  // The number of reductions: they all come first.
  ghost function Reductions(xs: seq<Target>, p: Portfolio, prices: Prices): (k: nat)
    requires Sorted(xs, ByNotional(p, prices))
    ensures k <= |xs|
    ensures forall i :: 0 <= i < k ==> TradeNotional(p, xs[i], prices) <= 0.0
    ensures forall i :: k <= i < |xs| ==> TradeNotional(p, xs[i], prices) > 0.0
  {
    if xs == [] then 0
    else
      var n := |xs| - 1;
      assert forall i :: 0 <= i < n ==> ByNotional(p, prices)(xs[i], xs[n]);
      if TradeNotional(p, xs[n], prices) <= 0.0 then |xs| else Reductions(xs[..n], p, prices)
  }

  lemma CashStep(p: Portfolio, xs: seq<Target>, prices: Prices, floor: real, c: Costs, k: nat)
    requires Plausible(c) && Priced(xs, prices) && Distinct(xs) && k < |xs|
    ensures CashRule(CashAfter(p, xs, prices, floor, c, k), CashAfter(p, xs, prices, floor, c, k + 1),
                     TradeNotional(p, xs[k], prices), floor, c)
  {
    hide CashRule, TradeNotional, Trade;
    PrefixPriced(xs, prices, k);
    PrefixPriced(xs, prices, k + 1);
    NotionalAtTurn(p, xs, prices, floor, c, k);
    assert xs[..k + 1][..k] == xs[..k];
    TradeCash(Trades(p, xs[..k], prices, floor, c), xs[k], prices, floor, c);
  }

  // Where cash stands after the first m trades: at or above its level after the reductions, or at worst below
  // the floor by the costs of the last buy that was made, a buy made with cash above the floor.
  ghost predicate FloorHolds(
      p: Portfolio, xs: seq<Target>, prices: Prices, floor: real, c: Costs, sells: nat, m: nat)
    requires Priced(xs, prices) && sells <= m <= |xs|
  {
    var cash := CashAfter(p, xs, prices, floor, c, m);
    || cash == CashAfter(p, xs, prices, floor, c, sells)
    || exists j :: sells <= j < m && LastBuy(p, xs, prices, floor, c, j, m)
  }

  ghost predicate LastBuy(p: Portfolio, xs: seq<Target>, prices: Prices, floor: real, c: Costs, j: nat, m: nat)
    requires Priced(xs, prices) && j < m <= |xs|
  {
    var before, after := CashAfter(p, xs, prices, floor, c, j), CashAfter(p, xs, prices, floor, c, j + 1);
    && before > floor
    && after >= floor - Times(Drag(c), before - floor)
    && CashAfter(p, xs, prices, floor, c, m) == after
  }

  lemma {:induction false} FloorHoldsFrom(
      p: Portfolio, xs: seq<Target>, prices: Prices, floor: real, c: Costs, sells: nat, m: nat)
    requires Plausible(c) && Priced(xs, prices) && Distinct(xs) && sells <= m <= |xs|
    requires forall i :: sells <= i < |xs| ==> TradeNotional(p, xs[i], prices) > 0.0
    ensures FloorHolds(p, xs, prices, floor, c, sells, m)
    decreases m
  {
    hide CashAfter, TradeNotional, Drag, Distinct, Priced, CashRule;
    if m > sells {
      FloorHoldsFrom(p, xs, prices, floor, c, sells, m - 1);
      CashStep(p, xs, prices, floor, c, m - 1);
      if CashAfter(p, xs, prices, floor, c, m) != CashAfter(p, xs, prices, floor, c, m - 1) {
        BuyRule(CashAfter(p, xs, prices, floor, c, m - 1), CashAfter(p, xs, prices, floor, c, m),
                TradeNotional(p, xs[m - 1], prices), floor, c);
        assert LastBuy(p, xs, prices, floor, c, m - 1, m);
      } else if CashAfter(p, xs, prices, floor, c, m - 1) != CashAfter(p, xs, prices, floor, c, sells) {
        var j :| sells <= j < m - 1 && LastBuy(p, xs, prices, floor, c, j, m - 1);
        assert LastBuy(p, xs, prices, floor, c, j, m);
      }
    }
  }

  lemma BuyRule(before: real, after: real, notional: real, floor: real, c: Costs)
    requires CashRule(before, after, notional, floor, c) && notional > 0.0 && after != before
    ensures before > floor && after >= floor - Times(Drag(c), before - floor)
  {
    hide Drag;
  }

  lemma {:induction false} ReductionsRaiseCash(
      p: Portfolio, xs: seq<Target>, prices: Prices, floor: real, c: Costs, k: nat)
    requires Plausible(c) && Priced(xs, prices) && Distinct(xs) && k <= |xs|
    requires forall i :: 0 <= i < k ==> TradeNotional(p, xs[i], prices) <= 0.0
    ensures CashAfter(p, xs, prices, floor, c, k) >= p.cash
  {
    hide TradeNotional, Trade, Distinct, Priced;
    if k > 0 {
      ReductionsRaiseCash(p, xs, prices, floor, c, k - 1);
      CashStep(p, xs, prices, floor, c, k - 1);
    }
  }

  // Margin floor with costs. `execute` first makes all reductions, none of which lowers cash; from there cash
  // either stays, or ends no lower than the floor minus the trading costs of what lay above it before the
  // last buy.
  lemma MarginFloor(
      p: Portfolio, ds: seq<Decision>, prices: Prices, holdKeeps: bool, maxGross: real, c: Costs)
    returns (sells: nat)
    requires Plausible(c)
    ensures var xs, floor, q :=
              Plan(p, ds, prices, holdKeeps, maxGross), CashFloor(TotalValue(p), maxGross), p.(fills := []);
            && sells <= |xs|
            && (forall i :: 0 <= i < |xs| ==> (i < sells <==> TradeNotional(p, xs[i], prices) <= 0.0))
            && CashAfter(q, xs, prices, floor, c, sells) >= p.cash
            && FloorHolds(q, xs, prices, floor, c, sells, |xs|)
            && Execute(p, ds, prices, holdKeeps, maxGross, c).cash == CashAfter(q, xs, prices, floor, c, |xs|)
  {
    hide Plan, CashFloor, TotalValue, Trade, FloorHolds;
    var xs, floor, q :=
      Plan(p, ds, prices, holdKeeps, maxGross), CashFloor(TotalValue(p), maxGross), p.(fills := []);
    PlanIsOrdered(p, ds, prices, holdKeeps, maxGross);
    sells := Reductions(xs, p, prices);
    assert forall x: Target :: TradeNotional(q, x, prices) == TradeNotional(p, x, prices);
    ReductionsRaiseCash(q, xs, prices, floor, c, sells);
    FloorHoldsFrom(q, xs, prices, floor, c, sells, |xs|);
    assert xs[..|xs|] == xs;
  }

  // A buy goes through the floor exactly when there is something to buy and to buy it with, trading costs
  // anything at all, and what was asked for does not fit the room together with its costs.
  predicate Overspends(room: real, n: real, drag: real) {
    n >= 1.0 && room >= 1.0 && drag > 0.0 && Times(1.0 + drag, n) > room
  }

  lemma OverspendsIsExact(room: real, n: real, drag: real)
    requires drag >= 0.0 && room >= 0.0 && n > 0.0
    ensures Spent(room, n, drag) > room <==> Overspends(room, n, drag)
  {
    hide Times;
    TimesNothing(1.0 + drag);
    TimesNothing(drag);
    if n >= 1.0 && room >= 1.0 {
      OneMore(drag, n);
      OneMore(drag, room);
      if drag == 0.0 {
        TimesNothing(n);
        TimesNothing(room);
      } else {
        TimesGrowsStrictly(drag, 0.0, room);
        TimesGrowsStrictly(drag, 0.0, n);
      }
    }
  }

  // One buy breaks the floor exactly when its asked-for notional overspends the room it finds.
  lemma BuyBreaksFloor(p: Portfolio, x: Target, prices: Prices, floor: real, c: Costs)
    requires Plausible(c) && x.ticker in prices && prices[x.ticker] > 0.0
    requires TradeNotional(p, x, prices) > 0.0 && p.cash >= floor
    ensures Trade(p, x, prices, floor, c).cash < floor
            <==> Overspends(p.cash - floor, TradeNotional(p, x, prices), Drag(c))
  {
    hide Trade, TradeNotional, Spent, Overspends, Drag;
    BuySpends(p, x, prices, floor, c);
    DragIsNonnegative(c);
    OverspendsIsExact(p.cash - floor, TradeNotional(p, x, prices), Drag(c));
  }

  // The room above the floor after a list of buys, from their asked-for notionals alone.
  function RoomAfter(room: real, ns: seq<real>, drag: real): real {
    if ns == [] then room
    else
      var before := RoomAfter(room, ns[..|ns| - 1], drag);
      before - Spent(before, ns[|ns| - 1], drag)
  }

  // No buy overspends the room the ones before it leave.
  predicate AllFit(room: real, ns: seq<real>, drag: real) {
    forall j :: 0 <= j < |ns| ==> !Overspends(RoomAfter(room, ns[..j], drag), ns[j], drag)
  }

  // Below the floor nothing is bought, so the floor holds at the end exactly when no buy overspent.
  lemma {:induction false} RoomIsKept(room: real, ns: seq<real>, drag: real)
    requires drag >= 0.0 && room >= 0.0 && forall j :: 0 <= j < |ns| ==> ns[j] > 0.0
    ensures RoomAfter(room, ns, drag) >= 0.0 <==> AllFit(room, ns, drag)
  {
    hide Spent, Overspends, AllFit;
    if ns == [] {
      NothingToFit(room, drag);
    } else {
      var m := |ns| - 1;
      var before := RoomAfter(room, ns[..m], drag);
      RoomIsKept(room, ns[..m], drag);
      OneMoreFits(room, ns, drag);
      if before >= 0.0 {
        assert ns[m] > 0.0;
        OverspendsIsExact(before, ns[m], drag);
      } else {
        NothingSpentBelow(before, ns[m], drag);
      }
    }
  }

  lemma NothingToFit(room: real, drag: real)
    ensures AllFit(room, [], drag)
  {}

  lemma OneMoreFits(room: real, ns: seq<real>, drag: real)
    requires ns != []
    ensures var m := |ns| - 1;
            AllFit(room, ns, drag)
            <==> AllFit(room, ns[..m], drag) && !Overspends(RoomAfter(room, ns[..m], drag), ns[m], drag)
  {
    hide RoomAfter, Overspends;
    var m := |ns| - 1;
    forall j | 0 <= j < m
      ensures ns[..m][..j] == ns[..j] && ns[..m][j] == ns[j]
    {}
  }

  lemma NothingSpentBelow(room: real, n: real, drag: real)
    requires room < 0.0 && n > 0.0
    ensures Spent(room, n, drag) == 0.0 && !Overspends(room, n, drag)
  {}

  function Notionals(p: Portfolio, xs: seq<Target>, prices: Prices): seq<real> {
    seq(|xs|, i requires 0 <= i < |xs| => TradeNotional(p, xs[i], prices))
  }

  // Cash follows that recursion, buy by buy.
  lemma {:induction false} RoomFollowsCash(
      p: Portfolio, xs: seq<Target>, prices: Prices, floor: real, c: Costs, sells: nat, m: nat)
    requires Plausible(c) && Priced(xs, prices) && Distinct(xs) && sells <= m <= |xs|
    requires forall i :: sells <= i < |xs| ==> TradeNotional(p, xs[i], prices) > 0.0
    ensures CashAfter(p, xs, prices, floor, c, m) - floor
            == RoomAfter(CashAfter(p, xs, prices, floor, c, sells) - floor, Notionals(p, xs, prices)[sells..m], Drag(c))
    decreases m
  {
    hide CashAfter, TradeNotional, Drag, Distinct, Priced, Spent;
    if m > sells {
      RoomFollowsCash(p, xs, prices, floor, c, sells, m - 1);
      var ns := Notionals(p, xs, prices)[sells..m];
      assert ns[..|ns| - 1] == Notionals(p, xs, prices)[sells..m - 1];
      assert ns[|ns| - 1] == TradeNotional(p, xs[m - 1], prices);
      NextBuySpends(p, xs, prices, floor, c, m - 1);
    }
  }

  lemma NextBuySpends(p: Portfolio, xs: seq<Target>, prices: Prices, floor: real, c: Costs, k: nat)
    requires Plausible(c) && Priced(xs, prices) && Distinct(xs) && k < |xs|
    requires TradeNotional(p, xs[k], prices) > 0.0
    ensures var before := CashAfter(p, xs, prices, floor, c, k);
            CashAfter(p, xs, prices, floor, c, k + 1)
            == before - Spent(before - floor, TradeNotional(p, xs[k], prices), Drag(c))
  {
    hide TradeNotional, Trade, Spent, Drag;
    PrefixPriced(xs, prices, k);
    PrefixPriced(xs, prices, k + 1);
    NotionalAtTurn(p, xs, prices, floor, c, k);
    assert xs[..k + 1][..k] == xs[..k];
    BuySpends(Trades(p, xs[..k], prices, floor, c), xs[k], prices, floor, c);
  }

  // What a list of reductions brings in, from their notionals alone.
  function Proceeds(ns: seq<real>, keep: real): real {
    if ns == [] then 0.0 else Proceeds(ns[..|ns| - 1], keep) + Received(ns[|ns| - 1], keep)
  }

  lemma {:induction false} CashAfterReductions(
      p: Portfolio, xs: seq<Target>, prices: Prices, floor: real, c: Costs, k: nat)
    requires Plausible(c) && Priced(xs, prices) && Distinct(xs) && k <= |xs|
    requires forall i :: 0 <= i < k ==> TradeNotional(p, xs[i], prices) <= 0.0
    ensures CashAfter(p, xs, prices, floor, c, k) == p.cash + Proceeds(Notionals(p, xs, prices)[..k], Keep(c))
  {
    hide TradeNotional, Trade, Distinct, Priced, Keep, Received;
    if k > 0 {
      CashAfterReductions(p, xs, prices, floor, c, k - 1);
      var ns := Notionals(p, xs, prices)[..k];
      assert ns[..|ns| - 1] == Notionals(p, xs, prices)[..k - 1];
      assert ns[|ns| - 1] == TradeNotional(p, xs[k - 1], prices);
      NextReductionPays(p, xs, prices, floor, c, k - 1);
    }
  }

  lemma NextReductionPays(p: Portfolio, xs: seq<Target>, prices: Prices, floor: real, c: Costs, k: nat)
    requires Plausible(c) && Priced(xs, prices) && Distinct(xs) && k < |xs|
    requires TradeNotional(p, xs[k], prices) <= 0.0
    ensures CashAfter(p, xs, prices, floor, c, k + 1)
            == CashAfter(p, xs, prices, floor, c, k) + Received(TradeNotional(p, xs[k], prices), Keep(c))
  {
    hide TradeNotional, Trade, Received, Keep;
    PrefixPriced(xs, prices, k);
    PrefixPriced(xs, prices, k + 1);
    NotionalAtTurn(p, xs, prices, floor, c, k);
    assert xs[..k + 1][..k] == xs[..k];
    ReductionPays(Trades(p, xs[..k], prices, floor, c), xs[k], prices, floor, c);
  }

  // The room the reductions leave above the floor, from the plan's notionals.
  function RoomToBuy(p: Portfolio, xs: seq<Target>, prices: Prices, floor: real, c: Costs, sells: nat): real
    requires sells <= |xs|
  {
    p.cash + Proceeds(Notionals(p, xs, prices)[..sells], Keep(c)) - floor
  }

  lemma {:induction false} NothingBoughtBelow(room: real, ns: seq<real>, drag: real)
    requires room < 0.0 && forall j :: 0 <= j < |ns| ==> ns[j] > 0.0
    ensures RoomAfter(room, ns, drag) == room
  {
    hide Spent, Overspends;
    if ns != [] {
      NothingBoughtBelow(room, ns[..|ns| - 1], drag);
      NothingSpentBelow(room, ns[|ns| - 1], drag);
    }
  }

  // The first so many planned trades are the reductions.
  ghost predicate SplitsAt(p: Portfolio, xs: seq<Target>, prices: Prices, sells: nat) {
    sells <= |xs| && forall i :: 0 <= i < |xs| ==> (i < sells <==> TradeNotional(p, xs[i], prices) <= 0.0)
  }

  // Exactly when `execute` respects the cash floor, read off the book, the plan and the costs before the call.
  // The reductions lift the opening cash by what they keep of their notionals. If that still lies below the
  // floor nothing is bought and cash ends there. Otherwise the floor holds exactly when no planned buy
  // overspends the room the ones before it leave.
  lemma ExecuteKeepsFloor(
      p: Portfolio, ds: seq<Decision>, prices: Prices, holdKeeps: bool, maxGross: real, c: Costs)
    returns (sells: nat)
    requires Plausible(c)
    ensures var xs, floor, cash := Plan(p, ds, prices, holdKeeps, maxGross), CashFloor(TotalValue(p), maxGross),
                                   Execute(p, ds, prices, holdKeeps, maxGross, c).cash;
            && SplitsAt(p, xs, prices, sells)
            && floor == (if maxGross <= 1.0 then 0.0 else TotalValue(p) - maxGross * TotalValue(p))
            && var room, buys := RoomToBuy(p, xs, prices, floor, c, sells), Notionals(p, xs, prices)[sells..];
               && cash == floor + RoomAfter(room, buys, Drag(c))
               && (room < 0.0 ==> cash == floor + room)
               && (room >= 0.0 ==> (cash >= floor <==> AllFit(room, buys, Drag(c))))
  {
    hide Plan, CashFloor, TotalValue, Trade, RoomAfter, AllFit, Drag, CashAfter, Proceeds, Keep, TradeNotional;
    var xs, floor, q :=
      Plan(p, ds, prices, holdKeeps, maxGross), CashFloor(TotalValue(p), maxGross), p.(fills := []);
    PlanIsOrdered(p, ds, prices, holdKeeps, maxGross);
    sells := Reductions(xs, p, prices);
    SameNotionals(p, q, xs, prices);
    CashAfterReductions(q, xs, prices, floor, c, sells);
    RoomFollowsCash(q, xs, prices, floor, c, sells, |xs|);
    DragIsNonnegative(c);
    var room, buys := RoomToBuy(p, xs, prices, floor, c, sells), Notionals(p, xs, prices)[sells..];
    assert Notionals(p, xs, prices)[sells..|xs|] == buys;
    AllCash(p, ds, prices, holdKeeps, maxGross, c);
    FloorIs(TotalValue(p), maxGross);
    forall j | 0 <= j < |buys|
      ensures buys[j] > 0.0
    {
      assert buys[j] == TradeNotional(p, xs[sells + j], prices);
    }
    if room >= 0.0 {
      RoomIsKept(room, buys, Drag(c));
    } else {
      NothingBoughtBelow(room, buys, Drag(c));
    }
  }

  // Without leverage the floor is zero; with it, what lies beyond the equity may be borrowed.
  lemma FloorIs(equity: real, maxGross: real)
    ensures CashFloor(equity, maxGross) == if maxGross <= 1.0 then 0.0 else equity - maxGross * equity
  {
    if maxGross > 1.0 {
      assert (maxGross - 1.0) * equity == maxGross * equity - equity;
    }
  }

  lemma SameNotionals(p: Portfolio, q: Portfolio, xs: seq<Target>, prices: Prices)
    requires q.holdings == p.holdings
    ensures Notionals(q, xs, prices) == Notionals(p, xs, prices)
    ensures forall i :: 0 <= i < |xs| ==> TradeNotional(q, xs[i], prices) == TradeNotional(p, xs[i], prices)
  {}

  lemma AllCash(p: Portfolio, ds: seq<Decision>, prices: Prices, holdKeeps: bool, maxGross: real, c: Costs)
    ensures var xs, floor, q :=
              Plan(p, ds, prices, holdKeeps, maxGross), CashFloor(TotalValue(p), maxGross), p.(fills := []);
            Execute(p, ds, prices, holdKeeps, maxGross, c).cash == CashAfter(q, xs, prices, floor, c, |xs|)
  {
    hide Plan, CashFloor, TotalValue, Trade;
    var xs := Plan(p, ds, prices, holdKeeps, maxGross);
    assert xs[..|xs|] == xs;
  }

  // It happens: all the cash goes into shares, and one percent commission comes on top.
  lemma FloorIsBroken()
    ensures var p, prices := Portfolio(100.0, map[], [], 0.0), map["A" := 10.0];
            Trade(p, Target("A", 10.0), prices, 0.0, Costs(100.0, 0.0, 0.0, 0.0)).cash == -1.0
  {
    var p := Portfolio(100.0, map[], [], 0.0);
    assert TradedQty(p, Target("A", 10.0), 10.0, 0.0) == 10.0;
    assert FillOf("A", 10.0, 10.0, Costs(100.0, 0.0, 0.0, 0.0)).cashDelta == -101.0;
  }

  // --- gross exposure ------------------------------------------------------------------------

  // A trade finds room: it is no cover of a short, asks for less than a dollar, or has room for all it asks for.
  predicate FindsRoom(before: real, n: real, room: real) {
    before >= 0.0 || n < 1.0 || room >= n
  }

  lemma TradeStaysBetween(p: Portfolio, x: Target, prices: Prices, floor: real, c: Costs)
    requires x.ticker in prices && prices[x.ticker] > 0.0
    ensures var before, after := QtyOf(p, x.ticker), QtyOf(Trade(p, x, prices, floor, c), x.ticker);
            && Abs(after) <= Max(Abs(before), Abs(x.qty))
            && (before >= 0.0 && x.qty >= 0.0 ==> after >= 0.0)
            && (FindsRoom(before, TradeNotional(p, x, prices), p.cash - floor) ==>
                  Exposure(after, prices[x.ticker]) <= Exposure(x.qty, prices[x.ticker]) + 1.0)
  {
    hide Times, Exposure, Executed;
    var price := prices[x.ticker];
    var before, delta := QtyOf(p, x.ticker), TradedQty(p, x, price, floor);
    TradedIsPartial(p, x, price, floor);
    AfterTrade(p, x, prices, floor, c);
    var after := QtyOf(Trade(p, x, prices, floor, c), x.ticker);
    if FindsRoom(before, TradeNotional(p, x, prices), p.cash - floor) {
      if after == 0.0 || Abs(after) <= Abs(x.qty) {
        SmallerExposure(after, x.qty, price);
      } else {
        NearExposure(after, x.qty, price);
      }
    }
  }

  lemma SmallerExposure(after: real, target: real, price: real)
    requires price > 0.0 && Abs(after) <= Abs(target)
    ensures Exposure(after, price) <= Exposure(target, price) + 1.0
  {
    AbsTimes(after, price);
    AbsTimes(target, price);
    TimesGrows(price, Abs(after), Abs(target));
    TimesTurns(price, Abs(after));
    TimesTurns(price, Abs(target));
  }

  lemma AbsTimes(x: real, price: real)
    requires price > 0.0
    ensures Exposure(x, price) == Times(Abs(x), price)
  {
    if x >= 0.0 {
      ProductNotNegative(x, price);
    } else {
      ProductPositive(-x, price);
      assert -x * price == -(x * price);
    }
  }

  lemma NearExposure(after: real, target: real, price: real)
    requires price > 0.0 && Abs(Times(target - after, price)) <= 1.0
    ensures Exposure(after, price) <= Exposure(target, price) + 1.0
  {
    assert (target - after) * price == target * price - after * price;
  }

  // The traded quantity goes part of the way to the target: a reduction goes all of it or is skipped for being
  // under a dollar, and so does a buy that finds room for all it asks for.
  lemma TradedIsPartial(p: Portfolio, x: Target, price: real, floor: real)
    requires price > 0.0
    ensures var before, delta := QtyOf(p, x.ticker), TradedQty(p, x, price, floor);
            var full := x.qty - before;
            var n := Times(full, price);
            && (full >= 0.0 ==> 0.0 <= delta <= full)
            && (full < 0.0 || n < 1.0 || p.cash - floor >= n ==> delta == full || (delta == 0.0 && Abs(n) < 1.0))
  {
    hide QtyOf, Times, TradedQty;
    var full, delta := x.qty - QtyOf(p, x.ticker), TradedQty(p, x, price, floor);
    TradedNotional(p, x, price, floor);
    TimesSign(full, price);
    TimesSign(delta, price);
    if full >= 0.0 {
      TimesCancels(delta, full, price);
    }
    if Times(delta, price) == Times(full, price) {
      TimesCancels(delta, full, price);
      TimesCancels(full, delta, price);
    }
  }

  lemma AfterTrade(p: Portfolio, x: Target, prices: Prices, floor: real, c: Costs)
    requires x.ticker in prices && prices[x.ticker] > 0.0
    ensures var delta := TradedQty(p, x, prices[x.ticker], floor);
            var exact, after := QtyOf(p, x.ticker) + delta, QtyOf(Trade(p, x, prices, floor, c), x.ticker);
            after == exact || after == 0.0
  {
    hide TradedQty, FillOf;
  }
}
