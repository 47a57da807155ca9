// What one call of `execute` makes of the decisions it is given.
module Decisions {
  import opened Decimals
  import opened Sums
  import opened Sorting
  import opened Simulation
  import opened ExecutionBounds

  predicate HasPrice(prices: Prices, t: Ticker) {
    t in prices && prices[t] > 0.0
  }

  // A hold that keeps what is there.
  predicate Keeps(d: Decision, holdKeeps: bool) {
    d.verb == Hold && holdKeeps
  }

  // The last decision on its symbol that is more than a hold to keep.
  ghost predicate LastWord(ds: seq<Decision>, i: nat, holdKeeps: bool) {
    && i < |ds| && !Keeps(ds[i], holdKeeps)
    && forall j :: i < j < |ds| && ds[j].ticker == ds[i].ticker ==> Keeps(ds[j], holdKeeps)
  }

  // The quantity a decision asks for, before scaling: nothing for a sale and for a hold that does not keep,
  // whatever weight it carries, and otherwise the weight's share of the equity.
  ghost predicate Asks(d: Decision, price: real, equity: real, qty: real) {
    if d.verb == Sell || d.verb == Hold then qty == 0.0
    else Times(qty, price) == equity * (d.weightPct / 100.0)
  }

  // Some decision has the last word on the symbol and asks for that quantity.
  ghost predicate Decided(ds: seq<Decision>, prices: Prices, equity: real, holdKeeps: bool, t: Ticker, qty: real) {
    && HasPrice(prices, t)
    && exists i: nat :: LastWord(ds, i, holdKeeps) && ds[i].ticker == t && Asks(ds[i], prices[t], equity, qty)
  }

  // --- resolving -----------------------------------------------------------------------------

  lemma {:induction false} PutIs(targets: seq<Target>, x: Target)
    requires Distinct(targets)
    ensures forall y :: y in PutTarget(targets, x) <==> y == x || (y in targets && y.ticker != x.ticker)
  {
    if targets != [] {
      assert targets == [targets[0]] + targets[1..];
      if targets[0].ticker == x.ticker {
        forall k | 0 < k < |targets|
          ensures targets[k].ticker != x.ticker
        {}
      } else {
        PutIs(targets[1..], x);
      }
    }
  }

  lemma AskedQuantity(d: Decision, prices: Prices, equity: real)
    requires HasPrice(prices, d.ticker)
    ensures forall qty :: Asks(d, prices[d.ticker], equity, qty) <==> qty == TargetOf(d, prices, equity).qty
  {
    var price := prices[d.ticker];
    var share := equity * (d.weightPct / 100.0);
    DividedTimes(share, price);
    forall qty
      ensures Times(qty, price) == share <==> qty == share / price
    {
      if Times(qty, price) == share {
        TimesCancels(qty, share / price, price);
        TimesCancels(share / price, qty, price);
      }
    }
  }

  lemma LastWordOfMore(ds: seq<Decision>, d: Decision, i: nat, holdKeeps: bool)
    ensures LastWord(ds + [d], i, holdKeeps)
            <==> if i < |ds| then LastWord(ds, i, holdKeeps) && (ds[i].ticker == d.ticker ==> Keeps(d, holdKeeps))
                 else i == |ds| && !Keeps(d, holdKeeps)
  {
    hide Keeps;
    var more := ds + [d];
    if i < |ds| && LastWord(ds, i, holdKeeps) && (ds[i].ticker == d.ticker ==> Keeps(d, holdKeeps)) {
      forall j | i < j < |more| && more[j].ticker == more[i].ticker
        ensures Keeps(more[j], holdKeeps)
      {
        assert j < |ds| ==> more[j] == ds[j];
      }
    }
    if LastWord(more, i, holdKeeps) && i < |ds| {
      assert more[i] == ds[i] && more[|ds|] == d;
      forall j | i < j < |ds| && ds[j].ticker == ds[i].ticker
        ensures Keeps(ds[j], holdKeeps)
      {
        assert more[j] == ds[j];
      }
    }
  }

  lemma DecidedOfMore(
      ds: seq<Decision>, d: Decision, prices: Prices, equity: real, holdKeeps: bool, t: Ticker, qty: real)
    ensures Decided(ds + [d], prices, equity, holdKeeps, t, qty)
            <==> if Keeps(d, holdKeeps) || d.ticker != t then Decided(ds, prices, equity, holdKeeps, t, qty)
                 else HasPrice(prices, t) && Asks(d, prices[t], equity, qty)
  {
    hide Keeps, LastWord, Asks;
    var more := ds + [d];
    forall i: nat
      ensures LastWord(more, i, holdKeeps)
              <==> if i < |ds| then LastWord(ds, i, holdKeeps) && (ds[i].ticker == d.ticker ==> Keeps(d, holdKeeps))
                   else i == |ds| && !Keeps(d, holdKeeps)
      ensures LastWord(ds, i, holdKeeps) ==> i < |ds|
    {
      LastWordOfMore(ds, d, i, holdKeeps);
      WordInRange(ds, i, holdKeeps);
    }
    assert forall i :: 0 <= i < |ds| ==> more[i] == ds[i];
    assert more[|ds|] == d;
    if Decided(ds, prices, equity, holdKeeps, t, qty) {
      var i: nat :| LastWord(ds, i, holdKeeps) && ds[i].ticker == t && Asks(ds[i], prices[t], equity, qty);
      assert more[i] == ds[i];
    }
  }

  lemma WordInRange(ds: seq<Decision>, i: nat, holdKeeps: bool)
    ensures LastWord(ds, i, holdKeeps) ==> i < |ds|
  {}

  // The resolved targets are exactly what the decisions with the last word ask for.
  lemma {:induction false} ResolvesLastWords(
      ds: seq<Decision>, prices: Prices, equity: real, holdKeeps: bool, x: Target)
    ensures x in Resolve(ds, prices, equity, holdKeeps)
            <==> Decided(ds, prices, equity, holdKeeps, x.ticker, x.qty)
  {
    hide Decided, TargetOf, PutTarget;
    if ds == [] {
      NobodyDecides(prices, equity, holdKeeps, x);
    } else {
      var rest, d := ds[..|ds| - 1], ds[|ds| - 1];
      assert ds == rest + [d];
      ResolvesLastWords(rest, prices, equity, holdKeeps, x);
      DecidedOfMore(rest, d, prices, equity, holdKeeps, x.ticker, x.qty);
      ResolvedPriced(rest, prices, equity, holdKeeps);
      NoPriceNoTarget(rest, prices, equity, holdKeeps, x.ticker, x.qty);
      if HasPrice(prices, d.ticker) {
        AskedQuantity(d, prices, equity);
        TargetsTicker(d, prices, equity);
        PutIs(Resolve(rest, prices, equity, holdKeeps), TargetOf(d, prices, equity));
      }
    }
  }

  lemma NobodyDecides(prices: Prices, equity: real, holdKeeps: bool, x: Target)
    ensures !Decided([], prices, equity, holdKeeps, x.ticker, x.qty)
  {}

  lemma NoPriceNoTarget(ds: seq<Decision>, prices: Prices, equity: real, holdKeeps: bool, t: Ticker, qty: real)
    ensures Decided(ds, prices, equity, holdKeeps, t, qty) ==> HasPrice(prices, t)
  {}

  lemma TargetsTicker(d: Decision, prices: Prices, equity: real)
    requires HasPrice(prices, d.ticker)
    ensures TargetOf(d, prices, equity).ticker == d.ticker
  {}

  // --- scaling -------------------------------------------------------------------------------

  // Pass 2 scales every target by one factor: by none where the cap is off or the targets fit, and otherwise
  // down to exactly the budget the untargeted holdings leave, or to nothing.
  lemma CapScales(p: Portfolio, prices: Prices, xs: seq<Target>, maxGross: real) returns (scale: real)
    requires Priced(xs, prices)
    ensures 0.0 <= scale <= 1.0
    ensures var ys := Capped(p, prices, xs, maxGross);
            |ys| == |xs| && forall i :: 0 <= i < |xs| ==> ys[i] == Target(xs[i].ticker, Times(xs[i].qty, scale))
    ensures var equity, gross := TotalValue(p), TargetGross(xs, prices);
            var budget := maxGross * equity - HeldGross(p, prices, xs);
            if maxGross <= 0.0 || equity <= 0.0 || gross <= Max(0.0, budget) then scale == 1.0
            else Times(gross, scale) == Max(0.0, budget)
  {
    hide TotalValue, HeldGross, TargetGross, Times;
    var equity, gross := TotalValue(p), TargetGross(xs, prices);
    var budget := Budget(maxGross, equity, HeldGross(p, prices, xs));
    TargetGrossNonNegative(xs, prices);
    forall x
      ensures Times(x, 1.0) == x
    {
      TimesNothing(x);
    }
    if maxGross > 0.0 && equity > 0.0 && gross > budget && gross > 0.0 {
      scale := ScaleInto(budget, gross);
      ScaleIsPart(Max(0.0, budget), gross);
    } else {
      scale := 1.0;
    }
  }

  lemma ScaleIsPart(budget: real, gross: real)
    requires 0.0 <= budget <= gross && gross > 0.0
    ensures 0.0 <= budget / gross <= 1.0 && Times(gross, budget / gross) == budget
    ensures budget == gross ==> budget / gross == 1.0
  {
    hide Times;
    DividedTimes(budget, gross);
    TimesTurns(gross, budget / gross);
    TimesNothing(gross);
    TimesCancels(budget / gross, 1.0, gross);
    TimesTurns(0.0, gross);
    TimesCancels(0.0, budget / gross, gross);
    if budget == gross {
      TimesCancels(1.0, budget / gross, gross);
    }
  }

  // The sizes of the holdings without a target, at the price of the day or, where there is none, at the mark.
  ghost predicate SizesOfOthers(p: Portfolio, prices: Prices, xs: seq<Target>, sizes: map<Ticker, real>) {
    && (forall t :: t in sizes <==> t in p.holdings && forall i :: 0 <= i < |xs| ==> xs[i].ticker != t)
    && forall t :: t in sizes ==>
         var h := p.holdings[t];
         sizes[t] == if t in prices && prices[t] != 0.0 then Abs(h.qty * prices[t]) else Abs(h.qty * h.mark)
  }

  ghost predicate SizesOfTargets(xs: seq<Target>, prices: Prices, sizes: map<Ticker, real>)
    requires Priced(xs, prices)
  {
    && (forall t :: t in sizes ==> exists i :: 0 <= i < |xs| && xs[i].ticker == t)
    && forall i :: 0 <= i < |xs| ==>
         xs[i].ticker in sizes && IsSize(xs[i], prices[xs[i].ticker], sizes[xs[i].ticker])
  }

  predicate IsSize(x: Target, price: real, size: real) {
    size == Abs(x.qty * price)
  }

  lemma OtherSize(p: Portfolio, prices: Prices, t: Ticker)
    requires t in p.holdings
    ensures var h := p.holdings[t];
            && t in Exposures(p, prices)
            && Exposures(p, prices)[t]
               == if t in prices && prices[t] != 0.0 then Abs(h.qty * prices[t]) else Abs(h.qty * h.mark)
  {
    var h := p.holdings[t];
    assert Exposures(p, prices)[t] == Exposure(h.qty, PriceOr(prices, t, h.mark));
  }

  lemma OthersAreSized(p: Portfolio, prices: Prices, xs: seq<Target>, sizes: map<Ticker, real>)
    requires SizesOfOthers(p, prices, xs, sizes)
    ensures HeldGross(p, prices, xs) == Total(sizes)
  {
    var others := Exposures(p, prices) - Tickers(xs);
    assert Exposures(p, prices).Keys == p.holdings.Keys;
    hide Exposures, Abs;
    forall t
      ensures t in others <==> t in sizes
      ensures t in sizes ==> others[t] == sizes[t]
    {
      TargetTickers(xs, t);
      if t in p.holdings {
        OtherSize(p, prices, t);
      }
    }
    assert others == sizes;
  }

  lemma TargetTickers(xs: seq<Target>, t: Ticker)
    ensures t in Tickers(xs) <==> exists i :: 0 <= i < |xs| && xs[i].ticker == t
  {}

  lemma {:induction false} TargetsAreSized(xs: seq<Target>, prices: Prices, sizes: map<Ticker, real>)
    requires Priced(xs, prices) && Distinct(xs) && SizesOfTargets(xs, prices, sizes)
    ensures TargetGross(xs, prices) == Total(sizes)
  {
    if xs == [] {
      assert sizes == map[];
    } else {
      var rest, last := xs[..|xs| - 1], xs[|xs| - 1];
      LastSize(xs, prices, sizes);
      assert Exposure(last.qty, prices[last.ticker]) == sizes[last.ticker];
      WithoutLast(xs, prices, sizes);
      hide Exposure, SizesOfTargets;
      TargetsAreSized(rest, prices, sizes - {last.ticker});
      TotalTake(sizes, last.ticker);
    }
  }

  lemma LastSize(xs: seq<Target>, prices: Prices, sizes: map<Ticker, real>)
    requires Priced(xs, prices) && SizesOfTargets(xs, prices, sizes) && xs != []
    ensures var last := xs[|xs| - 1];
            last.ticker in sizes && sizes[last.ticker] == Exposure(last.qty, prices[last.ticker])
  {}

  lemma WithoutLast(xs: seq<Target>, prices: Prices, sizes: map<Ticker, real>)
    requires Priced(xs, prices) && Distinct(xs) && SizesOfTargets(xs, prices, sizes) && xs != []
    ensures Priced(xs[..|xs| - 1], prices) && Distinct(xs[..|xs| - 1])
    ensures SizesOfTargets(xs[..|xs| - 1], prices, sizes - {xs[|xs| - 1].ticker})
  {
    hide IsSize;
    var rest, last := xs[..|xs| - 1], xs[|xs| - 1];
    var less := sizes - {last.ticker};
    forall t | t in less
      ensures exists i :: 0 <= i < |rest| && rest[i].ticker == t
    {
      var i :| 0 <= i < |xs| && xs[i].ticker == t;
      assert rest[i].ticker == t;
    }
    forall i | 0 <= i < |rest|
      ensures rest[i].ticker in less
      ensures IsSize(rest[i], prices[rest[i].ticker], less[rest[i].ticker])
    {
      assert rest[i] == xs[i] && xs[i].ticker != last.ticker;
    }
  }

  // Where the cap is on and the targets do not fit, it scales them to exactly what the others leave of it.
  lemma CapFillsBudget(
      p: Portfolio, prices: Prices, xs: seq<Target>, maxGross: real, others: map<Ticker, real>,
      asked: map<Ticker, real>)
    returns (scale: real)
    requires Priced(xs, prices) && Distinct(xs)
    requires SizesOfOthers(p, prices, xs, others) && SizesOfTargets(xs, prices, asked)
    ensures 0.0 <= scale <= 1.0
    ensures var ys := Capped(p, prices, xs, maxGross);
            |ys| == |xs| && forall i :: 0 <= i < |xs| ==> ys[i] == Target(xs[i].ticker, Times(xs[i].qty, scale))
    ensures var budget := maxGross * TotalValue(p) - Total(others);
            if maxGross <= 0.0 || TotalValue(p) <= 0.0 || Total(asked) <= Max(0.0, budget) then scale == 1.0
            else Times(Total(asked), scale) == Max(0.0, budget)
  {
    hide Capped, TotalValue, HeldGross, TargetGross, SizesOfOthers, SizesOfTargets, Times;
    OthersAreSized(p, prices, xs, others);
    TargetsAreSized(xs, prices, asked);
    scale := CapScales(p, prices, xs, maxGross);
  }

  // --- the whole call ------------------------------------------------------------------------

  // The plan of a call: one target for every symbol on which a decision has the last word at a price, what that
  // decision asks for times one scale for all.
  lemma PlanFollowsDecisions(
      p: Portfolio, ds: seq<Decision>, prices: Prices, holdKeeps: bool, maxGross: real)
    returns (scale: real)
    ensures 0.0 <= scale <= 1.0 && (maxGross <= 0.0 || TotalValue(p) <= 0.0 ==> scale == 1.0)
    ensures var xs := Plan(p, ds, prices, holdKeeps, maxGross);
            && (forall k :: 0 <= k < |xs| ==>
                  exists qty :: Decided(ds, prices, TotalValue(p), holdKeeps, xs[k].ticker, qty)
                                && xs[k].qty == Times(qty, scale))
            && (forall t, qty :: Decided(ds, prices, TotalValue(p), holdKeeps, t, qty) ==>
                  Target(t, Times(qty, scale)) in xs)
  {
    hide TotalValue, Resolve, Capped, Decided, Times, Sort, ByNotional;
    var equity := TotalValue(p);
    var targets := Resolve(ds, prices, equity, holdKeeps);
    ResolvedPriced(ds, prices, equity, holdKeeps);
    scale := CapScales(p, prices, targets, maxGross);
    var capped := Capped(p, prices, targets, maxGross);
    var xs := Sort(capped, ByNotional(p, prices));
    SameElements(capped, xs);
    forall k | 0 <= k < |xs|
      ensures exists qty :: Decided(ds, prices, equity, holdKeeps, xs[k].ticker, qty) && xs[k].qty == Times(qty, scale)
    {
      assert xs[k] in capped;
      var i :| 0 <= i < |capped| && capped[i] == xs[k];
      ResolvesLastWords(ds, prices, equity, holdKeeps, targets[i]);
      assert Decided(ds, prices, equity, holdKeeps, xs[k].ticker, targets[i].qty);
    }
    forall t, qty | Decided(ds, prices, equity, holdKeeps, t, qty)
      ensures Target(t, Times(qty, scale)) in xs
    {
      ResolvesLastWords(ds, prices, equity, holdKeeps, Target(t, qty));
      var i :| 0 <= i < |targets| && targets[i] == Target(t, qty);
      assert capped[i] in capped;
    }
  }

  // A symbol is left alone when it has no price, or when every decision on it is a hold to keep.
  ghost predicate LeftAlone(ds: seq<Decision>, prices: Prices, holdKeeps: bool, t: Ticker) {
    !HasPrice(prices, t) || forall i :: 0 <= i < |ds| && ds[i].ticker == t ==> Keeps(ds[i], holdKeeps)
  }

  lemma NotDecided(ds: seq<Decision>, prices: Prices, equity: real, holdKeeps: bool, t: Ticker, qty: real)
    requires LeftAlone(ds, prices, holdKeeps, t)
    ensures !Decided(ds, prices, equity, holdKeeps, t, qty)
  {}

  // Its holding, and its absence, survive the call.
  lemma HoldsAreKept(
      p: Portfolio, ds: seq<Decision>, prices: Prices, holdKeeps: bool, maxGross: real, c: Costs, t: Ticker)
    requires LeftAlone(ds, prices, holdKeeps, t)
    ensures var q := Execute(p, ds, prices, holdKeeps, maxGross, c);
            HoldingOf(q, t) == HoldingOf(p, t) && (t in q.holdings <==> t in p.holdings)
  {
    hide Plan, CashFloor, TotalValue, Decided, LeftAlone, Times, Trades;
    var xs := Plan(p, ds, prices, holdKeeps, maxGross);
    var scale := PlanFollowsDecisions(p, ds, prices, holdKeeps, maxGross);
    forall k | 0 <= k < |xs|
      ensures xs[k].ticker != t
    {
      var qty :| Decided(ds, prices, TotalValue(p), holdKeeps, xs[k].ticker, qty) && xs[k].qty == Times(qty, scale);
      if xs[k].ticker == t {
        NotDecided(ds, prices, TotalValue(p), holdKeeps, t, qty);
      }
    }
    UntouchedByTrades(p.(fills := []), xs, prices, CashFloor(TotalValue(p), maxGross), c, t);
  }

  // Where a trade takes a holding: a reduction all the way or, under a dollar, nowhere; an increase part of the
  // way. What is left under the dust threshold is written off.
  ghost predicate Towards(before: real, target: real, after: real, price: real) {
    exists exact :: Reaches(before, target, exact, price)
                    && (after == exact || (after == 0.0 && Abs(exact) < 0.000000001))
  }

  predicate Reaches(before: real, target: real, exact: real, price: real) {
    if target < before then exact == target || (exact == before && Times(before - target, price) < 1.0)
    else before <= exact <= target
  }

  lemma AfterIsExact(p: Portfolio, x: Target, prices: Prices, floor: real, c: Costs)
    requires x.ticker in prices && prices[x.ticker] > 0.0
    ensures var exact := QtyOf(p, x.ticker) + TradedQty(p, x, prices[x.ticker], floor);
            var after := QtyOf(Trade(p, x, prices, floor, c), x.ticker);
            after == exact || (after == 0.0 && Abs(exact) < 0.000000001)
  {
    hide TradedQty, FillOf, Filled;
    var delta, mid := TradedQty(p, x, prices[x.ticker], floor), prices[x.ticker];
    FilledOrDust(HoldingOf(p, x.ticker), delta, FillOf(x.ticker, delta, mid, c).price, mid);
  }

  lemma FilledOrDust(h: Holding, delta: real, price: real, mid: real)
    ensures var after := Filled(h, delta, price, mid).qty;
            after == h.qty + delta || (after == 0.0 && Abs(h.qty + delta) < 0.000000001)
  {
    var qty := h.qty + delta;
    if Abs(qty) < 0.000000001 {
      assert Filled(h, delta, price, mid).qty == 0.0;
    } else {
      assert Filled(h, delta, price, mid).qty == qty;
    }
  }

  lemma TradeGoesTowards(p: Portfolio, x: Target, prices: Prices, floor: real, c: Costs)
    requires x.ticker in prices && prices[x.ticker] > 0.0
    ensures Towards(QtyOf(p, x.ticker), x.qty, QtyOf(Trade(p, x, prices, floor, c), x.ticker), prices[x.ticker])
  {
    hide Times, TradedQty, Trade, QtyOf;
    var price, before := prices[x.ticker], QtyOf(p, x.ticker);
    TradedIsPartial(p, x, price, floor);
    AfterIsExact(p, x, prices, floor, c);
    TimesFlips(before, x.qty, price);
    var exact := before + TradedQty(p, x, price, floor);
    assert Reaches(before, x.qty, exact, price);
  }

  lemma TimesFlips(x: real, y: real, k: real)
    ensures Times(x - y, k) == -Times(y - x, k)
  {}

  // Otherwise the decision with the last word moves the holding towards what it asks for, times the one scale.
  lemma DecisionIsFollowed(
      p: Portfolio, ds: seq<Decision>, prices: Prices, holdKeeps: bool, maxGross: real, c: Costs, i: nat, qty: real)
    returns (scale: real)
    requires LastWord(ds, i, holdKeeps) && HasPrice(prices, ds[i].ticker)
    requires Asks(ds[i], prices[ds[i].ticker], TotalValue(p), qty)
    ensures 0.0 <= scale <= 1.0 && (maxGross <= 0.0 || TotalValue(p) <= 0.0 ==> scale == 1.0)
    ensures var t := ds[i].ticker;
            Towards(QtyOf(p, t), Times(qty, scale), QtyOf(Execute(p, ds, prices, holdKeeps, maxGross, c), t), prices[t])
  {
    hide Plan, CashFloor, TotalValue, LastWord, Asks, Times, Trades, Towards;
    WordInRange(ds, i, holdKeeps);
    var t, xs := ds[i].ticker, Plan(p, ds, prices, holdKeeps, maxGross);
    scale := PlanFollowsDecisions(p, ds, prices, holdKeeps, maxGross);
    assert Decided(ds, prices, TotalValue(p), holdKeeps, t, qty);
    var k :| 0 <= k < |xs| && xs[k] == Target(t, Times(qty, scale));
    PlanIsOrdered(p, ds, prices, holdKeeps, maxGross);
    TurnGoesTowards(p.(fills := []), xs, prices, CashFloor(TotalValue(p), maxGross), c, k);
  }

  lemma TurnGoesTowards(p: Portfolio, xs: seq<Target>, prices: Prices, floor: real, c: Costs, k: nat)
    requires Priced(xs, prices) && Distinct(xs) && k < |xs|
    ensures var t := xs[k].ticker;
            Towards(QtyOf(p, t), xs[k].qty, QtyOf(Trades(p, xs, prices, floor, c), t), prices[t])
  {
    hide Trade, Towards;
    assert xs[..|xs|] == xs;
    LastTouch(p, xs, prices, floor, c, k, |xs|);
    PrefixPriced(xs, prices, k);
    UntouchedByTrades(p, xs[..k], prices, floor, c, xs[k].ticker);
    assert xs[..k + 1][..k] == xs[..k] && xs[..k + 1][k] == xs[k];
    TradeGoesTowards(Trades(p, xs[..k], prices, floor, c), xs[k], prices, floor, c);
  }

  // A sale with the last word, and a hold that does not keep, sell all of a long holding, unless it is worth
  // less than a dollar.
  lemma SalesSell(
      p: Portfolio, ds: seq<Decision>, prices: Prices, holdKeeps: bool, maxGross: real, c: Costs, i: nat)
    requires LastWord(ds, i, holdKeeps) && HasPrice(prices, ds[i].ticker)
    requires ds[i].verb == Sell || ds[i].verb == Hold
    requires QtyOf(p, ds[i].ticker) > 0.0
    ensures var t := ds[i].ticker;
            var after := QtyOf(Execute(p, ds, prices, holdKeeps, maxGross, c), t);
            after == 0.0 || (after == QtyOf(p, t) && Times(QtyOf(p, t), prices[t]) < 1.0)
  {
    hide Execute, TotalValue, LastWord, Times, QtyOf;
    WordInRange(ds, i, holdKeeps);
    var scale := DecisionIsFollowed(p, ds, prices, holdKeeps, maxGross, c, i, 0.0);
    TimesNothing(scale);
  }
}
