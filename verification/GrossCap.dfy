// The gross exposure of the book that one call of `execute` leaves behind.
module GrossCap {
  import opened Decimals
  import opened Sums
  import opened Sorting
  import opened Simulation
  import opened ExecutionBounds

  ghost function Gross(p: Portfolio, prices: Prices): real {
    Total(Exposures(p, prices))
  }

  ghost predicate LongOnly(p: Portfolio) {
    forall t :: t in p.holdings ==> p.holdings[t].qty >= 0.0
  }

  ghost predicate NonShort(ds: seq<Decision>) {
    forall i :: 0 <= i < |ds| ==> ds[i].weightPct >= 0.0
  }

  ghost predicate NonNegative(xs: seq<Target>) {
    forall i :: 0 <= i < |xs| ==> xs[i].qty >= 0.0
  }

  // --- targets -------------------------------------------------------------------------------

  lemma ShareIsNonNegative(equity: real, w: real, price: real)
    requires equity > 0.0 && w >= 0.0 && price > 0.0
    ensures (equity * w) / price >= 0.0
  {
    var x := (equity * w) / price;
    assert equity * w >= 0.0;
    assert x * price == equity * w;
  }

  lemma {:induction false} PutKeepsNonNegative(xs: seq<Target>, x: Target)
    requires NonNegative(xs) && x.qty >= 0.0
    ensures NonNegative(PutTarget(xs, x))
  {
    forall i | 0 <= i < |PutTarget(xs, x)|
      ensures PutTarget(xs, x)[i].qty >= 0.0
    {
      assert PutTarget(xs, x)[i] == x || PutTarget(xs, x)[i] in xs;
    }
  }

  lemma {:induction false} ResolvedNonNegative(ds: seq<Decision>, prices: Prices, equity: real, holdKeeps: bool)
    requires NonShort(ds) && equity > 0.0
    ensures NonNegative(Resolve(ds, prices, equity, holdKeeps))
  {
    hide PutTarget;
    if ds != [] {
      var d := ds[|ds| - 1];
      ResolvedNonNegative(ds[..|ds| - 1], prices, equity, holdKeeps);
      if !Skipped(d, prices, holdKeeps) {
        ShareIsNonNegative(equity, d.weightPct / 100.0, prices[d.ticker]);
        PutKeepsNonNegative(Resolve(ds[..|ds| - 1], prices, equity, holdKeeps), TargetOf(d, prices, equity));
      }
    }
  }

  lemma ScaledNonNegative(xs: seq<Target>, scale: real)
    requires NonNegative(xs) && scale >= 0.0
    ensures NonNegative(Scaled(xs, scale))
  {
    forall i | 0 <= i < |xs|
      ensures Scaled(xs, scale)[i].qty >= 0.0
    {
      ProductNotNegative(xs[i].qty, scale);
    }
  }

  lemma ExposureScales(qty: real, price: real, scale: real)
    requires scale >= 0.0
    ensures Exposure(Times(qty, scale), price) == Times(scale, Exposure(qty, price))
  {
    var e := qty * price;
    assert qty * scale * price == scale * e;
    if e >= 0.0 {
      ProductNotNegative(scale, e);
    } else {
      ProductNotNegative(scale, -e);
      assert scale * -e == -(scale * e);
    }
  }

  lemma {:induction false} TargetGrossScales(xs: seq<Target>, prices: Prices, scale: real)
    requires Priced(xs, prices) && scale >= 0.0
    ensures Priced(Scaled(xs, scale), prices)
    ensures TargetGross(Scaled(xs, scale), prices) == Times(scale, TargetGross(xs, prices))
  {
    hide Exposure, Scaled, Times;
    TimesNothing(scale);
    if xs != [] {
      var n := |xs| - 1;
      TargetGrossScales(xs[..n], prices, scale);
      ExposureScales(xs[n].qty, prices[xs[n].ticker], scale);
      ScaledPrefix(xs, scale, n);
      TimesSum(scale, TargetGross(xs, prices), TargetGross(xs[..n], prices),
               Exposure(xs[n].qty, prices[xs[n].ticker]));
    }
  }

  lemma ScaledPrefix(xs: seq<Target>, scale: real, n: nat)
    requires n <= |xs|
    ensures Scaled(xs, scale)[..n] == Scaled(xs[..n], scale)
  {
    var ys, zs := Scaled(xs, scale)[..n], Scaled(xs[..n], scale);
    forall i | 0 <= i < n
      ensures ys[i] == zs[i]
    {
      assert xs[..n][i] == xs[i];
    }
  }

  lemma InsertedPriced(x: Target, xs: seq<Target>, prices: Prices, le: Ordering<Target>)
    requires x.ticker in prices && prices[x.ticker] > 0.0 && Priced(xs, prices)
    ensures Priced(Insert(x, xs, le), prices)
  {
    var ys := Insert(x, xs, le);
    assert multiset(ys) == multiset(xs + [x]);
    SameElements(xs + [x], ys);
    forall i | 0 <= i < |ys|
      ensures ys[i].ticker in prices && prices[ys[i].ticker] > 0.0
    {
      assert ys[i] in xs + [x];
    }
  }

  lemma {:induction false} TargetGrossOfInsert(x: Target, xs: seq<Target>, prices: Prices, le: Ordering<Target>)
    requires x.ticker in prices && prices[x.ticker] > 0.0 && Priced(xs, prices)
    ensures Priced(Insert(x, xs, le), prices)
    ensures TargetGross(Insert(x, xs, le), prices) == TargetGross(xs, prices) + Exposure(x.qty, prices[x.ticker])
  {
    hide Exposure;
    InsertedPriced(x, xs, prices, le);
    if xs == [] {
      assert [x][..0] == [];
    } else {
      var n := |xs| - 1;
      assert (xs + [x])[..n + 1] == xs;
      if !le(xs[n], x) {
        var rest := Insert(x, xs[..n], le);
        TargetGrossOfInsert(x, xs[..n], prices, le);
        assert (rest + [xs[n]])[..|rest|] == rest;
      }
    }
  }

  lemma {:induction false} TargetGrossOfSort(xs: seq<Target>, prices: Prices, le: Ordering<Target>)
    requires Priced(xs, prices)
    ensures Priced(Sort(xs, le), prices)
    ensures TargetGross(Sort(xs, le), prices) == TargetGross(xs, prices)
  {
    hide Exposure, Insert;
    if xs != [] {
      var n := |xs| - 1;
      TargetGrossOfSort(xs[..n], prices, le);
      TargetGrossOfInsert(xs[n], Sort(xs[..n], le), prices, le);
    }
  }

  // Pass 2 brings the targeted names within the budget the untargeted ones leave.
  lemma CappedWithinBudget(p: Portfolio, prices: Prices, xs: seq<Target>, maxGross: real)
    requires Priced(xs, prices) && maxGross > 0.0 && TotalValue(p) > 0.0
    ensures var ys := Capped(p, prices, xs, maxGross);
            Priced(ys, prices) && |ys| == |xs| && Tickers(ys) == Tickers(xs)
            && (NonNegative(xs) ==> NonNegative(ys))
            && TargetGross(ys, prices) <= Max(0.0, maxGross * TotalValue(p) - HeldGross(p, prices, xs))
  {
    hide TotalValue, HeldGross, TargetGross, NonNegative, Times;
    var gross := TargetGross(xs, prices);
    TargetGrossNonNegative(xs, prices);
    var budget := maxGross * TotalValue(p) - HeldGross(p, prices, xs);
    if gross > budget && gross > 0.0 {
      var scale := Max(0.0, budget) / gross;
      ScaleFits(Max(0.0, budget), gross);
      TargetGrossScales(xs, prices, scale);
      ScaledTickers(xs, scale);
      if NonNegative(xs) {
        ScaledNonNegative(xs, scale);
      }
    }
  }

  lemma ScaledTickers(xs: seq<Target>, scale: real)
    ensures Tickers(Scaled(xs, scale)) == Tickers(xs)
  {
    forall x | x in xs
      ensures x.ticker in Tickers(Scaled(xs, scale))
    {
      var i :| 0 <= i < |xs| && xs[i] == x;
      assert Scaled(xs, scale)[i].ticker == x.ticker;
      assert Scaled(xs, scale)[i] in Scaled(xs, scale);
    }
    forall y | y in Scaled(xs, scale)
      ensures y.ticker in Tickers(xs)
    {
      var i :| 0 <= i < |xs| && Scaled(xs, scale)[i] == y;
      assert xs[i] in xs;
    }
  }

  lemma ScaleFits(budget: real, gross: real)
    requires gross > 0.0 && budget >= 0.0
    ensures budget / gross >= 0.0 && Times(budget / gross, gross) == budget
  {}

  // --- after trading -------------------------------------------------------------------------

  lemma AfterItsTurn(p: Portfolio, xs: seq<Target>, prices: Prices, floor: real, c: Costs, i: nat)
    requires Priced(xs, prices) && Distinct(xs) && i < |xs|
    ensures var before, after := QtyOf(p, xs[i].ticker), QtyOf(Trades(p, xs, prices, floor, c), xs[i].ticker);
            && Abs(after) <= Max(Abs(before), Abs(xs[i].qty))
            && (before >= 0.0 && xs[i].qty >= 0.0 ==> after >= 0.0)
            && (FindsRoom(before, TradeNotional(p, xs[i], prices), CashAfter(p, xs, prices, floor, c, i) - floor) ==>
                  Exposure(after, prices[xs[i].ticker]) <= Exposure(xs[i].qty, prices[xs[i].ticker]) + 1.0)
  {
    hide Trade, Exposure, TradeNotional, FindsRoom;
    assert xs[..|xs|] == xs;
    LastTouch(p, xs, prices, floor, c, i, |xs|);
    PrefixPriced(xs, prices, i);
    UntouchedByTrades(p, xs[..i], prices, floor, c, xs[i].ticker);
    NotionalAtTurn(p, xs, prices, floor, c, i);
    assert xs[..i + 1][..i] == xs[..i] && xs[..i + 1][i] == xs[i];
    TradeStaysBetween(Trades(p, xs[..i], prices, floor, c), xs[i], prices, floor, c);
  }

  // The exposure of the listed names in a book.
  ghost function ExposureAt(m: map<Ticker, real>, xs: seq<Target>): real {
    if xs == [] then 0.0
    else
      var t := xs[|xs| - 1].ticker;
      ExposureAt(m, xs[..|xs| - 1]) + if t in m then m[t] else 0.0
  }

  lemma {:induction false} SplitOffTargets(m: map<Ticker, real>, xs: seq<Target>)
    requires Distinct(xs)
    ensures Total(m) == ExposureAt(m, xs) + Total(m - Tickers(xs))
  {
    if xs == [] {
      assert m - Tickers(xs) == m;
    } else {
      var n := |xs| - 1;
      var t, rest := xs[n].ticker, m - Tickers(xs[..n]);
      SplitOffTargets(m, xs[..n]);
      assert Tickers(xs) == Tickers(xs[..n]) + {t} by {
        assert xs == xs[..n] + [xs[n]];
      }
      assert m - Tickers(xs) == rest - {t};
      assert t !in Tickers(xs[..n]);
      TotalPut(rest, t, 0.0);
    }
  }

  lemma {:induction false} TargetedExposure(m: map<Ticker, real>, xs: seq<Target>, prices: Prices)
    requires Priced(xs, prices)
    requires forall i :: 0 <= i < |xs| ==>
               (if xs[i].ticker in m then m[xs[i].ticker] else 0.0)
               <= Exposure(xs[i].qty, prices[xs[i].ticker]) + 1.0
    ensures ExposureAt(m, xs) <= TargetGross(xs, prices) + |xs| as real
  {
    hide Exposure;
    if xs != [] {
      var n := |xs| - 1;
      assert forall i :: 0 <= i < n ==> xs[..n][i] == xs[i];
      TargetedExposure(m, xs[..n], prices);
    }
  }

  lemma UntargetedUnchanged(p: Portfolio, xs: seq<Target>, prices: Prices, floor: real, c: Costs)
    requires Priced(xs, prices)
    ensures Exposures(Trades(p, xs, prices, floor, c), prices) - Tickers(xs) == Exposures(p, prices) - Tickers(xs)
  {
    hide Exposure, Trades;
    var after := Trades(p, xs, prices, floor, c);
    var was, now := Exposures(p, prices) - Tickers(xs), Exposures(after, prices) - Tickers(xs);
    forall t | t !in Tickers(xs)
      ensures HoldingOf(after, t) == HoldingOf(p, t) && (t in after.holdings <==> t in p.holdings)
    {
      forall i | 0 <= i < |xs|
        ensures xs[i].ticker != t
      {
        assert xs[i] in xs;
      }
      UntouchedByTrades(p, xs, prices, floor, c, t);
    }
    assert was.Keys == now.Keys;
  }

  // Every planned cover of a short finds room for all it asks for at its turn.
  ghost predicate AllFindRoom(p: Portfolio, xs: seq<Target>, prices: Prices, floor: real, c: Costs)
    requires Priced(xs, prices)
  {
    forall i :: 0 <= i < |xs| ==>
      FindsRoom(QtyOf(p, xs[i].ticker), TradeNotional(p, xs[i], prices), CashAfter(p, xs, prices, floor, c, i) - floor)
  }

  lemma TradedExposure(p: Portfolio, xs: seq<Target>, prices: Prices, floor: real, c: Costs)
    requires Priced(xs, prices) && Distinct(xs) && AllFindRoom(p, xs, prices, floor, c)
    ensures ExposureAt(Exposures(Trades(p, xs, prices, floor, c), prices), xs)
            <= TargetGross(xs, prices) + |xs| as real
  {
    hide Exposure, Trades, FindsRoom, TradeNotional, CashAfter;
    var after := Trades(p, xs, prices, floor, c);
    var m := Exposures(after, prices);
    forall i | 0 <= i < |xs|
      ensures (if xs[i].ticker in m then m[xs[i].ticker] else 0.0)
              <= Exposure(xs[i].qty, prices[xs[i].ticker]) + 1.0
    {
      AfterItsTurn(p, xs, prices, floor, c, i);
      ExposureIsNonNegative(xs[i].qty, prices[xs[i].ticker]);
    }
    TargetedExposure(m, xs, prices);
  }

  lemma ExposureIsNonNegative(qty: real, price: real)
    ensures Exposure(qty, price) >= 0.0
  {}

  lemma SameTickers(xs: seq<Target>, ys: seq<Target>)
    requires multiset(xs) == multiset(ys)
    ensures Tickers(xs) == Tickers(ys) && |xs| == |ys|
    ensures NonNegative(xs) ==> NonNegative(ys)
  {
    SameElements(xs, ys);
    forall i | NonNegative(xs) && 0 <= i < |ys|
      ensures ys[i].qty >= 0.0
    {
      assert ys[i] in xs;
    }
  }

  // The targets a call resolves, before scaling: one per name it acts on.
  ghost function Targets(p: Portfolio, ds: seq<Decision>, prices: Prices, holdKeeps: bool): (r: seq<Target>)
    ensures Priced(r, prices)
  {
    ResolvedPriced(ds, prices, TotalValue(p), holdKeeps);
    Resolve(ds, prices, TotalValue(p), holdKeeps)
  }

  lemma PlanWithinBudget(p: Portfolio, ds: seq<Decision>, prices: Prices, holdKeeps: bool, maxGross: real)
    requires TotalValue(p) > 0.0 && maxGross > 0.0
    ensures var xs, targets := Plan(p, ds, prices, holdKeeps, maxGross), Targets(p, ds, prices, holdKeeps);
            && (NonShort(ds) ==> NonNegative(xs)) && Tickers(xs) == Tickers(targets) && |xs| == |targets|
            && TargetGross(xs, prices)
               <= Max(0.0, maxGross * TotalValue(p) - HeldGross(p, prices, targets))
  {
    hide TotalValue, HeldGross, TargetGross, Resolve, Capped, Sort, ByNotional, Tickers, NonNegative, NonShort;
    var targets := Targets(p, ds, prices, holdKeeps);
    if NonShort(ds) {
      ResolvedNonNegative(ds, prices, TotalValue(p), holdKeeps);
    }
    CappedWithinBudget(p, prices, targets, maxGross);
    var capped := Capped(p, prices, targets, maxGross);
    TargetGrossOfSort(capped, prices, ByNotional(p, prices));
    SameTickers(capped, Sort(capped, ByNotional(p, prices)));
  }

  // Gross cap. Where every planned cover of a short finds room, the book after `execute` stays within the gross
  // budget, or within what the untargeted holdings already use, up to a dollar of dust per targeted name.
  lemma CapWithRoom(p: Portfolio, ds: seq<Decision>, prices: Prices, holdKeeps: bool, maxGross: real, c: Costs)
    requires TotalValue(p) > 0.0 && maxGross > 0.0
    requires AllFindRoom(p.(fills := []), Plan(p, ds, prices, holdKeeps, maxGross), prices,
                         CashFloor(TotalValue(p), maxGross), c)
    ensures var targets := Targets(p, ds, prices, holdKeeps);
            Gross(Execute(p, ds, prices, holdKeeps, maxGross, c), prices)
            <= Max(maxGross * TotalValue(p), HeldGross(p, prices, targets)) + |targets| as real
  {
    hide TotalValue, Plan, Targets, Exposures, TargetGross, Trades, CashFloor, ExposureAt, Tickers, AllFindRoom;
    var xs, targets := Plan(p, ds, prices, holdKeeps, maxGross), Targets(p, ds, prices, holdKeeps);
    var q, floor := p.(fills := []), CashFloor(TotalValue(p), maxGross);
    SameHoldings(p, q, prices);
    PlanIsOrdered(p, ds, prices, holdKeeps, maxGross);
    PlanWithinBudget(p, ds, prices, holdKeeps, maxGross);
    UntargetedUnchanged(q, xs, prices, floor, c);
    TradedExposure(q, xs, prices, floor, c);
    SplitOffTargets(Exposures(Trades(q, xs, prices, floor, c), prices), xs);
  }

  // Long-only books cover nothing, whatever they are asked to do, shorts included.
  lemma GrossIsCapped(
      p: Portfolio, ds: seq<Decision>, prices: Prices, holdKeeps: bool, maxGross: real, c: Costs)
    requires LongOnly(p) && TotalValue(p) > 0.0 && maxGross > 0.0
    ensures var targets := Targets(p, ds, prices, holdKeeps);
            Gross(Execute(p, ds, prices, holdKeeps, maxGross, c), prices)
            <= Max(maxGross * TotalValue(p), HeldGross(p, prices, targets)) + |targets| as real
  {
    hide TotalValue, Plan, Targets, Exposures, Trades, CashFloor, TradeNotional, CashAfter;
    var xs := Plan(p, ds, prices, holdKeeps, maxGross);
    forall i | 0 <= i < |xs|
      ensures QtyOf(p.(fills := []), xs[i].ticker) >= 0.0
    {}
    CapWithRoom(p, ds, prices, holdKeeps, maxGross, c);
  }

  // Every planned cover of a short finds room for its whole notional, read off the plan before the call.
  ghost predicate CoversFit(
      p: Portfolio, xs: seq<Target>, prices: Prices, floor: real, c: Costs, sells: nat)
    requires sells <= |xs|
  {
    var room, ns := RoomToBuy(p, xs, prices, floor, c, sells), Notionals(p, xs, prices);
    forall i :: sells <= i < |xs| && QtyOf(p, xs[i].ticker) < 0.0 && ns[i] >= 1.0 ==>
      RoomAfter(room, ns[sells..i], Drag(c)) >= ns[i]
  }

  // With shorts the same cap holds whenever the covers fit.
  lemma GrossIsCappedWithShorts(
      p: Portfolio, ds: seq<Decision>, prices: Prices, holdKeeps: bool, maxGross: real, c: Costs, sells: nat)
    requires Plausible(c) && TotalValue(p) > 0.0 && maxGross > 0.0
    requires var xs := Plan(p, ds, prices, holdKeeps, maxGross);
             SplitsAt(p, xs, prices, sells)
             && CoversFit(p, xs, prices, CashFloor(TotalValue(p), maxGross), c, sells)
    ensures var targets := Targets(p, ds, prices, holdKeeps);
            Gross(Execute(p, ds, prices, holdKeeps, maxGross, c), prices)
            <= Max(maxGross * TotalValue(p), HeldGross(p, prices, targets)) + |targets| as real
  {
    hide TotalValue, Plan, Targets, Exposures, Trades, CashFloor, TradeNotional, CashAfter, Execute, FindsRoom,
         CoversFit, QtyOf;
    var xs, floor := Plan(p, ds, prices, holdKeeps, maxGross), CashFloor(TotalValue(p), maxGross);
    PlanIsOrdered(p, ds, prices, holdKeeps, maxGross);
    forall i | 0 <= i < |xs|
      ensures FindsRoom(QtyOf(p.(fills := []), xs[i].ticker), TradeNotional(p.(fills := []), xs[i], prices),
                        CashAfter(p.(fills := []), xs, prices, floor, c, i) - floor)
    {
      CoverFindsRoom(p, xs, prices, floor, c, sells, i);
    }
    CapWithRoom(p, ds, prices, holdKeeps, maxGross, c);
  }

  lemma CoverFindsRoom(
      p: Portfolio, xs: seq<Target>, prices: Prices, floor: real, c: Costs, sells: nat, i: nat)
    requires Plausible(c) && Priced(xs, prices) && Distinct(xs) && SplitsAt(p, xs, prices, sells)
    requires CoversFit(p, xs, prices, floor, c, sells) && i < |xs|
    ensures var q := p.(fills := []);
            FindsRoom(QtyOf(q, xs[i].ticker), TradeNotional(q, xs[i], prices),
                      CashAfter(q, xs, prices, floor, c, i) - floor)
  {
    hide TradeNotional, CashAfter, Proceeds, RoomAfter, Drag, Keep;
    var q := p.(fills := []);
    SameNotionals(p, q, xs, prices);
    if i >= sells {
      CashAfterReductions(q, xs, prices, floor, c, sells);
      RoomFollowsCash(q, xs, prices, floor, c, sells, i);
      assert Notionals(p, xs, prices)[i] == TradeNotional(p, xs[i], prices);
    }
  }

  lemma SameHoldings(p: Portfolio, q: Portfolio, prices: Prices)
    requires p.holdings == q.holdings
    ensures Exposures(p, prices) == Exposures(q, prices) && (LongOnly(p) ==> LongOnly(q))
  {}

  // For any book, shorts included, no name ends larger than it was or than its target.
  lemma NoNameOvershoots(
      p: Portfolio, ds: seq<Decision>, prices: Prices, holdKeeps: bool, maxGross: real, c: Costs, i: nat)
    requires i < |Plan(p, ds, prices, holdKeeps, maxGross)|
    ensures var x := Plan(p, ds, prices, holdKeeps, maxGross)[i];
            Abs(QtyOf(Execute(p, ds, prices, holdKeeps, maxGross, c), x.ticker))
            <= Max(Abs(QtyOf(p, x.ticker)), Abs(x.qty))
  {
    hide TotalValue, Plan, Trades, CashFloor;
    PlanIsOrdered(p, ds, prices, holdKeeps, maxGross);
    AfterItsTurn(p.(fills := []), Plan(p, ds, prices, holdKeeps, maxGross), prices,
                 CashFloor(TotalValue(p), maxGross), c, i);
  }

  // A long-only book with non-short decisions stays long-only.
  lemma StaysLongOnly(p: Portfolio, ds: seq<Decision>, prices: Prices, holdKeeps: bool, maxGross: real, c: Costs)
    requires LongOnly(p) && NonShort(ds) && TotalValue(p) > 0.0 && maxGross > 0.0
    ensures LongOnly(Execute(p, ds, prices, holdKeeps, maxGross, c))
  {
    hide TotalValue, Plan, Trades, CashFloor, NonShort;
    var xs, q, floor := Plan(p, ds, prices, holdKeeps, maxGross), p.(fills := []), CashFloor(TotalValue(p), maxGross);
    PlanIsOrdered(p, ds, prices, holdKeeps, maxGross);
    PlanWithinBudget(p, ds, prices, holdKeeps, maxGross);
    var after := Trades(q, xs, prices, floor, c);
    forall t | t in after.holdings
      ensures after.holdings[t].qty >= 0.0
    {
      StaysLong(q, xs, prices, floor, c, t);
    }
  }

  lemma StaysLong(p: Portfolio, xs: seq<Target>, prices: Prices, floor: real, c: Costs, t: Ticker)
    requires Priced(xs, prices) && Distinct(xs) && LongOnly(p) && NonNegative(xs)
    ensures QtyOf(Trades(p, xs, prices, floor, c), t) >= 0.0
  {
    hide Trades, FindsRoom, TradeNotional, CashAfter, Exposure;
    if i :| 0 <= i < |xs| && xs[i].ticker == t {
      AfterItsTurn(p, xs, prices, floor, c, i);
    } else {
      UntouchedByTrades(p, xs, prices, floor, c, t);
    }
  }

  // --- a cap that fails ----------------------------------------------------------------------

  // No cash, short ten A, long twenty C: covering A is asked for, but there is nothing to pay with.
  const SHORT_BOOK :=
    Portfolio(0.0, map["A" := Holding(-10.0, 10.0, 10.0), "C" := Holding(20.0, 10.0, 10.0)], [], 0.0)

  const TENS: Prices := map["A" := 10.0, "C" := 10.0]
  const COVER := Target("A", 0.0)
  const FREE := Costs(0.0, 0.0, 0.0, 0.0)

  lemma TwoEntries(m: map<Ticker, real>, x: real, y: real)
    requires m == map["A" := x, "C" := y]
    ensures Total(m) == x + y && Total(m - {"A"}) == y
  {
    TotalTake(m, "A");
    TotalTake(m - {"A"}, "C");
    assert m - {"A"} - {"C"} == map[];
  }

  lemma ShortBookValue()
    ensures TotalValue(SHORT_BOOK) == 100.0
  {
    hide Values;
    ShortBookValues();
    TwoEntries(Values(SHORT_BOOK.holdings), -100.0, 200.0);
  }

  lemma ShortBookValues()
    ensures Values(SHORT_BOOK.holdings) == map["A" := -100.0, "C" := 200.0]
  {
    assert SHORT_BOOK.holdings["A"] == Holding(-10.0, 10.0, 10.0);
  }

  lemma ShortBookGross()
    ensures Gross(SHORT_BOOK, TENS) == 300.0 && HeldGross(SHORT_BOOK, TENS, [COVER]) == 200.0
  {
    hide Exposures;
    ShortBookExposures();
    TwoEntries(Exposures(SHORT_BOOK, TENS), 100.0, 200.0);
    assert Tickers([COVER]) == {"A"};
  }

  lemma ShortBookExposures()
    ensures Exposures(SHORT_BOOK, TENS) == map["A" := 100.0, "C" := 200.0]
  {
    assert Exposure(-10.0, 10.0) == 100.0 && Exposure(20.0, 10.0) == 200.0;
  }

  lemma ShortBookPlan()
    ensures Targets(SHORT_BOOK, [Decision("A", Sell, 0.0)], TENS, true) == [COVER]
    ensures Plan(SHORT_BOOK, [Decision("A", Sell, 0.0)], TENS, true, 1.0) == [COVER]
  {
    hide TotalValue, Gross;
    ShortBookValue();
    ShortBookGross();
    var ds := [Decision("A", Sell, 0.0)];
    assert ds[..0] == [] && [COVER][..0] == [];
    assert Resolve([], TENS, 100.0, true) == [];
    assert Resolve(ds, TENS, 100.0, true) == [COVER];
    assert TargetGross([], TENS) == 0.0;
    assert TargetGross([COVER], TENS) == 0.0;
    assert Sort([], ByNotional(SHORT_BOOK, TENS)) == [];
    assert Sort([COVER], ByNotional(SHORT_BOOK, TENS)) == [COVER];
  }

  lemma CoverIsSkipped()
    ensures Trade(SHORT_BOOK, COVER, TENS, 0.0, FREE) == SHORT_BOOK
  {
    assert TradedQty(SHORT_BOOK, COVER, 10.0, 0.0) == 0.0;
  }

  // The cover is clipped to nothing and the book stays at 300 gross, where the budget is 100, the untargeted
  // holding 200 and the dust a dollar.
  lemma ShortsCanExceedCap()
    ensures var ds := [Decision("A", Sell, 0.0)];
            var targets := Targets(SHORT_BOOK, ds, TENS, true);
            Gross(Execute(SHORT_BOOK, ds, TENS, true, 1.0, FREE), TENS)
            > Max(1.0 * TotalValue(SHORT_BOOK), HeldGross(SHORT_BOOK, TENS, targets)) + |targets| as real
  {
    hide Plan, Targets, Gross, HeldGross, TotalValue, Trade;
    ShortBookValue();
    ShortBookGross();
    ShortBookPlan();
    CoverIsSkipped();
    assert [COVER][..0] == [];
    assert Trades(SHORT_BOOK, [], TENS, 0.0, FREE) == SHORT_BOOK;
    assert CashFloor(100.0, 1.0) == 0.0;
  }
}
