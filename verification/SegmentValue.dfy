// Where the value of a backtest segment comes from: marks, corporate actions, financing and trading costs.
module SegmentValue {
  import opened Decimals
  import opened Options
  import opened Sums
  import opened Simulation
  import opened ExecutionBounds
  import opened SimulatedValue
  import opened DayLoop

  // --- marks ---------------------------------------------------------------------------------

  function Move(t: Ticker, h: Holding, prices: Prices): real {
    h.qty * (Marked(t, h, prices).mark - h.mark)
  }

  // What marking a book at new prices is worth.
  ghost function MarkMoves(p: Portfolio, prices: Prices): real {
    Total(map t | t in p.holdings :: Move(t, p.holdings[t], prices))
  }

  lemma MoveOfOne(t: Ticker, h: Holding, prices: Prices)
    ensures MarketValue(Marked(t, h, prices)) == MarketValue(h) + Move(t, h, prices)
  {
    assert h.qty * (Marked(t, h, prices).mark - h.mark) == h.qty * Marked(t, h, prices).mark - h.qty * h.mark;
  }

  lemma MarkingMovesValue(p: Portfolio, prices: Prices)
    ensures ValueAt(p, prices) == TotalValue(p) + MarkMoves(p, prices)
  {
    hide Marked, MarketValue, Move;
    var after := Values(MarkToMarket(p, prices).holdings);
    var moves := map t | t in p.holdings :: Move(t, p.holdings[t], prices);
    forall t | t in p.holdings
      ensures after[t] == Values(p.holdings)[t] + moves[t]
    {
      MoveOfOne(t, p.holdings[t], prices);
    }
    TotalAdds(Values(p.holdings), moves, after);
  }

  // The prices a morning is marked at; none for a fresh book.
  ghost function MorningPrices(m: Market, p: Portfolio, day: Date, prev: Option<Date>): Prices {
    if prev.Some? then m.closes(prev.value) else if p.holdings != map[] then PriorCloses(m, day) else map[]
  }

  lemma MorningMoves(m: Market, p: Portfolio, day: Date, prev: Option<Date>)
    ensures TotalValue(MorningMark(m, p, day, prev)) == TotalValue(p) + MarkMoves(p, MorningPrices(m, p, day, prev))
  {
    hide PriorCloses, TotalValue, MarkMoves;
    MarkingMovesValue(p, MorningPrices(m, p, day, prev));
    if prev.None? && p.holdings == map[] {
      assert MarkToMarket(p, map[]) == p;
    }
  }

  // --- corporate actions ---------------------------------------------------------------------

  // What a day's actions on one symbol, and on all of them, are worth when they are applied in turn.
  function ActionGains(p: Portfolio, t: Ticker, actions: seq<CorporateAction>): real {
    if actions == [] then 0.0
    else
      var done := actions[..|actions| - 1];
      ActionGains(p, t, done) + Gain(HoldingOf(ApplyActions(p, t, done), t), actions[|actions| - 1])
  }

  function UniverseGains(m: Market, p: Portfolio, day: Date, universe: seq<Ticker>): real {
    if universe == [] then 0.0
    else
      var done, t := universe[..|universe| - 1], universe[|universe| - 1];
      UniverseGains(m, p, day, done) + ActionGains(ActOn(m, p, day, done), t, m.actions(t, day))
  }

  lemma {:induction false} ActionsMoveValue(p: Portfolio, t: Ticker, actions: seq<CorporateAction>)
    ensures TotalValue(ApplyActions(p, t, actions)) == TotalValue(p) + ActionGains(p, t, actions)
  {
    hide ApplyAction, Gain, TotalValue;
    if actions != [] {
      var done := actions[..|actions| - 1];
      ActionsMoveValue(p, t, done);
      ActionMovesValue(ApplyActions(p, t, done), t, actions[|actions| - 1]);
    }
  }

  lemma {:induction false} UniverseMovesValue(m: Market, p: Portfolio, day: Date, universe: seq<Ticker>)
    ensures TotalValue(ActOn(m, p, day, universe)) == TotalValue(p) + UniverseGains(m, p, day, universe)
  {
    hide ApplyActions, ActionGains, TotalValue;
    if universe != [] {
      var done, t := universe[..|universe| - 1], universe[|universe| - 1];
      UniverseMovesValue(m, p, day, done);
      ActionsMoveValue(ActOn(m, p, day, done), t, m.actions(t, day));
    }
  }

  // --- one day -------------------------------------------------------------------------------

  datatype Sources = Sources(marks: real, gains: real, financing: real)

  function Plus(a: Sources, b: Sources): Sources {
    Sources(a.marks + b.marks, a.gains + b.gains, a.financing + b.financing)
  }

  function Net(z: Sources): real {
    z.marks + z.gains - z.financing
  }

  // A trade re-marks its symbol at the price it trades at: what that is worth, for the quantities held before
  // any of the trades.
  ghost function FilledMoves(p: Portfolio, prices: Prices, fills: seq<Fill>): real {
    if fills == [] then 0.0
    else
      var t := fills[|fills| - 1].ticker;
      FilledMoves(p, prices, fills[..|fills| - 1]) + Move(t, HoldingOf(p, t), prices)
  }

  // Replacing a holding by one that is marked at the prices takes its move out of those still to come.
  lemma MovesWithout(p: Portfolio, q: Portfolio, prices: Prices, t: Ticker, h: Holding)
    requires q.holdings == p.holdings[t := h] && t in prices && prices[t] > 0.0 && h.mark == prices[t]
    ensures MarkMoves(q, prices) == MarkMoves(p, prices) - Move(t, HoldingOf(p, t), prices)
  {
    hide Move;
    var m := map u | u in p.holdings :: Move(u, p.holdings[u], prices);
    var n := map u | u in q.holdings :: Move(u, q.holdings[u], prices);
    NoMove(t, h, prices);
    NothingHeld(t, prices);
    assert n == m[t := 0.0];
    TotalPut(m, t, 0.0);
  }

  lemma NoMove(t: Ticker, h: Holding, prices: Prices)
    requires t in prices && h.mark == prices[t]
    ensures Move(t, h, prices) == 0.0
  {}

  lemma NothingHeld(t: Ticker, prices: Prices)
    ensures Move(t, Holding(0.0, 0.0, 0.0), prices) == 0.0
  {}

  lemma TradeTakesMove(p: Portfolio, x: Target, prices: Prices, floor: real, c: Costs)
    requires x.ticker in prices && prices[x.ticker] > 0.0
    ensures var q := Trade(p, x, prices, floor, c);
            if q.fills == p.fills then q == p
            else |q.fills| == |p.fills| + 1 && q.fills[..|p.fills|] == p.fills && q.fills[|p.fills|].ticker == x.ticker
                 && MarkMoves(q, prices) == MarkMoves(p, prices) - Move(x.ticker, HoldingOf(p, x.ticker), prices)
  {
    hide TradedQty, ExecPrice, MarkMoves, Move, Filled;
    var delta, mid := TradedQty(p, x, prices[x.ticker], floor), prices[x.ticker];
    if delta != 0.0 {
      var f := FillOf(x.ticker, delta, mid, c);
      var h := Filled(HoldingOf(p, x.ticker), delta, f.price, mid);
      FilledQty(HoldingOf(p, x.ticker), delta, f.price, mid);
      MovesWithout(p, Trade(p, x, prices, floor, c), prices, x.ticker, h);
      assert |p.fills + [f]| != |p.fills|;
    }
  }

  lemma {:induction false} TradesTakeMoves(p: Portfolio, xs: seq<Target>, prices: Prices, floor: real, c: Costs)
    requires Priced(xs, prices) && Distinct(xs) && p.fills == []
    ensures var q := Trades(p, xs, prices, floor, c);
            MarkMoves(q, prices) == MarkMoves(p, prices) - FilledMoves(p, prices, q.fills)
  {
    hide Trade, MarkMoves, Move;
    if xs != [] {
      var n := |xs| - 1;
      var q := Trades(p, xs[..n], prices, floor, c);
      TradesTakeMoves(p, xs[..n], prices, floor, c);
      TradeTakesMove(q, xs[n], prices, floor, c);
      UntouchedByTrades(p, xs[..n], prices, floor, c, xs[n].ticker);
    }
  }

  lemma TradingTakesMoves(m: Market, s: Rules, morning: Portfolio, pending: seq<Decision>, day: Date)
    requires morning.fills == [] && pending != []
    ensures var q := TradePending(m, s, morning, pending, day);
            MarkMoves(q, m.opens(day)) == MarkMoves(morning, m.opens(day)) - FilledMoves(morning, m.opens(day), q.fills)
  {
    hide Plan, CashFloor, TotalValue, Trades, MarkMoves, FilledMoves;
    PlanIsOrdered(morning, pending, m.opens(day), s.holdKeeps, s.maxGross);
    assert morning.(fills := []) == morning;
    TradesTakeMoves(morning, Plan(morning, pending, m.opens(day), s.holdKeeps, s.maxGross), m.opens(day),
                    CashFloor(TotalValue(morning), s.maxGross), s.costs);
  }

  // What the day's trading adds through marks: over the traded names, the quantity held before times the way
  // from its mark to the open.
  ghost function TradingMarks(m: Market, s: Rules, morning: Portfolio, pending: seq<Decision>, day: Date): real {
    FilledMoves(morning, m.opens(day), TradePending(m, s, morning, pending, day).fills)
  }

  ghost function DaySources(
      m: Market, s: Rules, p: Portfolio, pending: seq<Decision>, day: Date, prev: Option<Date>): Sources
  {
    var marked := MorningMark(m, p, day, prev);
    Sources(
      MarkMoves(p, MorningPrices(m, p, day, prev)) + TradingMarks(m, s, Morning(m, s, p, day, prev), pending, day),
      UniverseGains(m, AccrueFinancing(marked, s.costs), day, m.universe),
      Financing(marked, s.costs))
  }

  // What the recorded fills cost against the opens they were made at, and the dust they may have written off.
  ghost function Costed(m: Market, records: seq<DayRecord>): real {
    if records == [] then 0.0
    else Frictions(records[0].fills, m.opens(records[0].date)) + Costed(m, records[1..])
  }

  ghost function Dusted(m: Market, records: seq<DayRecord>): real {
    if records == [] then 0.0
    else DustBound(records[0].fills, m.opens(records[0].date)) + Dusted(m, records[1..])
  }

  lemma MorningIsExplained(m: Market, s: Rules, p: Portfolio, day: Date, prev: Option<Date>)
    ensures var marked := MorningMark(m, p, day, prev);
            TotalValue(Morning(m, s, p, day, prev))
            == TotalValue(p) + MarkMoves(p, MorningPrices(m, p, day, prev)) - Financing(marked, s.costs)
               + UniverseGains(m, AccrueFinancing(marked, s.costs), day, m.universe)
  {
    hide TotalValue, MarkMoves, MorningPrices, MorningMark, UniverseGains, Financing, AccrueFinancing, ActOn, Quiet;
    var marked := MorningMark(m, p, day, prev);
    MorningMoves(m, p, day, prev);
    FinancingIsACost(marked, s.costs);
    UniverseMovesValue(m, AccrueFinancing(marked, s.costs), day, m.universe);
    QuietIsWorthTheSame(ActOn(m, AccrueFinancing(marked, s.costs), day, m.universe));
  }

  lemma TradingIsExplained(m: Market, s: Rules, morning: Portfolio, pending: seq<Decision>, day: Date)
    requires morning.fills == []
    ensures var q := TradePending(m, s, morning, pending, day);
            Abs(TotalValue(q) - (TotalValue(morning) + TradingMarks(m, s, morning, pending, day)
                                 - Frictions(q.fills, m.opens(day))))
            <= DustBound(q.fills, m.opens(day))
  {
    hide TotalValue, MarkMoves, Execute, ValueAt, Move;
    var q := TradePending(m, s, morning, pending, day);
    if pending != [] {
      TradingTakesMoves(m, s, morning, pending, day);
      MarkingMovesValue(morning, m.opens(day));
      MarkingMovesValue(q, m.opens(day));
      ExecuteConservesValue(morning, pending, m.opens(day), s.holdKeeps, s.maxGross, s.costs);
    }
  }

  // One day: the recorded equity is the value of the book, and it is what the book was worth before, plus what
  // the sources brought, less what the fills cost, up to dust.
  lemma DayIsExplained(
      m: Market, s: Rules, p: Portfolio, pending: seq<Decision>, day: Date, prev: Option<Date>, rebalance: bool)
    ensures var out := Day(m, s, p, pending, day, prev, rebalance);
            && out.days[0].equity == TotalValue(out.book)
            && Abs(TotalValue(out.book)
                   - (TotalValue(p) + Net(DaySources(m, s, p, pending, day, prev)) - Costed(m, out.days)))
               <= Dusted(m, out.days)
  {
    hide TotalValue, MarkMoves, MorningPrices, UniverseGains, Financing, AccrueFinancing, Morning, TradePending,
         TradingMarks, Frictions, DustBound, Quiet, MorningMark;
    var morning := Morning(m, s, p, day, prev);
    var q := TradePending(m, s, morning, pending, day);
    MorningIsQuiet(m, s, p, day, prev);
    MorningIsExplained(m, s, p, day, prev);
    TradingIsExplained(m, s, morning, pending, day);
    QuietIsWorthTheSame(q);
    var out := Day(m, s, p, pending, day, prev, rebalance);
    assert out.days[1..] == [];
    assert Costed(m, []) == 0.0 && Dusted(m, []) == 0.0;
  }

  // --- a segment -----------------------------------------------------------------------------

  ghost function DaysSources(
      m: Market, s: Rules, p: Portfolio, pending: seq<Decision>, days: seq<Date>, prev: Option<Date>,
      rebalances: set<Date>): Sources
    decreases |days|
  {
    if days == [] then Sources(0.0, 0.0, 0.0)
    else
      var first := Day(m, s, p, pending, days[0], prev, days[0] in rebalances);
      Plus(DaySources(m, s, p, pending, days[0], prev),
           DaysSources(m, s, first.book, first.pending, days[1..], Some(days[0]), rebalances))
  }

  lemma CostedJoins(m: Market, r: DayRecord, rest: seq<DayRecord>)
    ensures Costed(m, [r] + rest) == Costed(m, [r]) + Costed(m, rest)
    ensures Dusted(m, [r] + rest) == Dusted(m, [r]) + Dusted(m, rest)
  {
    assert ([r] + rest)[1..] == rest && [r][1..] == [];
    assert Costed(m, []) == 0.0 && Dusted(m, []) == 0.0;
  }

  // Over any number of days: the final value is the opening value plus the moves of the marks and the worth of
  // the corporate actions, less financing and the spread and commission of every recorded fill, up to the dust
  // of closed positions.
  lemma {:induction false} SegmentIsExplained(
      m: Market, s: Rules, p: Portfolio, pending: seq<Decision>, days: seq<Date>, prev: Option<Date>,
      rebalances: set<Date>)
    ensures var out := Days(m, s, p, pending, days, prev, rebalances);
            Abs(TotalValue(out.book)
                - (TotalValue(p) + Net(DaysSources(m, s, p, pending, days, prev, rebalances)) - Costed(m, out.days)))
            <= Dusted(m, out.days)
    decreases |days|
  {
    hide TotalValue, DaySources, Day, Costed, Dusted, Plus, Net, Abs;
    if days == [] {
      NothingCosted(m);
      NothingBrought();
    } else {
      var first := Day(m, s, p, pending, days[0], prev, days[0] in rebalances);
      var rest := Days(m, s, first.book, first.pending, days[1..], Some(days[0]), rebalances);
      DayIsExplained(m, s, p, pending, days[0], prev, days[0] in rebalances);
      SegmentIsExplained(m, s, first.book, first.pending, days[1..], Some(days[0]), rebalances);
      OneRecord(m, s, p, pending, days[0], prev, days[0] in rebalances);
      CostedJoins(m, first.days[0], rest.days);
      Chained(TotalValue(p), TotalValue(first.book), TotalValue(rest.book),
              DaySources(m, s, p, pending, days[0], prev),
              DaysSources(m, s, first.book, first.pending, days[1..], Some(days[0]), rebalances),
              Costed(m, first.days), Costed(m, rest.days), Dusted(m, first.days), Dusted(m, rest.days));
    }
  }

  lemma NothingBrought()
    ensures Net(Sources(0.0, 0.0, 0.0)) == 0.0 && Abs(0.0) == 0.0
  {}

  lemma Chained(
      a: real, b: real, c: real, y: Sources, z: Sources, cost: real, more: real, dust: real, moreDust: real)
    requires Abs(b - (a + Net(y) - cost)) <= dust && Abs(c - (b + Net(z) - more)) <= moreDust
    ensures Abs(c - (a + Net(Plus(y, z)) - (cost + more))) <= dust + moreDust
  {}

  lemma NothingCosted(m: Market)
    ensures Costed(m, []) == 0.0 && Dusted(m, []) == 0.0
  {}

  lemma OneRecord(
      m: Market, s: Rules, p: Portfolio, pending: seq<Decision>, day: Date, prev: Option<Date>, rebalance: bool)
    ensures var records := Day(m, s, p, pending, day, prev, rebalance).days; records == [records[0]]
  {
    hide Morning, TradePending, TotalValue;
  }
}
