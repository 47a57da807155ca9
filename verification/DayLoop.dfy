// The day loop of a backtest segment: what one day does, and when splitting a run changes nothing.
module DayLoop {
  import opened Options
  import opened Decimals
  import opened Sorting
  import opened ExecutionBounds
  import opened Simulation

  type Date = int

  // What the loop reads: the dates with bars (repeated and in any order), closes, opens and corporate actions.
  datatype Market = Market(
    bars: seq<Date>, closes: Date -> Prices, opens: Date -> Prices,
    actions: (Ticker, Date) -> seq<CorporateAction>, universe: seq<Ticker>)

  // The sizer is a function of the day and of the value of the book.
  datatype Rules = Rules(costs: Costs, holdKeeps: bool, maxGross: real, decide: (Date, real) -> seq<Decision>)

  datatype DayRecord = DayRecord(
    date: Date, fills: seq<Fill>, decisions: seq<Decision>, equity: real, cash: real,
    holdings: map<Ticker, Holding>)

  datatype Outcome = Outcome(book: Portfolio, pending: seq<Decision>, days: seq<DayRecord>)

  // The book between days: yesterday's fill list is not part of it.
  function Quiet(p: Portfolio): Portfolio {
    p.(fills := [])
  }

  ghost predicate IsLatestBefore(m: Market, prev: Date, day: Date) {
    prev in m.bars && prev < day && forall d :: d in m.bars && d < day ==> d <= prev
  }

  // Closes of the most recent session strictly before a day; nothing when there is none.
  ghost function PriorCloses(m: Market, day: Date): Prices {
    if prev :| IsLatestBefore(m, prev, day) then m.closes(prev) else map[]
  }

  // The mark of a morning: yesterday's closes inside a segment; for a book carried into a segment, the most
  // recent closes before its first day.
  ghost function MorningMark(m: Market, p: Portfolio, day: Date, prev: Option<Date>): Portfolio {
    if prev.Some? then MarkToMarket(p, m.closes(prev.value))
    else if p.holdings != map[] then MarkToMarket(p, PriorCloses(m, day))
    else p
  }

  function ActOn(m: Market, p: Portfolio, day: Date, universe: seq<Ticker>): Portfolio {
    if universe == [] then p
    else
      var t := universe[|universe| - 1];
      ApplyActions(ActOn(m, p, day, universe[..|universe| - 1]), t, m.actions(t, day))
  }

  ghost function Morning(m: Market, s: Rules, p: Portfolio, day: Date, prev: Option<Date>): Portfolio {
    Quiet(ActOn(m, AccrueFinancing(MorningMark(m, p, day, prev), s.costs), day, m.universe))
  }

  ghost function TradePending(m: Market, s: Rules, p: Portfolio, pending: seq<Decision>, day: Date): Portfolio {
    if pending == [] then p else Execute(p, pending, m.opens(day), s.holdKeeps, s.maxGross, s.costs)
  }

  function Snapshot(p: Portfolio): map<Ticker, Holding> {
    map t | t in p.holdings && p.holdings[t].qty != 0.0 :: p.holdings[t]
  }

  // One day: mark, charge, act, trade what was decided before, decide, record.
  ghost function Day(
      m: Market, s: Rules, p: Portfolio, pending: seq<Decision>, day: Date, prev: Option<Date>, rebalance: bool)
    : Outcome
  {
    var q := TradePending(m, s, Morning(m, s, p, day, prev), pending, day);
    var decisions := if rebalance then s.decide(day, TotalValue(q)) else [];
    Outcome(
      Quiet(q),
      if rebalance then decisions else [],
      [DayRecord(day, q.fills, decisions, TotalValue(q), q.cash, Snapshot(q))])
  }

  ghost function Days(
      m: Market, s: Rules, p: Portfolio, pending: seq<Decision>, days: seq<Date>, prev: Option<Date>,
      rebalances: set<Date>)
    : Outcome
    decreases |days|
  {
    if days == [] then Outcome(p, pending, [])
    else
      var first := Day(m, s, p, pending, days[0], prev, days[0] in rebalances);
      var rest := Days(m, s, first.book, first.pending, days[1..], Some(days[0]), rebalances);
      Outcome(rest.book, rest.pending, first.days + rest.days)
  }

  ghost predicate IsTradingDays(m: Market, days: seq<Date>, start: Date, end: Date) {
    && (forall i, j :: 0 <= i < j < |days| ==> days[i] < days[j])
    && (forall d :: d in days <==> d in m.bars && start <= d <= end)
  }

  datatype Segment = Segment(days: seq<Date>, rebalances: set<Date>)

  // A segment continues a book; decisions still pending at its end are dropped.
  ghost function RunSegment(m: Market, s: Rules, p: Portfolio, g: Segment): (Portfolio, seq<DayRecord>) {
    var out := Days(m, s, p, [], g.days, None, g.rebalances);
    (out.book, out.days)
  }

  ghost function RunSegments(m: Market, s: Rules, p: Portfolio, gs: seq<Segment>): (Portfolio, seq<DayRecord>)
    decreases |gs|
  {
    if gs == [] then (p, [])
    else
      var first := RunSegment(m, s, p, gs[0]);
      var rest := RunSegments(m, s, first.0, gs[1..]);
      (rest.0, first.1 + rest.1)
  }

  // --- what a day records --------------------------------------------------------------------

  // The record of a day shows the book at its end, without the symbols no longer held, and the decisions it
  // took on the equity it shows; these are what is pending, and nothing is on other days.
  lemma RecordShowsDay(
      m: Market, s: Rules, p: Portfolio, pending: seq<Decision>, day: Date, prev: Option<Date>, rebalance: bool)
    ensures var out := Day(m, s, p, pending, day, prev, rebalance);
            && |out.days| == 1
            && var r := out.days[0];
               && r.date == day && r.cash == out.book.cash && r.equity == TotalValue(out.book)
               && (forall t :: t in r.holdings <==> t in out.book.holdings && out.book.holdings[t].qty != 0.0)
               && (forall t :: t in r.holdings ==> r.holdings[t] == out.book.holdings[t])
               && out.pending == r.decisions
               && r.decisions == if rebalance then s.decide(day, r.equity) else []
  {
    hide Morning, TradePending, TotalValue;
    var q := TradePending(m, s, Morning(m, s, p, day, prev), pending, day);
    QuietIsWorthTheSame(q);
  }

  lemma QuietIsWorthTheSame(p: Portfolio)
    ensures TotalValue(Quiet(p)) == TotalValue(p)
  {}

  // --- splitting a run -----------------------------------------------------------------------

  lemma {:induction false} DaysAppend(
      m: Market, s: Rules, p: Portfolio, pending: seq<Decision>, a: seq<Date>, b: seq<Date>, prev: Option<Date>,
      r: set<Date>)
    requires a != []
    ensures var x := Days(m, s, p, pending, a, prev, r);
            var y := Days(m, s, x.book, x.pending, b, Some(a[|a| - 1]), r);
            Days(m, s, p, pending, a + b, prev, r) == Outcome(y.book, y.pending, x.days + y.days)
    decreases |a|
  {
    hide Days, Day;
    var first := Day(m, s, p, pending, a[0], prev, a[0] in r);
    assert (a + b)[1..] == a[1..] + b;
    FirstDay(m, s, p, pending, a + b, prev, r);
    FirstDay(m, s, p, pending, a, prev, r);
    if |a| == 1 {
      assert a[1..] == [] && a[1..] + b == b;
      NoDays(m, s, first.book, first.pending, Some(a[0]), r);
      assert first.days + [] == first.days;
    } else {
      DaysAppend(m, s, first.book, first.pending, a[1..], b, Some(a[0]), r);
      var x := Days(m, s, first.book, first.pending, a[1..], Some(a[0]), r);
      var y := Days(m, s, x.book, x.pending, b, Some(a[|a| - 1]), r);
      assert first.days + (x.days + y.days) == first.days + x.days + y.days;
    }
  }

  lemma FirstDay(
      m: Market, s: Rules, p: Portfolio, pending: seq<Decision>, days: seq<Date>, prev: Option<Date>, r: set<Date>)
    requires days != []
    ensures var first := Day(m, s, p, pending, days[0], prev, days[0] in r);
            var rest := Days(m, s, first.book, first.pending, days[1..], Some(days[0]), r);
            Days(m, s, p, pending, days, prev, r) == Outcome(rest.book, rest.pending, first.days + rest.days)
  {
    hide Day;
  }

  lemma NoDays(m: Market, s: Rules, p: Portfolio, pending: seq<Decision>, prev: Option<Date>, r: set<Date>)
    ensures Days(m, s, p, pending, [], prev, r) == Outcome(p, pending, [])
  {}

  lemma {:induction false} DaysSameRebalances(
      m: Market, s: Rules, p: Portfolio, pending: seq<Decision>, days: seq<Date>, prev: Option<Date>,
      r: set<Date>, q: set<Date>)
    requires forall d :: d in days ==> (d in r <==> d in q)
    ensures Days(m, s, p, pending, days, prev, r) == Days(m, s, p, pending, days, prev, q)
    decreases |days|
  {
    hide Day;
    if days != [] {
      var first := Day(m, s, p, pending, days[0], prev, days[0] in r);
      DaysSameRebalances(m, s, first.book, first.pending, days[1..], Some(days[0]), r, q);
    }
  }

  lemma LatestIsUnique(m: Market, d: Date, e: Date, day: Date)
    requires IsLatestBefore(m, d, day) && IsLatestBefore(m, e, day)
    ensures d == e
  {
    assert d in m.bars && e in m.bars;
  }

  // Marking a carried book at a boundary restores the mark an unbroken run would have used.
  lemma BoundaryMark(m: Market, p: Portfolio, day: Date, prev: Date)
    requires IsLatestBefore(m, prev, day)
    ensures MorningMark(m, p, day, None) == MorningMark(m, p, day, Some(prev))
  {
    var d :| IsLatestBefore(m, d, day) && PriorCloses(m, day) == m.closes(d);
    LatestIsUnique(m, d, prev, day);
    if p.holdings == map[] {
      assert MarkToMarket(p, m.closes(prev)).holdings == map[];
    }
  }

  lemma BoundaryDays(
      m: Market, s: Rules, p: Portfolio, pending: seq<Decision>, days: seq<Date>, prev: Date, r: set<Date>)
    requires days != [] ==> IsLatestBefore(m, prev, days[0])
    ensures Days(m, s, p, pending, days, None, r) == Days(m, s, p, pending, days, Some(prev), r)
  {
    if days != [] {
      BoundaryMark(m, p, days[0], prev);
    }
  }

  lemma LastDayDecides(m: Market, s: Rules, p: Portfolio, pending: seq<Decision>, days: seq<Date>,
                       prev: Option<Date>, r: set<Date>)
    requires days != [] && days[|days| - 1] !in r
    ensures Days(m, s, p, pending, days, prev, r).pending == []
    decreases |days|
  {
    hide TradePending, Morning;
    var first := Day(m, s, p, pending, days[0], prev, days[0] in r);
    if |days| > 1 {
      LastDayDecides(m, s, first.book, first.pending, days[1..], Some(days[0]), r);
    }
  }

  // Two abutting segments run on one carried book are one run over both, when nothing was decided on the last
  // day of the first.
  lemma TwoSegmentsAreOne(m: Market, s: Rules, p: Portfolio, a: Segment, b: Segment)
    requires Abut(m, a, b)
    requires a.days == [] || Days(m, s, p, [], a.days, None, a.rebalances).pending == []
    ensures RunSegments(m, s, p, [a, b]) == RunSegment(m, s, p, Joined(a, b))
  {
    hide Days, IsLatestBefore;
    var r := Joined(a, b).rebalances;
    var x := Days(m, s, p, [], a.days, None, a.rebalances);
    SegmentPair(m, s, p, a, b);
    if a.days == [] {
      assert a.days + b.days == b.days;
      NoDays(m, s, p, [], None, a.rebalances);
      var y := RunSegment(m, s, p, b);
      assert [] + y.1 == y.1;
    } else {
      DaysSameRebalances(m, s, p, [], a.days, None, a.rebalances, r);
      BoundaryDays(m, s, x.book, [], b.days, a.days[|a.days| - 1], b.rebalances);
      DaysSameRebalances(m, s, x.book, [], b.days, Some(a.days[|a.days| - 1]), b.rebalances, r);
      DaysAppend(m, s, p, [], a.days, b.days, None, r);
    }
    DaysSameRebalances(m, s, p, [], b.days, None, b.rebalances, r);
  }

  lemma SegmentPair(m: Market, s: Rules, p: Portfolio, a: Segment, b: Segment)
    ensures var x := RunSegment(m, s, p, a);
            var y := RunSegment(m, s, x.0, b);
            RunSegments(m, s, p, [a, b]) == (y.0, x.1 + y.1)
  {
    hide RunSegment;
    assert [a, b][1..] == [b] && [b][1..] == [];
    var x := RunSegment(m, s, p, a);
    var y := RunSegment(m, s, x.0, b);
    assert RunSegments(m, s, y.0, []) == (y.0, []);
    assert y.1 + [] == y.1;
    assert RunSegments(m, s, x.0, [b]) == (y.0, y.1);
  }

  function Joined(a: Segment, b: Segment): Segment {
    Segment(a.days + b.days, a.rebalances + b.rebalances)
  }

  // Every rebalance day is a day of its segment, and b starts at the session right after a.
  ghost predicate Abut(m: Market, a: Segment, b: Segment) {
    && (forall d :: d in a.rebalances ==> d in a.days)
    && (forall d :: d in b.rebalances ==> d in b.days)
    && (forall d, e :: d in a.days && e in b.days ==> d < e)
    && (a.days != [] && b.days != [] ==> IsLatestBefore(m, a.days[|a.days| - 1], b.days[0]))
  }

  // --- exactly when splitting changes nothing ------------------------------------------------

  // No planned trade comes to a dollar: a reduction asks for less, or a buy asks for less or finds less room
  // above the cash floor.
  ghost predicate PendingIsDust(m: Market, s: Rules, morning: Portfolio, pending: seq<Decision>, day: Date) {
    pending == []
    || var prices := m.opens(day);
       var xs, room := Plan(morning, pending, prices, s.holdKeeps, s.maxGross),
                       morning.cash - CashFloor(TotalValue(morning), s.maxGross);
       forall i :: 0 <= i < |xs| ==> Executed(TradeNotional(morning, xs[i], prices), room) == 0.0
  }

  // What the decisions dropped at the end of the first segment would have met in the morning of the second.
  ghost predicate PendingWouldTradeNothing(m: Market, s: Rules, p: Portfolio, a: Segment, b: Segment)
    requires a.days != [] && b.days != []
  {
    var x := Days(m, s, p, [], a.days, None, a.rebalances);
    PendingIsDust(m, s, Morning(m, s, x.book, b.days[0], Some(a.days[|a.days| - 1])), x.pending, b.days[0])
  }

  lemma TradeOrNot(p: Portfolio, x: Target, prices: Prices, floor: real, c: Costs)
    requires x.ticker in prices && prices[x.ticker] > 0.0
    ensures if Executed(TradeNotional(p, x, prices), p.cash - floor) == 0.0 then Trade(p, x, prices, floor, c) == p
            else |Trade(p, x, prices, floor, c).fills| == |p.fills| + 1
  {
    hide TradedQty, FillOf, Filled, Times, Executed, QtyOf;
    TradedNotional(p, x, prices[x.ticker], floor);
  }

  // A list of trades that fills nothing leaves the book as it was, and fills nothing exactly when every one of
  // them is dust.
  lemma {:induction false} NoFillsNoChange(p: Portfolio, xs: seq<Target>, prices: Prices, floor: real, c: Costs)
    requires Priced(xs, prices)
    ensures |Trades(p, xs, prices, floor, c).fills| >= |p.fills|
    ensures |Trades(p, xs, prices, floor, c).fills| == |p.fills| ==> Trades(p, xs, prices, floor, c) == p
    ensures |Trades(p, xs, prices, floor, c).fills| == |p.fills|
            <==> forall i :: 0 <= i < |xs| ==> Executed(TradeNotional(p, xs[i], prices), p.cash - floor) == 0.0
  {
    hide Trade, TradeNotional, Executed;
    if xs != [] {
      var n := |xs| - 1;
      var q := Trades(p, xs[..n], prices, floor, c);
      NoFillsNoChange(p, xs[..n], prices, floor, c);
      assert forall i :: 0 <= i < n ==> xs[..n][i] == xs[i];
      TradeOrNot(q, xs[n], prices, floor, c);
    }
  }

  lemma QuietTrade(m: Market, s: Rules, p: Portfolio, pending: seq<Decision>, day: Date)
    requires p.fills == []
    ensures TradePending(m, s, p, pending, day).fills == [] <==> PendingIsDust(m, s, p, pending, day)
    ensures PendingIsDust(m, s, p, pending, day) ==> TradePending(m, s, p, pending, day) == p
  {
    hide Plan, CashFloor, TotalValue, Trades, TradeNotional, Executed;
    if pending != [] {
      assert p.(fills := []) == p;
      NoFillsNoChange(p, Plan(p, pending, m.opens(day), s.holdKeeps, s.maxGross), m.opens(day),
                      CashFloor(TotalValue(p), s.maxGross), s.costs);
    }
  }

  // The run over both segments goes on from the first one's book with its pending decisions, the split run
  // without them.
  lemma JoinedRun(m: Market, s: Rules, p: Portfolio, a: Segment, b: Segment)
    requires Abut(m, a, b) && a.days != [] && b.days != []
    ensures var x, last, r := Days(m, s, p, [], a.days, None, a.rebalances), a.days[|a.days| - 1],
                              Joined(a, b).rebalances;
            var kept, dropped := Days(m, s, x.book, x.pending, b.days, Some(last), r),
                                 Days(m, s, x.book, [], b.days, Some(last), r);
            RunSegment(m, s, p, Joined(a, b)) == (kept.book, x.days + kept.days)
            && RunSegments(m, s, p, [a, b]) == (dropped.book, x.days + dropped.days)
  {
    hide Days, Day, IsLatestBefore;
    var r := Joined(a, b).rebalances;
    var last := a.days[|a.days| - 1];
    var x := Days(m, s, p, [], a.days, None, a.rebalances);
    SegmentPair(m, s, p, a, b);
    DaysSameRebalances(m, s, p, [], a.days, None, a.rebalances, r);
    BoundaryDays(m, s, x.book, [], b.days, last, b.rebalances);
    DaysSameRebalances(m, s, x.book, [], b.days, Some(last), b.rebalances, r);
    DaysAppend(m, s, p, [], a.days, b.days, None, r);
  }

  // Dropping the pending decisions at the boundary is harmless exactly when they would not have traded.
  lemma SplitIsExact(m: Market, s: Rules, p: Portfolio, a: Segment, b: Segment)
    requires Abut(m, a, b) && a.days != [] && b.days != []
    ensures RunSegments(m, s, p, [a, b]) == RunSegment(m, s, p, Joined(a, b))
            <==> PendingWouldTradeNothing(m, s, p, a, b)
  {
    hide Days, Day, IsLatestBefore, PendingIsDust, Morning;
    var r := Joined(a, b).rebalances;
    var last := a.days[|a.days| - 1];
    var x := Days(m, s, p, [], a.days, None, a.rebalances);
    JoinedRun(m, s, p, a, b);
    PendingMatters(m, s, x.book, x.pending, b.days, last, r);
    var kept := Days(m, s, x.book, x.pending, b.days, Some(last), r);
    var dropped := Days(m, s, x.book, [], b.days, Some(last), r);
    if x.days + kept.days == x.days + dropped.days {
      assert kept.days == (x.days + kept.days)[|x.days|..];
      assert dropped.days == (x.days + dropped.days)[|x.days|..];
    }
  }

  lemma FirstFills(
      m: Market, s: Rules, p: Portfolio, pending: seq<Decision>, days: seq<Date>, prev: Option<Date>, r: set<Date>)
    requires days != []
    ensures var out := Days(m, s, p, pending, days, prev, r);
            && out.days != []
            && out.days[0].fills == TradePending(m, s, Morning(m, s, p, days[0], prev), pending, days[0]).fills
  {
    hide Morning, TradePending;
    var first := Day(m, s, p, pending, days[0], prev, days[0] in r);
    assert Days(m, s, p, pending, days, prev, r).days[0] == first.days[0];
  }

  lemma PendingMatters(
      m: Market, s: Rules, p: Portfolio, pending: seq<Decision>, days: seq<Date>, prev: Date, r: set<Date>)
    requires days != []
    ensures var kept := Days(m, s, p, pending, days, Some(prev), r);
            var dropped := Days(m, s, p, [], days, Some(prev), r);
            (PendingIsDust(m, s, Morning(m, s, p, days[0], Some(prev)), pending, days[0])
             <==> kept.book == dropped.book && kept.days == dropped.days)
  {
    hide Morning, TradePending, PendingIsDust;
    var morning := Morning(m, s, p, days[0], Some(prev));
    MorningIsQuiet(m, s, p, days[0], Some(prev));
    QuietTrade(m, s, morning, pending, days[0]);
    NothingPending(m, s, morning, days[0]);
    FirstFills(m, s, p, pending, days, Some(prev), r);
    FirstFills(m, s, p, [], days, Some(prev), r);
  }

  lemma MorningIsQuiet(m: Market, s: Rules, p: Portfolio, day: Date, prev: Option<Date>)
    ensures Morning(m, s, p, day, prev).fills == []
  {}

  lemma NothingPending(m: Market, s: Rules, p: Portfolio, day: Date)
    ensures TradePending(m, s, p, [], day) == p
  {}

  // --- a split that loses a trade ------------------------------------------------------------

  // One symbol at ten, and a rule that always wants everything in it.
  function Flat(day: Date): Prices { map["A" := 10.0] }

  function AllIn(day: Date, value: real): seq<Decision> { [Decision("A", Buy, 100.0)] }

  function NoActions(t: Ticker, day: Date): seq<CorporateAction> { [] }

  const TWO_DAYS := Market([0, 1], Flat, Flat, NoActions, [])
  const FREE := Rules(Costs(0.0, 0.0, 0.0, 0.0), true, 1.0, AllIn)
  const CASH := Portfolio(100.0, map[], [], 0.0)

  lemma IdleMorning(day: Date, prev: Option<Date>)
    ensures Morning(TWO_DAYS, FREE, CASH, day, prev) == CASH
  {
    hide PriorCloses;
    assert MarkToMarket(CASH, Flat(0)).holdings == map[];
    assert MorningMark(TWO_DAYS, CASH, day, prev) == CASH;
    assert AccrueFinancing(CASH, FREE.costs) == CASH;
  }

  lemma FirstDayDecides()
    ensures Days(TWO_DAYS, FREE, CASH, [], [0], None, {0}) ==
            Outcome(CASH, AllIn(0, TotalValue(CASH)), Day(TWO_DAYS, FREE, CASH, [], 0, None, true).days)
  {
    hide Morning, TotalValue;
    IdleMorning(0, None);
    assert [0][1..] == [];
    var first := Day(TWO_DAYS, FREE, CASH, [], 0, None, true);
    assert first.days + [] == first.days;
  }

  lemma AllInBuys()
    ensures TradePending(TWO_DAYS, FREE, CASH, AllIn(0, TotalValue(CASH)), 1).fills != []
  {
    hide Trade, Resolve, Capped, Sort, ByNotional;
    var ds, prices := AllIn(0, TotalValue(CASH)), Flat(1);
    AllInPlan();
    assert Plan(CASH, ds, prices, true, 1.0) == [Target("A", 10.0)];
    var q := CASH.(fills := []);
    assert Trades(q, [], prices, 0.0, FREE.costs) == q;
    assert [Target("A", 10.0)][..0] == [];
    assert Trade(q, Target("A", 10.0), prices, 0.0, FREE.costs).fills != [] by {
      AllInTrades();
    }
  }

  lemma AllInPlan()
    ensures TotalValue(CASH) == 100.0
    ensures Plan(CASH, AllIn(0, 100.0), Flat(1), true, 1.0) == [Target("A", 10.0)]
  {
    assert Values(map[]) == map[];
    var x := Target("A", 10.0);
    var ds := AllIn(0, 100.0);
    assert ds[..0] == [] && [x][..0] == [];
    assert Resolve([], Flat(1), 100.0, true) == [];
    assert Resolve(ds, Flat(1), 100.0, true) == [x];
    assert Exposures(CASH, Flat(1)) - Tickers([x]) == map[];
    assert TargetGross([], Flat(1)) == 0.0;
    assert TargetGross([x], Flat(1)) == 100.0;
    assert Sort([], ByNotional(CASH, Flat(1))) == [];
    assert Sort([x], ByNotional(CASH, Flat(1))) == [x];
  }

  lemma AllInTrades()
    ensures Trade(CASH.(fills := []), Target("A", 10.0), Flat(1), 0.0, FREE.costs).fills != []
  {
    assert TradedQty(CASH.(fills := []), Target("A", 10.0), 10.0, 0.0) == 10.0;
  }

  // A rebalance on the last day of the first segment is lost by the split.
  lemma SplitCanLoseATrade()
    ensures var a, b := Segment([0], {0}), Segment([1], {});
            RunSegments(TWO_DAYS, FREE, CASH, [a, b]) != RunSegment(TWO_DAYS, FREE, CASH, Joined(a, b))
  {
    hide Days, Day, TradePending, Morning, RunSegments, RunSegment, PendingIsDust;
    var a, b := Segment([0], {0}), Segment([1], {});
    assert IsLatestBefore(TWO_DAYS, 0, 1);
    FirstDayDecides();
    IdleMorning(1, Some(0));
    AllInBuys();
    QuietTrade(TWO_DAYS, FREE, CASH, AllIn(0, TotalValue(CASH)), 1);
    SplitIsExact(TWO_DAYS, FREE, CASH, a, b);
  }
}
