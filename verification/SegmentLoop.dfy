// The segment loop as it runs: one mutable book, decisions carried from one day to the next open.
module SegmentLoop {
  import opened Options
  import opened Sorting
  import opened Simulation
  import opened DayLoop
  import opened SimulatedBook

  // --- the fill list of an earlier day is never read -----------------------------------------

  lemma {:induction false} ActionsIgnoreFills(p: Portfolio, t: Ticker, actions: seq<CorporateAction>)
    ensures ApplyActions(Quiet(p), t, actions) == Quiet(ApplyActions(p, t, actions))
  {
    hide ApplyAction;
    if actions != [] {
      ActionsIgnoreFills(p, t, actions[..|actions| - 1]);
      ActionIgnoresFills(ApplyActions(p, t, actions[..|actions| - 1]), t, actions[|actions| - 1]);
    }
  }

  lemma ActionIgnoresFills(p: Portfolio, t: Ticker, a: CorporateAction)
    ensures ApplyAction(Quiet(p), t, a) == Quiet(ApplyAction(p, t, a))
  {
    hide SplitHolding;
  }

  lemma {:induction false} ActIgnoresFills(m: Market, p: Portfolio, day: Date, universe: seq<Ticker>)
    ensures ActOn(m, Quiet(p), day, universe) == Quiet(ActOn(m, p, day, universe))
  {
    hide ApplyActions;
    if universe != [] {
      var n := |universe| - 1;
      ActIgnoresFills(m, p, day, universe[..n]);
      ActionsIgnoreFills(ActOn(m, p, day, universe[..n]), universe[n], m.actions(universe[n], day));
    }
  }

  lemma AccrualIgnoresFills(p: Portfolio, c: Costs)
    ensures AccrueFinancing(Quiet(p), c) == Quiet(AccrueFinancing(p, c))
  {
    assert Financing(Quiet(p), c) == Financing(p, c);
  }

  lemma MarkIgnoresFills(m: Market, p: Portfolio, day: Date, prev: Option<Date>)
    ensures MorningMark(m, Quiet(p), day, prev) == Quiet(MorningMark(m, p, day, prev))
  {
    hide PriorCloses;
  }

  lemma MorningIgnoresFills(m: Market, s: Rules, p: Portfolio, day: Date, prev: Option<Date>)
    ensures Morning(m, s, Quiet(p), day, prev)
            == Quiet(ActOn(m, AccrueFinancing(MorningMark(m, p, day, prev), s.costs), day, m.universe))
  {
    hide MorningMark, AccrueFinancing, ActOn;
    MarkIgnoresFills(m, p, day, prev);
    AccrualIgnoresFills(MorningMark(m, p, day, prev), s.costs);
    ActIgnoresFills(m, AccrueFinancing(MorningMark(m, p, day, prev), s.costs), day, m.universe);
  }

  lemma ExecuteIgnoresFills(p: Portfolio, ds: seq<Decision>, prices: Prices, holdKeeps: bool, maxGross: real, c: Costs)
    ensures Execute(Quiet(p), ds, prices, holdKeeps, maxGross, c) == Execute(p, ds, prices, holdKeeps, maxGross, c)
  {
    hide TotalValue, Capped, Sort, ByNotional, Resolve, Trades, CashFloor;
    ValueIgnoresFills(p);
    ResolvedPriced(ds, prices, TotalValue(p), holdKeeps);
    var targets := Resolve(ds, prices, TotalValue(p), holdKeeps);
    CapIgnoresFills(p, prices, targets, maxGross);
    SortIgnoresFills(Capped(p, prices, targets, maxGross), p, prices);
  }

  // --- one more day --------------------------------------------------------------------------

  function Before(days: seq<Date>, i: nat): Option<Date>
    requires i <= |days|
  {
    if i == 0 then None else Some(days[i - 1])
  }

  lemma OneMoreDay(m: Market, s: Rules, p: Portfolio, days: seq<Date>, i: nat, r: set<Date>)
    requires i < |days|
    ensures var x := Days(m, s, p, [], days[..i], None, r);
            var y := Day(m, s, x.book, x.pending, days[i], Before(days, i), days[i] in r);
            Days(m, s, p, [], days[..i + 1], None, r) == Outcome(y.book, y.pending, x.days + y.days)
  {
    hide Day;
    var x := Days(m, s, p, [], days[..i], None, r);
    var y := Day(m, s, x.book, x.pending, days[i], Before(days, i), days[i] in r);
    assert days[..i + 1] == days[..i] + [days[i]];
    assert [days[i]][1..] == [];
    assert y.days + [] == y.days;
    assert Days(m, s, y.book, y.pending, [], Some(days[i]), r) == Outcome(y.book, y.pending, []);
    if i > 0 {
      DaysAppend(m, s, p, [], days[..i], [days[i]], None, r);
    } else {
      assert days[..1] == [days[0]];
      assert x.days + y.days == y.days;
    }
  }

  // --- the loop ------------------------------------------------------------------------------

  method PriorClosePrices(m: Market, day: Date) returns (prices: Prices)
    ensures prices == PriorCloses(m, day)
  {
    var best: Option<Date> := None;
    for i := 0 to |m.bars|
      invariant best.None? ==> forall j :: 0 <= j < i ==> m.bars[j] >= day
      invariant best.Some? ==> best.value in m.bars && best.value < day
                               && forall j :: 0 <= j < i && m.bars[j] < day ==> m.bars[j] <= best.value
    {
      var d := m.bars[i];
      if d < day && (best.None? || d > best.value) {
        best := Some(d);
      }
    }
    if best.Some? {
      assert IsLatestBefore(m, best.value, day);
      prices := m.closes(best.value);
      PriorIsUnique(m, best.value, day);
    } else {
      prices := map[];
      assert forall d :: !IsLatestBefore(m, d, day);
    }
  }

  lemma PriorIsUnique(m: Market, prev: Date, day: Date)
    requires IsLatestBefore(m, prev, day)
    ensures PriorCloses(m, day) == m.closes(prev)
  {
    var d :| IsLatestBefore(m, d, day) && PriorCloses(m, day) == m.closes(d);
    LatestIsUnique(m, d, prev, day);
  }

  method MarkMorning(pf: SimulatedPortfolio, m: Market, day: Date, prev: Option<Date>)
    modifies pf`positions
    ensures pf.State() == MorningMark(m, old(pf.State()), day, prev)
  {
    hide PriorCloses;
    if prev.Some? {
      pf.MarkToMarket(m.closes(prev.value));
    } else if pf.positions != map[] {
      var prices := PriorClosePrices(m, day);
      pf.MarkToMarket(prices);
    }
  }

  method ActOnUniverse(pf: SimulatedPortfolio, m: Market, day: Date)
    modifies pf`cash, pf`positions
    ensures pf.State() == ActOn(m, old(pf.State()), day, m.universe)
  {
    hide ApplyActions;
    for k := 0 to |m.universe|
      invariant pf.State() == ActOn(m, old(pf.State()), day, m.universe[..k])
    {
      assert m.universe[..k + 1][..k] == m.universe[..k];
      pf.ApplyCorporateActions(m.universe[k], m.actions(m.universe[k], day));
    }
    assert m.universe[..|m.universe|] == m.universe;
  }

  method RunDay(pf: SimulatedPortfolio, m: Market, s: Rules, pending: seq<Decision>, day: Date, prev: Option<Date>,
                rebalance: bool)
    returns (decisions: seq<Decision>, record: DayRecord)
    requires pf.costs == s.costs
    modifies pf
    ensures Day(m, s, Quiet(old(pf.State())), pending, day, prev, rebalance)
            == Outcome(Quiet(pf.State()), decisions, [record])
  {
    hide Simulation.Execute, Simulation.TotalValue, Morning, MorningMark, Simulation.AccrueFinancing, ActOn;
    ghost var start := pf.State();
    MarkMorning(pf, m, day, prev);
    var _ := pf.AccrueFinancing();
    ActOnUniverse(pf, m, day);
    MorningIgnoresFills(m, s, start, day, prev);
    ghost var morning := pf.State();
    assert Morning(m, s, Quiet(start), day, prev) == Quiet(morning);
    var fills := [];
    if pending != [] {
      ExecuteIgnoresFills(morning, pending, m.opens(day), s.holdKeeps, s.maxGross, s.costs);
      fills := pf.Execute(pending, m.opens(day), s.holdKeeps, s.maxGross);
    }
    ghost var q := TradePending(m, s, Quiet(morning), pending, day);
    assert Quiet(q) == Quiet(pf.State()) && q.fills == fills;
    ValueIgnoresFills(q);
    ValueIgnoresFills(pf.State());
    var value := pf.Value();
    decisions := if rebalance then s.decide(day, value) else [];
    record := DayRecord(
      day, fills, decisions, value, pf.cash,
      map t | t in pf.positions && pf.positions[t].qty != 0.0 :: pf.positions[t]);
  }

  method RunSegmentDays(pf: SimulatedPortfolio, m: Market, s: Rules, days: seq<Date>, rebalances: set<Date>)
    returns (records: seq<DayRecord>)
    requires pf.costs == s.costs
    modifies pf
    ensures (Quiet(pf.State()), records)
            == RunSegment(m, s, Quiet(old(pf.State())), Segment(days, rebalances))
  {
    hide Day;
    records := [];
    var pending: seq<Decision> := [];
    ghost var start := Quiet(pf.State());
    for i := 0 to |days|
      invariant Days(m, s, start, [], days[..i], None, rebalances) == Outcome(Quiet(pf.State()), pending, records)
    {
      OneMoreDay(m, s, start, days, i, rebalances);
      var record;
      pending, record :=
        RunDay(pf, m, s, pending, days[i], if i > 0 then Some(days[i - 1]) else None, days[i] in rebalances);
      records := records + [record];
    }
    assert days[..|days|] == days;
  }
}
