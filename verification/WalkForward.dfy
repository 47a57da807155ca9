// Walk-forward folds: how they are generated, and why running them on one carried book is one backtest.
module WalkForward {
  import opened Options
  import opened Simulation
  import opened DayLoop

  datatype Fold = Fold(index: nat, isStart: Date, isEnd: Date, oosStart: Date, oosEnd: Date)

  // The k-th fold: an in-sample window k steps in, right before an out-of-sample window, each of its length.
  predicate IsFold(f: Fold, k: nat, start: Date, isDays: int, oosDays: int, step: int) {
    && f.index == k && f.isStart == start + k * step
    && f.isEnd - f.isStart + 1 == isDays && f.oosStart == f.isEnd + 1 && f.oosEnd - f.oosStart + 1 == oosDays
  }

  // The folds that fit, or an error for a step that would never end.
  method GenerateFolds(start: Date, end: Date, isDays: int, oosDays: int, step: int)
    returns (r: Option<seq<Fold>>)
    ensures r.None? <==> step <= 0
    ensures r.Some? ==> FoldsFit(r.value, start, end, isDays, oosDays, step)
  {
    if step <= 0 {
      return None;
    }
    var folds: seq<Fold> := [];
    var cur := start + isDays;
    var i := 0;
    while cur + oosDays <= end
      invariant i == |folds| && cur == start + isDays + i * step
      invariant forall k :: 0 <= k < i ==> IsFold(folds[k], k, start, isDays, oosDays, step) && folds[k].oosEnd < end
      decreases end - oosDays - cur
    {
      folds := folds + [Fold(i, cur - isDays, cur - 1, cur, cur + oosDays - 1)];
      i := i + 1;
      cur := cur + step;
    }
    r := Some(folds);
  }

  // Fold k starts k steps in, every fold ends before the end, and one more would not.
  ghost predicate FoldsFit(folds: seq<Fold>, start: Date, end: Date, isDays: int, oosDays: int, step: int) {
    && (forall k :: 0 <= k < |folds| ==> IsFold(folds[k], k, start, isDays, oosDays, step) && folds[k].oosEnd < end)
    && start + isDays + |folds| * step + oosDays > end
  }

  // When the step equals the out-of-sample window, each fold starts the day after the one before it ends.
  lemma FoldsAbut(folds: seq<Fold>, start: Date, end: Date, isDays: int, oosDays: int, k: nat)
    requires FoldsFit(folds, start, end, isDays, oosDays, oosDays) && k + 1 < |folds|
    ensures folds[k + 1].oosStart == folds[k].oosEnd + 1
  {
    assert (k + 1) * oosDays == k * oosDays + oosDays;
  }

  // Daily, or the first trading day of each week or month.
  datatype Frequency = EveryDay | FirstOf(period: Date -> int)

  predicate FirstInPeriod(days: seq<Date>, i: nat, f: Frequency)
    requires i < |days|
  {
    f.FirstOf? ==> forall j :: 0 <= j < i ==> f.period(days[j]) != f.period(days[i])
  }

  method RebalanceDates(days: seq<Date>, f: Frequency) returns (r: set<Date>)
    ensures r == set i | 0 <= i < |days| && FirstInPeriod(days, i, f) :: days[i]
  {
    if f.EveryDay? {
      r := set i | 0 <= i < |days| :: days[i];
      return;
    }
    var seen: map<int, Date> := map[];
    r := {};
    for i := 0 to |days|
      invariant forall k :: k in seen <==> exists j :: 0 <= j < i && f.period(days[j]) == k
      invariant r == set j | 0 <= j < i && FirstInPeriod(days, j, f) :: days[j]
    {
      var key := f.period(days[i]);
      if key !in seen {
        seen := seen[key := days[i]];
        r := r + {days[i]};
      }
      assert f.period(days[i]) == key;
    }
  }

  // --- carried folds are one run -------------------------------------------------------------

  function JoinAll(gs: seq<Segment>): Segment {
    if gs == [] then Segment([], {}) else Joined(gs[0], JoinAll(gs[1..]))
  }

  // Segment i covers the trading days of window i, windows abut, and rebalance days are days of the segment.
  ghost predicate Tiles(m: Market, gs: seq<Segment>, ws: seq<(Date, Date)>) {
    && |gs| == |ws|
    && (forall i :: 0 <= i < |gs| ==> IsTradingDays(m, gs[i].days, ws[i].0, ws[i].1))
    && (forall i :: 0 <= i < |gs| ==> forall d :: d in gs[i].rebalances ==> d in gs[i].days)
    && (forall i :: 0 <= i < |gs| ==> ws[i].0 <= ws[i].1 + 1)
    && (forall i :: 0 <= i < |gs| - 1 ==> ws[i + 1].0 == ws[i].1 + 1)
  }

  lemma WindowsAbut(m: Market, a: Segment, b: Segment, s: Date, e: Date, f: Date)
    requires IsTradingDays(m, a.days, s, e) && IsTradingDays(m, b.days, e + 1, f)
    requires s <= e + 1 <= f + 1
    requires forall d :: d in a.rebalances ==> d in a.days
    requires forall d :: d in b.rebalances ==> d in b.days
    ensures Abut(m, a, b)
    ensures IsTradingDays(m, Joined(a, b).days, s, f)
  {
    if a.days != [] && b.days != [] {
      var last, first := a.days[|a.days| - 1], b.days[0];
      assert last in a.days && first in b.days;
      forall d | d in m.bars && d < first
        ensures d <= last
      {
        assert s <= d <= f ==> d in a.days || d in b.days;
      }
    }
    forall d
      ensures d in a.days + b.days <==> d in m.bars && s <= d <= f
    {
      assert d in a.days + b.days <==> d in a.days || d in b.days;
    }
    forall i, j | 0 <= i < j < |a.days + b.days|
      ensures (a.days + b.days)[i] < (a.days + b.days)[j]
    {
      if i < |a.days| <= j {
        assert a.days[i] in a.days && b.days[j - |a.days|] in b.days;
      }
    }
  }

  lemma {:induction false} JoinedWindow(m: Market, gs: seq<Segment>, ws: seq<(Date, Date)>)
    requires Tiles(m, gs, ws) && gs != []
    ensures IsTradingDays(m, JoinAll(gs).days, ws[0].0, ws[|ws| - 1].1)
    ensures forall d :: d in JoinAll(gs).rebalances ==> d in JoinAll(gs).days
    ensures ws[0].0 <= ws[|ws| - 1].1 + 1
    ensures |gs| > 1 ==> Tiles(m, gs[1..], ws[1..]) && Abut(m, gs[0], JoinAll(gs[1..]))
  {
    hide IsTradingDays, Abut;
    if |gs| == 1 {
      assert gs[1..] == [];
      assert gs[0].days + [] == gs[0].days;
    } else {
      TilesTail(m, gs, ws);
      JoinedWindow(m, gs[1..], ws[1..]);
      WindowsAbut(m, gs[0], JoinAll(gs[1..]), ws[0].0, ws[0].1, ws[|ws| - 1].1);
    }
  }

  lemma TilesTail(m: Market, gs: seq<Segment>, ws: seq<(Date, Date)>)
    requires Tiles(m, gs, ws) && gs != []
    ensures Tiles(m, gs[1..], ws[1..])
  {
    hide IsTradingDays;
    forall i | 0 <= i < |gs[1..]| - 1
      ensures ws[1..][i + 1].0 == ws[1..][i].1 + 1
    {
      assert ws[(i + 1) + 1].0 == ws[i + 1].1 + 1;
    }
  }

  // No segment but the last decides on its last trading day.
  ghost predicate NothingDecidedAtBoundaries(gs: seq<Segment>) {
    forall i :: 0 <= i < |gs| - 1 && gs[i].days != [] ==> gs[i].days[|gs[i].days| - 1] !in gs[i].rebalances
  }

  // At every boundary the decisions dropped there would have traded nothing on the next trading day of the
  // range.
  ghost predicate BoundariesAreHarmless(m: Market, s: Rules, p: Portfolio, gs: seq<Segment>)
    decreases |gs|
  {
    |gs| <= 1
    || (HarmlessBoundary(m, s, p, gs[0], JoinAll(gs[1..]))
        && BoundariesAreHarmless(m, s, RunSegment(m, s, p, gs[0]).0, gs[1..]))
  }

  ghost predicate HarmlessBoundary(m: Market, s: Rules, p: Portfolio, a: Segment, b: Segment) {
    a.days == [] || b.days == [] || PendingWouldTradeNothing(m, s, p, a, b)
  }

  lemma EmptySecond(m: Market, s: Rules, p: Portfolio, a: Segment, b: Segment)
    requires Abut(m, a, b) && b.days == []
    ensures RunSegments(m, s, p, [a, b]) == RunSegment(m, s, p, Joined(a, b))
  {
    hide Days, IsLatestBefore;
    var x := RunSegment(m, s, p, a);
    SegmentPair(m, s, p, a, b);
    NoDays(m, s, x.0, [], None, b.rebalances);
    assert forall d :: d in b.rebalances ==> d in b.days;
    assert b.rebalances == {};
    assert a.days + b.days == a.days && a.rebalances + b.rebalances == a.rebalances;
    assert x.1 + [] == x.1;
  }

  lemma TwoSegmentsExactly(m: Market, s: Rules, p: Portfolio, a: Segment, b: Segment)
    requires Abut(m, a, b)
    ensures RunSegments(m, s, p, [a, b]) == RunSegment(m, s, p, Joined(a, b)) <==> HarmlessBoundary(m, s, p, a, b)
  {
    hide Abut, RunSegments, RunSegment, Days, PendingWouldTradeNothing;
    if a.days == [] {
      TwoSegmentsAreOne(m, s, p, a, b);
    } else if b.days == [] {
      EmptySecond(m, s, p, a, b);
    } else {
      SplitIsExact(m, s, p, a, b);
    }
  }

  lemma {:induction false} RecordPerDay(
      m: Market, s: Rules, p: Portfolio, pending: seq<Decision>, days: seq<Date>, prev: Option<Date>, r: set<Date>)
    ensures |Days(m, s, p, pending, days, prev, r).days| == |days|
    decreases |days|
  {
    hide TradePending, Morning;
    if days != [] {
      var first := Day(m, s, p, pending, days[0], prev, days[0] in r);
      RecordPerDay(m, s, first.book, first.pending, days[1..], Some(days[0]), r);
    }
  }

  // A run of segments starts with nothing pending, so its first day trades nothing.
  lemma {:induction false} NothingOnTheFirstDay(m: Market, s: Rules, p: Portfolio, gs: seq<Segment>)
    requires JoinAll(gs).days != []
    ensures var records := RunSegments(m, s, p, gs).1; records != [] && records[0].fills == []
    decreases |gs|
  {
    hide Day, Morning, TradePending;
    var g := gs[0];
    if g.days == [] {
      NothingOnTheFirstDay(m, s, RunSegment(m, s, p, g).0, gs[1..]);
    } else {
      FirstFills(m, s, p, [], g.days, None, g.rebalances);
      MorningIsQuiet(m, s, p, g.days[0], None);
      NothingPending(m, s, Morning(m, s, p, g.days[0], None), g.days[0]);
    }
  }

  // The unbroken run does trade there when the dropped decisions are more than dust.
  lemma KeptDecisionsTrade(m: Market, s: Rules, p: Portfolio, a: Segment, b: Segment)
    requires Abut(m, a, b) && !HarmlessBoundary(m, s, p, a, b)
    ensures var records := RunSegment(m, s, p, Joined(a, b)).1;
            |records| > |a.days| && records[|a.days|].fills != []
  {
    hide Day, Days, Morning, TradePending, PendingIsDust, Abut;
    var x, last := Days(m, s, p, [], a.days, None, a.rebalances), a.days[|a.days| - 1];
    JoinedRun(m, s, p, a, b);
    RecordPerDay(m, s, p, [], a.days, None, a.rebalances);
    FirstFills(m, s, x.book, x.pending, b.days, Some(last), Joined(a, b).rebalances);
    MorningIsQuiet(m, s, x.book, b.days[0], Some(last));
    QuietTrade(m, s, Morning(m, s, x.book, b.days[0], Some(last)), x.pending, b.days[0]);
  }

  // Segments that tile their range, run on one carried book, equal one continuous run over the whole range with
  // the union of their rebalance days, book and records alike, exactly when every boundary is harmless.
  lemma {:induction false} SegmentsAreOneRunExactly(
      m: Market, s: Rules, p: Portfolio, gs: seq<Segment>, ws: seq<(Date, Date)>)
    requires Tiles(m, gs, ws) && gs != []
    ensures RunSegments(m, s, p, gs) == RunSegment(m, s, p, JoinAll(gs)) <==> BoundariesAreHarmless(m, s, p, gs)
    decreases |gs|
  {
    hide IsTradingDays, Abut, RunSegment, Days, HarmlessBoundary;
    JoinedWindow(m, gs, ws);
    if |gs| == 1 {
      OneSegment(m, s, p, gs[0]);
      assert gs == [gs[0]] && gs[1..] == [];
      assert gs[0].days + [] == gs[0].days && gs[0].rebalances + {} == gs[0].rebalances;
    } else {
      var rest := JoinAll(gs[1..]);
      var first := RunSegment(m, s, p, gs[0]);
      SegmentsAreOneRunExactly(m, s, first.0, gs[1..], ws[1..]);
      SegmentPair(m, s, p, gs[0], rest);
      TwoSegmentsExactly(m, s, p, gs[0], rest);
      var split, whole := RunSegments(m, s, first.0, gs[1..]), RunSegment(m, s, first.0, rest);
      if !HarmlessBoundary(m, s, p, gs[0], rest) {
        LostOnTheFirstDay(m, s, p, gs);
      } else if first.1 + split.1 == first.1 + whole.1 {
        SameTail(first.1, split.1, whole.1);
      }
    }
  }

  lemma SameTail<T>(a: seq<T>, b: seq<T>, c: seq<T>)
    requires a + b == a + c
    ensures b == c
  {
    assert b == (a + b)[|a|..] && c == (a + c)[|a|..];
  }

  lemma LostOnTheFirstDay(m: Market, s: Rules, p: Portfolio, gs: seq<Segment>)
    requires |gs| > 1 && Abut(m, gs[0], JoinAll(gs[1..]))
    requires !HarmlessBoundary(m, s, p, gs[0], JoinAll(gs[1..]))
    ensures RunSegments(m, s, p, gs).1 != RunSegment(m, s, p, JoinAll(gs)).1
  {
    hide Abut, Days, PendingWouldTradeNothing;
    var first := RunSegment(m, s, p, gs[0]);
    RecordPerDay(m, s, p, [], gs[0].days, None, gs[0].rebalances);
    NothingOnTheFirstDay(m, s, first.0, gs[1..]);
    KeptDecisionsTrade(m, s, p, gs[0], JoinAll(gs[1..]));
    assert RunSegments(m, s, p, gs).1[|gs[0].days|].fills == [];
  }

  lemma {:induction false} NothingDecidedIsHarmless(m: Market, s: Rules, p: Portfolio, gs: seq<Segment>)
    requires NothingDecidedAtBoundaries(gs)
    ensures BoundariesAreHarmless(m, s, p, gs)
    decreases |gs|
  {
    hide RunSegment, HarmlessBoundary;
    if |gs| > 1 {
      assert forall i :: 0 <= i < |gs[1..]| ==> gs[1..][i] == gs[i + 1];
      NothingDecidedIsHarmless(m, s, RunSegment(m, s, p, gs[0]).0, gs[1..]);
      NothingDecidedHere(m, s, p, gs[0], JoinAll(gs[1..]));
    }
  }

  lemma NothingDecidedHere(m: Market, s: Rules, p: Portfolio, a: Segment, b: Segment)
    requires a.days != [] ==> a.days[|a.days| - 1] !in a.rebalances
    ensures HarmlessBoundary(m, s, p, a, b)
  {
    hide Days, Morning;
    if a.days != [] {
      LastDayDecides(m, s, p, [], a.days, None, a.rebalances);
    }
  }

  // In particular when no segment but the last decides on its last trading day.
  lemma CarriedSegmentsAreOneRun(m: Market, s: Rules, p: Portfolio, gs: seq<Segment>, ws: seq<(Date, Date)>)
    requires Tiles(m, gs, ws) && gs != [] && NothingDecidedAtBoundaries(gs)
    ensures RunSegments(m, s, p, gs) == RunSegment(m, s, p, JoinAll(gs))
    ensures IsTradingDays(m, JoinAll(gs).days, ws[0].0, ws[|ws| - 1].1)
  {
    hide IsTradingDays, RunSegment, RunSegments, BoundariesAreHarmless;
    JoinedWindow(m, gs, ws);
    NothingDecidedIsHarmless(m, s, p, gs);
    SegmentsAreOneRunExactly(m, s, p, gs, ws);
  }

  lemma OneSegment(m: Market, s: Rules, p: Portfolio, g: Segment)
    ensures RunSegments(m, s, p, [g]) == RunSegment(m, s, p, g)
  {
    hide RunSegment;
    var x := RunSegment(m, s, p, g);
    assert [g][1..] == [];
    assert RunSegments(m, s, x.0, []) == (x.0, []);
    assert x.1 + [] == x.1;
  }

  // The same for generated folds whose step is the out-of-sample window.
  lemma WalkForwardIsOneRun(
      m: Market, s: Rules, p: Portfolio, folds: seq<Fold>, start: Date, end: Date, isDays: int, oosDays: int,
      gs: seq<Segment>)
    requires FoldsFit(folds, start, end, isDays, oosDays, oosDays) && oosDays > 0 && folds != []
    requires |gs| == |folds|
    requires forall i :: 0 <= i < |gs| ==> IsTradingDays(m, gs[i].days, folds[i].oosStart, folds[i].oosEnd)
    requires forall i :: 0 <= i < |gs| ==> forall d :: d in gs[i].rebalances ==> d in gs[i].days
    ensures RunSegments(m, s, p, gs) == RunSegment(m, s, p, JoinAll(gs)) <==> BoundariesAreHarmless(m, s, p, gs)
    ensures NothingDecidedAtBoundaries(gs) ==> BoundariesAreHarmless(m, s, p, gs)
    ensures IsTradingDays(m, JoinAll(gs).days, folds[0].oosStart, folds[|folds| - 1].oosEnd)
  {
    hide IsTradingDays, RunSegment, RunSegments, BoundariesAreHarmless;
    var ws := seq(|folds|, i requires 0 <= i < |folds| => (folds[i].oosStart, folds[i].oosEnd));
    forall i | 0 <= i < |gs| - 1
      ensures ws[i + 1].0 == ws[i].1 + 1
    {
      FoldsAbut(folds, start, end, isDays, oosDays, i);
    }
    JoinedWindow(m, gs, ws);
    SegmentsAreOneRunExactly(m, s, p, gs, ws);
    if NothingDecidedAtBoundaries(gs) {
      NothingDecidedIsHarmless(m, s, p, gs);
    }
  }
}
