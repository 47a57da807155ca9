// Drawdown and total-return curves, against the definitions the one-pass loops stand for.
module Metrics {
  import opened Options
  import opened Decimals
  import opened Sums

  // --- drawdown ------------------------------------------------------------------------------

  // The drop from a positive level to a later one; a wiped-out account is a full loss.
  function Drop(from: real, to: real): (d: real)
    requires from > 0.0
    ensures to > 0.0 ==> d * from == from - to
    ensures to <= 0.0 ==> d == 1.0
  {
    if to <= 0.0 then 1.0 else (from - to) / from
  }

  // A bound on every drop from a positive level to the same or a later one.
  ghost predicate BoundsDrops(equity: seq<real>, n: nat, bound: real)
    requires n <= |equity|
  {
    forall i, j :: 0 <= i <= j < n && equity[i] > 0.0 ==> Drop(equity[i], equity[j]) <= bound
  }

  ghost predicate AttainsDrop(equity: seq<real>, n: nat, d: real)
    requires n <= |equity|
  {
    exists i, j :: 0 <= i <= j < n && equity[i] > 0.0 && Drop(equity[i], equity[j]) == d
  }

  // A higher starting level makes the drop to the same later level larger.
  lemma DropGrows(low: real, high: real, to: real)
    requires 0.0 < low <= high
    ensures Drop(low, to) <= Drop(high, to)
  {
    if to > 0.0 {
      Ratio(low, high, to);
    }
  }

  lemma Ratio(low: real, high: real, to: real)
    requires 0.0 < low <= high && to > 0.0
    ensures (low - to) / low <= (high - to) / high
  {
    var x, y := to / low, to / high;
    assert x * low == to && y * high == to;
    OneMinus(low, to);
    OneMinus(high, to);
    assert (x - y) * high == x * (high - low);
    NotBelow(x, high - low, x - y, high);
  }

  lemma NotBelow(x: real, gap: real, e: real, f: real)
    requires x > 0.0 && gap >= 0.0 && f > 0.0 && e * f == x * gap
    ensures e >= 0.0
  {
    assert x * gap >= 0.0;
  }

  lemma DropAtMostOne(from: real, to: real)
    requires from > 0.0
    ensures Drop(from, to) <= 1.0
  {
    if to > 0.0 {
      OneMinus(from, to);
    }
  }

  lemma OneMinus(from: real, to: real)
    requires from > 0.0
    ensures (from - to) / from == 1.0 - to / from
    ensures to > 0.0 ==> to / from > 0.0
  {
    var d, q := (from - to) / from, to / from;
    assert d * from == from - to;
    assert q * from == to;
    assert (d + q - 1.0) * from == 0.0;
    NoFactor(d + q - 1.0, from);
  }

  lemma NoFactor(e: real, f: real)
    requires f > 0.0 && e * f == 0.0
    ensures e == 0.0
  {}

  // The running peak is the level every earlier drop is measured from at worst.
  ghost predicate IsPeak(equity: seq<real>, n: nat, peak: real)
    requires 0 < n <= |equity|
  {
    (exists i :: 0 <= i < n && equity[i] == peak) && forall i :: 0 <= i < n ==> equity[i] <= peak
  }

  lemma OneMoreLevel(equity: seq<real>, n: nat, peak: real, bound: real)
    requires n < |equity| && BoundsDrops(equity, n, bound) && IsPeak(equity, n + 1, peak)
    requires peak > 0.0 ==> Drop(peak, equity[n]) <= bound
    ensures BoundsDrops(equity, n + 1, bound)
  {
    hide Drop;
    forall i, j | 0 <= i <= j < n + 1 && equity[i] > 0.0
      ensures Drop(equity[i], equity[j]) <= bound
    {
      if j == n {
        DropGrows(equity[i], peak, equity[n]);
      }
    }
  }

  lemma AttainedStays(equity: seq<real>, n: nat, d: real)
    requires n < |equity| && AttainsDrop(equity, n, d)
    ensures AttainsDrop(equity, n + 1, d)
  {
    hide Drop;
    var i, j :| 0 <= i <= j < n && equity[i] > 0.0 && Drop(equity[i], equity[j]) == d;
    assert Drop(equity[i], equity[j]) == d;
  }

  lemma AttainedNow(equity: seq<real>, n: nat, peak: real)
    requires n < |equity| && IsPeak(equity, n + 1, peak) && peak > 0.0
    ensures AttainsDrop(equity, n + 1, Drop(peak, equity[n]))
  {
    hide Drop;
    var i :| 0 <= i < n + 1 && equity[i] == peak;
    assert Drop(equity[i], equity[n]) == Drop(peak, equity[n]);
  }

  // The running maximum drawdown is the largest drop over all ordered pairs of days, and lies in [0, 1].
  method DrawdownPct(equity: seq<real>) returns (maxDd: real)
    ensures 0.0 <= maxDd <= 1.0
    ensures BoundsDrops(equity, |equity|, maxDd)
    ensures maxDd == 0.0 || AttainsDrop(equity, |equity|, maxDd)
  {
    hide Drop, AttainsDrop, BoundsDrops;
    maxDd := 0.0;
    NoDrops(equity);
    if equity == [] {
      return;
    }
    var peak := equity[0];
    for i := 0 to |equity|
      invariant 0.0 <= maxDd <= 1.0
      invariant i > 0 ==> IsPeak(equity, i, peak)
      invariant i == 0 ==> peak == equity[0]
      invariant BoundsDrops(equity, i, maxDd)
      invariant maxDd == 0.0 || AttainsDrop(equity, i, maxDd)
    {
      var v := equity[i];
      ghost var before := maxDd;
      if v > peak {
        peak := v;
      }
      assert IsPeak(equity, i + 1, peak);
      if peak > 0.0 {
        var dd := if v > 0.0 then (peak - v) / peak else 1.0;
        DropIs(peak, v);
        DropAtMostOne(peak, v);
        dd := Min(1.0, dd);
        AttainedNow(equity, i, peak);
        if dd > maxDd {
          Loosen(equity, i, maxDd, dd);
          maxDd := dd;
        }
      }
      OneMoreLevel(equity, i, peak, maxDd);
      if maxDd == before && maxDd != 0.0 {
        AttainedStays(equity, i, maxDd);
      }
    }
  }

  lemma NoDrops(equity: seq<real>)
    ensures BoundsDrops(equity, 0, 0.0)
  {}

  lemma DropIs(peak: real, v: real)
    requires peak > 0.0
    ensures Drop(peak, v) == if v > 0.0 then (peak - v) / peak else 1.0
  {}

  lemma Loosen(equity: seq<real>, n: nat, bound: real, more: real)
    requires n <= |equity| && BoundsDrops(equity, n, bound) && bound <= more
    ensures BoundsDrops(equity, n, more)
  {
    hide Drop;
  }

  // --- one-ticker curves ---------------------------------------------------------------------

  // A positive price for each date that has one.
  type Bars = seq<Option<real>>

  predicate Positive(bars: Bars) {
    forall i :: 0 <= i < |bars| && bars[i].Some? ==> bars[i].value > 0.0
  }

  // The last price seen in the first n dates, and the first one.
  function LastPrice(bars: Bars, n: nat): Option<real>
    requires n <= |bars|
  {
    if n == 0 then None else if bars[n - 1].Some? then bars[n - 1] else LastPrice(bars, n - 1)
  }

  function Anchor(bars: Bars, n: nat): Option<real>
    requires n <= |bars|
  {
    if n == 0 then None
    else if Anchor(bars, n - 1).Some? then Anchor(bars, n - 1)
    else bars[n - 1]
  }

  // The value on a date: the base before the first bar, from then on the base times last price over anchor.
  function Level(bars: Bars, n: nat, base: real): real
    requires 0 < n <= |bars| && Positive(bars)
  {
    if LastPrice(bars, n).None? then base
    else
      AnchorIsPositive(bars, n);
      Times(base, Over(LastPrice(bars, n).value, Anchor(bars, n).value))
  }

  function Over(x: real, y: real): real
    requires y > 0.0
  {
    x / y
  }

  lemma {:induction false} AnchorIsPositive(bars: Bars, n: nat)
    requires n <= |bars| && Positive(bars)
    ensures LastPrice(bars, n).Some? <==> Anchor(bars, n).Some?
    ensures Anchor(bars, n).Some? ==> Anchor(bars, n).value > 0.0 && LastPrice(bars, n).value > 0.0
  {
    if n > 0 {
      AnchorIsPositive(bars, n - 1);
    }
  }

  // The anchored ratio, carried over gaps.
  method BenchmarkCurve(bars: Bars, base: real) returns (out: seq<real>)
    requires Positive(bars)
    ensures (exists i :: 0 <= i < |bars| && bars[i].Some?) ==>
              |out| == |bars| && forall i :: 0 <= i < |bars| ==> out[i] == Level(bars, i + 1, base)
    ensures (forall i :: 0 <= i < |bars| ==> bars[i].None?) ==> out == []
  {
    hide Times, Over, Level;
    if forall i :: 0 <= i < |bars| ==> bars[i].None? {
      return [];
    }
    out := [];
    var anchor: Option<real> := None;
    var last: Option<real> := None;
    for i := 0 to |bars|
      invariant |out| == i && anchor == Anchor(bars, i) && last == LastPrice(bars, i)
      invariant forall j :: 0 <= j < i ==> out[j] == Level(bars, j + 1, base)
    {
      var px := if bars[i].Some? then bars[i] else last;
      AnchorIsPositive(bars, i);
      AnchorIsPositive(bars, i + 1);
      LevelIs(bars, i + 1, base);
      if px.None? {
        out := out + [base];
        continue;
      }
      if anchor.None? {
        anchor := px;
      }
      last := px;
      out := out + [Times(base, Over(px.value, anchor.value))];
    }
  }

  lemma LevelIs(bars: Bars, n: nat, base: real)
    requires 0 < n <= |bars| && Positive(bars)
    ensures LastPrice(bars, n).None? ==> Level(bars, n, base) == base
    ensures LastPrice(bars, n).Some? && Anchor(bars, n).Some? && Anchor(bars, n).value > 0.0 ==>
              Level(bars, n, base) == Times(base, Over(LastPrice(bars, n).value, Anchor(bars, n).value))
  {}

  // --- the basket curve ----------------------------------------------------------------------

  type Ticker = string

  // The prices of each date; tickers without a bar are missing.
  type Table = seq<map<Ticker, real>>

  // The last positive price of a ticker in the first n dates.
  function LastOf(table: Table, n: nat, t: Ticker): Option<real>
    requires n <= |table|
  {
    if n == 0 then None
    else if t in table[n - 1] && table[n - 1][t] > 0.0 then Some(table[n - 1][t])
    else LastOf(table, n - 1, t)
  }

  lemma {:induction false} LastIsPositive(table: Table, n: nat, t: Ticker)
    requires n <= |table|
    ensures LastOf(table, n, t).Some? ==> LastOf(table, n, t).value > 0.0
  {
    if n > 0 {
      LastIsPositive(table, n - 1, t);
    }
  }

  // The day-over-day growth of every ticker that has a price on a date and had one before.
  function Growths(table: Table, i: nat): map<Ticker, real>
    requires i < |table|
  {
    map t | t in table[i] && table[i][t] > 0.0 && LastOf(table, i, t).Some? ::
      GrowthOf(table[i][t], LastOf(table, i, t).value)
  }

  function GrowthOf(px: real, last: real): real {
    if last > 0.0 then Over(px, last) - 1.0 else 0.0
  }

  // An equal-weighted basket, rebalanced daily: every date multiplies the value by the mean growth of the
  // tickers that have one.
  ghost function Basket(table: Table, n: nat, base: real): real
    requires n <= |table|
  {
    if n <= 1 then base else Times(Basket(table, n - 1, base), Factor(Growths(table, n - 1)))
  }

  ghost function Factor(growths: map<Ticker, real>): real {
    if growths == map[] then 1.0 else 1.0 + Total(growths) / |growths| as real
  }

  method BaselineCurve(table: Table, base: real) returns (out: seq<real>)
    ensures |out| == |table| && forall i :: 0 <= i < |table| ==> out[i] == Basket(table, i + 1, base)
  {
    hide Times, Over, Factor, Growths, LastOf;
    out := [];
    var last: map<Ticker, real> := map[];
    var value := base;
    NoLast(table);
    for i := 0 to |table|
      invariant |out| == i && Remembers(last, table, i)
      invariant value == Basket(table, i, base)
      invariant forall j :: 0 <= j < i ==> out[j] == Basket(table, j + 1, base)
    {
      var prices := table[i];
      if i > 0 {
        var growths := map t | t in prices && prices[t] > 0.0 && t in last && last[t] > 0.0 ::
                         Over(prices[t], last[t]) - 1.0;
        GrowthsFrom(last, table, i, growths);
        value := StepBy(value, growths);
      }
      RemembersMore(last, table, i);
      last := map t | t in last.Keys + prices.Keys && (t in last || prices[t] > 0.0) ::
                if t in prices && prices[t] > 0.0 then prices[t] else last[t];
      out := out + [value];
    }
  }

  method StepBy(value: real, growths: map<Ticker, real>) returns (next: real)
    ensures next == Times(value, Factor(growths))
  {
    next := value;
    if growths != map[] {
      var total := Sum(growths);
      next := Times(value, 1.0 + total / |growths| as real);
    }
    TimesNothing(value);
  }

  ghost predicate Remembers(last: map<Ticker, real>, table: Table, n: nat)
    requires n <= |table|
  {
    forall t :: if t in last then LastOf(table, n, t) == Some(last[t]) else LastOf(table, n, t).None?
  }

  lemma NoLast(table: Table)
    ensures Remembers(map[], table, 0)
  {}

  lemma RemembersMore(last: map<Ticker, real>, table: Table, i: nat)
    requires i < |table| && Remembers(last, table, i)
    ensures var prices := table[i];
            Remembers(map t | t in last.Keys + prices.Keys && (t in last || prices[t] > 0.0) ::
                        if t in prices && prices[t] > 0.0 then prices[t] else last[t], table, i + 1)
  {}

  lemma GrowthsFrom(last: map<Ticker, real>, table: Table, i: nat, growths: map<Ticker, real>)
    requires i < |table| && Remembers(last, table, i)
    requires growths == map t | t in table[i] && table[i][t] > 0.0 && t in last && last[t] > 0.0 ::
                          Over(table[i][t], last[t]) - 1.0
    ensures growths == Growths(table, i)
  {
    hide LastOf, Over;
    forall t | LastOf(table, i, t).Some?
      ensures LastOf(table, i, t).value > 0.0
    {
      LastIsPositive(table, i, t);
    }
    assert growths.Keys == Growths(table, i).Keys;
  }

  // The basket moves by no less than its worst and no more than its best ticker.
  lemma BasketStepsBetween(growths: map<Ticker, real>, lo: real, hi: real)
    requires growths != map[] && forall t :: t in growths ==> lo <= growths[t] <= hi
    ensures 1.0 + lo <= Factor(growths) <= 1.0 + hi
  {
    hide Times;
    var n := |growths| as real;
    TotalWithin(growths, lo, hi);
    CopiesAreTimes(|growths|, lo);
    CopiesAreTimes(|growths|, hi);
    DividedTimes(Total(growths), n);
    TimesTurns(n, Total(growths) / n);
    if Total(growths) / n < lo {
      TimesGrowsStrictly(n, Total(growths) / n, lo);
    }
    if Total(growths) / n > hi {
      TimesGrowsStrictly(n, hi, Total(growths) / n);
    }
  }

  lemma CopiesAreTimes(n: nat, x: real)
    ensures Copies(n, x) == Times(n as real, x)
  {}

  // --- one ticker ----------------------------------------------------------------------------

  function BarsOf(table: Table, t: Ticker): Bars {
    seq(|table|, i requires 0 <= i < |table| => if t in table[i] then Some(table[i][t]) else None)
  }

  predicate OnlyTicker(table: Table, t: Ticker) {
    forall i :: 0 <= i < |table| ==> forall u :: u in table[i] ==> u == t && table[i][u] > 0.0
  }

  lemma {:induction false} LastOfOne(table: Table, t: Ticker, n: nat)
    requires OnlyTicker(table, t) && n <= |table|
    ensures LastOf(table, n, t) == LastPrice(BarsOf(table, t), n)
  {
    if n > 0 {
      LastOfOne(table, t, n - 1);
    }
  }

  lemma GrowthsOfOne(table: Table, t: Ticker, i: nat)
    requires OnlyTicker(table, t) && i < |table|
    ensures Growths(table, i) == if t in table[i] && LastOf(table, i, t).Some? then
                                   map[t := GrowthOf(table[i][t], LastOf(table, i, t).value)]
                                 else map[]
  {
    hide GrowthOf, LastOf;
    var g := Growths(table, i);
    forall u | u in g
      ensures u == t
    {
      assert u in table[i];
    }
  }

  lemma FactorOfSingle(t: Ticker, x: real)
    ensures Factor(map[t := x]) == 1.0 + x
  {
    TotalTake(map[t := x], t);
    assert map[t := x] - {t} == map[];
  }

  lemma FactorOfOne(table: Table, t: Ticker, i: nat)
    requires OnlyTicker(table, t) && i < |table|
    ensures var bars := BarsOf(table, t);
            Factor(Growths(table, i))
            == if bars[i].Some? && LastPrice(bars, i).Some? && LastPrice(bars, i).value > 0.0 then
                 1.0 + (Over(bars[i].value, LastPrice(bars, i).value) - 1.0)
               else 1.0
  {
    hide Over, LastPrice, LastOf, Factor, Growths;
    LastOfOne(table, t, i);
    LastIsPositive(table, i, t);
    GrowthsOfOne(table, t, i);
    NoGrowth();
    if t in table[i] && LastOf(table, i, t).Some? {
      FactorOfSingle(t, GrowthOf(table[i][t], LastOf(table, i, t).value));
    }
  }

  lemma NoGrowth()
    ensures Factor(map[]) == 1.0
  {}

  // On one ticker the running product is the anchored ratio at every date, gaps or not: the same values as the
  // benchmark curve.
  lemma {:induction false} OneTickerBasket(table: Table, t: Ticker, n: nat, base: real)
    requires OnlyTicker(table, t) && 0 < n <= |table|
    ensures Positive(BarsOf(table, t))
    ensures Basket(table, n, base) == Level(BarsOf(table, t), n, base)
  {
    hide Times, Over, Factor, Level, Growths, LastPrice;
    var bars := BarsOf(table, t);
    LevelSteps(bars, n - 1, base);
    if n > 1 {
      OneTickerBasket(table, t, n - 1, base);
      FactorOfOne(table, t, n - 1);
      TimesNothing(Basket(table, n - 1, base));
    }
  }

  lemma Chain(base: real, a: real, b: real, c: real)
    requires a > 0.0 && b > 0.0
    ensures Times(Times(base, Over(b, a)), 1.0 + (Over(c, b) - 1.0)) == Times(base, Over(c, a))
    ensures Times(base, Over(a, a)) == base
  {
    var x, y, z := b / a, c / b, c / a;
    assert x * a == b && y * b == c && z * a == c;
    assert (x * y - z) * a == 0.0;
    assert x * y == z;
    assert base * x * y == base * (x * y);
  }

  // One more date multiplies the level by its return, and leaves it alone where there is none.
  lemma LevelSteps(bars: Bars, i: nat, base: real)
    requires i < |bars| && Positive(bars)
    ensures var before := if i == 0 then base else Level(bars, i, base);
            Level(bars, i + 1, base) ==
            if i > 0 && bars[i].Some? && LastPrice(bars, i).Some? && LastPrice(bars, i).value > 0.0 then
              Times(before, 1.0 + (Over(bars[i].value, LastPrice(bars, i).value) - 1.0))
            else before
  {
    hide Times, Over;
    AnchorIsPositive(bars, i);
    AnchorIsPositive(bars, i + 1);
    if bars[i].Some? {
      if LastPrice(bars, i).Some? {
        Chain(base, Anchor(bars, i).value, LastPrice(bars, i).value, bars[i].value);
      } else {
        Chain(base, bars[i].value, bars[i].value, bars[i].value);
      }
    }
  }
}
