// The average cost of a position stays between the prices that built it.
module CostBasis {
  import opened Decimals
  import opened BrokerBook

  // For every held symbol, the prices of the fills that opened, flipped or increased the position since it
  // last changed side.
  type Basis = map<Ticker, seq<real>>

  ghost function NextBasis(built: Basis, b: Book, f: Fill): Basis
    requires f.qty > 0.0
  {
    if f.ticker !in b.positions || f.ticker !in built then built[f.ticker := [f.price]]
    else
      var p := b.positions[f.ticker];
      if p.qty + Signed(f) == 0.0 then built - {f.ticker}
      else if Flips(p, f) then built[f.ticker := [f.price]]
      else if Reduces(p, f) then built
      else built[f.ticker := built[f.ticker] + [f.price]]
  }

  ghost function RunBasis(built: Basis, b: Book, fs: seq<Fill>): Basis
    requires forall f :: f in fs ==> f.qty > 0.0
  {
    if fs == [] then built
    else
      var done := fs[..|fs| - 1];
      NextBasis(RunBasis(built, b, done), RunFills(b, done, CODE), fs[|fs| - 1])
  }

  ghost predicate Between(prices: seq<real>, x: real) {
    exists i, j :: 0 <= i < |prices| && 0 <= j < |prices| && prices[i] <= x <= prices[j]
  }

  ghost predicate OnGrid(prices: seq<real>) {
    forall i :: 0 <= i < |prices| ==> IsTick(prices[i])
  }

  ghost predicate Enveloped(built: Basis, b: Book) {
    && built.Keys == b.positions.Keys
    && (forall t :: t in b.positions ==> b.positions[t].qty != 0.0)
    && (forall t :: t in b.positions ==> OnGrid(built[t]) && Between(built[t], b.positions[t].avgCost))
  }

  lemma AverageIsBetween(p: Position, f: Fill, lo: real, hi: real)
    requires f.qty > 0.0 && lo <= p.avgCost <= hi && lo <= f.price <= hi
    ensures lo <= AveragedCost(p, f) <= hi
  {
    hide Weighted;
    WeightedBetween(Abs(p.qty), p.avgCost, f.qty, f.price, lo, hi);
  }

  lemma WeightedBetween(w: real, a: real, q: real, x: real, lo: real, hi: real)
    requires w >= 0.0 && q > 0.0 && lo <= a <= hi && lo <= x <= hi
    ensures lo <= Weighted(w, a, q, x) <= hi
  {
    hide Times, Weighted;
    TimesGrows(w, lo, a);
    TimesGrows(w, a, hi);
    TimesGrows(q, lo, x);
    TimesGrows(q, x, hi);
    TimesSplits(w, q, lo);
    TimesSplits(w, q, hi);
    WeightedTimes(w, a, q, x);
    if Weighted(w, a, q, x) < lo {
      TimesGrowsStrictly(w + q, Weighted(w, a, q, x), lo);
    }
    if Weighted(w, a, q, x) > hi {
      TimesGrowsStrictly(w + q, hi, Weighted(w, a, q, x));
    }
  }

  lemma WeightedTimes(w: real, a: real, q: real, x: real)
    requires w + q > 0.0
    ensures Times(w + q, Weighted(w, a, q, x)) == Times(w, a) + Times(q, x)
  {
    var num, den := w * a + q * x, w + q;
    assert den * (num / den) == num;
  }

  lemma TimesSplits(w: real, q: real, x: real)
    ensures Times(w + q, x) == Times(w, x) + Times(q, x)
  {}

  // Increasing, with the average rounded to four decimals.
  lemma IncreaseStaysBetween(prices: seq<real>, p: Position, f: Fill)
    requires f.qty > 0.0 && IsTick(f.price) && OnGrid(prices) && Between(prices, p.avgCost)
    ensures Between(prices + [f.price], Tick(AveragedCost(p, f)))
  {
    hide Tick, AveragedCost, IsTick;
    var i, j :| 0 <= i < |prices| && 0 <= j < |prices| && prices[i] <= p.avgCost <= prices[j];
    var more := prices + [f.price];
    assert more[i] == prices[i] && more[j] == prices[j] && more[|prices|] == f.price;
    var lo := if prices[i] <= f.price then i else |prices|;
    var hi := if prices[j] >= f.price then j else |prices|;
    AverageIsBetween(p, f, more[lo], more[hi]);
    TickStaysBetween(AveragedCost(p, f), more[lo], more[hi]);
  }

  lemma FillKeepsEnvelope(built: Basis, b: Book, f: Fill)
    requires Enveloped(built, b) && f.qty > 0.0 && IsTick(f.price)
    ensures Enveloped(NextBasis(built, b, f), ApplyFill(b, f, CODE))
  {
    hide Tick, Money, AveragedCost, IsTick, Realized, FillEntry, CashDelta, CentsHalfEven, Between, OnGrid;
    var after, c := NextBasis(built, b, f), ApplyFill(b, f, CODE);
    if f.ticker in b.positions {
      PositionKeepsEnvelope(built[f.ticker], b.positions[f.ticker], f);
    }
    OpeningPrice(f.price);
  }

  lemma OpeningPrice(x: real)
    ensures Between([x], x) && (IsTick(x) ==> OnGrid([x]))
  {
    assert [x][0] == x;
  }

  lemma PositionKeepsEnvelope(prices: seq<real>, p: Position, f: Fill)
    requires f.qty > 0.0 && IsTick(f.price) && OnGrid(prices) && Between(prices, p.avgCost)
    ensures if Flips(p, f) then NextCost(p, f, CODE) == f.price
            else if Reduces(p, f) then NextCost(p, f, CODE) == p.avgCost
            else OnGrid(prices + [f.price]) && Between(prices + [f.price], NextCost(p, f, CODE))
  {
    hide AveragedCost, Between, Flips, Reduces;
    IncreaseStaysBetween(prices, p, f);
  }

  // Over every run of positive fills on the price grid, each position's average cost lies between the lowest
  // and the highest price that built it.
  lemma {:induction false} CostStaysInEnvelope(built: Basis, b: Book, fs: seq<Fill>)
    requires Enveloped(built, b)
    requires forall f :: f in fs ==> f.qty > 0.0 && IsTick(f.price)
    ensures Enveloped(RunBasis(built, b, fs), RunFills(b, fs, CODE))
  {
    hide Enveloped, ApplyFill, NextBasis, IsTick;
    if fs != [] {
      var done := fs[..|fs| - 1];
      CostStaysInEnvelope(built, b, done);
      FillKeepsEnvelope(RunBasis(built, b, done), RunFills(b, done, CODE), fs[|fs| - 1]);
    }
  }
}
