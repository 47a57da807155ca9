// What every run of fills keeps: cash plus positions at cost minus booked profit is constant up to rounding.
module BookAccounting {
  import opened Decimals
  import opened BrokerBook
  import opened Sums

  // Named products, so that proofs can treat them as atoms.
  ghost function CostAt(q: real, x: real): real {
    q * x
  }

  ghost function Slack(tick: real, q: real): real {
    tick * Abs(q)
  }

  ghost function Cost(p: Position): real {
    CostAt(p.qty, p.avgCost)
  }

  ghost function CostMap(ps: map<Ticker, Position>): map<Ticker, real> {
    map t | t in ps :: Cost(ps[t])
  }

  ghost function BookedProfit(ledger: seq<LedgerEntry>): real {
    if ledger == [] then 0.0
    else BookedProfit(ledger[..|ledger| - 1]) + ledger[|ledger| - 1].realizedPnl
  }

  // Cash, plus positions at cost, minus the profit the ledger has recognised.
  ghost function BookValue(b: Book): real {
    b.cash + Total(CostMap(b.positions)) - BookedProfit(b.ledger)
  }

  // The largest error of rounding to cents and of rounding a cost.
  ghost predicate Accurate(r: Rounding, money: real, tick: real) {
    (forall x :: Abs(r.money(x) - x) <= money) && (forall x :: Abs(r.tick(x) - x) <= tick)
  }

  // What one fill may move the book value by: one cash rounding, one profit rounding and one cost rounding
  // spread over the shares held afterwards.
  ghost function Allowance(b: Book, f: Fill, r: Rounding, money: real, tick: real): real
    requires f.qty >= 0.0
  {
    2.0 * money + Slack(tick, Held(ApplyFill(b, f, r), f.ticker))
  }

  ghost function RunAllowance(b: Book, fs: seq<Fill>, r: Rounding, money: real, tick: real): real
    requires forall f :: f in fs ==> f.qty >= 0.0
  {
    if fs == [] then 0.0
    else
      var done := fs[..|fs| - 1];
      RunAllowance(b, done, r, money, tick) + Allowance(RunFills(b, done, r), fs[|fs| - 1], r, money, tick)
  }

  // The cost per share before rounding.
  ghost function UnroundedCost(p: Position, f: Fill): real
    requires f.qty >= 0.0 && (p.qty != 0.0 || f.qty > 0.0)
  {
    if Flips(p, f) then f.price else if Reduces(p, f) then p.avgCost else AveragedCost(p, f)
  }

  // What the position must cost after the fill: the old cost, the cash paid and the profit recognised.
  ghost function CostDue(p: Position, f: Fill): real {
    Cost(p) - CashDelta(f) + Realized(p, f)
  }

  // The weighted average carries the total cost of both parts.
  lemma AverageCarriesCost(p: Position, f: Fill)
    requires f.qty >= 0.0 && (p.qty != 0.0 || f.qty > 0.0) && !Reduces(p, f)
    ensures CostAt(p.qty + Signed(f), AveragedCost(p, f)) == CostDue(p, f)
  {
    var num, den := Abs(p.qty) * p.avgCost + f.qty * f.price, Abs(p.qty) + f.qty;
    assert den * (num / den) == num;
    if p.qty > 0.0 {
      assert p.qty + Signed(f) == den;
    } else {
      assert p.qty + Signed(f) == -den;
    }
  }

  // A reduction that does not cross zero gives back cost at the old basis.
  lemma ReductionCost(p: Position, f: Fill)
    requires f.qty >= 0.0 && (p.qty != 0.0 || f.qty > 0.0) && Reduces(p, f) && !Flips(p, f)
    ensures CostAt(p.qty + Signed(f), p.avgCost) == CostDue(p, f)
  {
    assert Min(Abs(p.qty), f.qty) == f.qty;
  }

  // A flip closes the whole old leg and opens the remainder at the fill price.
  lemma FlipCost(p: Position, f: Fill)
    requires f.qty >= 0.0 && (p.qty != 0.0 || f.qty > 0.0) && Flips(p, f)
    ensures CostAt(p.qty + Signed(f), f.price) == CostDue(p, f)
  {
    assert Min(Abs(p.qty), f.qty) == Abs(p.qty);
  }

  lemma UnroundedCostConserves(p: Position, f: Fill, q: real)
    requires f.qty >= 0.0 && (p.qty != 0.0 || f.qty > 0.0) && q == p.qty + Signed(f)
    ensures CostAt(q, UnroundedCost(p, f)) == CostDue(p, f)
  {
    if Flips(p, f) {
      FlipCost(p, f);
    } else if Reduces(p, f) {
      ReductionCost(p, f);
    } else {
      AverageCarriesCost(p, f);
    }
  }

  lemma RoundedCostIsNear(p: Position, f: Fill, r: Rounding, tick: real)
    requires f.qty >= 0.0 && (p.qty != 0.0 || f.qty > 0.0)
    requires forall x :: Abs(r.tick(x) - x) <= tick
    ensures Abs(NextCost(p, f, r) - UnroundedCost(p, f)) <= tick
  {
    var x := UnroundedCost(p, f);
    assert Abs(r.tick(x) - x) <= tick;
  }

  lemma ScaledError(q: real, n: real, x: real, w: real, tick: real)
    requires Abs(n - x) <= tick && CostAt(q, x) == w
    ensures Abs(CostAt(q, n) - w) <= Slack(tick, q)
  {
    assert q * n - w == q * (n - x);
    if q >= 0.0 {
      assert -(tick * q) <= q * (n - x) <= tick * q;
    } else {
      assert -(tick * -q) <= -q * (n - x) <= tick * -q;
    }
  }

  // One position: rounding the cost per share is the only way the cost can move off what is due.
  lemma PositionCost(p: Position, f: Fill, r: Rounding, tick: real, next: Position)
    requires f.qty >= 0.0 && (p.qty != 0.0 || f.qty > 0.0)
    requires forall x :: Abs(r.tick(x) - x) <= tick
    requires next.qty == p.qty + Signed(f) && next.avgCost == NextCost(p, f, r)
    ensures Abs(CostAt(next.qty, next.avgCost) - CostDue(p, f)) <= Slack(tick, next.qty)
  {
    hide *;
    UnroundedCostConserves(p, f, next.qty);
    RoundedCostIsNear(p, f, r, tick);
    ScaledError(next.qty, next.avgCost, UnroundedCost(p, f), CostDue(p, f), tick);
  }

  lemma CostMapPut(ps: map<Ticker, Position>, t: Ticker, p: Position)
    ensures CostMap(ps[t := p]) == CostMap(ps)[t := Cost(p)]
    ensures CostMap(ps - {t}) == CostMap(ps) - {t}
  {}

  // What the position map must cost after the fill.
  ghost function TotalDue(b: Book, f: Fill): real {
    Total(CostMap(b.positions)) - CashDelta(f) + RealizedBy(b, f)
  }

  lemma CostMovesHeld(b: Book, f: Fill, r: Rounding, tick: real)
    requires f.qty >= 0.0 && !DividesByZero(b, f) && f.ticker in b.positions
    requires forall x :: Abs(r.tick(x) - x) <= tick
    ensures var p := NextPosition(b, f, r);
            Abs(Total(CostMap(b.positions) - {f.ticker}) + Cost(p) - TotalDue(b, f)) <= Slack(tick, p.qty)
  {
    var p := NextPosition(b, f, r);
    PositionCost(b.positions[f.ticker], f, r, tick, p);
    TotalPut(CostMap(b.positions), f.ticker, 0.0);
  }

  lemma CostMovesOpened(b: Book, f: Fill)
    requires f.ticker !in b.positions
    ensures Total(CostMap(b.positions) - {f.ticker}) + CostAt(Signed(f), f.price) == TotalDue(b, f)
  {
    TotalPut(CostMap(b.positions), f.ticker, 0.0);
  }

  lemma CostMoves(b: Book, f: Fill, r: Rounding, tick: real)
    requires f.qty >= 0.0 && !DividesByZero(b, f)
    requires forall x :: Abs(r.tick(x) - x) <= tick
    ensures Abs(Total(CostMap(ApplyFill(b, f, r).positions)) - TotalDue(b, f))
            <= Slack(tick, Held(ApplyFill(b, f, r), f.ticker))
  {
    hide Total, CostMap, NextPosition, TotalDue, Slack, CostAt, Abs;
    var p := NextPosition(b, f, r);
    TotalAfter(b, f, r);
    if f.ticker in b.positions {
      CostMovesHeld(b, f, r, tick);
    } else {
      NextOpened(b, f, r);
      CostMovesOpened(b, f);
      SlackIsNonNegative(r, tick, p.qty);
    }
  }

  lemma NextOpened(b: Book, f: Fill, r: Rounding)
    requires f.qty >= 0.0 && f.ticker !in b.positions
    ensures NextPosition(b, f, r) == Position(Signed(f), f.price, 0.0)
  {}

  lemma SlackIsNonNegative(r: Rounding, tick: real, q: real)
    requires forall x :: Abs(r.tick(x) - x) <= tick
    ensures Slack(tick, q) >= 0.0 && Abs(0.0) == 0.0
  {
    assert Abs(r.tick(0.0) - 0.0) <= tick;
  }

  // The cost of all positions after the fill, with the touched one set apart.
  lemma TotalAfter(b: Book, f: Fill, r: Rounding)
    requires f.qty >= 0.0 && !DividesByZero(b, f)
    ensures var p := NextPosition(b, f, r);
            Total(CostMap(ApplyFill(b, f, r).positions)) == Total(CostMap(b.positions) - {f.ticker}) + Cost(p)
            && Held(ApplyFill(b, f, r), f.ticker) == p.qty
  {
    hide NextPosition, Total, CostMap;
    var p := NextPosition(b, f, r);
    CostMapPut(b.positions, f.ticker, p);
    TotalPut(CostMap(b.positions), f.ticker, Cost(p));
    if f.ticker in b.positions && p.qty == 0.0 {
      NoCost(p);
    }
  }

  lemma NoCost(p: Position)
    requires p.qty == 0.0
    ensures Cost(p) == 0.0
  {}

  lemma LedgerGrows(b: Book, f: Fill, r: Rounding)
    requires f.qty >= 0.0 && !DividesByZero(b, f)
    ensures BookedProfit(ApplyFill(b, f, r).ledger) == BookedProfit(b.ledger) + r.money(RealizedBy(b, f))
  {
    var l := ApplyFill(b, f, r).ledger;
    assert l[..|l| - 1] == b.ledger;
  }

  lemma CashMoves(b: Book, f: Fill, r: Rounding, money: real)
    requires f.qty >= 0.0 && !DividesByZero(b, f)
    requires forall x :: Abs(r.money(x) - x) <= money
    ensures Abs(ApplyFill(b, f, r).cash - (b.cash + CashDelta(f))) <= money
    ensures Abs(r.money(RealizedBy(b, f)) - RealizedBy(b, f)) <= money
  {
    var cash := b.cash + CashDelta(f);
    assert Abs(r.money(cash) - cash) <= money;
  }

  lemma FillMovesBookValue(b: Book, f: Fill, r: Rounding, money: real, tick: real)
    requires f.qty >= 0.0 && Accurate(r, money, tick)
    ensures Abs(BookValue(ApplyFill(b, f, r)) - BookValue(b)) <= Allowance(b, f, r, money, tick)
  {
    hide CostAt, Slack, CostMap, Total, BookedProfit, ApplyFill, RealizedBy, CashDelta, Held, DividesByZero;
    var c := ApplyFill(b, f, r);
    if DividesByZero(b, f) {
      RaisedFill(b, f, r, money, tick);
    } else {
      CostMoves(b, f, r, tick);
      LedgerGrows(b, f, r);
      CashMoves(b, f, r, money);
    }
  }

  lemma RaisedFill(b: Book, f: Fill, r: Rounding, money: real, tick: real)
    requires f.qty >= 0.0 && DividesByZero(b, f) && Accurate(r, money, tick)
    ensures ApplyFill(b, f, r) == b && Allowance(b, f, r, money, tick) >= 0.0
  {
    assert Abs(r.money(0.0) - 0.0) <= money && Abs(r.tick(0.0) - 0.0) <= tick;
  }

  // Accounting identity, for any rounding of known accuracy.
  lemma {:induction false} RunKeepsBookValue(b: Book, fs: seq<Fill>, r: Rounding, money: real, tick: real)
    requires forall f :: f in fs ==> f.qty >= 0.0
    requires Accurate(r, money, tick)
    ensures Abs(BookValue(RunFills(b, fs, r)) - BookValue(b)) <= RunAllowance(b, fs, r, money, tick)
  {
    hide Accurate, Allowance, BookValue, ApplyFill;
    if fs != [] {
      var done := fs[..|fs| - 1];
      RunKeepsBookValue(b, done, r, money, tick);
      FillMovesBookValue(RunFills(b, done, r), fs[|fs| - 1], r, money, tick);
    }
  }

  // In exact arithmetic the book value never moves.
  lemma ExactAccountingIdentity(b: Book, fs: seq<Fill>)
    requires forall f :: f in fs ==> f.qty >= 0.0
    ensures BookValue(RunFills(b, fs, EXACT)) == BookValue(b)
  {
    hide BookValue, RunFills, RunAllowance;
    ExactIsAccurate();
    RunKeepsBookValue(b, fs, EXACT, 0.0, 0.0);
    NoAllowance(b, fs);
  }

  lemma ExactIsAccurate()
    ensures Accurate(EXACT, 0.0, 0.0)
  {
    forall x
      ensures Abs(EXACT.money(x) - x) <= 0.0 && Abs(EXACT.tick(x) - x) <= 0.0
    {
      assert EXACT.money(x) == x && EXACT.tick(x) == x;
    }
  }

  lemma {:induction false} NoAllowance(b: Book, fs: seq<Fill>)
    requires forall f :: f in fs ==> f.qty >= 0.0
    ensures RunAllowance(b, fs, EXACT, 0.0, 0.0) == 0.0
  {
    if fs != [] {
      NoAllowance(b, fs[..|fs| - 1]);
    }
  }

  lemma CodeIsAccurate()
    ensures Accurate(CODE, 0.005, 0.00005)
  {
    forall x
      ensures Abs(CODE.money(x) - x) <= 0.005 && Abs(CODE.tick(x) - x) <= 0.00005
    {
      assert CODE.money(x) == Money(x) && CODE.tick(x) == Tick(x);
    }
  }

  // With the code's roundings each fill moves it by at most half a cent of cash, half a cent of profit and
  // 0.00005 per share held afterwards.
  lemma CodeAccountingIdentity(b: Book, fs: seq<Fill>)
    requires forall f :: f in fs ==> f.qty >= 0.0
    ensures Abs(BookValue(RunFills(b, fs, CODE)) - BookValue(b)) <= RunAllowance(b, fs, CODE, 0.005, 0.00005)
  {
    CodeIsAccurate();
    RunKeepsBookValue(b, fs, CODE, 0.005, 0.00005);
  }
}
