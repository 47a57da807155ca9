// The realised profit stored on a position, against the ledger rows of its symbol.
module RealizedProfit {
  import opened Decimals
  import opened Options
  import opened BrokerBook

  // The profit rows of a symbol since it was last opened: a row that leaves nothing held ends the count, and
  // the next one starts a new position at zero.
  ghost function ProfitSince(rows: seq<LedgerEntry>, t: Ticker, opening: real): real {
    if rows == [] then opening
    else
      var e, before := rows[|rows| - 1], ProfitSince(rows[..|rows| - 1], t, opening);
      if e.ticker != t then before else if e.qtyAfter == Some(0.0) then 0.0 else before + e.realizedPnl
  }

  // A row that reduces, closes or flips what was held before it.
  ghost predicate ReducingRow(e: LedgerEntry) {
    e.qtyAfter.Some?
    && var before := e.qtyAfter.value - e.qtyDelta;
       before != 0.0 && (before > 0.0) != (e.qtyDelta > 0.0)
  }

  ghost function ReductionsSince(rows: seq<LedgerEntry>, t: Ticker): nat {
    if rows == [] then 0
    else
      var e, before := rows[|rows| - 1], ReductionsSince(rows[..|rows| - 1], t);
      if e.ticker != t then before
      else if e.qtyAfter == Some(0.0) then 0
      else before + if ReducingRow(e) then 1 else 0
  }

  ghost function StoredProfit(b: Book, t: Ticker): real {
    if t in b.positions then b.positions[t].realized else 0.0
  }

  // A rounding of profits that is accurate and leaves alone what it has rounded.
  ghost predicate Settles(r: Rounding, error: real) {
    && (forall x :: Abs(r.money(x) - x) <= error) && (forall x :: Abs(r.cents(x) - x) <= error)
    && (forall x :: r.cents(r.cents(x)) == r.cents(x))
    && r.money(0.0) == 0.0 && r.cents(0.0) == 0.0
  }

  ghost predicate Settled(b: Book, r: Rounding) {
    forall t :: t in b.positions ==> r.cents(b.positions[t].realized) == b.positions[t].realized
  }

  // What the ledger rows written since a book say about a symbol's stored profit.
  ghost predicate ProfitExplained(open: Book, b: Book, t: Ticker, error: real)
    requires |open.ledger| <= |b.ledger|
  {
    var rows := b.ledger[|open.ledger|..];
    t in b.positions ==>
      Abs(b.positions[t].realized - ProfitSince(rows, t, StoredProfit(open, t)))
      <= Times(2.0 * error, ReductionsSince(rows, t) as real)
  }

  lemma OneMoreRow(rows: seq<LedgerEntry>, e: LedgerEntry, t: Ticker, opening: real)
    ensures ProfitSince(rows + [e], t, opening)
            == if e.ticker != t then ProfitSince(rows, t, opening)
               else if e.qtyAfter == Some(0.0) then 0.0
               else ProfitSince(rows, t, opening) + e.realizedPnl
    ensures ReductionsSince(rows + [e], t)
            == if e.ticker != t then ReductionsSince(rows, t)
               else if e.qtyAfter == Some(0.0) then 0
               else ReductionsSince(rows, t) + if ReducingRow(e) then 1 else 0
  {
    assert (rows + [e])[..|rows|] == rows;
  }

  // One position: the stored profit moves by what the row says, exactly unless the fill reduces.
  lemma PositionProfit(p: Position, f: Fill, r: Rounding, error: real, next: Position)
    requires f.qty >= 0.0 && (p.qty != 0.0 || f.qty > 0.0) && Settles(r, error)
    requires r.cents(p.realized) == p.realized
    requires next.realized == if Reduces(p, f) then r.cents(p.realized + Realized(p, f)) else p.realized
    ensures r.cents(next.realized) == next.realized
    ensures Abs(next.realized - (p.realized + r.money(Realized(p, f))))
            <= if p.qty != 0.0 && Reduces(p, f) then 2.0 * error else 0.0
  {
    hide Reduces;
    var x := Realized(p, f);
    assert Abs(r.money(x) - x) <= error;
    if Reduces(p, f) {
      var y := p.realized + x;
      assert Abs(r.cents(y) - y) <= error && r.cents(r.cents(y)) == r.cents(y);
      if p.qty == 0.0 {
        NothingClosed(p, f);
      }
    } else {
      NotReduced(p, f);
    }
  }

  lemma NothingClosed(p: Position, f: Fill)
    requires p.qty == 0.0 && f.qty >= 0.0
    ensures Realized(p, f) == 0.0
  {
    assert Min(Abs(p.qty), f.qty) == 0.0;
  }

  lemma NotReduced(p: Position, f: Fill)
    requires !Reduces(p, f)
    ensures Realized(p, f) == 0.0
  {}

  // The row of a fill on its own symbol.
  lemma FillRow(b: Book, f: Fill, r: Rounding)
    requires f.qty >= 0.0 && !DividesByZero(b, f)
    ensures var e := FillEntry(b, f, r);
            && ApplyFill(b, f, r).ledger == b.ledger + [e] && e.ticker == f.ticker
            && e.qtyAfter == Some(Held(b, f.ticker) + Signed(f))
            && e.realizedPnl == r.money(RealizedBy(b, f))
            && (f.ticker in b.positions ==>
                  (ReducingRow(e) <==> b.positions[f.ticker].qty != 0.0 && Reduces(b.positions[f.ticker], f)))
  {
    hide Realized, CashDelta;
  }

  lemma StoredAfter(b: Book, f: Fill, r: Rounding)
    requires f.qty >= 0.0 && !DividesByZero(b, f)
    ensures var c, t := ApplyFill(b, f, r), f.ticker;
            && (forall u :: u != t ==> (u in c.positions <==> u in b.positions)
                                       && (u in b.positions ==> c.positions[u] == b.positions[u]))
            && (t in b.positions ==>
                  var p := b.positions[t];
                  (t in c.positions <==> p.qty + Signed(f) != 0.0)
                  && (t in c.positions ==>
                        c.positions[t].realized
                        == if Reduces(p, f) then r.cents(p.realized + Realized(p, f)) else p.realized))
            && (t !in b.positions ==> t in c.positions && c.positions[t].realized == 0.0)
  {
    hide NextCost, Realized, CashDelta, Reduces, FillEntry, Signed;
  }

  lemma Slack(n: nat, error: real)
    requires error >= 0.0
    ensures Times(2.0 * error, n as real) >= 0.0
    ensures Times(2.0 * error, (n + 1) as real) == Times(2.0 * error, n as real) + 2.0 * error
    ensures n == 0 ==> Times(2.0 * error, n as real) == 0.0
  {
    ProductNotNegative(2.0 * error, n as real);
    assert (n + 1) as real == n as real + 1.0;
  }

  lemma FillKeepsProfit(open: Book, b: Book, f: Fill, r: Rounding, error: real, t: Ticker)
    requires f.qty >= 0.0 && Settles(r, error) && Settled(b, r)
    requires |open.ledger| <= |b.ledger| && ProfitExplained(open, b, t, error)
    requires t in b.positions || ProfitSince(b.ledger[|open.ledger|..], t, StoredProfit(open, t)) == 0.0
    requires t in b.positions || ReductionsSince(b.ledger[|open.ledger|..], t) == 0
    ensures var c := ApplyFill(b, f, r);
            && |open.ledger| <= |c.ledger| && ProfitExplained(open, c, t, error)
            && (t in c.positions || ProfitSince(c.ledger[|open.ledger|..], t, StoredProfit(open, t)) == 0.0)
            && (t in c.positions || ReductionsSince(c.ledger[|open.ledger|..], t) == 0)
  {
    hide ApplyFill, DividesByZero, Held, RealizedBy, Times, ReducingRow, FillEntry, Reduces, Realized;
    if DividesByZero(b, f) {
      Unchanged(b, f, r);
    } else {
      var n, e := |open.ledger|, FillEntry(b, f, r);
      var rows, opening := b.ledger[n..], StoredProfit(open, t);
      FillRow(b, f, r);
      StoredAfter(b, f, r);
      assert (b.ledger + [e])[n..] == rows + [e];
      OneMoreRow(rows, e, t, opening);
      assert Abs(r.money(0.0) - 0.0) <= error;
      Slack(ReductionsSince(rows, t), error);
      if f.ticker == t {
        OwnFill(b, f, r, error);
        Slack(0, error);
      }
    }
  }

  lemma Unchanged(b: Book, f: Fill, r: Rounding)
    requires f.qty >= 0.0 && DividesByZero(b, f)
    ensures ApplyFill(b, f, r) == b
  {}

  // A fill on the symbol itself, in terms of the row it writes.
  lemma OwnFill(b: Book, f: Fill, r: Rounding, error: real)
    requires f.qty >= 0.0 && !DividesByZero(b, f) && Settles(r, error) && Settled(b, r)
    ensures var c, e, t := ApplyFill(b, f, r), FillEntry(b, f, r), f.ticker;
            && e.qtyAfter.Some?
            && (t in b.positions && t in c.positions ==>
                  e.qtyAfter != Some(0.0)
                  && Abs(c.positions[t].realized - (b.positions[t].realized + e.realizedPnl))
                     <= if ReducingRow(e) then 2.0 * error else 0.0)
            && (t in b.positions && t !in c.positions ==> e.qtyAfter == Some(0.0))
            && (t !in b.positions ==> t in c.positions && c.positions[t].realized == 0.0 && e.realizedPnl == 0.0)
            && (t !in b.positions ==> !ReducingRow(e))
  {
    hide ApplyFill, DividesByZero, Reduces, Realized, FillEntry, ReducingRow;
    FillRow(b, f, r);
    StoredAfter(b, f, r);
    if f.ticker in b.positions {
      var p := b.positions[f.ticker];
      CanAverage(b, f);
      if f.ticker in ApplyFill(b, f, r).positions {
        PositionProfit(p, f, r, error, ApplyFill(b, f, r).positions[f.ticker]);
      }
    } else {
      OpeningRow(b, f, r);
    }
  }

  lemma CanAverage(b: Book, f: Fill)
    requires f.qty >= 0.0 && !DividesByZero(b, f) && f.ticker in b.positions
    ensures b.positions[f.ticker].qty != 0.0 || f.qty > 0.0
  {}

  lemma OpeningRow(b: Book, f: Fill, r: Rounding)
    requires f.ticker !in b.positions
    ensures !ReducingRow(FillEntry(b, f, r)) && RealizedBy(b, f) == 0.0
  {}

  lemma FillKeepsSettled(b: Book, f: Fill, r: Rounding, error: real)
    requires f.qty >= 0.0 && Settles(r, error) && Settled(b, r)
    ensures Settled(ApplyFill(b, f, r), r)
  {
    hide ApplyFill, DividesByZero, Reduces, Realized;
    if DividesByZero(b, f) {
      Unchanged(b, f, r);
    } else {
      StoredAfter(b, f, r);
      if f.ticker in b.positions && f.ticker in ApplyFill(b, f, r).positions {
        CanAverage(b, f);
        PositionProfit(b.positions[f.ticker], f, r, error, ApplyFill(b, f, r).positions[f.ticker]);
      }
    }
  }

  // Over every run of fills the profit stored on a held position is its opening value plus the profit rows of
  // its symbol since it was last opened, up to two roundings for each fill that reduced it.
  lemma {:induction false} RunKeepsProfit(b: Book, fs: seq<Fill>, r: Rounding, error: real, t: Ticker)
    requires (forall f :: f in fs ==> f.qty >= 0.0) && Settles(r, error) && Settled(b, r)
    ensures var c := RunFills(b, fs, r);
            && |b.ledger| <= |c.ledger| && Settled(c, r) && ProfitExplained(b, c, t, error)
            && (t in c.positions || ProfitSince(c.ledger[|b.ledger|..], t, StoredProfit(b, t)) == 0.0)
            && (t in c.positions || ReductionsSince(c.ledger[|b.ledger|..], t) == 0)
  {
    hide Settles, Settled, ApplyFill, ProfitExplained;
    if fs == [] {
      assert b.ledger[|b.ledger|..] == [];
      NothingYet(b, r, error, t);
    } else {
      var done := fs[..|fs| - 1];
      RunKeepsProfit(b, done, r, error, t);
      FillKeepsProfit(b, RunFills(b, done, r), fs[|fs| - 1], r, error, t);
      FillKeepsSettled(RunFills(b, done, r), fs[|fs| - 1], r, error);
    }
  }

  lemma NothingYet(b: Book, r: Rounding, error: real, t: Ticker)
    requires Settles(r, error)
    ensures ProfitExplained(b, b, t, error)
  {
    assert b.ledger[|b.ledger|..] == [];
    assert Abs(r.money(0.0) - 0.0) <= error;
    Slack(0, error);
  }

  // In exact arithmetic the two agree.
  lemma ExactProfit(b: Book, fs: seq<Fill>, t: Ticker)
    requires forall f :: f in fs ==> f.qty >= 0.0
    ensures var c := RunFills(b, fs, EXACT);
            && |b.ledger| <= |c.ledger|
            && (t in c.positions ==>
                  c.positions[t].realized == ProfitSince(c.ledger[|b.ledger|..], t, StoredProfit(b, t)))
  {
    hide RunFills, ProfitSince, ReductionsSince;
    ExactSettles(b);
    RunKeepsProfit(b, fs, EXACT, 0.0, t);
    var c := RunFills(b, fs, EXACT);
    TimesNothing(ReductionsSince(c.ledger[|b.ledger|..], t) as real);
  }

  lemma ExactSettles(b: Book)
    ensures Settles(EXACT, 0.0) && Settled(b, EXACT)
  {
    forall x
      ensures EXACT.money(x) == x && EXACT.cents(x) == x
    {}
  }

  // With the code's roundings, from profits stored in cents, they part by at most a cent for each reducing fill.
  lemma CodeProfit(b: Book, fs: seq<Fill>, t: Ticker)
    requires forall f :: f in fs ==> f.qty >= 0.0
    requires forall u :: u in b.positions ==> IsCents(b.positions[u].realized)
    ensures var c := RunFills(b, fs, CODE);
            && |b.ledger| <= |c.ledger|
            && (t in c.positions ==>
                  Abs(c.positions[t].realized - ProfitSince(c.ledger[|b.ledger|..], t, StoredProfit(b, t)))
                  <= Times(0.01, ReductionsSince(c.ledger[|b.ledger|..], t) as real))
  {
    hide RunFills, ProfitSince, ReductionsSince;
    CodeSettles(b);
    RunKeepsProfit(b, fs, CODE, 0.005, t);
  }

  lemma CodeSettles(b: Book)
    requires forall u :: u in b.positions ==> IsCents(b.positions[u].realized)
    ensures Settles(CODE, 0.005) && Settled(b, CODE)
  {
    hide Money, CentsHalfEven, IsCents;
    assert IsCents(0.0) by {
      ZeroIsCents();
    }
    forall x
      ensures CODE.money(x) == Money(x) && CODE.cents(x) == CentsHalfEven(x)
    {}
  }

  lemma ZeroIsCents()
    ensures IsCents(0.0)
  {
    IsWhole(0);
  }
}
