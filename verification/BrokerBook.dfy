// The broker book: cash, signed positions and an append-only ledger, moved by venue fills and by
// reconciliation adjustments. Amounts are exact reals; every rounding the code performs is explicit.
module BrokerBook {
  import opened Decimals
  import opened Options

  type Ticker = string

  datatype Side = Buy | Sell

  datatype Position = Position(qty: real, avgCost: real, realized: real)

  datatype Kind = BrokerFill | Adjustment

  datatype LedgerEntry = LedgerEntry(
    kind: Kind, ticker: Ticker, qtyDelta: real, price: Option<real>, cashDelta: real,
    realizedPnl: real, qtyAfter: Option<real>, cashAfter: real, source: Option<FillKey>)

  // The local order and the venue's fill id: what makes a fill row unique.
  type FillKey = (string, string)

  // A fill as stored: quantity already on six decimals and price on four.
  datatype Fill = Fill(key: FillKey, ticker: Ticker, side: Side, qty: real, price: real)

  // A fill as the venue reports it, against a local order.
  datatype Report = Report(order: string, fillId: string, ticker: Ticker, side: Side, qty: real, price: real)

  datatype Book = Book(
    cash: real, positions: map<Ticker, Position>, ledger: seq<LedgerEntry>, booked: set<FillKey>)

  // The three roundings the code applies, kept apart from the arithmetic so that the accounting
  // statements can be made for the code's roundings and for exact arithmetic alike.
  datatype Rounding = Rounding(money: real -> real, cents: real -> real, tick: real -> real)

  const CODE := Rounding(x => Money(x), x => CentsHalfEven(x), x => Tick(x))
  const EXACT := Rounding(x => x, x => x, x => x)

  function Signed(f: Fill): real {
    if f.side == Buy then f.qty else -f.qty
  }

  // A product by name, so that proofs can treat it as an atom.
  function Notional(qty: real, price: real): real {
    qty * price
  }

  function CashDelta(f: Fill): real {
    if f.side == Buy then -(f.qty * f.price) else f.qty * f.price
  }

  function Held(b: Book, t: Ticker): real {
    if t in b.positions then b.positions[t].qty else 0.0
  }

  // The averaging division has a zero denominator exactly here; the exception rolls the fill back.
  predicate DividesByZero(b: Book, f: Fill) {
    f.ticker in b.positions && b.positions[f.ticker].qty == 0.0 && f.qty == 0.0
  }

  predicate Reduces(p: Position, f: Fill) {
    (p.qty > 0.0) != (Signed(f) > 0.0)
  }

  predicate Flips(p: Position, f: Fill) {
    Reduces(p, f) && p.qty + Signed(f) != 0.0 && (p.qty + Signed(f) > 0.0) != (p.qty > 0.0)
  }

  function Realized(p: Position, f: Fill): real {
    if !Reduces(p, f) then 0.0
    else
      var closed := Min(Abs(p.qty), f.qty);
      if p.qty > 0.0 then (f.price - p.avgCost) * closed else (p.avgCost - f.price) * closed
  }

  function Weighted(w: real, a: real, q: real, x: real): real
    requires w + q != 0.0
  {
    (w * a + q * x) / (w + q)
  }

  function AveragedCost(p: Position, f: Fill): real
    requires p.qty != 0.0 || f.qty > 0.0
    requires f.qty >= 0.0
  {
    Weighted(Abs(p.qty), p.avgCost, f.qty, f.price)
  }

  function NextCost(p: Position, f: Fill, r: Rounding): real
    requires f.qty >= 0.0 && (p.qty != 0.0 || f.qty > 0.0)
  {
    if Flips(p, f) then r.tick(f.price)
    else if Reduces(p, f) then p.avgCost
    else r.tick(AveragedCost(p, f))
  }

  // The position after the fill; it is stored unless it closed to zero.
  function NextPosition(b: Book, f: Fill, r: Rounding): Position
    requires f.qty >= 0.0 && !DividesByZero(b, f)
  {
    if f.ticker !in b.positions then Position(Signed(f), f.price, 0.0)
    else
      var p := b.positions[f.ticker];
      Position(
        p.qty + Signed(f),
        NextCost(p, f, r),
        if Reduces(p, f) then r.cents(p.realized + Realized(p, f)) else p.realized)
  }

  function RealizedBy(b: Book, f: Fill): real {
    if f.ticker in b.positions then Realized(b.positions[f.ticker], f) else 0.0
  }

  function FillEntry(b: Book, f: Fill, r: Rounding): LedgerEntry {
    LedgerEntry(
      BrokerFill, f.ticker, Signed(f), Some(f.price), r.money(CashDelta(f)),
      r.money(RealizedBy(b, f)), Some(Held(b, f.ticker) + Signed(f)), r.money(b.cash + CashDelta(f)),
      Some(f.key))
  }

  function NextPositions(b: Book, f: Fill, r: Rounding): map<Ticker, Position>
    requires f.qty >= 0.0 && !DividesByZero(b, f)
  {
    var p := NextPosition(b, f, r);
    if f.ticker in b.positions && p.qty == 0.0 then b.positions - {f.ticker} else b.positions[f.ticker := p]
  }

  // One fill on one book.
  function ApplyFill(b: Book, f: Fill, r: Rounding): Book
    requires f.qty >= 0.0
  {
    if DividesByZero(b, f) then b
    else
      Book(r.money(b.cash + CashDelta(f)), NextPositions(b, f, r), b.ledger + [FillEntry(b, f, r)], b.booked)
  }

  function RunFills(b: Book, fs: seq<Fill>, r: Rounding): Book
    requires forall f :: f in fs ==> f.qty >= 0.0
  {
    if fs == [] then b
    else ApplyFill(RunFills(b, fs[..|fs| - 1], r), fs[|fs| - 1], r)
  }

  function Key(x: Report): FillKey {
    (x.order, x.fillId)
  }

  function Stored(x: Report): (f: Fill)
    ensures x.qty >= 0.0 ==> f.qty >= 0.0
    ensures IsMicro(f.qty) && IsTick(f.price)
    ensures Abs(f.qty - x.qty) <= 0.0000005 && Abs(f.price - x.price) <= 0.00005
  {
    Fill(Key(x), x.ticker, x.side, Qty(x.qty), Tick(x.price))
  }

  // A new fill whose booking raises; its fill row stays, its ledger row is rolled back.
  predicate Raises(b: Book, x: Report) {
    Key(x) !in b.booked && DividesByZero(b, Stored(x))
  }

  // A venue report is booked once per (order, venue fill id).
  function Ingest(b: Book, x: Report): Book
    requires x.qty >= 0.0
  {
    if Key(x) in b.booked then b
    else ApplyFill(b.(booked := b.booked + {Key(x)}), Stored(x), CODE)
  }
}
