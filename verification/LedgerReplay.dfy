// The ledger accounts for the book: in every run of fill deliveries and reconciliations, quantities, running
// totals, cash and the booked fills can be read back from the ledger rows alone.
module LedgerReplay {
  import opened Decimals
  import opened Options
  import opened BrokerBook
  import opened Reconciliation

  datatype Event =
    | Deliver(report: Report)
    | Square(venue: Venue, drift: Drift, halt: bool)

  // A delivered quantity is not negative; a squaring pass uses the drift it computed from the book as it
  // stands.
  ghost predicate Valid(b: Book, e: Event) {
    match e
    case Deliver(x) => x.qty >= 0.0
    case Square(v, d, _) => IsDriftOf(d, b, v)
  }

  function Step(b: Book, e: Event): Book
    requires e.Deliver? ==> e.report.qty >= 0.0
  {
    match e
    case Deliver(x) => Ingest(b, x)
    case Square(v, d, halt) => Reconciliation.Reconcile(b, v, d, halt)
  }

  ghost predicate ValidRun(b: Book, es: seq<Event>)
    decreases |es|
  {
    es == [] || (Valid(b, es[0]) && ValidRun(Step(b, es[0]), es[1..]))
  }

  ghost function Run(b: Book, es: seq<Event>): Book
    requires ValidRun(b, es)
    decreases |es|
  {
    if es == [] then b else Run(Step(b, es[0]), es[1..])
  }

  // --- what the ledger says ------------------------------------------------------------------

  ghost function QtyOf(ledger: seq<LedgerEntry>, t: Ticker): real {
    if ledger == [] then 0.0
    else
      var e := ledger[|ledger| - 1];
      QtyOf(ledger[..|ledger| - 1], t) + if e.qtyAfter.Some? && e.ticker == t then e.qtyDelta else 0.0
  }

  ghost function CashOf(ledger: seq<LedgerEntry>): real {
    if ledger == [] then 0.0 else CashOf(ledger[..|ledger| - 1]) + ledger[|ledger| - 1].cashDelta
  }

  // Fill rows whose notional lands exactly on half a cent.
  ghost predicate HalfCent(e: LedgerEntry) {
    e.source.Some? && e.price.Some? && IsTie(100.0 * -Notional(e.qtyDelta, e.price.value))
  }

  ghost function HalfCents(ledger: seq<LedgerEntry>): nat {
    if ledger == [] then 0
    else HalfCents(ledger[..|ledger| - 1]) + if HalfCent(ledger[|ledger| - 1]) then 1 else 0
  }

  ghost predicate FromLedger(b: Book, k: FillKey) {
    exists i :: 0 <= i < |b.ledger| && b.ledger[i].source == Some(k)
  }

  // What the ledger always accounts for, in a book that opened as `open` with an empty ledger.
  ghost predicate Accounted(open: Book, b: Book) {
    && QuantitiesExplained(open, b)
    && RunningTotals(open, b)
    && CashExplained(open, b)
    && RowsAreBooked(open, b)
  }

  // And where every booked fill has its row and no position of quantity zero is stored.
  ghost predicate Explained(open: Book, b: Book) {
    Accounted(open, b) && Tidy(open, b)
  }

  ghost predicate Tidy(open: Book, b: Book) {
    && (forall k :: k in b.booked ==> k in open.booked || FromLedger(b, k))
    && (forall t :: t in b.positions ==> b.positions[t].qty != 0.0)
  }

  // The deliveries that leave a tidy book tidy: the fill is known, its quantity is positive once rounded to six
  // decimals, or its symbol is held.
  predicate Clean(b: Book, e: Event) {
    e.Deliver? ==>
      Key(e.report) in b.booked || Qty(e.report.qty) > 0.0 || e.report.ticker in b.positions
  }

  ghost predicate CleanRun(b: Book, es: seq<Event>)
    requires ValidRun(b, es)
    decreases |es|
  {
    es == [] || (Clean(b, es[0]) && CleanRun(Step(b, es[0]), es[1..]))
  }

  ghost predicate QuantitiesExplained(open: Book, b: Book) {
    forall t :: Held(b, t) == Held(open, t) + QtyOf(b.ledger, t)
  }

  ghost predicate RunningTotals(open: Book, b: Book) {
    forall i :: 0 <= i < |b.ledger| && b.ledger[i].qtyAfter.Some? ==>
      b.ledger[i].qtyAfter.value == Held(open, b.ledger[i].ticker) + QtyOf(b.ledger[..i + 1], b.ledger[i].ticker)
  }

  ghost predicate CashExplained(open: Book, b: Book) {
    && IsCents(b.cash)
    && Abs(b.cash - open.cash - CashOf(b.ledger)) <= 0.01 * HalfCents(b.ledger) as real
  }

  // No fill has two rows, and every fill with a row was booked since the book opened.
  ghost predicate RowsAreBooked(open: Book, b: Book) {
    && (forall i, j :: 0 <= i < j < |b.ledger| && b.ledger[i].source.Some? ==>
          b.ledger[i].source != b.ledger[j].source)
    && open.booked <= b.booked
    && (forall k :: FromLedger(b, k) ==> k in b.booked && k !in open.booked)
  }

  // --- one row at a time ---------------------------------------------------------------------

  // A row for one symbol, appended together with the matching change of quantity.
  lemma RowKeepsQuantities(open: Book, b: Book, c: Book, e: LedgerEntry)
    requires QuantitiesExplained(open, b) && RunningTotals(open, b)
    requires c.ledger == b.ledger + [e]
    requires e.qtyAfter == Some(Held(b, e.ticker) + e.qtyDelta)
    requires Held(c, e.ticker) == Held(b, e.ticker) + e.qtyDelta
    requires forall t :: t != e.ticker ==> Held(c, t) == Held(b, t)
    ensures QuantitiesExplained(open, c) && RunningTotals(open, c)
  {
    RowExtends(open, b, c, e);
    forall t
      ensures Held(c, t) == Held(open, t) + QtyOf(c.ledger, t)
    {
      assert Held(b, t) == Held(open, t) + QtyOf(b.ledger, t);
    }
  }

  lemma RowExtends(open: Book, b: Book, c: Book, e: LedgerEntry)
    requires RunningTotals(open, b) && c.ledger == b.ledger + [e]
    requires e.qtyAfter.Some? ==>
               e.qtyAfter.value == Held(open, e.ticker) + QtyOf(b.ledger, e.ticker) + e.qtyDelta
    ensures RunningTotals(open, c)
    ensures forall t :: QtyOf(c.ledger, t) ==
                        QtyOf(b.ledger, t) + if e.qtyAfter.Some? && e.ticker == t then e.qtyDelta else 0.0
  {
    assert c.ledger[..|c.ledger| - 1] == b.ledger;
    assert c.ledger[..|c.ledger|] == c.ledger;
    forall i | 0 <= i < |c.ledger| && c.ledger[i].qtyAfter.Some?
      ensures c.ledger[i].qtyAfter.value ==
              Held(open, c.ledger[i].ticker) + QtyOf(c.ledger[..i + 1], c.ledger[i].ticker)
    {
      if i < |b.ledger| {
        assert c.ledger[..i + 1] == b.ledger[..i + 1];
      }
    }
  }

  lemma RowKeepsCash(open: Book, b: Book, c: Book, e: LedgerEntry)
    requires CashExplained(open, b) && c.ledger == b.ledger + [e] && IsCents(c.cash)
    requires Abs(c.cash - b.cash - e.cashDelta) <= if HalfCent(e) then 0.01 else 0.0
    ensures CashExplained(open, c)
  {
    assert c.ledger[..|c.ledger| - 1] == b.ledger;
  }

  lemma RowIsFromLedger(b: Book, c: Book, e: LedgerEntry)
    requires c.ledger == b.ledger + [e]
    ensures forall k :: FromLedger(c, k) <==> FromLedger(b, k) || e.source == Some(k)
  {
    forall k
      ensures FromLedger(c, k) <==> FromLedger(b, k) || e.source == Some(k)
    {
      if FromLedger(b, k) {
        var i :| 0 <= i < |b.ledger| && b.ledger[i].source == Some(k);
        assert c.ledger[i].source == Some(k);
      }
      if e.source == Some(k) {
        assert c.ledger[|b.ledger|].source == Some(k);
      }
    }
  }

  lemma RowKeepsFills(open: Book, b: Book, c: Book, e: LedgerEntry)
    requires RowsAreBooked(open, b) && c.ledger == b.ledger + [e]
    requires e.source.Some? ==> e.source.value !in b.booked
    requires c.booked == if e.source.Some? then b.booked + {e.source.value} else b.booked
    ensures RowsAreBooked(open, c)
  {
    RowIsFromLedger(b, c, e);
    forall i, j | 0 <= i < j < |c.ledger| && c.ledger[i].source.Some?
      ensures c.ledger[i].source != c.ledger[j].source
    {
      if j == |b.ledger| {
        assert FromLedger(b, c.ledger[i].source.value);
      }
    }
  }

  // --- the three kinds of step ---------------------------------------------------------------

  // A fill row moves the balance by its rounded notional, but for a cent on a half-cent tie.
  lemma FillMovesCash(b: Book, f: Fill)
    requires f.qty >= 0.0 && !DividesByZero(b, f) && IsCents(b.cash)
    ensures var c, e := ApplyFill(b, f, CODE), FillEntry(b, f, CODE);
            IsCents(c.cash) && Abs(c.cash - b.cash - e.cashDelta) <= if HalfCent(e) then 0.01 else 0.0
  {
    hide NextPositions, RealizedBy, Held, Signed, CashDelta, Notional, DividesByZero;
    MoneyShift(b.cash, CashDelta(f));
    NotionalOf(f);
    assert CODE.money(b.cash + CashDelta(f)) == Money(b.cash + CashDelta(f));
    assert CODE.money(CashDelta(f)) == Money(CashDelta(f));
  }

  lemma NotionalOf(f: Fill)
    ensures CashDelta(f) == -Notional(Signed(f), f.price)
  {}

  lemma FillQuantities(b: Book, f: Fill)
    requires f.qty >= 0.0 && !DividesByZero(b, f)
    ensures var c := ApplyFill(b, f, CODE);
            Held(c, f.ticker) == Held(b, f.ticker) + Signed(f)
            && (forall t :: t != f.ticker ==> Held(c, t) == Held(b, t))
  {
    hide NextCost, Realized, Money, CentsHalfEven, Tick, Signed, CashDelta, Reduces, FillEntry;
  }

  // A stored position of quantity zero can only come from opening with a fill of quantity zero.
  lemma FillStoresNoZero(b: Book, f: Fill)
    requires f.qty >= 0.0 && (forall t :: t in b.positions ==> b.positions[t].qty != 0.0)
    ensures (forall t :: t in ApplyFill(b, f, CODE).positions ==> ApplyFill(b, f, CODE).positions[t].qty != 0.0)
            <==> f.qty > 0.0 || f.ticker in b.positions
  {
    hide NextCost, Realized, Money, CentsHalfEven, Tick, CashDelta, Reduces, FillEntry;
    if f.qty == 0.0 && f.ticker !in b.positions {
      assert ApplyFill(b, f, CODE).positions[f.ticker].qty == 0.0;
    }
  }

  // A tenth of a millionth of a share is enough.
  lemma ZeroFillIsStored()
    ensures var b := Ingest(Book(0.0, map[], [], {}), Report("o", "f", "A", Buy, 0.0000001, 1.0));
            "A" in b.positions && b.positions["A"].qty == 0.0
  {
    assert (1000000.0 * 0.0000001 + 0.5).Floor == 0;
  }

  lemma SameBook(open: Book, b: Book, c: Book)
    requires QuantitiesExplained(open, b) && RunningTotals(open, b) && CashExplained(open, b)
    requires c == b.(booked := c.booked)
    ensures QuantitiesExplained(open, c) && RunningTotals(open, c) && CashExplained(open, c)
  {
    assert forall t :: Held(c, t) == Held(b, t);
  }

  lemma MoreBooked(open: Book, b: Book, c: Book)
    requires RowsAreBooked(open, b) && c.ledger == b.ledger && b.booked <= c.booked
    ensures RowsAreBooked(open, c)
  {
    assert forall k :: FromLedger(c, k) == FromLedger(b, k);
  }

  // Every delivery, of whatever quantity, new or repeated, is accounted for.
  lemma DeliverIsAccounted(open: Book, b: Book, x: Report)
    requires Accounted(open, b) && x.qty >= 0.0
    ensures Accounted(open, Ingest(b, x))
  {
    hide NextPositions, Money, Qty, Tick, RealizedBy, QuantitiesExplained, RunningTotals, CashExplained,
         RowsAreBooked, Held, CashDelta, Signed, DividesByZero;
    if Key(x) !in b.booked {
      var b', f := b.(booked := b.booked + {Key(x)}), Stored(x);
      assert f.key == Key(x);
      SameBook(open, b, b');
      if DividesByZero(b', f) {
        MoreBooked(open, b, b');
      } else {
        var c, e := ApplyFill(b', f, CODE), FillEntry(b', f, CODE);
        FillQuantities(b', f);
        KeepCents(open, b');
        FillMovesCash(b', f);
        RowKeepsQuantities(open, b', c, e);
        RowKeepsCash(open, b', c, e);
        RowKeepsFills(open, b, c, e);
      }
    }
  }

  lemma HeldDoesNotRaise(b: Book, f: Fill)
    requires forall t :: t in b.positions ==> b.positions[t].qty != 0.0
    ensures !DividesByZero(b, f)
  {}

  lemma RowKeepsTidy(open: Book, b: Book, c: Book, e: LedgerEntry)
    requires Tidy(open, b) && c.ledger == b.ledger + [e]
    requires c.booked == if e.source.Some? then b.booked + {e.source.value} else b.booked
    ensures Tidy(open, c) <==> forall t :: t in c.positions ==> c.positions[t].qty != 0.0
  {
    RowIsFromLedger(b, c, e);
  }

  // A delivery keeps the book explained exactly when it is clean.
  lemma DeliverKeeps(open: Book, b: Book, x: Report)
    requires Explained(open, b) && x.qty >= 0.0
    ensures Explained(open, Ingest(b, x)) <==> Clean(b, Deliver(x))
  {
    hide Accounted, NextPositions, Money, Qty, Tick, RealizedBy, Held, CashDelta, Signed, DividesByZero;
    DeliverIsAccounted(open, b, x);
    if Key(x) !in b.booked {
      var b', f := b.(booked := b.booked + {Key(x)}), Stored(x);
      HeldDoesNotRaise(b', f);
      FillStoresNoZero(b', f);
      RowKeepsTidy(open, b, ApplyFill(b', f, CODE), FillEntry(b', f, CODE));
    }
  }

  lemma AdjustPositionIsAccounted(open: Book, b: Book, v: Venue, t: Ticker, delta: real)
    requires Accounted(open, b)
    ensures Accounted(open, AdjustPosition(b, v, t, delta))
  {
    hide QuantitiesExplained, RunningTotals, CashExplained, RowsAreBooked, Money, VenueCost;
    var c, e := AdjustPosition(b, v, t, delta), AdjustEntry(b, v, t, delta);
    if c != b {
      AdjustPositionHeld(b, v, t, delta);
      RowKeepsQuantities(open, b, c, e);
      KeepCents(open, b);
      RowKeepsCash(open, b, c, e);
      RowKeepsFills(open, b, c, e);
    }
  }

  lemma AdjustPositionKeepsTidy(open: Book, b: Book, v: Venue, t: Ticker, delta: real)
    requires Tidy(open, b)
    ensures Tidy(open, AdjustPosition(b, v, t, delta))
  {
    hide Money, VenueCost;
    var c, e := AdjustPosition(b, v, t, delta), AdjustEntry(b, v, t, delta);
    if c != b {
      RowKeepsTidy(open, b, c, e);
    }
  }

  lemma KeepCents(open: Book, b: Book)
    requires CashExplained(open, b)
    ensures IsCents(b.cash)
  {}

  lemma {:induction false} AdjustPositionsKeep(open: Book, b: Book, v: Venue, items: seq<(Ticker, real)>)
    requires Accounted(open, b)
    ensures Accounted(open, AdjustPositions(b, v, items))
    ensures Tidy(open, b) ==> Tidy(open, AdjustPositions(b, v, items))
  {
    hide Accounted, Tidy;
    if items != [] {
      var rest, last := items[..|items| - 1], items[|items| - 1];
      AdjustPositionsKeep(open, b, v, rest);
      var c := AdjustPositions(b, v, rest);
      AdjustPositionIsAccounted(open, c, v, last.0, last.1);
      if Tidy(open, b) {
        AdjustPositionKeepsTidy(open, c, v, last.0, last.1);
      }
    }
  }

  // Squaring cash moves it by whole cents, so the row explains it exactly.
  lemma AdjustCashKeeps(open: Book, b: Book, target: real)
    requires Accounted(open, b)
    ensures Accounted(open, AdjustCash(b, Money(target) - Money(b.cash)))
    ensures Tidy(open, b) ==> Tidy(open, AdjustCash(b, Money(target) - Money(b.cash)))
  {
    hide QuantitiesExplained, RunningTotals, RowsAreBooked, HalfCents, CashOf, Money, Tidy;
    var delta := Money(target) - Money(b.cash);
    var c := AdjustCash(b, delta);
    if c != b {
      var e := c.ledger[|b.ledger|];
      MoneyIsCents(b.cash + delta);
      MoneyIsCents(b.cash);
      WholeCents(b.cash, target);
      RowKeepsCash(open, b, c, e);
      RowExtends(open, b, c, e);
      RowKeepsFills(open, b, c, e);
      CashRowKeepsQuantities(open, b, c, e);
      CashRowKeepsTidy(open, b, c, e);
    }
  }

  lemma MoneyIsCents(x: real)
    ensures IsCents(Money(x)) && (IsCents(x) ==> Money(x) == x)
  {}

  lemma CashRowKeepsTidy(open: Book, b: Book, c: Book, e: LedgerEntry)
    requires c.ledger == b.ledger + [e] && e.source.None?
    requires c.positions == b.positions && c.booked == b.booked
    ensures Tidy(open, b) ==> Tidy(open, c)
  {
    if Tidy(open, b) {
      RowKeepsTidy(open, b, c, e);
    }
  }

  lemma WholeCents(cash: real, target: real)
    requires IsCents(cash)
    ensures var delta := Money(target) - Money(cash);
            Money(delta) == delta && Money(cash + delta) == cash + delta
  {
    hide *;
    CentsClosed(Money(target), Money(cash));
    CentsClosed(cash, Money(target) - Money(cash));
  }

  lemma CashRowKeepsQuantities(open: Book, b: Book, c: Book, e: LedgerEntry)
    requires QuantitiesExplained(open, b) && c.ledger == b.ledger + [e] && e.qtyAfter.None?
    requires c.positions == b.positions
    ensures QuantitiesExplained(open, c)
  {
    assert c.ledger[..|c.ledger| - 1] == b.ledger;
    forall t
      ensures Held(c, t) == Held(open, t) + QtyOf(c.ledger, t)
    {
      assert Held(b, t) == Held(open, t) + QtyOf(b.ledger, t);
    }
  }

  lemma {:induction false} AdjustPositionsCash(b: Book, v: Venue, items: seq<(Ticker, real)>)
    ensures AdjustPositions(b, v, items).cash == b.cash
  {
    if items != [] {
      AdjustPositionsCash(b, v, items[..|items| - 1]);
    }
  }

  lemma SquareKeeps(open: Book, b: Book, v: Venue, d: Drift, halt: bool)
    requires Accounted(open, b) && IsDriftOf(d, b, v)
    ensures Accounted(open, Reconciliation.Reconcile(b, v, d, halt))
    ensures Tidy(open, b) ==> Tidy(open, Reconciliation.Reconcile(b, v, d, halt))
  {
    hide Accounted, Tidy, Money, AdjustCash, AdjustPositions;
    AdjustPositionsKeep(open, b, v, d.positions);
    AdjustPositionsCash(b, v, d.positions);
    AdjustCashKeeps(open, AdjustPositions(b, v, d.positions), v.cash);
  }

  // --- every run -----------------------------------------------------------------------------

  lemma {:induction false} LedgerAccountsFrom(open: Book, b: Book, es: seq<Event>)
    requires Accounted(open, b) && ValidRun(b, es)
    ensures Accounted(open, Run(b, es))
    ensures Tidy(open, b) && CleanRun(b, es) ==> Tidy(open, Run(b, es))
    decreases |es|
  {
    hide Accounted, Tidy, Clean, Ingest, Reconcile, IsDriftOf;
    if es != [] {
      StepKeeps(open, b, es[0]);
      LedgerAccountsFrom(open, Step(b, es[0]), es[1..]);
    }
  }

  lemma StepKeeps(open: Book, b: Book, e: Event)
    requires Accounted(open, b) && Valid(b, e)
    ensures Accounted(open, Step(b, e))
    ensures Tidy(open, b) && Clean(b, e) ==> Tidy(open, Step(b, e))
  {
    hide Accounted, Tidy, Clean, Ingest, Reconcile, IsDriftOf;
    match e {
      case Deliver(x) =>
        DeliverIsAccounted(open, b, x);
        if Tidy(open, b) {
          DeliverKeeps(open, b, x);
        }
      case Square(v, d, halt) => SquareKeeps(open, b, v, d, halt);
    }
  }

  // From any book held in cents, whose ledger is read from here on, through any run at all: quantities,
  // running totals and cash are what the rows say, and no fill is booked twice.
  lemma LedgerAccountsForBook(open: Book, es: seq<Event>)
    requires open.ledger == [] && IsCents(open.cash) && ValidRun(open, es)
    ensures Accounted(open, Run(open, es))
  {
    LedgerAccountsFrom(open, open, es);
  }

  // From a book without zero positions, through a clean run, every booked fill has its row as well and still
  // no position of quantity zero is stored.
  lemma LedgerExplainsBook(open: Book, es: seq<Event>)
    requires open.ledger == [] && IsCents(open.cash)
    requires forall t :: t in open.positions ==> open.positions[t].qty != 0.0
    requires ValidRun(open, es) && CleanRun(open, es)
    ensures Explained(open, Run(open, es))
  {
    LedgerAccountsFrom(open, open, es);
  }

  // --- what a row shows ----------------------------------------------------------------------

  // The last row shows the balance; fill rows name their fill and price, and adjustments no fill.
  ghost predicate RowsShow(b: Book) {
    && IsCents(b.cash)
    && (b.ledger != [] ==> b.ledger[|b.ledger| - 1].cashAfter == b.cash)
    && forall i :: 0 <= i < |b.ledger| ==>
         var e := b.ledger[i];
         if e.kind == BrokerFill then e.source.Some? && e.price.Some? && e.qtyAfter.Some? else e.source.None?
  }

  lemma RowAppended(b: Book, c: Book, e: LedgerEntry)
    requires RowsShow(b) && c.ledger == b.ledger + [e] && IsCents(c.cash) && e.cashAfter == c.cash
    requires if e.kind == BrokerFill then e.source.Some? && e.price.Some? && e.qtyAfter.Some? else e.source.None?
    ensures RowsShow(c)
  {}

  lemma FillShows(b: Book, f: Fill)
    requires RowsShow(b) && f.qty >= 0.0
    ensures RowsShow(ApplyFill(b, f, CODE))
  {
    hide RowsShow, NextPositions, RealizedBy, Held, CashDelta, Money, IsCents;
    var c := ApplyFill(b, f, CODE);
    if !DividesByZero(b, f) {
      assert CODE.money(b.cash + CashDelta(f)) == Money(b.cash + CashDelta(f));
      MoneyIsCents(b.cash + CashDelta(f));
      RowAppended(b, c, FillEntry(b, f, CODE));
    }
  }

  lemma BookedShows(b: Book, k: FillKey)
    requires RowsShow(b)
    ensures RowsShow(b.(booked := b.booked + {k}))
  {}

  lemma {:induction false} AdjustmentsShow(b: Book, v: Venue, items: seq<(Ticker, real)>)
    requires RowsShow(b)
    ensures RowsShow(AdjustPositions(b, v, items))
  {
    hide RowsShow, AdjustPosition;
    if items != [] {
      var rest, last := items[..|items| - 1], items[|items| - 1];
      AdjustmentsShow(b, v, rest);
      AdjustmentShows(AdjustPositions(b, v, rest), v, last.0, last.1);
    }
  }

  lemma AdjustmentShows(b: Book, v: Venue, t: Ticker, delta: real)
    requires RowsShow(b)
    ensures RowsShow(AdjustPosition(b, v, t, delta))
  {
    hide Money, VenueCost, RowsShow, IsCents;
    CashInCents(b);
    MoneyIsCents(b.cash);
    if AdjustPosition(b, v, t, delta) != b {
      RowAppended(b, AdjustPosition(b, v, t, delta), AdjustEntry(b, v, t, delta));
    }
  }

  lemma CashInCents(b: Book)
    requires RowsShow(b)
    ensures IsCents(b.cash)
  {}

  lemma CashAdjustmentShows(b: Book, delta: real)
    requires RowsShow(b)
    ensures RowsShow(AdjustCash(b, delta))
  {
    hide Money, RowsShow, IsCents;
    var cash := Money(b.cash + delta);
    MoneyIsCents(b.cash + delta);
    MoneyIsCents(cash);
    if Abs(delta) > CASH_EPS {
      RowAppended(b, AdjustCash(b, delta), AdjustCash(b, delta).ledger[|b.ledger|]);
    }
  }

  lemma {:induction false} RunShows(b: Book, es: seq<Event>)
    requires RowsShow(b) && ValidRun(b, es)
    ensures RowsShow(Run(b, es))
    decreases |es|
  {
    hide RowsShow, AdjustCash, AdjustPositions, ApplyFill, IsDriftOf;
    if es != [] {
      match es[0] {
        case Deliver(x) =>
          BookedShows(b, Key(x));
          if Key(x) !in b.booked {
            FillShows(b.(booked := b.booked + {Key(x)}), Stored(x));
          }
        case Square(v, d, _) =>
          AdjustmentsShow(b, v, d.positions);
          CashAdjustmentShows(AdjustPositions(b, v, d.positions), d.cash);
      }
      RunShows(Step(b, es[0]), es[1..]);
    }
  }

  // --- redelivery ----------------------------------------------------------------------------

  // The events of a run without every delivery whose fill was already booked or already delivered.
  ghost function FirstDeliveries(es: seq<Event>, seen: set<FillKey>): seq<Event> {
    if es == [] then []
    else if es[0].Deliver? && Key(es[0].report) in seen then FirstDeliveries(es[1..], seen)
    else
      [es[0]] + FirstDeliveries(es[1..], if es[0].Deliver? then seen + {Key(es[0].report)} else seen)
  }

  lemma StepBooks(b: Book, e: Event)
    requires Valid(b, e)
    ensures Step(b, e).booked == if e.Deliver? then b.booked + {Key(e.report)} else b.booked
  {
    hide NextPositions, FillEntry, CashDelta, IsDriftOf, DividesByZero, Qty, Tick;
    if e.Square? {
      AdjustmentsBookNothing(b, e.venue, e.drift.positions);
    }
  }

  lemma {:induction false} AdjustmentsBookNothing(b: Book, v: Venue, items: seq<(Ticker, real)>)
    ensures AdjustPositions(b, v, items).booked == b.booked
  {
    if items != [] {
      AdjustmentsBookNothing(b, v, items[..|items| - 1]);
    }
  }

  // Duplicated deliveries change nothing: a run equals the run of its first deliveries.
  lemma {:induction false} RedeliveryChangesNothing(b: Book, es: seq<Event>)
    requires ValidRun(b, es)
    ensures ValidRun(b, FirstDeliveries(es, b.booked))
    ensures Run(b, FirstDeliveries(es, b.booked)) == Run(b, es)
    decreases |es|
  {
    hide Ingest, Reconcile, IsDriftOf, Qty;
    if es != [] {
      var e := es[0];
      StepBooks(b, e);
      RedeliveryChangesNothing(Step(b, e), es[1..]);
      if e.Deliver? && Key(e.report) in b.booked {
        AlreadyBooked(b, e.report);
        assert b.booked + {Key(e.report)} == b.booked;
      } else {
        var rest := FirstDeliveries(es[1..], Step(b, e).booked);
        assert FirstDeliveries(es, b.booked) == [e] + rest;
        assert ([e] + rest)[1..] == rest;
      }
    }
  }

  lemma AlreadyBooked(b: Book, x: Report)
    requires x.qty >= 0.0 && Key(x) in b.booked
    ensures Ingest(b, x) == b
  {}
}
