// The demo account fills its own orders against a live price: a cash book without margin.
module DemoFills {
  import opened Decimals
  import opened Options
  import opened BrokerBook
  import opened BrokerAccounts
  import LedgerReplay

  datatype OrderType = Market | Limit | Stop | Other

  datatype Status = Resting | Filled | Rejected | Inactive

  datatype DemoOrder = DemoOrder(
    ticker: Ticker, side: Side, otype: OrderType, qty: real, limit: Option<real>, stop: Option<real>,
    status: Status)

  datatype Demo = Demo(book: Book, orders: map<string, DemoOrder>)

  function FillDecision(o: DemoOrder, price: real): Option<real> {
    match o.otype
    case Market => Some(price)
    case Limit =>
      if o.limit.Some? && (if o.side == Buy then price <= o.limit.value else price >= o.limit.value) then o.limit
      else None
    case Stop =>
      if o.stop.Some? && (if o.side == Buy then price >= o.stop.value else price <= o.stop.value) then Some(price)
      else None
    case Other => None
  }

  predicate Underfunded(cash: real, o: DemoOrder, px: real) {
    o.side == Buy && CentsHalfEven(Notional(o.qty, px)) > cash
  }

  // Evaluate one order at a price; the fill id is drawn by the caller. When booking the fill raises, the order
  // goes on resting.
  function TryFill(d: Demo, id: string, price: Option<real>, fillId: string): (r: Demo)
    requires id in d.orders && d.orders[id].qty >= 0.0
    ensures r.orders.Keys == d.orders.Keys
    ensures forall j :: j in d.orders ==> SameTerms(r.orders[j], d.orders[j])
  {
    var o := d.orders[id];
    if o.status != Resting || price.None? || price.value <= 0.0 then d
    else
      var decision := FillDecision(o, price.value);
      if decision.None? then d
      else
        var px := Tick(decision.value);
        if Underfunded(d.book.cash, o, px) then d.(orders := d.orders[id := o.(status := Rejected)])
        else Commit(d, id, px, fillId)
  }

  // The fill itself, for an order that was found resting: it does not look again.
  function Commit(d: Demo, id: string, px: real, fillId: string): (r: Demo)
    requires id in d.orders && d.orders[id].qty >= 0.0
    ensures r.orders.Keys == d.orders.Keys
    ensures forall j :: j in d.orders ==> SameTerms(r.orders[j], d.orders[j])
  {
    var x := DemoReport(d.orders[id], id, px, fillId);
    Demo(Ingest(d.book, x),
         if Raises(d.book, x) then d.orders else d.orders[id := d.orders[id].(status := Filled)])
  }

  function DemoReport(o: DemoOrder, id: string, px: real, fillId: string): Report {
    Report(id, fillId, o.ticker, o.side, o.qty, px)
  }

  predicate FillsNow(d: Demo, q: Quote)
    requires q.id in d.orders && d.orders[q.id].qty >= 0.0
  {
    d.orders[q.id].status == Resting && TryFill(d, q.id, q.price, q.fillId).orders[q.id].status == Filled
  }

  // How many of the quotes fill their order.
  function FillCount(d: Demo, qs: seq<Quote>): nat
    requires forall id :: id in d.orders ==> d.orders[id].qty >= 0.0
    requires forall q :: q in qs ==> q.id in d.orders
  {
    if qs == [] then 0
    else
      FillCount(d, qs[..|qs| - 1]) + if FillsNow(RunQuotes(d, qs[..|qs| - 1]), qs[|qs| - 1]) then 1 else 0
  }

  datatype Quote = Quote(id: string, price: Option<real>, fillId: string)

  function RunQuotes(d: Demo, qs: seq<Quote>): Demo
    requires forall id :: id in d.orders ==> d.orders[id].qty >= 0.0
    requires forall q :: q in qs ==> q.id in d.orders
    ensures RunQuotes(d, qs).orders.Keys == d.orders.Keys
    ensures forall id :: id in d.orders ==> SameTerms(RunQuotes(d, qs).orders[id], d.orders[id])
  {
    if qs == [] then d
    else
      var done := RunQuotes(d, qs[..|qs| - 1]);
      var q := qs[|qs| - 1];
      TryFill(done, q.id, q.price, q.fillId)
  }

  predicate SameTerms(o: DemoOrder, p: DemoOrder) {
    o == p.(status := o.status)
  }

  // --- funding -------------------------------------------------------------------------------

  // Quantities on six decimals; order prices positive and on four decimals.
  predicate WellFormed(o: DemoOrder) {
    && o.qty > 0.0 && IsMicro(o.qty)
    && (o.limit.Some? ==> o.limit.value > 0.0 && IsTick(o.limit.value))
    && (o.stop.Some? ==> o.stop.value > 0.0)
  }

  // A funded buy overdraws the book exactly when its notional is half a cent over the balance: the check
  // rounds that tie to even, the booking rounds it away from zero. It then overdraws by one cent.
  lemma FundedBuyOverdraft(cash: real, notional: real)
    requires IsCents(cash) && cash >= 0.0 && notional >= 0.0
    requires CentsHalfEven(notional) <= cash
    ensures Money(cash - notional) < 0.0 <==> notional == cash + 0.005
    ensures Money(cash - notional) < 0.0 ==> Money(cash - notional) == -0.01
  {
    var c := (100.0 * cash).Floor;
    assert 100.0 * (cash - notional) == c as real - 100.0 * notional;
  }

  // The bound is reached: an account without cash buys half a cent's worth, 0.005 shares at one dollar.
  lemma OverdraftHappens()
    ensures var o := DemoOrder("A", Buy, Market, 0.005, None, None, Resting);
            var d := Demo(Book(0.0, map[], [], {}), map["o" := o]);
            var after := TryFill(d, "o", Some(1.0), "f");
            WellFormed(o) && after.orders["o"].status == Filled && after.book.cash == -0.01
  {
    var o := DemoOrder("A", Buy, Market, 0.005, None, None, Resting);
    assert (100.0 * 0.005).Floor == 0;
    assert (1000000.0 * 0.005).Floor == 5000 && (10000.0 * 1.0).Floor == 10000;
    assert Qty(0.005) == 0.005 && Tick(1.0) == 1.0;
    assert Notional(0.005, 1.0) == 0.005 && CentsHalfEven(0.005) == 0.0;
    assert Money(-0.005) == -0.01;
  }

  // The booked balance stays at or above minus one cent exactly when the notional is less than one and a half
  // cents over the balance before, whatever the check said.
  lemma FundsExactly(cash: real, notional: real)
    ensures Money(cash - notional) >= -0.01 <==> notional < cash + 0.015
  {
    var x := 100.0 * (cash - notional);
    assert RoundHalfUp(x) >= -1 <==> x > -1.5;
  }

  lemma FundedIsAffordable(cash: real, notional: real)
    requires CentsHalfEven(notional) <= cash
    ensures notional < cash + 0.015
  {}

  lemma ReceivingKeepsFloor(cash: real, proceeds: real)
    requires cash >= -0.01 && proceeds >= 0.0 && IsCents(cash)
    ensures Money(cash + proceeds) >= -0.01
  {
    var c := (100.0 * cash).Floor;
    assert c >= -1;
    assert 100.0 * (cash + proceeds) == c as real + 100.0 * proceeds;
  }

  // Every fill row is its order's one fill, for the whole quantity and never worse than the limit.
  ghost predicate RowOk(d: Demo, e: LedgerEntry) {
    && e.source.Some? && e.source.value.0 in d.orders
    && var o := d.orders[e.source.value.0];
       && o.status == Filled
       && e.ticker == o.ticker && e.qtyDelta == (if o.side == Buy then o.qty else -o.qty)
       && e.price.Some?
       && (o.otype == Limit ==> o.limit == e.price)
  }

  ghost predicate DemoOk(d: Demo) {
    && IsCents(d.book.cash) && d.book.cash >= -0.01
    && (forall id :: id in d.orders ==> WellFormed(d.orders[id]))
    && (forall t :: t in d.book.positions ==> d.book.positions[t].qty != 0.0)
    && OneFillEach(d)
  }

  ghost predicate OneFillEach(d: Demo) {
    && (forall i :: 0 <= i < |d.book.ledger| ==> RowOk(d, d.book.ledger[i]))
    && (forall i, j :: 0 <= i < j < |d.book.ledger| ==>
          d.book.ledger[i].source.value.0 != d.book.ledger[j].source.value.0)
  }

  lemma CashIsNotional(f: Fill)
    requires f.qty >= 0.0 && f.price >= 0.0
    ensures CashDelta(f) == if f.side == Buy then -Notional(f.qty, f.price) else Notional(f.qty, f.price)
    ensures Notional(f.qty, f.price) >= 0.0
  {}

  lemma BookedFill(b: Book, f: Fill)
    requires f.qty > 0.0 && f.price >= 0.0 && IsCents(b.cash) && b.cash >= -0.01
    ensures var c := ApplyFill(b, f, CODE);
            && IsCents(c.cash) && c.ledger == b.ledger + [FillEntry(b, f, CODE)]
            && (c.cash >= -0.01 <==> f.side == Sell || Notional(f.qty, f.price) < b.cash + 0.015)
  {
    hide NextPositions, FillEntry, CentsHalfEven, Money, IsCents, Notional, CashDelta, DividesByZero;
    NoRaise(b, f);
    CashIsNotional(f);
    var cash := b.cash + CashDelta(f);
    assert CODE.money(cash) == Money(cash);
    if f.side == Buy {
      FundsExactly(b.cash, Notional(f.qty, f.price));
    } else {
      ReceivingKeepsFloor(b.cash, Notional(f.qty, f.price));
    }
  }

  lemma NoRaise(b: Book, f: Fill)
    requires f.qty > 0.0
    ensures !DividesByZero(b, f)
  {}

  // The terms under which a fill may be committed: the price is what the evaluation found for this order.
  predicate Committable(d: Demo, id: string, px: real, fillId: string) {
    && id in d.orders && px >= 0.0 && IsTick(px)
    && (d.orders[id].otype == Limit ==> d.orders[id].limit == Some(px))
    && (id, fillId) !in d.book.booked
  }

  predicate HasFill(d: Demo, id: string) {
    exists i :: 0 <= i < |d.book.ledger| && d.book.ledger[i].source.Some? && d.book.ledger[i].source.value.0 == id
  }

  // What committing does to the book, for an order of six decimals at a price on the grid.
  lemma Committed(d: Demo, id: string, px: real, fillId: string)
    requires DemoOk(d) && Committable(d, id, px, fillId)
    ensures var o := d.orders[id];
            var f := Fill((id, fillId), o.ticker, o.side, o.qty, px);
            var b := d.book.(booked := d.book.booked + {(id, fillId)});
            && f.qty > 0.0
            && Commit(d, id, px, fillId) == Demo(ApplyFill(b, f, CODE), d.orders[id := o.(status := Filled)])
            && Commit(d, id, px, fillId).book.ledger == d.book.ledger + [FillEntry(b, f, CODE)]
            && RowOk(Commit(d, id, px, fillId), FillEntry(b, f, CODE))
  {
    hide NextPositions, Qty, Tick, Money, IsCents, IsTick, IsMicro, Held, RealizedBy, CashDelta, CentsHalfEven,
         DividesByZero, Notional;
    var o := d.orders[id];
    var x := DemoReport(o, id, px, fillId);
    assert Stored(x) == Fill((id, fillId), o.ticker, o.side, o.qty, px);
    NoRaise(d.book, Stored(x));
    NoRaise(d.book.(booked := d.book.booked + {(id, fillId)}), Stored(x));
  }

  // Committing keeps one fill for each order exactly when the order has none yet. An order found resting has
  // none; between finding it and committing nothing keeps a second evaluator out.
  lemma CommitFillsOnce(d: Demo, id: string, px: real, fillId: string)
    requires DemoOk(d) && Committable(d, id, px, fillId)
    ensures OneFillEach(Commit(d, id, px, fillId)) <==> !HasFill(d, id)
    ensures d.orders[id].status == Resting ==> !HasFill(d, id)
  {
    hide RowOk, Commit, ApplyFill, FillEntry, WellFormed, IsCents, IsTick;
    Committed(d, id, px, fillId);
    var after := Commit(d, id, px, fillId);
    var n := |d.book.ledger|;
    var e := after.book.ledger[n];
    EntrySource(d, id, px, fillId);
    forall i | 0 <= i < n
      ensures d.book.ledger[i].source.Some? && RowOk(after, d.book.ledger[i])
      ensures d.book.ledger[i].source.value.0 == id ==> d.orders[id].status == Filled
    {
      RowStaysOk(d, after, id, d.book.ledger[i]);
    }
    if !HasFill(d, id) {
      assert OneFillEach(after);
    } else {
      var i :| 0 <= i < n && d.book.ledger[i].source.Some? && d.book.ledger[i].source.value.0 == id;
      assert after.book.ledger[i] == d.book.ledger[i];
    }
  }

  lemma EntrySource(d: Demo, id: string, px: real, fillId: string)
    requires DemoOk(d) && Committable(d, id, px, fillId)
    ensures var after := Commit(d, id, px, fillId);
            |after.book.ledger| == |d.book.ledger| + 1
            && after.book.ledger[|d.book.ledger|].source == Some((id, fillId))
  {
    hide DemoOk, Committable, Commit, ApplyFill, RowOk;
    Committed(d, id, px, fillId);
  }

  lemma RowStaysOk(d: Demo, after: Demo, id: string, e: LedgerEntry)
    requires RowOk(d, e) && id in d.orders && after.orders == d.orders[id := d.orders[id].(status := Filled)]
    ensures RowOk(after, e) && e.source.Some?
    ensures e.source.value.0 == id ==> d.orders[id].status == Filled
  {}

  // A fill the book can afford at the moment it is booked.
  predicate Affordable(d: Demo, id: string, px: real)
    requires id in d.orders
  {
    d.orders[id].side == Sell || Notional(d.orders[id].qty, px) < d.book.cash + 0.015
  }

  // Committing keeps the book funded exactly when the fill is affordable then, and keeps every promise about the
  // demo book exactly when the order has no fill yet as well.
  lemma CommitFundsExactly(d: Demo, id: string, px: real, fillId: string)
    requires DemoOk(d) && Committable(d, id, px, fillId) && id in d.orders
    ensures Commit(d, id, px, fillId).book.cash >= -0.01 <==> Affordable(d, id, px)
    ensures DemoOk(Commit(d, id, px, fillId)) <==> !HasFill(d, id) && Affordable(d, id, px)
  {
    hide Money, IsCents, IsTick, IsMicro, CashDelta, CentsHalfEven, Notional, Committable, OneFillEach, RowOk,
         Commit, ApplyFill, HasFill;
    var o := d.orders[id];
    var f := Fill((id, fillId), o.ticker, o.side, o.qty, px);
    var b := d.book.(booked := d.book.booked + {(id, fillId)});
    Committed(d, id, px, fillId);
    CommitTerms(d, id, px, fillId);
    BookedFill(b, f);
    LedgerReplay.FillStoresNoZero(b, f);
    CommitFillsOnce(d, id, px, fillId);
  }

  lemma FillKeepsDemo(d: Demo, id: string, px: real, fillId: string)
    requires DemoOk(d) && Committable(d, id, px, fillId) && id in d.orders
    requires d.orders[id].status == Resting && !Underfunded(d.book.cash, d.orders[id], px)
    ensures DemoOk(Commit(d, id, px, fillId))
  {
    hide DemoOk, Committable, Commit, CentsHalfEven, Notional, HasFill;
    CommitFundsExactly(d, id, px, fillId);
    CommitFillsOnce(d, id, px, fillId);
    if d.orders[id].side == Buy {
      FundedIsAffordable(d.book.cash, Notional(d.orders[id].qty, px));
    }
  }

  lemma CommitTerms(d: Demo, id: string, px: real, fillId: string)
    requires Committable(d, id, px, fillId)
    ensures px >= 0.0
  {}

  const ONE_SHARE := DemoOrder("A", Buy, Market, 1.0, None, None, Resting)

  lemma RoundNumbers()
    ensures Qty(1.0) == 1.0 && Tick(10.0) == 10.0 && Notional(1.0, 10.0) == 10.0 && CentsHalfEven(10.0) == 10.0
    ensures Money(0.0) == 0.0 && Money(-10.0) == -10.0
  {
    assert (1000000.0 * 1.0).Floor == 1000000 && (10000.0 * 10.0).Floor == 100000;
    assert (100.0 * 10.0).Floor == 1000 && (100.0 * 0.0).Floor == 0 && (100.0 * -10.0).Floor == -1000;
  }

  lemma BuysOneShare(d: Demo, id: string, fillId: string)
    requires id in d.orders && SameTerms(d.orders[id], ONE_SHARE) && (id, fillId) !in d.book.booked
    requires "A" in d.book.positions ==> d.book.positions["A"].qty == 1.0
    ensures var after := Commit(d, id, 10.0, fillId);
            && Held(after.book, "A") == Held(d.book, "A") + 1.0 && after.book.cash == Money(d.book.cash - 10.0)
            && after.book.booked == d.book.booked + {(id, fillId)}
            && after.orders == d.orders[id := d.orders[id].(status := Filled)]
            && "A" in after.book.positions
  {
    hide Qty, Tick, Money, CentsHalfEven, FillEntry, NextCost, Realized;
    RoundNumbers();
    var f := Fill((id, fillId), "A", Buy, 1.0, 10.0);
    assert Stored(DemoReport(d.orders[id], id, 10.0, fillId)) == f;
    assert CashDelta(f) == -10.0;
    assert CODE.money(d.book.cash - 10.0) == Money(d.book.cash - 10.0);
  }

  // Two evaluators that both found one market order resting: it is filled twice, and the second fill, checked
  // against the cash before the first, takes the book to minus ten dollars.
  lemma StaleEvaluatorFillsTwice()
    ensures var d := Demo(Book(10.0, map[], [], {}), map["o" := ONE_SHARE]);
            var once := Commit(d, "o", 10.0, "f");
            var twice := Commit(once, "o", 10.0, "g");
            && once == TryFill(d, "o", Some(10.0), "f") && once.orders["o"].status == Filled
            && Held(once.book, "A") == 1.0 && once.book.cash == 0.0
            && Held(twice.book, "A") == 2.0 && twice.book.cash == -10.0
  {
    hide Commit, Qty, Tick, Money, CentsHalfEven, Notional;
    RoundNumbers();
    var d := Demo(Book(10.0, map[], [], {}), map["o" := ONE_SHARE]);
    BuysOneShare(d, "o", "f");
    BuysOneShare(Commit(d, "o", 10.0, "f"), "o", "g");
  }

  // No double fill is needed: two different orders, each found funded by the same ten dollars and each filled
  // once, take the book there as well.
  lemma TwoStaleBuysOverdraw()
    ensures var d := Demo(Book(10.0, map[], [], {}), map["a" := ONE_SHARE, "b" := ONE_SHARE]);
            var after := Commit(Commit(d, "a", 10.0, "f"), "b", 10.0, "g");
            && !Underfunded(d.book.cash, d.orders["a"], 10.0) && !Underfunded(d.book.cash, d.orders["b"], 10.0)
            && after.orders["a"].status == after.orders["b"].status == Filled
            && Held(after.book, "A") == 2.0 && after.book.cash == -10.0
  {
    hide Commit, Qty, Tick, Money, CentsHalfEven, Notional;
    RoundNumbers();
    var d := Demo(Book(10.0, map[], [], {}), map["a" := ONE_SHARE, "b" := ONE_SHARE]);
    BuysOneShare(d, "a", "f");
    BuysOneShare(Commit(d, "a", 10.0, "f"), "b", "g");
  }

  // --- evaluators in any interleaving --------------------------------------------------------

  // What evaluators write, whatever they read before: a fill, or the refusal of a buy they found unfunded.
  datatype Write = Settle(id: string, px: real, fillId: string) | Refuse(id: string)

  predicate Writable(d: Demo, w: Write) {
    && w.id in d.orders && d.orders[w.id].qty >= 0.0
    && (w.Settle? ==> Committable(d, w.id, w.px, w.fillId))
  }

  function ApplyWrite(d: Demo, w: Write): Demo
    requires Writable(d, w)
  {
    match w
    case Settle(id, px, fillId) => Commit(d, id, px, fillId)
    case Refuse(id) => d.(orders := d.orders[id := d.orders[id].(status := Rejected)])
  }

  // The write finds the order without a fill, and a fill finds the book able to pay.
  predicate KeepsDemo(d: Demo, w: Write)
    requires Writable(d, w)
  {
    !HasFill(d, w.id) && (w.Settle? ==> Affordable(d, w.id, w.px))
  }

  lemma RefuseExactly(d: Demo, id: string)
    requires DemoOk(d) && id in d.orders
    ensures DemoOk(d.(orders := d.orders[id := d.orders[id].(status := Rejected)])) <==> !HasFill(d, id)
  {
    hide IsCents, WellFormed;
    var after := d.(orders := d.orders[id := d.orders[id].(status := Rejected)]);
    forall i | 0 <= i < |d.book.ledger|
      ensures RowOk(after, d.book.ledger[i]) <==> d.book.ledger[i].source.value.0 != id
    {
      assert RowOk(d, d.book.ledger[i]);
    }
    SameTermsWellFormed(d.orders[id]);
  }

  lemma SameTermsWellFormed(o: DemoOrder)
    ensures WellFormed(o.(status := Rejected)) == WellFormed(o)
  {}

  lemma WriteKeepsDemoExactly(d: Demo, w: Write)
    requires DemoOk(d) && Writable(d, w)
    ensures DemoOk(ApplyWrite(d, w)) <==> KeepsDemo(d, w)
  {
    hide DemoOk, Commit, HasFill, Affordable, Committable;
    match w {
      case Settle(id, px, fillId) => CommitFundsExactly(d, id, px, fillId);
      case Refuse(id) => RefuseExactly(d, id);
    }
  }

  // Each write has, at its turn, the terms of its order and a fresh fill id.
  ghost predicate WritableRun(d: Demo, ws: seq<Write>)
    decreases |ws|
  {
    ws == [] || (Writable(d, ws[0]) && WritableRun(ApplyWrite(d, ws[0]), ws[1..]))
  }

  // The demo book keeps its promises after every write.
  ghost predicate StaysOk(d: Demo, ws: seq<Write>)
    requires WritableRun(d, ws)
    decreases |ws|
  {
    DemoOk(d) && (ws == [] || StaysOk(ApplyWrite(d, ws[0]), ws[1..]))
  }

  ghost predicate KeepsAll(d: Demo, ws: seq<Write>)
    requires WritableRun(d, ws)
    decreases |ws|
  {
    ws == [] || (KeepsDemo(d, ws[0]) && KeepsAll(ApplyWrite(d, ws[0]), ws[1..]))
  }

  // Over every interleaving of evaluators, however stale what they read: the book keeps its promises throughout
  // exactly when each write, at its turn, meets an order without a fill and a fill meets cash that pays for it.
  lemma {:induction false} InterleavedExactly(d: Demo, ws: seq<Write>)
    requires DemoOk(d) && WritableRun(d, ws)
    ensures StaysOk(d, ws) <==> KeepsAll(d, ws)
    decreases |ws|
  {
    hide DemoOk, KeepsDemo, ApplyWrite, Writable;
    if ws != [] {
      WriteKeepsDemoExactly(d, ws[0]);
      if DemoOk(ApplyWrite(d, ws[0])) {
        InterleavedExactly(ApplyWrite(d, ws[0]), ws[1..]);
      }
    }
  }

  lemma RejectKeepsDemo(d: Demo, id: string)
    requires DemoOk(d) && id in d.orders && d.orders[id].status == Resting
    ensures DemoOk(d.(orders := d.orders[id := d.orders[id].(status := Rejected)]))
  {
    var after := d.(orders := d.orders[id := d.orders[id].(status := Rejected)]);
    forall i | 0 <= i < |d.book.ledger|
      ensures RowOk(after, after.book.ledger[i])
    {
      assert RowOk(d, d.book.ledger[i]);
    }
  }

  lemma DecisionPrice(o: DemoOrder, price: real)
    requires WellFormed(o) && price > 0.0 && FillDecision(o, price).Some?
    ensures var px := Tick(FillDecision(o, price).value);
            px >= 0.0 && IsTick(px) && (o.otype == Limit ==> o.limit == Some(px))
  {
    hide IsMicro, IsTick;
    TickOfPositive(FillDecision(o, price).value);
  }

  lemma TickOfPositive(x: real)
    requires x > 0.0
    ensures Tick(x) >= 0.0
  {}

  lemma QuoteKeepsDemo(d: Demo, q: Quote)
    requires DemoOk(d) && q.id in d.orders && (q.id, q.fillId) !in d.book.booked
    ensures DemoOk(TryFill(d, q.id, q.price, q.fillId))
  {
    hide DemoOk, Tick, Underfunded, FillDecision, Commit, WellFormed, IsTick;
    Terms(d, q.id);
    var o := d.orders[q.id];
    if o.status == Resting && q.price.Some? && q.price.value > 0.0 && FillDecision(o, q.price.value).Some? {
      var px := Tick(FillDecision(o, q.price.value).value);
      DecisionPrice(o, q.price.value);
      if Underfunded(d.book.cash, o, px) {
        RejectKeepsDemo(d, q.id);
      } else {
        FillKeepsDemo(d, q.id, px, q.fillId);
      }
    }
  }

  lemma Terms(d: Demo, id: string)
    requires DemoOk(d) && id in d.orders
    ensures WellFormed(d.orders[id]) && d.orders[id].qty >= 0.0
  {}

  // A limit triggers at its price or better, a stop at its price or worse, a market order at once.
  predicate Triggered(o: DemoOrder, price: real) {
    || o.otype == Market
    || (o.otype == Limit && o.limit.Some? && (o.side == Buy ==> price <= o.limit.value)
        && (o.side == Sell ==> price >= o.limit.value))
    || (o.otype == Stop && o.stop.Some? && (o.side == Buy ==> price >= o.stop.value)
        && (o.side == Sell ==> price <= o.stop.value))
  }

  // What one evaluation does with a resting order at a live price: nothing before it triggers; a buy that the
  // cash does not cover, to the cent, is rejected and nothing else changes; otherwise the order is filled and
  // one row is written, for the whole quantity, at the limit of a limit order and at the live price otherwise.
  lemma EvaluationIs(d: Demo, id: string, price: real, fillId: string)
    requires DemoOk(d) && id in d.orders && d.orders[id].status == Resting && price > 0.0
    requires (id, fillId) !in d.book.booked
    ensures var o, after := d.orders[id], TryFill(d, id, Some(price), fillId);
            var px := if o.otype == Limit && o.limit.Some? then o.limit.value else Tick(price);
            if !Triggered(o, price) then after == d
            else if o.side == Buy && CentsHalfEven(Notional(o.qty, px)) > d.book.cash then
              after == d.(orders := d.orders[id := o.(status := Rejected)])
            else
              && after.orders == d.orders[id := o.(status := Filled)]
              && |after.book.ledger| == |d.book.ledger| + 1
              && var e := after.book.ledger[|d.book.ledger|];
                 && e.kind == BrokerFill && e.source == Some((id, fillId)) && e.ticker == o.ticker
                 && e.price == Some(px) && e.qtyDelta == if o.side == Buy then o.qty else -o.qty
  {
    hide DemoOk, Commit, Tick, CentsHalfEven, Notional, Committable, WellFormed, IsTick;
    var o := d.orders[id];
    Terms(d, id);
    TriggerDecides(o, price);
    if Triggered(o, price) {
      DecisionPrice(o, price);
      var px := Tick(FillDecision(o, price).value);
      CommitRow(d, id, px, fillId);
    }
  }

  lemma TriggerDecides(o: DemoOrder, price: real)
    requires WellFormed(o) && price > 0.0
    ensures FillDecision(o, price).Some? <==> Triggered(o, price)
    ensures Triggered(o, price) ==>
              Tick(FillDecision(o, price).value)
              == if o.otype == Limit && o.limit.Some? then o.limit.value else Tick(price)
  {
    hide Tick, IsTick;
    if o.otype == Limit && o.limit.Some? {
      TickIsFixed(o.limit.value);
    }
  }

  lemma TickIsFixed(x: real)
    ensures IsTick(x) ==> Tick(x) == x
  {}

  lemma CommitRow(d: Demo, id: string, px: real, fillId: string)
    requires DemoOk(d) && id in d.orders && px >= 0.0 && IsTick(px) && (id, fillId) !in d.book.booked
    requires d.orders[id].otype == Limit ==> d.orders[id].limit == Some(px)
    ensures var o, after := d.orders[id], Commit(d, id, px, fillId);
            && after.orders == d.orders[id := o.(status := Filled)]
            && |after.book.ledger| == |d.book.ledger| + 1
            && var e := after.book.ledger[|d.book.ledger|];
               && e.kind == BrokerFill && e.source == Some((id, fillId)) && e.ticker == o.ticker
               && e.price == Some(px) && e.qtyDelta == if o.side == Buy then o.qty else -o.qty
  {
    hide DemoOk, Commit, ApplyFill, Money, IsTick, RowOk;
    Committed(d, id, px, fillId);
  }

  // Fill ids are drawn fresh for every evaluation.
  ghost predicate FreshIds(d: Demo, qs: seq<Quote>) {
    && (forall i :: 0 <= i < |qs| ==> qs[i].id in d.orders && (qs[i].id, qs[i].fillId) !in d.book.booked)
    && (forall i, j :: 0 <= i < j < |qs| ==> (qs[i].id, qs[i].fillId) != (qs[j].id, qs[j].fillId))
  }

  lemma {:induction false} BookedOnlyByQuotes(d: Demo, qs: seq<Quote>)
    requires forall id :: id in d.orders ==> d.orders[id].qty >= 0.0
    requires forall q :: q in qs ==> q.id in d.orders
    ensures forall k :: k in RunQuotes(d, qs).book.booked ==>
              k in d.book.booked || exists i :: 0 <= i < |qs| && (qs[i].id, qs[i].fillId) == k
  {
    hide NextPositions, FillEntry, Tick, Qty, CashDelta, Underfunded, FillDecision, DividesByZero;
    if qs != [] {
      var done, q := qs[..|qs| - 1], qs[|qs| - 1];
      BookedOnlyByQuotes(d, done);
      forall k | k in RunQuotes(d, done).book.booked && k !in d.book.booked
        ensures exists i :: 0 <= i < |qs| && (qs[i].id, qs[i].fillId) == k
      {
        var i :| 0 <= i < |done| && (done[i].id, done[i].fillId) == k;
        assert (qs[i].id, qs[i].fillId) == k;
      }
      var k := (q.id, q.fillId);
      assert (qs[|qs| - 1].id, qs[|qs| - 1].fillId) == k;
    }
  }

  // No run of demo evaluations takes cash below minus one cent, fills an order twice, or fills it at a price
  // other than its limit.
  lemma {:induction false} DemoBookStaysFunded(d: Demo, qs: seq<Quote>)
    requires DemoOk(d) && FreshIds(d, qs)
    requires forall id :: id in d.orders ==> d.orders[id].qty >= 0.0
    ensures DemoOk(RunQuotes(d, qs))
  {
    hide DemoOk, TryFill;
    if qs != [] {
      var done, q := qs[..|qs| - 1], qs[|qs| - 1];
      DemoBookStaysFunded(d, done);
      BookedOnlyByQuotes(d, done);
      assert q == qs[|qs| - 1];
      QuoteKeepsDemo(RunQuotes(d, done), q);
    }
  }

  lemma NoQuotes(d: Demo)
    requires forall id :: id in d.orders ==> d.orders[id].qty >= 0.0
    ensures RunQuotes(d, []) == d && FillCount(d, []) == 0
  {}

  lemma OneMoreQuote(d: Demo, qs: seq<Quote>, i: nat)
    requires forall id :: id in d.orders ==> d.orders[id].qty >= 0.0
    requires i < |qs| && forall q :: q in qs ==> q.id in d.orders
    ensures var done := RunQuotes(d, qs[..i]);
            qs[i].id in done.orders && SameTerms(done.orders[qs[i].id], d.orders[qs[i].id])
            && done.orders[qs[i].id].qty >= 0.0 && done.orders[qs[i].id].ticker == d.orders[qs[i].id].ticker
            && RunQuotes(d, qs[..i + 1]) == TryFill(done, qs[i].id, qs[i].price, qs[i].fillId)
            && FillCount(d, qs[..i + 1]) == FillCount(d, qs[..i]) + if FillsNow(done, qs[i]) then 1 else 0
  {
    hide TryFill, FillsNow;
    var more := qs[..i + 1];
    assert more[..|more| - 1] == qs[..i] && more[|more| - 1] == qs[i];
    assert qs[i] in qs;
  }

  // --- the account, step by step -------------------------------------------------------------

  // A missing price is looked up once more.
  function OrAgain(price: Option<real>, again: Option<real>): Option<real> {
    if price.Some? then price else again
  }

  // The quotes of one pass: every order in turn, at the live price of its symbol, or at what a second lookup
  // for the order gives.
  function PassQuotes(
      d: Demo, ids: seq<string>, live: Ticker -> Option<real>, again: nat -> Option<real>, fillIds: seq<string>)
    : seq<Quote>
    requires |ids| == |fillIds| && (forall id :: id in ids ==> id in d.orders)
  {
    seq(|ids|, i requires 0 <= i < |ids| =>
      Quote(ids[i], OrAgain(live(d.orders[ids[i]].ticker), again(i)), fillIds[i]))
  }

  class DemoAccount {
    const portfolio: BrokerPortfolio
    var orders: map<string, DemoOrder>

    ghost function State(): Demo
      reads this, portfolio
    {
      Demo(portfolio.State(), orders)
    }

    constructor (portfolio: BrokerPortfolio, orders: map<string, DemoOrder>)
      ensures this.portfolio == portfolio && this.orders == orders
    {
      this.portfolio, this.orders := portfolio, orders;
    }

    // The caller may pass a price; without one the live price is looked up. A booking that raises leaves the
    // order resting.
    method TryFillDemoOrder(id: string, given: Option<real>, live: Option<real>, fillId: string)
      returns (filled: bool)
      requires id in orders && orders[id].qty >= 0.0
      modifies this`orders, portfolio
      ensures State() == TryFill(old(State()), id, OrAgain(given, live), fillId)
      ensures filled <==> old(orders)[id].status == Resting && orders[id].status == Filled
    {
      var o := orders[id];
      if o.status != Resting {
        return false;
      }
      var price := given;
      if price.None? {
        price := live;
      }
      if price.None? || price.value <= 0.0 {
        return false;
      }
      var decision := FillDecision(o, price.value);
      if decision.None? {
        return false;
      }
      var px := Tick(decision.value);
      if Underfunded(portfolio.cash, o, px) {
        orders := orders[id := o.(status := Rejected)];
        return false;
      }
      var _, raised := portfolio.IngestFill(DemoReport(o, id, px, fillId));
      if raised {
        return false;
      }
      orders := orders[id := o.(status := Filled)];
      filled := true;
    }

    // One pass over the resting orders; the live price of a symbol is asked for once and remembered, and a
    // failure of one order does not stop the others.
    method EvaluateResting(
        ids: seq<string>, live: Ticker -> Option<real>, again: nat -> Option<real>, fillIds: seq<string>)
      returns (n: nat)
      requires |ids| == |fillIds| && (forall id :: id in ids ==> id in orders)
      requires forall id :: id in orders ==> orders[id].qty >= 0.0
      modifies this`orders, portfolio
      ensures State() == RunQuotes(old(State()), PassQuotes(old(State()), ids, live, again, fillIds))
      ensures n == FillCount(old(State()), PassQuotes(old(State()), ids, live, again, fillIds))
    {
      hide TryFill, RunQuotes, FillCount, SameTerms, BrokerPortfolio.State;
      n := 0;
      NoQuotes(State());
      var cache: map<Ticker, Option<real>> := map[];
      ghost var start := State();
      ghost var quotes := PassQuotes(start, ids, live, again, fillIds);
      for i := 0 to |ids|
        invariant n == FillCount(start, quotes[..i])
        invariant State() == RunQuotes(start, quotes[..i])
        invariant forall t :: t in cache ==> cache[t] == live(t)
      {
        OneMoreQuote(start, quotes, i);
        var t := orders[ids[i]].ticker;
        if t !in cache {
          cache := cache[t := live(t)];
        }
        var filled := TryFillDemoOrder(ids[i], cache[t], again(i), fillIds[i]);
        n := n + if filled then 1 else 0;
      }
      assert quotes[..|ids|] == quotes;
    }
  }
}
