// Squaring the local book against the venue's positions and cash.
module Reconciliation {
  import opened Decimals
  import opened Options
  import opened BrokerBook

  datatype VenuePosition = VenuePosition(qty: real, avgCost: real)

  // The venue's answer: one row per symbol, and its cash.
  datatype Venue = Venue(positions: map<Ticker, VenuePosition>, cash: real)

  datatype Drift = Drift(cash: real, positions: seq<(Ticker, real)>)

  const QTY_EPS := 0.000001
  const CASH_EPS := 0.01
  const FLOOR_USD := 50.0
  const TOLERANCE_PCT := 0.01

  function VenueQty(v: Venue, t: Ticker): real {
    if t in v.positions then v.positions[t].qty else 0.0
  }

  function VenueCost(v: Venue, t: Ticker): real {
    if t in v.positions then v.positions[t].avgCost else 0.0
  }

  function Gap(b: Book, v: Venue, t: Ticker): real {
    VenueQty(v, t) - Held(b, t)
  }

  predicate Listed(d: Drift, t: Ticker) {
    exists i :: 0 <= i < |d.positions| && d.positions[i].0 == t
  }

  // A drift lists, in some order and once each, exactly the symbols whose quantities differ.
  ghost predicate IsDriftOf(d: Drift, b: Book, v: Venue) {
    && d.cash == Money(v.cash) - Money(b.cash)
    && (forall i, j :: 0 <= i < j < |d.positions| ==> d.positions[i].0 != d.positions[j].0)
    && (forall i :: 0 <= i < |d.positions| ==> d.positions[i].1 == Gap(b, v, d.positions[i].0))
    && (forall t :: Listed(d, t) <==> Abs(Gap(b, v, t)) > QTY_EPS)
  }

  // The same for the symbols looked at so far.
  ghost predicate DriftOver(items: seq<(Ticker, real)>, done: set<Ticker>, b: Book, v: Venue) {
    && (forall i, j :: 0 <= i < j < |items| ==> items[i].0 != items[j].0)
    && (forall i :: 0 <= i < |items| ==> items[i].0 in done && items[i].1 == Gap(b, v, items[i].0))
    && (forall t :: t in done ==> (Listed(Drift(0.0, items), t) <==> Abs(Gap(b, v, t)) > QTY_EPS))
  }

  lemma NothingDrifted(b: Book, v: Venue)
    ensures DriftOver([], {}, b, v)
  {}

  lemma GapIs(b: Book, v: Venue, t: Ticker)
    ensures Gap(b, v, t) == (if t in v.positions then v.positions[t].qty else 0.0)
                            - (if t in b.positions then b.positions[t].qty else 0.0)
  {}

  lemma DriftOverOneMore(items: seq<(Ticker, real)>, done: set<Ticker>, b: Book, v: Venue, t: Ticker)
    requires DriftOver(items, done, b, v) && t !in done
    ensures var gap := Gap(b, v, t);
            DriftOver(if Abs(gap) > QTY_EPS then items + [(t, gap)] else items, done + {t}, b, v)
  {
    hide Gap, Abs;
    var gap := Gap(b, v, t);
    var more := if Abs(gap) > QTY_EPS then items + [(t, gap)] else items;
    forall u | u in done + {t}
      ensures Listed(Drift(0.0, more), u) <==> Abs(Gap(b, v, u)) > QTY_EPS
    {
      if Listed(Drift(0.0, items), u) {
        var i :| 0 <= i < |items| && items[i].0 == u;
        assert more[i].0 == u;
      }
      if u == t && Abs(gap) > QTY_EPS {
        assert more[|items|].0 == u;
      }
    }
  }

  lemma DriftOverEverything(items: seq<(Ticker, real)>, b: Book, v: Venue)
    requires DriftOver(items, v.positions.Keys + b.positions.Keys, b, v)
    ensures IsDriftOf(Drift(Money(v.cash) - Money(b.cash), items), b, v)
  {
    hide Money;
    forall t
      ensures Listed(Drift(Money(v.cash) - Money(b.cash), items), t) <==> Abs(Gap(b, v, t)) > QTY_EPS
    {
      assert Listed(Drift(Money(v.cash) - Money(b.cash), items), t) == Listed(Drift(0.0, items), t);
    }
  }

  predicate HasDifferences(d: Drift) {
    Abs(d.cash) > CASH_EPS || exists i :: 0 <= i < |d.positions| && Abs(d.positions[i].1) > QTY_EPS
  }

  function AdjustEntry(b: Book, v: Venue, t: Ticker, delta: real): LedgerEntry {
    var cost := VenueCost(v, t);
    LedgerEntry(
      Adjustment, t, delta, if cost != 0.0 then Some(cost) else None, 0.0, 0.0, Some(Held(b, t) + delta),
      Money(b.cash), None)
  }

  // Bring one symbol to the venue's quantity and, where the venue gives one, its cost.
  function AdjustPosition(b: Book, v: Venue, t: Ticker, delta: real): Book {
    var cost := VenueCost(v, t);
    if t !in b.positions then
      if delta == 0.0 then b
      else
        b.(positions := b.positions[t := Position(delta, if cost != 0.0 then cost else 100.0, 0.0)],
           ledger := b.ledger + [AdjustEntry(b, v, t, delta)])
    else
      var p := b.positions[t].(qty := b.positions[t].qty + delta,
                               avgCost := if cost > 0.0 then cost else b.positions[t].avgCost);
      b.(positions := if p.qty == 0.0 then b.positions - {t} else b.positions[t := p],
         ledger := b.ledger + [AdjustEntry(b, v, t, delta)])
  }

  function AdjustPositions(b: Book, v: Venue, items: seq<(Ticker, real)>): Book {
    if items == [] then b
    else
      var rest := items[..|items| - 1];
      var last := items[|items| - 1];
      AdjustPosition(AdjustPositions(b, v, rest), v, last.0, last.1)
  }

  function AdjustCash(b: Book, delta: real): Book {
    if Abs(delta) > CASH_EPS then
      var cash := Money(b.cash + delta);
      b.(cash := cash,
         ledger := b.ledger + [LedgerEntry(Adjustment, "", 0.0, None, Money(delta), 0.0, None, Money(cash), None)])
    else b
  }

  function ApplyDrift(b: Book, v: Venue, d: Drift): Book {
    AdjustCash(AdjustPositions(b, v, d.positions), d.cash)
  }

  function ReferencePrice(b: Book, t: Ticker): real {
    if t in b.positions && b.positions[t].avgCost > 0.0 then b.positions[t].avgCost else 100.0
  }

  predicate ItemWithinTolerance(b: Book, item: (Ticker, real)) {
    var price := ReferencePrice(b, item.0);
    Abs(item.1) <= QTY_EPS
    || Times(Abs(item.1), price) <= Max(TOLERANCE_PCT * Times(Abs(Held(b, item.0)), price), FLOOR_USD)
  }

  predicate WithinTolerance(b: Book, d: Drift) {
    && Abs(d.cash) <= Max(TOLERANCE_PCT * Abs(b.cash), FLOOR_USD)
    && forall i :: 0 <= i < |d.positions| ==> ItemWithinTolerance(b, d.positions[i])
  }

  // What a reconcile pass does to the book, given the drift it computed.
  function Reconcile(b: Book, v: Venue, d: Drift, haltBeyondTolerance: bool): Book {
    if !HasDifferences(d) then b
    else if haltBeyondTolerance && !WithinTolerance(b, d) then b
    else ApplyDrift(b, v, d)
  }

  // --- convergence ---------------------------------------------------------------------------

  lemma AdjustPositionHeld(b: Book, v: Venue, t: Ticker, delta: real)
    ensures var c := AdjustPosition(b, v, t, delta);
            Held(c, t) == Held(b, t) + delta
            && (forall u :: u != t ==> Held(c, u) == Held(b, u))
            && c.cash == b.cash
  {}

  lemma {:induction false} AdjustPositionsHeld(b: Book, v: Venue, items: seq<(Ticker, real)>)
    requires forall i, j :: 0 <= i < j < |items| ==> items[i].0 != items[j].0
    ensures var c := AdjustPositions(b, v, items);
            (forall i :: 0 <= i < |items| ==> Held(c, items[i].0) == Held(b, items[i].0) + items[i].1)
            && (forall t :: (forall i :: 0 <= i < |items| ==> items[i].0 != t) ==> Held(c, t) == Held(b, t))
            && c.cash == b.cash
  {
    if items != [] {
      var rest, last := items[..|items| - 1], items[|items| - 1];
      AdjustPositionsHeld(b, v, rest);
      AdjustPositionHeld(AdjustPositions(b, v, rest), v, last.0, last.1);
      assert forall i :: 0 <= i < |rest| ==> items[i] == rest[i];
    }
  }

  lemma AdjustCashMeets(b: Book, target: real)
    ensures var c := AdjustCash(b, Money(target) - Money(b.cash));
            Abs(Money(target) - Money(c.cash)) <= CASH_EPS
            && (IsCents(b.cash) ==> Abs(c.cash - Money(target)) <= CASH_EPS)
            && (IsCents(b.cash) && Abs(Money(target) - b.cash) > CASH_EPS ==> c.cash == Money(target))
  {
    var delta := Money(target) - Money(b.cash);
    assert IsCents(Money(b.cash + delta));
  }

  // Listed symbols are adjusted to the venue's quantity, the others left alone.
  lemma AdjustedGap(b: Book, v: Venue, d: Drift, t: Ticker)
    requires IsDriftOf(d, b, v)
    ensures var m := AdjustPositions(b, v, d.positions);
            if Listed(d, t) then Gap(m, v, t) == 0.0 else Gap(m, v, t) == Gap(b, v, t)
  {
    hide Held, VenueQty, AdjustPositions, Money, Abs;
    AdjustPositionsHeld(b, v, d.positions);
    if Listed(d, t) {
      var i :| 0 <= i < |d.positions| && d.positions[i].0 == t;
    }
  }

  lemma SquaredGap(b: Book, v: Venue, d: Drift, t: Ticker)
    requires IsDriftOf(d, b, v)
    ensures var c := ApplyDrift(b, v, d);
            (if Listed(d, t) then Gap(c, v, t) == 0.0 else Gap(c, v, t) == Gap(b, v, t))
            && Abs(Gap(c, v, t)) <= QTY_EPS
  {
    hide Gap, AdjustPositions, Money, Listed;
    AdjustedGap(b, v, d, t);
    CashAside(AdjustPositions(b, v, d.positions), v, d.cash, t);
  }

  lemma CashAside(b: Book, v: Venue, delta: real, t: Ticker)
    ensures Gap(AdjustCash(b, delta), v, t) == Gap(b, v, t)
  {
    hide Money;
  }

  // After squaring, every quantity is the venue's (exactly where it had drifted) and cash is the venue's to
  // the cent.
  lemma SquaredBookMatchesVenue(b: Book, v: Venue, d: Drift)
    requires IsDriftOf(d, b, v)
    ensures var c := ApplyDrift(b, v, d);
            (forall t :: if Listed(d, t) then Gap(c, v, t) == 0.0 else Gap(c, v, t) == Gap(b, v, t))
            && (forall t :: Abs(Gap(c, v, t)) <= QTY_EPS)
            && Abs(Money(v.cash) - Money(c.cash)) <= CASH_EPS
            && (IsCents(b.cash) ==> Abs(c.cash - Money(v.cash)) <= CASH_EPS)
  {
    hide Gap, AdjustPositions, AdjustCash, Listed, Money, IsCents, Abs;
    var m := AdjustPositions(b, v, d.positions);
    AdjustPositionsHeld(b, v, d.positions);
    AdjustCashMeets(m, v.cash);
    forall t
      ensures var c := ApplyDrift(b, v, d);
              (if Listed(d, t) then Gap(c, v, t) == 0.0 else Gap(c, v, t) == Gap(b, v, t))
              && Abs(Gap(c, v, t)) <= QTY_EPS
    {
      SquaredGap(b, v, d, t);
    }
  }

  // Reconciliation converges: against the same venue answer a second pass finds nothing and writes nothing.
  lemma ReconciliationConverges(b: Book, v: Venue, d: Drift, again: Drift, halt: bool)
    requires IsDriftOf(d, b, v)
    requires IsDriftOf(again, ApplyDrift(b, v, d), v)
    ensures !HasDifferences(again) && again.positions == []
    ensures ApplyDrift(ApplyDrift(b, v, d), v, again) == ApplyDrift(b, v, d)
    ensures Reconcile(ApplyDrift(b, v, d), v, again, halt) == ApplyDrift(b, v, d)
  {
    SquaredBookMatchesVenue(b, v, d);
    if again.positions != [] {
      assert Listed(again, again.positions[0].0);
      assert false;
    }
  }

  // A pass that the tolerance band halts leaves the book untouched, and a pass that is not halted squares it.
  lemma HaltIsExact(b: Book, v: Venue, d: Drift, halt: bool)
    requires IsDriftOf(d, b, v)
    ensures Reconcile(b, v, d, halt) == b
            <==> (halt && !WithinTolerance(b, d)) || !HasDifferences(d)
  {
    if HasDifferences(d) && !(halt && !WithinTolerance(b, d)) {
      SquaringWrites(b, v, d);
    }
  }

  lemma {:induction false} PositionsWrite(b: Book, v: Venue, items: seq<(Ticker, real)>)
    requires forall i :: 0 <= i < |items| ==> items[i].1 != 0.0
    ensures |AdjustPositions(b, v, items).ledger| == |b.ledger| + |items|
  {
    if items != [] {
      PositionsWrite(b, v, items[..|items| - 1]);
    }
  }

  lemma SquaringWrites(b: Book, v: Venue, d: Drift)
    requires IsDriftOf(d, b, v)
    ensures |ApplyDrift(b, v, d).ledger| == |b.ledger| + |d.positions| + (if Abs(d.cash) > CASH_EPS then 1 else 0)
  {
    forall i | 0 <= i < |d.positions|
      ensures d.positions[i].1 != 0.0
    {
      assert Listed(d, d.positions[i].0);
    }
    PositionsWrite(b, v, d.positions);
  }

  // --- when a pass halts ---------------------------------------------------------------------

  // What a share is worth for the band: its cost where that is positive, otherwise a hundred dollars.
  ghost predicate WorthEach(b: Book, t: Ticker, price: real) {
    if t in b.positions && b.positions[t].avgCost > 0.0 then price == b.positions[t].avgCost else price == 100.0
  }

  // A gap above a millionth of a share that is worth more than fifty dollars and more than one percent of what
  // is held.
  ghost predicate BigGap(b: Book, v: Venue, t: Ticker) {
    var gap := Abs(Gap(b, v, t));
    gap > 0.000001
    && forall price :: WorthEach(b, t, price) ==>
         Times(gap, price) > 50.0 && gap > 0.01 * Abs(Held(b, t))
  }

  ghost predicate BigCashGap(b: Book, v: Venue) {
    var gap := Abs(Money(v.cash) - Money(b.cash));
    gap > 50.0 && gap > 0.01 * Abs(b.cash)
  }

  ghost predicate BeyondBand(b: Book, v: Venue) {
    BigCashGap(b, v) || exists t :: BigGap(b, v, t)
  }

  lemma OnlyWorth(b: Book, t: Ticker)
    ensures forall price :: WorthEach(b, t, price) <==> price == ReferencePrice(b, t)
    ensures ReferencePrice(b, t) > 0.0
  {}

  lemma BigGapAt(b: Book, v: Venue, t: Ticker)
    ensures var gap, price := Abs(Gap(b, v, t)), ReferencePrice(b, t);
            BigGap(b, v, t) <==> gap > 0.000001 && Times(gap, price) > 50.0 && gap > 0.01 * Abs(Held(b, t))
  {
    hide Gap, Held, Abs, WorthEach, ReferencePrice, Times;
    OnlyWorth(b, t);
    assert WorthEach(b, t, ReferencePrice(b, t));
  }

  lemma BandAt(gap: real, held: real, price: real)
    requires price > 0.0
    ensures Times(gap, price) <= Max(TOLERANCE_PCT * Times(held, price), FLOOR_USD)
            <==> Times(gap, price) <= 50.0 || gap <= 0.01 * held
  {
    hide Times;
    OnePercent(gap, held, price);
  }

  lemma ItemBand(b: Book, v: Venue, t: Ticker)
    ensures ItemWithinTolerance(b, (t, Gap(b, v, t))) <==> !BigGap(b, v, t)
  {
    hide Held, Gap, Abs, BigGap, ReferencePrice, Max, Times;
    OnlyWorth(b, t);
    BigGapAt(b, v, t);
    BandAt(Abs(Gap(b, v, t)), Abs(Held(b, t)), ReferencePrice(b, t));
  }

  // One percent of the notional is one percent of the quantity.
  lemma OnePercent(gap: real, held: real, price: real)
    requires price > 0.0
    ensures Times(gap, price) <= 0.01 * Times(held, price) <==> gap <= 0.01 * held
  {
    assert 0.01 * Times(held, price) == Times(0.01 * held, price);
    hide Times;
    TimesTurns(gap, price);
    TimesTurns(0.01 * held, price);
    if gap <= 0.01 * held {
      TimesGrows(price, gap, 0.01 * held);
    } else {
      TimesGrowsStrictly(price, 0.01 * held, gap);
    }
  }

  lemma BandIsExact(b: Book, v: Venue, d: Drift)
    requires IsDriftOf(d, b, v)
    ensures WithinTolerance(b, d) <==> !BeyondBand(b, v)
  {
    hide ItemWithinTolerance, BigGap, Gap, Money;
    forall i | 0 <= i < |d.positions|
      ensures ItemWithinTolerance(b, d.positions[i]) <==> !BigGap(b, v, d.positions[i].0)
    {
      ItemBand(b, v, d.positions[i].0);
      assert d.positions[i] == (d.positions[i].0, Gap(b, v, d.positions[i].0));
    }
    forall t | BigGap(b, v, t)
      ensures Listed(d, t)
    {
      BigIsListed(b, v, t);
    }
    if !WithinTolerance(b, d) && !BigCashGap(b, v) {
      var i :| 0 <= i < |d.positions| && !ItemWithinTolerance(b, d.positions[i]);
      assert BigGap(b, v, d.positions[i].0);
    }
    if exists t :: BigGap(b, v, t) {
      var t :| BigGap(b, v, t);
      var i :| 0 <= i < |d.positions| && d.positions[i].0 == t;
      assert !ItemWithinTolerance(b, d.positions[i]);
    }
  }

  lemma BigIsListed(b: Book, v: Venue, t: Ticker)
    requires BigGap(b, v, t)
    ensures Abs(Gap(b, v, t)) > QTY_EPS
  {}

  lemma BeyondDiffers(b: Book, v: Venue, d: Drift)
    requires IsDriftOf(d, b, v)
    ensures BeyondBand(b, v) ==> HasDifferences(d)
  {
    hide Money, Gap;
    DifferencesAre(b, v, d);
    if !BigCashGap(b, v) && BeyondBand(b, v) {
      var t :| BigGap(b, v, t);
      assert Abs(Gap(b, v, t)) > 0.000001;
    }
  }

  // A pass that may halt leaves the book exactly when some gap, or the cash gap, lies beyond the band, or when
  // no quantity is off by more than a millionth and cash by no more than a cent.
  lemma HaltingPass(b: Book, v: Venue, d: Drift)
    requires IsDriftOf(d, b, v)
    ensures Reconcile(b, v, d, true) == b
            <==> BeyondBand(b, v)
                 || (Abs(Money(v.cash) - Money(b.cash)) <= 0.01 && forall t :: Abs(Gap(b, v, t)) <= 0.000001)
  {
    hide Reconcile, WithinTolerance, BeyondBand, Money, Gap, Abs;
    HaltIsExact(b, v, d, true);
    BandIsExact(b, v, d);
    DifferencesAre(b, v, d);
  }

  lemma DifferencesAre(b: Book, v: Venue, d: Drift)
    requires IsDriftOf(d, b, v)
    ensures HasDifferences(d)
            <==> Abs(Money(v.cash) - Money(b.cash)) > 0.01 || exists t :: Abs(Gap(b, v, t)) > 0.000001
  {
    hide Money, Gap, Abs;
    if exists t :: Abs(Gap(b, v, t)) > 0.000001 {
      var t :| Abs(Gap(b, v, t)) > 0.000001;
      assert Listed(d, t);
      var i :| 0 <= i < |d.positions| && d.positions[i].0 == t;
      assert Abs(d.positions[i].1) > QTY_EPS;
    }
    if i :| 0 <= i < |d.positions| && Abs(d.positions[i].1) > QTY_EPS {
      assert Abs(Gap(b, v, d.positions[i].0)) > 0.000001;
    }
  }

  // Where every gap is worth at most fifty dollars or is at most one percent of the quantity held, and cash
  // likewise, even a pass that may halt squares the book.
  lemma SmallDriftIsSquared(b: Book, v: Venue, d: Drift, halt: bool)
    requires IsDriftOf(d, b, v)
    requires forall t, price :: WorthEach(b, t, price) ==>
               Times(Abs(Gap(b, v, t)), price) <= 50.0 || Abs(Gap(b, v, t)) <= 0.01 * Abs(Held(b, t))
    requires Abs(Money(v.cash) - Money(b.cash)) <= 50.0 || Abs(Money(v.cash) - Money(b.cash)) <= 0.01 * Abs(b.cash)
    ensures var c := Reconcile(b, v, d, halt);
            && (forall t :: Abs(Gap(b, v, t)) > 0.000001 ==> Gap(c, v, t) == 0.0)
            && (forall t :: Abs(Gap(c, v, t)) <= 0.000001)
            && Abs(Money(v.cash) - Money(c.cash)) <= 0.01
  {
    hide Gap, Money, Held, BigGap, Abs, ApplyDrift, WithinTolerance, WorthEach, IsDriftOf, HasDifferences,
         BigCashGap;
    forall t
      ensures !BigGap(b, v, t)
    {
      SmallGap(b, v, t);
    }
    NoBigCash(b, v);
    BandIsExact(b, v, d);
    DifferencesAre(b, v, d);
    Squares(b, v, d);
  }

  lemma Squares(b: Book, v: Venue, d: Drift)
    requires IsDriftOf(d, b, v)
    ensures var c := ApplyDrift(b, v, d);
            && (forall t :: Abs(Gap(b, v, t)) > 0.000001 ==> Gap(c, v, t) == 0.0)
            && (forall t :: Abs(Gap(c, v, t)) <= 0.000001)
            && Abs(Money(v.cash) - Money(c.cash)) <= 0.01
  {
    hide Gap, Money, Abs, ApplyDrift, Listed;
    SquaredBookMatchesVenue(b, v, d);
  }

  lemma SmallGap(b: Book, v: Venue, t: Ticker)
    requires forall price :: WorthEach(b, t, price) ==>
               Times(Abs(Gap(b, v, t)), price) <= 50.0 || Abs(Gap(b, v, t)) <= 0.01 * Abs(Held(b, t))
    ensures !BigGap(b, v, t)
  {
    hide Gap, Held, Abs, BigGap, Times;
    assert WorthEach(b, t, ReferencePrice(b, t));
    BigGapAt(b, v, t);
  }

  lemma NoBigCash(b: Book, v: Venue)
    requires Abs(Money(v.cash) - Money(b.cash)) <= 50.0 || Abs(Money(v.cash) - Money(b.cash)) <= 0.01 * Abs(b.cash)
    ensures !BigCashGap(b, v)
  {}

  // --- what squaring does to costs -----------------------------------------------------------

  // The cost and the profit a squared position ends with.
  ghost predicate CostFrom(b: Book, v: Venue, t: Ticker, p: Position) {
    if t in b.positions then
      && p.realized == b.positions[t].realized
      && p.avgCost == if t in v.positions && v.positions[t].avgCost > 0.0 then v.positions[t].avgCost
                      else b.positions[t].avgCost
    else
      && p.realized == 0.0
      && p.avgCost == if t in v.positions && v.positions[t].avgCost != 0.0 then v.positions[t].avgCost else 100.0
  }

  lemma AdjustedCost(b: Book, v: Venue, t: Ticker, delta: real)
    ensures var c := AdjustPosition(b, v, t, delta);
            && (forall u :: u != t ==> (u in c.positions <==> u in b.positions)
                                       && (u in b.positions ==> c.positions[u] == b.positions[u]))
            && (t in c.positions && delta != 0.0 ==> CostFrom(b, v, t, c.positions[t]))
  {
    hide AdjustEntry;
  }

  // The row of an adjustment: no fill, no cash and no profit.
  lemma AdjustmentRow(b: Book, v: Venue, t: Ticker, delta: real)
    requires delta != 0.0
    ensures var c := AdjustPosition(b, v, t, delta);
            && |c.ledger| == |b.ledger| + 1 && c.ledger[..|b.ledger|] == b.ledger
            && var e := c.ledger[|b.ledger|];
               && e.kind == Adjustment && e.ticker == t && e.qtyDelta == delta && e.source == None
               && e.cashDelta == 0.0 && e.realizedPnl == 0.0 && e.cashAfter == Money(b.cash)
               && e.price == if t in v.positions && v.positions[t].avgCost != 0.0 then Some(v.positions[t].avgCost)
                             else None
  {
    hide Money;
  }

  // A squared position takes the venue's cost where the venue gives a positive one and keeps its realised
  // profit; one the book did not know starts at the venue's cost, or at a hundred dollars without one.
  lemma {:induction false} SquaredCosts(b: Book, v: Venue, items: seq<(Ticker, real)>, i: nat)
    requires forall j, k :: 0 <= j < k < |items| ==> items[j].0 != items[k].0
    requires i < |items| && items[i].1 != 0.0
    ensures var c, t := AdjustPositions(b, v, items), items[i].0;
            t in c.positions ==> CostFrom(b, v, t, c.positions[t])
  {
    hide AdjustPosition, CostFrom;
    var rest, last := items[..|items| - 1], items[|items| - 1];
    var m := AdjustPositions(b, v, rest);
    AdjustedCost(m, v, last.0, last.1);
    if i < |rest| {
      SquaredCosts(b, v, rest, i);
    } else {
      UntouchedBefore(b, v, rest, last.0);
      SameCost(b, m, v, last.0);
    }
  }

  lemma SameCost(b: Book, m: Book, v: Venue, t: Ticker)
    requires (t in m.positions <==> t in b.positions) && (t in b.positions ==> m.positions[t] == b.positions[t])
    ensures forall p :: CostFrom(m, v, t, p) <==> CostFrom(b, v, t, p)
  {}

  lemma {:induction false} UntouchedBefore(b: Book, v: Venue, items: seq<(Ticker, real)>, t: Ticker)
    requires forall j :: 0 <= j < |items| ==> items[j].0 != t
    ensures var c := AdjustPositions(b, v, items);
            (t in c.positions <==> t in b.positions) && (t in b.positions ==> c.positions[t] == b.positions[t])
  {
    hide AdjustPosition;
    if items != [] {
      var rest, last := items[..|items| - 1], items[|items| - 1];
      UntouchedBefore(b, v, rest, t);
      AdjustedCost(AdjustPositions(b, v, rest), v, last.0, last.1);
    }
  }
}
