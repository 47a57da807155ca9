// The mutable account book, step by step as the code updates it, against the functions that specify it.
module BrokerAccounts {
  import opened Decimals
  import opened Options
  import opened BrokerBook
  import Rec = Reconciliation

  class BrokerPortfolio {
    var cash: real
    var positions: map<Ticker, Position>
    var ledger: seq<LedgerEntry>
    var booked: set<FillKey>

    ghost function State(): Book
      reads this
    {
      Book(cash, positions, ledger, booked)
    }

    constructor (opening: real)
      ensures State() == Book(opening, map[], [], {})
    {
      cash, positions, ledger, booked := opening, map[], [], {};
    }

    method ApplyFillToBook(f: Fill) returns (raised: bool)
      requires f.qty >= 0.0
      modifies this`cash, this`positions, this`ledger
      ensures raised == DividesByZero(old(State()), f)
      ensures State() == ApplyFill(old(State()), f, CODE)
    {
      if f.ticker in positions && positions[f.ticker].qty == 0.0 && f.qty == 0.0 {
        return true;
      }
      var signed := if f.side == Buy then f.qty else -f.qty;
      var cashDelta := if f.side == Buy then -(f.qty * f.price) else f.qty * f.price;
      assert cashDelta == CashDelta(f);
      var qtyAfter, realized := UpdatePosition(f, signed);
      cash := Money(cash + cashDelta);
      var entry := LedgerEntry(
        BrokerFill, f.ticker, signed, Some(f.price), Money(cashDelta), Money(realized), Some(qtyAfter), cash,
        Some(f.key));
      assert entry == FillEntry(old(State()), f, CODE);
      ledger := ledger + [entry];
      raised := false;
    }

    method UpdatePosition(f: Fill, signed: real) returns (qtyAfter: real, realized: real)
      requires f.qty >= 0.0 && signed == Signed(f) && !DividesByZero(State(), f)
      modifies this`positions
      ensures positions == NextPositions(old(State()), f, CODE)
      ensures realized == RealizedBy(old(State()), f)
      ensures qtyAfter == Held(old(State()), f.ticker) + signed
    {
      if f.ticker !in positions {
        positions := positions[f.ticker := Position(signed, f.price, 0.0)];
        qtyAfter, realized := signed, 0.0;
      } else {
        var p;
        p, realized := FillPosition(positions[f.ticker], f, signed);
        qtyAfter := p.qty;
        positions := if p.qty == 0.0 then positions - {f.ticker} else positions[f.ticker := p];
      }
    }

    static method FillPosition(before: Position, f: Fill, signed: real) returns (p: Position, realized: real)
      requires f.qty >= 0.0 && signed == Signed(f) && (before.qty != 0.0 || f.qty != 0.0)
      ensures realized == Realized(before, f)
      ensures p.qty == before.qty + signed
      ensures p.avgCost == NextCost(before, f, CODE)
      ensures p.realized == if Reduces(before, f) then CentsHalfEven(before.realized + realized) else before.realized
    {
      p, realized := before, 0.0;
      var isLong, addingLong := p.qty > 0.0, signed > 0.0;
      var newQty := p.qty + signed;
      if isLong != addingLong {
        var closed := Min(Abs(p.qty), f.qty);
        realized := if isLong then (f.price - p.avgCost) * closed else (p.avgCost - f.price) * closed;
        assert realized == Realized(before, f);
        p := p.(realized := CentsHalfEven(p.realized + realized));
        if newQty != 0.0 && (newQty > 0.0) != isLong {
          p := p.(avgCost := Tick(f.price));
        }
      } else {
        var oldAbs := Abs(p.qty);
        var num, den := oldAbs * p.avgCost + f.qty * f.price, oldAbs + f.qty;
        assert num / den == AveragedCost(before, f);
        p := p.(avgCost := Tick(num / den));
      }
      p := p.(qty := newQty);
    }

    // Returns whether the fill was new. A fill whose booking raises leaves only its fill row behind.
    method IngestFill(x: Report) returns (created: bool, raised: bool)
      requires x.qty >= 0.0
      modifies this
      ensures created == (Key(x) !in old(booked)) && raised == Raises(old(State()), x)
      ensures State() == Ingest(old(State()), x)
    {
      created, raised := Key(x) !in booked, false;
      if created {
        booked := booked + {Key(x)};
        raised := ApplyFillToBook(Stored(x));
      }
    }

    // Walks every symbol known to either side, in no particular order.
    method ComputeDrift(v: Rec.Venue) returns (d: Rec.Drift)
      ensures Rec.IsDriftOf(d, State(), v)
    {
      hide Rec.DriftOver, Rec.IsDriftOf, Money, Abs;
      hide Rec.Gap;
      Rec.NothingDrifted(State(), v);
      var items: seq<(Ticker, real)> := [];
      var todo := v.positions.Keys + positions.Keys;
      ghost var all := todo;
      assert all - todo == {};
      while todo != {}
        invariant todo <= all
        invariant Rec.DriftOver(items, all - todo, State(), v)
        decreases |todo|
      {
        var t :| t in todo;
        var venueQty := if t in v.positions then v.positions[t].qty else 0.0;
        var local := if t in positions then positions[t].qty else 0.0;
        var delta := venueQty - local;
        assert delta == Rec.Gap(State(), v, t) by {
          Rec.GapIs(State(), v, t);
        }
        Rec.DriftOverOneMore(items, all - todo, State(), v, t);
        assert all - (todo - {t}) == (all - todo) + {t};
        if Abs(delta) > Rec.QTY_EPS {
          items := items + [(t, delta)];
        }
        todo := todo - {t};
      }
      assert all - todo == all;
      Rec.DriftOverEverything(items, State(), v);
      d := Rec.Drift(Money(v.cash) - Money(cash), items);
    }

    method ApplyDrift(v: Rec.Venue, d: Rec.Drift) returns (written: nat)
      modifies this`cash, this`positions, this`ledger
      ensures State() == Rec.ApplyDrift(old(State()), v, d)
      ensures written == |ledger| - |old(ledger)|
    {
      written := 0;
      for i := 0 to |d.positions|
        invariant State() == Rec.AdjustPositions(old(State()), v, d.positions[..i])
        invariant written == |ledger| - |old(ledger)|
      {
        assert d.positions[..i + 1][..i] == d.positions[..i];
        var wrote := SquarePosition(v, d.positions[i].0, d.positions[i].1);
        written := written + if wrote then 1 else 0;
      }
      assert d.positions[..|d.positions|] == d.positions;
      if Abs(d.cash) > Rec.CASH_EPS {
        cash := Money(cash + d.cash);
        ledger := ledger + [LedgerEntry(Adjustment, "", 0.0, None, Money(d.cash), 0.0, None, Money(cash), None)];
        written := written + 1;
      }
    }

    method SquarePosition(v: Rec.Venue, t: Ticker, delta: real) returns (wrote: bool)
      modifies this`positions, this`ledger
      ensures State() == Rec.AdjustPosition(old(State()), v, t, delta)
      ensures |ledger| == |old(ledger)| + if wrote then 1 else 0
    {
      var newCost := if t in v.positions then v.positions[t].avgCost else 0.0;
      var qtyAfter := delta;
      if t !in positions {
        if delta == 0.0 {
          return false;
        }
        positions := positions[t := Position(delta, if newCost != 0.0 then newCost else 100.0, 0.0)];
      } else {
        var p := positions[t];
        p := p.(qty := p.qty + delta);
        if t in v.positions && newCost > 0.0 {
          p := p.(avgCost := newCost);
        }
        qtyAfter := p.qty;
        positions := if p.qty == 0.0 then positions - {t} else positions[t := p];
      }
      ledger := ledger + [LedgerEntry(
        Adjustment, t, delta, if newCost != 0.0 then Some(newCost) else None, 0.0, 0.0, Some(qtyAfter),
        Money(cash), None)];
      wrote := true;
    }

    // One reconcile pass. An inactive account is skipped and a venue that gives no answer changes nothing; a
    // halted pass leaves the book and the ledger as they were.
    method ReconcileAccount(active: bool, answer: Option<Rec.Venue>, haltBeyondTolerance: bool)
      returns (d: Option<Rec.Drift>, written: nat, beyond: bool)
      modifies this`cash, this`positions, this`ledger
      ensures d.Some? <==> active && answer.Some?
      ensures d.None? ==> State() == old(State()) && !beyond
      ensures d.Some? ==>
                && Rec.IsDriftOf(d.value, old(State()), answer.value)
                && State() == Rec.Reconcile(old(State()), answer.value, d.value, haltBeyondTolerance)
                && (beyond <==> haltBeyondTolerance && Rec.BeyondBand(old(State()), answer.value))
      ensures written == |ledger| - |old(ledger)|
    {
      hide Rec.IsDriftOf, Rec.BeyondBand, Rec.WithinTolerance, Rec.HasDifferences, Rec.ApplyDrift;
      written, beyond := 0, false;
      if !active || answer.None? {
        return None, 0, false;
      }
      var drift := ComputeDrift(answer.value);
      d := Some(drift);
      Rec.BandIsExact(State(), answer.value, drift);
      Rec.BeyondDiffers(State(), answer.value, drift);
      if Rec.HasDifferences(drift) {
        var within := DriftWithinTolerance(drift);
        if haltBeyondTolerance && !within {
          beyond := true;
        } else {
          written := ApplyDrift(answer.value, drift);
        }
      }
    }

    method DriftWithinTolerance(d: Rec.Drift) returns (within: bool)
      ensures within == Rec.WithinTolerance(State(), d)
    {
      if Abs(d.cash) > Max(Rec.TOLERANCE_PCT * Abs(cash), Rec.FLOOR_USD) {
        return false;
      }
      for i := 0 to |d.positions|
        invariant forall j :: 0 <= j < i ==> Rec.ItemWithinTolerance(State(), d.positions[j])
      {
        var (t, dq) := d.positions[i];
        if Abs(dq) > Rec.QTY_EPS {
          var price := if t in positions && positions[t].avgCost > 0.0 then positions[t].avgCost else 100.0;
          var held := if t in positions then positions[t].qty else 0.0;
          if Times(Abs(dq), price) > Max(Rec.TOLERANCE_PCT * Times(Abs(held), price), Rec.FLOOR_USD) {
            return false;
          }
        }
      }
      within := true;
    }
  }
}
