// Order rows, bracket groups and the mapping of venue snapshots onto them.
module OrderGroups {
  import opened Options

  datatype Idem = Unsubmitted | SubmitPending | Acknowledged | Unknown

  datatype Status = Draft | Confirmed | PendingOpen | Submitted | Partial | Filled | Cancelled | Rejected | Error

  datatype Role = Single | Entry | TakeProfit | StopLoss

  // A protective leg, submitted and polled only through its anchor.
  datatype Leg = Leg(role: Role, idem: Idem, status: Status, brokerId: string)

  // A row without a parent: a single order, or a group anchor with its legs.
  datatype Order = Order(role: Role, idem: Idem, status: Status, brokerId: string, legs: seq<Leg>)

  datatype LegSnapshot = LegSnapshot(otype: string, brokerId: string, status: string)

  datatype Snapshot = Snapshot(brokerId: string, status: string, legs: seq<LegSnapshot>)

  predicate Open(s: Status) {
    s == Submitted || s == Partial
  }

  predicate Terminal(s: Status) {
    s == Filled || s == Cancelled || s == Rejected || s == Error
  }

  predicate IsGroupAnchor(o: Order) {
    o.role == Entry || o.role == TakeProfit
  }

  // What a submit or an adoption records; an unfamiliar status counts as submitted.
  function MapStatus(s: string): Status {
    match s
    case "draft" => Draft
    case "submitted" => Submitted
    case "partial" => Partial
    case "filled" => Filled
    case "cancelled" => Cancelled
    case "rejected" => Rejected
    case "error" => Error
    case _ => Submitted
  }

  // What a poll records; an unfamiliar status leaves the row as it is.
  function PolledStatus(s: string, current: Status): Status {
    match s
    case "submitted" => Submitted
    case "partial" => Partial
    case "filled" => Filled
    case "cancelled" => Cancelled
    case "rejected" => Rejected
    case "error" => Error
    case _ => current
  }

  function RoleOf(leg: LegSnapshot): Role {
    if leg.otype == "limit" then TakeProfit else StopLoss
  }

  // The index of the child a venue leg maps to, or the number of children.
  function MatchLeg(leg: LegSnapshot, children: seq<Leg>): (i: nat)
    ensures i <= |children|
    ensures i < |children| ==> children[i].role == RoleOf(leg)
    ensures forall j :: 0 <= j < i ==> children[j].role != RoleOf(leg)
  {
    if children == [] then 0
    else if children[0].role == RoleOf(leg) then 0
    else 1 + MatchLeg(leg, children[1..])
  }

  // Mirror the venue's legs onto the children, in the venue's order.
  function Backfill(children: seq<Leg>, legs: seq<LegSnapshot>): (r: seq<Leg>)
    ensures |r| == |children|
    ensures forall i :: 0 <= i < |r| ==> r[i].role == children[i].role
  {
    if legs == [] then children
    else
      var done := Backfill(children, legs[..|legs| - 1]);
      BackfillOne(done, legs[|legs| - 1])
  }

  function BackfillOne(children: seq<Leg>, leg: LegSnapshot): (r: seq<Leg>)
    ensures |r| == |children|
    ensures forall i :: 0 <= i < |r| ==> r[i].role == children[i].role
  {
    var i := MatchLeg(leg, children);
    if i == |children| then children
    else
      children[i := children[i].(
        idem := Acknowledged, status := MapStatus(leg.status),
        brokerId := if leg.brokerId != "" then leg.brokerId else children[i].brokerId)]
  }

  // Apply a poll's legs: a child learns its venue id once, and without one it is skipped.
  function PollLegs(children: seq<Leg>, legs: seq<LegSnapshot>): (r: seq<Leg>)
    ensures |r| == |children|
    ensures forall i :: 0 <= i < |r| ==> r[i].role == children[i].role && r[i].idem == children[i].idem
  {
    if legs == [] then children
    else PollOne(PollLegs(children, legs[..|legs| - 1]), legs[|legs| - 1])
  }

  function PollOne(children: seq<Leg>, leg: LegSnapshot): (r: seq<Leg>)
    ensures |r| == |children|
    ensures forall i :: 0 <= i < |r| ==> r[i].role == children[i].role && r[i].idem == children[i].idem
  {
    var i := MatchLeg(leg, children);
    if i == |children| then children
    else
      var id := if children[i].brokerId != "" then children[i].brokerId else leg.brokerId;
      if id == "" then children
      else children[i := children[i].(brokerId := id, status := PolledStatus(leg.status, children[i].status))]
  }

  method BackfillLegs(children: seq<Leg>, legs: seq<LegSnapshot>) returns (rows: seq<Leg>)
    ensures rows == Backfill(children, legs)
  {
    rows := children;
    for k := 0 to |legs|
      invariant rows == Backfill(children, legs[..k])
    {
      assert legs[..k + 1][..k] == legs[..k];
      var leg := legs[k];
      var i := MatchLeg(leg, rows);
      if i < |rows| {
        var id := if leg.brokerId != "" then leg.brokerId else rows[i].brokerId;
        rows := rows[i := Leg(rows[i].role, Acknowledged, MapStatus(leg.status), id)];
      }
    }
    assert legs[..|legs|] == legs;
  }

  method PollGroupLegs(children: seq<Leg>, legs: seq<LegSnapshot>) returns (rows: seq<Leg>)
    ensures rows == PollLegs(children, legs)
  {
    hide PollLegs, PolledStatus;
    rows := children;
    NoLegsPolled(children);
    for k := 0 to |legs|
      invariant rows == PollLegs(children, legs[..k])
    {
      OneMoreLegPolled(children, legs, k);
      var leg := legs[k];
      var i := MatchLeg(leg, rows);
      if i == |rows| {
        continue;
      }
      if rows[i].brokerId == "" && leg.brokerId != "" {
        rows := rows[i := rows[i].(brokerId := leg.brokerId)];
      }
      if rows[i].brokerId == "" {
        continue;
      }
      rows := rows[i := rows[i].(status := PolledStatus(leg.status, rows[i].status))];
    }
    assert legs[..|legs|] == legs;
  }

  lemma NoLegsPolled(children: seq<Leg>)
    ensures PollLegs(children, []) == children
  {}

  lemma OneMoreLegPolled(children: seq<Leg>, legs: seq<LegSnapshot>, k: nat)
    requires k < |legs|
    ensures PollLegs(children, legs[..k + 1]) == PollOne(PollLegs(children, legs[..k]), legs[k])
  {
    hide PollOne;
    assert legs[..k + 1][..k] == legs[..k];
  }

  // --- assembly ------------------------------------------------------------------------------

  datatype OrderClass = Bracket | Oco

  // A bracket or one-triggers-other set hangs its exits on the entry; a standalone one-cancels-other set
  // hangs the stop on the take-profit.
  function CreateGroup(cls: OrderClass, takeProfit: bool, stopLoss: bool): Option<Order> {
    var tp := Leg(TakeProfit, Unsubmitted, Draft, "");
    var sl := Leg(StopLoss, Unsubmitted, Draft, "");
    match cls
    case Bracket =>
      Some(Order(Entry, Unsubmitted, Draft, "",
                 (if takeProfit then [tp] else []) + (if stopLoss then [sl] else [])))
    case Oco =>
      if takeProfit then Some(Order(TakeProfit, Unsubmitted, Draft, "", if stopLoss then [sl] else [])) else None
  }

  // The legs of a group have distinct protective roles.
  predicate Shaped(o: Order) {
    && (forall i :: 0 <= i < |o.legs| ==> o.legs[i].role == TakeProfit || o.legs[i].role == StopLoss)
    && (forall i, j :: 0 <= i < j < |o.legs| ==> o.legs[i].role != o.legs[j].role)
    && (!IsGroupAnchor(o) ==> o.legs == [])
  }

  lemma CreatedGroupsAreShaped(cls: OrderClass, takeProfit: bool, stopLoss: bool)
    ensures var g := CreateGroup(cls, takeProfit, stopLoss);
            g.Some? ==> IsGroupAnchor(g.value) && Shaped(g.value) && g.value.idem == Unsubmitted
    ensures CreateGroup(cls, takeProfit, stopLoss).None? <==> cls == Oco && !takeProfit
    ensures var g := CreateGroup(cls, takeProfit, stopLoss);
            g.Some? ==>
              && g.value.role == (if cls == Bracket then Entry else TakeProfit)
              && (forall i :: 0 <= i < |g.value.legs| ==>
                    g.value.legs[i].status == Draft && g.value.legs[i].idem == Unsubmitted
                    && g.value.legs[i].brokerId == "")
              && g.value.status == Draft && g.value.brokerId == ""
              && (HasLeg(g.value, TakeProfit) <==> cls == Bracket && takeProfit)
              && (HasLeg(g.value, StopLoss) <==> stopLoss)
  {
    var g := CreateGroup(cls, takeProfit, stopLoss);
    if g.Some? && stopLoss {
      assert g.value.legs[|g.value.legs| - 1].role == StopLoss;
    }
    if g.Some? && cls == Bracket && takeProfit {
      assert g.value.legs[0].role == TakeProfit;
    }
  }

  predicate HasLeg(o: Order, role: Role) {
    exists i :: 0 <= i < |o.legs| && o.legs[i].role == role
  }

  // --- derived group status ------------------------------------------------------------------

  datatype GroupStatus = GDraft | GConfirmed | GWorking | GClosed | GCancelled | GError

  datatype Bucket = PENDING | WORKING | FILLED | CANCELLED | BROKEN

  function BucketOf(s: Status): Bucket {
    match s
    case Draft => PENDING
    case Confirmed => PENDING
    case Submitted => WORKING
    case Partial => WORKING
    case Filled => FILLED
    case Cancelled => CANCELLED
    case Error => BROKEN
    case Rejected => BROKEN
    case PendingOpen => BROKEN
  }

  function Statuses(o: Order): seq<Status> {
    [o.status] + seq(|o.legs|, i requires 0 <= i < |o.legs| => o.legs[i].status)
  }

  function Exits(o: Order): seq<Status> {
    if o.role == TakeProfit then Statuses(o) else Statuses(o)[1..]
  }

  function DeriveGroupStatus(o: Order): GroupStatus {
    var all, exits := Statuses(o), Exits(o);
    var isOco := o.role == TakeProfit;
    if forall i :: 0 <= i < |all| ==> BucketOf(all[i]) == PENDING then
      if o.status == Draft then GDraft else GConfirmed
    else if Error in all then GError
    else if (isOco || BucketOf(o.status) == FILLED) && Rejected in exits then GError
    else if Filled in exits then GClosed
    else if !isOco && (o.status == Cancelled || o.status == Rejected) then GCancelled
    else if forall i :: 0 <= i < |all| ==> BucketOf(all[i]) == CANCELLED then GCancelled
    else if !isOco && BucketOf(o.status) == FILLED && exits != []
            && (forall i :: 0 <= i < |exits| ==> BucketOf(exits[i]) == CANCELLED) then GClosed
    else GWorking
  }

  predicate AllTerminal(o: Order) {
    Terminal(o.status) && forall i :: 0 <= i < |o.legs| ==> Terminal(o.legs[i].status)
  }

  lemma TerminalStatuses(o: Order)
    requires AllTerminal(o)
    ensures forall s :: s in Statuses(o) ==> Terminal(s)
    ensures forall s :: s in Exits(o) ==> s in Statuses(o)
    ensures o.role != TakeProfit ==> |Exits(o)| == |o.legs|
  {}

  // Exits that neither errored, were rejected nor filled were all cancelled.
  lemma OnlyCancelled(xs: seq<Status>)
    requires forall s :: s in xs ==> Terminal(s)
    requires Error !in xs && Rejected !in xs && Filled !in xs
    ensures forall i :: 0 <= i < |xs| ==> BucketOf(xs[i]) == CANCELLED
  {
    forall i | 0 <= i < |xs|
      ensures BucketOf(xs[i]) == CANCELLED
    {
      assert xs[i] in xs;
    }
  }

  // A group whose rows are all terminal reads as working exactly when it is a filled entry without any exit.
  lemma TerminalGroupIsSettled(o: Order)
    requires AllTerminal(o) && IsGroupAnchor(o)
    ensures DeriveGroupStatus(o) == GWorking <==> o.role == Entry && o.status == Filled && o.legs == []
  {
    hide BucketOf;
    TerminalStatuses(o);
    var all, exits := Statuses(o), Exits(o);
    assert all[0] == o.status && all[0] in all;
    assert BucketOf(o.status) != PENDING && (BucketOf(o.status) == FILLED <==> o.status == Filled) by {
      TerminalBucket(o.status);
    }
    if Error !in exits && Rejected !in exits && Filled !in exits {
      OnlyCancelled(exits);
    }
  }

  lemma LoneEntryReadsWorking()
    ensures DeriveGroupStatus(Order(Entry, Acknowledged, Filled, "v", [])) == GWorking
  {
    TerminalGroupIsSettled(Order(Entry, Acknowledged, Filled, "v", []));
  }

  lemma TerminalBucket(s: Status)
    requires Terminal(s)
    ensures BucketOf(s) != PENDING && (BucketOf(s) == FILLED <==> s == Filled)
  {}

  // --- the status of a group, row by row -----------------------------------------------------

  predicate Waiting(s: Status) {
    s == Draft || s == Confirmed
  }

  predicate SomeLeg(o: Order, s: Status) {
    exists i :: 0 <= i < |o.legs| && o.legs[i].status == s
  }

  predicate AllLegs(o: Order, s: Status) {
    forall i :: 0 <= i < |o.legs| ==> o.legs[i].status == s
  }

  // An exit of the group reads so: a leg, or the take-profit that anchors a pair of exits.
  predicate SomeExit(o: Order, s: Status) {
    SomeLeg(o, s) || (o.role == TakeProfit && o.status == s)
  }

  predicate NotStarted(o: Order) {
    Waiting(o.status) && forall i :: 0 <= i < |o.legs| ==> Waiting(o.legs[i].status)
  }

  predicate HasError(o: Order) {
    o.status == Error || SomeLeg(o, Error)
  }

  // A protective exit the venue refused while there is something to protect.
  predicate Unprotected(o: Order) {
    (o.role == TakeProfit || o.status == Filled) && SomeExit(o, Rejected)
  }

  lemma RowsOf(o: Order)
    ensures forall s :: s in Statuses(o) <==> o.status == s || SomeLeg(o, s)
    ensures forall s :: s in Exits(o) <==> SomeExit(o, s)
    ensures Exits(o) == [] <==> o.role != TakeProfit && o.legs == []
  {
    var all := Statuses(o);
    forall s
      ensures s in all <==> o.status == s || SomeLeg(o, s)
    {
      if SomeLeg(o, s) {
        var i :| 0 <= i < |o.legs| && o.legs[i].status == s;
        assert all[i + 1] == s;
      }
      assert all[0] == o.status;
      if s in all {
        var k :| 0 <= k < |all| && all[k] == s;
        assert k > 0 ==> o.legs[k - 1].status == s;
      }
    }
    forall s
      ensures s in all[1..] <==> SomeLeg(o, s)
    {
      if SomeLeg(o, s) {
        var i :| 0 <= i < |o.legs| && o.legs[i].status == s;
        assert all[1..][i] == s;
      }
      if s in all[1..] {
        var k :| 0 <= k < |all[1..]| && all[1..][k] == s;
        assert o.legs[k].status == s;
      }
    }
  }

  lemma BucketsMean(s: Status)
    ensures BucketOf(s) == PENDING <==> Waiting(s)
    ensures BucketOf(s) == FILLED <==> s == Filled
    ensures BucketOf(s) == CANCELLED <==> s == Cancelled
  {}

  lemma AllIn(xs: seq<Status>, b: Bucket)
    ensures (forall i :: 0 <= i < |xs| ==> BucketOf(xs[i]) == b) <==> forall s :: s in xs ==> BucketOf(s) == b
  {
    hide BucketOf;
    forall i | 0 <= i < |xs|
      ensures xs[i] in xs
    {}
  }

  lemma AllStatuses(o: Order, p: Status -> bool)
    ensures (forall s :: s in Statuses(o) ==> p(s))
            <==> p(o.status) && forall i :: 0 <= i < |o.legs| ==> p(o.legs[i].status)
    ensures (forall s :: s in Exits(o) ==> p(s))
            <==> (o.role == TakeProfit ==> p(o.status)) && forall i :: 0 <= i < |o.legs| ==> p(o.legs[i].status)
  {
    RowsOf(o);
    hide Statuses, Exits;
    forall i | 0 <= i < |o.legs|
      ensures SomeLeg(o, o.legs[i].status)
    {}
    assert o.status in Statuses(o);
    if (o.role == TakeProfit ==> p(o.status)) && forall i :: 0 <= i < |o.legs| ==> p(o.legs[i].status) {
      forall s | s in Exits(o)
        ensures p(s)
      {
        assert SomeExit(o, s);
      }
    }
  }

  lemma AllRowsAre(o: Order)
    ensures (forall s :: s in Statuses(o) ==> Waiting(s)) <==> NotStarted(o)
    ensures (forall s :: s in Statuses(o) ==> s == Cancelled) <==> o.status == Cancelled && AllLegs(o, Cancelled)
    ensures (forall s :: s in Exits(o) ==> s == Cancelled)
            <==> AllLegs(o, Cancelled) && (o.role == TakeProfit ==> o.status == Cancelled)
  {
    hide Statuses, Exits;
    AllStatuses(o, s => Waiting(s));
    AllStatuses(o, s => s == Cancelled);
  }

  // What a group reads as, told by its rows: a group not started reads as its anchor; an error anywhere, or an
  // exit refused while there is something to protect, is an error; a filled exit closes the group; an entry
  // cancelled or rejected, or everything cancelled, cancels it; a filled entry all of whose exits were cancelled
  // is closed; anything else is working.
  lemma GroupStatusMeans(o: Order)
    requires IsGroupAnchor(o)
    ensures DeriveGroupStatus(o)
            == if NotStarted(o) then if o.status == Draft then GDraft else GConfirmed
               else if HasError(o) || Unprotected(o) then GError
               else if SomeExit(o, Filled) then GClosed
               else if o.role == Entry && (o.status == Cancelled || o.status == Rejected) then GCancelled
               else if o.status == Cancelled && AllLegs(o, Cancelled) then GCancelled
               else if o.role == Entry && o.status == Filled && o.legs != [] && AllLegs(o, Cancelled) then GClosed
               else GWorking
  {
    RowsOf(o);
    AllRowsAre(o);
    AllIn(Statuses(o), PENDING);
    AllIn(Statuses(o), CANCELLED);
    AllIn(Exits(o), CANCELLED);
    forall s
      ensures BucketOf(s) == PENDING <==> Waiting(s)
      ensures BucketOf(s) == FILLED <==> s == Filled
      ensures BucketOf(s) == CANCELLED <==> s == Cancelled
    {
      BucketsMean(s);
    }
    hide Statuses, Exits, BucketOf, Waiting, SomeLeg, AllLegs, NotStarted, SomeExit;
    LegErrors(o);
  }

  lemma LegErrors(o: Order)
    ensures HasError(o) <==> o.status == Error || SomeLeg(o, Error)
  {}
}
