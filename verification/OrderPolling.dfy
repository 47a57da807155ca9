// What the periodic poll sees of an order once the venue may have it, and exactly when it loses sight of one.
module OrderPolling {
  import opened OrderGroups
  import opened OrderProtocol

  // --- statuses row by row -------------------------------------------------------------------

  predicate Live(s: Status) {
    Open(s) || Terminal(s)
  }

  predicate LiveRows(o: Order) {
    Live(o.status) && forall i :: 0 <= i < |o.legs| ==> Live(o.legs[i].status)
  }

  // The anchor is row -1, its legs follow.
  predicate IsRow(o: Order, i: int) {
    -1 <= i < |o.legs|
  }

  function StatusAt(o: Order, i: int): Status
    requires IsRow(o, i)
  {
    if i == -1 then o.status else o.legs[i].status
  }

  function VenueIdAt(o: Order, i: int): string
    requires IsRow(o, i)
  {
    if i == -1 then o.brokerId else o.legs[i].brokerId
  }

  // Not every row is settled, and the periodic poll does not look any more.
  predicate Lost(o: Order) {
    !Pollable(o) && !AllTerminal(o)
  }

  ghost predicate NoneOpen(o: Order) {
    forall i :: IsRow(o, i) ==> !Open(StatusAt(o, i))
  }

  lemma LostIs(o: Order)
    requires o.idem == Acknowledged
    ensures Lost(o) <==> NoneOpen(o) && exists i :: IsRow(o, i) && !Live(StatusAt(o, i))
  {
    assert IsRow(o, -1) && StatusAt(o, -1) == o.status;
    forall i | 0 <= i < |o.legs|
      ensures IsRow(o, i) && StatusAt(o, i) == o.legs[i].status
    {}
    forall i | IsRow(o, i)
      ensures StatusAt(o, i) == if i == -1 then o.status else o.legs[i].status
    {}
  }

  // --- one step on an acknowledged order -----------------------------------------------------

  // The status a row ends in after a write.
  function Written(o: Order, i: int, writes: map<int, Status>): Status
    requires IsRow(o, i)
  {
    if i in writes then writes[i] else StatusAt(o, i)
  }

  // A status write on an acknowledged order, whatever state its rows are in, loses it exactly when no row ends
  // open and some row ends neither open nor terminal.
  lemma EditLosesExactly(o: Order, writes: map<int, Status>)
    requires o.idem == Acknowledged
    ensures Lost(EditRow(o, writes))
            <==> (forall i :: IsRow(o, i) ==> !Open(Written(o, i, writes)))
                 && exists i :: IsRow(o, i) && !Live(Written(o, i, writes))
  {
    hide Lost, Live;
    var r := EditRow(o, writes);
    LostIs(r);
    forall i
      ensures IsRow(r, i) <==> IsRow(o, i)
      ensures IsRow(o, i) ==> StatusAt(r, i) == Written(o, i, writes)
    {}
    if NoneOpen(r) && exists i :: IsRow(r, i) && !Live(StatusAt(r, i)) {
      var i :| IsRow(r, i) && !Live(StatusAt(r, i));
      assert !Live(Written(o, i, writes));
    }
    if exists i :: IsRow(o, i) && !Live(Written(o, i, writes)) {
      var i :| IsRow(o, i) && !Live(Written(o, i, writes));
      assert !Live(StatusAt(r, i));
    }
  }

  // For an order without legs: any late write of a draft, a confirmation or a hold, and no other.
  lemma LateWriteLosesSingle(o: Order, status: Status)
    requires o.idem == Acknowledged && o.legs == [] && Live(o.status)
    ensures Lost(EditRow(o, map[-1 := status])) <==> status == Draft || status == Confirmed || status == PendingOpen
  {
    hide Lost, EditRow;
    EditLosesExactly(o, map[-1 := status]);
    assert IsRow(o, -1) && Written(o, -1, map[-1 := status]) == status;
  }

  // The same for every action on the order.
  function Ends(o: Order, a: Action, i: int): Status
    requires IsRow(o, i)
  {
    match a
    case Edit(_, writes) => Written(o, i, writes)
    case Sweep(_, rows) => if i in rows then Swept(StatusAt(o, i), VenueIdAt(o, i)) else StatusAt(o, i)
    case Poll(_, s, _) => if i == -1 then PolledStatus(s.status, o.status) else PollLegs(o.legs, s.legs)[i].status
    case _ => StatusAt(o, i)
  }

  // The status a row of an order ends in after a step of the machine.
  ghost function StepEnds(x: World, a: Action, id: OrderId, i: int): Status
    requires id in x.orders && IsRow(x.orders[id].row, i)
  {
    if Enabled(x, a) && Concerned(x, a) == id then Ends(x.orders[id].row, a, i) else StatusAt(x.orders[id].row, i)
  }

  lemma StepEndsSo(x: World, a: Action, id: OrderId)
    requires Inv(x) && id in x.orders && x.orders[id].row.idem == Acknowledged
    ensures id in Step(x, a).orders && Step(x, a).orders[id].row.idem == Acknowledged
    ensures var o, r := x.orders[id].row, Step(x, a).orders[id].row;
            forall i :: IsRow(o, i) ==> IsRow(r, i) && StatusAt(r, i) == StepEnds(x, a, id, i)
    ensures |Step(x, a).orders[id].row.legs| == |x.orders[id].row.legs|
  {
    hide RecordAnswer, Acknowledge, Pollable, RowOk, WorkerOk, PolledStatus, Swept;
    assert RowOk(x.orders[id]);
    if Enabled(x, a) && Concerned(x, a) == id {
      match a {
        case Claim(_, _) => assert false;
        case HandOff(w) => Pending(x, w);
        case Reply(w, _) => Pending(x, w);
        case Record(w) => Pending(x, w);
        case _ =>
      }
    }
  }

  // Any step on an acknowledged order loses it, or leaves it lost, exactly when no row ends open and some row
  // ends neither open nor terminal.
  lemma StepLosesExactly(x: World, a: Action, id: OrderId)
    requires Inv(x) && id in x.orders && x.orders[id].row.idem == Acknowledged
    ensures id in Step(x, a).orders
    ensures var o := x.orders[id].row;
            Lost(Step(x, a).orders[id].row)
            <==> (forall i :: IsRow(o, i) ==> !Open(StepEnds(x, a, id, i)))
                 && exists i :: IsRow(o, i) && !Live(StepEnds(x, a, id, i))
  {
    hide Lost, Live, Step, StepEnds, Inv;
    StepEndsSo(x, a, id);
    var o, r := x.orders[id].row, Step(x, a).orders[id].row;
    LostIs(r);
    forall i
      ensures IsRow(r, i) <==> IsRow(o, i)
    {}
    if exists i :: IsRow(r, i) && !Live(StatusAt(r, i)) {
      var i :| IsRow(r, i) && !Live(StatusAt(r, i));
      assert !Live(StepEnds(x, a, id, i));
    }
    if exists i :: IsRow(o, i) && !Live(StepEnds(x, a, id, i)) {
      var i :| IsRow(o, i) && !Live(StepEnds(x, a, id, i));
      assert !Live(StatusAt(r, i));
    }
  }

  // --- who set a row last --------------------------------------------------------------------

  predicate Familiar(s: string) {
    s == "submitted" || s == "partial" || s == "filled" || s == "cancelled" || s == "rejected" || s == "error"
  }

  // A poll sets a leg when one of its legs names it with a status the poll knows, and the leg has a venue id by
  // then.
  predicate PollSetsLeg(children: seq<Leg>, legs: seq<LegSnapshot>, i: nat)
    requires i < |children|
  {
    legs != []
    && var done, last := PollLegs(children, legs[..|legs| - 1]), legs[|legs| - 1];
       || PollSetsLeg(children, legs[..|legs| - 1], i)
       || (MatchLeg(last, done) == i && (done[i].brokerId != "" || last.brokerId != "") && Familiar(last.status))
  }

  lemma PolledFamiliar(s: string, current: Status)
    ensures if Familiar(s) then Live(PolledStatus(s, current)) else PolledStatus(s, current) == current
  {}

  lemma {:induction false} PolledLeg(children: seq<Leg>, legs: seq<LegSnapshot>, i: nat)
    requires i < |children|
    ensures if PollSetsLeg(children, legs, i) then Live(PollLegs(children, legs)[i].status)
            else PollLegs(children, legs)[i].status == children[i].status
  {
    hide PolledStatus, Live, Familiar;
    if legs != [] {
      var done, last := PollLegs(children, legs[..|legs| - 1]), legs[|legs| - 1];
      PolledLeg(children, legs[..|legs| - 1], i);
      PolledFamiliar(last.status, done[i].status);
    }
  }

  // An action writes a row of the order it is about.
  predicate Sets(o: Order, a: Action, i: int)
    requires IsRow(o, i)
  {
    match a
    case Edit(_, writes) => i in writes
    case Sweep(_, rows) => i in rows && StatusAt(o, i) == Confirmed && VenueIdAt(o, i) == ""
    case Poll(_, s, _) => if i == -1 then Familiar(s.status) else PollSetsLeg(o.legs, s.legs, i)
    case _ => false
  }

  lemma EndsOrStays(o: Order, a: Action, i: int)
    requires IsRow(o, i)
    ensures !Sets(o, a, i) ==> Ends(o, a, i) == StatusAt(o, i)
    ensures Sets(o, a, i) && !a.Edit? ==> Live(Ends(o, a, i))
  {
    hide PolledStatus, Familiar, PollLegs, PollSetsLeg;
    if a.Poll? {
      PolledFamiliar(a.snapshot.status, o.status);
      if i >= 0 {
        PolledLeg(o.legs, a.snapshot.legs, i);
      }
    }
  }

  ghost predicate SetsRow(x: World, a: Action, id: OrderId, i: int) {
    && id in x.orders && Enabled(x, a) && Concerned(x, a) == id && IsRow(x.orders[id].row, i)
    && Sets(x.orders[id].row, a, i)
  }

  // An edit writes a status that is neither open nor terminal over a row of an acknowledged order.
  ghost predicate Parks(x: World, a: Action, id: OrderId, i: int) {
    && id in x.orders && x.orders[id].row.idem == Acknowledged
    && a.Edit? && a.id == id && i in a.writes && !Live(a.writes[i])
  }

  // The k-th action parked the row, and no later write, poll or sweep of that row replaced what it wrote.
  ghost predicate ParkedBy(x: World, actions: seq<Action>, id: OrderId, i: int, k: nat) {
    && k < |actions| && Parks(Run(x, actions[..k]), actions[k], id, i)
    && forall j :: k < j < |actions| ==> !SetsRow(Run(x, actions[..j]), actions[j], id, i)
  }

  ghost predicate Parked(x: World, actions: seq<Action>, id: OrderId, i: int) {
    exists k :: ParkedBy(x, actions, id, i, k)
  }

  lemma ParkedOneMore(x: World, actions: seq<Action>, id: OrderId, i: int)
    requires actions != []
    ensures var done, y, a := actions[..|actions| - 1], Run(x, actions[..|actions| - 1]), actions[|actions| - 1];
            Parked(x, actions, id, i) <==> Parks(y, a, id, i) || (Parked(x, done, id, i) && !SetsRow(y, a, id, i))
  {
    hide Run, Parks, SetsRow;
    var n := |actions| - 1;
    var done := actions[..n];
    forall k | 0 <= k < n
      ensures done[..k] == actions[..k] && done[k] == actions[k]
    {}
    if Parked(x, actions, id, i) {
      var k: nat :| ParkedBy(x, actions, id, i, k);
      if k < n {
        assert ParkedBy(x, done, id, i, k);
        assert !SetsRow(Run(x, actions[..n]), actions[n], id, i);
      }
    }
    if Parks(Run(x, done), actions[n], id, i) {
      assert ParkedBy(x, actions, id, i, n);
    }
    if Parked(x, done, id, i) && !SetsRow(Run(x, done), actions[n], id, i) {
      var k: nat :| ParkedBy(x, done, id, i, k);
      assert ParkedBy(x, actions, id, i, k);
    }
  }

  // One step: a row of an acknowledged order is neither open nor terminal afterwards exactly when the step
  // parked it, or it was so before and the step did not set it.
  lemma StepParksExactly(x: World, a: Action, id: OrderId, i: int)
    requires Inv(x) && id in x.orders && x.orders[id].row.idem == Acknowledged && IsRow(x.orders[id].row, i)
    ensures id in Step(x, a).orders && IsRow(Step(x, a).orders[id].row, i)
    ensures !Live(StatusAt(Step(x, a).orders[id].row, i))
            <==> Parks(x, a, id, i) || (!Live(StatusAt(x.orders[id].row, i)) && !SetsRow(x, a, id, i))
  {
    hide Step, Ends, Sets, Live, Inv;
    var o := x.orders[id].row;
    StepEndsSo(x, a, id);
    EndsOrStays(o, a, i);
    if a.Edit? && a.id == id {
      EditEnds(x, a, i);
    }
  }

  lemma EditEnds(x: World, a: Action, i: int)
    requires a.Edit? && a.id in x.orders && IsRow(x.orders[a.id].row, i)
    ensures Enabled(x, a) && Concerned(x, a) == a.id
    ensures Sets(x.orders[a.id].row, a, i) <==> i in a.writes
    ensures i in a.writes ==> Ends(x.orders[a.id].row, a, i) == a.writes[i]
  {}

  // --- answers that cover the group ----------------------------------------------------------

  // Submit and adoption answers give every child a leg and never claim to be a draft. Polls may say anything.
  ghost predicate CompleteSnapshot(o: Order, s: Snapshot) {
    && s.status != "draft"
    && (forall k :: 0 <= k < |s.legs| ==> s.legs[k].status != "draft")
    && (forall i :: 0 <= i < |o.legs| ==> Covers(s.legs, o.legs[i].role))
  }

  ghost predicate Covers(legs: seq<LegSnapshot>, role: Role) {
    exists k :: 0 <= k < |legs| && RoleOf(legs[k]) == role
  }

  ghost predicate VenueAnswersCompletely(x: World, a: Action) {
    match a
    case Reply(w, answer) =>
      w in x.workers && x.workers[w].id in x.orders && answer.Accepted? ==>
        CompleteSnapshot(x.orders[x.workers[w].id].row, answer.snapshot)
    case Adopt(id, s) => id in x.orders ==> CompleteSnapshot(x.orders[id].row, s)
    case _ => true
  }

  ghost predicate CompleteRun(x: World, actions: seq<Action>) {
    forall k :: 0 <= k < |actions| ==> VenueAnswersCompletely(Run(x, actions[..k]), actions[k])
  }

  // Groups are well shaped, and what a worker is about to record covers its group.
  ghost predicate AnswersFit(x: World) {
    && (forall id :: id in x.orders ==> Shaped(x.orders[id].row))
    && (forall w :: w in x.workers && x.workers[w].id in x.orders
                    && x.workers[w].Answered? && x.workers[w].answer.Accepted? ==>
          CompleteSnapshot(x.orders[x.workers[w].id].row, x.workers[w].answer.snapshot))
  }

  lemma MapsLive(s: string)
    requires s != "draft"
    ensures Live(MapStatus(s))
  {}

  // The child whose role the leg names is the one that is updated.
  lemma MatchIsUnique(leg: LegSnapshot, children: seq<Leg>, i: nat)
    requires i < |children| && children[i].role == RoleOf(leg)
    requires forall j, k :: 0 <= j < k < |children| ==> children[j].role != children[k].role
    ensures MatchLeg(leg, children) == i
  {}

  lemma {:induction false} BackfillLeavesLive(children: seq<Leg>, legs: seq<LegSnapshot>, i: nat)
    requires i < |children|
    requires forall k :: 0 <= k < |legs| ==> legs[k].status != "draft"
    requires forall j, k :: 0 <= j < k < |children| ==> children[j].role != children[k].role
    requires Covers(legs, children[i].role)
    ensures Live(Backfill(children, legs)[i].status)
  {
    hide MapStatus, Live;
    var rest, last := legs[..|legs| - 1], legs[|legs| - 1];
    var done := Backfill(children, rest);
    MapsLive(last.status);
    if RoleOf(last) == children[i].role {
      MatchIsUnique(last, done, i);
    } else {
      var k :| 0 <= k < |legs| && RoleOf(legs[k]) == children[i].role;
      assert rest[k] == legs[k];
      assert Covers(rest, children[i].role);
      BackfillLeavesLive(children, rest, i);
    }
  }

  lemma AcknowledgedIsLive(o: Order, s: Snapshot)
    requires Shaped(o) && CompleteSnapshot(o, s)
    ensures LiveRows(Acknowledge(o, s))
  {
    hide MapStatus, Backfill, Live;
    MapsLive(s.status);
    forall i | 0 <= i < |o.legs|
      ensures Live(Backfill(o.legs, s.legs)[i].status)
    {
      BackfillLeavesLive(o.legs, s.legs, i);
    }
  }

  lemma SnapshotFitsRoles(o: Order, p: Order, s: Snapshot)
    requires CompleteSnapshot(o, s) && |o.legs| == |p.legs|
    requires forall i :: 0 <= i < |o.legs| ==> o.legs[i].role == p.legs[i].role
    ensures CompleteSnapshot(p, s)
  {
    forall i | 0 <= i < |p.legs|
      ensures Covers(s.legs, p.legs[i].role)
    {
      assert o.legs[i].role == p.legs[i].role;
    }
  }

  // Same group, same leg roles.
  ghost predicate SameShape(o: Order, p: Order) {
    o.role == p.role && |o.legs| == |p.legs| && forall i :: 0 <= i < |o.legs| ==> o.legs[i].role == p.legs[i].role
  }

  lemma EffectKeepsShape(x: World, a: Action)
    requires Enabled(x, a)
    ensures SameShape(x.orders[Concerned(x, a)].row, Effect(x, a).row)
  {
    hide MapStatus, PolledStatus, Backfill, PollLegs, Swept, Pollable;
  }

  lemma StepKeepsShape(x: World, a: Action, id: OrderId)
    requires id in x.orders
    ensures id in Step(x, a).orders && SameShape(x.orders[id].row, Step(x, a).orders[id].row)
  {
    hide Enabled, Effect, Concerned, NextWorkers;
    if Enabled(x, a) {
      EffectKeepsShape(x, a);
    }
  }

  lemma ShapeKept(o: Order, p: Order)
    requires Shaped(o) && SameShape(o, p)
    ensures Shaped(p)
  {}

  lemma StepKeepsWorkerSnapshot(x: World, a: Action, w: nat)
    requires Inv(x) && AnswersFit(x) && VenueAnswersCompletely(x, a)
    requires var y := Step(x, a);
             w in y.workers && y.workers[w].id in y.orders && y.workers[w].Answered? && y.workers[w].answer.Accepted?
    ensures var y := Step(x, a);
            CompleteSnapshot(y.orders[y.workers[w].id].row, y.workers[w].answer.snapshot)
  {
    hide Effect, CompleteSnapshot, Shaped, Pollable;
    var y := Step(x, a);
    var id := y.workers[w].id;
    assert id in x.orders;
    StepKeepsShape(x, a, id);
    SnapshotFitsRoles(x.orders[id].row, y.orders[id].row, y.workers[w].answer.snapshot);
  }

  lemma StepKeepsFit(x: World, a: Action)
    requires Inv(x) && AnswersFit(x) && VenueAnswersCompletely(x, a)
    ensures AnswersFit(Step(x, a))
  {
    hide Step, Inv, VenueAnswersCompletely, CompleteSnapshot, Shaped;
    var y := Step(x, a);
    SameOrders(x, a);
    forall id | id in y.orders
      ensures Shaped(y.orders[id].row)
    {
      StepKeepsShape(x, a, id);
      ShapeKept(x.orders[id].row, y.orders[id].row);
    }
    forall w | w in y.workers && y.workers[w].id in y.orders && y.workers[w].Answered?
               && y.workers[w].answer.Accepted?
      ensures CompleteSnapshot(y.orders[y.workers[w].id].row, y.workers[w].answer.snapshot)
    {
      StepKeepsWorkerSnapshot(x, a, w);
    }
  }

  lemma SameOrders(x: World, a: Action)
    ensures Step(x, a).orders.Keys == x.orders.Keys
  {
    hide Enabled, Effect, Concerned, NextWorkers;
  }

  lemma AcknowledgingEffect(x: World, a: Action)
    requires Inv(x) && AnswersFit(x) && VenueAnswersCompletely(x, a) && Enabled(x, a)
    requires x.orders[Concerned(x, a)].row.idem != Acknowledged && Effect(x, a).row.idem == Acknowledged
    ensures LiveRows(Effect(x, a).row)
  {
    hide Acknowledge, LiveRows, CompleteSnapshot, Shaped, PollRow, SweepRows, EditRow, Pollable, RowOk, WorkerOk;
    var o := x.orders[Concerned(x, a)].row;
    match a {
      case Record(w) => AcknowledgedIsLive(o, x.workers[w].answer.snapshot);
      case Adopt(_, s) => AcknowledgedIsLive(o, s);
      case _ =>
    }
  }

  // The step that acknowledges an order leaves every row of it open or terminal.
  lemma AcknowledgingIsLive(x: World, a: Action, id: OrderId)
    requires Inv(x) && AnswersFit(x) && VenueAnswersCompletely(x, a) && id in x.orders
    requires x.orders[id].row.idem != Acknowledged
    ensures id in Step(x, a).orders
    ensures Step(x, a).orders[id].row.idem == Acknowledged ==> LiveRows(Step(x, a).orders[id].row)
  {
    hide Inv, AnswersFit, VenueAnswersCompletely, LiveRows, Effect, NextWorkers, Enabled, Concerned;
    if Enabled(x, a) && Concerned(x, a) == id && Effect(x, a).row.idem == Acknowledged {
      AcknowledgingEffect(x, a);
    }
  }

  // --- every run -----------------------------------------------------------------------------

  lemma {:induction false} RunKeepsFit(x: World, actions: seq<Action>)
    requires Inv(x) && AnswersFit(x) && CompleteRun(x, actions)
    ensures AnswersFit(Run(x, actions)) && Inv(Run(x, actions))
  {
    hide Inv, Step, AnswersFit, VenueAnswersCompletely;
    if actions != [] {
      var done, last := actions[..|actions| - 1], actions[|actions| - 1];
      CompletePrefix(x, actions);
      RunKeepsFit(x, done);
      StepKeepsFit(Run(x, done), last);
      StepKeepsInv(Run(x, done), last);
    }
  }

  lemma CompletePrefix(x: World, actions: seq<Action>)
    requires CompleteRun(x, actions) && actions != []
    ensures CompleteRun(x, actions[..|actions| - 1])
    ensures VenueAnswersCompletely(Run(x, actions[..|actions| - 1]), actions[|actions| - 1])
  {
    hide Run, VenueAnswersCompletely;
    var done := actions[..|actions| - 1];
    assert forall k :: 0 <= k < |done| ==> done[..k] == actions[..k] && done[k] == actions[k];
  }

  lemma {:induction false} RunKeepsShape(x: World, actions: seq<Action>, id: OrderId)
    requires id in x.orders || id in Run(x, actions).orders
    ensures id in x.orders && id in Run(x, actions).orders
    ensures SameShape(x.orders[id].row, Run(x, actions).orders[id].row)
  {
    hide Step;
    if actions != [] {
      var done, last := actions[..|actions| - 1], actions[|actions| - 1];
      SameOrders(Run(x, done), last);
      RunKeepsShape(x, done, id);
      StepKeepsShape(Run(x, done), last, id);
    }
  }

  // In every run from fresh rows: a row of an acknowledged order is neither open nor terminal exactly when an
  // edit parked it after the acknowledgement and nothing has set it since.
  lemma {:induction false} RunParksExactly(x: World, actions: seq<Action>, id: OrderId, i: int)
    requires Init(x) && CompleteRun(x, actions) && id in Run(x, actions).orders
    requires IsRow(Run(x, actions).orders[id].row, i)
    ensures var o := Run(x, actions).orders[id].row;
            if o.idem == Acknowledged then !Live(StatusAt(o, i)) <==> Parked(x, actions, id, i)
            else !Parked(x, actions, id, i)
    decreases |actions|
  {
    hide Init, Inv, Step, AnswersFit, VenueAnswersCompletely, Parks, SetsRow, Live, StatusAt, Parked;
    if actions == [] {
      NothingParked(x, id, i);
    } else {
      var done, a := actions[..|actions| - 1], actions[|actions| - 1];
      var y := Run(x, done);
      CompletePrefix(x, actions);
      FreshFits(x);
      RunKeepsFit(x, done);
      SameOrders(y, a);
      RunKeepsShape(x, done, id);
      StepKeepsShape(y, a, id);
      RunParksExactly(x, done, id, i);
      ParkedOneMore(x, actions, id, i);
      if y.orders[id].row.idem == Acknowledged {
        StepParksExactly(y, a, id, i);
        StepEndsSo(y, a, id);
      } else {
        AcknowledgingIsLive(y, a, id);
        NotParkedBefore(y, a, id, i);
        if Step(y, a).orders[id].row.idem == Acknowledged {
          LiveRow(Step(y, a).orders[id].row, i);
        }
      }
    }
  }

  lemma NothingParked(x: World, id: OrderId, i: int)
    requires Init(x) && id in x.orders
    ensures !Parked(x, [], id, i) && x.orders[id].row.idem != Acknowledged
  {}

  lemma NotParkedBefore(x: World, a: Action, id: OrderId, i: int)
    requires id in x.orders && x.orders[id].row.idem != Acknowledged
    ensures !Parks(x, a, id, i)
  {}

  lemma LiveRow(o: Order, i: int)
    requires LiveRows(o) && IsRow(o, i)
    ensures Live(StatusAt(o, i))
  {}

  lemma FreshFits(x: World)
    requires Init(x)
    ensures Inv(x) && AnswersFit(x)
  {}

  // In every run: an unknown order is never lost, and an acknowledged one is lost exactly when no row is open
  // and some row was parked by an edit that no later write, poll or sweep of that row replaced.
  lemma LostExactly(x: World, actions: seq<Action>, id: OrderId)
    requires Init(x) && CompleteRun(x, actions) && id in Run(x, actions).orders
    ensures var o := Run(x, actions).orders[id].row;
            && (o.idem == Unknown ==> !Lost(o))
            && (o.idem == Acknowledged ==>
                  (Lost(o) <==> NoneOpen(o) && exists i :: IsRow(o, i) && Parked(x, actions, id, i)))
  {
    hide Init, Run, CompleteRun, Live, StatusAt, Parked, AllTerminal, NoneOpen;
    var o := Run(x, actions).orders[id].row;
    if o.idem == Acknowledged {
      LostIs(o);
      forall i | IsRow(o, i)
        ensures !Live(StatusAt(o, i)) <==> Parked(x, actions, id, i)
      {
        RunParksExactly(x, actions, id, i);
      }
      if exists i :: IsRow(o, i) && Parked(x, actions, id, i) {
        var i :| IsRow(o, i) && Parked(x, actions, id, i);
        assert !Live(StatusAt(o, i));
      }
      if exists i :: IsRow(o, i) && !Live(StatusAt(o, i)) {
        var i :| IsRow(o, i) && !Live(StatusAt(o, i));
        assert Parked(x, actions, id, i);
      }
    }
  }

  // No status is written over an acknowledged row that is neither open nor terminal: whoever edits has made
  // sure that the order was not submitted meanwhile.
  ghost predicate EditsStayLive(x: World, a: Action) {
    a.Edit? && a.id in x.orders && x.orders[a.id].row.idem == Acknowledged ==>
      forall k :: k in a.writes ==> Live(a.writes[k])
  }

  ghost predicate LiveEditRun(x: World, actions: seq<Action>) {
    forall k :: 0 <= k < |actions| ==> EditsStayLive(Run(x, actions[..k]), actions[k])
  }

  // In particular, where no edit lands late on an acknowledged row, the poll keeps selecting the order from
  // acknowledgement or unknown onward until every row is terminal locally; and then a group with an exit does
  // not read as working.
  lemma NoLiveLegIsLost(x: World, actions: seq<Action>, id: OrderId)
    requires Init(x) && CompleteRun(x, actions) && LiveEditRun(x, actions) && id in Run(x, actions).orders
    requires var idem := Run(x, actions).orders[id].row.idem; idem == Acknowledged || idem == Unknown
    ensures var o := Run(x, actions).orders[id].row;
            && !Lost(o)
            && (AllTerminal(o) && IsGroupAnchor(o) && o.legs != [] ==> DeriveGroupStatus(o) != GWorking)
  {
    hide DeriveGroupStatus, Init, Run, CompleteRun, Lost, AllTerminal;
    LostExactly(x, actions, id);
    var o := Run(x, actions).orders[id].row;
    forall i
      ensures !Parked(x, actions, id, i)
    {
      NothingParkedLive(x, actions, id, i);
    }
    if AllTerminal(o) && IsGroupAnchor(o) {
      TerminalGroupIsSettled(o);
    }
  }

  lemma NothingParkedLive(x: World, actions: seq<Action>, id: OrderId, i: int)
    requires LiveEditRun(x, actions)
    ensures !Parked(x, actions, id, i)
  {
    hide Run, SetsRow;
    forall k | 0 <= k < |actions|
      ensures !Parks(Run(x, actions[..k]), actions[k], id, i)
    {
      assert EditsStayLive(Run(x, actions[..k]), actions[k]);
    }
  }

  // --- how long, and how it happens ----------------------------------------------------------

  // What can bring a lost order back: another write, a sweep, or a poll asked for this order.
  predicate Revives(a: Action, id: OrderId) {
    (a.Edit? && a.id == id) || (a.Sweep? && a.id == id) || (a.Poll? && a.id == id && a.asked)
  }

  lemma LostStepStays(x: World, a: Action, id: OrderId)
    requires Inv(x) && id in x.orders && x.orders[id].row.idem == Acknowledged && Lost(x.orders[id].row)
    requires !Revives(a, id)
    ensures id in Step(x, a).orders && Step(x, a).orders[id].row == x.orders[id].row
  {
    hide RecordAnswer, Acknowledge, PollRow, SweepRows, EditRow, Pollable, AllTerminal, WorkerOk, RowOk;
    if a.Record? && Enabled(x, a) {
      Pending(x, a.w);
    }
  }

  // Without one of these a lost order stays as it is through every run, live at the venue or not.
  lemma {:induction false} LostStaysLost(x: World, actions: seq<Action>, id: OrderId)
    requires Inv(x) && id in x.orders && x.orders[id].row.idem == Acknowledged && Lost(x.orders[id].row)
    requires forall k :: 0 <= k < |actions| ==> !Revives(actions[k], id)
    ensures id in Run(x, actions).orders && Run(x, actions).orders[id].row == x.orders[id].row
  {
    hide Inv, Step, Lost, Revives;
    if actions != [] {
      var done := actions[..|actions| - 1];
      LostStaysLost(x, done, id);
      RunKeepsInv(x, done);
      LostStepStays(Run(x, done), actions[|actions| - 1], id);
    }
  }

  // One order and one worker: the submit that the venue takes.
  function Alone(o: Order): World {
    World(map["o" := Tracked(o, 0, 0, 0)], map[])
  }

  function Taken(o: Order): World {
    World(map["o" := Tracked(o, 1, 0, 1)], map[])
  }

  function Submission(s: Snapshot): seq<Action> {
    [Claim(0, "o"), HandOff(0), VenueAccepts("o"), Reply(0, Accepted(s)), Record(0)]
  }

  lemma {:induction false} RunAppends(x: World, a: seq<Action>, b: seq<Action>)
    ensures Run(x, a + b) == Run(Run(x, a), b)
    decreases |b|
  {
    hide Step;
    if b == [] {
      assert a + b == a;
    } else {
      var n := |b| - 1;
      assert (a + b)[..|a + b| - 1] == a + b[..n];
      RunAppends(x, a, b[..n]);
    }
  }

  lemma OneAction(x: World, a: Action)
    ensures Run(x, [a]) == Step(x, a)
  {
    hide Step;
    assert [a][..0] == [];
    assert Run(x, []) == x;
  }

  lemma EditAlone(o: Order, writes: map<int, Status>)
    ensures Run(Alone(o), [Edit("o", writes)]) == Alone(EditRow(o, writes))
    ensures Run(Taken(o), [Edit("o", writes)]) == Taken(EditRow(o, writes))
  {
    hide EditRow;
    OneAction(Alone(o), Edit("o", writes));
    OneAction(Taken(o), Edit("o", writes));
  }

  lemma ClaimedAndSent(o: Order)
    requires o.idem == Unsubmitted
    ensures var p := o.(idem := SubmitPending);
            Run(Alone(o), [Claim(0, "o"), HandOff(0)]) == World(map["o" := Tracked(p, 0, 1, 1)], map[0 := Sent("o")])
  {
    hide Pollable;
    var p := o.(idem := SubmitPending);
    var both := [Claim(0, "o"), HandOff(0)];
    assert both[..1] == [Claim(0, "o")];
    OneAction(Alone(o), Claim(0, "o"));
    assert Step(Alone(o), Claim(0, "o")) == World(map["o" := Tracked(p, 0, 0, 0)], map[0 := Claimed("o")]);
  }

  lemma TakenAndAnswered(p: Order, s: Snapshot)
    ensures Run(World(map["o" := Tracked(p, 0, 1, 1)], map[0 := Sent("o")]),
                [VenueAccepts("o"), Reply(0, Accepted(s))])
            == World(map["o" := Tracked(p, 1, 0, 1)], map[0 := Answered("o", Accepted(s))])
  {
    hide Pollable;
    var x := World(map["o" := Tracked(p, 0, 1, 1)], map[0 := Sent("o")]);
    var both := [VenueAccepts("o"), Reply(0, Accepted(s))];
    assert both[..1] == [VenueAccepts("o")];
    OneAction(x, VenueAccepts("o"));
    assert Step(x, VenueAccepts("o")) == World(map["o" := Tracked(p, 1, 0, 1)], map[0 := Sent("o")]);
  }

  lemma Recorded(p: Order, s: Snapshot)
    ensures Run(World(map["o" := Tracked(p, 1, 0, 1)], map[0 := Answered("o", Accepted(s))]), [Record(0)])
            == Taken(Acknowledge(p, s))
  {
    hide Acknowledge, Pollable;
    OneAction(World(map["o" := Tracked(p, 1, 0, 1)], map[0 := Answered("o", Accepted(s))]), Record(0));
  }

  lemma SubmissionTakes(o: Order, s: Snapshot)
    requires o.idem == Unsubmitted
    ensures Run(Alone(o), Submission(s)) == Taken(Acknowledge(o.(idem := SubmitPending), s))
  {
    hide Run, Acknowledge;
    var p := o.(idem := SubmitPending);
    var a, b, c := [Claim(0, "o"), HandOff(0)], [VenueAccepts("o"), Reply(0, Accepted(s))], [Record(0)];
    assert Submission(s) == a + b + c;
    RunAppends(Alone(o), a + b, c);
    RunAppends(Alone(o), a, b);
    ClaimedAndSent(o);
    TakenAndAnswered(p, s);
    Recorded(p, s);
  }

  // A run about one order in which the venue answers only what covers it.
  lemma CompleteAlone(o: Order, actions: seq<Action>, s: Snapshot)
    requires CompleteSnapshot(o, s)
    requires forall k :: 0 <= k < |actions| ==>
               !actions[k].Adopt? && (actions[k].Reply? ==> actions[k].answer == Accepted(s))
    ensures CompleteRun(Alone(o), actions)
  {
    hide CompleteSnapshot, Run;
    forall k | 0 <= k < |actions|
      ensures VenueAnswersCompletely(Run(Alone(o), actions[..k]), actions[k])
    {
      var y := Run(Alone(o), actions[..k]);
      if actions[k].Reply? && actions[k].w in y.workers && y.workers[actions[k].w].id in y.orders {
        var id := y.workers[actions[k].w].id;
        RunKeepsShape(Alone(o), actions[..k], id);
        SnapshotFitsRoles(o, y.orders[id].row, s);
      }
    }
  }

  const CONFIRM := Edit("o", map[-1 := Confirmed])
  const CONFIRM_LEG := Edit("o", map[0 := Confirmed])

  const DRAFT := Order(Single, Unsubmitted, Draft, "", [])
  const TAKEN := Snapshot("v", "submitted", [])

  // Two confirmations of one draft, the slower one saving after the faster one's submit was acknowledged.
  const LATE_CONFIRM: seq<Action> := [CONFIRM] + Submission(TAKEN) + [CONFIRM]

  lemma LateConfirmLosesOrder()
    ensures Init(Alone(DRAFT)) && CompleteRun(Alone(DRAFT), LATE_CONFIRM)
    ensures Run(Alone(DRAFT), LATE_CONFIRM) == Taken(Order(Single, Acknowledged, Confirmed, "v", []))
    ensures Lost(Order(Single, Acknowledged, Confirmed, "v", []))
  {
    hide Run;
    var o := DRAFT.(status := Confirmed);
    assert EditRow(DRAFT, map[-1 := Confirmed]) == o;
    EditAlone(DRAFT, map[-1 := Confirmed]);
    SubmissionTakes(o, TAKEN);
    var sent := Order(Single, Acknowledged, Submitted, "v", []);
    assert Acknowledge(o.(idem := SubmitPending), TAKEN) == sent;
    assert EditRow(sent, map[-1 := Confirmed]) == sent.(status := Confirmed);
    EditAlone(sent, map[-1 := Confirmed]);
    RunAppends(Alone(DRAFT), [CONFIRM], Submission(TAKEN));
    RunAppends(Alone(DRAFT), [CONFIRM] + Submission(TAKEN), [CONFIRM]);
    CompleteAlone(DRAFT, LATE_CONFIRM, TAKEN);
  }

  function Entry1(idem: Idem, status: Status, id: string, legIdem: Idem, legStatus: Status, legId: string): Order {
    Order(Entry, idem, status, id, [Leg(TakeProfit, legIdem, legStatus, legId)])
  }

  const DRAFT_GROUP := Entry1(Unsubmitted, Draft, "", Unsubmitted, Draft, "")
  const TAKEN_GROUP := Snapshot("v", "submitted", [LegSnapshot("limit", "t", "submitted")])

  // The same for a group, whose confirmation saves the anchor first and its legs in a second statement.
  const LATE_GROUP_CONFIRM: seq<Action> :=
    [CONFIRM] + [CONFIRM_LEG] + Submission(TAKEN_GROUP) + [CONFIRM] + [CONFIRM_LEG]

  lemma GroupWrites()
    ensures EditRow(DRAFT_GROUP, map[-1 := Confirmed]) == Entry1(Unsubmitted, Confirmed, "", Unsubmitted, Draft, "")
    ensures EditRow(Entry1(Unsubmitted, Confirmed, "", Unsubmitted, Draft, ""), map[0 := Confirmed])
            == Entry1(Unsubmitted, Confirmed, "", Unsubmitted, Confirmed, "")
    ensures EditRow(Entry1(Acknowledged, Submitted, "v", Acknowledged, Submitted, "t"), map[-1 := Confirmed])
            == Entry1(Acknowledged, Confirmed, "v", Acknowledged, Submitted, "t")
    ensures EditRow(Entry1(Acknowledged, Confirmed, "v", Acknowledged, Submitted, "t"), map[0 := Confirmed])
            == Entry1(Acknowledged, Confirmed, "v", Acknowledged, Confirmed, "t")
  {}

  lemma GroupTaken()
    ensures Acknowledge(Entry1(SubmitPending, Confirmed, "", Unsubmitted, Confirmed, ""), TAKEN_GROUP)
            == Entry1(Acknowledged, Submitted, "v", Acknowledged, Submitted, "t")
  {
    var leg := TAKEN_GROUP.legs[0];
    var children := [Leg(TakeProfit, Unsubmitted, Confirmed, "")];
    assert MatchLeg(leg, children) == 0;
    assert TAKEN_GROUP.legs[..0] == [];
    assert Backfill(children, []) == children;
    assert Backfill(children, TAKEN_GROUP.legs) == BackfillOne(children, leg);
  }

  lemma GroupIsCovered()
    ensures CompleteSnapshot(DRAFT_GROUP, TAKEN_GROUP)
  {
    assert RoleOf(TAKEN_GROUP.legs[0]) == TakeProfit;
  }

  lemma HalfParkedIsInSight()
    ensures !Lost(Entry1(Acknowledged, Confirmed, "v", Acknowledged, Submitted, "t"))
    ensures Lost(Entry1(Acknowledged, Confirmed, "v", Acknowledged, Confirmed, "t"))
  {
    var between := Entry1(Acknowledged, Confirmed, "v", Acknowledged, Submitted, "t");
    assert Open(between.legs[0].status);
  }

  // Between the two statements the open leg still keeps the group in sight.
  lemma LateGroupConfirmLosesGroup()
    ensures Init(Alone(DRAFT_GROUP)) && CompleteRun(Alone(DRAFT_GROUP), LATE_GROUP_CONFIRM)
    ensures var between, after := Entry1(Acknowledged, Confirmed, "v", Acknowledged, Submitted, "t"),
                                  Entry1(Acknowledged, Confirmed, "v", Acknowledged, Confirmed, "t");
            && Run(Alone(DRAFT_GROUP), LATE_GROUP_CONFIRM[..8]) == Taken(between) && !Lost(between)
            && Run(Alone(DRAFT_GROUP), LATE_GROUP_CONFIRM) == Taken(after) && Lost(after)
  {
    hide Run, EditRow, Acknowledge, CompleteSnapshot, Lost;
    HalfParkedIsInSight();
    var draft := Entry1(Unsubmitted, Confirmed, "", Unsubmitted, Draft, "");
    var ready := Entry1(Unsubmitted, Confirmed, "", Unsubmitted, Confirmed, "");
    var sent := Entry1(Acknowledged, Submitted, "v", Acknowledged, Submitted, "t");
    var between := Entry1(Acknowledged, Confirmed, "v", Acknowledged, Submitted, "t");
    GroupWrites();
    GroupTaken();
    GroupIsCovered();
    EditAlone(DRAFT_GROUP, map[-1 := Confirmed]);
    EditAlone(draft, map[0 := Confirmed]);
    SubmissionTakes(ready, TAKEN_GROUP);
    EditAlone(sent, map[-1 := Confirmed]);
    EditAlone(between, map[0 := Confirmed]);
    var x, submission := Alone(DRAFT_GROUP), Submission(TAKEN_GROUP);
    RunAppends(x, [CONFIRM], [CONFIRM_LEG]);
    RunAppends(x, [CONFIRM] + [CONFIRM_LEG], submission);
    RunAppends(x, [CONFIRM] + [CONFIRM_LEG] + submission, [CONFIRM]);
    RunAppends(x, [CONFIRM] + [CONFIRM_LEG] + submission + [CONFIRM], [CONFIRM_LEG]);
    assert LATE_GROUP_CONFIRM[..8] == [CONFIRM] + [CONFIRM_LEG] + submission + [CONFIRM];
    CompleteAlone(DRAFT_GROUP, LATE_GROUP_CONFIRM, TAKEN_GROUP);
  }
}
