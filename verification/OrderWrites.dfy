// What each step of the submission machine writes to a row, field by field.
module OrderWrites {
  import opened OrderGroups
  import opened OrderProtocol

  // --- statuses by name ----------------------------------------------------------------------

  // The venue's word for a status.
  function VenueWord(s: Status): string {
    match s
    case Draft => "draft"
    case Submitted => "submitted"
    case Partial => "partial"
    case Filled => "filled"
    case Cancelled => "cancelled"
    case Rejected => "rejected"
    case Error => "error"
    case Confirmed => "confirmed"
    case PendingOpen => "pending_open"
  }

  // A submit or an adoption records each of the seven words the adapters use as the status it names, and any
  // other word as submitted; a poll does the same but leaves the row as it is for a draft and for any other
  // word.
  lemma WordsNameStatuses(s: Status, current: Status)
    ensures s != Confirmed && s != PendingOpen ==> MapStatus(VenueWord(s)) == s
    ensures s != Confirmed && s != PendingOpen && s != Draft ==> PolledStatus(VenueWord(s), current) == s
    ensures PolledStatus("draft", current) == current
  {}

  lemma OtherWords(word: string, current: Status)
    requires forall s :: s != Confirmed && s != PendingOpen ==> word != VenueWord(s)
    ensures MapStatus(word) == Submitted && PolledStatus(word, current) == current
  {
    assert word != VenueWord(Draft) && word != VenueWord(Submitted) && word != VenueWord(Partial);
    assert word != VenueWord(Filled) && word != VenueWord(Cancelled) && word != VenueWord(Rejected);
    assert word != VenueWord(Error);
  }

  // --- what a worker records -----------------------------------------------------------------

  // Every row of an order, its anchor and its legs, reads so.
  predicate AllRows(o: Order, idem: Idem, status: Status) {
    o.idem == idem && o.status == status
    && forall i :: 0 <= i < |o.legs| ==> o.legs[i].idem == idem && o.legs[i].status == status
  }

  // The venue said no: the whole group is rejected. The credentials were refused and the order never got there:
  // the whole group is confirmed again. Nobody knows: the anchor is parked with an error, the legs stay.
  lemma RecordWrites(x: World, w: nat)
    requires Enabled(x, Record(w))
    ensures var id, answer := x.workers[w].id, x.workers[w].answer;
            var o, y := x.orders[id].row, Step(x, Record(w));
            && id in y.orders && w !in y.workers
            && y.orders[id] == x.orders[id].(row := y.orders[id].row)
            && var r := y.orders[id].row;
               && (answer == Refused ==> AllRows(r, Unsubmitted, Rejected) && SameRest(o, r))
               && (answer == AuthRefused ==> AllRows(r, Unsubmitted, Confirmed) && SameRest(o, r))
               && (answer == Transient ==> r == o.(idem := Unknown, status := Error))
               && (answer.Accepted? ==> r.idem == Acknowledged && r.brokerId == answer.snapshot.brokerId
                                        && r.status == MapStatus(answer.snapshot.status))
  {
    hide Backfill, MapStatus;
  }

  // Roles and venue ids as before.
  predicate SameRest(o: Order, r: Order) {
    && r.role == o.role && r.brokerId == o.brokerId && |r.legs| == |o.legs|
    && forall i :: 0 <= i < |o.legs| ==> r.legs[i].role == o.legs[i].role && r.legs[i].brokerId == o.legs[i].brokerId
  }

  // The other writes of the machine: the claim, the expiry and the sweep.
  lemma ClaimWrites(x: World, w: nat, id: OrderId)
    requires Enabled(x, Claim(w, id))
    ensures var y := Step(x, Claim(w, id));
            y.orders[id] == x.orders[id].(row := x.orders[id].row.(idem := SubmitPending))
            && w in y.workers && y.workers[w] == Claimed(id)
  {}

  lemma ExpiryWrites(x: World, id: OrderId)
    requires Enabled(x, Expire(id))
    ensures Step(x, Expire(id)).orders[id] == x.orders[id].(row := x.orders[id].row.(status := Rejected))
  {}

  lemma AdoptionWrites(x: World, id: OrderId, s: Snapshot)
    requires Enabled(x, Adopt(id, s))
    ensures var r := Step(x, Adopt(id, s)).orders[id].row;
            && r.idem == Acknowledged && r.brokerId == s.brokerId && r.status == MapStatus(s.status)
            && |r.legs| == |x.orders[id].row.legs|
  {
    hide Backfill, MapStatus;
  }

  // A sweep rejects, of the rows it looks at, the confirmed ones without a venue id, and changes nothing else.
  lemma SweepWrites(x: World, id: OrderId, rows: set<int>)
    requires id in x.orders
    ensures var o, r := x.orders[id].row, Step(x, Sweep(id, rows)).orders[id].row;
            && r.idem == o.idem && SameRest(o, r)
            && r.status == (if -1 in rows && o.status == Confirmed && o.brokerId == "" then Rejected else o.status)
            && forall i :: 0 <= i < |o.legs| ==>
                 r.legs[i].idem == o.legs[i].idem
                 && r.legs[i].status == if i in rows && o.legs[i].status == Confirmed && o.legs[i].brokerId == "" then
                                          Rejected
                                        else o.legs[i].status
  {}

  // --- refusals stay visible -----------------------------------------------------------------

  // Nothing but an edit, a sweep or another claim touches an order that is not submitted.
  predicate Concerns(a: Action, id: OrderId) {
    (a.Edit? && a.id == id) || (a.Sweep? && a.id == id) || (a.Claim? && a.id == id)
  }

  lemma UnsubmittedStepStays(x: World, a: Action, id: OrderId)
    requires Inv(x) && id in x.orders && x.orders[id].row.idem == Unsubmitted && !Concerns(a, id)
    ensures id in Step(x, a).orders && Step(x, a).orders[id].row == x.orders[id].row
  {
    hide RecordAnswer, Acknowledge, PollRow, SweepRows, EditRow, Pollable, WorkerOk;
    assert RowOk(x.orders[id]);
    if Enabled(x, a) && Concerned(x, a) == id {
      match a {
        case Record(w) => Pending(x, w);
        case HandOff(w) => Pending(x, w);
        case Reply(w, _) => Pending(x, w);
        case _ =>
      }
    }
  }

  lemma {:induction false} UnsubmittedStays(x: World, actions: seq<Action>, id: OrderId)
    requires Inv(x) && id in x.orders && x.orders[id].row.idem == Unsubmitted
    requires forall k :: 0 <= k < |actions| ==> !Concerns(actions[k], id)
    ensures id in Run(x, actions).orders && Run(x, actions).orders[id].row == x.orders[id].row
  {
    hide Inv, Step, Concerns;
    if actions != [] {
      var done := actions[..|actions| - 1];
      UnsubmittedStays(x, done, id);
      RunKeepsInv(x, done);
      UnsubmittedStepStays(Run(x, done), actions[|actions| - 1], id);
    }
  }

  // An order the venue refused reads rejected, and one whose credentials were refused confirmed, through every
  // run until an edit, a sweep or another claim concerns it.
  lemma RefusalStaysVisible(x: World, w: nat, actions: seq<Action>)
    requires Inv(x) && Enabled(x, Record(w)) && (x.workers[w].answer == Refused || x.workers[w].answer == AuthRefused)
    requires forall k :: 0 <= k < |actions| ==> !Concerns(actions[k], x.workers[w].id)
    ensures var id, y := x.workers[w].id, Run(Step(x, Record(w)), actions);
            id in y.orders
            && AllRows(y.orders[id].row, Unsubmitted, if x.workers[w].answer == Refused then Rejected else Confirmed)
  {
    hide Inv, Step, Run, Concerns, AllRows, SameRest;
    RecordWrites(x, w);
    StepKeepsInv(x, Record(w));
    var id := x.workers[w].id;
    AnchorReads(Step(x, Record(w)).orders[id].row, if x.workers[w].answer == Refused then Rejected else Confirmed);
    UnsubmittedStays(Step(x, Record(w)), actions, id);
  }

  lemma AnchorReads(o: Order, status: Status)
    ensures AllRows(o, Unsubmitted, status) ==> o.idem == Unsubmitted
  {}

  // --- what an answer says about a leg -------------------------------------------------------

  // The venue's leg that names a role last decides the status of the child in that role; the last one with a
  // venue id decides its id.
  lemma {:induction false} BackfillsLastLeg(children: seq<Leg>, legs: seq<LegSnapshot>, i: nat, k: nat)
    requires i < |children| && k < |legs|
    requires forall j :: 0 <= j < i ==> children[j].role != children[i].role
    requires NamesRole(legs[k], children[i].role)
    requires forall j :: k < j < |legs| ==> !NamesRole(legs[j], children[i].role)
    ensures var c := Backfill(children, legs)[i];
            c.idem == Acknowledged && c.status == MapStatus(legs[k].status)
            && (legs[k].brokerId != "" ==> c.brokerId == legs[k].brokerId)
  {
    hide MapStatus;
    var rest, last := legs[..|legs| - 1], legs[|legs| - 1];
    var done := Backfill(children, rest);
    if k == |legs| - 1 {
      assert RoleOf(last) == done[i].role;
      FirstOfRole(last, done, i);
    } else {
      BackfillsLastLeg(children, rest, i, k);
    }
  }

  // Limit legs are take-profits, all others stops.
  predicate NamesRole(leg: LegSnapshot, role: Role) {
    if leg.otype == "limit" then role == TakeProfit else role == StopLoss
  }

  lemma FirstOfRole(leg: LegSnapshot, children: seq<Leg>, i: nat)
    requires i < |children| && children[i].role == RoleOf(leg)
    requires forall j :: 0 <= j < i ==> children[j].role != RoleOf(leg)
    ensures MatchLeg(leg, children) == i
  {}

  lemma {:induction false} BackfillSkipsUnnamed(children: seq<Leg>, legs: seq<LegSnapshot>, i: nat)
    requires i < |children| && forall j :: 0 <= j < |legs| ==> !NamesRole(legs[j], children[i].role)
    ensures Backfill(children, legs)[i] == children[i]
  {
    if legs != [] {
      BackfillSkipsUnnamed(children, legs[..|legs| - 1], i);
    }
  }

  // A poll keeps a venue id once a child has one, and gives it the one it names otherwise.
  lemma {:induction false} PollLearnsId(children: seq<Leg>, legs: seq<LegSnapshot>, i: nat)
    requires i < |children|
    ensures var c := PollLegs(children, legs)[i];
            if children[i].brokerId != "" then c.brokerId == children[i].brokerId
            else c.brokerId == ""
                 || exists k :: 0 <= k < |legs| && legs[k].brokerId == c.brokerId
                                && NamesRole(legs[k], children[i].role)
  {
    hide PolledStatus;
    if legs != [] {
      var rest, last := legs[..|legs| - 1], legs[|legs| - 1];
      PollLearnsId(children, rest, i);
      var c, was := PollLegs(children, legs)[i], PollLegs(children, rest)[i];
      if children[i].brokerId == "" && c.brokerId != "" {
        if c.brokerId == was.brokerId {
          var k :| 0 <= k < |rest| && rest[k].brokerId == c.brokerId && NamesRole(rest[k], children[i].role);
          assert legs[k] == rest[k];
        } else {
          assert legs[|legs| - 1].brokerId == c.brokerId;
        }
      }
    }
  }

  // The venue's leg that names a role last with a word the poll knows decides the status of the child in that
  // role, once the child has a venue id.
  lemma {:induction false} PollsLastLeg(
      children: seq<Leg>, legs: seq<LegSnapshot>, i: nat, k: nat, status: Status)
    requires i < |children| && k < |legs|
    requires forall j :: 0 <= j < i ==> children[j].role != children[i].role
    requires NamesRole(legs[k], children[i].role) && (children[i].brokerId != "" || legs[k].brokerId != "")
    requires legs[k].status == VenueWord(status) && (Open(status) || Terminal(status))
    requires forall j :: k < j < |legs| ==> !NamesRole(legs[j], children[i].role)
    ensures PollLegs(children, legs)[i].status == status
  {
    hide PolledStatus, PollOne, VenueWord;
    var rest, last := legs[..|legs| - 1], legs[|legs| - 1];
    var done := PollLegs(children, rest);
    if k == |legs| - 1 {
      PollLearnsId(children, rest, i);
      PollsNamed(done, last, i, status);
    } else {
      PollsLastLeg(children, rest, i, k, status);
      PollsUnnamed(done, last, i);
    }
  }

  lemma PollsNamed(children: seq<Leg>, leg: LegSnapshot, i: nat, status: Status)
    requires i < |children| && NamesRole(leg, children[i].role)
    requires forall j :: 0 <= j < i ==> children[j].role != children[i].role
    requires children[i].brokerId != "" || leg.brokerId != ""
    requires leg.status == VenueWord(status) && (Open(status) || Terminal(status))
    ensures PollOne(children, leg)[i].status == status
  {
    hide PolledStatus, VenueWord;
    FirstOfRole(leg, children, i);
    assert status != Confirmed && status != PendingOpen && status != Draft;
    WordsNameStatuses(status, children[i].status);
  }

  lemma PollsUnnamed(children: seq<Leg>, leg: LegSnapshot, i: nat)
    requires i < |children| && !NamesRole(leg, children[i].role)
    ensures PollOne(children, leg)[i] == children[i]
  {
    hide PolledStatus;
  }

  // A poll of the anchor.
  lemma PollWrites(x: World, id: OrderId, s: Snapshot, asked: bool, status: Status)
    requires Enabled(x, Poll(id, s, asked)) && s.status == VenueWord(status) && (Open(status) || Terminal(status))
    ensures var o, r := x.orders[id].row, Step(x, Poll(id, s, asked)).orders[id].row;
            r.status == status && r.idem == o.idem && r.brokerId == o.brokerId && |r.legs| == |o.legs|
  {
    hide PollLegs, Pollable, PolledStatus;
    WordsNameStatuses(status, x.orders[id].row.status);
  }
}
