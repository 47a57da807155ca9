// The submission protocol as a machine of atomic steps: any number of workers racing to submit, a venue that
// answers, refuses or stays silent, and pollers that adopt, expire and refresh rows.
module OrderProtocol {
  import opened OrderGroups

  type OrderId = string

  // A local row together with what really happened to it: requests the venue took, requests still on the
  // wire, and how often it was handed to the broker.
  datatype Tracked = Tracked(row: Order, accepted: nat, wire: nat, handoffs: nat)

  datatype Answer =
    | Accepted(snapshot: Snapshot)   // the venue took the order
    | Transient                      // timeout, 5xx: nobody knows
    | AuthRefused                    // credentials rejected, never reached the venue
    | Refused                        // the venue said no

  // Where a worker stands inside a submit.
  datatype Worker = Claimed(id: OrderId) | Sent(id: OrderId) | Answered(id: OrderId, answer: Answer)

  datatype World = World(orders: map<OrderId, Tracked>, workers: map<nat, Worker>)

  datatype Action =
    | Edit(id: OrderId, writes: map<int, Status>)  // confirm, hold, release or cancel: status writes, no guard
    | Claim(w: nat, id: OrderId)                   // the conditional update unsubmitted -> submit_pending
    | HandOff(w: nat)                              // the call to the broker starts
    | VenueAccepts(id: OrderId)
    | WireLoses(id: OrderId)
    | Reply(w: nat, answer: Answer)
    | Record(w: nat)                               // the worker writes the outcome to the row
    | Crash(w: nat)
    | Adopt(id: OrderId, snapshot: Snapshot)       // resolve_unknown found the order at the venue
    | Expire(id: OrderId)                          // the lookup found nothing, rightly or not, and the grace is over
    | Poll(id: OrderId, snapshot: Snapshot, asked: bool)   // by the periodic pass, or asked for this order
    | Sweep(id: OrderId, rows: set<int>)           // stuck confirmed rows become rejected

  // In edits and sweeps -1 stands for the anchor, other numbers for its legs.

  // --- the local updates ---------------------------------------------------------------------

  // The write after the venue took the order, or after its record was found: identical on the row.
  function Acknowledge(o: Order, s: Snapshot): Order {
    o.(idem := Acknowledged, status := MapStatus(s.status), brokerId := s.brokerId,
       legs := Backfill(o.legs, s.legs))
  }

  function ParkUnknown(o: Order): Order {
    o.(idem := Unknown, status := Error)
  }

  // A refusal walks the whole group back.
  function WalkBack(o: Order, status: Status): Order {
    o.(idem := Unsubmitted, status := status,
       legs := seq(|o.legs|, i requires 0 <= i < |o.legs| =>
                 o.legs[i].(idem := Unsubmitted, status := status)))
  }

  function RecordAnswer(o: Order, a: Answer): Order {
    match a
    case Accepted(s) => Acknowledge(o, s)
    case Transient => ParkUnknown(o)
    case AuthRefused => WalkBack(o, Confirmed)
    case Refused => WalkBack(o, Rejected)
  }

  function PollRow(o: Order, s: Snapshot): (r: Order)
    ensures r.idem == o.idem && r.brokerId == o.brokerId
  {
    o.(status := PolledStatus(s.status, o.status), legs := PollLegs(o.legs, s.legs))
  }

  function Swept(status: Status, brokerId: string): Status {
    if status == Confirmed && brokerId == "" then Rejected else status
  }

  function SweepRows(o: Order, rows: set<int>): (r: Order)
    ensures r.idem == o.idem && r.brokerId == o.brokerId
  {
    o.(status := if -1 in rows then Swept(o.status, o.brokerId) else o.status,
       legs := seq(|o.legs|, i requires 0 <= i < |o.legs| =>
                 if i in rows then o.legs[i].(status := Swept(o.legs[i].status, o.legs[i].brokerId))
                 else o.legs[i]))
  }

  function EditRow(o: Order, writes: map<int, Status>): (r: Order)
    ensures r.idem == o.idem && r.brokerId == o.brokerId
  {
    o.(status := if -1 in writes then writes[-1] else o.status,
       legs := seq(|o.legs|, i requires 0 <= i < |o.legs| =>
                 if i in writes then o.legs[i].(status := writes[i]) else o.legs[i]))
  }

  // What the periodic poll selects.
  predicate Pollable(o: Order) {
    Open(o.status) || o.idem == Unknown || exists i :: 0 <= i < |o.legs| && Open(o.legs[i].status)
  }

  // --- steps ---------------------------------------------------------------------------------

  predicate Enabled(x: World, a: Action) {
    match a
    case Edit(id, _) => id in x.orders
    case Claim(w, id) => w !in x.workers && id in x.orders && x.orders[id].row.idem == Unsubmitted
    case HandOff(w) => w in x.workers && x.workers[w].Claimed? && x.workers[w].id in x.orders
    case VenueAccepts(id) => id in x.orders && x.orders[id].wire > 0
    case WireLoses(id) => id in x.orders && x.orders[id].wire > 0
    case Reply(w, answer) =>
      w in x.workers && x.workers[w].Sent? && x.workers[w].id in x.orders
      && var t := x.orders[x.workers[w].id];
         (match answer
          case Accepted(_) => t.accepted > 0 && t.wire == 0
          case Transient => true
          case AuthRefused => t.wire > 0
          case Refused => t.wire > 0)
    case Record(w) => w in x.workers && x.workers[w].Answered? && x.workers[w].id in x.orders
    case Crash(w) => w in x.workers && x.workers[w].id in x.orders
    case Adopt(id, _) => id in x.orders && x.orders[id].row.idem == Unknown && x.orders[id].accepted > 0
    case Expire(id) => id in x.orders && x.orders[id].row.idem == Unknown
    case Poll(id, _, asked) =>
      id in x.orders && x.orders[id].row.brokerId != "" && (asked || Pollable(x.orders[id].row))
    case Sweep(id, _) => id in x.orders
  }

  // The order an action is about.
  function Concerned(x: World, a: Action): (id: OrderId)
    requires Enabled(x, a)
    ensures id in x.orders
  {
    match a
    case HandOff(w) => x.workers[w].id
    case Reply(w, _) => x.workers[w].id
    case Record(w) => x.workers[w].id
    case Crash(w) => x.workers[w].id
    case _ => a.id
  }

  function Effect(x: World, a: Action): Tracked
    requires Enabled(x, a)
  {
    var t := x.orders[Concerned(x, a)];
    match a
    case Edit(_, writes) => t.(row := EditRow(t.row, writes))
    case Claim(_, _) => t.(row := t.row.(idem := SubmitPending))
    case HandOff(_) => t.(wire := t.wire + 1, handoffs := t.handoffs + 1)
    case VenueAccepts(_) => t.(wire := t.wire - 1, accepted := t.accepted + 1)
    case WireLoses(_) => t.(wire := t.wire - 1)
    case Reply(_, answer) => if answer == AuthRefused || answer == Refused then t.(wire := t.wire - 1) else t
    case Record(w) => t.(row := RecordAnswer(t.row, x.workers[w].answer))
    case Crash(_) => t
    case Adopt(_, s) => t.(row := Acknowledge(t.row, s))
    case Expire(_) => t.(row := t.row.(status := Rejected))
    case Poll(_, s, _) => t.(row := PollRow(t.row, s))
    case Sweep(_, rows) => t.(row := SweepRows(t.row, rows))
  }

  function NextWorkers(x: World, a: Action): map<nat, Worker>
    requires Enabled(x, a)
  {
    match a
    case Claim(w, id) => x.workers[w := Claimed(id)]
    case HandOff(w) => x.workers[w := Sent(x.workers[w].id)]
    case Reply(w, answer) => x.workers[w := Answered(x.workers[w].id, answer)]
    case Record(w) => x.workers - {w}
    case Crash(w) => x.workers - {w}
    case _ => x.workers
  }

  // A disabled action, such as the claim that loses the race, changes nothing.
  function Step(x: World, a: Action): World {
    if Enabled(x, a) then World(x.orders[Concerned(x, a) := Effect(x, a)], NextWorkers(x, a)) else x
  }

  function Run(x: World, actions: seq<Action>): World {
    if actions == [] then x else Step(Run(x, actions[..|actions| - 1]), actions[|actions| - 1])
  }

  // Fresh rows, nobody submitting yet.
  ghost predicate Init(x: World) {
    && x.workers == map[]
    && forall id :: id in x.orders ==>
         var t := x.orders[id];
         t.row.idem == Unsubmitted && t.row.brokerId == "" && t.accepted == 0 && t.wire == 0 && t.handoffs == 0
         && Shaped(t.row)
  }

  // --- at most once --------------------------------------------------------------------------

  ghost predicate RowOk(t: Tracked) {
    && t.accepted + t.wire <= 1
    && (t.row.idem == Unsubmitted ==> t.accepted == 0 && t.wire == 0)
    && (t.row.idem == Acknowledged ==> t.accepted == 1)
    && (t.row.brokerId != "" ==> t.row.idem == Acknowledged)
  }

  ghost predicate WorkerOk(t: Tracked, w: Worker) {
    && t.row.idem == SubmitPending
    && (w.Claimed? ==> t.accepted == 0 && t.wire == 0)
    && (w.Answered? && w.answer.Accepted? ==> t.accepted == 1 && t.wire == 0)
    && (w.Answered? && (w.answer.AuthRefused? || w.answer.Refused?) ==> t.accepted == 0 && t.wire == 0)
  }

  // At most one worker is inside a submit of any order, and the row says so.
  ghost predicate Inv(x: World) {
    && (forall id :: id in x.orders ==> RowOk(x.orders[id]))
    && (forall w :: w in x.workers ==> x.workers[w].id in x.orders && WorkerOk(x.orders[x.workers[w].id], x.workers[w]))
    && (forall v, w :: v in x.workers && w in x.workers && v != w ==> x.workers[v].id != x.workers[w].id)
  }

  lemma EffectOk(x: World, a: Action)
    requires Inv(x) && Enabled(x, a)
    ensures RowOk(Effect(x, a))
  {
    hide RecordAnswer, Acknowledge, PollRow, SweepRows, EditRow, Pollable;
    var t := x.orders[Concerned(x, a)];
    assert RowOk(t);
    match a {
      case HandOff(w) => assert WorkerOk(t, x.workers[w]);
      case Reply(w, _) => assert WorkerOk(t, x.workers[w]);
      case Record(w) => RecordedOk(t, x.workers[w]);
      case Adopt(_, s) => AcknowledgedOk(t, s);
      case _ =>
    }
  }

  lemma RecordedOk(t: Tracked, w: Worker)
    requires RowOk(t) && WorkerOk(t, w) && w.Answered?
    ensures RowOk(t.(row := RecordAnswer(t.row, w.answer)))
  {
    hide MapStatus, Backfill;
  }

  lemma AcknowledgedOk(t: Tracked, s: Snapshot)
    requires RowOk(t) && t.accepted > 0
    ensures RowOk(t.(row := Acknowledge(t.row, s)))
  {
    hide MapStatus, Backfill;
  }

  // The worker an action belongs to is where its row says.
  lemma ActorOk(x: World, a: Action, w: nat)
    requires Inv(x) && Enabled(x, a) && (a.Claim? || a.HandOff? || a.Reply?) && a.w == w
    ensures NextWorkers(x, a)[w].id == Concerned(x, a) && WorkerOk(Effect(x, a), NextWorkers(x, a)[w])
  {
    hide Pollable;
    assert RowOk(x.orders[Concerned(x, a)]);
    if !a.Claim? {
      assert WorkerOk(x.orders[x.workers[w].id], x.workers[w]);
    }
  }

  // Any other worker on the same order sees nothing that matters to it.
  lemma BystanderOk(x: World, a: Action, v: nat)
    requires Inv(x) && Enabled(x, a) && v in NextWorkers(x, a)
    requires !((a.Claim? || a.HandOff? || a.Reply?) && a.w == v)
    ensures v in x.workers && NextWorkers(x, a)[v] == x.workers[v]
    ensures x.workers[v].id == Concerned(x, a) ==> WorkerOk(Effect(x, a), x.workers[v])
  {
    hide RecordAnswer, Acknowledge, PollRow, SweepRows, EditRow, Pollable;
    assert v in x.workers;
    assert WorkerOk(x.orders[x.workers[v].id], x.workers[v]);
    if a.HandOff? || a.Reply? || a.Record? || a.Crash? {
      assert v != a.w;
      assert x.workers[v].id != x.workers[a.w].id;
    }
  }

  lemma StepKeepsWorkers(x: World, a: Action, w: nat)
    requires Inv(x) && w in Step(x, a).workers
    ensures var y := Step(x, a); y.workers[w].id in y.orders && WorkerOk(y.orders[y.workers[w].id], y.workers[w])
  {
    hide Enabled, Effect, NextWorkers, Concerned, WorkerOk, RowOk;
    if Enabled(x, a) {
      if (a.Claim? || a.HandOff? || a.Reply?) && a.w == w {
        ActorOk(x, a, w);
      } else {
        BystanderOk(x, a, w);
      }
    }
  }

  lemma StepKeepsWorkersApart(x: World, a: Action, v: nat, w: nat)
    requires Inv(x) && v in Step(x, a).workers && w in Step(x, a).workers && v != w
    ensures Step(x, a).workers[v].id != Step(x, a).workers[w].id
  {
    hide Effect, RowOk, WorkerOk, Pollable;
    if a.Claim? {
      forall u | u in x.workers
        ensures x.orders[x.workers[u].id].row.idem == SubmitPending
      {
        Pending(x, u);
      }
    }
  }

  lemma Pending(x: World, u: nat)
    requires Inv(x) && u in x.workers
    ensures x.workers[u].id in x.orders && x.orders[x.workers[u].id].row.idem == SubmitPending
  {
    assert WorkerOk(x.orders[x.workers[u].id], x.workers[u]);
  }

  lemma StepKeepsInv(x: World, a: Action)
    requires Inv(x)
    ensures Inv(Step(x, a))
  {
    hide Enabled, Effect, NextWorkers, Concerned, RowOk, WorkerOk;
    var y := Step(x, a);
    if Enabled(x, a) {
      EffectOk(x, a);
    }
    forall w | w in y.workers
      ensures y.workers[w].id in y.orders && WorkerOk(y.orders[y.workers[w].id], y.workers[w])
    {
      StepKeepsWorkers(x, a, w);
    }
    forall v, w | v in y.workers && w in y.workers && v != w
      ensures y.workers[v].id != y.workers[w].id
    {
      StepKeepsWorkersApart(x, a, v, w);
    }
  }

  lemma {:induction false} RunKeepsInv(x: World, actions: seq<Action>)
    requires Inv(x)
    ensures Inv(Run(x, actions))
  {
    hide Inv, Step;
    if actions != [] {
      RunKeepsInv(x, actions[..|actions| - 1]);
      StepKeepsInv(Run(x, actions[..|actions| - 1]), actions[|actions| - 1]);
    }
  }

  // In every run, whatever the interleaving, the venue takes each client order id at most once.
  lemma AtMostOnceAccepted(x: World, actions: seq<Action>, id: OrderId)
    requires Init(x) && id in Run(x, actions).orders
    ensures Run(x, actions).orders[id].accepted <= 1
    ensures Run(x, actions).orders[id].row.idem == Acknowledged ==> Run(x, actions).orders[id].accepted == 1
  {
    RunKeepsInv(x, actions);
  }

  // An unknown or adopted order is never handed to the broker again, whatever its displayed status, and the
  // only way out of unknown is adoption.
  ghost predicate Resolved(before: Tracked, after: Tracked) {
    && after.handoffs == before.handoffs
    && (after.row.idem == before.row.idem || after.row.idem == Acknowledged)
  }

  lemma StepNeverResubmits(x: World, a: Action, id: OrderId)
    requires Inv(x) && id in x.orders
    requires x.orders[id].row.idem == Unknown || x.orders[id].row.idem == Acknowledged
    ensures id in Step(x, a).orders && Resolved(x.orders[id], Step(x, a).orders[id])
    ensures Step(x, a).orders[id].row.idem == Acknowledged && x.orders[id].row.idem == Unknown ==>
              a.Adopt? && x.orders[id].accepted == 1
  {
    hide Effect, NextWorkers, Concerned, WorkerOk, RowOk, Enabled;
    if Enabled(x, a) && Concerned(x, a) == id {
      EffectResolves(x, a);
    }
  }

  lemma EffectResolves(x: World, a: Action)
    requires Inv(x) && Enabled(x, a)
    requires var idem := x.orders[Concerned(x, a)].row.idem; idem == Unknown || idem == Acknowledged
    ensures var t := x.orders[Concerned(x, a)];
            Resolved(t, Effect(x, a))
            && (Effect(x, a).row.idem == Acknowledged && t.row.idem == Unknown ==> a.Adopt? && t.accepted == 1)
  {
    hide RecordAnswer, Acknowledge, PollRow, SweepRows, EditRow, Pollable;
    var t := x.orders[Concerned(x, a)];
    assert RowOk(t);
    match a {
      case HandOff(w) => Pending(x, w);
      case Reply(w, _) => Pending(x, w);
      case Record(w) => Pending(x, w);
      case Adopt(_, s) => Acknowledges(t.row, s);
      case _ =>
    }
  }

  lemma Acknowledges(o: Order, s: Snapshot)
    ensures Acknowledge(o, s).idem == Acknowledged
  {}

  lemma {:induction false} UnknownIsNeverResubmitted(x: World, actions: seq<Action>, id: OrderId)
    requires Inv(x) && id in x.orders
    requires x.orders[id].row.idem == Unknown || x.orders[id].row.idem == Acknowledged
    ensures id in Run(x, actions).orders && Resolved(x.orders[id], Run(x, actions).orders[id])
  {
    hide Inv, Step;
    if actions != [] {
      var done := actions[..|actions| - 1];
      UnknownIsNeverResubmitted(x, done, id);
      RunKeepsInv(x, done);
      StepNeverResubmits(Run(x, done), actions[|actions| - 1], id);
    }
  }
}
