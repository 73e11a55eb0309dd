/**
 * The appointment table and the four actions on it. Times are seconds since an epoch; an appointment's id is
 * its position in the table. Each action is one atomic step.
 */
module Booking {
  import opened Options
  import opened Text
  import opened AuditChain

  const SLOT_SECONDS: int := 30 * 60

  datatype Kind = Tour | Inspection
  datatype Status = Requested | Confirmed | Declined | Cancelled | Completed
  datatype Lifecycle = Acquired | Listed | UnderOffer | Sold

  datatype Property = Property(id: int, state: Lifecycle, priced: bool, retired: bool)
  {
    /** The `browsable` scope. */
    predicate Browsable()
    {
      state.Listed? && priced && !retired
    }
  }

  /** `deal` is the offer an appointment belongs to; the request step leaves it empty. */
  datatype Appointment = Appointment(
    property: int, kind: Kind, status: Status, startsAt: int, endsAt: int, brokerEmail: Option<string>,
    requesterEmail: Option<string>, deal: Option<nat>)
  {
    predicate Active()
    {
      status.Requested? || status.Confirmed?
    }

    /** `overlaps?`: half-open intervals. */
    predicate Overlaps(otherStart: int, otherEnd: int)
    {
      startsAt < otherEnd && endsAt > otherStart
    }
  }

  /** `present?` */
  predicate Present(email: Option<string>)
  {
    email.Some? && !Blank(email.value)
  }

  /** An active appointment other than `excluding` on this property overlaps the interval. */
  predicate PropertyBusy(rows: seq<Appointment>, property: int, startsAt: int, endsAt: int, excluding: Option<nat>)
  {
    exists i :: 0 <= i < |rows| && rows[i].Active() && rows[i].property == property
                && excluding != Some(i) && rows[i].Overlaps(startsAt, endsAt)
  }

  predicate BrokerBusy(rows: seq<Appointment>, broker: Option<string>, startsAt: int, endsAt: int,
                       excluding: Option<nat>)
  {
    Present(broker) &&
    exists i :: 0 <= i < |rows| && rows[i].Active() && rows[i].brokerEmail == broker
                && excluding != Some(i) && rows[i].Overlaps(startsAt, endsAt)
  }

  /** `ShowingScheduler.slot_free?` */
  predicate SlotFree(rows: seq<Appointment>, property: int, startsAt: int, endsAt: int, broker: Option<string>,
                     excluding: Option<nat>)
  {
    startsAt < endsAt
    && !PropertyBusy(rows, property, startsAt, endsAt, excluding)
    && !BrokerBusy(rows, broker, startsAt, endsAt, excluding)
  }

  /** The create-time validations of the model: interval order and the double-booking backstop. */
  predicate ValidOnCreate(rows: seq<Appointment>, a: Appointment)
  {
    a.startsAt < a.endsAt
    && (a.Active() ==> !PropertyBusy(rows, a.property, a.startsAt, a.endsAt, None)
                       && !BrokerBusy(rows, a.brokerEmail, a.startsAt, a.endsAt, None))
  }

  datatype Action =
    | Request(property: Property, startsAt: Option<int>, kind: Kind, requester: Option<string>)
    | Confirm(id: nat, broker: string)
    | Decline(id: nat)
    | Complete(id: nat)

  datatype Reply = Done | NotFound | NoTime | Taken | Invalid | Conflict

  function NewAppointment(p: Property, startsAt: int, kind: Kind, requester: Option<string>): Appointment
  {
    Appointment(p.id, kind, Requested, startsAt, startsAt + SLOT_SECONDS, None, requester, None)
  }

  /** How each action is answered. */
  function Answer(rows: seq<Appointment>, a: Action): Reply
  {
    match a
    case Request(p, startsAt, kind, requester) =>
      if !p.Browsable() then NotFound
      else if startsAt.None? then NoTime
      else if !SlotFree(rows, p.id, startsAt.value, startsAt.value + SLOT_SECONDS, None, None) then Taken
      else if !ValidOnCreate(rows, NewAppointment(p, startsAt.value, kind, requester)) then Invalid
      else Done
    case Confirm(id, broker) =>
      if id >= |rows| then NotFound
      else if !SlotFree(rows, rows[id].property, rows[id].startsAt, rows[id].endsAt, Some(broker), Some(id)) then
        Conflict
      else Done
    case Decline(id) => if id >= |rows| then NotFound else Done
    case Complete(id) => if id >= |rows| then NotFound else Done
  }

  /** The table after an action. */
  function Step(rows: seq<Appointment>, a: Action): seq<Appointment>
  {
    if Answer(rows, a) != Done then rows
    else match a
      case Request(p, startsAt, kind, requester) => rows + [NewAppointment(p, startsAt.value, kind, requester)]
      case Confirm(id, broker) => rows[id := rows[id].(status := Confirmed, brokerEmail := Some(broker))]
      case Decline(id) => rows[id := rows[id].(status := Declined)]
      case Complete(id) => rows[id := rows[id].(status := Completed)]
  }

  function TrailEntry(kind: string, decision: string, id: nat): Entry
  {
    Entry(kind, Some("Appointment"), Some(Decimal(id)), None, None, Some(decision), None)
  }

  /** The audit entries an action writes. The detail sentence is not modelled. */
  function Trail(rows: seq<Appointment>, a: Action): seq<Entry>
  {
    match Answer(rows, a)
    case Done => (
      match a
      case Request(_, _, _, _) => [TrailEntry("showing_requested", "queued", |rows|)]
      case Confirm(id, _) => [TrailEntry("showing_confirmed", "confirmed", id)]
      case Decline(id) => [TrailEntry("showing_declined", "declined", id)]
      case Complete(id) => [TrailEntry("showing_completed", "completed", id)])
    case Conflict => if a.Confirm? then [TrailEntry("showing_conflict", "blocked", a.id)] else []
    case _ => []
  }

  class Desk {
    var rows: seq<Appointment>
    const audit: AuditLog

    constructor (audit: AuditLog)
      ensures rows == [] && this.audit == audit
    {
      rows := [];
      this.audit := audit;
    }

    /** `AuditEvent.record_rail_trip` */
    method Note(kind: string, decision: string, id: nat)
      requires !Blank(kind)
      modifies audit
      ensures audit.rows == AppendAll(audit.hash, old(audit.rows), [TrailEntry(kind, decision, id)])
    {
      hide Blank;
      hide Decimal;
      hide Chained;
      var e := TrailEntry(kind, decision, id);
      var ok := audit.Append(e);
      assert [e][1..] == [];
    }

    /** `Buyer::ShowingsController#create` */
    method RequestShowing(p: Property, startsAt: Option<int>, kind: Kind, requester: Option<string>)
      returns (reply: Reply)
      modifies this, audit
      ensures var a := Action.Request(p, startsAt, kind, requester);
              reply == Answer(old(rows), a) && rows == Step(old(rows), a)
              && audit.rows == AppendAll(audit.hash, old(audit.rows), Trail(old(rows), a))
    {
      hide Blank;
      hide SlotFree;
      hide TrailEntry;
      hide AppendAll;
      hide ValidOnCreate;
      hide NewAppointment;
      AppendNothing(audit.hash, audit.rows);
      if !p.Browsable() {
        return NotFound;
      }
      if startsAt.None? {
        return NoTime;
      }
      if !SlotFree(rows, p.id, startsAt.value, startsAt.value + SLOT_SECONDS, None, None) {
        return Taken;
      }
      var appointment := NewAppointment(p, startsAt.value, kind, requester);
      if !ValidOnCreate(rows, appointment) {
        return Invalid;
      }
      KindsArePresent();
      Note("showing_requested", "queued", |rows|);
      rows := rows + [appointment];
      return Done;
    }

    /** `Broker::AppointmentsController#confirm` */
    method ConfirmShowing(id: nat, broker: string) returns (reply: Reply)
      modifies this, audit
      ensures var a := Action.Confirm(id, broker);
              reply == Answer(old(rows), a) && rows == Step(old(rows), a)
              && audit.rows == AppendAll(audit.hash, old(audit.rows), Trail(old(rows), a))
    {
      hide Blank;
      hide SlotFree;
      hide TrailEntry;
      hide AppendAll;
      AppendNothing(audit.hash, audit.rows);
      if id >= |rows| {
        return NotFound;
      }
      KindsArePresent();
      var appt := rows[id];
      if !SlotFree(rows, appt.property, appt.startsAt, appt.endsAt, Some(broker), Some(id)) {
        Note("showing_conflict", "blocked", id);
        return Conflict;
      }
      Note("showing_confirmed", "confirmed", id);
      rows := rows[id := appt.(status := Confirmed, brokerEmail := Some(broker))];
      return Done;
    }

    /** `Broker::AppointmentsController#decline` */
    method DeclineShowing(id: nat) returns (reply: Reply)
      modifies this, audit
      ensures var a := Action.Decline(id);
              reply == Answer(old(rows), a) && rows == Step(old(rows), a)
              && audit.rows == AppendAll(audit.hash, old(audit.rows), Trail(old(rows), a))
    {
      hide Blank;
      hide SlotFree;
      hide TrailEntry;
      hide AppendAll;
      AppendNothing(audit.hash, audit.rows);
      if id >= |rows| {
        return NotFound;
      }
      KindsArePresent();
      Note("showing_declined", "declined", id);
      rows := rows[id := rows[id].(status := Declined)];
      return Done;
    }

    /** `Broker::AppointmentsController#complete` */
    method CompleteShowing(id: nat) returns (reply: Reply)
      modifies this, audit
      ensures var a := Action.Complete(id);
              reply == Answer(old(rows), a) && rows == Step(old(rows), a)
              && audit.rows == AppendAll(audit.hash, old(audit.rows), Trail(old(rows), a))
    {
      hide Blank;
      hide SlotFree;
      hide TrailEntry;
      hide AppendAll;
      AppendNothing(audit.hash, audit.rows);
      if id >= |rows| {
        return NotFound;
      }
      KindsArePresent();
      Note("showing_completed", "completed", id);
      rows := rows[id := rows[id].(status := Completed)];
      return Done;
    }
  }

  lemma AppendNothing(hash: string -> string, log: seq<Row>)
    ensures AppendAll(hash, log, []) == log
  {
  }

  lemma KindsArePresent()
    ensures !Blank("showing_requested") && !Blank("showing_conflict") && !Blank("showing_confirmed")
    ensures !Blank("showing_declined") && !Blank("showing_completed")
  {
    hide Strip;
    StripIdentity("showing_requested", WHITESPACE);
    StripIdentity("showing_conflict", WHITESPACE);
    StripIdentity("showing_confirmed", WHITESPACE);
    StripIdentity("showing_declined", WHITESPACE);
    StripIdentity("showing_completed", WHITESPACE);
  }

  // ---- Safety over every run ----

  /** Two active appointments share a property, or an assigned broker. */
  predicate Rivals(a: Appointment, b: Appointment)
  {
    a.Active() && b.Active()
    && (a.property == b.property || (Present(a.brokerEmail) && a.brokerEmail == b.brokerEmail))
  }

  /** No property and no broker is double-booked. */
  ghost predicate NoDoubleBooking(rows: seq<Appointment>)
  {
    && (forall i :: 0 <= i < |rows| && rows[i].Active() ==> rows[i].startsAt < rows[i].endsAt)
    && forall i, j :: 0 <= i < j < |rows| && Rivals(rows[i], rows[j]) ==>
         !rows[i].Overlaps(rows[j].startsAt, rows[j].endsAt)
  }

  function RunAll(rows: seq<Appointment>, actions: seq<Action>): seq<Appointment>
    decreases |actions|
  {
    if actions == [] then rows else RunAll(Step(rows, actions[0]), actions[1..])
  }

  function TrailAll(rows: seq<Appointment>, actions: seq<Action>): seq<Entry>
    decreases |actions|
  {
    if actions == [] then [] else Trail(rows, actions[0]) + TrailAll(Step(rows, actions[0]), actions[1..])
  }

  lemma StepKeepsSafe(rows: seq<Appointment>, a: Action)
    requires NoDoubleBooking(rows)
    ensures NoDoubleBooking(Step(rows, a))
  {
    hide Blank;
    var now := Step(rows, a);
    if Answer(rows, a) == Done {
      if a.Request? {
        RequestKeepsSafe(rows, NewAppointment(a.property, a.startsAt.value, a.kind, a.requester));
      } else if a.Confirm? {
        ConfirmKeepsSafe(rows, a.id, a.broker);
      } else {
        ReleaseKeepsSafe(rows, a.id, now[a.id]);
      }
    }
  }

  lemma RequestKeepsSafe(rows: seq<Appointment>, x: Appointment)
    requires NoDoubleBooking(rows) && ValidOnCreate(rows, x)
    ensures NoDoubleBooking(rows + [x])
  {
    hide Blank;
    var now := rows + [x];
    forall i, j | 0 <= i < j < |now| && Rivals(now[i], now[j])
      ensures !now[i].Overlaps(now[j].startsAt, now[j].endsAt)
    {
      if j == |rows| {
        assert rows[i].Active();
      }
    }
  }

  lemma ConfirmKeepsSafe(rows: seq<Appointment>, id: nat, broker: string)
    requires NoDoubleBooking(rows) && id < |rows|
    requires SlotFree(rows, rows[id].property, rows[id].startsAt, rows[id].endsAt, Some(broker), Some(id))
    ensures NoDoubleBooking(rows[id := rows[id].(status := Confirmed, brokerEmail := Some(broker))])
  {
    hide Blank;
    var now := rows[id := rows[id].(status := Confirmed, brokerEmail := Some(broker))];
    forall i, j | 0 <= i < j < |now| && Rivals(now[i], now[j])
      ensures !now[i].Overlaps(now[j].startsAt, now[j].endsAt)
    {
      if i == id {
        assert rows[j].Active() && Some(id) != Some(j);
      } else if j == id {
        assert rows[i].Active() && Some(id) != Some(i);
      }
    }
  }

  lemma ReleaseKeepsSafe(rows: seq<Appointment>, id: nat, x: Appointment)
    requires NoDoubleBooking(rows) && id < |rows| && !x.Active()
    ensures NoDoubleBooking(rows[id := x])
  {
    hide Blank;
  }

  /**
   * Booking safety over every run: from an empty table, whatever sequence of request, confirm, decline and
   * complete actions is taken, in any order and on any ids, active appointments never overlap on a property
   * and never overlap for the same assigned broker.
   */
  lemma {:induction false} EveryRunIsSafe(rows: seq<Appointment>, actions: seq<Action>)
    requires NoDoubleBooking(rows)
    ensures NoDoubleBooking(RunAll(rows, actions))
    decreases |actions|
  {
    hide Step;
    hide NoDoubleBooking;
    if actions == [] {
    } else {
      StepKeepsSafe(rows, actions[0]);
      EveryRunIsSafe(Step(rows, actions[0]), actions[1..]);
    }
  }

  lemma EmptyTableIsSafe(actions: seq<Action>)
    ensures NoDoubleBooking(RunAll([], actions))
  {
    EveryRunIsSafe([], actions);
  }

  // ---- What the audit trail tells ----

  /** An action that writes an audit row: one that is carried out, or a confirm that is refused. */
  predicate IsAudited(rows: seq<Appointment>, a: Action)
  {
    Answer(rows, a) == Done || (a.Confirm? && Answer(rows, a) == Conflict)
  }

  function CountAudited(rows: seq<Appointment>, actions: seq<Action>): nat
    decreases |actions|
  {
    if actions == [] then 0
    else (if IsAudited(rows, actions[0]) then 1 else 0) + CountAudited(Step(rows, actions[0]), actions[1..])
  }

  /** The status an audit kind announces. */
  function StatusOfKind(kind: string): Option<Status>
  {
    if kind == "showing_requested" then Some(Requested)
    else if kind == "showing_confirmed" then Some(Confirmed)
    else if kind == "showing_declined" then Some(Declined)
    else if kind == "showing_completed" then Some(Completed)
    else None
  }

  function Retold(before: Option<Status>, e: Entry, id: nat): Option<Status>
  {
    if e.subjectType == Some("Appointment") && e.subjectId == Some(Decimal(id)) && StatusOfKind(e.kind).Some?
    then StatusOfKind(e.kind) else before
  }

  /** The status of appointment `id` as the trail tells it: the last one announced. */
  function ToldStatus(before: Option<Status>, entries: seq<Entry>, id: nat): Option<Status>
    decreases |entries|
  {
    if entries == [] then before else ToldStatus(Retold(before, entries[0], id), entries[1..], id)
  }

  function StatusAt(rows: seq<Appointment>, id: nat): Option<Status>
  {
    if id < |rows| then Some(rows[id].status) else None
  }

  lemma KindsAreDistinct()
    ensures StatusOfKind("showing_requested") == Some(Requested) && StatusOfKind("showing_confirmed") == Some(Confirmed)
    ensures StatusOfKind("showing_declined") == Some(Declined) && StatusOfKind("showing_completed") == Some(Completed)
    ensures StatusOfKind("showing_conflict") == None
  {
    assert |"showing_requested"| == 17 && |"showing_confirmed"| == 17 && |"showing_completed"| == 17;
    assert |"showing_declined"| == 16 && |"showing_conflict"| == 16;
    assert "showing_requested"[11] == 'u';
    assert "showing_confirmed"[11] == 'f' && "showing_completed"[11] == 'p';
    assert "showing_declined"[15] == 'd' && "showing_conflict"[15] == 't';
  }

  lemma OtherIdUntold(before: Option<Status>, kind: string, decision: string, at: nat, id: nat)
    ensures Retold(before, TrailEntry(kind, decision, at), id) ==
            if at == id && StatusOfKind(kind).Some? then StatusOfKind(kind) else before
  {
    hide StatusOfKind;
    DecimalInjective(at, id);
  }

  lemma StepTold(rows: seq<Appointment>, a: Action, id: nat)
    ensures |Trail(rows, a)| == if IsAudited(rows, a) then 1 else 0
    ensures IsAudited(rows, a) ==> Retold(StatusAt(rows, id), Trail(rows, a)[0], id) == StatusAt(Step(rows, a), id)
    ensures !IsAudited(rows, a) ==> Step(rows, a) == rows
  {
    hide Blank;
    hide SlotFree;
    hide ValidOnCreate;
    hide StatusOfKind;
    hide TrailEntry;
    hide Retold;
    KindsAreDistinct();
    if IsAudited(rows, a) {
      var before := StatusAt(rows, id);
      match a
      case Request(p, startsAt, kind, requester) =>
        OtherIdUntold(before, "showing_requested", "queued", |rows|, id);
      case Confirm(at, broker) =>
        OtherIdUntold(before, "showing_confirmed", "confirmed", at, id);
        OtherIdUntold(before, "showing_conflict", "blocked", at, id);
      case Decline(at) =>
        OtherIdUntold(before, "showing_declined", "declined", at, id);
      case Complete(at) =>
        OtherIdUntold(before, "showing_completed", "completed", at, id);
    }
  }

  lemma {:induction false} RunTold(rows: seq<Appointment>, actions: seq<Action>, id: nat)
    ensures |TrailAll(rows, actions)| == CountAudited(rows, actions)
    ensures ToldStatus(StatusAt(rows, id), TrailAll(rows, actions), id) == StatusAt(RunAll(rows, actions), id)
    decreases |actions|
  {
    hide Trail;
    hide Step;
    hide IsAudited;
    hide Retold;
    hide StatusAt;
    if actions == [] {
    } else {
      var a := actions[0];
      StepTold(rows, a, id);
      RunTold(Step(rows, a), actions[1..], id);
      var entries, rest := Trail(rows, a), TrailAll(Step(rows, a), actions[1..]);
      if IsAudited(rows, a) {
        assert entries == [entries[0]] && (entries + rest)[1..] == rest;
      } else {
        assert entries + rest == rest;
      }
    }
  }

  lemma {:induction false} AppendAllLength(hash: string -> string, log: seq<Row>, entries: seq<Entry>)
    ensures |AppendAll(hash, log, entries)| == |log| + |entries|
    decreases |entries|
  {
    if entries == [] {
    } else {
      AppendAllLength(hash, log + [Chained(hash, log, entries[0])], entries[1..]);
    }
  }

  /**
   * Whatever the run: the log gains one row for each action carried out and one for each refused confirm, and
   * no other; the chain stays intact; and the rows tell the status of every appointment in the table.
   */
  lemma RunKeepsChain(hash: string -> string, log: seq<Row>, actions: seq<Action>, id: nat)
    requires Intact(hash, log)
    ensures var now := AppendAll(hash, log, TrailAll([], actions));
            Intact(hash, now) && |now| == |log| + CountAudited([], actions)
    ensures ToldStatus(None, TrailAll([], actions), id) == StatusAt(RunAll([], actions), id)
  {
    hide Intact;
    hide AppendAll;
    hide ToldStatus;
    AppendedIsIntact(hash, log, TrailAll([], actions));
    AppendAllLength(hash, log, TrailAll([], actions));
    RunTold([], actions, id);
  }

  /** The model's backstop never rejects what the commit-time check let through. */
  lemma BackstopNeverFires(rows: seq<Appointment>, p: Property, startsAt: Option<int>, kind: Kind,
                           requester: Option<string>)
    ensures Answer(rows, Action.Request(p, startsAt, kind, requester)) != Invalid
  {
    hide Blank;
  }

  /** A request succeeds exactly on a browsable property at a time when its half hour is free there. */
  lemma RequestSucceedsIff(rows: seq<Appointment>, p: Property, startsAt: Option<int>, kind: Kind,
                           requester: Option<string>)
    ensures Answer(rows, Action.Request(p, startsAt, kind, requester)) == Done <==>
            p.Browsable() && startsAt.Some?
            && forall i :: 0 <= i < |rows| && rows[i].Active() && rows[i].property == p.id ==>
                 !rows[i].Overlaps(startsAt.value, startsAt.value + SLOT_SECONDS)
  {
    hide Blank;
  }

  // ---- Safety, instant by instant ----

  /** The appointment is requested or confirmed, and holds the instant `t`. */
  predicate Holds(a: Appointment, t: int)
  {
    (a.status == Requested || a.status == Confirmed) && a.startsAt <= t < a.endsAt
  }

  /** A requested or confirmed appointment overlaps an interval exactly when it holds one of its instants. */
  lemma HeldIff(a: Appointment, startsAt: int, endsAt: int)
    requires a.startsAt < a.endsAt && startsAt < endsAt
    ensures a.Active() && a.Overlaps(startsAt, endsAt) <==> exists t :: Holds(a, t) && startsAt <= t < endsAt
  {
    if a.Active() && a.Overlaps(startsAt, endsAt) {
      var t := if a.startsAt < startsAt then startsAt else a.startsAt;
      assert Holds(a, t);
    }
  }

  /** The same property, or the same named broker. */
  predicate Shares(a: Appointment, b: Appointment)
  {
    || a.property == b.property
    || (a.brokerEmail.Some? && !Blank(a.brokerEmail.value) && a.brokerEmail == b.brokerEmail)
  }

  lemma HoldersAreRivals(a: Appointment, b: Appointment, t: int)
    requires Shares(a, b)
    ensures Holds(a, t) && Holds(b, t) ==> Rivals(a, b) && a.Overlaps(b.startsAt, b.endsAt)
  {
    hide Blank;
  }

  /**
   * Whatever was asked, confirmed, declined and completed since the table was empty, at no instant do two requested
   * or confirmed appointments hold the same property, or the same assigned broker.
   */
  lemma NeverTwiceAtOnce(actions: seq<Action>, i: nat, j: nat, t: int)
    requires i < j < |RunAll([], actions)| && Shares(RunAll([], actions)[i], RunAll([], actions)[j])
    ensures var rows := RunAll([], actions); !Holds(rows[i], t) || !Holds(rows[j], t)
  {
    EmptyTableIsSafe(actions);
    hide RunAll;
    var rows := RunAll([], actions);
    HoldersAreRivals(rows[i], rows[j], t);
    hide Rivals;
    hide Holds;
    hide Shares;
  }

  /**
   * In a table reached from the empty one, a request succeeds exactly when the listing is listed, priced and not
   * retired, a time is given, and no requested or confirmed appointment of the property holds an instant of the half
   * hour; a slot that begins when another ends is accepted.
   */
  lemma RequestByInstants(actions: seq<Action>, p: Property, startsAt: Option<int>, kind: Kind,
                          requester: Option<string>)
    ensures var rows := RunAll([], actions);
            Answer(rows, Action.Request(p, startsAt, kind, requester)) == Done <==>
            && p.state == Listed && p.priced && !p.retired && startsAt.Some?
            && forall i, t :: 0 <= i < |rows| && rows[i].property == p.id && Holds(rows[i], t) ==>
                 !(startsAt.value <= t < startsAt.value + SLOT_SECONDS)
  {
    EmptyTableIsSafe(actions);
    hide RunAll;
    hide Blank;
    var rows := RunAll([], actions);
    RequestSucceedsIff(rows, p, startsAt, kind, requester);
    if startsAt.Some? {
      var s := startsAt.value;
      forall i | 0 <= i < |rows| && rows[i].Active()
        ensures rows[i].Overlaps(s, s + SLOT_SECONDS) <==> exists t :: Holds(rows[i], t) && s <= t < s + SLOT_SECONDS
      {
        HeldIff(rows[i], s, s + SLOT_SECONDS);
      }
    }
  }

  /** Every appointment is a half hour. */
  ghost predicate HalfHours(rows: seq<Appointment>)
  {
    forall i :: 0 <= i < |rows| ==> rows[i].endsAt == rows[i].startsAt + SLOT_SECONDS
  }

  lemma {:induction false} RunKeepsHalfHours(rows: seq<Appointment>, actions: seq<Action>)
    requires HalfHours(rows)
    ensures HalfHours(RunAll(rows, actions))
    decreases |actions|
  {
    hide SlotFree;
    hide ValidOnCreate;
    if actions == [] {
    } else {
      assert HalfHours(Step(rows, actions[0]));
      hide Step;
      RunKeepsHalfHours(Step(rows, actions[0]), actions[1..]);
    }
  }

  /**
   * A confirm of a listed appointment succeeds exactly when no other requested or confirmed appointment holds an
   * instant of it on its property, or for the confirming broker if one is named.
   */
  lemma ConfirmByInstants(actions: seq<Action>, id: nat, broker: string)
    requires id < |RunAll([], actions)|
    ensures var rows := RunAll([], actions);
            Answer(rows, Confirm(id, broker)) == Done <==>
            forall i, t :: 0 <= i < |rows| && i != id && Holds(rows[i], t)
                           && (rows[i].property == rows[id].property
                               || (!Blank(broker) && rows[i].brokerEmail == Some(broker)))
                           ==> !(rows[id].startsAt <= t < rows[id].endsAt)
  {
    RunKeepsHalfHours([], actions);
    EmptyTableIsSafe(actions);
    hide RunAll;
    hide Blank;
    var rows := RunAll([], actions);
    var s, e := rows[id].startsAt, rows[id].endsAt;
    forall i | 0 <= i < |rows| && i != id && rows[i].Active()
      ensures Some(id) != Some(i)
      ensures rows[i].Overlaps(s, e) <==> exists t :: Holds(rows[i], t) && s <= t < e
    {
      HeldIff(rows[i], s, e);
    }
  }
}
