/** A completed inspection clears the first closing milestone of the deal it belongs to. */
module Inspection {
  import opened Options
  import opened Text
  import opened AuditChain
  import Booking
  import Closing

  const CLEARED: string := "inspection_cleared"

  /** What resolving a deal reads of an offer: its property, whether it is signed, and its lead's contact. */
  datatype Deal = Deal(id: nat, property: int, signed: bool, contact: Option<string>)

  /** The signed deals on a property, in id order. */
  function SignedOn(deals: seq<Deal>, property: int): seq<Deal>
  {
    if deals == [] then []
    else (if deals[0].signed && deals[0].property == property then [deals[0]] else []) + SignedOn(deals[1..], property)
  }

  function WithContact(deals: seq<Deal>, contact: Option<string>): seq<Deal>
  {
    if deals == [] then []
    else (if deals[0].contact == contact then [deals[0]] else []) + WithContact(deals[1..], contact)
  }

  /** `resolve_offer` */
  function ResolveDeal(a: Booking.Appointment, deals: seq<Deal>): Option<nat>
  {
    if a.deal.Some? && (exists d :: d in deals && d.id == a.deal.value) then a.deal
    else
      var scope := SignedOn(deals, a.property);
      var byEmail := WithContact(scope, a.requesterEmail);
      if byEmail != [] then Some(byEmail[0].id)
      else if |scope| == 1 then Some(scope[0].id)
      else None
  }

  /** The deal whose first milestone completing appointment `id` clears, if there is one. */
  function ClearedDeal(rows: seq<Booking.Appointment>, id: nat, deals: seq<Deal>): (n: Option<nat>)
    ensures n.Some? ==> exists d :: d in deals && d.id == n.value
  {
    if id < |rows| && rows[id].kind.Inspection? then
      ResolvedIsListed(rows[id], deals);
      ResolveDeal(rows[id], deals)
    else None
  }

  /** Every deal has its closing gate, which writes to the desk's audit log. */
  ghost predicate Wired(desk: Booking.Desk, deals: seq<Deal>, gates: map<nat, Closing.ClosingGate>)
  {
    && (forall d :: d in deals ==> d.id in gates)
    && (forall n :: n in gates ==> gates[n].audit == desk.audit && gates[n].offerId == Decimal(n))
  }

  /** `complete`, the closing milestone included; `reachable` says whether the brain answers. */
  method CompleteAppointment(desk: Booking.Desk, id: nat, deals: seq<Deal>, gates: map<nat, Closing.ClosingGate>,
                             reachable: bool) returns (reply: Booking.Reply, closing: Option<Closing.Reply>)
    requires Wired(desk, deals, gates)
    modifies desk, desk.audit, set n | n in gates :: gates[n]
    ensures reply == Booking.Answer(old(desk.rows), Booking.Complete(id))
    ensures desk.rows == Booking.Step(old(desk.rows), Booking.Complete(id))
    ensures var n := ClearedDeal(old(desk.rows), id, deals);
            var trail := AppendAll(desk.audit.hash, old(desk.audit.rows),
                                   Booking.Trail(old(desk.rows), Booking.Complete(id)));
            if n.None? then
              closing == None && desk.audit.rows == trail && forall m :: m in gates ==> unchanged(gates[m])
            else
              var before := old(gates[n.value].rows);
              && closing == Some(Closing.Answer(Closing.DealId(Decimal(n.value)), before, CLEARED, reachable))
              && gates[n.value].rows == Closing.GateStep(Closing.DealId(Decimal(n.value)), before, CLEARED, reachable)
              && desk.audit.rows ==
                 (if closing.value.Accepted?
                  then trail + [Chained(desk.audit.hash, trail, Closing.AuditFor(Decimal(n.value), closing.value.row))]
                  else trail)
              && forall m :: m in gates && m != n.value ==> unchanged(gates[m])
  {
    hide Booking.Trail;
    hide Booking.Step;
    hide Closing.Answer;
    hide Closing.AuditFor;
    hide Closing.DealId;
    hide Chained;
    hide AppendAll;
    ghost var was := desk.rows;
    CompleteKeepsKind(desk.rows, id, deals);
    reply := desk.CompleteShowing(id);
    closing := None;
    if reply.Done? && desk.rows[id].kind.Inspection? {
      var n := ResolveDeal(desk.rows[id], deals);
      if n.Some? {
        ResolvedIsListed(desk.rows[id], deals);
        GatesApart(desk, deals, gates, n.value);
        var answer := gates[n.value].Record(CLEARED, reachable);
        closing := Some(answer);
      }
    }
  }

  /** Completing an appointment changes its status only, and succeeds exactly when it exists. */
  lemma CompleteKeepsKind(rows: seq<Booking.Appointment>, id: nat, deals: seq<Deal>)
    ensures var now := Booking.Step(rows, Booking.Complete(id));
            && |now| == |rows|
            && (Booking.Answer(rows, Booking.Complete(id)).Done? <==> id < |rows|)
            && (id < |rows| ==>
                  now[id].kind == rows[id].kind && ResolveDeal(now[id], deals) == ResolveDeal(rows[id], deals))
  {
  }

  lemma GatesApart(desk: Booking.Desk, deals: seq<Deal>, gates: map<nat, Closing.ClosingGate>, n: nat)
    requires Wired(desk, deals, gates) && n in gates
    ensures forall m :: m in gates && m != n ==> gates[m] != gates[n]
  {
    forall m | m in gates && m != n
      ensures gates[m] != gates[n]
    {
      DecimalInjective(m, n);
    }
  }

  lemma {:induction false} SignedOnExact(deals: seq<Deal>, property: int, d: Deal)
    ensures d in SignedOn(deals, property) <==> d in deals && d.signed && d.property == property
  {
    if deals == [] {
    } else {
      SignedOnExact(deals[1..], property, d);
    }
  }

  lemma {:induction false} WithContactExact(deals: seq<Deal>, contact: Option<string>, d: Deal)
    ensures d in WithContact(deals, contact) <==> d in deals && d.contact == contact
  {
    if deals == [] {
    } else {
      WithContactExact(deals[1..], contact, d);
    }
  }

  lemma ResolvedIsListed(a: Booking.Appointment, deals: seq<Deal>)
    ensures ResolveDeal(a, deals).Some? ==> exists d :: d in deals && d.id == ResolveDeal(a, deals).value
  {
    ResolveIsExact(a, deals);
  }

  /** A signed deal on the appointment's property. */
  predicate Candidate(a: Booking.Appointment, deals: seq<Deal>, d: Deal)
  {
    d in deals && d.signed && d.property == a.property
  }

  /** A candidate with the requester's contact, or the only candidate. */
  ghost predicate Belongs(a: Booking.Appointment, deals: seq<Deal>, d: Deal)
  {
    && Candidate(a, deals, d)
    && (d.contact == a.requesterEmail
        || (|SignedOn(deals, a.property)| == 1 && forall x :: Candidate(a, deals, x) ==> x == d))
  }

  /**
   * Which deal an appointment belongs to: the one it names, if that exists; else a signed deal on its property
   * with the requester's contact; else the only signed deal on its property; else none. Nothing is resolved
   * exactly when no signed deal on the property has the contact and there is not exactly one.
   */
  lemma ResolveIsExact(a: Booking.Appointment, deals: seq<Deal>)
    ensures var r, named := ResolveDeal(a, deals), a.deal.Some? && exists d :: d in deals && d.id == a.deal.value;
            && (named ==> r == a.deal)
            && (!named && r.Some? ==> exists d: Deal :: d.id == r.value && Belongs(a, deals, d))
            && (!named ==>
                  (r.None? <==>
                     |SignedOn(deals, a.property)| != 1
                     && forall x :: Candidate(a, deals, x) ==> x.contact != a.requesterEmail))
  {
    var scope := SignedOn(deals, a.property);
    var byEmail := WithContact(scope, a.requesterEmail);
    forall d: Deal
      ensures d in scope <==> Candidate(a, deals, d)
      ensures d in byEmail <==> Candidate(a, deals, d) && d.contact == a.requesterEmail
    {
      SignedOnExact(deals, a.property, d);
      WithContactExact(scope, a.requesterEmail, d);
    }
    hide SignedOn;
    hide WithContact;
    if byEmail != [] {
      assert byEmail[0] in byEmail;
      assert ResolveDeal(a, deals) == a.deal || Belongs(a, deals, byEmail[0]);
    } else if |scope| == 1 {
      assert scope[0] in scope;
      assert forall x :: x in scope ==> x == scope[0];
      assert Belongs(a, deals, scope[0]);
    }
  }

  /**
   * Completing an inspection records the first milestone exactly when the deal has none yet, and keeps the
   * deal's milestones in order; completing another one later changes nothing.
   */
  lemma InspectionClearsOnce(deal: string, rows: seq<Closing.Recorded>, reachable: bool, again: bool)
    requires Closing.InOrder(deal, rows)
    ensures var now := Closing.GateStep(deal, rows, CLEARED, reachable);
            && (Closing.Answer(deal, rows, CLEARED, reachable).Accepted? <==> rows == [])
            && Closing.InOrder(deal, now) && |now| == (if rows == [] then 1 else |rows|)
            && Closing.GateStep(deal, now, CLEARED, again) == now
  {
    FirstName(rows);
    Closing.GateAcceptsIffNext(deal, rows, CLEARED, reachable);
    Closing.GateKeepsOrder(deal, rows, CLEARED, reachable);
    var now := Closing.GateStep(deal, rows, CLEARED, reachable);
    hide Closing.Answer;
    hide Closing.InOrder;
    FirstName(now);
    Closing.GateAcceptsIffNext(deal, now, CLEARED, again);
  }

  lemma FirstName(rows: seq<Closing.Recorded>)
    ensures |rows| < 4 ==> (CLEARED == Closing.MilestoneName(Closing.ORDER[|rows|]) <==> rows == [])
  {
    if |rows| < 4 {
      Closing.NamesAreDistinct(Closing.InspectionCleared, Closing.ORDER[|rows|]);
    }
  }
}
