/** The showing slots offered to a buyer, and their agreement with the commit-time check. */
module Slots {
  import opened Options
  import opened Text
  import opened Booking

  const HOUR: int := 3600
  const DAY: int := 24 * HOUR
  const HORIZON_DAYS: nat := 7
  const DAY_START_HOUR: int := 9
  const DAY_END_HOUR: int := 18
  const MAX_SLOTS: nat := 12
  const SLOTS_PER_DAY: nat := 18

  datatype Slot = Slot(startsAt: int, endsAt: int)

  datatype Blackout = RetiredListing | NotShowable(state: Lifecycle) | NoOpenings(days: nat)

  datatype Offer = Offer(slots: seq<Slot>, reason: Option<Blackout>)

  /** `blackout_reason` */
  function BlackoutReason(p: Property): Option<Blackout>
  {
    if p.retired then Some(RetiredListing)
    else if p.state.UnderOffer? || p.state.Sold? then Some(NotShowable(p.state))
    else None
  }

  /** Slot `k` of day `day` counted from the midnight that begins the current day. */
  function GridSlot(midnight: int, day: nat, k: nat): Slot
  {
    var start := midnight + day * DAY + DAY_START_HOUR * HOUR + k * SLOT_SECONDS;
    Slot(start, start + SLOT_SECONDS)
  }

  function Upcoming(now: int, s: Slot): seq<Slot>
  {
    if s.startsAt <= now then [] else [s]
  }

  /** The future slots among the first `k` of a day. */
  function DaySlots(midnight: int, now: int, day: nat, k: nat): seq<Slot>
  {
    if k == 0 then [] else DaySlots(midnight, now, day, k - 1) + Upcoming(now, GridSlot(midnight, day, k - 1))
  }

  /** The future slots of the first `days` days. */
  function CandidateSpec(midnight: int, now: int, days: nat): seq<Slot>
  {
    if days == 0 then [] else CandidateSpec(midnight, now, days - 1) + DaySlots(midnight, now, days - 1, SLOTS_PER_DAY)
  }

  /** The inner loop of `candidate_slots`. */
  method SlotsOfDay(midnight: int, now: int, day: nat) returns (slots: seq<Slot>)
    ensures slots == DaySlots(midnight, now, day, SLOTS_PER_DAY)
  {
    slots := [];
    var dayBase := midnight + day * DAY;
    var dayOpen := dayBase + DAY_START_HOUR * HOUR;
    var dayClose := dayBase + DAY_END_HOUR * HOUR;
    var cursor := dayOpen;
    ghost var k: nat := 0;
    while cursor + SLOT_SECONDS <= dayClose
      invariant k <= SLOTS_PER_DAY && cursor == dayOpen + k * SLOT_SECONDS
      invariant slots == DaySlots(midnight, now, day, k)
      decreases dayClose - cursor
    {
      var slotStart := cursor;
      cursor := cursor + SLOT_SECONDS;
      k := k + 1;
      if slotStart > now {
        slots := slots + [Slot(slotStart, slotStart + SLOT_SECONDS)];
      }
    }
  }

  /** `candidate_slots` */
  method CandidateSlots(midnight: int, now: int) returns (slots: seq<Slot>)
    ensures slots == CandidateSpec(midnight, now, HORIZON_DAYS)
  {
    slots := [];
    for day := 0 to HORIZON_DAYS
      invariant slots == CandidateSpec(midnight, now, day)
    {
      var more := SlotsOfDay(midnight, now, day);
      slots := slots + more;
    }
  }

  /** `collides?` over appointments already loaded. */
  predicate Collides(busy: seq<Appointment>, s: Slot)
  {
    exists i :: 0 <= i < |busy| && busy[i].Overlaps(s.startsAt, s.endsAt)
  }

  /** `Appointment.active.for_property(property)` */
  function ActiveFor(rows: seq<Appointment>, property: int): seq<Appointment>
  {
    if rows == [] then []
    else (if rows[0].Active() && rows[0].property == property then [rows[0]] else []) + ActiveFor(rows[1..], property)
  }

  /** `Appointment.active.for_broker(email)` */
  function ActiveForBroker(rows: seq<Appointment>, broker: Option<string>): seq<Appointment>
  {
    if rows == [] then []
    else
      (if rows[0].Active() && rows[0].brokerEmail == broker then [rows[0]] else [])
      + ActiveForBroker(rows[1..], broker)
  }

  function BrokerLoad(rows: seq<Appointment>, broker: Option<string>): seq<Appointment>
  {
    if Present(broker) then ActiveForBroker(rows, broker) else []
  }

  /** The candidates, in order, that collide with neither list, up to `limit` of them. */
  function FirstFree(propertyBusy: seq<Appointment>, brokerBusy: seq<Appointment>, candidates: seq<Slot>, limit: nat)
    : seq<Slot>
  {
    if candidates == [] || limit == 0 then []
    else if Collides(propertyBusy, candidates[0]) || Collides(brokerBusy, candidates[0]) then
      FirstFree(propertyBusy, brokerBusy, candidates[1..], limit)
    else [candidates[0]] + FirstFree(propertyBusy, brokerBusy, candidates[1..], limit - 1)
  }

  /** What `available_slots` returns. */
  function AvailableSpec(rows: seq<Appointment>, p: Property, midnight: int, now: int, broker: Option<string>): Offer
  {
    var blackout := BlackoutReason(p);
    if blackout.Some? then Offer([], blackout)
    else
      var slots := FirstFree(ActiveFor(rows, p.id), BrokerLoad(rows, broker),
                             CandidateSpec(midnight, now, HORIZON_DAYS), MAX_SLOTS);
      Offer(slots, if slots == [] then Some(NoOpenings(HORIZON_DAYS)) else None)
  }

  /** The loop of `available_slots`, which stops as soon as the cap is reached. */
  method CollectFree(propertyBusy: seq<Appointment>, brokerBusy: seq<Appointment>, candidates: seq<Slot>)
    returns (slots: seq<Slot>)
    ensures slots == FirstFree(propertyBusy, brokerBusy, candidates, MAX_SLOTS)
  {
    hide Collides;
    hide FirstFree;
    slots := [];
    var i := 0;
    while i < |candidates|
      invariant 0 <= i <= |candidates| && |slots| < MAX_SLOTS
      invariant slots + FirstFree(propertyBusy, brokerBusy, candidates[i..], MAX_SLOTS - |slots|)
                == FirstFree(propertyBusy, brokerBusy, candidates, MAX_SLOTS)
    {
      var slot := candidates[i];
      assert candidates[i..][1..] == candidates[i + 1..];
      FirstFreeHead(propertyBusy, brokerBusy, candidates[i..], MAX_SLOTS - |slots|);
      i := i + 1;
      if !(Collides(propertyBusy, slot) || Collides(brokerBusy, slot)) {
        slots := slots + [slot];
        if |slots| >= MAX_SLOTS {
          FirstFreeEnds(propertyBusy, brokerBusy, candidates[i..], 0);
          return;
        }
      }
    }
    FirstFreeEnds(propertyBusy, brokerBusy, candidates[i..], MAX_SLOTS - |slots|);
  }

  lemma FirstFreeHead(propertyBusy: seq<Appointment>, brokerBusy: seq<Appointment>, candidates: seq<Slot>, limit: nat)
    requires candidates != [] && limit > 0
    ensures FirstFree(propertyBusy, brokerBusy, candidates, limit) ==
            if Collides(propertyBusy, candidates[0]) || Collides(brokerBusy, candidates[0])
            then FirstFree(propertyBusy, brokerBusy, candidates[1..], limit)
            else [candidates[0]] + FirstFree(propertyBusy, brokerBusy, candidates[1..], limit - 1)
  {
  }

  lemma FirstFreeEnds(propertyBusy: seq<Appointment>, brokerBusy: seq<Appointment>, candidates: seq<Slot>, limit: nat)
    requires candidates == [] || limit == 0
    ensures FirstFree(propertyBusy, brokerBusy, candidates, limit) == []
  {
  }

  /** `available_slots` */
  method AvailableSlots(rows: seq<Appointment>, p: Property, midnight: int, now: int, broker: Option<string>)
    returns (offer: Offer)
    ensures offer == AvailableSpec(rows, p, midnight, now, broker)
  {
    var blackout := BlackoutReason(p);
    if blackout.Some? {
      return Offer([], blackout);
    }
    var candidates := CandidateSlots(midnight, now);
    var slots := CollectFree(ActiveFor(rows, p.id), BrokerLoad(rows, broker), candidates);
    offer := Offer(slots, if slots == [] then Some(NoOpenings(HORIZON_DAYS)) else None);
  }

  // ---- The candidates are exactly the future business-hours grid ----

  /** A future 30-minute business-hours slot in the horizon. */
  ghost predicate OnGrid(midnight: int, now: int, s: Slot)
  {
    s.startsAt > now
    && exists day: nat, k: nat :: day < HORIZON_DAYS && k < SLOTS_PER_DAY && s == GridSlot(midnight, day, k)
  }

  /** In time order, and each slot ends before the next begins. */
  ghost predicate Ordered(slots: seq<Slot>)
  {
    forall i, j :: 0 <= i < j < |slots| ==> slots[i].endsAt <= slots[j].startsAt
  }

  ghost predicate Within(slots: seq<Slot>, from: int, to: int)
  {
    forall i :: 0 <= i < |slots| ==>
      from <= slots[i].startsAt && slots[i].endsAt == slots[i].startsAt + SLOT_SECONDS <= to
  }

  lemma ConcatInOrder(a: seq<Slot>, b: seq<Slot>, from: int, mid: int, to: int)
    requires Ordered(a) && Within(a, from, mid) && Ordered(b) && Within(b, mid, to)
    requires from <= mid <= to
    ensures Ordered(a + b) && Within(a + b, from, to)
  {
  }

  lemma UpcomingExact(now: int, g: Slot, s: Slot)
    requires g.endsAt == g.startsAt + SLOT_SECONDS
    ensures s in Upcoming(now, g) <==> s.startsAt > now && s == g
    ensures Ordered(Upcoming(now, g)) && Within(Upcoming(now, g), g.startsAt, g.endsAt)
  {
  }

  lemma {:induction false} DaySlotsExact(midnight: int, now: int, day: nat, k: nat, s: Slot)
    ensures s in DaySlots(midnight, now, day, k) <==>
            s.startsAt > now && exists n: nat :: n < k && s == GridSlot(midnight, day, n)
    ensures Ordered(DaySlots(midnight, now, day, k))
    ensures Within(DaySlots(midnight, now, day, k),
                   GridSlot(midnight, day, 0).startsAt, GridSlot(midnight, day, k).startsAt)
  {
    if k == 0 {
    } else {
      DaySlotsExact(midnight, now, day, k - 1, s);
      var g := GridSlot(midnight, day, k - 1);
      assert g.endsAt == GridSlot(midnight, day, k).startsAt == g.startsAt + SLOT_SECONDS;
      assert GridSlot(midnight, day, 0).startsAt <= g.startsAt;
      UpcomingExact(now, g, s);
      hide GridSlot;
      hide Upcoming;
      hide Ordered;
      hide Within;
      ConcatInOrder(DaySlots(midnight, now, day, k - 1), Upcoming(now, g),
                    GridSlot(midnight, day, 0).startsAt, g.startsAt, g.endsAt);
    }
  }

  lemma WidenWithin(slots: seq<Slot>, from: int, to: int, low: int, high: int)
    requires Within(slots, from, to) && low <= from && to <= high
    ensures Within(slots, low, high)
  {
  }

  lemma DayInOrder(midnight: int, now: int, day: nat)
    ensures Ordered(DaySlots(midnight, now, day, SLOTS_PER_DAY))
    ensures Within(DaySlots(midnight, now, day, SLOTS_PER_DAY), midnight + day * DAY, midnight + (day + 1) * DAY)
  {
    var first, last := GridSlot(midnight, day, 0).startsAt, GridSlot(midnight, day, SLOTS_PER_DAY).startsAt;
    assert midnight + day * DAY <= first && last <= midnight + (day + 1) * DAY;
    DaySlotsExact(midnight, now, day, SLOTS_PER_DAY, GridSlot(midnight, 0, 0));
    hide *;
    WidenWithin(DaySlots(midnight, now, day, SLOTS_PER_DAY), first, last,
                midnight + day * DAY, midnight + (day + 1) * DAY);
  }

  lemma {:induction false} CandidatesInOrder(midnight: int, now: int, days: nat)
    ensures Ordered(CandidateSpec(midnight, now, days))
    ensures Within(CandidateSpec(midnight, now, days), midnight, midnight + days * DAY)
  {
    hide DaySlots;
    if days == 0 {
    } else {
      hide Ordered;
      hide Within;
      CandidatesInOrder(midnight, now, days - 1);
      DayInOrder(midnight, now, days - 1);
      ConcatInOrder(CandidateSpec(midnight, now, days - 1), DaySlots(midnight, now, days - 1, SLOTS_PER_DAY),
                    midnight, midnight + (days - 1) * DAY, midnight + days * DAY);
    }
  }

  /** The candidates are exactly the future grid slots of the horizon. */
  lemma {:induction false} CandidatesExact(midnight: int, now: int, days: nat, s: Slot)
    ensures s in CandidateSpec(midnight, now, days) <==>
            s.startsAt > now
            && exists day: nat, k: nat :: day < days && k < SLOTS_PER_DAY && s == GridSlot(midnight, day, k)
  {
    hide GridSlot;
    hide DaySlots;
    if days == 0 {
    } else {
      CandidatesExact(midnight, now, days - 1, s);
      DaySlotsExact(midnight, now, days - 1, SLOTS_PER_DAY, s);
    }
  }

  // ---- The offered list ----

  predicate Clear(propertyBusy: seq<Appointment>, brokerBusy: seq<Appointment>, s: Slot)
  {
    !Collides(propertyBusy, s) && !Collides(brokerBusy, s)
  }

  lemma {:induction false} ActiveForExact(rows: seq<Appointment>, property: int, x: Appointment)
    ensures x in ActiveFor(rows, property) <==> x in rows && x.Active() && x.property == property
  {
    if rows == [] {
    } else {
      ActiveForExact(rows[1..], property, x);
    }
  }

  lemma {:induction false} ActiveForBrokerExact(rows: seq<Appointment>, broker: Option<string>, x: Appointment)
    ensures x in ActiveForBroker(rows, broker) <==> x in rows && x.Active() && x.brokerEmail == broker
  {
    if rows == [] {
    } else {
      ActiveForBrokerExact(rows[1..], broker, x);
    }
  }

  lemma CollidesIsBusy(rows: seq<Appointment>, property: int, s: Slot)
    ensures Collides(ActiveFor(rows, property), s) <==> PropertyBusy(rows, property, s.startsAt, s.endsAt, None)
  {
    hide ActiveFor;
    var busy := ActiveFor(rows, property);
    if Collides(busy, s) {
      var i :| 0 <= i < |busy| && busy[i].Overlaps(s.startsAt, s.endsAt);
      ActiveForExact(rows, property, busy[i]);
      var j :| 0 <= j < |rows| && rows[j] == busy[i];
      assert rows[j].Active() && None != Some(j);
    }
    if PropertyBusy(rows, property, s.startsAt, s.endsAt, None) {
      var j :| 0 <= j < |rows| && rows[j].Active() && rows[j].property == property
               && rows[j].Overlaps(s.startsAt, s.endsAt);
      ActiveForExact(rows, property, rows[j]);
      var i :| 0 <= i < |busy| && busy[i] == rows[j];
    }
  }

  lemma CollidesIsBrokerBusy(rows: seq<Appointment>, broker: Option<string>, s: Slot)
    ensures Collides(BrokerLoad(rows, broker), s) <==> BrokerBusy(rows, broker, s.startsAt, s.endsAt, None)
  {
    hide ActiveForBroker;
    hide Blank;
    var busy := BrokerLoad(rows, broker);
    if Collides(busy, s) {
      var i :| 0 <= i < |busy| && busy[i].Overlaps(s.startsAt, s.endsAt);
      ActiveForBrokerExact(rows, broker, busy[i]);
      var j :| 0 <= j < |rows| && rows[j] == busy[i];
      assert rows[j].Active() && None != Some(j);
    }
    if BrokerBusy(rows, broker, s.startsAt, s.endsAt, None) {
      var j :| 0 <= j < |rows| && rows[j].Active() && rows[j].brokerEmail == broker
               && rows[j].Overlaps(s.startsAt, s.endsAt);
      ActiveForBrokerExact(rows, broker, rows[j]);
      var i :| 0 <= i < |busy| && busy[i] == rows[j];
    }
  }

  /** The free candidates kept are candidates, free, and at most `limit`. */
  lemma {:induction false} FirstFreeSound(pb: seq<Appointment>, bb: seq<Appointment>, cs: seq<Slot>, limit: nat)
    ensures var r := FirstFree(pb, bb, cs, limit);
            |r| <= limit && forall i :: 0 <= i < |r| ==> r[i] in cs && Clear(pb, bb, r[i])
  {
    hide Collides;
    if cs == [] || limit == 0 {
    } else {
      FirstFreeSound(pb, bb, cs[1..], limit);
      FirstFreeSound(pb, bb, cs[1..], limit - 1);
    }
  }

  lemma HeadInOrder(x: Slot, r: seq<Slot>)
    requires Ordered(r) && forall i :: 0 <= i < |r| ==> x.endsAt <= r[i].startsAt
    ensures Ordered([x] + r)
  {
  }

  lemma TailAfterHead(cs: seq<Slot>)
    requires Ordered(cs) && cs != []
    ensures Ordered(cs[1..]) && forall c :: c in cs[1..] ==> cs[0].endsAt <= c.startsAt
  {
  }

  lemma FirstFreeAfter(pb: seq<Appointment>, bb: seq<Appointment>, cs: seq<Slot>, limit: nat, time: int)
    requires forall c :: c in cs ==> time <= c.startsAt
    ensures var r := FirstFree(pb, bb, cs, limit); forall i :: 0 <= i < |r| ==> time <= r[i].startsAt
  {
    FirstFreeSound(pb, bb, cs, limit);
    hide *;
  }

  lemma {:induction false} FirstFreeOrdered(pb: seq<Appointment>, bb: seq<Appointment>, cs: seq<Slot>, limit: nat)
    requires Ordered(cs)
    ensures Ordered(FirstFree(pb, bb, cs, limit))
  {
    if cs == [] || limit == 0 {
    } else {
      hide *;
      TailAfterHead(cs);
      FirstFreeHead(pb, bb, cs, limit);
      FirstFreeOrdered(pb, bb, cs[1..], limit);
      FirstFreeOrdered(pb, bb, cs[1..], limit - 1);
      FirstFreeAfter(pb, bb, cs[1..], limit - 1, cs[0].endsAt);
      HeadInOrder(cs[0], FirstFree(pb, bb, cs[1..], limit - 1));
    }
  }

  /** A free candidate is left out only when the limit is used up by candidates that end before it starts. */
  lemma {:induction false} FirstFreeComplete(pb: seq<Appointment>, bb: seq<Appointment>, cs: seq<Slot>, limit: nat,
                                             s: Slot)
    requires Ordered(cs) && s in cs && Clear(pb, bb, s)
    ensures var r := FirstFree(pb, bb, cs, limit);
            s !in r ==> |r| == limit && forall i :: 0 <= i < |r| ==> r[i].endsAt <= s.startsAt
  {
    hide Collides;
    if limit == 0 {
    } else {
      TailAfterHead(cs);
      FirstFreeHead(pb, bb, cs, limit);
      hide FirstFree;
      hide Ordered;
      if s != cs[0] {
        assert s in cs[1..];
        FirstFreeComplete(pb, bb, cs[1..], limit, s);
        FirstFreeComplete(pb, bb, cs[1..], limit - 1, s);
      }
    }
  }

  /**
   * Slot offers are sound and complete: for a showable property the offered list holds only future
   * business-hours slots of the 7-day horizon that `slot_free?` accepts, at most 12, in time order and
   * pairwise disjoint; and a free slot is missing only when 12 earlier ones are offered.
   */
  lemma OffersAreExact(rows: seq<Appointment>, p: Property, midnight: int, now: int, broker: Option<string>, s: Slot)
    requires BlackoutReason(p).None?
    ensures var slots := AvailableSpec(rows, p, midnight, now, broker).slots;
            && |slots| <= MAX_SLOTS
            && Ordered(slots)
            && (s in slots ==> OnGrid(midnight, now, s) && SlotFree(rows, p.id, s.startsAt, s.endsAt, broker, None))
            && (OnGrid(midnight, now, s) && SlotFree(rows, p.id, s.startsAt, s.endsAt, broker, None) && s !in slots ==>
                  |slots| == MAX_SLOTS && forall i :: 0 <= i < |slots| ==> slots[i].endsAt <= s.startsAt)
  {
    hide CandidateSpec;
    hide FirstFree;
    hide Collides;
    hide PropertyBusy;
    hide BrokerBusy;
    hide ActiveFor;
    hide BrokerLoad;
    hide GridSlot;
    var cs := CandidateSpec(midnight, now, HORIZON_DAYS);
    CandidatesExact(midnight, now, HORIZON_DAYS, s);
    CandidatesInOrder(midnight, now, HORIZON_DAYS);
    CollidesIsBusy(rows, p.id, s);
    CollidesIsBrokerBusy(rows, broker, s);
    var pb, bb := ActiveFor(rows, p.id), BrokerLoad(rows, broker);
    FirstFreeSound(pb, bb, cs, MAX_SLOTS);
    FirstFreeOrdered(pb, bb, cs, MAX_SLOTS);
    if s in cs && Clear(pb, bb, s) {
      FirstFreeComplete(pb, bb, cs, MAX_SLOTS, s);
    }
    hide Ordered;
  }

  /** A reason is given exactly when nothing is offered, and a blacked-out property is never offered. */
  lemma ReasonIffEmpty(rows: seq<Appointment>, p: Property, midnight: int, now: int, broker: Option<string>)
    ensures var offer := AvailableSpec(rows, p, midnight, now, broker);
            (offer.reason.Some? <==> offer.slots == []) && (BlackoutReason(p).Some? ==> offer.slots == [])
  {
    hide FirstFree;
    hide CandidateSpec;
  }

  /** The offer agrees with the commit: requesting an offered slot of a browsable property is accepted. */
  lemma OfferedIsBookable(rows: seq<Appointment>, p: Property, midnight: int, now: int, broker: Option<string>,
                          s: Slot, kind: Kind,
                          requester: Option<string>)
    requires p.Browsable() && s in AvailableSpec(rows, p, midnight, now, broker).slots
    ensures Answer(rows, Action.Request(p, Some(s.startsAt), kind, requester)) == Done
  {
    hide AvailableSpec;
    hide Blank;
    OffersAreExact(rows, p, midnight, now, broker, s);
    BackstopNeverFires(rows, p, Some(s.startsAt), kind, requester);
  }

  /** The new appointment itself does not stand in the way of its confirmation. */
  lemma FreeBesideItself(rows: seq<Appointment>, x: Appointment, broker: Option<string>)
    requires SlotFree(rows, x.property, x.startsAt, x.endsAt, broker, None)
    ensures SlotFree(rows + [x], x.property, x.startsAt, x.endsAt, broker, Some(|rows|))
  {
    hide Blank;
    hide Present;
    var asked := rows + [x];
    assert forall i :: 0 <= i < |rows| ==> asked[i] == rows[i] && None != Some(i);
  }

  lemma ConfirmDone(rows: seq<Appointment>, id: nat, broker: string)
    requires id < |rows|
    requires SlotFree(rows, rows[id].property, rows[id].startsAt, rows[id].endsAt, Some(broker), Some(id))
    ensures Answer(rows, Confirm(id, broker)) == Done
    ensures Step(rows, Confirm(id, broker))[id].status == Confirmed
  {
    hide SlotFree;
  }

  /** A slot offered for a broker, once requested, is also confirmed by that broker. */
  lemma OfferedIsConfirmed(rows: seq<Appointment>, p: Property, midnight: int, now: int, broker: string, s: Slot,
                           kind: Kind, requester: Option<string>)
    requires p.Browsable() && s in AvailableSpec(rows, p, midnight, now, Some(broker)).slots
    ensures var asked := Step(rows, Action.Request(p, Some(s.startsAt), kind, requester));
            && |asked| == |rows| + 1
            && Answer(asked, Confirm(|rows|, broker)) == Done
            && Step(asked, Confirm(|rows|, broker))[|rows|].status == Confirmed
  {
    var x := NewAppointment(p, s.startsAt, kind, requester);
    var asked := Step(rows, Action.Request(p, Some(s.startsAt), kind, requester));
    assert BlackoutReason(p).None?;
    OfferedIsBookable(rows, p, midnight, now, Some(broker), s, kind, requester);
    assert asked == rows + [x] by {
      hide Answer;
    }
    hide AvailableSpec;
    hide SlotFree;
    hide Answer;
    hide Step;
    OffersAreExact(rows, p, midnight, now, Some(broker), s);
    GridSlotLength(midnight, now, s);
    FreeBesideItself(rows, x, Some(broker));
    ConfirmDone(asked, |rows|, broker);
  }

  lemma GridSlotLength(midnight: int, now: int, s: Slot)
    requires OnGrid(midnight, now, s)
    ensures s.endsAt == s.startsAt + SLOT_SECONDS
  {
  }

  /** A retired, under-offer or sold property is offered no slot, and any other is not blacked out. */
  lemma BlackedOutIff(rows: seq<Appointment>, p: Property, midnight: int, now: int, broker: Option<string>)
    ensures BlackoutReason(p).Some? <==> p.retired || p.state == UnderOffer || p.state == Sold
    ensures p.retired || p.state == UnderOffer || p.state == Sold ==>
              AvailableSpec(rows, p, midnight, now, broker).slots == []
  {
    hide FirstFree;
    hide CandidateSpec;
  }

  // ---- The business hours ----

  /** In seconds: a half hour of the next seven days that starts on the half hour, from 9:00 to 17:30. */
  predicate InHours(midnight: int, s: Slot)
  {
    var t := s.startsAt - midnight;
    && s.endsAt == s.startsAt + 1800
    && 0 <= t < 7 * 86400 && t % 1800 == 0
    && 32400 <= t % 86400 <= 63000
  }

  lemma GridIsInHours(midnight: int, day: nat, k: nat)
    requires day < HORIZON_DAYS && k < SLOTS_PER_DAY
    ensures InHours(midnight, GridSlot(midnight, day, k))
  {
    var t := day * 86400 + 32400 + k * 1800;
    assert GridSlot(midnight, day, k).startsAt == midnight + t;
    assert t == 1800 * (48 * day + 18 + k);
    TimeOfDay(day, 32400 + k * 1800);
  }

  lemma TimeOfDay(day: nat, t: nat)
    requires t < 86400
    ensures (day * 86400 + t) % 86400 == t && (day * 86400 + t) / 86400 == day
  {
  }

  lemma InHoursIsGrid(midnight: int, s: Slot) returns (day: nat, k: nat)
    requires InHours(midnight, s)
    ensures day < HORIZON_DAYS && k < SLOTS_PER_DAY && s == GridSlot(midnight, day, k)
  {
    var t := s.startsAt - midnight;
    day := t / 86400;
    var u := t % 86400;
    assert t == day * 86400 + u;
    assert u % 1800 == 0 by {
      assert t == 1800 * (t / 1800) && u == 1800 * (t / 1800 - 48 * day);
    }
    k := (u - 32400) / 1800;
    assert u == 1800 * (u / 1800) && u - 32400 == 1800 * k;
    assert k <= 17;
  }

  /** The candidates are the future half hours of the business hours, and no others. */
  lemma CandidatesAreInHours(midnight: int, now: int, s: Slot)
    ensures s in CandidateSpec(midnight, now, HORIZON_DAYS) <==> s.startsAt > now && InHours(midnight, s)
  {
    hide CandidateSpec;
    CandidatesExact(midnight, now, HORIZON_DAYS, s);
    if InHours(midnight, s) {
      var day, k := InHoursIsGrid(midnight, s);
    }
    hide InHours;
    hide GridSlot;
    forall day: nat, k: nat | day < HORIZON_DAYS && k < SLOTS_PER_DAY && s == GridSlot(midnight, day, k)
      ensures InHours(midnight, s)
    {
      GridIsInHours(midnight, day, k);
    }
  }

  lemma OnGridIff(midnight: int, now: int, s: Slot)
    ensures OnGrid(midnight, now, s) <==> s.startsAt > now && InHours(midnight, s)
  {
    hide CandidateSpec;
    hide InHours;
    hide GridSlot;
    CandidatesExact(midnight, now, HORIZON_DAYS, s);
    CandidatesAreInHours(midnight, now, s);
  }

  /** An offer in clock terms: at most twelve future half hours of the week, and all the free ones if fewer. */
  lemma OffersInHours(rows: seq<Appointment>, p: Property, midnight: int, now: int, broker: Option<string>, s: Slot)
    requires BlackoutReason(p).None?
    ensures var slots := AvailableSpec(rows, p, midnight, now, broker).slots;
            && |slots| <= 12
            && (s in slots ==> s.startsAt > now && InHours(midnight, s))
            && (|slots| < 12 ==>
                  (s in slots <==> s.startsAt > now && InHours(midnight, s)
                                   && SlotFree(rows, p.id, s.startsAt, s.endsAt, broker, None)))
  {
    OffersAreExact(rows, p, midnight, now, broker, s);
    OnGridIff(midnight, now, s);
    hide AvailableSpec;
    hide OnGrid;
    hide SlotFree;
    hide InHours;
    hide BlackoutReason;
  }
}
