/**
 * Closing milestones: the Python orchestrator that pings a counterparty when a milestone is met, and the
 * Rails gate that records milestones in order and asks the orchestrator for the routing.
 */
module Closing {
  import opened Options
  import opened Text
  import opened AuditChain

  datatype Milestone = InspectionCleared | EarnestDeposited | TitleCleared | Funded
  datatype Counterparty = Escrow | Title | Lender
  datatype Ping = Ping(dealId: string, milestone: Milestone, counterparty: Counterparty)

  const ORDER: seq<Milestone> := [InspectionCleared, EarnestDeposited, TitleCleared, Funded]

  /** `MILESTONE_COUNTERPARTY`, the same table on both sides. */
  function Routing(m: Milestone): Counterparty
  {
    match m
    case InspectionCleared => Escrow
    case EarnestDeposited => Escrow
    case TitleCleared => Title
    case Funded => Lender
  }

  // ---- The Python orchestrator ----

  datatype Report = Report(milestone: Milestone, met: bool)

  datatype DealState = DealState(met: map<Milestone, bool>, pinged: set<Milestone>, pings: seq<Ping>)
  {
    predicate IsMet(m: Milestone)
    {
      m in met && met[m]
    }

    predicate Closed()
    {
      forall m :: m in ORDER ==> IsMet(m)
    }
  }

  function ReportStep(dealId: string, s: DealState, r: Report): DealState
  {
    var met := s.met[r.milestone := r.met];
    if r.met && r.milestone !in s.pinged then
      DealState(met, s.pinged + {r.milestone}, s.pings + [Ping(dealId, r.milestone, Routing(r.milestone))])
    else s.(met := met)
  }

  function ReportAll(dealId: string, s: DealState, reports: seq<Report>): DealState
  {
    if reports == [] then s
    else ReportStep(dealId, ReportAll(dealId, s, reports[..|reports| - 1]), reports[|reports| - 1])
  }

  const FRESH: DealState := DealState(map[], {}, [])

  class CounterpartySink {
    var pings: seq<Ping>

    constructor ()
      ensures pings == []
    {
      pings := [];
    }

    method Send(ping: Ping)
      modifies this
      ensures pings == old(pings) + [ping]
    {
      pings := pings + [ping];
    }
  }

  class ClosingOrchestrator {
    const dealId: string
    const sink: CounterpartySink
    var met: map<Milestone, bool>
    var pinged: set<Milestone>

    constructor (dealId: string, sink: CounterpartySink)
      ensures this.dealId == dealId && this.sink == sink && met == map[] && pinged == {}
    {
      this.dealId, this.sink := dealId, sink;
      met, pinged := map[], {};
    }

    ghost function State(): DealState
      reads this, sink
    {
      DealState(met, pinged, sink.pings)
    }

    /** `record` */
    method Record(milestone: Milestone, isMet: bool) returns (emitted: bool)
      modifies this, sink
      ensures State() == ReportStep(dealId, old(State()), Report(milestone, isMet))
      ensures emitted <==> isMet && milestone !in old(pinged)
    {
      met := met[milestone := isMet];
      if !isMet {
        return false;
      }
      if milestone in pinged {
        return false;
      }
      sink.Send(Ping(dealId, milestone, Routing(milestone)));
      pinged := pinged + {milestone};
      return true;
    }
  }

  function CountPings(pings: seq<Ping>, m: Milestone): nat
  {
    if pings == [] then 0
    else CountPings(pings[..|pings| - 1], m) + (if pings[|pings| - 1].milestone == m then 1 else 0)
  }

  ghost predicate EverMet(reports: seq<Report>, m: Milestone)
  {
    Report(m, true) in reports
  }

  lemma CountPingsAppend(pings: seq<Ping>, p: Ping, m: Milestone)
    ensures CountPings(pings + [p], m) == CountPings(pings, m) + (if p.milestone == m then 1 else 0)
  {
    assert (pings + [p])[..|pings + [p]| - 1] == pings;
  }

  /** The pings and flags for `m`, given whether it was ever reported met. */
  ghost predicate PingedRight(dealId: string, s: DealState, m: Milestone, ever: bool)
  {
    && CountPings(s.pings, m) == (if ever then 1 else 0)
    && (m in s.pinged <==> ever)
    && (forall p :: p in s.pings ==> p.dealId == dealId && p.counterparty == Routing(p.milestone))
    && (s.IsMet(m) ==> ever)
  }

  lemma StepPings(dealId: string, s: DealState, r: Report, m: Milestone, ever: bool)
    requires PingedRight(dealId, s, m, ever)
    ensures PingedRight(dealId, ReportStep(dealId, s, r), m, ever || (r.milestone == m && r.met))
  {
    CountPingsAppend(s.pings, Ping(dealId, r.milestone, Routing(r.milestone)), m);
    hide CountPings;
  }

  lemma EverMetStep(reports: seq<Report>, m: Milestone)
    requires reports != []
    ensures var n := |reports| - 1;
            EverMet(reports, m) <==> EverMet(reports[..n], m) || (reports[n].milestone == m && reports[n].met)
  {
    var n := |reports| - 1;
    assert reports == reports[..n] + [reports[n]];
  }

  lemma {:induction false} PingsAreRight(dealId: string, reports: seq<Report>, m: Milestone)
    ensures PingedRight(dealId, ReportAll(dealId, FRESH, reports), m, EverMet(reports, m))
  {
    if reports == [] {
    } else {
      var n := |reports| - 1;
      PingsAreRight(dealId, reports[..n], m);
      hide PingedRight;
      hide EverMet;
      hide ReportStep;
      EverMetStep(reports, m);
      StepPings(dealId, ReportAll(dealId, FRESH, reports[..n]), reports[n], m, EverMet(reports[..n], m));
    }
  }

  /**
   * For any sequence of met and not-met reports: a milestone is pinged exactly once if it was ever
   * reported met and never otherwise, and every ping goes to the counterparty of the routing table.
   */
  lemma PingedOnceIffEverMet(dealId: string, reports: seq<Report>, m: Milestone)
    ensures var s := ReportAll(dealId, FRESH, reports);
            && CountPings(s.pings, m) == (if EverMet(reports, m) then 1 else 0)
            && (m in s.pinged <==> EverMet(reports, m))
            && (forall p :: p in s.pings ==> p.dealId == dealId && p.counterparty == Routing(p.milestone))
            && (s.IsMet(m) ==> EverMet(reports, m))
  {
    PingsAreRight(dealId, reports, m);
    hide ReportAll;
    hide CountPings;
    hide EverMet;
  }

  /** A closed deal has pinged for all four milestones, each exactly once. */
  lemma ClosedMeansAllPinged(dealId: string, reports: seq<Report>)
    requires ReportAll(dealId, FRESH, reports).Closed()
    ensures var s := ReportAll(dealId, FRESH, reports);
            |s.pings| == 4 && forall m :: m in ORDER ==> CountPings(s.pings, m) == 1
  {
    hide ReportAll;
    hide CountPings;
    var s := ReportAll(dealId, FRESH, reports);
    forall m | m in ORDER
      ensures CountPings(s.pings, m) == 1
    {
      PingedOnceIffEverMet(dealId, reports, m);
    }
    CountsAddUp(s.pings);
    assert InspectionCleared in ORDER && EarnestDeposited in ORDER && TitleCleared in ORDER && Funded in ORDER;
  }

  lemma {:induction false} CountsAddUp(pings: seq<Ping>)
    ensures |pings| == CountPings(pings, InspectionCleared) + CountPings(pings, EarnestDeposited)
                       + CountPings(pings, TitleCleared) + CountPings(pings, Funded)
  {
    if pings == [] {
    } else {
      CountsAddUp(pings[..|pings| - 1]);
    }
  }

  /** What the last report about `m` said; false when there is none. */
  predicate LastSaid(reports: seq<Report>, m: Milestone)
  {
    reports != [] &&
    var n := |reports| - 1;
    if reports[n].milestone == m then reports[n].met else LastSaid(reports[..n], m)
  }

  lemma {:induction false} MetIsLastSaid(dealId: string, reports: seq<Report>, m: Milestone)
    ensures ReportAll(dealId, FRESH, reports).IsMet(m) <==> LastSaid(reports, m)
  {
    if reports == [] {
    } else {
      MetIsLastSaid(dealId, reports[..|reports| - 1], m);
    }
  }

  /** A deal is closed exactly when the last report about every milestone said it was met. */
  lemma ClosedIff(dealId: string, reports: seq<Report>)
    ensures ReportAll(dealId, FRESH, reports).Closed() <==> forall m :: m in ORDER ==> LastSaid(reports, m)
  {
    hide ReportAll;
    hide LastSaid;
    hide DealState.IsMet;
    forall m | m in ORDER
      ensures ReportAll(dealId, FRESH, reports).IsMet(m) <==> LastSaid(reports, m)
    {
      MetIsLastSaid(dealId, reports, m);
    }
  }

  /** A report is the last about its milestone when none after it is. */
  lemma {:induction false} SaidLast(reports: seq<Report>, i: nat)
    requires i < |reports| && forall j :: i < j < |reports| ==> reports[j].milestone != reports[i].milestone
    ensures LastSaid(reports, reports[i].milestone) == reports[i].met
  {
    if i == |reports| - 1 {
    } else {
      SaidLast(reports[..|reports| - 1], i);
    }
  }

  /** All four milestones met, then the inspection withdrawn. */
  const REOPENED: seq<Report> := [
    Report(InspectionCleared, true), Report(EarnestDeposited, true), Report(TitleCleared, true), Report(Funded, true),
    Report(InspectionCleared, false)]

  lemma ReopenedTells()
    ensures forall m :: m in ORDER ==> EverMet(REOPENED, m)
    ensures !LastSaid(REOPENED, InspectionCleared) && forall m :: m in ORDER ==> LastSaid(REOPENED[..4], m)
  {
    var r, first := REOPENED, REOPENED[..4];
    assert r[0] in r && r[1] in r && r[2] in r && r[3] in r;
    SaidLast(r, 4);
    SaidLast(first, 0);
    SaidLast(first, 1);
    SaidLast(first, 2);
    SaidLast(first, 3);
  }

  /**
   * The converse of the above fails: with four milestones met and one withdrawn, a deal that was closed has been
   * reopened although each of the four pings is out exactly once.
   */
  lemma AllPingedMayBeOpen()
    ensures ReportAll("d", FRESH, REOPENED[..4]).Closed()
    ensures var s := ReportAll("d", FRESH, REOPENED);
            |s.pings| == 4 && (forall m :: m in ORDER ==> CountPings(s.pings, m) == 1) && !s.Closed()
  {
    ReopenedTells();
    assert InspectionCleared in ORDER && EarnestDeposited in ORDER && TitleCleared in ORDER && Funded in ORDER;
    hide *;
    ClosedIff("d", REOPENED[..4]);
    ClosedIff("d", REOPENED);
    var s := ReportAll("d", FRESH, REOPENED);
    forall m | m in ORDER
      ensures CountPings(s.pings, m) == 1
    {
      PingedOnceIffEverMet("d", REOPENED, m);
    }
    CountsAddUp(s.pings);
  }

  // ---- The servicer between the two ----

  function MilestoneName(m: Milestone): string
  {
    match m
    case InspectionCleared => "inspection_cleared"
    case EarnestDeposited => "earnest_deposited"
    case TitleCleared => "title_cleared"
    case Funded => "funded"
  }

  function ParseMilestone(name: string): (m: Option<Milestone>)
    ensures m.Some? <==> exists x :: x in ORDER && MilestoneName(x) == name
    ensures m.Some? ==> MilestoneName(m.value) == name
  {
    assert ORDER == [InspectionCleared, EarnestDeposited, TitleCleared, Funded];
    if name == "inspection_cleared" then assert InspectionCleared in ORDER; Some(InspectionCleared)
    else if name == "earnest_deposited" then assert EarnestDeposited in ORDER; Some(EarnestDeposited)
    else if name == "title_cleared" then assert TitleCleared in ORDER; Some(TitleCleared)
    else if name == "funded" then assert Funded in ORDER; Some(Funded)
    else None
  }

  function CounterpartyName(c: Counterparty): string
  {
    match c
    case Escrow => "escrow"
    case Title => "title"
    case Lender => "lender"
  }

  function ActionText(m: Milestone): string
  {
    match m
    case InspectionCleared => "inspection cleared \U{2014} releasing contingency"
    case EarnestDeposited => "earnest-money deposit triggered"
    case TitleCleared => "title cleared \U{2014} preparing settlement"
    case Funded => "loan funded \U{2014} ready to disburse"
  }

  /** `_ping_message` */
  function PingMessage(m: Milestone, c: Counterparty, dealId: string): string
  {
    "Notified " + CounterpartyName(c) + ": " + ActionText(m) + " for " + dealId + "."
  }

  datatype RpcAnswer = RpcAnswer(pinged: bool, counterparty: string, message: string)

  /** What `RecordMilestone` answers; an unknown milestone name aborts the call. */
  function RpcSpec(dealId: string, name: string): Result<RpcAnswer, string>
  {
    var m := ParseMilestone(name);
    if m.None? then Err(name)
    else Ok(RpcAnswer(true, CounterpartyName(Routing(m.value)), PingMessage(m.value, Routing(m.value), dealId)))
  }

  /** `RecordMilestone`: a fresh orchestrator records the milestone as met and its one ping is returned. */
  method RecordMilestoneRpc(dealId: string, name: string) returns (answer: Result<RpcAnswer, string>)
    ensures answer == RpcSpec(dealId, name)
  {
    hide ParseMilestone;
    hide CounterpartyName;
    hide PingMessage;
    var m := ParseMilestone(name);
    if m.None? {
      return Err(name);
    }
    var sink := new CounterpartySink();
    var orchestrator := new ClosingOrchestrator(dealId, sink);
    var pinged := orchestrator.Record(m.value, true);
    if sink.pings == [] {
      return Ok(RpcAnswer(pinged, "", ""));
    }
    var c := sink.pings[|sink.pings| - 1].counterparty;
    return Ok(RpcAnswer(pinged, CounterpartyName(c), PingMessage(m.value, c, dealId)));
  }

  // ---- The Rails gate ----

  datatype Recorded = Recorded(milestone: Milestone, counterparty: string, message: string, pending: bool)

  datatype Reply = Accepted(row: Recorded) | Unknown | Already | Expected(next: Option<Milestone>)

  function RecordedMilestones(rows: seq<Recorded>): set<Milestone>
  {
    set r | r in rows :: r.milestone
  }

  /** `(MILESTONE_ORDER - recorded).first` */
  function FirstMissing(order: seq<Milestone>, recorded: set<Milestone>): Option<Milestone>
  {
    if order == [] then None
    else if order[0] !in recorded then Some(order[0])
    else FirstMissing(order[1..], recorded)
  }

  /** `next_closing_milestone` */
  function NextMilestone(rows: seq<Recorded>): Option<Milestone>
  {
    FirstMissing(ORDER, RecordedMilestones(rows))
  }

  const UNREACHABLE: string := " (orchestrator unreachable \U{2014} ping pending)"

  /** The row written for `m`; without the brain it is routed locally and its ping is pending. */
  function RowFor(dealId: string, m: Milestone, reachable: bool): Recorded
  {
    var c := CounterpartyName(Routing(m));
    if reachable then Recorded(m, c, PingMessage(m, Routing(m), dealId), false)
    else
      Recorded(m, c, "Notified " + c + ": " + ActionText(m) + " for " + dealId + "." + UNREACHABLE, true)
  }

  function Answer(dealId: string, rows: seq<Recorded>, name: string, reachable: bool): Reply
  {
    var m := ParseMilestone(name);
    if m.None? then Unknown
    else if m.value in RecordedMilestones(rows) then Already
    else if Some(m.value) != NextMilestone(rows) then Expected(NextMilestone(rows))
    else Accepted(RowFor(dealId, m.value, reachable))
  }

  function GateStep(dealId: string, rows: seq<Recorded>, name: string, reachable: bool): seq<Recorded>
  {
    var reply := Answer(dealId, rows, name, reachable);
    if reply.Accepted? then rows + [reply.row] else rows
  }

  /** The audit entry of a recorded milestone. */
  function AuditFor(offerId: string, r: Recorded): Entry
  {
    Entry("milestone_recorded", Some("Offer"), Some(offerId), None, None, Some(MilestoneName(r.milestone)),
          Some(r.counterparty + " pinged (" + (if r.pending then "pending" else "simulated") + "): " + r.message))
  }

  /** `deal_id` */
  function DealId(offerId: string): string
  {
    "deal-" + offerId
  }

  class ClosingGate {
    const offerId: string
    var rows: seq<Recorded>
    const audit: AuditLog

    constructor (offerId: string, audit: AuditLog)
      ensures this.offerId == offerId && this.audit == audit && rows == []
    {
      this.offerId, this.audit := offerId, audit;
      rows := [];
    }

    /** `ClosingOrchestration#record`; `reachable` says whether the brain answers this call. */
    method Record(name: string, reachable: bool) returns (reply: Reply)
      modifies this, audit
      ensures reply == Answer(DealId(offerId), old(rows), name, reachable)
      ensures rows == GateStep(DealId(offerId), old(rows), name, reachable)
      ensures audit.rows == if reply.Accepted?
                            then old(audit.rows) + [Chained(audit.hash, old(audit.rows), AuditFor(offerId, reply.row))]
                            else old(audit.rows)
    {
      hide PingMessage;
      hide ActionText;
      hide CounterpartyName;
      hide MilestoneName;
      hide NextMilestone;
      var m := ParseMilestone(name);
      if m.None? {
        return Unknown;
      }
      if m.value in RecordedMilestones(rows) {
        return Already;
      }
      var expected := NextMilestone(rows);
      if Some(m.value) != expected {
        return Expected(expected);
      }
      var row := RowFor(DealId(offerId), m.value, false);
      if reachable {
        var answer := RecordMilestoneRpc(DealId(offerId), name);
        if answer.Ok? {
          row := Recorded(m.value, answer.value.counterparty, answer.value.message, false);
        }
      }
      rows := rows + [row];
      KindIsPresent();
      var ok := audit.Append(AuditFor(offerId, row));
      return Accepted(row);
    }
  }

  lemma KindIsPresent()
    ensures !Blank("milestone_recorded")
  {
    StripIdentity("milestone_recorded", WHITESPACE);
  }

  /** One call to the gate. */
  datatype Call = Call(name: string, reachable: bool)

  function GateAll(dealId: string, calls: seq<Call>): seq<Recorded>
  {
    if calls == [] then []
    else
      var n := |calls| - 1;
      GateStep(dealId, GateAll(dealId, calls[..n]), calls[n].name, calls[n].reachable)
  }

  /** The recorded milestones are a prefix of the canonical order, each routed by the table. */
  ghost predicate InOrder(dealId: string, rows: seq<Recorded>)
  {
    && |rows| <= |ORDER|
    && forall i :: 0 <= i < |rows| ==>
         rows[i].milestone == ORDER[i] && rows[i] == RowFor(dealId, ORDER[i], !rows[i].pending)
  }

  lemma RecordedIsPrefix(dealId: string, rows: seq<Recorded>)
    requires InOrder(dealId, rows)
    ensures forall i :: 0 <= i < |ORDER| ==> (ORDER[i] in RecordedMilestones(rows) <==> i < |rows|)
  {
    hide RowFor;
    forall i | 0 <= i < |ORDER|
      ensures ORDER[i] in RecordedMilestones(rows) <==> i < |rows|
    {
      if i < |rows| {
        assert rows[i] in rows;
      } else {
        assert forall j :: 0 <= j < |rows| ==> rows[j].milestone != ORDER[i];
      }
    }
  }

  lemma NextIsAtLength(dealId: string, rows: seq<Recorded>)
    requires InOrder(dealId, rows)
    ensures NextMilestone(rows) == if |rows| < |ORDER| then Some(ORDER[|rows|]) else None
  {
    RecordedIsPrefix(dealId, rows);
    FirstMissingAt(ORDER, RecordedMilestones(rows), |rows|);
  }

  lemma {:induction false} FirstMissingAt(order: seq<Milestone>, recorded: set<Milestone>, n: nat)
    requires n <= |order| && forall i :: 0 <= i < |order| ==> (order[i] in recorded <==> i < n)
    ensures FirstMissing(order, recorded) == if n < |order| then Some(order[n]) else None
  {
    if n == 0 {
    } else {
      FirstMissingAt(order[1..], recorded, n - 1);
    }
  }

  lemma GateKeepsOrder(dealId: string, rows: seq<Recorded>, name: string, reachable: bool)
    requires InOrder(dealId, rows)
    ensures InOrder(dealId, GateStep(dealId, rows, name, reachable))
  {
    hide RecordedMilestones;
    hide RowFor;
    hide NextMilestone;
    NextIsAtLength(dealId, rows);
    var m := ParseMilestone(name);
    if m.Some? {
      RowForShape(dealId, m.value, reachable);
    }
  }

  lemma RowForShape(dealId: string, m: Milestone, reachable: bool)
    ensures var r := RowFor(dealId, m, reachable); r.milestone == m && r.pending == !reachable
  {
    hide PingMessage;
    hide ActionText;
    hide CounterpartyName;
  }

  /**
   * For every sequence of calls and any brain outages, the recorded milestones are a prefix of the canonical
   * order, with the counterparties of the routing table whether or not the brain answered.
   */
  lemma {:induction false} GateRecordsInOrder(dealId: string, calls: seq<Call>)
    ensures InOrder(dealId, GateAll(dealId, calls))
  {
    hide GateStep;
    if calls == [] {
    } else {
      var n := |calls| - 1;
      GateRecordsInOrder(dealId, calls[..n]);
      GateKeepsOrder(dealId, GateAll(dealId, calls[..n]), calls[n].name, calls[n].reachable);
    }
  }

  /** A call records a milestone exactly when it names the next one, so four in-order calls close the deal. */
  lemma GateAcceptsIffNext(dealId: string, rows: seq<Recorded>, name: string, reachable: bool)
    requires InOrder(dealId, rows)
    ensures Answer(dealId, rows, name, reachable).Accepted? <==> |rows| < 4 && name == MilestoneName(ORDER[|rows|])
    ensures NextMilestone(rows).None? <==> |rows| == 4
  {
    hide RowFor;
    hide NextMilestone;
    hide RecordedMilestones;
    NextIsAtLength(dealId, rows);
    RecordedIsPrefix(dealId, rows);
    var m := ParseMilestone(name);
    if |rows| < 4 && name == MilestoneName(ORDER[|rows|]) {
      assert ORDER[|rows|] in ORDER;
      NamesAreDistinct(m.value, ORDER[|rows|]);
    }
  }

  lemma NamesAreDistinct(a: Milestone, b: Milestone)
    ensures MilestoneName(a) == MilestoneName(b) <==> a == b
  {
    assert "inspection_cleared"[0] == 'i' && "earnest_deposited"[0] == 'e';
    assert "title_cleared"[0] == 't' && "funded"[0] == 'f';
  }

  // ---- What the rows and the audit trail say ----

  /** A brain outage shows in the row and only there: same milestone and counterparty, the message with a suffix. */
  lemma OutageOnlyAddsSuffix(dealId: string, m: Milestone)
    ensures var up, down := RowFor(dealId, m, true), RowFor(dealId, m, false);
            && up.milestone == down.milestone == m && up.counterparty == down.counterparty
            && !up.pending && down.pending
            && down.message == up.message + UNREACHABLE
  {
    hide CounterpartyName;
    hide ActionText;
    hide UNREACHABLE;
  }

  lemma OpeningsDiffer(counterparty: string, detail: string)
    ensures !(Opening(counterparty, true) <= detail && Opening(counterparty, false) <= detail)
  {
    var k := |counterparty| + 9;
    assert Opening(counterparty, true)[k] == 'p' && Opening(counterparty, false)[k] == 's';
  }

  /** How the detail of an audited ping begins. */
  function Opening(counterparty: string, pending: bool): string
  {
    counterparty + " pinged (" + (if pending then "pending" else "simulated")
  }

  lemma EntryOf(offerId: string, r: Recorded)
    ensures var e := AuditFor(offerId, r);
            && e.subjectType == Some("Offer") && e.subjectId == Some(offerId)
            && e.decision == Some(MilestoneName(r.milestone)) && e.detail.Some?
            && Opening(r.counterparty, r.pending) <= e.detail.value
  {
    assert AuditFor(offerId, r).detail.value == Opening(r.counterparty, r.pending) + "): " + r.message;
  }

  lemma RowIs(dealId: string, m: Milestone, reachable: bool)
    ensures var r := RowFor(dealId, m, reachable);
            r.milestone == m && r.counterparty == CounterpartyName(Routing(m)) && r.pending == !reachable
  {
    hide CounterpartyName;
    hide ActionText;
    hide UNREACHABLE;
    hide PingMessage;
  }

  /** The audit entry of a recorded milestone tells the offer, the milestone and whether the ping went out. */
  lemma EntryTellsRow(offerId: string, m: Milestone, reachable: bool, other: string, n: Milestone, reached: bool)
    ensures AuditFor(offerId, RowFor(DealId(offerId), m, reachable))
            == AuditFor(other, RowFor(DealId(other), n, reached)) <==>
            offerId == other && m == n && reachable == reached
  {
    hide *;
    var a, b := RowFor(DealId(offerId), m, reachable), RowFor(DealId(other), n, reached);
    RowIs(DealId(offerId), m, reachable);
    RowIs(DealId(other), n, reached);
    EntryOf(offerId, a);
    EntryOf(other, b);
    NamesAreDistinct(m, n);
    OpeningsDiffer(a.counterparty, AuditFor(offerId, a).detail.value);
  }
}
