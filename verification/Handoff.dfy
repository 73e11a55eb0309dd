/** Hard triggers, the escalation decision, and the sink that records handoff packets. */
module Handoff {
  import opened Options
  import opened Text
  import opened Critic
  import opened Confidence
  import opened FairHousing

  const DEFAULT_CONFIDENCE_THRESHOLD: real := 0.6
  const DEFAULT_HIGH_DOLLAR_BAND: real := 100000.0

  datatype Trigger = LEGAL_UPL | HIGH_DOLLAR | HOSTILE_SENTIMENT | FAIR_HOUSING | HUMAN_REQUEST | LOW_CONFIDENCE
  {
    predicate IsHard()
    {
      !LOW_CONFIDENCE?
    }
  }

  /** The three regex detectors, as functions of the text. */
  datatype Detectors = Detectors(legalUpl: string -> bool, humanRequest: string -> bool, hostile: string -> bool)

  datatype Extra = NoExtra | InsufficientData | CapReached(maxAttempts: int)

  /** Why a packet was pushed; the source renders these as sentences. */
  datatype Why =
    | HardTrigger(trigger: Trigger)
    | BelowOpsThreshold(score: real, threshold: real)
    | CriticBlocked(critic: Reason, extra: Extra)

  /** What the packet recommends; the source renders these as sentences. */
  datatype Action =
    | DefaultFor(trigger: Trigger)
    | HumanVerifies(extra: Extra)
    | AdviseOnClause
    | AuthorizeCounter(price: real, ceiling: real)

  datatype Packet = Packet(
    leadId: string, trigger: Trigger, confidence: real, why: Why, transcript: string,
    completedSteps: seq<string>, retrievedEvidence: seq<string>, recommended: Action, hardTrigger: bool)

  datatype Decision = Decision(score: Score, packet: Option<Packet>)
  {
    predicate Escalated()
    {
      packet.Some?
    }
  }

  /** The arguments of `decide`; an absent band stands for an infinite one. */
  datatype Case = Case(
    leadId: string, result: Verification, fairHousing: Option<RailResult>, text: string, transcript: string,
    amount: Option<real>, completedSteps: seq<string>, recommended: Option<Action>,
    selfConsistency: Option<real>, highStakes: bool, threshold: real, band: Option<real>)

  /** `_first_trigger` */
  function FirstTrigger(det: Detectors, q: Case): Option<Trigger>
  {
    if q.fairHousing.Some? && q.fairHousing.value.escalate then Some(FAIR_HOUSING)
    else if det.legalUpl(q.text) then Some(LEGAL_UPL)
    else if det.humanRequest(q.text) then Some(HUMAN_REQUEST)
    else if det.hostile(q.text) then Some(HOSTILE_SENTIMENT)
    else if q.amount.Some? && q.band.Some? && q.amount.value >= q.band.value then Some(HIGH_DOLLAR)
    else None
  }

  function MakePacket(q: Case, score: Score, trigger: Trigger, why: Why): Packet
  {
    Packet(q.leadId, trigger, score.score, why, q.transcript, q.completedSteps, CitationsOf(q.result.claims),
           if q.recommended.Some? then q.recommended.value else DefaultFor(trigger), trigger.IsHard())
  }

  /** What `decide` returns. */
  function Decide(det: Detectors, q: Case): Decision
  {
    var score := Composite(q.result, q.selfConsistency, q.highStakes);
    var hard := FirstTrigger(det, q);
    if hard.Some? then Decision(score, Some(MakePacket(q, score, hard.value, HardTrigger(hard.value))))
    else if score.score < q.threshold then
      Decision(score, Some(MakePacket(q, score, LOW_CONFIDENCE, BelowOpsThreshold(score.score, q.threshold))))
    else Decision(score, None)
  }

  class HandoffSink {
    var packets: seq<Packet>

    constructor ()
      ensures packets == []
    {
      packets := [];
    }

    /** `FakeHandoffSink.push` */
    method Push(packet: Packet) returns (id: string)
      modifies this
      ensures packets == old(packets) + [packet]
      ensures id == HandoffId(|packets|)
    {
      packets := packets + [packet];
      id := HandoffId(|packets|);
    }
  }

  function HandoffId(n: nat): string
  {
    "fake-handoff-" + Decimal(n)
  }

  function PacketsOf(d: Decision): seq<Packet>
  {
    if d.packet.Some? then [d.packet.value] else []
  }

  /** `decide` with a recording sink: exactly the packet of the decision is pushed. */
  method DecideInto(det: Detectors, q: Case, sink: HandoffSink) returns (d: Decision, id: Option<string>)
    modifies sink
    ensures d == Decide(det, q)
    ensures sink.packets == old(sink.packets) + PacketsOf(d)
    ensures id == if d.Escalated() then Some(HandoffId(|sink.packets|)) else None
  {
    d := Decide(det, q);
    id := None;
    if d.packet.Some? {
      var pushed := sink.Push(d.packet.value);
      id := Some(pushed);
    }
  }

  /** The order in which hard triggers take precedence. */
  const PRECEDENCE: seq<Trigger> := [FAIR_HOUSING, LEGAL_UPL, HUMAN_REQUEST, HOSTILE_SENTIMENT, HIGH_DOLLAR]

  /** The condition of one hard trigger, whatever the others say. */
  predicate Fires(det: Detectors, q: Case, t: Trigger)
  {
    match t
    case FAIR_HOUSING => q.fairHousing.Some? && q.fairHousing.value.escalate
    case LEGAL_UPL => det.legalUpl(q.text)
    case HUMAN_REQUEST => det.humanRequest(q.text)
    case HOSTILE_SENTIMENT => det.hostile(q.text)
    case HIGH_DOLLAR => q.amount.Some? && q.band.Some? && q.amount.value >= q.band.value
    case LOW_CONFIDENCE => false
  }

  /**
   * The packet names the highest-ranked condition that holds: a hard trigger that fires with none before it
   * firing, or low confidence when none fires. It carries the composite score and the cited sources.
   */
  lemma PacketNamesFirstCause(det: Detectors, q: Case, k: nat, id: string)
    requires k < |PRECEDENCE|
    ensures var d := Decide(det, q);
            && (d.Escalated() && d.packet.value.trigger == PRECEDENCE[k] <==>
                  Fires(det, q, PRECEDENCE[k]) && forall j :: 0 <= j < k ==> !Fires(det, q, PRECEDENCE[j]))
            && (d.Escalated() && d.packet.value.trigger == LOW_CONFIDENCE ==>
                  forall j :: 0 <= j < |PRECEDENCE| ==> !Fires(det, q, PRECEDENCE[j]))
            && (d.Escalated() ==>
                  && d.packet.value.confidence == d.score.score
                  && d.packet.value.hardTrigger == d.packet.value.trigger.IsHard()
                  && (id in d.packet.value.retrievedEvidence <==>
                        exists v :: v in q.result.claims && v.Supported() && v.citation == Some(id)))
  {
    hide Composite;
    CitationsAreExact(q.result.claims, id);
    hide CitationsOf;
    var order := PRECEDENCE;
    assert order[0] == FAIR_HOUSING && order[1] == LEGAL_UPL && order[2] == HUMAN_REQUEST;
    assert order[3] == HOSTILE_SENTIMENT && order[4] == HIGH_DOLLAR;
  }

  /** A decision escalates exactly when a hard trigger fires or the composite is below the threshold. */
  lemma EscalatesIff(det: Detectors, q: Case)
    ensures var d := Decide(det, q);
            && (d.Escalated() <==>
                  || FirstTrigger(det, q).Some?
                  || Composite(q.result, q.selfConsistency, q.highStakes).score < q.threshold)
            && (d.Escalated() ==> (d.packet.value.hardTrigger <==> FirstTrigger(det, q).Some?))
  {
    hide Composite;
  }

  /** A high-stakes draft with no measured self-consistency always reaches a human at the default threshold. */
  lemma HighStakesAlwaysEscalates(det: Detectors, q: Case)
    requires q.highStakes && q.selfConsistency.None? && q.threshold > 0.58
    ensures Decide(det, q).Escalated()
  {
    hide Composite;
    HighStakesCeiling(q.result);
  }

  /** An approved draft is never escalated on its score: only a hard trigger can stop it. */
  lemma ApprovedEscalatesOnlyHard(det: Detectors, q: Case, floor: real, vs: seq<ClaimVerdict>)
    requires vs != [] && floor >= 0.6 && q.result == Gate(floor, vs) && q.result.approved
    requires q.selfConsistency.None? && !q.highStakes && q.threshold <= 0.78
    ensures Decide(det, q).Escalated() <==> FirstTrigger(det, q).Some?
  {
    hide Composite;
    hide Gate;
    ApprovedCompositeBand(floor, vs);
  }

  /** Packets of one sink have different ids; the first is numbered one. */
  lemma HandoffIdsDiffer(a: nat, b: nat)
    ensures HandoffId(a) == HandoffId(b) <==> a == b
    ensures HandoffId(1) == "fake-handoff-1"
  {
    var prefix := "fake-handoff-";
    assert HandoffId(a)[|prefix|..] == Decimal(a) && HandoffId(b)[|prefix|..] == Decimal(b);
    DecimalInjective(a, b);
  }
}
