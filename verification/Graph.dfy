/**
 * The agent loop generate -> critique -> fair_housing -> decide -> {send | regenerate | handoff}.
 * The node functions, the router and `Run` say what a run computes, and `TurnOf` also when the rail's lookup
 * raises; `Orchestrator.Invoke` is the loop over the store and the sink and is proved to compute exactly that.
 */
module Graph {
  import opened Options
  import opened Text
  import opened Rag
  import opened Critic
  import opened Confidence
  import opened FairHousing
  import opened Handoff
  import opened Generator

  /** The injected collaborators. The language model answers nothing when its call fails. */
  datatype Deps = Deps(
    avm: Avm, rail: Rail, critic: Critic, detectors: Detectors,
    confidenceThreshold: real, highDollarBand: real, maxAttempts: int,
    naturalizer: Option<(string, string) -> Option<string>>)

  datatype Outcome = Sent | HandedOff

  /** The persisted thread state. */
  datatype State = State(
    address: string, query: string, attempts: int, draft: string, sufficientData: bool,
    verification: Option<Verification>, citations: seq<string>, auditRows: seq<AuditRow>,
    fairHousing: Option<RailResult>, decision: Option<Decision>,
    outcome: Option<Outcome>, finalMessage: Option<string>, escalated: bool, handoffId: Option<string>)

  datatype Route = Send | Regenerate | HandOff

  // ---- Nodes ----

  function ReviseFrom(st: State): Option<string>
  {
    if st.attempts >= 1 && st.verification.Some? then st.verification.value.approvedMessage else None
  }

  /** The `generate` node, apart from its ingest. */
  function GenerateNode(d: Deps, st: State): State
  {
    var g := Compose(d.avm, d.rail, st.address, ReviseFrom(st));
    st.(draft := g.draft, sufficientData := g.sufficientData, attempts := st.attempts + 1)
  }

  function CritiqueNode(st: State, result: Verification): State
  {
    st.(verification := Some(result), citations := CitationsOf(result.claims), auditRows := result.AuditRows())
  }

  function RailNode(d: Deps, st: State): State
  {
    st.(fairHousing := Some(Scan(d.rail, st.draft)))
  }

  /** The arguments both the `decide` and the `handoff` node pass to `decide`. */
  function CaseOf(d: Deps, st: State, recommended: Option<Action>): Case
    requires st.verification.Some?
  {
    Case(st.address, st.verification.value, st.fairHousing, st.query, st.query, None, [], recommended,
         None, false, d.confidenceThreshold, Some(d.highDollarBand))
  }

  function DecideNode(d: Deps, st: State): State
    requires st.verification.Some?
  {
    st.(decision := Some(Decide(d.detectors, CaseOf(d, st, None))))
  }

  /** One pass from `generate` to `decide`, over the facts as they stand after the ingest. */
  function Pass(d: Deps, facts: seq<Fact>, st: State): (r: State)
    ensures r.verification.Some? && r.decision.Some? && r.attempts == st.attempts + 1
  {
    var generated := GenerateNode(d, st);
    var judged := CritiqueNode(generated, Verify(d.critic, facts, generated.draft, Some(generated.address)));
    DecideNode(d, RailNode(d, judged))
  }

  /** `_route_after_decide` */
  function RouteAfterDecide(d: Deps, st: State): Route
    requires st.verification.Some? && st.decision.Some?
  {
    var result, decision := st.verification.value, st.decision.value;
    var railAllowed := st.fairHousing.None? || st.fairHousing.value.allowed;
    var hasSupported := exists v :: v in result.claims && v.Supported();
    if !st.sufficientData || result.claims == [] then HandOff
    else if result.approved && !decision.Escalated() && railAllowed && hasSupported then Send
    else if !railAllowed
         || (decision.Escalated() && decision.packet.value.hardTrigger)
         || (exists v :: v in result.claims && v.tag.CONTRADICTED?) then HandOff
    else if result.approvedMessage.Some? && result.approvedMessage.value != "" && hasSupported
         && st.attempts < d.maxAttempts then Regenerate
    else HandOff
  }

  // ---- Terminal nodes ----

  /** `naturalize_message`: the rewrite, or the message itself when there is none. */
  function Naturalize(llm: (string, string) -> Option<string>, message: string, query: string): string
  {
    var out := llm(message, query);
    if out.Some? && Trim(out.value) != "" then Trim(out.value) else message
  }

  /** A rewrite that re-verified well enough to be scanned. */
  predicate Scanned(recheck: Verification)
  {
    recheck.approvedMessage.Some? && !Blank(recheck.approvedMessage.value) && !recheck.escalate
  }

  /** A rewrite is adopted only when it re-verifies to a non-empty, non-escalating, clean message. */
  predicate Adoptable(d: Deps, recheck: Verification)
  {
    && Scanned(recheck)
    && Scan(d.rail, recheck.approvedMessage.value).allowed
  }

  /** The rewrite worth re-verifying, if there is one. */
  function Candidate(d: Deps, st: State): Option<string>
    requires st.verification.Some?
  {
    var message := st.verification.value.approvedMessage;
    if d.naturalizer.Some? && message.Some? && !Blank(message.value) then
      var candidate := Naturalize(d.naturalizer.value, message.value, st.query);
      if !Blank(candidate) && Trim(candidate) != Trim(message.value) then Some(candidate) else None
    else None
  }

  /** The `send` node when no rewrite is adopted. */
  function SendPlain(st: State): State
    requires st.verification.Some?
  {
    var result := st.verification.value;
    st.(outcome := Some(Sent), finalMessage := result.approvedMessage, escalated := false,
        citations := CitationsOf(result.claims))
  }

  /** The `send` node when the rewrite is adopted: message and trace are both those of the re-check. */
  function SendRewrite(st: State, recheck: Verification): State
  {
    st.(outcome := Some(Sent), finalMessage := recheck.approvedMessage, escalated := false,
        citations := CitationsOf(recheck.claims), verification := Some(recheck), auditRows := recheck.AuditRows())
  }

  /** The `send` node. */
  function SendNode(d: Deps, facts: seq<Fact>, st: State): State
    requires st.verification.Some?
  {
    var candidate := Candidate(d, st);
    if candidate.None? then SendPlain(st)
    else
      var recheck := Verify(d.critic, facts, candidate.value, Some(st.address));
      if Adoptable(d, recheck) then SendRewrite(st, recheck) else SendPlain(st)
  }

  function ExtraOf(d: Deps, st: State): Extra
    requires st.verification.Some?
  {
    if !st.sufficientData then InsufficientData
    else if st.attempts >= d.maxAttempts && !st.verification.value.approved then CapReached(d.maxAttempts)
    else NoExtra
  }

  /** What the `handoff` node asks `decide`. */
  function HandoffDecision(d: Deps, st: State): Decision
    requires st.verification.Some?
  {
    Decide(d.detectors, CaseOf(d, st, Some(HumanVerifies(ExtraOf(d, st)))))
  }

  /** The packet the `handoff` node forces when `decide` would have proceeded. */
  function ForcedPacket(d: Deps, st: State, score: Score): Packet
    requires st.verification.Some?
  {
    var result := st.verification.value;
    Packet(st.address, LOW_CONFIDENCE, score.score, CriticBlocked(result.reason, ExtraOf(d, st)), st.query,
           ["generated draft (attempt " + SignedDecimal(st.attempts) + ")", "critique", "fair_housing"],
           CitationsOf(result.claims), HumanVerifies(ExtraOf(d, st)), false)
  }

  function SignedDecimal(n: int): string
  {
    if n < 0 then "-" + Decimal(-n) else Decimal(n)
  }

  /** The one packet the `handoff` node pushes. */
  function HandoffPacketOf(d: Deps, st: State): Packet
    requires st.verification.Some?
  {
    var decision := HandoffDecision(d, st);
    if decision.Escalated() then decision.packet.value else ForcedPacket(d, st, decision.score)
  }

  /** The `handoff` node; `sinkSize` is the number of packets already in the sink. */
  function HandoffNode(d: Deps, st: State, sinkSize: nat): State
    requires st.verification.Some?
  {
    st.(outcome := Some(HandedOff), finalMessage := None, escalated := true,
        decision := Some(HandoffDecision(d, st)), handoffId := Some(HandoffId(sinkSize + 1)))
  }

  // ---- Whole runs ----

  /** How a run ends: the persisted state, the facts in the store, and the packets pushed. */
  datatype Final = Final(state: State, facts: seq<Fact>, packets: seq<Packet>)

  function Ingested(d: Deps, facts: seq<Fact>, address: string): seq<Fact>
  {
    IngestAll(facts, FactsFor(d.avm, address))
  }

  /** The terminal node the router chose. */
  function Finish(d: Deps, facts: seq<Fact>, st: State, sinkSize: nat): Final
    requires st.verification.Some? && st.decision.Some?
  {
    if RouteAfterDecide(d, st) == Send then Final(SendNode(d, facts, st), facts, [])
    else Final(HandoffNode(d, st, sinkSize), facts, [HandoffPacketOf(d, st)])
  }

  /** What `app.invoke` computes from the merged input state when no lookup of the rail raises. */
  function Run(d: Deps, facts: seq<Fact>, st: State, sinkSize: nat): Final
    decreases d.maxAttempts - st.attempts
  {
    var now := Ingested(d, facts, st.address);
    var next := Pass(d, now, st);
    if RouteAfterDecide(d, next) == Regenerate then Run(d, now, next, sinkSize)
    else Finish(d, now, next, sinkSize)
  }

  // ---- Turns that raise ----

  /** The key on which the rail's lookup raises during a pass, if it does: composing the draft, or scanning it. */
  function PassRaise(d: Deps, st: State): Option<string>
  {
    var key := ComposeRaise(d.avm, d.rail, st.address, ReviseFrom(st));
    if key.Some? then key else ScanRaise(d.rail, Compose(d.avm, d.rail, st.address, ReviseFrom(st)).draft)
  }

  /** The key on which the lookup raises in the `send` node, if it does: scanning the re-verified rewrite. */
  function SendRaise(d: Deps, facts: seq<Fact>, st: State): Option<string>
    requires st.verification.Some?
  {
    var candidate := Candidate(d, st);
    if candidate.None? then None
    else
      var recheck := Verify(d.critic, facts, candidate.value, Some(st.address));
      if Scanned(recheck) then ScanRaise(d.rail, recheck.approvedMessage.value) else None
  }

  /** How a turn ends: with a state and packets, or with a raised lookup, which leaves only the ingested facts. */
  datatype Turn = Raised(key: string, facts: seq<Fact>) | Finished(final: Final)
  {
    function Facts(): seq<Fact>
    {
      if Raised? then facts else final.facts
    }

    function Packets(): seq<Packet>
    {
      if Raised? then [] else final.packets
    }

    function Reply(): Result<State, string>
    {
      if Raised? then Err(key) else Ok(final.state)
    }
  }

  /** The end of a turn whose last pass left `st`. */
  function TurnEnd(d: Deps, facts: seq<Fact>, st: State, sinkSize: nat): Turn
    requires st.verification.Some? && st.decision.Some?
  {
    if RouteAfterDecide(d, st) == Send && SendRaise(d, facts, st).Some? then
      Raised(SendRaise(d, facts, st).value, facts)
    else Finished(Finish(d, facts, st, sinkSize))
  }

  /** What `app.invoke` does, raised lookups included. */
  function TurnOf(d: Deps, facts: seq<Fact>, st: State, sinkSize: nat): Turn
    decreases d.maxAttempts - st.attempts
  {
    var now := Ingested(d, facts, st.address);
    if PassRaise(d, st).Some? then Raised(PassRaise(d, st).value, now)
    else
      var next := Pass(d, now, st);
      if RouteAfterDecide(d, next) == Regenerate then TurnOf(d, now, next, sinkSize)
      else TurnEnd(d, now, next, sinkSize)
  }

  /** A pass, node by node. */
  lemma PassIs(d: Deps, facts: seq<Fact>, st: State)
    ensures var g := Compose(d.avm, d.rail, st.address, ReviseFrom(st));
            var s := st.(draft := g.draft, sufficientData := g.sufficientData, attempts := st.attempts + 1);
            var judged := CritiqueNode(s, Verify(d.critic, facts, g.draft, Some(st.address)));
            && judged.draft == g.draft && judged.verification.Some?
            && Pass(d, facts, st) == DecideNode(d, judged.(fairHousing := Some(Scan(d.rail, g.draft))))
  {
    hide Verify;
    hide Compose;
    hide DecideNode;
    hide Scan;
    hide CitationsOf;
  }

  class Orchestrator {
    const d: Deps
    const store: VectorStore
    const sink: HandoffSink

    ghost predicate Valid()
      reads this, store
    {
      store.Valid() && store.engine == d.critic.engine
    }

    constructor (d: Deps, store: VectorStore, sink: HandoffSink)
      requires store.Valid() && store.engine == d.critic.engine
      ensures Valid() && this.d == d && this.store == store && this.sink == sink
    {
      this.d, this.store, this.sink := d, store, sink;
    }

    /** The four nodes before the router, over the live store; the rail may raise. */
    method RunPass(st: State) returns (next: Result<State, string>)
      requires Valid()
      modifies store
      ensures Valid() && store.Contents() == Ingested(d, old(store.Contents()), st.address)
      ensures next == if PassRaise(d, st).Some? then Err(PassRaise(d, st).value) else Ok(Pass(d, store.Contents(), st))
    {
      hide Verify;
      hide Compose;
      hide ComposeRaise;
      hide CritiqueNode;
      hide DecideNode;
      hide ReviseFrom;
      hide Pass;
      hide IngestAll;
      hide Scan;
      hide ScanRaise;
      hide FactsFor;
      var g := GenerateDraft(d.avm, d.rail, store, st.address, ReviseFrom(st));
      if g.Err? {
        return Err(g.error);
      }
      var s := st.(draft := g.value.draft, sufficientData := g.value.sufficientData, attempts := st.attempts + 1);
      PassIs(d, store.Contents(), st);
      var result := VerifyDraft(d.critic, store, s.draft, Some(s.address));
      s := CritiqueNode(s, result);
      var scan := ScanOutput(d.rail, s.draft);
      if scan.Err? {
        return Err(scan.error);
      }
      s := s.(fairHousing := Some(scan.value));
      return Ok(DecideNode(d, s));
    }

    /** The `send` node; the scan of a rewrite may raise. */
    method SendMessage(st: State) returns (done: Result<State, string>)
      requires Valid() && st.verification.Some?
      ensures var key := SendRaise(d, store.Contents(), st);
              done == if key.Some? then Err(key.value) else Ok(SendNode(d, store.Contents(), st))
    {
      hide Verify;
      hide Candidate;
      hide Scan;
      hide ScanRaise;
      hide Blank;
      var candidate := Candidate(d, st);
      if candidate.None? {
        return Ok(SendPlain(st));
      }
      var recheck := VerifyDraft(d.critic, store, candidate.value, Some(st.address));
      if !Scanned(recheck) {
        return Ok(SendPlain(st));
      }
      var scan := ScanOutput(d.rail, recheck.approvedMessage.value);
      if scan.Err? {
        return Err(scan.error);
      }
      return Ok(if scan.value.allowed then SendRewrite(st, recheck) else SendPlain(st));
    }

    /** The `handoff` node: always exactly one packet reaches the sink. */
    method HandOver(st: State) returns (done: State)
      requires st.verification.Some?
      modifies sink
      ensures done == HandoffNode(d, st, |old(sink.packets)|)
      ensures sink.packets == old(sink.packets) + [HandoffPacketOf(d, st)]
    {
      hide Decide;
      hide HandoffId;
      hide ExtraOf;
      hide SignedDecimal;
      var decision, id := DecideInto(d.detectors, CaseOf(d, st, Some(HumanVerifies(ExtraOf(d, st)))), sink);
      if !decision.Escalated() {
        var forced := sink.Push(ForcedPacket(d, st, decision.score));
        id := Some(forced);
      }
      done := st.(outcome := Some(HandedOff), finalMessage := None, escalated := true,
                  decision := Some(decision), handoffId := id);
    }

    /** `app.invoke`: passes until the router leaves the loop, then the terminal node; a raised lookup ends it. */
    method Invoke(start: State) returns (done: Result<State, string>)
      requires Valid()
      modifies store, sink
      ensures Valid()
      ensures var t := TurnOf(d, old(store.Contents()), start, |old(sink.packets)|);
              done == t.Reply() && store.Contents() == t.Facts() && sink.packets == old(sink.packets) + t.Packets()
    {
      hide Pass;
      hide PassRaise;
      hide SendRaise;
      hide Ingested;
      hide RouteAfterDecide;
      hide SendNode;
      hide HandoffNode;
      hide HandoffPacketOf;
      ghost var wanted := TurnOf(d, store.Contents(), start, |sink.packets|);
      var pass := RunPass(start);
      if pass.Err? {
        return Err(pass.error);
      }
      var st := pass.value;
      while RouteAfterDecide(d, st) == Regenerate
        invariant Valid() && sink.packets == old(sink.packets)
        invariant st.verification.Some? && st.decision.Some?
        invariant wanted == (if RouteAfterDecide(d, st) == Regenerate
                             then TurnOf(d, store.Contents(), st, |sink.packets|)
                             else TurnEnd(d, store.Contents(), st, |sink.packets|))
        decreases d.maxAttempts - st.attempts
      {
        RegenerateUnderCap(d, st);
        pass := RunPass(st);
        if pass.Err? {
          return Err(pass.error);
        }
        st := pass.value;
      }
      if RouteAfterDecide(d, st) == Send {
        done := SendMessage(st);
      } else {
        var handed := HandOver(st);
        done := Ok(handed);
      }
    }
  }

  lemma RegenerateUnderCap(d: Deps, st: State)
    requires st.verification.Some? && st.decision.Some? && RouteAfterDecide(d, st) == Regenerate
    ensures st.attempts < d.maxAttempts
  {
  }
}
