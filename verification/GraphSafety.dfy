/** What every run of the agent loop keeps. */
module GraphSafety {
  import opened Options
  import opened Reals
  import opened Text
  import opened Decompose
  import opened Rebuild
  import opened RoundTrip
  import opened RebuildRail
  import opened Rag
  import opened Entailment
  import opened Critic
  import opened Confidence
  import opened FairHousing
  import opened Handoff
  import opened Generator
  import opened Graph

  /** What holds of the state between `decide` and the router, whatever the pass started from. */
  ghost predicate Decided(d: Deps, facts: seq<Fact>, st: State)
  {
    && st.verification == Some(Verify(d.critic, facts, st.draft, Some(st.address)))
    && st.fairHousing == Some(Scan(d.rail, st.draft))
    && st.decision == Some(Decide(d.detectors, CaseOf(d, st, None)))
    && st.citations == CitationsOf(st.verification.value.claims)
    && st.auditRows == st.verification.value.AuditRows()
  }

  lemma PassDecides(d: Deps, facts: seq<Fact>, st: State)
    ensures var r := Pass(d, facts, st);
            && Decided(d, facts, r)
            && r.address == st.address && r.query == st.query && r.attempts == st.attempts + 1
            && r.draft == Compose(d.avm, d.rail, st.address, ReviseFrom(st)).draft
            && r.sufficientData == Compose(d.avm, d.rail, st.address, ReviseFrom(st)).sufficientData
  {
    hide Verify;
    hide Compose;
    hide Decide;
    hide Scan;
  }

  /** Every run ends: the state the last pass left, and how many passes it took. */
  lemma {:induction false} RunEnds(d: Deps, facts: seq<Fact>, st: State, sinkSize: nat)
    returns (now: seq<Fact>, last: State)
    ensures Decided(d, now, last)
    ensures RouteAfterDecide(d, last) != Regenerate
    ensures Run(d, facts, st, sinkSize) == Finish(d, now, last, sinkSize)
    ensures last.address == st.address && last.query == st.query
    ensures st.attempts < last.attempts
    ensures last.attempts == st.attempts + 1 || last.attempts <= d.maxAttempts
    decreases d.maxAttempts - st.attempts
  {
    hide Verify;
    hide Decide;
    hide Scan;
    hide Ingested;
    hide Pass;
    hide Finish;
    now := Ingested(d, facts, st.address);
    last := Pass(d, now, st);
    PassDecides(d, now, st);
    if RouteAfterDecide(d, last) == Regenerate {
      RegenerateUnderCap(d, last);
      now, last := RunEnds(d, now, last, sinkSize);
    }
  }

  // ---- Sends ----

  /** The state describes a message that was verified claim by claim against the store. */
  ghost predicate Verified(d: Deps, facts: seq<Fact>, st: State)
  {
    && st.verification.Some?
    && var v := st.verification.value;
    && v.approved && v.claims != [] && AllSupported(v.claims)
    && st.finalMessage == Some(RebuildMessage(Texts(v.claims)))
    && st.citations == CitationsOf(v.claims)
    && st.auditRows == v.AuditRows()
    && forall c :: c in v.claims ==> Cited(d.critic.engine, facts, Some(st.address), c)
  }

  lemma ApprovedIsVerified(d: Deps, facts: seq<Fact>, text: string, st: State)
    requires st.verification == Some(Verify(d.critic, facts, text, Some(st.address)))
    requires st.verification.value.claims != [] && st.verification.value.approved
    requires st.finalMessage == st.verification.value.approvedMessage
    requires st.citations == CitationsOf(st.verification.value.claims)
    requires st.auditRows == st.verification.value.AuditRows()
    ensures Verified(d, facts, st)
  {
    hide Verify;
    hide SplitSpec;
    hide RebuildMessage;
    hide Cited;
    VerifyMeans(d.critic, facts, text, Some(st.address));
    var v := st.verification.value;
    forall c | c in v.claims
      ensures Cited(d.critic.engine, facts, Some(st.address), c)
    {
      CitationsAreStored(d.critic, facts, text, Some(st.address), c);
      var i :| 0 <= i < |v.claims| && v.claims[i] == c;
      assert v.claims[i].Supported();
    }
  }

  /** The router sends only what the Critic approved and the rail allowed. */
  lemma SendMeansApproved(d: Deps, st: State)
    requires st.verification.Some? && st.decision.Some? && RouteAfterDecide(d, st) == Send
    ensures st.sufficientData && st.verification.value.claims != [] && st.verification.value.approved
    ensures !st.decision.value.Escalated()
    ensures st.fairHousing.None? || st.fairHousing.value.allowed
  {
  }

  lemma SendNodeVerified(d: Deps, facts: seq<Fact>, st: State)
    requires Decided(d, facts, st) && RouteAfterDecide(d, st) == Send
    ensures var r := SendNode(d, facts, st); Verified(d, facts, r) && r.outcome == Some(Sent) && !r.escalated
  {
    hide Verify;
    hide Decide;
    hide Scan;
    hide Candidate;
    hide Verified;
    hide CaseOf;
    SendMeansApproved(d, st);
    var candidate := Candidate(d, st);
    var r := SendNode(d, facts, st);
    if candidate.Some? && Adoptable(d, Verify(d.critic, facts, candidate.value, Some(st.address))) {
      VerifyMeans(d.critic, facts, candidate.value, Some(st.address));
      var v := Verify(d.critic, facts, candidate.value, Some(st.address));
      assert v.claims != [];
      ApprovedIsVerified(d, facts, candidate.value, r);
    } else {
      ApprovedIsVerified(d, facts, st.draft, r);
    }
  }

  /**
   * Send safety over whole runs: wherever a run starts and whatever a rewrite does, a run that ends in
   * `send` holds a verification with at least one claim, all of them entailed and citing a stored fact
   * scoped to the address; the message is the rebuild of exactly those claims; and the citations and
   * audit rows are those of that verification. No packet was pushed.
   */
  lemma SentIsVerified(d: Deps, facts: seq<Fact>, st: State, sinkSize: nat)
    requires Run(d, facts, st, sinkSize).state.outcome == Some(Sent)
    ensures var r := Run(d, facts, st, sinkSize);
            Verified(d, r.facts, r.state) && !r.state.escalated && r.packets == []
  {
    hide Verified;
    hide Run;
    hide SendNode;
    hide RouteAfterDecide;
    hide Decided;
    hide HandoffPacketOf;
    var now, last := RunEnds(d, facts, st, sinkSize);
    assert Decided(d, now, last);
    assert last.verification.Some? && last.decision.Some? by {
      DecidedHas(d, now, last);
    }
    if RouteAfterDecide(d, last) == Send {
      SendNodeVerified(d, now, last);
    }
  }

  lemma DecidedHas(d: Deps, facts: seq<Fact>, st: State)
    requires Decided(d, facts, st)
    ensures st.verification.Some? && st.decision.Some?
  {
  }

  /** The rail scanned the draft, or the adopted rewrite; what it let through is what is sent. */
  lemma SendNodePassesRail(d: Deps, facts: seq<Fact>, st: State)
    requires ValidRail(d.rail)
    requires Decided(d, facts, st) && RouteAfterDecide(d, st) == Send
    ensures var r := SendNode(d, facts, st); r.finalMessage.Some? && Scan(d.rail, r.finalMessage.value).allowed
  {
    hide Verify;
    hide Decide;
    hide Scan;
    hide Candidate;
    hide CaseOf;
    hide SplitSpec;
    hide RebuildMessage;
    hide ValidRail;
    SendMeansApproved(d, st);
    VerifyMeans(d.critic, facts, st.draft, Some(st.address));
    var claims := SplitSpec(st.draft);
    assert |claims| == |st.verification.value.claims|;
    RebuildPassesRail(d.rail, st.draft, claims);
  }

  /**
   * Every sent message passes the Fair Housing scan, although the scan ran on the draft and the message
   * is a rebuild of its claims: no deny-listed phrase occurs in it as whole words.
   */
  lemma SentPassesFairHousing(d: Deps, facts: seq<Fact>, st: State, sinkSize: nat)
    requires ValidRail(d.rail)
    requires Run(d, facts, st, sinkSize).state.outcome == Some(Sent)
    ensures var message := Run(d, facts, st, sinkSize).state.finalMessage;
            message.Some? && NoHit(d.rail, message.value)
  {
    hide Run;
    hide SendNode;
    hide RouteAfterDecide;
    hide Decided;
    hide HandoffPacketOf;
    hide Scan;
    hide NoHit;
    hide ValidRail;
    var now, last := RunEnds(d, facts, st, sinkSize);
    DecidedHas(d, now, last);
    if RouteAfterDecide(d, last) == Send {
      SendNodePassesRail(d, now, last);
      ScanIsExact(d.rail, SendNode(d, now, last).finalMessage.value);
    }
  }

  // ---- Regenerate passes ----

  lemma RebuildNotBlank(claims: seq<string>)
    ensures !Blank(RebuildMessage(claims))
  {
    var m := RebuildMessage(claims);
    assert m[|m| - 1] == '.';
    assert !(Leading(m, WHITESPACE) == |m|);
    var l := StripLeft(m, WHITESPACE);
    assert l[|l| - 1] == '.';
    assert Trailing(l, WHITESPACE) == 0;
  }

  lemma RegenerateMeans(d: Deps, st: State)
    requires st.verification.Some? && st.decision.Some? && RouteAfterDecide(d, st) == Regenerate
    ensures st.sufficientData && st.verification.value.approvedMessage.Some?
    ensures st.fairHousing.None? || st.fairHousing.value.allowed
  {
  }

  /** A pass that follows a regenerate never newly trips the rail, and still has sufficient data. */
  lemma RegeneratedPassesRail(d: Deps, facts: seq<Fact>, now: seq<Fact>, st: State)
    requires ValidRail(d.rail)
    requires Decided(d, facts, st) && RouteAfterDecide(d, st) == Regenerate
    requires st.attempts >= 1 && d.avm.value(st.address).Some?
    ensures var next := Pass(d, now, st); next.fairHousing.Some? && next.fairHousing.value.allowed
  {
    hide Verify;
    hide Decide;
    hide Scan;
    hide CaseOf;
    hide SplitSpec;
    hide RebuildMessage;
    hide Blank;
    hide KeptSentences;
    hide ValidRail;
    RegenerateMeans(d, st);
    VerifyMeans(d.critic, facts, st.draft, Some(st.address));
    var kept := SupportedTexts(st.verification.value.claims);
    RebuildNotBlank(kept);
    RebuildPassesRail(d.rail, st.draft, kept);
    PassDecides(d, now, st);
  }

  /** A draft composed from kept sentences is clean when each ends in a full stop. */
  lemma KeptDraftIsClean(rail: Rail, facts: seq<Fact>)
    requires ValidRail(rail)
    requires forall s :: s in KeptSentences(rail, facts) ==> s != "" && s[|s| - 1] == '.'
    ensures Scan(rail, Join(" ", KeptSentences(rail, facts))).allowed
  {
    hide NoHit;
    hide Scan;
    hide ValidRail;
    hide Join;
    var kept := KeptSentences(rail, facts);
    forall s | s in kept
      ensures NoHit(rail, s)
    {
      KeptAreClean(rail, facts, s);
      ScanIsExact(rail, s);
    }
    hide KeptSentences;
    JoinKeepsNoHit(rail, kept);
    ScanIsExact(rail, Join(" ", kept));
  }

  lemma FirstDraftIsClean(avm: Avm, rail: Rail, address: string)
    requires ValidRail(rail)
    ensures Scan(rail, Join(" ", KeptSentences(rail, FactsFor(avm, address)))).allowed
  {
    hide Scan;
    hide ValidRail;
    hide FactsFor;
    hide KeptSentences;
    hide Join;
    var all := FactsFor(avm, address);
    forall s | s in KeptSentences(rail, all)
      ensures s != "" && s[|s| - 1] == '.'
    {
      KeptAreClean(rail, all, s);
      var f :| f in all && f.content == s;
      FactsEndInStop(avm, address, f);
    }
    KeptDraftIsClean(rail, all);
  }

  /** What the first pass of a turn drafts. */
  lemma FirstPassDraft(d: Deps, facts: seq<Fact>, st: State)
    requires st.attempts == 0
    ensures Pass(d, facts, st).draft ==
            if d.avm.value(st.address).None? then NoCoverageDraft(st.address)
            else Join(" ", KeptSentences(d.rail, FactsFor(d.avm, st.address)))
  {
    hide Pass;
    hide KeptSentences;
    hide FactsFor;
    hide NoCoverageDraft;
    PassDecides(d, facts, st);
    hide Decided;
  }

  lemma DecidedScan(d: Deps, facts: seq<Fact>, st: State)
    requires Decided(d, facts, st)
    ensures st.fairHousing == Some(Scan(d.rail, st.draft))
  {
  }

  /**
   * The rail never stops a covered address: the first draft is made of sentences it let through, and every later
   * one of their survivors.
   */
  lemma CoveredNeverTrips(d: Deps, facts: seq<Fact>, st: State, sinkSize: nat)
    requires ValidRail(d.rail) && st.attempts == 0 && d.avm.value(st.address).Some?
    ensures var fh := Run(d, facts, st, sinkSize).state.fairHousing; fh.Some? && fh.value.allowed
  {
    hide Scan;
    hide Pass;
    hide Ingested;
    hide RouteAfterDecide;
    hide Finish;
    hide ValidRail;
    hide Decided;
    var now := Ingested(d, facts, st.address);
    var next := Pass(d, now, st);
    PassDecides(d, now, st);
    FirstPassDraft(d, now, st);
    FirstDraftIsClean(d.avm, d.rail, st.address);
    DecidedScan(d, now, next);
    if RouteAfterDecide(d, next) == Regenerate {
      LaterPassesAllowed(d, now, now, next, sinkSize);
    } else {
      FinishKeeps(d, now, next, sinkSize);
    }
  }

  /** Without coverage a turn makes one pass, over the fixed draft that says so, and hands off. */
  lemma UncoveredHandsOff(d: Deps, facts: seq<Fact>, st: State, sinkSize: nat)
    requires st.attempts == 0 && d.avm.value(st.address).None?
    ensures var r := Run(d, facts, st, sinkSize);
            && r.state.attempts == 1 && r.state.outcome == Some(HandedOff)
            && r.state.fairHousing == Some(Scan(d.rail, NoCoverageDraft(st.address)))
  {
    hide Scan;
    hide Pass;
    hide Ingested;
    hide Decided;
    hide HandoffPacketOf;
    hide HandoffDecision;
    hide NoCoverageDraft;
    var now := Ingested(d, facts, st.address);
    var next := Pass(d, now, st);
    PassDecides(d, now, st);
    FirstPassDraft(d, now, st);
    DecidedScan(d, now, next);
    DecidedHas(d, now, next);
    CoveredWhenSufficient(d, now, st);
  }

  /**
   * When the rail stops a turn: exactly when the address is not covered and the fixed no-coverage draft about it
   * holds a listed phrase; the turn then made one pass.
   */
  lemma RailTripsIff(d: Deps, facts: seq<Fact>, st: State, sinkSize: nat)
    requires ValidRail(d.rail) && st.attempts == 0
    ensures var r := Run(d, facts, st, sinkSize);
            && r.state.fairHousing.Some?
            && (!r.state.fairHousing.value.allowed <==>
                  d.avm.value(st.address).None? && !Scan(d.rail, NoCoverageDraft(st.address)).allowed)
            && (!r.state.fairHousing.value.allowed ==> r.state.attempts == 1 && r.state.outcome == Some(HandedOff))
  {
    hide *;
    if d.avm.value(st.address).Some? {
      CoveredNeverTrips(d, facts, st, sinkSize);
    } else {
      UncoveredHandsOff(d, facts, st, sinkSize);
    }
  }

  lemma TrimTwice(s: string)
    ensures Trim(Trim(s)) == Trim(s)
  {
    StripEnds(s, WHITESPACE);
    StripIdentity(Trim(s), WHITESPACE);
  }

  lemma SplitIgnoresEnds(s: string)
    ensures SplitSpec(Trim(s)) == SplitSpec(s)
  {
    hide Strip;
    hide Sentences;
    hide ClaimsOf;
    TrimTwice(s);
  }

  /** The claims of `next` are the supported claims of `v`, each with one full stop, unless one begins with a comma. */
  ghost predicate SurvivorsOf(v: Verification, next: Verification)
  {
    var kept := SupportedTexts(v.claims);
    && kept != [] && |next.claims| == |kept| && |kept| <= |v.claims|
    && (Texts(next.claims) == MapNormalised(kept) <==> forall c :: c in kept ==> c != "" && c[0] != ',')
  }

  ghost predicate JudgesSurvivors(st: State, next: State)
  {
    st.verification.Some? && next.verification.Some? && SurvivorsOf(st.verification.value, next.verification.value)
  }

  /** The draft of a pass that follows a regenerate. */
  lemma RetryDraft(d: Deps, facts: seq<Fact>, st: State)
    requires st.attempts >= 1 && d.avm.value(st.address).Some? && st.verification.Some?
    requires var m := st.verification.value.approvedMessage; m.Some? && !Blank(m.value)
    ensures Pass(d, facts, st).draft == Trim(st.verification.value.approvedMessage.value)
  {
    hide Pass;
    hide Blank;
    hide Trim;
    hide KeptSentences;
    PassDecides(d, facts, st);
    hide Decided;
  }

  /**
   * A pass that follows a regenerate judges exactly the previous pass's supported claims, in order, each with
   * one full stop, if and only if none begins with a comma; their number is kept in every case.
   */
  lemma RetryJudgesSurvivors(d: Deps, facts: seq<Fact>, now: seq<Fact>, st: State)
    requires Decided(d, facts, st) && RouteAfterDecide(d, st) == Regenerate
    requires st.attempts >= 1 && d.avm.value(st.address).Some?
    ensures JudgesSurvivors(st, Pass(d, now, st))
  {
    hide *;
    DecidedVerifies(d, facts, st);
    DecidedHas(d, facts, st);
    RegenerateMeans(d, st);
    var next := Pass(d, now, st);
    PassDecides(d, now, st);
    DecidedVerifies(d, now, next);
    SurvivorsAreJudged(d.critic, facts, now, st.draft, Some(st.address));
    RetryDraft(d, now, st);
    Survivors(st, next);
  }

  lemma Survivors(st: State, next: State)
    requires st.verification.Some? && next.verification.Some?
    requires SurvivorsOf(st.verification.value, next.verification.value)
    ensures JudgesSurvivors(st, next)
  {
  }

  /** The same about the two verifications, the second of the message the first let through. */
  lemma SurvivorsAreJudged(c: Critic, facts: seq<Fact>, now: seq<Fact>, draft: string, address: Option<string>)
    requires Verify(c, facts, draft, address).approvedMessage.Some?
    ensures var v := Verify(c, facts, draft, address);
            !Blank(v.approvedMessage.value) && SurvivorsOf(v, Verify(c, now, Trim(v.approvedMessage.value), address))
  {
    hide Verify;
    hide SplitSpec;
    hide RebuildMessage;
    hide MapNormalised;
    hide SupportedTexts;
    hide Blank;
    hide Trim;
    var v := Verify(c, facts, draft, address);
    var kept := SupportedTexts(v.claims);
    VerifyMeans(c, facts, draft, address);
    RebuildNotBlank(kept);
    SplitIgnoresEnds(RebuildMessage(kept));
    VerifyMeans(c, now, Trim(RebuildMessage(kept)), address);
    RebuildThenSplit(draft, kept);
    SupportedTextsCount(v.claims);
  }

  lemma DecidedVerifies(d: Deps, facts: seq<Fact>, st: State)
    requires Decided(d, facts, st)
    ensures st.verification == Some(Verify(d.critic, facts, st.draft, Some(st.address)))
  {
  }

  /** The states a run's passes leave before the router, in order. */
  function Passes(d: Deps, facts: seq<Fact>, st: State): seq<State>
    decreases d.maxAttempts - st.attempts
  {
    var now := Ingested(d, facts, st.address);
    var next := Pass(d, now, st);
    [next] + (if RouteAfterDecide(d, next) == Regenerate then RegenerateUnderCap(d, next); Passes(d, now, next) else [])
  }

  /**
   * Over a whole run: every pass but the first judges exactly the survivors of the pass before, in the sense
   * above, so no pass judges more claims than the one before it; and the run makes as many passes as it counts.
   */
  lemma {:induction false} EveryRetryJudgesSurvivors(d: Deps, facts: seq<Fact>, st: State, sinkSize: nat)
    requires st.attempts >= 0
    ensures var ps := Passes(d, facts, st);
            && |ps| > 0 && |ps| == Run(d, facts, st, sinkSize).state.attempts - st.attempts
            && forall i :: 0 <= i < |ps| - 1 ==> JudgesSurvivors(ps[i], ps[i + 1])
    decreases d.maxAttempts - st.attempts
  {
    hide Pass;
    hide Ingested;
    hide RouteAfterDecide;
    hide Finish;
    hide Decided;
    hide JudgesSurvivors;
    var now := Ingested(d, facts, st.address);
    var next := Pass(d, now, st);
    PassDecides(d, now, st);
    if RouteAfterDecide(d, next) == Regenerate {
      RegenerateUnderCap(d, next);
      CoveredWhenSufficient(d, now, st);
      RegenerateMeans(d, next);
      RetryJudgesSurvivors(d, now, Ingested(d, now, next.address), next);
      EveryRetryJudgesSurvivors(d, now, next, sinkSize);
      var rest := Passes(d, now, next);
      assert Passes(d, facts, st) == [next] + rest;
      assert rest[0] == Pass(d, Ingested(d, now, next.address), next);
    } else {
      FinishKeeps(d, now, next, sinkSize);
    }
  }

  lemma CoveredWhenSufficient(d: Deps, facts: seq<Fact>, st: State)
    ensures Pass(d, facts, st).sufficientData <==> d.avm.value(st.address).Some?
  {
    hide Scan;
    hide Verify;
    hide Decide;
    hide KeptSentences;
    hide Blank;
  }

  lemma FinishKeeps(d: Deps, facts: seq<Fact>, st: State, sinkSize: nat)
    requires st.verification.Some? && st.decision.Some?
    ensures var r := Finish(d, facts, st, sinkSize);
            r.state.fairHousing == st.fairHousing && r.state.attempts == st.attempts
  {
    hide Scan;
    hide Verify;
    hide Decide;
    hide RouteAfterDecide;
    hide Candidate;
    hide HandoffPacketOf;
  }

  lemma {:induction false} LaterPassesAllowed(d: Deps, before: seq<Fact>, facts: seq<Fact>, st: State, sinkSize: nat)
    requires ValidRail(d.rail) && st.attempts >= 1 && d.avm.value(st.address).Some?
    requires Decided(d, before, st) && RouteAfterDecide(d, st) == Regenerate
    ensures var fh := Run(d, facts, st, sinkSize).state.fairHousing; fh.Some? && fh.value.allowed
    decreases d.maxAttempts - st.attempts
  {
    hide Scan;
    hide Pass;
    hide Ingested;
    hide RouteAfterDecide;
    hide Finish;
    hide ValidRail;
    hide Decided;
    DecidedHas(d, before, st);
    RegenerateUnderCap(d, st);
    var now := Ingested(d, facts, st.address);
    var next := Pass(d, now, st);
    PassDecides(d, now, st);
    RegeneratedPassesRail(d, before, now, st);
    if RouteAfterDecide(d, next) == Regenerate {
      LaterPassesAllowed(d, now, now, next, sinkSize);
    } else {
      FinishKeeps(d, now, next, sinkSize);
    }
  }

  // ---- Packets and termination ----

  /**
   * Packet conservation and the attempt cap: a run started with no attempts makes between one and
   * max(1, max_attempts) passes, ends in `send` or `handoff`, pushes no packet when it sends and
   * exactly one when it hands off.
   */
  lemma PacketsAndPasses(d: Deps, facts: seq<Fact>, st: State, sinkSize: nat)
    requires st.attempts == 0
    ensures var r := Run(d, facts, st, sinkSize);
            && 1 <= r.state.attempts <= (if d.maxAttempts > 1 then d.maxAttempts else 1)
            && r.state.outcome.Some?
            && (r.state.outcome == Some(Sent) ==> r.packets == [] && !r.state.escalated)
            && (r.state.outcome == Some(HandedOff) ==>
                  |r.packets| == 1 && r.state.escalated && r.state.finalMessage == None
                  && r.state.handoffId == Some(HandoffId(sinkSize + 1)))
  {
    hide Run;
    hide Decided;
    hide Verify;
    hide Scan;
    hide Candidate;
    hide RouteAfterDecide;
    hide Adoptable;
    hide HandoffPacketOf;
    hide HandoffDecision;
    hide HandoffId;
    var now, last := RunEnds(d, facts, st, sinkSize);
    DecidedHas(d, now, last);
    FinishKeeps(d, now, last, sinkSize);
  }

  /** The pushed packet describes the state the run ended in. */
  ghost predicate Describes(d: Deps, st: State, p: Packet)
  {
    && st.verification.Some?
    && var hard := FirstTrigger(d.detectors, CaseOf(d, st, None));
    && p.leadId == st.address && p.transcript == st.query
    && p.retrievedEvidence == st.citations
    && p.confidence == Composite(st.verification.value, None, false).score
    && p.hardTrigger == hard.Some?
    && p.trigger == (if hard.Some? then hard.value else LOW_CONFIDENCE)
  }

  lemma HandoffPacketDescribes(d: Deps, facts: seq<Fact>, st: State)
    requires Decided(d, facts, st)
    ensures Describes(d, st, HandoffPacketOf(d, st))
  {
    hide Verify;
    hide Scan;
    hide Composite;
    hide CitationsOf;
    hide ExtraOf;
    hide SignedDecimal;
  }

  /**
   * Every run that hands off pushes a packet that describes where it stopped: the address and query, the
   * citations of the last verification, its composite score, and the hard trigger that fired, if one did.
   */
  lemma HandedOffPacketIsFaithful(d: Deps, facts: seq<Fact>, st: State, sinkSize: nat)
    requires Run(d, facts, st, sinkSize).state.outcome == Some(HandedOff)
    ensures var r := Run(d, facts, st, sinkSize);
            && r.state.address == st.address && r.state.query == st.query
            && |r.packets| == 1 && Describes(d, r.state, r.packets[0])
  {
    hide Run;
    hide HandoffPacketOf;
    hide HandoffDecision;
    hide RouteAfterDecide;
    hide Candidate;
    hide Adoptable;
    hide Verify;
    hide Scan;
    hide Composite;
    hide Decided;
    hide FirstTrigger;
    var now, last := RunEnds(d, facts, st, sinkSize);
    DecidedHas(d, now, last);
    HandoffPacketDescribes(d, now, last);
    assert RouteAfterDecide(d, last) != Send;
  }

  /**
   * Why the packet was pushed. The recommendation says insufficient data exactly when the valuation found none, and
   * names the cap exactly when it ended the run; the Critic's reason stands, with the steps done, exactly when neither
   * a hard trigger nor the score under the threshold is to be reported.
   */
  ghost predicate TellsWhy(d: Deps, st: State, p: Packet)
  {
    && st.verification.Some? && st.attempts >= 0 && p.recommended.HumanVerifies?
    && var v, extra := st.verification.value, p.recommended.extra;
    && (extra.InsufficientData? <==> !st.sufficientData)
    && (extra.CapReached? <==> st.sufficientData && st.attempts >= d.maxAttempts && !v.approved)
    && (extra.CapReached? ==> extra.maxAttempts == d.maxAttempts)
    && (p.why.HardTrigger? <==> p.hardTrigger)
    && (p.why.HardTrigger? ==> p.why.trigger == p.trigger)
    && (p.why.BelowOpsThreshold? <==> !p.hardTrigger && p.confidence < d.confidenceThreshold)
    && (p.why.BelowOpsThreshold? ==> p.why.score == p.confidence && p.why.threshold == d.confidenceThreshold)
    && (p.why.CriticBlocked? ==>
          && p.why.critic == v.reason && p.why.extra == extra
          && p.completedSteps ==
             ["generated draft (attempt " + Decimal(st.attempts) + ")", "critique", "fair_housing"])
    && (!p.why.CriticBlocked? ==> p.completedSteps == [])
  }

  lemma ExtraIs(d: Deps, st: State)
    requires st.verification.Some?
    ensures var extra := ExtraOf(d, st);
            && (extra.InsufficientData? <==> !st.sufficientData)
            && (extra.CapReached? <==>
                  st.sufficientData && st.attempts >= d.maxAttempts && !st.verification.value.approved)
            && (extra.CapReached? ==> extra.maxAttempts == d.maxAttempts)
  {
  }

  lemma HandoffPacketTellsWhy(d: Deps, st: State)
    requires st.verification.Some? && st.attempts >= 0
    ensures TellsWhy(d, st, HandoffPacketOf(d, st))
  {
    ExtraIs(d, st);
    hide Composite;
    hide CitationsOf;
    hide ExtraOf;
    hide Decimal;
  }

  /** The packet of a run that hands off tells why it stopped. */
  lemma PacketTellsWhy(d: Deps, facts: seq<Fact>, st: State, sinkSize: nat)
    requires Run(d, facts, st, sinkSize).state.outcome == Some(HandedOff) && st.attempts >= 0
    ensures var r := Run(d, facts, st, sinkSize); |r.packets| == 1 && TellsWhy(d, r.state, r.packets[0])
  {
    hide Run;
    hide HandoffPacketOf;
    hide HandoffDecision;
    hide RouteAfterDecide;
    hide Candidate;
    hide Adoptable;
    hide Verify;
    hide Decided;
    var now, last := RunEnds(d, facts, st, sinkSize);
    DecidedHas(d, now, last);
    HandoffPacketTellsWhy(d, last);
    assert RouteAfterDecide(d, last) != Send;
  }

  /** The query alone fires one of the text detectors. */
  predicate HardQuery(d: Deps, query: string)
  {
    d.detectors.legalUpl(query) || d.detectors.humanRequest(query) || d.detectors.hostile(query)
  }

  lemma HardQueryDecision(d: Deps, st: State, recommended: Option<Action>)
    requires HardQuery(d, st.query) && st.verification.Some?
    ensures var decision := Decide(d.detectors, CaseOf(d, st, recommended));
            decision.Escalated() && decision.packet.value.hardTrigger && decision.packet.value.trigger.IsHard()
  {
    hide Composite;
    EscalatesIff(d.detectors, CaseOf(d, st, recommended));
  }

  /** A query that fires a hard trigger ends after one pass, with one hard-trigger packet. */
  lemma HardQueryEndsAtOnce(d: Deps, facts: seq<Fact>, st: State, sinkSize: nat)
    requires HardQuery(d, st.query)
    ensures var r := Run(d, facts, st, sinkSize);
            && r.state.attempts == st.attempts + 1
            && r.state.outcome == Some(HandedOff)
            && |r.packets| == 1 && r.packets[0].hardTrigger && r.packets[0].trigger.IsHard()
  {
    hide Pass;
    hide Ingested;
    hide Decide;
    hide Scan;
    hide Verify;
    hide CaseOf;
    var now := Ingested(d, facts, st.address);
    var next := Pass(d, now, st);
    PassDecides(d, now, st);
    HardQueryDecision(d, next, None);
    HardQueryDecision(d, next, Some(HumanVerifies(ExtraOf(d, next))));
    assert RouteAfterDecide(d, next) == HandOff;
  }

  // ---- Thresholds ----

  /**
   * With a Critic floor of at least 0.6 and an operations threshold of at most 0.78 (the defaults are 0.6
   * and 0.6), the router sends exactly when data is sufficient, there are claims, the Critic approved, and
   * no hard trigger fired: the composite score never decides.
   */
  lemma SendsIff(d: Deps, facts: seq<Fact>, st: State)
    requires Decided(d, facts, st)
    requires d.critic.threshold >= 0.6 && d.confidenceThreshold <= 0.78
    ensures RouteAfterDecide(d, st) == Send <==>
            && st.sufficientData
            && st.verification.value.claims != []
            && st.verification.value.approved
            && FirstTrigger(d.detectors, CaseOf(d, st, None)).None?
  {
    hide Verify;
    hide Decide;
    hide Gate;
    hide SplitSpec;
    hide RebuildMessage;
    hide HitsFrom;
    var v := st.verification.value;
    var q := CaseOf(d, st, None);
    VerifyMeans(d.critic, facts, st.draft, Some(st.address));
    EscalatesIff(d.detectors, q);
    if v.claims != [] && v.approved {
      VerifyIsGate(d.critic, facts, st.draft, Some(st.address));
      ApprovedEscalatesOnlyHard(d.detectors, q, d.critic.threshold, v.claims);
      assert v.claims[0].Supported();
      assert v.claims[0] in v.claims;
    }
  }

  lemma VerifyIsGate(c: Critic, facts: seq<Fact>, draft: string, address: Option<string>)
    requires Verify(c, facts, draft, address).claims != []
    ensures var v := Verify(c, facts, draft, address); v == Gate(c.threshold, v.claims)
  {
    hide JudgeClaim;
    hide Round4;
    hide RebuildMessage;
    hide SplitSpec;
  }

  // ---- Turn isolation ----

  /** The parts of the persisted state a pass reads before it writes them. */
  ghost predicate SameInput(a: State, b: State)
  {
    && a.address == b.address && a.query == b.query && a.attempts == b.attempts
    && (a.attempts >= 1 ==> a.verification == b.verification)
  }

  /** Equal but for the terminal fields, which every terminal node overwrites or leaves. */
  ghost predicate SamePass(a: State, b: State)
  {
    a.(outcome := b.outcome, finalMessage := b.finalMessage, escalated := b.escalated, handoffId := b.handoffId) == b
  }

  lemma PassForgets(d: Deps, facts: seq<Fact>, a: State, b: State)
    requires SameInput(a, b)
    ensures SamePass(Pass(d, facts, a), Pass(d, facts, b))
  {
    hide Verify;
    hide Compose;
    hide Decide;
    hide Scan;
    assert ReviseFrom(a) == ReviseFrom(b);
  }

  lemma SamePassRoutes(d: Deps, a: State, b: State)
    requires SamePass(a, b) && a.verification.Some? && a.decision.Some?
    ensures b.verification.Some? && b.decision.Some? && RouteAfterDecide(d, a) == RouteAfterDecide(d, b)
  {
  }

  lemma FinishForgets(d: Deps, facts: seq<Fact>, a: State, b: State, sinkSize: nat)
    requires SamePass(a, b) && a.verification.Some? && a.decision.Some? && b.verification.Some? && b.decision.Some?
    ensures var x, y := Finish(d, facts, a, sinkSize), Finish(d, facts, b, sinkSize);
            && x.state.(handoffId := y.state.handoffId) == y.state
            && x.facts == y.facts && x.packets == y.packets
            && (x.state.outcome == Some(HandedOff) ==> x.state == y.state)
  {
    hide Verify;
    hide Scan;
    hide Decide;
    hide RouteAfterDecide;
    hide Naturalize;
    hide Blank;
    hide SignedDecimal;
    SamePassRoutes(d, a, b);
    assert Candidate(d, a) == Candidate(d, b);
    assert CaseOf(d, a, None) == CaseOf(d, b, None);
    assert ExtraOf(d, a) == ExtraOf(d, b);
    assert HandoffDecision(d, a) == HandoffDecision(d, b);
  }

  lemma {:induction false} RunsAgree(d: Deps, facts: seq<Fact>, a: State, b: State, sinkSize: nat)
    requires SameInput(a, b)
    ensures var x, y := Run(d, facts, a, sinkSize), Run(d, facts, b, sinkSize);
            && x.state.(handoffId := y.state.handoffId) == y.state
            && x.facts == y.facts && x.packets == y.packets
            && (x.state.outcome == Some(HandedOff) ==> x.state == y.state)
    decreases d.maxAttempts - a.attempts
  {
    hide Pass;
    hide Ingested;
    hide RouteAfterDecide;
    hide Finish;
    var now := Ingested(d, facts, a.address);
    var p, q := Pass(d, now, a), Pass(d, now, b);
    PassForgets(d, now, a, b);
    SamePassRoutes(d, p, q);
    if RouteAfterDecide(d, p) == Regenerate {
      RegenerateUnderCap(d, p);
      RunsAgree(d, now, p, q, sinkSize);
    } else {
      FinishForgets(d, now, p, q, sinkSize);
    }
  }

  /**
   * Turn isolation: with the store fixed, a turn started with attempts reset to 0 gives the same outcome,
   * message, citations, audit rows and packet whatever an earlier turn left in the thread. Only the
   * handoff id may differ, and only when the turn sends.
   */
  lemma TurnsAreIsolated(d: Deps, facts: seq<Fact>, a: State, b: State, sinkSize: nat)
    requires a.address == b.address && a.query == b.query && a.attempts == 0 && b.attempts == 0
    ensures var x, y := Run(d, facts, a, sinkSize), Run(d, facts, b, sinkSize);
            && x.state.(handoffId := y.state.handoffId) == y.state
            && x.facts == y.facts && x.packets == y.packets
            && (x.state.handoffId == y.state.handoffId || x.state.outcome == Some(Sent))
  {
    hide Run;
    RunsAgree(d, facts, a, b, sinkSize);
    PacketsAndPasses(d, facts, a, sinkSize);
    var x := Run(d, facts, a, sinkSize);
    assert x.state.outcome.value == Sent || x.state.outcome.value == HandedOff;
  }

  /** A turn that sends keeps whatever handoff id an earlier turn left: no node clears it. */
  lemma SentKeepsOldHandoffId(d: Deps, facts: seq<Fact>, st: State, sinkSize: nat)
    requires Run(d, facts, st, sinkSize).state.outcome == Some(Sent)
    ensures Run(d, facts, st, sinkSize).state.handoffId == st.handoffId
  {
    PassesKeepHandoffId(d, facts, st, sinkSize);
  }

  lemma {:induction false} PassesKeepHandoffId(d: Deps, facts: seq<Fact>, st: State, sinkSize: nat)
    ensures var r := Run(d, facts, st, sinkSize); r.state.outcome == Some(Sent) ==> r.state.handoffId == st.handoffId
    decreases d.maxAttempts - st.attempts
  {
    hide Ingested;
    hide RouteAfterDecide;
    hide Candidate;
    hide Verify;
    hide Compose;
    hide Decide;
    hide Scan;
    hide HandoffPacketOf;
    var now := Ingested(d, facts, st.address);
    var next := Pass(d, now, st);
    assert next.handoffId == st.handoffId;
    if RouteAfterDecide(d, next) == Regenerate {
      RegenerateUnderCap(d, next);
      PassesKeepHandoffId(d, now, next, sinkSize);
    }
  }

  /**
   * When isolation is complete: the final states of two such turns are the same exactly when the threads held the
   * same handoff id or the turn does not send.
   */
  lemma IsolationIff(d: Deps, facts: seq<Fact>, a: State, b: State, sinkSize: nat)
    requires a.address == b.address && a.query == b.query && a.attempts == 0 && b.attempts == 0
    ensures var x, y := Run(d, facts, a, sinkSize), Run(d, facts, b, sinkSize);
            x == y <==> a.handoffId == b.handoffId || x.state.outcome != Some(Sent)
  {
    hide *;
    TurnsAreIsolated(d, facts, a, b, sinkSize);
    var x, y := Run(d, facts, a, sinkSize), Run(d, facts, b, sinkSize);
    if x.state.outcome == Some(Sent) {
      SentKeepsOldHandoffId(d, facts, a, sinkSize);
      SentKeepsOldHandoffId(d, facts, b, sinkSize);
    }
  }

  // ---- Where every pass goes ----

  /** No hard trigger fires: neither the rail nor a text detector. */
  predicate Clear(d: Deps, st: State)
    requires st.verification.Some?
  {
    FirstTrigger(d.detectors, CaseOf(d, st, None)).None?
  }

  /** The Critic approved and the composite score reaches the operations threshold. */
  predicate Confident(d: Deps, st: State)
    requires st.verification.Some?
  {
    st.verification.value.approved
    && Composite(st.verification.value, None, false).score >= d.confidenceThreshold
  }

  /** What is sent: confident, with data and claims, and no hard trigger. */
  predicate Sends(d: Deps, st: State)
    requires st.verification.Some?
  {
    st.sufficientData && st.verification.value.claims != [] && Clear(d, st) && Confident(d, st)
  }

  /** What is tried again: not confident, no hard trigger, nothing contradicted, something supported, attempts left. */
  predicate Retries(d: Deps, st: State)
    requires st.verification.Some?
  {
    && st.sufficientData && Clear(d, st) && !Confident(d, st)
    && (forall v :: v in st.verification.value.claims ==> v.tag != CONTRADICTED)
    && (exists v :: v in st.verification.value.claims && v.tag == ENTAILED && v.citation.Some?)
    && st.attempts < d.maxAttempts
  }

  /** The routes in these terms: sent, tried again, and everything else handed off. */
  lemma RoutesAre(d: Deps, facts: seq<Fact>, st: State)
    requires Decided(d, facts, st)
    ensures RouteAfterDecide(d, st) == Send <==> Sends(d, st)
    ensures RouteAfterDecide(d, st) == Regenerate <==> Retries(d, st)
  {
    hide Verify;
    hide SplitSpec;
    hide RebuildMessage;
    hide HitsFrom;
    hide Composite;
    var v, q := st.verification.value, CaseOf(d, st, None);
    VerifyMeans(d.critic, facts, st.draft, Some(st.address));
    EscalatesIff(d.detectors, q);
    hide Decide;
    if v.claims != [] && v.approved {
      assert v.claims[0].Supported() && v.claims[0] in v.claims;
    }
    if v.approvedMessage.Some? {
      RebuildNotBlank(SupportedTexts(v.claims));
      BlankIsEmpty();
    }
  }

  lemma BlankIsEmpty()
    ensures Blank("")
  {
  }

  /** A pass of a run, decided over the facts of its time, goes on exactly when it is to be tried again. */
  lemma {:induction false} PassesAreRouted(d: Deps, facts: seq<Fact>, st: State, sinkSize: nat, i: nat)
    requires i < |Passes(d, facts, st)|
    ensures var ps := Passes(d, facts, st);
            && ps[i].verification.Some?
            && (i < |ps| - 1 <==> Retries(d, ps[i]))
            && (i == |ps| - 1 ==>
                  && (Run(d, facts, st, sinkSize).state.outcome == Some(Sent) <==> Sends(d, ps[i]))
                  && (Run(d, facts, st, sinkSize).state.outcome == Some(HandedOff) <==> !Sends(d, ps[i]))
                  && |Run(d, facts, st, sinkSize).packets| == (if Sends(d, ps[i]) then 0 else 1))
    decreases d.maxAttempts - st.attempts
  {
    hide Pass;
    hide Ingested;
    hide RouteAfterDecide;
    hide Decided;
    hide Retries;
    hide Sends;
    hide SendNode;
    hide HandoffPacketOf;
    hide HandoffDecision;
    var now := Ingested(d, facts, st.address);
    var next := Pass(d, now, st);
    PassDecides(d, now, st);
    RoutesAre(d, now, next);
    if RouteAfterDecide(d, next) == Regenerate {
      RegenerateUnderCap(d, next);
      var rest := Passes(d, now, next);
      assert Passes(d, facts, st) == [next] + rest;
      PassesNotEmpty(d, now, next);
      if i > 0 {
        PassesAreRouted(d, now, next, sinkSize, i - 1);
      }
    } else {
      assert Passes(d, facts, st) == [next];
      FinishEnds(d, now, next, sinkSize);
    }
  }

  lemma PassesNotEmpty(d: Deps, facts: seq<Fact>, st: State)
    ensures Passes(d, facts, st) != []
  {
    hide Pass;
    hide Ingested;
    hide RouteAfterDecide;
  }

  lemma FinishEnds(d: Deps, facts: seq<Fact>, st: State, sinkSize: nat)
    requires st.verification.Some? && st.decision.Some?
    ensures var r := Finish(d, facts, st, sinkSize);
            if RouteAfterDecide(d, st) == Send then r.state.outcome == Some(Sent) && r.packets == []
            else r.state.outcome == Some(HandedOff) && |r.packets| == 1
  {
    hide RouteAfterDecide;
    hide Candidate;
    hide Verify;
    hide Scan;
    hide HandoffPacketOf;
    hide HandoffDecision;
  }

  /**
   * A contradicted claim is never retried or sent: the pass that holds one is the run's last, the run hands off, and
   * exactly one packet is pushed.
   */
  lemma ContradictionEndsRun(d: Deps, facts: seq<Fact>, st: State, sinkSize: nat, i: nat, c: ClaimVerdict)
    requires i < |Passes(d, facts, st)| && Passes(d, facts, st)[i].verification.Some?
    requires c in Passes(d, facts, st)[i].verification.value.claims && c.tag == CONTRADICTED
    ensures i == |Passes(d, facts, st)| - 1
    ensures var r := Run(d, facts, st, sinkSize); r.state.outcome == Some(HandedOff) && |r.packets| == 1
  {
    PassesAreRouted(d, facts, st, sinkSize, i);
    PassIsDecided(d, facts, st, i);
    ApprovedHasNone(d, Passes(d, facts, st)[i], c);
    hide Passes;
    hide Run;
    hide Clear;
    hide Confident;
  }

  lemma {:induction false} PassIsDecided(d: Deps, facts: seq<Fact>, st: State, i: nat)
    requires i < |Passes(d, facts, st)|
    ensures exists now :: Decided(d, now, Passes(d, facts, st)[i])
    decreases d.maxAttempts - st.attempts
  {
    hide Pass;
    hide Ingested;
    hide RouteAfterDecide;
    hide Decided;
    var now := Ingested(d, facts, st.address);
    var next := Pass(d, now, st);
    PassDecides(d, now, st);
    if RouteAfterDecide(d, next) == Regenerate && i > 0 {
      RegenerateUnderCap(d, next);
      var rest := Passes(d, now, next);
      assert Passes(d, facts, st) == [next] + rest;
      PassIsDecided(d, now, next, i - 1);
      assert Passes(d, facts, st)[i] == rest[i - 1];
    } else {
      assert Passes(d, facts, st)[i] == next;
    }
  }

  lemma ApprovedHasNone(d: Deps, st: State, c: ClaimVerdict)
    requires exists now :: Decided(d, now, st)
    requires st.verification.Some? && c in st.verification.value.claims && c.tag == CONTRADICTED
    ensures !Confident(d, st)
  {
    var now :| Decided(d, now, st);
    DecidedVerifies(d, now, st);
    hide Decided;
    hide Verify;
    hide SplitSpec;
    hide RebuildMessage;
    hide Composite;
    VerifyMeans(d.critic, now, st.draft, Some(st.address));
    var v := st.verification.value;
    var k :| 0 <= k < |v.claims| && v.claims[k] == c;
    assert !v.claims[k].Supported();
  }

  // ---- Rewrites ----

  /** The rewrite the naturalizer offers for the message, when it offers another text. */
  predicate Offers(d: Deps, message: string, query: string, rewrite: string)
  {
    && d.naturalizer.Some? && d.naturalizer.value(message, query).Some?
    && rewrite == Trim(d.naturalizer.value(message, query).value)
    && rewrite != "" && rewrite != Trim(message)
  }

  /**
   * A rewrite is sent exactly when the Critic approves it with at least one claim and its rebuild holds no listed
   * phrase; the message and the trace are then both the rewrite's, and otherwise both are those of the draft.
   */
  lemma RewriteSentIff(d: Deps, facts: seq<Fact>, st: State, rewrite: string)
    requires st.verification.Some? && st.verification.value.approvedMessage.Some?
    requires !Blank(st.verification.value.approvedMessage.value)
    requires Offers(d, st.verification.value.approvedMessage.value, st.query, rewrite)
    ensures var r, recheck := SendNode(d, facts, st), Verify(d.critic, facts, rewrite, Some(st.address));
            if recheck.claims != [] && recheck.approved && NoHit(d.rail, RebuildMessage(SplitSpec(rewrite)))
            then r.finalMessage == Some(RebuildMessage(SplitSpec(rewrite))) && r.verification == Some(recheck)
                 && r.citations == CitationsOf(recheck.claims) && r.auditRows == recheck.AuditRows()
            else r.finalMessage == st.verification.value.approvedMessage && r.verification == st.verification
                 && r.citations == CitationsOf(st.verification.value.claims) && r.auditRows == st.auditRows
  {
    hide Verify;
    hide SplitSpec;
    hide RebuildMessage;
    hide NoHit;
    hide Scan;
    var recheck := Verify(d.critic, facts, rewrite, Some(st.address));
    TrimTwice(d.naturalizer.value(st.verification.value.approvedMessage.value, st.query).value);
    hide Trim;
    VerifyMeans(d.critic, facts, rewrite, Some(st.address));
    assert Candidate(d, st) == Some(rewrite);
    hide Candidate;
    if recheck.approvedMessage.Some? {
      RebuildNotBlank(SupportedTexts(recheck.claims));
      ScanIsExact(d.rail, recheck.approvedMessage.value);
      SupportedTextsFrom(recheck.claims);
    }
  }

  /** Without another text to offer, the draft's message is sent. */
  lemma NoRewriteSendsDraft(d: Deps, facts: seq<Fact>, st: State)
    requires st.verification.Some? && st.verification.value.approvedMessage.Some?
    requires forall rewrite :: !Offers(d, st.verification.value.approvedMessage.value, st.query, rewrite)
    ensures SendNode(d, facts, st).finalMessage == st.verification.value.approvedMessage
    ensures SendNode(d, facts, st).verification == st.verification
  {
    hide Verify;
    hide Scan;
    var m := st.verification.value.approvedMessage.value;
    if d.naturalizer.Some? && d.naturalizer.value(m, st.query).Some? {
      var out := d.naturalizer.value(m, st.query).value;
      TrimTwice(out);
      assert !Offers(d, m, st.query, Trim(out));
    }
    hide Trim;
  }

  // ---- Whose facts are cited ----

  /** Every claim of a sent message cites a stored fact whose address has the same lower-cased words as the run's. */
  lemma SentCitesAddress(d: Deps, facts: seq<Fact>, st: State, sinkSize: nat, c: ClaimVerdict)
    requires Run(d, facts, st, sinkSize).state.outcome == Some(Sent)
    requires Run(d, facts, st, sinkSize).state.verification.Some?
    requires c in Run(d, facts, st, sinkSize).state.verification.value.claims
    ensures exists f :: f in Run(d, facts, st, sinkSize).facts
                        && c.citation == Some(f.sourceId) && c.sourceKind == Some(f.kind) && f.address.Some?
                        && Words(d.critic.engine.lower(f.address.value)) == Words(d.critic.engine.lower(st.address))
  {
    hide Run;
    hide InScope;
    hide Words;
    hide RebuildMessage;
    SentIsVerified(d, facts, st, sinkSize);
    RunKeepsAddress(d, facts, st, sinkSize);
    var r := Run(d, facts, st, sinkSize);
    assert Cited(d.critic.engine, r.facts, Some(st.address), c);
    var f :| f in r.facts && InScope(d.critic.engine, f, Some(st.address)) && c.citation == Some(f.sourceId)
             && c.sourceKind == Some(f.kind);
    ScopeIff(d.critic.engine, f, Some(st.address));
  }

  lemma RunKeepsAddress(d: Deps, facts: seq<Fact>, st: State, sinkSize: nat)
    ensures Run(d, facts, st, sinkSize).state.address == st.address
  {
    hide Decided;
    hide Run;
    hide RouteAfterDecide;
    hide Candidate;
    hide Verify;
    hide Scan;
    hide HandoffPacketOf;
    hide HandoffDecision;
    var now, last := RunEnds(d, facts, st, sinkSize);
    DecidedHas(d, now, last);
  }
}
