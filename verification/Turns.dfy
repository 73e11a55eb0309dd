/**
 * Turns of the agent loop, raised lookups included: when a turn raises, and what every turn keeps. A turn that does
 * not raise computes `Run`, so the results about runs are results about turns.
 */
module Turns {
  import opened Options
  import opened Text
  import opened Rag
  import opened Critic
  import opened FairHousing
  import opened Generator
  import opened Graph
  import opened GraphSafety

  /** A turn that finishes computes the run. */
  lemma {:induction false} FinishedIsRun(d: Deps, facts: seq<Fact>, st: State, sinkSize: nat)
    ensures var t := TurnOf(d, facts, st, sinkSize); t.Finished? ==> t.final == Run(d, facts, st, sinkSize)
    decreases d.maxAttempts - st.attempts
  {
    hide Pass;
    hide PassRaise;
    hide SendRaise;
    hide Ingested;
    hide RouteAfterDecide;
    hide Finish;
    var now := Ingested(d, facts, st.address);
    var next := Pass(d, now, st);
    if RouteAfterDecide(d, next) != Regenerate {
    } else {
      RegenerateUnderCap(d, next);
      FinishedIsRun(d, now, next, sinkSize);
    }
  }

  // ---- When a turn raises ----

  /** Where the passes of a turn end. */
  datatype End = End(facts: seq<Fact>, state: State)

  function EndOf(d: Deps, facts: seq<Fact>, st: State): (e: End)
    ensures e.state.verification.Some? && e.state.decision.Some?
    decreases d.maxAttempts - st.attempts
  {
    var now := Ingested(d, facts, st.address);
    var next := Pass(d, now, st);
    if RouteAfterDecide(d, next) == Regenerate then
      RegenerateUnderCap(d, next);
      EndOf(d, now, next)
    else End(now, next)
  }

  /** The `send` node of this end scans a rewrite that holds an unlisted match. */
  ghost predicate RewriteRaises(d: Deps, e: End)
    requires e.state.verification.Some? && e.state.decision.Some?
  {
    RouteAfterDecide(d, e.state) == Send && SendRaise(d, e.facts, e.state).Some?
  }

  lemma DraftRaise(d: Deps, facts: seq<Fact>, st: State)
    ensures PassRaise(d, st) ==
            var key := ComposeRaise(d.avm, d.rail, st.address, ReviseFrom(st));
            if key.Some? then key else ScanRaise(d.rail, Pass(d, facts, st).draft)
  {
    hide Pass;
    hide Compose;
    hide ComposeRaise;
    hide ScanRaise;
    PassDecides(d, facts, st);
    hide Decided;
  }

  /** The first pass raises exactly on an unlisted match in a fact sentence, or in the no-coverage draft. */
  lemma FirstPassRaises(d: Deps, facts: seq<Fact>, st: State)
    requires ValidRail(d.rail) && st.attempts == 0
    ensures PassRaise(d, st).Some? <==>
            if d.avm.value(st.address).Some?
            then exists f :: f in FactsFor(d.avm, st.address) && Unlisted(d.rail, f.content)
            else Unlisted(d.rail, NoCoverageDraft(st.address))
  {
    hide ValidRail;
    hide PassRaise;
    hide Pass;
    hide FactsFor;
    hide ScanRaise;
    hide Scan;
    hide FirstRaise;
    hide KeptSentences;
    hide NoCoverageDraft;
    hide Unlisted;
    DraftRaise(d, facts, st);
    FirstPassDraft(d, facts, st);
    if d.avm.value(st.address).Some? {
      var all := FactsFor(d.avm, st.address);
      FirstRaiseIff(d.rail, all);
      FirstDraftIsClean(d.avm, d.rail, st.address);
      RaisesIff(d.rail, Pass(d, facts, st).draft);
      forall f | f in all
        ensures ScanRaise(d.rail, f.content).Some? <==> Unlisted(d.rail, f.content)
      {
        RaisesIff(d.rail, f.content);
      }
    } else {
      RaisesIff(d.rail, NoCoverageDraft(st.address));
    }
  }

  /** A pass that follows a regenerate never raises. */
  lemma RetryNeverRaises(d: Deps, before: seq<Fact>, facts: seq<Fact>, st: State)
    requires ValidRail(d.rail) && st.attempts >= 1 && d.avm.value(st.address).Some?
    requires Decided(d, before, st) && RouteAfterDecide(d, st) == Regenerate
    ensures PassRaise(d, st).None?
  {
    hide *;
    DecidedHas(d, before, st);
    RegenerateMeans(d, st);
    RegeneratedPassesRail(d, before, facts, st);
    var next := Pass(d, facts, st);
    PassDecides(d, facts, st);
    DecidedScan(d, facts, next);
    RaisesIff(d.rail, next.draft);
    DraftRaise(d, facts, st);
    RevisionIsNotScreened(d, before, st);
  }

  lemma RevisionIsNotScreened(d: Deps, facts: seq<Fact>, st: State)
    requires st.attempts >= 1 && Decided(d, facts, st) && RouteAfterDecide(d, st) == Regenerate
    ensures ComposeRaise(d.avm, d.rail, st.address, ReviseFrom(st)).None?
  {
    DecidedVerifies(d, facts, st);
    RegenerateMeans(d, st);
    hide *;
    MessageIsNotBlank(d, facts, st);
    RevisionSkips(d, st);
  }

  lemma MessageIsNotBlank(d: Deps, facts: seq<Fact>, st: State)
    requires Decided(d, facts, st) && st.verification.value.approvedMessage.Some?
    ensures !Blank(st.verification.value.approvedMessage.value)
  {
    DecidedVerifies(d, facts, st);
    hide *;
    SurvivorsAreJudged(d.critic, facts, facts, st.draft, Some(st.address));
  }

  lemma RevisionSkips(d: Deps, st: State)
    requires st.attempts >= 1 && st.verification.Some? && st.verification.value.approvedMessage.Some?
    requires !Blank(st.verification.value.approvedMessage.value)
    ensures ComposeRaise(d.avm, d.rail, st.address, ReviseFrom(st)).None?
  {
    hide Blank;
    hide FirstRaise;
  }

  lemma {:induction false} RetriesNeverRaise(d: Deps, before: seq<Fact>, facts: seq<Fact>, st: State, sinkSize: nat)
    requires ValidRail(d.rail) && st.attempts >= 1 && d.avm.value(st.address).Some?
    requires Decided(d, before, st) && RouteAfterDecide(d, st) == Regenerate
    ensures TurnOf(d, facts, st, sinkSize).Raised? <==> RewriteRaises(d, EndOf(d, facts, st))
    decreases d.maxAttempts - st.attempts
  {
    hide ValidRail;
    hide Pass;
    hide PassRaise;
    hide SendRaise;
    hide Ingested;
    hide RouteAfterDecide;
    hide Finish;
    hide Decided;
    DecidedHas(d, before, st);
    RegenerateUnderCap(d, st);
    var now := Ingested(d, facts, st.address);
    RetryNeverRaises(d, before, now, st);
    var next := Pass(d, now, st);
    PassDecides(d, now, st);
    if RouteAfterDecide(d, next) != Regenerate {
    } else {
      RetriesNeverRaise(d, now, now, next, sinkSize);
    }
  }

  /**
   * When a turn raises: exactly when a sentence it prescreens, or without coverage the draft that says so, holds a
   * match that lower-cases to no listed phrase, or its passes end in a send whose re-verified rewrite holds one.
   */
  lemma TurnRaisesIff(d: Deps, facts: seq<Fact>, st: State, sinkSize: nat)
    requires ValidRail(d.rail) && st.attempts == 0
    ensures TurnOf(d, facts, st, sinkSize).Raised? <==>
            || (if d.avm.value(st.address).Some?
                then exists f :: f in FactsFor(d.avm, st.address) && Unlisted(d.rail, f.content)
                else Unlisted(d.rail, NoCoverageDraft(st.address)))
            || RewriteRaises(d, EndOf(d, facts, st))
  {
    hide ValidRail;
    hide Pass;
    hide PassRaise;
    hide SendRaise;
    hide Ingested;
    hide RouteAfterDecide;
    hide Finish;
    hide Decided;
    hide FactsFor;
    hide NoCoverageDraft;
    hide Unlisted;
    var now := Ingested(d, facts, st.address);
    FirstPassRaises(d, now, st);
    var next := Pass(d, now, st);
    PassDecides(d, now, st);
    if RouteAfterDecide(d, next) == Regenerate {
      CoveredWhenSufficient(d, now, st);
      RegenerateMeans(d, next);
      RegenerateUnderCap(d, next);
      RetriesNeverRaise(d, now, now, next, sinkSize);
    }
  }

  /** Without a naturalizer no rewrite is scanned, so the condition is one about the address and its valuation. */
  lemma PlainTurnRaisesIff(d: Deps, facts: seq<Fact>, st: State, sinkSize: nat)
    requires ValidRail(d.rail) && st.attempts == 0 && d.naturalizer.None?
    ensures TurnOf(d, facts, st, sinkSize).Raised? <==>
            if d.avm.value(st.address).Some?
            then exists f :: f in FactsFor(d.avm, st.address) && Unlisted(d.rail, f.content)
            else Unlisted(d.rail, NoCoverageDraft(st.address))
  {
    TurnRaisesIff(d, facts, st, sinkSize);
    hide EndOf;
    hide TurnOf;
    hide FactsFor;
    hide NoCoverageDraft;
    hide Unlisted;
    var e := EndOf(d, facts, st);
    NoRewrite(d, e.facts, e.state);
  }

  lemma NoRewrite(d: Deps, facts: seq<Fact>, st: State)
    requires d.naturalizer.None? && st.verification.Some?
    ensures SendRaise(d, facts, st).None?
  {
  }

  // ---- What every turn keeps ----

  /**
   * Every turn from attempts 0 ends in one of three ways: with a message, then verified, free of listed phrases and
   * without a packet; with exactly one packet and no message; or raised, with neither.
   */
  lemma EveryTurn(d: Deps, facts: seq<Fact>, st: State, sinkSize: nat)
    requires ValidRail(d.rail) && st.attempts == 0
    ensures var t := TurnOf(d, facts, st, sinkSize);
            && (t.Raised? ==> t.Packets() == [] && t.Reply().Err?)
            && (t.Finished? ==>
                  && t.final.state.outcome.Some?
                  && 1 <= t.final.state.attempts <= (if d.maxAttempts > 1 then d.maxAttempts else 1)
                  && (t.final.state.outcome == Some(Sent) ==>
                        && t.Packets() == [] && Verified(d, t.final.facts, t.final.state)
                        && t.final.state.finalMessage.Some? && NoHit(d.rail, t.final.state.finalMessage.value))
                  && (t.final.state.outcome == Some(HandedOff) ==>
                        |t.Packets()| == 1 && t.final.state.finalMessage == None))
  {
    hide ValidRail;
    hide TurnOf;
    hide Run;
    hide Verified;
    hide NoHit;
    FinishedIsRun(d, facts, st, sinkSize);
    PacketsAndPasses(d, facts, st, sinkSize);
    if Run(d, facts, st, sinkSize).state.outcome == Some(Sent) {
      SentIsVerified(d, facts, st, sinkSize);
      SentPassesFairHousing(d, facts, st, sinkSize);
    }
  }

  // ---- Isolation ----

  lemma SameRaise(d: Deps, facts: seq<Fact>, a: State, b: State)
    requires SamePass(a, b) && a.verification.Some? && b.verification.Some?
    ensures SendRaise(d, facts, a) == SendRaise(d, facts, b)
  {
    hide Verify;
    hide ScanRaise;
    hide Naturalize;
    hide Blank;
    assert Candidate(d, a) == Candidate(d, b);
  }

  lemma SamePassRaise(d: Deps, a: State, b: State)
    requires SameInput(a, b)
    ensures PassRaise(d, a) == PassRaise(d, b)
  {
    assert ReviseFrom(a) == ReviseFrom(b);
    hide Compose;
    hide ComposeRaise;
    hide ScanRaise;
  }

  lemma {:induction false} TurnsRaiseAlike(d: Deps, facts: seq<Fact>, a: State, b: State, sinkSize: nat)
    requires SameInput(a, b)
    ensures var x, y := TurnOf(d, facts, a, sinkSize), TurnOf(d, facts, b, sinkSize);
            (x.Raised? <==> y.Raised?) && (x.Raised? ==> x == y)
    decreases d.maxAttempts - a.attempts
  {
    hide Pass;
    hide PassRaise;
    hide SendRaise;
    hide Ingested;
    hide RouteAfterDecide;
    hide Finish;
    var now := Ingested(d, facts, a.address);
    var p, q := Pass(d, now, a), Pass(d, now, b);
    SamePassRaise(d, a, b);
    PassForgets(d, now, a, b);
    SamePassRoutes(d, p, q);
    SameRaise(d, now, p, q);
    if RouteAfterDecide(d, p) != Regenerate {
    } else {
      RegenerateUnderCap(d, p);
      TurnsRaiseAlike(d, now, p, q, sinkSize);
    }
  }

  /**
   * Isolation of whole turns: with the store fixed, two turns of one address and query started at attempts 0 end in
   * the same way, the raised key included, exactly when the threads held the same handoff id or the turn does not
   * send.
   */
  lemma TurnIsolationIff(d: Deps, facts: seq<Fact>, a: State, b: State, sinkSize: nat)
    requires a.address == b.address && a.query == b.query && a.attempts == 0 && b.attempts == 0
    ensures var x, y := TurnOf(d, facts, a, sinkSize), TurnOf(d, facts, b, sinkSize);
            x == y <==>
            a.handoffId == b.handoffId || x.Raised? || x.final.state.outcome != Some(Sent)
  {
    assert SameInput(a, b);
    hide *;
    TurnsRaiseAlike(d, facts, a, b, sinkSize);
    FinishedIsRun(d, facts, a, sinkSize);
    FinishedIsRun(d, facts, b, sinkSize);
    IsolationIff(d, facts, a, b, sinkSize);
  }
}
