/**
 * "Grounded by construction", end to end: split, search, entailment, rail, score and router composed over
 * the draft the generator writes.
 */
module Grounded {
  import opened Options
  import opened Reals
  import opened Text
  import opened Decompose
  import opened Rebuild
  import opened RoundTrip
  import opened Rag
  import opened Entailment
  import opened Critic
  import opened Confidence
  import opened FairHousing
  import opened Handoff
  import opened Generator
  import opened Graph
  import opened GraphSafety
  import opened SentenceShape

  /** The address and the feature labels hold none of the splitter's patterns. */
  ghost predicate PlainValuation(address: string, v: Valuation)
  {
    && PlainPiece(address) && Money(v.estimate) && Money(v.low) && Money(v.high)
    && forall i :: 0 <= i < |v.features| ==> PlainFeature(v.features[i])
  }

  ghost predicate PlainFeature(f: Feature)
  {
    PlainPiece(f.description) && Money(f.contribution)
    && f.description != "" && !IsSpace(f.description[0]) && f.description[0] != ','
  }

  /** A sentence the splitter and the rebuild both leave exactly as it is. */
  ghost predicate Whole(s: string)
  {
    SentenceLike(s) && Clean(s) == s && Normalised(s) == s
  }

  ghost predicate AllWhole(ss: seq<string>)
  {
    forall s :: s in ss ==> Whole(s)
  }

  /**
   * What a sentence needs of the store: it scores at least the floor against itself, at most `topK` facts of the
   * address score as high, no fact of the address with the opposite polarity holds all of its content words, and
   * no fixture pins its verdict.
   */
  ghost predicate Groundable(c: Critic, facts: seq<Fact>, address: string, s: string)
    requires c.entailer.Fake?
  {
    var lower := c.entailer.lower;
    && ScoreOf(c.engine, s, s) >= c.engine.minScore
    && RankOf(c.engine, facts, s, Some(address), s) <= c.topK
    && FixtureKey(lower, s) !in c.entailer.fixtures
    && forall f :: f in facts && InScope(c.engine, f, Some(address))
                   && Read(lower, s).content <= Read(lower, f.content).content
                   ==> Read(lower, f.content).negated == Read(lower, s).negated
  }

  /** The sentence is a stored fact of the address, and has a content word. */
  ghost predicate Stored(c: Critic, facts: seq<Fact>, address: string, s: string)
    requires c.entailer.Fake?
  {
    (exists f :: f in facts && f.content == s && f.address == Some(address)) && Read(c.entailer.lower, s).content != {}
  }

  /** What the entailer needs of the evidence. */
  ghost predicate Supportable(c: Critic, facts: seq<Fact>, address: string, s: string)
    requires c.entailer.Fake?
  {
    var lower := c.entailer.lower;
    var evidence := Retrieve(c.engine, facts, s, c.topK, Some(address));
    && (exists ev :: ev in evidence && ev.fact.content == s)
    && Read(lower, s).content != {}
    && FixtureKey(lower, s) !in c.entailer.fixtures
    && forall ev :: ev in evidence && Read(lower, s).content <= Read(lower, ev.fact.content).content
                    ==> Read(lower, ev.fact.content).negated == Read(lower, s).negated
  }

  /** The search finds the sentence's own fact, so the store's condition carries over to the evidence. */
  lemma GroundableIsSupportable(c: Critic, facts: seq<Fact>, address: string, s: string)
    requires c.entailer.Fake? && Groundable(c, facts, address, s) && Stored(c, facts, address, s) && !Blank(s)
    ensures Supportable(c, facts, address, s)
  {
    hide Retrieve;
    hide Read;
    hide FixtureKey;
    hide Blank;
    hide RankOf;
    hide ScoreOf;
    var evidence := Retrieve(c.engine, facts, s, c.topK, Some(address));
    var f :| f in facts && f.content == s && f.address == Some(address);
    RankedIsRetrieved(c.engine, facts, s, c.topK, Some(address), f);
    hide NormalizeAddress;
    forall ev | ev in evidence
      ensures ev.fact in facts && InScope(c.engine, ev.fact, Some(address))
    {
      RetrievedIsStored(c.engine, facts, s, c.topK, Some(address), ev);
    }
  }

  lemma FactsAreWhole(avm: Avm, address: string, f: Fact)
    requires avm.value(address).Some? && PlainValuation(address, avm.value(address).value)
    requires f in FactsFor(avm, address)
    ensures Whole(f.content)
  {
    hide PlainPiece;
    hide SentenceLike;
    hide Clean;
    hide Normalised;
    hide Decimal;
    hide Money;
    var v := avm.value(address).value;
    var facts := ValuationFacts(address, v, avm.runId(address));
    var i :| 0 <= i < |facts| && facts[i] == f;
    if i == 0 {
      EstimateIsWhole(address, v);
    } else {
      assert PlainFeature(v.features[i - 1]);
      FeatureIsWhole(address, v.features[i - 1]);
    }
  }

  lemma KeptAreWhole(avm: Avm, rail: Rail, address: string)
    requires avm.value(address).Some? && PlainValuation(address, avm.value(address).value)
    ensures AllWhole(KeptSentences(rail, FactsFor(avm, address)))
  {
    hide Whole;
    hide PlainValuation;
    hide FactsFor;
    hide Scan;
    var facts := FactsFor(avm, address);
    forall s | s in KeptSentences(rail, facts)
      ensures Whole(s)
    {
      KeptAreClean(rail, facts, s);
      var f :| f in facts && f.content == s;
      FactsAreWhole(avm, address, f);
    }
  }

  /** Splitting the draft gives its sentences back, and rebuilding them gives the draft back. */
  lemma DraftIsFixed(kept: seq<string>)
    requires kept != [] && AllWhole(kept)
    ensures SplitSpec(Join(" ", kept)) == kept && RebuildMessage(kept) == Join(" ", kept)
  {
    hide SentenceLike;
    hide Clean;
    hide Normalised;
    hide SplitSpec;
    forall i | 0 <= i < |kept|
      ensures SentenceLike(kept[i]) && Clean(kept[i]) == kept[i] && Normalised(kept[i]) == kept[i]
    {
      assert kept[i] in kept;
    }
    assert AllSentenceLike(kept);
    SplitOfJoin(kept);
    assert MapClean(kept) == kept;
    assert MapNormalised(kept) == kept;
    RebuildIsJoin(kept);
  }

  lemma SentenceIsEntailed(c: Critic, facts: seq<Fact>, address: string, claim: Claim)
    requires c.entailer.Fake? && c.entailer.threshold <= 1.0 && Supportable(c, facts, address, claim.text)
    ensures var v := JudgeClaim(c, facts, Some(address), claim);
            v.Supported() && v.score == 1.0 && v.claim == claim.text
  {
    hide Retrieve;
    hide Read;
    hide FixtureKey;
    hide Entail;
    var evidence := Retrieve(c.engine, facts, claim.text, c.topK, Some(address));
    ExactTextIsEntailed(c.entailer, claim.text, evidence);
    VerdictEvidence(c.entailer, claim.text, evidence);
  }

  ghost predicate AllScoreOne(vs: seq<ClaimVerdict>)
  {
    forall i :: 0 <= i < |vs| ==> vs[i].score == 1.0
  }

  lemma {:induction false} SumOfOnes(vs: seq<ClaimVerdict>)
    requires AllScoreOne(vs)
    ensures SumScores(vs) == |vs| as real
  {
    if vs == [] {
    } else {
      SumOfOnes(vs[1..]);
    }
  }

  lemma SentencesAreEntailed(c: Critic, facts: seq<Fact>, address: string, claims: seq<Claim>)
    requires c.entailer.Fake? && c.entailer.threshold <= 1.0
    requires forall i :: 0 <= i < |claims| ==> Supportable(c, facts, address, claims[i].text)
    ensures var vs := JudgeAll(c, facts, Some(address), claims);
            && AllSupported(vs) && AllScoreOne(vs)
            && forall i :: 0 <= i < |vs| ==> vs[i].claim == claims[i].text
  {
    hide Supportable;
    hide JudgeClaim;
    var vs := JudgeAll(c, facts, Some(address), claims);
    forall i | 0 <= i < |vs|
      ensures vs[i].Supported() && vs[i].score == 1.0 && vs[i].claim == claims[i].text
    {
      SentenceIsEntailed(c, facts, address, claims[i]);
    }
  }

  lemma PerfectMean(vs: seq<ClaimVerdict>)
    requires vs != [] && AllScoreOne(vs)
    ensures MeanScore(vs) == 1.0
  {
    SumOfOnes(vs);
    hide SumScores;
    SelfQuotient(|vs| as real);
  }

  lemma PerfectGate(threshold: real, vs: seq<ClaimVerdict>)
    requires vs != [] && threshold <= 1.0 && AllSupported(vs) && AllScoreOne(vs)
    ensures Gate(threshold, vs).approved && MeanScore(vs) == 1.0
  {
    PerfectMean(vs);
    GateIsExact(threshold, vs);
    RoundKeepsGrid(1.0, 10000);
    hide *;
  }

  /** The Critic approves the generated draft with one claim of score 1 per kept sentence. */
  lemma DraftIsApproved(c: Critic, facts: seq<Fact>, address: string, kept: seq<string>)
    requires c.entailer.Fake? && c.entailer.threshold <= 1.0 && c.threshold <= 1.0
    requires kept != [] && AllWhole(kept)
    requires forall s :: s in kept ==> Supportable(c, facts, address, s)
    ensures var v := Verify(c, facts, Join(" ", kept), Some(address));
            && v.approved && v.claims != [] && Texts(v.claims) == kept
            && AllSupported(v.claims) && AllScoreOne(v.claims)
            && v.approvedMessage == Some(Join(" ", kept))
            && v == Gate(c.threshold, v.claims) && MeanScore(v.claims) == 1.0
  {
    hide SplitSpec;
    hide AllWhole;
    hide Supportable;
    hide JudgeAll;
    hide Gate;
    hide MeanScore;
    hide RebuildMessage;
    hide Join;
    DraftIsFixed(kept);
    var draft := Join(" ", kept);
    var claims := DecomposeSpec(draft);
    forall i | 0 <= i < |claims|
      ensures Supportable(c, facts, address, claims[i].text)
    {
      assert claims[i].text == kept[i] && kept[i] in kept;
    }
    SentencesAreEntailed(c, facts, address, claims);
    var vs := JudgeAll(c, facts, Some(address), claims);
    PerfectGate(c.threshold, vs);
    GateIsExact(c.threshold, vs);
    VerifyMeans(c, facts, draft, Some(address));
  }

  lemma DraftPassesRail(rail: Rail, facts: seq<Fact>)
    requires ValidRail(rail) && AllWhole(KeptSentences(rail, facts))
    ensures Scan(rail, Join(" ", KeptSentences(rail, facts))).allowed
  {
    hide Scan;
    hide ValidRail;
    hide Clean;
    hide Normalised;
    hide Join;
    hide KeptSentences;
    forall s | s in KeptSentences(rail, facts)
      ensures s != "" && s[|s| - 1] == '.'
    {
      assert Whole(s);
    }
    KeptDraftIsClean(rail, facts);
  }

  lemma PerfectScore(threshold: real, vs: seq<ClaimVerdict>)
    requires vs != [] && AllSupported(vs) && MeanScore(vs) == 1.0
    ensures Composite(Gate(threshold, vs), None, false).score == 0.82
  {
    hide MeanScore;
    hide Gate;
    hide Round4;
    hide RetrievalCoverage;
    hide CriticAgreement;
    GateIsExact(threshold, vs);
    SupportedSignals(Gate(threshold, vs));
    BlendEnds();
    hide Blend;
  }

  lemma NoHardTrigger(d: Deps, st: State)
    requires st.verification.Some? && !HardQuery(d, st.query)
    requires st.fairHousing.Some? && !st.fairHousing.value.escalate
    ensures FirstTrigger(d.detectors, CaseOf(d, st, None)).None?
  {
  }

  /** What the run assumes of its configuration. */
  ghost predicate Configured(d: Deps)
  {
    && ValidRail(d.rail) && d.naturalizer.None?
    && d.critic.entailer.Fake? && d.critic.entailer.threshold <= 1.0
    && KeepsWord(d.critic.entailer.lower, "value") && KeepsWord(d.critic.entailer.lower, "contributes")
    && d.critic.threshold <= 1.0 && d.confidenceThreshold <= 0.82
  }

  /** A pass over a supportable draft goes straight to `send`. */
  lemma GroundedPassSends(d: Deps, now: seq<Fact>, st: State, kept: seq<string>)
    requires Configured(d) && !HardQuery(d, st.query) && kept != [] && AllWhole(kept)
    requires Decided(d, now, st) && st.sufficientData && st.draft == Join(" ", kept)
    requires Scan(d.rail, st.draft).allowed
    requires forall s :: s in kept ==> Supportable(d.critic, now, st.address, s)
    ensures RouteAfterDecide(d, st) == Send
    ensures var v := st.verification.value;
            Texts(v.claims) == kept && AllSupported(v.claims) && AllScoreOne(v.claims)
            && v.approvedMessage == Some(Join(" ", kept))
  {
    hide Verify;
    hide Gate;
    hide MeanScore;
    hide Supportable;
    hide AllWhole;
    hide ValidRail;
    hide Composite;
    hide Join;
    hide Decide;
    DraftIsApproved(d.critic, now, st.address, kept);
    var v := st.verification.value;
    assert Scan(d.rail, st.draft).escalate == !Scan(d.rail, st.draft).allowed;
    hide Scan;
    NoHardTrigger(d, st);
    PerfectScore(d.critic.threshold, v.claims);
    EscalatesIff(d.detectors, CaseOf(d, st, None));
    assert v.claims[0].Supported() && v.claims[0] in v.claims;
  }

  /**
   * Grounded by construction: for a covered address free of the splitter's patterns, a query with no hard
   * trigger, no naturalizer and a store in which every kept sentence is groundable, a run from attempts 0 sends
   * if and only if some fact sentence passes the wording rail. When it sends it does so after one pass, with one
   * supported claim of score 1 per kept sentence in order, and the message is exactly the draft.
   */
  lemma GroundedRunSends(d: Deps, facts: seq<Fact>, st: State, sinkSize: nat)
    requires Configured(d) && !HardQuery(d, st.query) && st.attempts == 0
    requires d.avm.value(st.address).Some? && PlainValuation(st.address, d.avm.value(st.address).value)
    requires forall s :: s in KeptSentences(d.rail, FactsFor(d.avm, st.address)) ==>
               Groundable(d.critic, Ingested(d, facts, st.address), st.address, s)
    ensures var kept := KeptSentences(d.rail, FactsFor(d.avm, st.address));
            var r := Run(d, facts, st, sinkSize);
            && (r.state.outcome == Some(Sent) <==> kept != [])
            && r.state.attempts == 1
            && (kept != [] ==>
                  && r.packets == []
                  && r.state.finalMessage == Some(Join(" ", kept))
                  && r.state.verification.Some?
                  && Texts(r.state.verification.value.claims) == kept
                  && AllSupported(r.state.verification.value.claims)
                  && AllScoreOne(r.state.verification.value.claims))
  {
    hide KeptSentences;
    hide FactsFor;
    hide Ingested;
    hide Groundable;
    hide AllWhole;
    hide PlainValuation;
    hide Pass;
    hide Verify;
    hide Scan;
    hide Decide;
    hide Join;
    hide CaseOf;
    hide SplitSpec;
    hide ValidRail;
    hide Adoptable;
    hide HandoffPacketOf;
    hide HandoffDecision;
    hide RouteAfterDecide;
    hide Blank;
    var all := FactsFor(d.avm, st.address);
    var kept := KeptSentences(d.rail, all);
    var now := Ingested(d, facts, st.address);
    var next := Pass(d, now, st);
    PassDecides(d, now, st);
    assert next.draft == Join(" ", kept) && next.sufficientData;
    if kept == [] {
      NothingKeptHandsOff(d, now, next);
    } else {
      KeptAreWhole(d.avm, d.rail, st.address);
      DraftPassesRail(d.rail, all);
      KeptAreSupportable(d, facts, st.address);
      GroundedPassSends(d, now, next, kept);
    }
  }

  lemma ValueIsPlain()
    ensures PlainContentWord("value")
  {
  }

  lemma ContributesIsPlain()
    ensures PlainContentWord("contributes")
  {
  }

  /** Both sentences hold a content word between blanks. */
  lemma SentencesHoldWords(address: string, v: Valuation, g: Feature)
    ensures EstimateSentence(address, v) == "Estimated" + " " + "value" + " " +
            ("for " + address + " is $" + v.estimate + " (range $" + v.low + "-$" + v.high + ").")
    ensures FeatureSentence(address, g) == g.description + " " + "contributes" + " " +
            ("$" + g.contribution + " to the " + address + " valuation.")
  {
    assert "Estimated value for " == "Estimated" + " " + "value" + " " + "for ";
    assert " contributes $" == " " + "contributes" + " " + "$";
  }

  lemma SentencesAreRead(lower: string -> string, address: string, v: Valuation, g: Feature)
    requires KeepsWord(lower, "value") && KeepsWord(lower, "contributes")
    ensures Read(lower, EstimateSentence(address, v)).content != {}
    ensures Read(lower, FeatureSentence(address, g)).content != {}
  {
    hide *;
    ValueIsPlain();
    ContributesIsPlain();
    SentencesHoldWords(address, v, g);
    WordIsRead(lower, "Estimated", "value",
               "for " + address + " is $" + v.estimate + " (range $" + v.low + "-$" + v.high + ").");
    WordIsRead(lower, g.description, "contributes", "$" + g.contribution + " to the " + address + " valuation.");
  }

  lemma FactsAreRead(lower: string -> string, address: string, v: Valuation, runId: string, f: Fact)
    requires KeepsWord(lower, "value") && KeepsWord(lower, "contributes") && f in ValuationFacts(address, v, runId)
    ensures Read(lower, f.content).content != {} && f.address == Some(address)
  {
    hide KeepsWord;
    hide Read;
    hide Decimal;
    hide EstimateSentence;
    hide FeatureSentence;
    var i :| 0 <= i <= |v.features| && f == ValuationFacts(address, v, runId)[i];
    SentencesAreRead(lower, address, v, if i == 0 then Feature("", "") else v.features[i - 1]);
  }

  /** Every kept sentence is stored by the ingest of the pass, and the store's condition makes it supportable. */
  lemma KeptAreSupportable(d: Deps, facts: seq<Fact>, address: string)
    requires Configured(d) && d.avm.value(address).Some? && PlainValuation(address, d.avm.value(address).value)
    requires forall s :: s in KeptSentences(d.rail, FactsFor(d.avm, address)) ==>
               Groundable(d.critic, Ingested(d, facts, address), address, s)
    ensures forall s :: s in KeptSentences(d.rail, FactsFor(d.avm, address)) ==>
              Supportable(d.critic, Ingested(d, facts, address), address, s)
  {
    hide Groundable;
    hide Supportable;
    hide Read;
    hide Scan;
    hide KeptSentences;
    hide ValuationFacts;
    hide IngestAll;
    hide PlainValuation;
    hide KeepsWord;
    hide Whole;
    var all := FactsFor(d.avm, address);
    forall s | s in KeptSentences(d.rail, all)
      ensures Supportable(d.critic, Ingested(d, facts, address), address, s)
    {
      KeptAreClean(d.rail, all, s);
      var f :| f in all && f.content == s;
      FactsAreRead(d.critic.entailer.lower, address, d.avm.value(address).value, d.avm.runId(address), f);
      FactIdsDistinct(d.avm, address);
      IngestHoldsAll(facts, all, f);
      FactsAreWhole(d.avm, address, f);
      WholeIsNotBlank(s);
      GroundableIsSupportable(d.critic, Ingested(d, facts, address), address, s);
    }
  }

  lemma WholeIsNotBlank(s: string)
    requires Whole(s)
    ensures !Blank(s) && Trim(s) == s
  {
    hide Clean;
    hide Normalised;
    StripIdentity(s, WHITESPACE);
  }

  lemma NothingKeptHandsOff(d: Deps, now: seq<Fact>, st: State)
    requires Decided(d, now, st) && st.draft == Join(" ", [])
    ensures RouteAfterDecide(d, st) == HandOff
  {
    hide Decide;
    hide Scan;
    hide CaseOf;
    assert SplitSpec("") == [];
  }

  lemma NotCleanHasHit(rail: Rail, text: string) returns (i: nat, k: nat)
    requires !NoHit(rail, text)
    ensures i <= |text| && k < |rail.terms| && HitAt(rail, text, i, rail.terms[k].phrase)
  {
    i, k :| i <= |text| && k < |rail.terms| && HitAt(rail, text, i, rail.terms[k].phrase);
  }

  lemma SurroundedAddressHits(rail: Rail, before: string, address: string, after: string)
    requires ValidRail(rail) && !NoHit(rail, address)
    ensures !NoHit(rail, before + " " + address + " " + after)
  {
    var s := before + " " + address + " " + after;
    var a := |before| + 1;
    var i, k := NotCleanHasHit(rail, address);
    assert ValidPhrase(rail, rail.terms[k].phrase) && !rail.isWord(' ');
    hide ValidRail;
    hide HitAt;
    assert s[a..a + |address|] == address && s[a - 1] == ' ' && s[a + |address|] == ' ';
    HitSurvivesCut(rail, s, a, a + |address|, i, rail.terms[k].phrase);
    assert a + i <= |s|;
  }

  lemma SentencesHoldAddress(address: string, v: Valuation, f: Feature)
    ensures EstimateSentence(address, v) ==
            "Estimated value for" + " " + address + " "
            + ("is $" + v.estimate + " (range $" + v.low + "-$" + v.high + ").")
    ensures FeatureSentence(address, f) ==
            (f.description + " contributes $" + f.contribution + " to the") + " " + address + " " + "valuation."
  {
    assert "Estimated value for " == "Estimated value for" + " ";
    assert " is $" == " " + "is $";
    assert " to the " == " to the" + " ";
    assert " valuation." == " " + "valuation.";
  }

  lemma DirtyAddressKeepsNothing(avm: Avm, rail: Rail, address: string)
    requires ValidRail(rail) && !Scan(rail, address).allowed && avm.value(address).Some?
    ensures KeptSentences(rail, FactsFor(avm, address)) == []
  {
    hide NoHit;
    hide Scan;
    hide Decimal;
    hide ValidRail;
    hide EstimateSentence;
    hide FeatureSentence;
    ScanIsExact(rail, address);
    var v := avm.value(address).value;
    var all := FactsFor(avm, address);
    if KeptSentences(rail, all) != [] {
      var s := KeptSentences(rail, all)[0];
      KeptAreClean(rail, all, s);
      var f :| f in all && f.content == s;
      var i :| 0 <= i < |all| && all[i] == f;
      ScanIsExact(rail, s);
      var feature := if i == 0 then Feature("", "") else v.features[i - 1];
      SentencesHoldAddress(address, v, feature);
      SurroundedAddressHits(rail, "Estimated value for", address,
                            "is $" + v.estimate + " (range $" + v.low + "-$" + v.high + ").");
      SurroundedAddressHits(rail, feature.description + " contributes $" + feature.contribution + " to the", address,
                            "valuation.");
    }
  }

  /** An address that itself holds a deny-listed phrase empties the first draft, and the run hands off. */
  lemma DirtyAddressNeverSends(d: Deps, facts: seq<Fact>, st: State, sinkSize: nat)
    requires ValidRail(d.rail) && !Scan(d.rail, st.address).allowed
    requires st.attempts == 0 && d.avm.value(st.address).Some?
    ensures var r := Run(d, facts, st, sinkSize); r.state.outcome == Some(HandedOff) && r.state.draft == ""
  {
    hide FactsFor;
    hide KeptSentences;
    hide Pass;
    hide Ingested;
    hide Verify;
    hide Decide;
    hide Scan;
    hide CaseOf;
    hide ValidRail;
    hide Decided;
    hide RouteAfterDecide;
    hide HandoffPacketOf;
    hide HandoffDecision;
    var now := Ingested(d, facts, st.address);
    var next := Pass(d, now, st);
    PassDecides(d, now, st);
    DirtyAddressKeepsNothing(d.avm, d.rail, st.address);
    NothingKeptHandsOff(d, now, next);
  }
}
