/**
 * A concrete run through the retry edge: the first draft has one supported and one baseless sentence, the
 * second pass revises to what survived, and that is sent. It shows that the assumptions of the results
 * about whole runs are met together, and that the loop is taken.
 */
module Samples {
  import opened Options
  import opened Reals
  import opened Text
  import opened Decompose
  import opened Rebuild
  import opened RoundTrip
  import opened Rag
  import opened Entailment
  import opened Critic
  import opened Confidence
  import opened FairHousing
  import opened Handoff
  import opened Generator
  import opened Graph
  import opened GraphSafety
  import opened SentenceShape
  import opened Grounded
  import opened AddressRail
  import opened SampleRail
  import opened Turns

  const ADDRESS: string := "Oak"
  const FEATURE: Feature := Feature("Porch", "5")
  const VALUATION: Valuation := Valuation("9", "8", "10", [FEATURE])

  /** Every embedding is the zero vector, so every in-scope fact scores zero and none is dropped. */
  const ENGINE: Engine := Engine((s: string) => [], (v: Vector) => 0.0, (s: string) => s, 0.0)

  function Headline(): string
  {
    EstimateSentence(ADDRESS, VALUATION)
  }

  function Detail(): string
  {
    FeatureSentence(ADDRESS, FEATURE)
  }

  /** A client that supports the headline and nothing else. */
  function HeadlineOnly(claim: string, evidence: seq<Evidence>): Answer
  {
    if claim == Headline() then Answer(ENTAILED, 1.0) else Answer(BASELESS, 0.0)
  }

  const CRITIC: Critic := Critic(ENGINE, Real(HeadlineOnly), 0.6, 5)

  /** The legal detector tells the Closer's two texts apart by one character; the others never fire. */
  const QUIET: Detectors := Detectors((s: string) => |s| > 27 && s[27] == ' ',
                                      (s: string) => false, (s: string) => false)

  const DEPS: Deps := Deps(Avm((a: string) => Some(VALUATION), (a: string) => a), RAIL, CRITIC, QUIET,
                           DEFAULT_CONFIDENCE_THRESHOLD, DEFAULT_HIGH_DOLLAR_BAND, 2, None)

  const START: State := State(ADDRESS, "", 0, "", true, None, [], [], None, None, None, None, false, None)

  lemma SentencesAreWhole()
    ensures Whole(Headline()) && Whole(Detail())
  {
    hide PlainPiece;
    hide SentenceLike;
    hide Clean;
    hide Normalised;
    hide EstimateSentence;
    hide FeatureSentence;
    WordIsPiece("Oak");
    WordIsPiece("Porch");
    EstimateIsWhole(ADDRESS, VALUATION);
    FeatureIsWhole(ADDRESS, FEATURE);
  }

  lemma PiecesHaveNoG()
    ensures 'g' !in "Porch" && 'G' !in "Porch" && 'g' !in " contributes $" && 'G' !in " contributes $"
    ensures 'g' !in "5" && 'G' !in "5" && 'g' !in " to the " && 'G' !in " to the "
    ensures 'g' !in "Oak" && 'G' !in "Oak" && 'g' !in " valuation." && 'G' !in " valuation."
  {
  }

  lemma JoinHasNoG(a: string, b: string, c: string, d: string, e: string, f: string)
    requires forall x :: x in [a, b, c, d, e, f] ==> 'g' !in x && 'G' !in x
    ensures 'g' !in a + b + c + d + e + f && 'G' !in a + b + c + d + e + f
  {
    var all := [a, b, c, d, e, f];
    assert all[0] == a && all[1] == b && all[2] == c && all[3] == d && all[4] == e && all[5] == f;
  }

  lemma DetailHasNoG()
    ensures 'g' !in Detail() && 'G' !in Detail()
  {
    assert Detail() == "Porch" + " contributes $" + "5" + " to the " + "Oak" + " valuation.";
    hide *;
    PiecesHaveNoG();
    JoinHasNoG("Porch", " contributes $", "5", " to the ", "Oak", " valuation.");
  }

  lemma SentencesAreClean()
    ensures Scan(RAIL, Headline()).allowed && Scan(RAIL, Detail()).allowed
  {
    DetailHasNoG();
    RailIsValid();
    RailFitsTemplate();
    RailAvoidsTemplate();
    hide *;
    NoLetterNoHit(Detail());
    NoLetterNoHit(ADDRESS) by { AddressHasNoG(); }
    HeadlineIsClean();
  }

  lemma AddressHasNoG()
    ensures 'g' !in ADDRESS && 'G' !in ADDRESS
  {
  }

  lemma HeadlineIsClean()
    requires Scan(RAIL, ADDRESS).allowed
    ensures Scan(RAIL, Headline()).allowed
  {
    RailIsValid();
    RailFitsTemplate();
    RailAvoidsTemplate();
    hide Scan;
    hide EstimateSentence;
    HeadlineIsCleanIff(RAIL, ADDRESS, VALUATION);
  }

  lemma SentencesDiffer()
    ensures Headline() != Detail()
  {
    assert Headline()[0] == 'E';
    assert Detail()[0] == 'P';
  }

  lemma {:induction false} IngestHoldsLast(facts: seq<Fact>, history: seq<Fact>)
    requires history != []
    ensures history[|history| - 1] in IngestAll(facts, history)
    decreases |history|
  {
    if |history| == 1 {
      UpsertHolds(facts, history[0], history[0]);
      assert IngestAll(Upsert(facts, history[0]), history[1..]) == Upsert(facts, history[0]);
    } else {
      IngestHoldsLast(Upsert(facts, history[0]), history[1..]);
    }
  }

  /** With an in-scope fact in the store, every claim has evidence. */
  lemma SomethingIsRetrieved(facts: seq<Fact>, f: Fact, claim: string)
    requires f in facts && f.address == Some(ADDRESS) && !Blank(claim)
    ensures Retrieve(ENGINE, facts, claim, 5, Some(ADDRESS)) != []
  {
    hide Blank;
    hide NormalizeAddress;
    var found := Search(ENGINE, facts, [], 5, Some(ADDRESS));
    var all := Scored(ENGINE, facts, Unit(ENGINE, []), Some(ADDRESS));
    ScoredIsScope(ENGINE, facts, Unit(ENGINE, []), Some(ADDRESS), Evidence(f, 0.0));
    SearchIsTopK(ENGINE, facts, [], 5, Some(ADDRESS));
    assert found[0] in multiset(all);
    ScoredIsScope(ENGINE, facts, Unit(ENGINE, []), Some(ADDRESS), found[0]);
    assert found[0].score == 0.0;
    hide Search;
    AtLeastSubset(found, 0.0, found[0]);
  }

  /** A store that holds the facts of the run. */
  ghost predicate Stocked(facts: seq<Fact>)
  {
    exists f :: f in facts && f.address == Some(ADDRESS)
  }

  lemma IngestedIsStocked(facts: seq<Fact>)
    ensures Stocked(Ingested(DEPS, facts, ADDRESS))
  {
    var history := FactsFor(DEPS.avm, ADDRESS);
    assert history[|history| - 1] == FeatureFact(ADDRESS, FEATURE, ADDRESS, 0);
    IngestHoldsLast(facts, history);
  }

  lemma JudgedSample(facts: seq<Fact>, claim: Claim)
    requires Stocked(facts) && !Blank(claim.text)
    ensures var v := JudgeClaim(CRITIC, facts, Some(ADDRESS), claim);
            v.claim == claim.text
            && (if claim.text == Headline() then v.Supported() && v.score == 1.0 else v.tag.BASELESS?)
  {
    hide Retrieve;
    hide Headline;
    hide Blank;
    var f :| f in facts && f.address == Some(ADDRESS);
    SomethingIsRetrieved(facts, f, claim.text);
  }

  /** Every claim of a draft is judged, and the gate is applied to the verdicts. */
  lemma VerifyOf(c: Critic, facts: seq<Fact>, draft: string, address: Option<string>, texts: seq<string>)
    requires SplitSpec(draft) == texts && texts != []
    ensures var v := Verify(c, facts, draft, address);
            && |v.claims| == |texts| && v == Gate(c.threshold, v.claims)
            && forall i :: 0 <= i < |texts| ==> v.claims[i] == JudgeClaim(c, facts, address, Claim(texts[i], i))
  {
    hide JudgeClaim;
    hide SplitSpec;
    hide RebuildMessage;
    hide Round4;
    hide MeanScore;
    GateIsExact(c.threshold, JudgeAll(c, facts, address, DecomposeSpec(draft)));
  }

  lemma TwoWhole(a: string, b: string)
    requires Whole(a) && Whole(b)
    ensures AllWhole([a, b])
  {
    hide Whole;
  }

  lemma GateOfTwo(threshold: real, vs: seq<ClaimVerdict>)
    requires |vs| == 2 && vs[0].Supported() && vs[1].tag.BASELESS?
    ensures var v := Gate(threshold, vs); !v.approved && v.approvedMessage == Some(RebuildMessage([vs[0].claim]))
  {
    hide RebuildMessage;
    hide Round4;
    hide MeanScore;
    TwoVerdicts(vs);
  }

  /** The verification of the first draft: the headline survives. */
  lemma FirstVerification(facts: seq<Fact>)
    requires Stocked(facts)
    ensures var v := Verify(CRITIC, facts, Join(" ", [Headline(), Detail()]), Some(ADDRESS));
            && |v.claims| == 2 && !v.approved && v.claims[0].Supported() && v.claims[1].tag.BASELESS?
            && v.approvedMessage == Some(Headline())
  {
    hide *;
    var texts := [Headline(), Detail()];
    SentencesAreWhole();
    SentencesDiffer();
    WholeIsNotBlank(Headline());
    WholeIsNotBlank(Detail());
    JudgedSample(facts, Claim(Headline(), 0));
    JudgedSample(facts, Claim(Detail(), 1));
    HeadlineAlone();
    TwoWhole(Headline(), Detail());
    DraftIsFixed(texts);
    VerifyOf(CRITIC, facts, Join(" ", texts), Some(ADDRESS), texts);
    GateOfTwo(CRITIC.threshold, Verify(CRITIC, facts, Join(" ", texts), Some(ADDRESS)).claims);
  }

  lemma HeadlineAlone()
    ensures SplitSpec(Headline()) == [Headline()] && RebuildMessage([Headline()]) == Headline()
  {
    hide Whole;
    hide SplitSpec;
    hide RebuildMessage;
    SentencesAreWhole();
    DraftIsFixed([Headline()]);
    assert Join(" ", [Headline()]) == Headline();
  }

  lemma TwoVerdicts(vs: seq<ClaimVerdict>)
    requires |vs| == 2 && vs[0].Supported() && vs[1].tag.BASELESS?
    ensures SupportedTexts(vs) == [vs[0].claim]
    ensures CountTag(vs, CONTRADICTED) == 0 && CountTag(vs, BASELESS) == 1
  {
    assert vs[1..] == [vs[1]];
    assert SupportedTexts([vs[1]]) == [];
    assert CountTag([vs[1]], BASELESS) == 1 && CountTag([vs[1]], CONTRADICTED) == 0;
  }

  lemma OneVerdict(vs: seq<ClaimVerdict>)
    requires |vs| == 1 && vs[0].Supported() && vs[0].score == 1.0
    ensures AllSupported(vs) && AllScoreOne(vs)
  {
  }

  /** The verification of the revised draft: approved. */
  lemma SecondVerification(facts: seq<Fact>)
    requires Stocked(facts)
    ensures var v := Verify(CRITIC, facts, Headline(), Some(ADDRESS)); v.claims != [] && v.approved
  {
    SentencesAreWhole();
    WholeIsNotBlank(Headline());
    JudgedSample(facts, Claim(Headline(), 0));
    HeadlineAlone();
    assert CRITIC.threshold == 0.6;
    hide *;
    VerifyOf(CRITIC, facts, Headline(), Some(ADDRESS), [Headline()]);
    var vs := Verify(CRITIC, facts, Headline(), Some(ADDRESS)).claims;
    OneVerdict(vs);
    PerfectGate(0.6, vs);
  }

  lemma SampleFacts()
    ensures FactsFor(DEPS.avm, ADDRESS) ==
            [EstimateFact(ADDRESS, VALUATION, ADDRESS), FeatureFact(ADDRESS, FEATURE, ADDRESS, 0)]
    ensures EstimateFact(ADDRESS, VALUATION, ADDRESS).content == Headline()
    ensures FeatureFact(ADDRESS, FEATURE, ADDRESS, 0).content == Detail()
  {
    hide Decimal;
    hide EstimateSentence;
    hide FeatureSentence;
  }

  lemma KeepsBoth(rail: Rail, a: Fact, b: Fact)
    requires Scan(rail, a.content).allowed && Scan(rail, b.content).allowed
    ensures KeptSentences(rail, [a, b]) == [a.content, b.content]
  {
    hide Scan;
    assert [a, b][1..] == [b] && [b][1..] == [];
    assert KeptSentences(rail, [b]) == [b.content];
  }

  /** The draft of the first pass. */
  lemma FirstDraft()
    ensures var g := Compose(DEPS.avm, DEPS.rail, ADDRESS, None);
            g.sufficientData && g.draft == Join(" ", [Headline(), Detail()])
  {
    hide Headline;
    hide Detail;
    hide Scan;
    hide EstimateFact;
    hide FeatureFact;
    hide FactsFor;
    SampleFacts();
    SentencesAreClean();
    KeepsBoth(RAIL, EstimateFact(ADDRESS, VALUATION, ADDRESS), FeatureFact(ADDRESS, FEATURE, ADDRESS, 0));
    hide KeptSentences;
  }

  lemma FirstDraftIsClean()
    ensures Scan(RAIL, Join(" ", [Headline(), Detail()])).allowed
  {
    var facts := [EstimateFact(ADDRESS, VALUATION, ADDRESS), FeatureFact(ADDRESS, FEATURE, ADDRESS, 0)];
    RailIsValid();
    SampleFacts();
    SentencesAreClean();
    SentencesAreWhole();
    hide *;
    KeepsBoth(RAIL, facts[0], facts[1]);
    TwoWhole(Headline(), Detail());
    DraftPassesRail(RAIL, facts);
  }

  lemma QuietNeverEscalatesHard(st: State)
    requires st.verification.Some? && st.query == "" && st.fairHousing == Some(Scan(RAIL, st.draft))
    requires Scan(RAIL, st.draft).allowed
    ensures var c := CaseOf(DEPS, st, None);
            FirstTrigger(QUIET, c).None?
            && (Decide(QUIET, c).Escalated() ==> !Decide(QUIET, c).packet.value.hardTrigger)
  {
    assert Scan(RAIL, st.draft).escalate == !Scan(RAIL, st.draft).allowed;
    hide Scan;
    hide Composite;
    EscalatesIff(QUIET, CaseOf(DEPS, st, None));
  }

  /** The router retries a block that only stripped claims can fix. */
  lemma RoutesToRetry(d: Deps, st: State)
    requires st.verification.Some? && st.decision.Some? && st.sufficientData && st.attempts < d.maxAttempts
    requires st.fairHousing.Some? && st.fairHousing.value.allowed
    requires st.decision.value.Escalated() ==> !st.decision.value.packet.value.hardTrigger
    requires var v := st.verification.value;
             && |v.claims| == 2 && !v.approved && v.claims[0].Supported() && v.claims[1].tag.BASELESS?
             && v.approvedMessage.Some? && v.approvedMessage.value != ""
    ensures RouteAfterDecide(d, st) == Regenerate
  {
    var v := st.verification.value;
    assert v.claims[0] in v.claims;
  }

  lemma FirstPassRetries(now: seq<Fact>)
    requires Stocked(now)
    ensures var next := Pass(DEPS, now, START);
            && next.address == ADDRESS && next.query == "" && next.attempts == 1
            && RouteAfterDecide(DEPS, next) == Regenerate && ReviseFrom(next) == Some(Headline())
  {
    hide *;
    var next := Pass(DEPS, now, START);
    PassDecides(DEPS, now, START);
    FirstDraft();
    FirstVerification(now);
    assert Headline() != "" by { HeadlineNotEmpty(); }
    assert START.address == ADDRESS && START.query == "" && START.attempts == 0 && ReviseFrom(START) == None by {
      StartShape();
    }
    DecidedSample(now, next);
    FirstDraftIsClean();
    QuietNeverEscalatesHard(next);
    RoutesToRetry(DEPS, next);
    RevisesFromMessage(next);
  }

  lemma HeadlineNotEmpty()
    ensures Headline() != ""
  {
  }

  lemma StartShape()
    ensures START.address == ADDRESS && START.query == "" && START.attempts == 0 && ReviseFrom(START) == None
    ensures DEPS.rail == RAIL && DEPS.critic == CRITIC && DEPS.detectors == QUIET && DEPS.maxAttempts == 2
  {
  }

  lemma RevisesFromMessage(st: State)
    requires st.verification.Some? && st.attempts >= 1
    ensures ReviseFrom(st) == st.verification.value.approvedMessage
  {
  }

  lemma DecidedSample(facts: seq<Fact>, st: State)
    requires Decided(DEPS, facts, st)
    ensures st.verification == Some(Verify(CRITIC, facts, st.draft, Some(st.address)))
    ensures st.fairHousing == Some(Scan(RAIL, st.draft))
    ensures st.decision == Some(Decide(QUIET, CaseOf(DEPS, st, None)))
    ensures DEPS.maxAttempts == 2
  {
    hide Verify;
    hide Scan;
    hide Decide;
  }

  /** A revision is the surviving message itself. */
  lemma RevisedDraft(avm: Avm, rail: Rail, address: string, text: string)
    requires avm.value(address).Some? && !Blank(text) && Trim(text) == text
    ensures Compose(avm, rail, address, Some(text)) == Generated(text, true)
  {
    hide Blank;
    hide Trim;
  }

  lemma SampleIsCovered()
    ensures DEPS.avm.value(ADDRESS).Some?
  {
  }

  lemma SecondDraft()
    ensures Compose(DEPS.avm, DEPS.rail, ADDRESS, Some(Headline())) == Generated(Headline(), true)
  {
    hide *;
    SentencesAreWhole();
    WholeIsNotBlank(Headline());
    SampleIsCovered();
    RevisedDraft(DEPS.avm, DEPS.rail, ADDRESS, Headline());
  }

  lemma SampleThresholds()
    ensures DEPS.critic.threshold >= 0.6 && DEPS.confidenceThreshold <= 0.78
  {
  }

  lemma SecondPassSends(now: seq<Fact>, st: State)
    requires Stocked(now) && st.attempts == 1 && st.address == ADDRESS && st.query == ""
    requires ReviseFrom(st) == Some(Headline())
    ensures var next := Pass(DEPS, now, st); RouteAfterDecide(DEPS, next) == Send && next.draft == Headline()
  {
    hide *;
    StartShape();
    PassDecides(DEPS, now, st);
    var next := Pass(DEPS, now, st);
    SecondDraft();
    SecondVerification(now);
    DecidedSample(now, next);
    SentencesAreClean();
    QuietNeverEscalatesHard(next);
    SampleThresholds();
    SendsIff(DEPS, now, next);
  }

  lemma FinishSends(facts: seq<Fact>, st: State)
    requires st.verification.Some? && st.decision.Some? && RouteAfterDecide(DEPS, st) == Send
    ensures var r := Finish(DEPS, facts, st, 0);
            && r.state.outcome == Some(Sent) && r.state.attempts == st.attempts && r.packets == []
            && r.state.finalMessage == st.verification.value.approvedMessage
  {
    hide RouteAfterDecide;
  }

  lemma TwoPasses(d: Deps, facts: seq<Fact>, st: State, sinkSize: nat)
    requires var next := Pass(d, Ingested(d, facts, st.address), st); RouteAfterDecide(d, next) == Regenerate
    ensures var now := Ingested(d, facts, st.address);
            Run(d, facts, st, sinkSize) == Run(d, now, Pass(d, now, st), sinkSize)
  {
    hide Pass;
    hide Ingested;
    hide RouteAfterDecide;
    hide Finish;
  }

  lemma LastPass(d: Deps, facts: seq<Fact>, st: State, sinkSize: nat)
    requires var next := Pass(d, Ingested(d, facts, st.address), st); RouteAfterDecide(d, next) != Regenerate
    ensures var now := Ingested(d, facts, st.address);
            Run(d, facts, st, sinkSize) == Finish(d, now, Pass(d, now, st), sinkSize)
  {
    hide Pass;
    hide Ingested;
    hide RouteAfterDecide;
    hide Finish;
  }

  /** The run takes the retry edge once and then sends the sentence that survived. */
  lemma RetryThenSend()
    ensures var r := Run(DEPS, [], START, 0);
            && r.state.outcome == Some(Sent) && r.state.attempts == 2
            && r.state.finalMessage == Some(Headline()) && r.packets == []
  {
    hide *;
    StartShape();
    var first := Ingested(DEPS, [], ADDRESS);
    IngestedIsStocked([]);
    FirstPassRetries(first);
    TwoPasses(DEPS, [], START, 0);
    var st := Pass(DEPS, first, START);
    var second := Ingested(DEPS, first, ADDRESS);
    IngestedIsStocked(first);
    SecondPassSends(second, st);
    LastPass(DEPS, first, st, 0);
    PassDecides(DEPS, second, st);
    var last := Pass(DEPS, second, st);
    DecidedSample(second, last);
    SecondVerification(second);
    HeadlineAlone();
    VerifyMeans(CRITIC, second, Headline(), Some(ADDRESS));
    FinishSends(second, last);
  }

  /** The same turn on a thread that holds an earlier turn's handoff id: the run sends and the id stays. */
  lemma OldHandoffIdStays()
    ensures var r := Run(DEPS, [], START.(handoffId := Some(HandoffId(1))), 0);
            r.state.outcome == Some(Sent) && r.packets == [] && r.state.handoffId == Some(HandoffId(1))
  {
    hide Run;
    hide HandoffId;
    var marked := START.(handoffId := Some(HandoffId(1)));
    RetryThenSend();
    TurnsAreIsolated(DEPS, [], START, marked, 0);
    SentKeepsOldHandoffId(DEPS, [], marked, 0);
  }

  // ---- A grounded run ----

  function Same(s: string): string
  {
    s
  }

  const OVERLAP: Critic := Critic(ENGINE, Fake(0.5, map[], Same), 0.6, 5)

  const PLAIN: Valuation := Valuation("9", "8", "10", [])

  const GROUNDED: Deps := Deps(Avm((a: string) => Some(PLAIN), (a: string) => a), RAIL, OVERLAP, QUIET,
                               DEFAULT_CONFIDENCE_THRESHOLD, DEFAULT_HIGH_DOLLAR_BAND, 2, None)

  lemma SameKeepsWord(w: string)
    ensures KeepsWord(Same, w)
  {
    forall a, b
      ensures HoldsWord(Same(a + " " + w + " " + b), w)
    {
      assert Same(a + " " + w + " " + b) == a + " " + w + " " + b;
    }
  }

  lemma GroundedIsConfigured()
    ensures Configured(GROUNDED)
  {
    SameKeepsWord("value");
    SameKeepsWord("contributes");
    RailIsValid();
    hide KeepsWord;
    hide ValidRail;
  }

  lemma CountBounds(facts: seq<Fact>, query: Vector, address: Option<string>, floor: real)
    ensures CountAtLeast(Scored(ENGINE, facts, query, address), floor) <= |facts|
  {
    hide InScope;
    if facts == [] {
    } else {
      CountBounds(facts[1..], query, address, floor);
      var here := Evidence(facts[0], Dot(query, Unit(ENGINE, ENGINE.embed(facts[0].content))));
      var rest := Scored(ENGINE, facts[1..], query, address);
      assert ([here] + rest)[1..] == rest && [] + rest == rest;
    }
  }

  lemma OneFact(address: string)
    ensures FactsFor(GROUNDED.avm, address) == [EstimateFact(address, PLAIN, address)]
    ensures Ingested(GROUNDED, [], address) == [EstimateFact(address, PLAIN, address)]
  {
    hide EstimateFact;
    var history := FactsFor(GROUNDED.avm, address);
    assert history == [EstimateFact(address, PLAIN, address)];
    assert IngestAll([], history) == IngestAll(Upsert([], history[0]), history[1..]);
  }

  lemma OneIsGroundable(address: string, s: string)
    requires s in KeptSentences(RAIL, FactsFor(GROUNDED.avm, address))
    ensures Groundable(OVERLAP, Ingested(GROUNDED, [], address), address, s)
  {
    hide Scan;
    hide Read;
    hide FixtureKey;
    OneFact(address);
    KeptAreClean(RAIL, FactsFor(GROUNDED.avm, address), s);
    var facts := Ingested(GROUNDED, [], address);
    assert facts[0].content == s;
    CountBounds(facts, Unit(ENGINE, ENGINE.embed(s)), Some(address), ScoreOf(ENGINE, s, s));
  }

  lemma GroundedShape(address: string)
    ensures GROUNDED.avm.value(address) == Some(PLAIN) && GROUNDED.rail == RAIL && GROUNDED.critic == OVERLAP
    ensures !HardQuery(GROUNDED, "") && START.query == "" && START.attempts == 0
  {
  }

  lemma OakIsPlain()
    ensures PlainValuation("Oak", PLAIN)
  {
    hide PlainPiece;
    WordIsPiece("Oak");
  }

  /** The grounded run, at a clean address and at one the rail blocks: the assumptions are met, and it sends once. */
  lemma GroundedExample()
    ensures Configured(GROUNDED) && TemplateTables(RAIL) && AvoidsTemplate(RAIL)
    ensures Run(GROUNDED, [], START.(address := "Oak"), 0).state.outcome == Some(Sent)
    ensures Run(GROUNDED, [], START.(address := "Gang"), 0).state.outcome == Some(HandedOff)
  {
    GroundedIsConfigured();
    RailFitsTemplate();
    RailAvoidsTemplate();
    RailIsValid();
    GroundedShape("Oak");
    GroundedShape("Gang");
    OakIsPlain();
    AddressHasNoG();
    NoLetterNoHit(ADDRESS);
    DirtyAddressExample();
    var oak, gang := START.(address := "Oak"), START.(address := "Gang");
    assert ADDRESS == "Oak" && oak.address == "Oak" && gang.address == "Gang";
    assert oak.query == "" && oak.attempts == 0 && gang.attempts == 0;
    hide *;
    forall s | s in KeptSentences(RAIL, FactsFor(GROUNDED.avm, "Oak"))
      ensures Groundable(OVERLAP, Ingested(GROUNDED, [], "Oak"), "Oak", s)
    {
      OneIsGroundable("Oak", s);
    }
    SendsIffAddressClean(GROUNDED, [], oak, 0);
    DirtyAddressNeverSends(GROUNDED, [], gang, 0);
  }

  // ---- A raised turn ----

  const UNCOVERED: Deps := Deps(Avm((a: string) => None, (a: string) => a), LONG_S, OVERLAP, QUIET,
                                DEFAULT_CONFIDENCE_THRESHOLD, DEFAULT_HIGH_DOLLAR_BAND, 2, None)

  lemma NoCoverageParts(address: string)
    ensures NoCoverageDraft(address) ==
            "We don't yet have enough source data on" + " " + address + " " + "to share a valuation."
  {
    assert "We don't yet have enough source data on " == "We don't yet have enough source data on" + " ";
    assert " to share a valuation." == " " + "to share a valuation.";
  }

  lemma UncoveredShape()
    ensures UNCOVERED.avm.value(LONG_SEX).None? && UNCOVERED.rail == LONG_S && UNCOVERED.naturalizer.None?
  {
  }

  /** A turn under a valid rail that ends with neither a message nor a packet: the lookup raises. */
  lemma RaisedTurnExample()
    ensures ValidRail(UNCOVERED.rail)
    ensures var t := TurnOf(UNCOVERED, [], START.(address := LONG_SEX), 0); t.Raised? && t.Packets() == []
  {
    hide *;
    LongRailIsValid();
    UncoveredShape();
    NoCoverageParts(LONG_SEX);
    LongInContext("We don't yet have enough source data on", "to share a valuation.");
    StartShape();
    var st := START.(address := LONG_SEX);
    PlainTurnRaisesIff(UNCOVERED, [], st, 0);
    EveryTurn(UNCOVERED, [], st, 0);
  }

  /** A turn the rail stops: no coverage, and an address that holds the phrase. */
  lemma BlockedTurnExample()
    ensures var r := Run(UNCOVERED, [], START.(address := "sex"), 0);
            r.state.fairHousing.Some? && !r.state.fairHousing.value.allowed && r.state.outcome == Some(HandedOff)
  {
    assert UNCOVERED.avm.value("sex").None?;
    hide *;
    LongRailIsValid();
    UncoveredShape();
    StartShape();
    PhraseIsDirty();
    NoCoverageParts("sex");
    SurroundedAddressHits(LONG_S, "We don't yet have enough source data on", "sex", "to share a valuation.");
    ScanIsExact(LONG_S, NoCoverageDraft("sex"));
    RailTripsIff(UNCOVERED, [], START.(address := "sex"), 0);
  }
}
