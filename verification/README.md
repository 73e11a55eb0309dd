# A verified model of the real-estate assistant's core

This project models the parts of the system where a mistake reaches a customer, and proves what they
promise.

* **Verified send** (`Text`, `Decompose`, `Lossless`, `ClauseTrip`, `Rebuild`, `RoundTrip`, `FairHousing`,
  `RebuildRail`, `Rag`, `Entailment`, `Critic`, `Confidence`, `GateReasons`, `Handoff`, `Generator`, `Graph`,
  `GraphSafety`, `SentenceShape`, `Grounded`, `AddressRail`, `Turns`). A draft is split into claims, each claim is retrieved against the fact store and
  labelled, the Fair Housing rail scans the draft, a composite score and the hard triggers decide, and the run
  sends, tries again or hands off. `Graph.Run` says what a whole run computes, and `Graph.TurnOf` a whole turn, in which
  the rail's term lookup may also raise; `Graph.Orchestrator.Invoke` is the loop over the live store and sink and computes
  exactly that turn. `GraphSafety`, `Grounded` and `AddressRail` hold the results about every run, and `Turns` carries
  them to every turn.
* **Showing booking** (`Booking`, `Slots`, `Inspection`). The appointment table, the four actions on it as a
  protocol, the slots offered to a buyer, and the closing milestone a completed inspection clears.
* **Audit chain** (`AuditChain`, `PayloadFields`). The append-only log and its verifying loop, and when a joined
  payload determines the fields of its row.
* **Arithmetic** (`Reals`, `Blend`, `Amortization`). The recency-weighted comp blend and the buyer's loan.
* **Deals and ingestion** (`Closer`, `BuyerOffer`, `DealLoop`, `Closing`, `Ingestion`). Offers under an
  authorized band, the acquire-to-resell loop, closing milestones on both sides of the gRPC boundary, and
  the GIS/TCAD join into a keyed store.
* **Samples** (`SampleRail`, `Samples`, `SampleOffers`). Concrete rails, runs and offers at which the assumptions
  of the results hold together, and at which the failures listed below occur.

Code that changes state is a class or a method with the source's loops, proved equal to a function of its
inputs or of its old state; the properties are lemmas about those functions. Python and Ruby floats are exact
reals with the source's rounding kept (`round(x, 4)` and `round(x, 2)` to even, Ruby's `round` away from zero);
strings are sequences of characters.

Eight things in the code differ from its documentation, or from what one would expect of it. The model follows the
code; for each there is the exact condition and a concrete input:

* A counter-offer *below* the opening price is reported as escalated, yet no packet is pushed
  (`Closer.BelowOpenPushesNothing`, `SampleOffers.BelowOpenExample`). A price above a ceiling that is not in whole
  cents can go unreported too (`Closer.OddCeilingPushesNothing`, `SampleOffers.OddCeilingExample`);
  `Closer.OutOfBandPacketIff` gives the condition for every price.
* `_clean` strips dangling separators once, so claims that begin with a comma exist
  (`RoundTrip.CommaClaimExample`). Rebuild and split undo each other exactly when there are none
  (`RoundTrip.RebuildThenSplit`, and `GraphSafety.EveryRetryJudgesSurvivors` over whole runs).
* An address that holds a deny-listed phrase empties every grounded draft, so its runs never send
  (`Grounded.DirtyAddressNeverSends`, `SampleRail.DirtyAddressExample`); with a deny-list that stays clear of the
  headline's own words a run sends exactly when the address is clean (`AddressRail.SendsIffAddressClean`).
* A turn that sends leaves an earlier turn's handoff id in the thread state (`GraphSafety.SentKeepsOldHandoffId`,
  `Samples.OldHandoffIdStays`); `Turns.TurnIsolationIff` says exactly when two turns end alike.
* The scan looks a matched text up by its lower-cased form, and raises when that is no listed phrase
  (`FairHousing.RaisesIff`, `SampleRail.LookupRaisesExample`). A turn then ends with neither a message nor a packet
  (`Turns.TurnRaisesIff`, `Samples.RaisedTurnExample`).
* The rail stops a turn only over the fixed draft for an address without coverage (`GraphSafety.RailTripsIff`,
  `Samples.BlockedTurnExample`): for a covered address every draft is made of sentences it has let through.
* Four pings do not make a closed deal, since a milestone can be withdrawn (`Closing.AllPingedMayBeOpen`);
  `Closing.ClosedIff` says when a deal is closed.
* A "|" inside a field moves the boundary between two fields without changing the joined payload
  (`AuditChain.PayloadIsNotPerField`); `PayloadFields.DeterminedIff` says which payloads determine their fields.

Verify everything with `dafny verify dfyconfig.toml`.

## Model

| member | source | states |
|---|---|---|
| `Decompose.SplitSentence` | services/brain/src/brain/lawyer/decompose.py:61-64 | The inner loop yields the non-empty cleaned clauses of a sentence, in order |
| `Decompose.SplitClaims` | services/brain/src/brain/lawyer/decompose.py:47-65 | The nested loops compute the claim list that the round-trip and rail results are about |
| `Rebuild.ClaimsAreAtomic` | services/brain/src/brain/lawyer/decompose.py:21-65 | Splitting is exhaustive: whatever the draft, no claim holds a sentence boundary or a clause separator, and none is blank or padded |
| `Lossless.SplitLosesNothing` | services/brain/src/brain/lawyer/decompose.py:21-65 | Splitting loses and reorders nothing: any draft is its claims in order, and every character outside them is whitespace, a comma or semicolon, or of a conjunction standing between whitespace; between two claims there is at least one |
| `ClauseTrip.SplitOfClauses` | services/brain/src/brain/lawyer/decompose.py:26-65 | Clauses joined by "; ", " and ", " but " or " while ", with or without a comma before it, come back one claim each, in order and unchanged |
| `ClauseTrip.CleanCutsEdges` | services/brain/src/brain/lawyer/decompose.py:42-44 | Cleaning takes whitespace, then commas and semicolons, then whitespace off both ends, once each, and nothing else |
| `Text.WordsOfJoin` | services/brain/src/brain/rag/store.py:28-32 | Whitespace-free words joined by blanks are found again |
| `Rebuild.RebuildIsJoin` | services/brain/src/brain/lawyer/critic.py:199-204 | The rebuilt message is the claims, each with exactly one final full stop, separated by single blanks |
| `RoundTrip.SplitOfJoin` | services/brain/src/brain/lawyer/decompose.py:47-65 | Atomic sentences joined by blanks are found again, one claim each |
| `RoundTrip.CleanSentence` | services/brain/src/brain/lawyer/decompose.py:42-44 | Cleaning an atomic sentence never empties it and changes it exactly when it begins with a comma |
| `RoundTrip.RebuildThenSplit` | services/brain/src/brain/lawyer/critic.py:199-204 | For any selection of any draft's claims, decomposing the rebuilt message gives those claims back in order, each with one full stop, if and only if none begins with a comma; the number of claims is kept in every case |
| `RoundTrip.CommaClaimExample` | services/brain/src/brain/lawyer/decompose.py:42-44 | A draft whose claim begins with a comma: cleaning is not idempotent |
| `FairHousing.FindProtectedTerms` | services/brain/src/brain/lawyer/fair_housing.py:208-225 | The scan loop reports the left-to-right matches under the terms their lower-cased texts name, or raises with the first key that is not found |
| `FairHousing.ReportIsExact` | services/brain/src/brain/lawyer/fair_housing.py:208-225 | The lookup raises if and only if some matched text does not lower-case to a listed phrase; otherwise every match is reported, in order, under the phrase its text lower-cases to |
| `FairHousing.HitsAreComplete` | services/brain/src/brain/lawyer/fair_housing.py:167-225 | Every occurrence of a listed phrase is a match or begins inside one, and the matches come in order and do not overlap |
| `FairHousing.HitsAreLongest` | services/brain/src/brain/lawyer/fair_housing.py:145-170 | With the list longest-first, every match is of the longest phrase that occurs where it starts |
| `FairHousing.ScanOutput` | services/brain/src/brain/lawyer/fair_housing.py:228-257 | The verdict of the regular expression, or the key on which the lookup raises |
| `FairHousing.RaisesIff` | services/brain/src/brain/lawyer/fair_housing.py:208-257 | The scan raises if and only if the text holds a match that lower-cases to no listed phrase, and never on a text it would let through |
| `FairHousing.ScanIsExact` | services/brain/src/brain/lawyer/fair_housing.py:228-257 | A text is allowed if and only if no deny-listed phrase occurs in it anywhere as whole words; otherwise it escalates |
| `FairHousing.MatchesAreHits` | services/brain/src/brain/lawyer/fair_housing.py:208-225 | Every reported match is the text of a real occurrence of a listed phrase, under the term its lower-cased text names |
| `RebuildRail.ClaimsKeepNoHit` | services/brain/src/brain/lawyer/decompose.py:47-65 | No claim of a clean draft holds a listed phrase: the splitter never cuts a word |
| `RebuildRail.RebuildPassesRail` | services/brain/src/brain/lawyer/critic.py:199-204 | If the draft passes the rail, so does the message rebuilt from any selection of its claims |
| `Rag.VectorStore.Ingest` | services/brain/src/brain/rag/store.py:82-88 | The two dicts become those of an upsert by source id, keeping insertion order, one vector per fact |
| `Rag.VectorStore.IngestMany` | services/brain/src/brain/rag/store.py:90-92 | The store becomes the old one with every fact upserted in order |
| `Rag.VectorStore.SearchStore` | services/brain/src/brain/rag/store.py:94-117 | The search over the live dicts is the ranked search over the stored facts |
| `Rag.ScoreAll` | services/brain/src/brain/rag/store.py:108-114 | The scoring loop lists exactly the in-scope facts with their cosine scores, in store order |
| `Rag.LatestWins` | services/brain/src/brain/rag/store.py:82-92 | After any ingest history there is one fact per source id, the latest one ingested |
| `Rag.SortIsStable` | services/brain/src/brain/rag/store.py:116 | Sorting is by descending score, loses nothing and keeps ties in store order |
| `Rag.SearchIsTopK` | services/brain/src/brain/rag/store.py:94-117 | Search returns min(k, in-scope count) facts in descending score, and no omitted in-scope fact scores higher than a returned one |
| `Rag.SearchInScope` | services/brain/src/brain/rag/store.py:94-117 | Every hit is a stored fact scoped to the address, with its own score |
| `Rag.ScopeIff` | services/brain/src/brain/rag/store.py:28-32 | A fact is in scope of an address if and only if it has an address with the same lower-cased words, in number and order; without an address every fact is |
| `Rag.UnitScore` | services/brain/src/brain/rag/store.py:94-117 | Between unit vectors the score is one less half the squared distance, so none scores higher than the vector itself |
| `Rag.UnitIsUnit` | services/brain/src/brain/rag/store.py:82-88 | With the Euclidean norm, what is stored for a non-zero embedding is a unit vector |
| `Rag.RetrieveFrom` | services/brain/src/brain/rag/retriever.py:54-72 | Retrieval over the live store; a blank claim retrieves nothing |
| `Rag.RetrievedIsStored` | services/brain/src/brain/rag/retriever.py:54-72 | Retrieved evidence is a stored fact of the right address at or above the score floor |
| `Rag.RankedIsRetrieved` | services/brain/src/brain/rag/retriever.py:54-72 | The converse: a stored fact of the address is retrieved whenever at most k facts of the address score as high and it reaches the floor |
| `Rag.IngestHoldsAll` | services/brain/src/brain/rag/store.py:82-92 | Facts with distinct ids are all stored once ingested, whatever the store held |
| `Entailment.PickBest` | services/brain/src/brain/lawyer/entailment.py:165-180 | The selection loop ends with the best evidence of the specification |
| `Entailment.EntailByOverlap` | services/brain/src/brain/lawyer/entailment.py:150-217 | The overlap entailer returns the specified verdict, empty evidence and fixtures included |
| `Entailment.BestIsFirstStrongest` | services/brain/src/brain/lawyer/entailment.py:165-180 | The chosen evidence has the strongest overlap of all, and is the first that has it |
| `Entailment.LabelIsExact` | services/brain/src/brain/lawyer/entailment.py:182-217 | Baseless if and only if no evidence reaches the threshold; otherwise the first strongest evidence decides, and entails if and only if its polarity agrees with the claim's |
| `Entailment.VerdictEvidence` | services/brain/src/brain/lawyer/entailment.py:150-217 | With either entailer, evidence in a verdict was retrieved, and an entailed claim has some |
| `Entailment.ExactTextIsEntailed` | services/brain/src/brain/lawyer/entailment.py:150-217 | A claim whose own text was retrieved, with no opposite-polarity evidence covering its content words, is entailed with score 1 |
| `Entailment.OppositeIsContradicted` | services/brain/src/brain/lawyer/entailment.py:150-217 | A claim whose content words are covered, only by evidence of the opposite polarity, is contradicted with score 0 |
| `Entailment.NegationContradicts` | services/brain/src/brain/lawyer/entailment.py:150-217 | A claim that differs from its only evidence by one negation word, in either of the two, is contradicted |
| `Entailment.NegatedIff` | services/brain/src/brain/lawyer/entailment.py:104-120 | A text reads as negated if and only if one of its stripped words is a negation, whatever else it holds |
| `Entailment.ContentIff` | services/brain/src/brain/lawyer/entailment.py:104-117 | Its content words are exactly its stripped words that are neither stopwords nor negations |
| `Entailment.FixtureKeyIff` | services/brain/src/brain/lawyer/entailment.py:146-148 | Two claims share a fixture if and only if they have the same lower-cased words in order |
| `Entailment.FixtureDecides` | services/brain/src/brain/lawyer/entailment.py:184-190 | A fixture decides label and score whatever the texts say, with the first evidence of strongest overlap |
| `Entailment.NoContentIsBaseless` | services/brain/src/brain/lawyer/entailment.py:165-217 | A claim of stopwords and negations only is baseless, whatever was retrieved |
| `Entailment.WordIsRead` | services/brain/src/brain/lawyer/entailment.py:104-120 | A text with a content word standing between blanks has that word among its content tokens |
| `Critic.Citations` | services/brain/src/brain/lawyer/critic.py:92-98 | The loop computes the citation list |
| `Critic.CitationsAreExact` | services/brain/src/brain/lawyer/critic.py:92-98 | The citations are exactly the sources of the supported claims, each once |
| `Critic.JudgeClaims` | services/brain/src/brain/lawyer/critic.py:161-185 | The loop over the live store judges every claim independently, in order |
| `Critic.VerifyDraft` | services/brain/src/brain/lawyer/critic.py:139-187 | Split, retrieve, entail, cite and gate over the live store equal the specified verification |
| `Critic.GateIsExact` | services/brain/src/brain/lawyer/critic.py:189-256 | Approved if and only if every claim is entailed and cited and the mean score reaches the threshold; then the message is the rebuild of all claims, and it is absent if and only if nothing is supported |
| `GateReasons.GateTellsWhy` | services/brain/src/brain/lawyer/critic.py:189-256 | A contradicted claim is the reason whatever else the verdicts hold, else a baseless one, with their number; else a mean under the floor; the good reason stands if and only if none of the three applies |
| `GateReasons.ApprovedTellsWhy` | services/brain/src/brain/lawyer/critic.py:140-256 | Over the whole pipeline a draft is approved if and only if its reason is the good one or that it is empty: no entailed claim goes uncited |
| `Critic.VerifyMeans` | services/brain/src/brain/lawyer/critic.py:139-256 | For any draft, the verdicts are about exactly its claims, and what survives is the rebuild of exactly the supported ones |
| `Critic.CitationsAreStored` | services/brain/src/brain/lawyer/critic.py:139-187 | No source, no claim: a claim is cited if and only if it is entailed, and the citation names a stored fact scoped to the address |
| `Confidence.ApprovedCompositeBand` | services/brain/src/brain/lawyer/confidence.py:184-238 | Any approved non-empty draft, with a Critic floor of at least 0.6, has a composite between 0.78 and 0.82 |
| `Confidence.BandIsTight` | services/brain/src/brain/lawyer/confidence.py:184-238 | Both ends of that band are reached by approved one-claim drafts, at the floor and at a perfect score |
| `Confidence.HighStakesCeiling` | services/brain/src/brain/lawyer/confidence.py:163-238 | A high-stakes draft with no measured self-consistency scores at most 0.58 |
| `Confidence.SignalsAre` | services/brain/src/brain/lawyer/confidence.py:127-160 | Coverage is the share of cited claims; agreement is half the share of entailed claims and half the mean score |
| `Confidence.MeanMoves` | services/brain/src/brain/lawyer/critic.py:189-198 | A change of one claim's score moves the mean by its share of the claims |
| `Confidence.MeanBetween` | services/brain/src/brain/lawyer/critic.py:189-198 | The mean lies between the lowest and the highest score |
| `Confidence.OneWeakSignal` | services/brain/src/brain/lawyer/confidence.py:184-238 | How far one weak signal pulls a composite that is otherwise perfect, for each of the three |
| `Confidence.UncitedCeiling` | services/brain/src/brain/lawyer/confidence.py:184-238 | A draft of which nothing is cited scores at most 0.3, whatever else |
| `Confidence.EmptyDraftScore` | services/brain/src/brain/lawyer/confidence.py:184-238 | A draft without claims scores 0.82, and 0.58 when the stakes are high |
| `Handoff.HandoffSink.Push` | services/brain/src/brain/lawyer/handoff.py:203-215 | Pushing appends exactly that packet and returns its numbered id |
| `Handoff.HandoffIdsDiffer` | services/brain/src/brain/lawyer/handoff.py:212-215 | Packets of one sink have different ids |
| `Handoff.DecideInto` | services/brain/src/brain/lawyer/handoff.py:357-485 | The sink gains exactly the packet of the decision, and none when it proceeds |
| `Handoff.PacketNamesFirstCause` | services/brain/src/brain/lawyer/handoff.py:302-485 | The packet names a hard trigger if and only if it fires and none before it in the order of precedence does, low confidence only when none fires; it carries the composite score and exactly the cited sources |
| `Handoff.EscalatesIff` | services/brain/src/brain/lawyer/handoff.py:357-450 | A decision escalates if and only if a hard trigger fires or the composite is under the threshold |
| `Handoff.HighStakesAlwaysEscalates` | services/brain/src/brain/lawyer/handoff.py:357-450 | A high-stakes draft with no measured self-consistency always reaches a human |
| `Handoff.ApprovedEscalatesOnlyHard` | services/brain/src/brain/lawyer/handoff.py:357-450 | An approved draft is escalated if and only if a hard trigger fires |
| `Generator.BuildFacts` | services/brain/src/brain/rag/retriever.py:91-137 | The adapter yields the headline fact and one fact per feature, in order |
| `Generator.PreScreen` | services/brain/src/brain/orchestrator/generator.py:152-154 | The comprehension keeps exactly the allowed sentences, in order, or raises with the first sentence to raise |
| `Generator.FirstRaiseIff` | services/brain/src/brain/orchestrator/generator.py:152-154 | The prescreening raises if and only if the scan of some sentence does |
| `Generator.GenerateDraft` | services/brain/src/brain/orchestrator/generator.py:87-156 | Facts are upserted into the store before the draft is composed, also on a revision or when the prescreening then raises; without coverage the store is unchanged |
| `Generator.KeptAreClean` | services/brain/src/brain/orchestrator/generator.py:147-156 | The draft keeps exactly the fact sentences the rail allows |
| `Generator.FactIdsDistinct` | services/brain/src/brain/rag/retriever.py:91-137 | The facts of one valuation have distinct source ids, so none replaces another |
| `Graph.Orchestrator.RunPass` | services/brain/src/brain/orchestrator/graph.py:103-173 | The four nodes over the live store equal one specified pass over the facts as they stand after the ingest, or raise with the specified key |
| `Graph.Orchestrator.SendMessage` | services/brain/src/brain/orchestrator/graph.py:176-222 | The send node over the live store, with its re-check of a rewrite, whose scan may raise |
| `Graph.Orchestrator.HandOver` | services/brain/src/brain/orchestrator/graph.py:225-304 | The handoff node pushes exactly one packet, its own or the forced one |
| `Graph.Orchestrator.Invoke` | services/brain/src/brain/orchestrator/graph.py:409-498 | The whole loop over the live store and sink computes exactly `TurnOf`: final state or raised key, facts and pushed packets |
| `GraphSafety.SentIsVerified` | services/brain/src/brain/orchestrator/graph.py:176-222 | At every send, rewritten or not: at least one claim, all entailed and citing a stored fact of the address, the message is the rebuild of exactly those claims, citations and audit rows are theirs, no packet |
| `GraphSafety.SentPassesFairHousing` | services/brain/src/brain/orchestrator/graph.py:143-222 | Every sent message holds no listed phrase, although only the draft was scanned |
| `GraphSafety.RegeneratedPassesRail` | services/brain/src/brain/orchestrator/graph.py:103-148 | A pass that follows a regenerate never newly trips the rail |
| `GraphSafety.CoveredNeverTrips` | services/brain/src/brain/orchestrator/graph.py:103-148 | For a covered address the rail never stops a turn started at attempts 0, on whatever pass |
| `GraphSafety.RailTripsIff` | services/brain/src/brain/orchestrator/graph.py:103-148 | The rail stops such a turn if and only if the address has no coverage and the fixed draft about it holds a listed phrase; the turn then made one pass and hands off |
| `GraphSafety.RetryJudgesSurvivors` | services/brain/src/brain/orchestrator/graph.py:103-140 | A pass that follows a regenerate judges exactly the claims that survived the one before, each with one full stop, if and only if none begins with a comma; their number is kept in every case |
| `GraphSafety.EveryRetryJudgesSurvivors` | services/brain/src/brain/orchestrator/graph.py:103-403 | The same for every consecutive pair of passes of every run, so no pass judges more claims than the one before it |
| `GraphSafety.PacketsAndPasses` | services/brain/src/brain/orchestrator/graph.py:225-403 | Between 1 and max(1, max_attempts) passes; no packet on a send, exactly one on a handoff, with no message |
| `GraphSafety.HandedOffPacketIsFaithful` | services/brain/src/brain/orchestrator/graph.py:225-304 | Whatever path led to it, the pushed packet carries the address, the query, the last verification's citations and composite, and the hard trigger that fired if one did |
| `GraphSafety.PacketTellsWhy` | services/brain/src/brain/orchestrator/graph.py:225-317 | The packet of a run that hands off tells why: it reports insufficient data, or the spent attempts, if and only if that is so; and the hard trigger, the score under the threshold, or, when neither is to report, the Critic's reason with the steps done |
| `GraphSafety.HardQueryEndsAtOnce` | services/brain/src/brain/orchestrator/graph.py:351-403 | A query that fires a hard trigger ends after exactly one pass, with one hard-trigger packet |
| `GraphSafety.SendsIff` | services/brain/src/brain/orchestrator/graph.py:365-401 | With the default thresholds the router sends if and only if data is sufficient, claims exist, the Critic approved and no hard trigger fired |
| `GraphSafety.RoutesAre` | services/brain/src/brain/orchestrator/graph.py:351-403 | For any thresholds: a pass is sent if and only if there are data and claims, the Critic approved, the composite reaches the threshold and no hard trigger fired; it is tried again if and only if it is not so confident, nothing is contradicted, something is supported, no hard trigger fired and attempts are left |
| `GraphSafety.PassesAreRouted` | services/brain/src/brain/orchestrator/graph.py:351-498 | Over every run: a pass is followed by another if and only if it is to be tried again, and the last one decides the outcome and the packets |
| `GraphSafety.ContradictionEndsRun` | services/brain/src/brain/orchestrator/graph.py:385-403 | A pass that holds a contradicted claim is the run's last, the run hands off, and exactly one packet is pushed |
| `GraphSafety.RewriteSentIff` | services/brain/src/brain/orchestrator/graph.py:176-222 | A rewrite is sent if and only if the Critic approves it with at least one claim and its rebuild holds no listed phrase; message and trace are then the rewrite's, else both the draft's |
| `GraphSafety.NoRewriteSendsDraft` | services/brain/src/brain/orchestrator/graph.py:176-222 | Without another text to offer the draft's message is sent |
| `GraphSafety.SentCitesAddress` | services/brain/src/brain/orchestrator/graph.py:176-222 | Every claim of a sent message cites a stored fact whose address has the same lower-cased words as the run's |
| `GraphSafety.TurnsAreIsolated` | services/brain/src/brain/server.py:219-229 | A turn started at attempts 0 gives the same state, facts and packets whatever an earlier turn left; only the handoff id may differ, and only on a send |
| `GraphSafety.IsolationIff` | services/brain/src/brain/server.py:219-229 | Two such runs end exactly alike if and only if the threads held the same handoff id or the run does not send |
| `GraphSafety.SentKeepsOldHandoffId` | services/brain/src/brain/orchestrator/graph.py:176-222 | A turn that sends keeps an earlier handoff id |
| `Turns.FinishedIsRun` | services/brain/src/brain/orchestrator/graph.py:409-498 | A turn in which no lookup raises computes the run, so the results about runs hold of it |
| `Turns.RetryNeverRaises` | services/brain/src/brain/orchestrator/graph.py:103-148 | A pass that follows a regenerate never raises |
| `Turns.TurnRaisesIff` | services/brain/src/brain/orchestrator/graph.py:103-222 | A turn raises if and only if a prescreened sentence, or without coverage the fixed draft, holds an unlisted match, or its passes end in a send whose re-verified rewrite holds one |
| `Turns.PlainTurnRaisesIff` | services/brain/src/brain/orchestrator/graph.py:103-222 | Without a naturalizer, only the first: a condition on the address and its valuation |
| `Turns.EveryTurn` | services/brain/src/brain/orchestrator/graph.py:176-304 | Every turn ends in one of three ways: a verified message free of listed phrases and no packet, one packet and no message, or raised with neither; in at most max(1, max_attempts) passes |
| `Turns.TurnIsolationIff` | services/brain/src/brain/server.py:219-229 | Two turns of one address and query end alike, a raised key included, if and only if the threads held the same handoff id or the turn does not send |
| `Samples.RetryThenSend` | services/brain/src/brain/orchestrator/graph.py:103-403 | A concrete two-pass run under a non-empty deny-list: a half-supported draft is retried with its surviving sentence, which is sent |
| `Samples.OldHandoffIdStays` | services/brain/src/brain/orchestrator/graph.py:176-222 | The same turn on a thread that holds a handoff id: it sends, and the id stays |
| `Samples.GroundedExample` | services/brain/src/brain/orchestrator/generator.py:87-156 | A configuration that meets the assumptions of the grounded run; it sends at a clean address and hands off at a blocked one |
| `SampleRail.DirtyAddressExample` | services/brain/src/brain/lawyer/fair_housing.py:228-257 | A valid rail and an address it blocks |
| `SampleRail.LookupRaisesExample` | services/brain/src/brain/lawyer/fair_housing.py:214-216 | A valid rail with the listed phrase "sex" and a text, spelt with a long s, on which the term lookup raises |
| `Samples.BlockedTurnExample` | services/brain/src/brain/orchestrator/graph.py:143-148 | A concrete turn that the rail stops |
| `Samples.RaisedTurnExample` | services/brain/src/brain/orchestrator/graph.py:143-148 | A concrete turn that raises: neither a message nor a packet |
| `SentenceShape.EstimateIsWhole` | services/brain/src/brain/rag/retriever.py:91-137 | The headline sentence of a plain address is one claim the splitter and the rebuild leave unchanged |
| `SentenceShape.FeatureIsWhole` | services/brain/src/brain/rag/retriever.py:91-137 | So is every feature sentence with a plain label |
| `Grounded.GroundableIsSupportable` | services/brain/src/brain/rag/store.py:94-117 | What a sentence needs of the store, its own score, rank and polarity, gives what the entailer needs of the retrieved evidence |
| `Grounded.GroundedRunSends` | services/brain/src/brain/orchestrator/generator.py:87-156 | Grounded by construction: with no naturalizer and no hard trigger, a run for a covered plain address over a store in which the kept sentences are groundable sends if and only if some fact sentence passes the rail, after one pass, with one claim of score 1 per kept sentence, and the message is the draft |
| `Grounded.DirtyAddressNeverSends` | services/brain/src/brain/orchestrator/generator.py:147-156 | An address the rail blocks empties the draft, and the run hands off |
| `AddressRail.HeadlineIsCleanIff` | services/brain/src/brain/orchestrator/generator.py:147-156 | For a deny-list that stays clear of the headline's own words, the headline passes the rail if and only if the address does |
| `AddressRail.SendsIffAddressClean` | services/brain/src/brain/orchestrator/generator.py:87-156 | Such a run sends if and only if the caller's scan of the address passes |
| `Booking.Desk.RequestShowing` | services/domain/app/controllers/buyer/showings_controller.rb:11-39 | The whole new table, reply and audit rows of a request, every refusal included |
| `Booking.Desk.ConfirmShowing` | services/domain/app/controllers/broker/appointments_controller.rb:7-23 | The same for a confirm: the broker is assigned, or the conflict is refused and audited |
| `Booking.Desk.DeclineShowing` | services/domain/app/controllers/broker/appointments_controller.rb:25-31 | The same for a decline |
| `Booking.Desk.CompleteShowing` | services/domain/app/controllers/broker/appointments_controller.rb:33-37 | The same for a completion, up to the closing milestone |
| `Booking.EveryRunIsSafe` | services/domain/app/models/appointment.rb:37-73 | Every sequence of actions, on any ids, keeps active appointments from overlapping on a property or for an assigned broker |
| `Booking.EmptyTableIsSafe` | services/domain/app/models/appointment.rb:37-73 | So every table reached from the empty one is safe |
| `Booking.NeverTwiceAtOnce` | services/domain/app/models/appointment.rb:30-73 | In every table reached from the empty one, at no instant do two requested or confirmed appointments hold the same property, or the same named broker |
| `Booking.RunKeepsChain` | services/domain/app/models/audit_event.rb:24-66 | Over every run the log gains one row per action carried out and one per refused confirm, and no other; the chain stays intact; and the rows written tell the status of every appointment in the table |
| `Booking.BackstopNeverFires` | services/domain/app/models/appointment.rb:60-73 | The create-time backstop never rejects what the commit-time check accepted |
| `Booking.RequestSucceedsIff` | services/domain/app/controllers/buyer/showings_controller.rb:11-39 | A request is accepted if and only if the listing is browsable, a time is given and no active appointment of the property overlaps the half hour |
| `Booking.RequestByInstants` | services/domain/app/controllers/buyer/showings_controller.rb:11-39 | In such a table a request succeeds if and only if the listing is listed, priced and not retired, a time is given, and no requested or confirmed appointment of the property holds an instant of the half hour |
| `Booking.ConfirmByInstants` | services/domain/app/controllers/broker/appointments_controller.rb:7-23 | A confirm succeeds if and only if no other such appointment holds an instant of it on its property, or for the named broker |
| `Slots.SlotsOfDay` | services/domain/app/services/showing_scheduler.rb:77-87 | The cursor loop yields exactly the future slots among a day's eighteen |
| `Slots.CandidateSlots` | services/domain/app/services/showing_scheduler.rb:73-90 | The day loop yields the candidates of the whole horizon |
| `Slots.CollectFree` | services/domain/app/services/showing_scheduler.rb:31-37 | The loop with its early break yields the first twelve free candidates |
| `Slots.AvailableSlots` | services/domain/app/services/showing_scheduler.rb:24-41 | Slots and reason of an offer, blackouts included |
| `Slots.CandidatesExact` | services/domain/app/services/showing_scheduler.rb:73-90 | A slot is a candidate if and only if it is on the business-hours half-hour grid of the horizon and in the future |
| `Slots.CandidatesAreInHours` | services/domain/app/services/showing_scheduler.rb:73-90 | In clock terms: the candidates are the future half hours of the next seven days that start on the half hour from 9:00 to 17:30 |
| `Slots.OffersAreExact` | services/domain/app/services/showing_scheduler.rb:24-61 | Offered slots are on the grid, accepted by `slot_free?`, at most twelve, in order and disjoint; a free slot is missing only when twelve earlier ones are offered |
| `Slots.OffersInHours` | services/domain/app/services/showing_scheduler.rb:24-61 | In clock terms: at most twelve such half hours are offered, and all the free ones when fewer |
| `Slots.ReasonIffEmpty` | services/domain/app/services/showing_scheduler.rb:24-41 | A reason is given if and only if the list is empty |
| `Slots.BlackedOutIff` | services/domain/app/services/showing_scheduler.rb:64-69 | A retired, under-offer or sold property is blacked out and offered no slot, and no other is |
| `Slots.OfferedIsBookable` | services/domain/app/services/showing_scheduler.rb:43-61 | Requesting an offered slot of a browsable listing is accepted |
| `Slots.OfferedIsConfirmed` | services/domain/app/controllers/broker/appointments_controller.rb:7-23 | A slot offered for a broker, once requested, is also confirmed by that broker |
| `Inspection.CompleteAppointment` | services/domain/app/controllers/broker/appointments_controller.rb:33-46 | The whole completion: the table, the reply, the audit rows, and, for an inspection whose deal resolves, that deal's milestones and no other deal's |
| `Inspection.ResolveIsExact` | services/domain/app/models/appointment.rb:44-50 | The named deal if it exists, else a signed deal on the property with the requester's contact, else the only one; none if and only if no contact matches and there is not exactly one |
| `Inspection.InspectionClearsOnce` | services/domain/app/services/closing_orchestration.rb:30-61 | A completed inspection records the first milestone if and only if the deal has none, keeps the order, and a later one changes nothing |
| `AuditChain.AuditLog.Append` | services/domain/app/models/audit_event.rb:43-66 | A valid entry adds exactly one chained row; a blank kind writes nothing |
| `AuditChain.AuditLog.ChainIntact` | services/domain/app/models/audit_event.rb:45-54 | The verifying loop returns true if and only if the chain is intact |
| `AuditChain.AppendKeepsIntact` | services/domain/app/models/audit_event.rb:43-66 | Appending gives an intact chain if and only if the chain was intact |
| `AuditChain.AppendedIsIntact` | services/domain/app/models/audit_event.rb:43-66 | Every log extended by appends stays intact |
| `AuditChain.SameHeadSameLog` | services/domain/app/models/audit_event.rb:45-66 | Two intact logs with the same last hash have the same length and joined payloads, or two of their payloads collide under the hash |
| `AuditChain.TamperingIsDetected` | services/domain/app/models/audit_event.rb:45-66 | A log edited, reordered or shortened inside while keeping the last hash is not intact, or exhibits a collision |
| `AuditChain.PrefixIntact` | services/domain/app/models/audit_event.rb:45-54 | A log cut at its end is still intact: the chain alone does not show it |
| `AuditChain.PayloadIsNotPerField` | services/domain/app/models/audit_event.rb:56-59 | Two different entries with the same joined payload |
| `PayloadFields.DeterminedIff` | services/domain/app/models/audit_event.rb:56-59 | A payload determines the texts of all its fields and of the previous hash, against every other entry and hash, if and only if no field of the entry holds a vertical bar |
| `PayloadFields.FieldEditIsDetected` | services/domain/app/models/audit_event.rb:45-66 | In a log whose fields hold no bar an edit of any single field is detected: any intact log with the same last hash has the same texts in every row, or exhibits a collision, with nothing assumed of its fields |
| `PayloadFields.BarHidesAnEdit` | services/domain/app/models/audit_event.rb:45-66 | Only in such logs: a bar in some field gives another intact log with the same payloads and hashes and other texts |
| `Blend.AnchorBetweenImplied` | services/brain/src/brain/valuation/market.py:35-75 | The weighted anchor lies between the lowest and the highest implied price |
| `Blend.BandHoldsEstimate` | services/brain/src/brain/valuation/market.py:35-75 | 0 <= low <= estimate <= high, the band contains the model's, and neither the estimate in the min and max nor the floor at zero ever matters |
| `Blend.OrderDoesNotMatter` | services/brain/src/brain/valuation/market.py:35-75 | Permuting the comps leaves estimate and band unchanged |
| `Blend.AgeingTogetherDoesNotMatter` | services/brain/src/brain/valuation/market.py:31-75 | Ageing all comps of non-negative age by the same number of days leaves estimate and band unchanged |
| `Blend.HalfLife` | services/brain/src/brain/valuation/market.py:31-32 | With the 30-day factor, thirty more days halve a comp's weight |
| `Blend.EstimateIs` | services/brain/src/brain/valuation/market.py:35-75 | The estimate lies seventy per cent of the way from the prediction to the anchor, with one citation per usable comp; without usable comps it is the prediction |
| `Blend.AnchorBalances` | services/brain/src/brain/valuation/market.py:35-75 | The anchor is the mean of the implied prices, each counted by its weight |
| `Blend.OneComp` | services/brain/src/brain/valuation/market.py:35-75 | With one comp the anchor is its price per square foot times the subject's area |
| `Blend.NewerCountsTwice` | services/brain/src/brain/valuation/market.py:31-75 | Of two comps thirty days apart the newer counts twice |
| `Amortization.ExactPaymentClosesLoan` | services/domain/app/services/decision_bundle.rb:53-60 | The unrounded payment drives the balance recurrence to exactly zero after n months |
| `Amortization.OnlyExactPaymentCloses` | services/domain/app/services/decision_bundle.rb:53-60 | No other payment does |
| `Amortization.RoundedPaymentResidual` | services/domain/app/services/decision_bundle.rb:53-60 | The whole-dollar payment leaves at most half a dollar times ((1+r)^n - 1)/r, or n/2 dollars at a zero rate |
| `Amortization.DownPaymentAndLoan` | services/domain/app/services/decision_bundle.rb:44-50 | Down payment and loan add up to the offer, and the loan is within half a dollar of its share |
| `Amortization.RateAndTerm` | services/domain/app/services/decision_bundle.rb:53-55 | Twelve months of the rate make the annual percentage, and twelve months a year of the term |
| `Amortization.PaymentExample` | services/domain/app/services/decision_bundle.rb:53-60 | A concrete loan and its payment |
| `Amortization.ZeroRateExample` | services/domain/app/services/decision_bundle.rb:53-56 | A concrete loan without interest; there is no payment if and only if the term is zero |
| `Closer.ValidateContingencies` | services/brain/src/brain/lawyer/trec_form.py:198-220 | The first selection outside the form is refused; else the distinct selections are kept in order |
| `Closer.DistinctIsExact` | services/brain/src/brain/lawyer/trec_form.py:198-220 | The kept selections are exactly the selected ones, each once |
| `Closer.FillTrecForm` | services/brain/src/brain/lawyer/trec_form.py:223-260 | The filled blanks, or the first error in the source's order: clause, blanks, contingencies |
| `Closer.FilledIff` | services/brain/src/brain/lawyer/trec_form.py:160-260 | A form is filled if and only if no clause is asked for, every blank holds text, the price is positive, the earnest money not negative, and financing, the one contingency the form does not offer, is not selected |
| `Closer.Closer.DraftOffer` | services/brain/src/brain/orchestrator/closer.py:307-421 | The result, the emitted offers and the pushed packets of one draft, over the two live sinks |
| `Closer.DraftIsExclusive` | services/brain/src/brain/orchestrator/closer.py:242-421 | At most one offer or one packet, never both; an offer is emitted if and only if the draft succeeds, and it is in its band, for the requested address and awaiting a broker |
| `Closer.DraftSaysWhatWasAsked` | services/brain/src/brain/orchestrator/closer.py:335-450 | A drafted offer is at the requested price, in whole cents, or the opening price; its form holds the trimmed parties, address and dates, that price, and one per cent of it as earnest money |
| `Closer.PacketSaysWhatWasAsked` | services/brain/src/brain/orchestrator/closer.py:350-403 | A packet is for the request's lead, with its transcript, steps and citation; it names the price above the ceiling, or asks for advice on the clause |
| `Closer.GroundedIsGated` | services/brain/src/brain/orchestrator/closer.py:270-289 | The verification an offer carries is the one the Critic's gate gives its claim at any floor up to 0.95 |
| `Closer.CustomClausePushesOnePacket` | services/brain/src/brain/orchestrator/closer.py:335-375 | A custom-clause request emits no offer and pushes exactly one hard legal packet |
| `Closer.OutOfBandPacketIff` | services/brain/src/brain/orchestrator/closer.py:377-403 | An otherwise valid out-of-band price emits no offer, and pushes one hard high-dollar packet if and only if it reaches the ceiling plus one cent, rounded |
| `Closer.AboveCeilingPushesOnePacket` | services/brain/src/brain/orchestrator/closer.py:377-403 | With a whole-cent ceiling, every explicit price whose cent rounding is above it pushes exactly one hard packet |
| `Closer.BelowOpenPushesNothing` | services/brain/src/brain/orchestrator/closer.py:377-403 | A price below the opening price emits nothing and pushes nothing |
| `Closer.OddCeilingPushesNothing` | services/brain/src/brain/orchestrator/closer.py:377-403 | A price above the ceiling but under the rounded ceiling plus one cent emits nothing and pushes nothing |
| `SampleOffers.CounterIsReported` | services/brain/src/brain/orchestrator/closer.py:377-403 | A concrete counter-offer above its ceiling that pushes one packet |
| `SampleOffers.OddCeilingExample` | services/brain/src/brain/orchestrator/closer.py:377-403 | A concrete draft at 100.01 over a ceiling of 100.006: out of band, and no packet |
| `SampleOffers.BelowOpenExample` | services/brain/src/brain/orchestrator/closer.py:377-403 | A concrete draft below its opening price: out of band, and no packet |
| `BuyerOffer.DraftBuyerOffer` | services/brain/src/brain/orchestrator/buyer_offer.py:141-278 | The buyer draft over the two live sinks; a property without an address raises before anything is emitted |
| `BuyerOffer.BuyerMirrorsSeller` | services/brain/src/brain/orchestrator/buyer_offer.py:218-257 | The guardrails do not depend on the side: the buyer draft is the seller draft with only the offer's side changed, and it is stamped if and only if it drafted |
| `DealLoop.PropertyState.Advance` | services/brain/src/brain/orchestrator/loop.py:145-150 | The one legal next state is taken and recorded; any other target changes nothing |
| `DealLoop.HistoryIsPrefix` | services/brain/src/brain/orchestrator/loop.py:115-163 | For every sequence of transition calls the history is a prefix of acquired, listed, under_offer, sold that ends in the status; sold if and only if it is the whole of it |
| `DealLoop.PropertyLoop.RunLoop` | services/brain/src/brain/orchestrator/loop.py:268-428 | The outcome, offers and packets of a run over the live sinks, every failure included; no transition is ever refused |
| `DealLoop.TwoOffersIffSold` | services/brain/src/brain/orchestrator/loop.py:336-428 | A run emits two offers if and only if the property is sold; both are then in their bands, awaiting a broker and for the same address, the history is complete and no packet is pushed; a failed run has at most one of each |
| `DealLoop.SoldOffersSayWhatWasAsked` | services/brain/src/brain/orchestrator/loop.py:336-428 | Both offers of a sold deal are at their requested prices and name their own parties |
| `DealLoop.RequestsAre` | services/brain/src/brain/orchestrator/loop.py:336-413 | The resale names the seller given for it, or else the acquisition's, at the same address |
| `DealLoop.DraftsIff` | services/brain/src/brain/orchestrator/closer.py:335-421 | A side drafts if and only if its blanks are filled, no clause is asked for and the price is in band |
| `DealLoop.SellsIff` | services/brain/src/brain/orchestrator/loop.py:336-428 | A run sells if and only if both sides can draft, the property has an id and the buyer matches it |
| `DealLoop.OfferOutlivesFailure` | services/brain/src/brain/orchestrator/loop.py:336-428 | A failed run leaves the acquisition offer in the queue if and only if the acquisition could draft |
| `Closing.ClosingOrchestrator.Record` | services/brain/src/brain/orchestrator/closing.py:169-190 | The whole new met, pinged and ping state; a ping is emitted only for a met milestone not pinged before |
| `Closing.PingedOnceIffEverMet` | services/brain/src/brain/orchestrator/closing.py:138-190 | For any reports, a milestone is pinged exactly once if it was ever met and never otherwise, always to the counterparty of the table |
| `Closing.ClosedMeansAllPinged` | services/brain/src/brain/orchestrator/closing.py:152-190 | A closed deal has exactly the four pings |
| `Closing.ClosedIff` | services/brain/src/brain/orchestrator/closing.py:152-190 | A deal is closed if and only if the last report about every milestone said it was met |
| `Closing.AllPingedMayBeOpen` | services/brain/src/brain/orchestrator/closing.py:152-190 | The converse of `ClosedMeansAllPinged` fails: with four milestones met and one withdrawn, a closed deal is open again although each of the four pings is out exactly once |
| `Closing.RecordMilestoneRpc` | services/brain/src/brain/closer_service.py:102-127 | An unknown name aborts; otherwise a fresh orchestrator pings exactly once, and the flag, the counterparty and the message are returned |
| `Closing.ClosingGate.Record` | services/domain/app/services/closing_orchestration.rb:30-61 | The reply, the new milestone rows and the audit row of a call, with the brain reachable or not |
| `Closing.GateRecordsInOrder` | services/domain/app/services/closing_orchestration.rb:30-61 | For every call sequence and any outages, the recorded milestones are a prefix of the canonical order with the routing table's counterparties |
| `Closing.GateAcceptsIffNext` | services/domain/app/models/offer.rb:42-47 | A call records if and only if it names the next milestone; nothing is next if and only if all four are recorded |
| `Closing.OutageOnlyAddsSuffix` | services/domain/app/services/closing_orchestration.rb:44-55 | A brain outage changes nothing of a row but its status and a suffix of its message |
| `Closing.EntryOf` | services/domain/app/services/closing_orchestration.rb:55-58 | The entry names the offer and the milestone, and its detail opens with the counterparty and "pending" or "simulated" |
| `Closing.EntryTellsRow` | services/domain/app/services/closing_orchestration.rb:51-58 | The audit entry of a recorded milestone tells the offer, the milestone and whether the ping went out |
| `Ingestion.JoinGISAndTCAD` | services/ingestion/tcad_loader.go:94-139 | The three loops compute the specified join list, duplicates included |
| `Ingestion.MemStore.PutProperty` | services/ingestion/store.go:31-36 | The store changes under that key only |
| `Ingestion.MemStore.Properties` | services/ingestion/store.go:45-54 | The snapshot holds exactly the stored records, one per key |
| `Ingestion.IngestProperties` | services/ingestion/ingest.go:13-27 | The count and the new store; when either parser fails nothing is written |
| `Ingestion.IngestIsOuterJoin` | services/ingestion/tcad_loader.go:94-139 | Under every key the store ends with the last parcel's geometry and the last matching record's values, the last record alone, or what it held before |
| `Ingestion.JoinedFields` | services/ingestion/tcad_loader.go:94-139 | Field by field: geometry from the last parcel, values from the last record, blanks and zeros for a missing side |
| `Ingestion.SourcesTellSides` | services/ingestion/tcad_loader.go:94-139 | The source tags of a touched key say exactly which sides contributed |

## Left out

- gRPC, HTTP, language-model and provider clients, views and migrations: I/O. The naturalizer and the injected entailer client are arbitrary functions.
- The sklearn valuation model: a function of the address whose dollar amounts arrive formatted as strings.
- The PostgreSQL vector store: SQL, with its own address normalisation.
- The intent regular expressions for legal, hostile and human-request text: boolean functions of the text. The Closer's results assume that its own custom-clause text matches the legal detector and its counter text matches none.
- The words of reasons, rationales and recommended actions: kept as data that names the case, not as sentences.
- Case folding, `\w` and `str.lower`: arbitrary character and string functions, of which only `FairHousing.ValidRail` and, for the grounded run, `Entailment.KeepsWord` and `AddressRail.TemplateTables` are assumed.
- Validation inside the `Fact` constructor, and fact metadata.
- A real entailer with no client, and unparsable labels: both raise in the source.
- Floating-point rounding error: scores, weights and amounts are exact reals. The comp weight is a per-day factor raised to the age, and the results hold for every positive factor.
- LangGraph's own recursion limit and the checkpoint serializer.
- Concurrency: each booking action and each log append is one atomic step, and no lock is visible in the source.
- Daylight saving and sub-second times; the midnight that begins the current day is a parameter of the scheduler.
- Appointment timestamps and requester names, and the wording of audit details in booking.
- The thread state a checkpointer keeps of a turn that raises: `Turns.TurnIsolationIff` covers whatever it leaves.
- Closer.Closer.DraftOffer: the sentence that explains the result; the constructor of the result names the case.
- A collision-free SHA-256 is not assumed: the tamper results exhibit the colliding pair instead.
- Rates of -1200 percent a year or less, at which the monthly factor is not positive.
- The band derived from a valuation, and the buyer's matching criteria: the matcher's answer is a boolean of the deal.
- A property state constructed with a status or history other than the entry ones.
- The listing feed and its store; the buyer and seller intake forms; intent triage; the disclosure tracker; time-to-offer averages; consent flags: field checks and counters outside the protocols above.
- The property lifecycle in Rails: its importer sets states directly, so it promises no order.
- Grounded.GroundedRunSends: assumes of the store that each kept sentence reaches the score floor against itself, that at most k facts of the address score as high, and that no fact of the address with the opposite polarity covers all its content words; and that no fixture pins its verdict.
- Closer.AboveCeilingPushesOnePacket: needs a whole-cent ceiling; `Closer.OutOfBandPacketIff` gives the condition for every ceiling.
