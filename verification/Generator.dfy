/**
 * The grounded writer: value the address, ingest the facts, compose the draft from their sentences.
 * The valuation model is a function of the address; its dollar amounts arrive formatted.
 */
module Generator {
  import opened Options
  import opened Text
  import opened Rag
  import opened FairHousing

  datatype Feature = Feature(description: string, contribution: string)

  datatype Valuation = Valuation(estimate: string, low: string, high: string, features: seq<Feature>)

  /** `estimate_value` (absent when there is no coverage) and the run-id slug of an address. */
  datatype Avm = Avm(value: string -> Option<Valuation>, runId: string -> string)

  function EstimateSentence(address: string, v: Valuation): string
  {
    "Estimated value for " + address + " is $" + v.estimate + " (range $" + v.low + "-$" + v.high + ")."
  }

  function FeatureSentence(address: string, f: Feature): string
  {
    f.description + " contributes $" + f.contribution + " to the " + address + " valuation."
  }

  function EstimateFact(address: string, v: Valuation, runId: string): Fact
  {
    Fact(runId + ":estimate", "valuation_run", EstimateSentence(address, v), Some(address))
  }

  function FeatureFact(address: string, f: Feature, runId: string, i: nat): Fact
  {
    Fact(runId + ":feature:" + Decimal(i), "valuation_run", FeatureSentence(address, f), Some(address))
  }

  /** What `valuation_facts` returns for a covered address. */
  function ValuationFacts(address: string, v: Valuation, runId: string): (facts: seq<Fact>)
    ensures |facts| == 1 + |v.features|
  {
    [EstimateFact(address, v, runId)]
    + seq(|v.features|, i requires 0 <= i < |v.features| => FeatureFact(address, v.features[i], runId, i))
  }

  /** `valuation_facts` */
  method BuildFacts(address: string, v: Valuation, runId: string) returns (facts: seq<Fact>)
    ensures facts == ValuationFacts(address, v, runId)
  {
    hide EstimateFact;
    hide FeatureFact;
    facts := [EstimateFact(address, v, runId)];
    for i := 0 to |v.features|
      invariant facts == ValuationFacts(address, v, runId)[..i + 1]
    {
      facts := facts + [FeatureFact(address, v.features[i], runId, i)];
    }
  }

  /** The fact sentences the wording rail lets through. */
  function KeptSentences(rail: Rail, facts: seq<Fact>): seq<string>
  {
    if facts == [] then []
    else (if Scan(rail, facts[0].content).allowed then [facts[0].content] else []) + KeptSentences(rail, facts[1..])
  }

  function NoCoverageDraft(address: string): string
  {
    "We don't yet have enough source data on " + address + " to share a valuation."
  }

  datatype Generated = Generated(draft: string, sufficientData: bool)

  /** The facts a valuation of the address produces: none without coverage. */
  function FactsFor(avm: Avm, address: string): seq<Fact>
  {
    var v := avm.value(address);
    if v.None? then [] else ValuationFacts(address, v.value, avm.runId(address))
  }

  /** The draft `generate_grounded_draft` composes. */
  function Compose(avm: Avm, rail: Rail, address: string, reviseFrom: Option<string>): Generated
  {
    if avm.value(address).None? then Generated(NoCoverageDraft(address), false)
    else if reviseFrom.Some? && !Blank(reviseFrom.value) then Generated(Trim(reviseFrom.value), true)
    else Generated(Join(" ", KeptSentences(rail, FactsFor(avm, address))), true)
  }

  /** The key on which the prescreening raises, if it does: that of the first sentence to raise. */
  function FirstRaise(rail: Rail, facts: seq<Fact>): Option<string>
  {
    if facts == [] then None
    else if ScanRaise(rail, facts[0].content).Some? then ScanRaise(rail, facts[0].content)
    else FirstRaise(rail, facts[1..])
  }

  /** The key on which composing a draft raises, if it does. A revision is not prescreened. */
  function ComposeRaise(avm: Avm, rail: Rail, address: string, reviseFrom: Option<string>): Option<string>
  {
    if avm.value(address).None? || (reviseFrom.Some? && !Blank(reviseFrom.value)) then None
    else FirstRaise(rail, FactsFor(avm, address))
  }

  /** The comprehension that keeps the allowed sentences. */
  method PreScreen(rail: Rail, facts: seq<Fact>) returns (kept: Result<seq<string>, string>)
    ensures var key := FirstRaise(rail, facts);
            kept == if key.Some? then Err(key.value) else Ok(KeptSentences(rail, facts))
  {
    hide Scan;
    hide ScanRaise;
    var sentences: seq<string> := [];
    for i := 0 to |facts|
      invariant FirstRaise(rail, facts) == FirstRaise(rail, facts[i..])
      invariant KeptSentences(rail, facts) == sentences + KeptSentences(rail, facts[i..])
    {
      assert facts[i..][0] == facts[i] && facts[i..][1..] == facts[i + 1..];
      var result := ScanOutput(rail, facts[i].content);
      if result.Err? {
        return Err(result.error);
      }
      if result.value.allowed {
        sentences := sentences + [facts[i].content];
      }
    }
    assert sentences + [] == sentences;
    return Ok(sentences);
  }

  /** `generate_grounded_draft`: ingest, then compose; the prescreening may raise. */
  method GenerateDraft(avm: Avm, rail: Rail, store: VectorStore, address: string, reviseFrom: Option<string>)
    returns (g: Result<Generated, string>)
    requires store.Valid()
    modifies store
    ensures store.Valid() && store.Contents() == IngestAll(old(store.Contents()), FactsFor(avm, address))
    ensures var key := ComposeRaise(avm, rail, address, reviseFrom);
            g == if key.Some? then Err(key.value) else Ok(Compose(avm, rail, address, reviseFrom))
  {
    hide ValuationFacts;
    hide KeptSentences;
    hide FirstRaise;
    hide Strip;
    var v := avm.value(address);
    if v.None? {
      return Ok(Generated(NoCoverageDraft(address), false));
    }
    var facts := BuildFacts(address, v.value, avm.runId(address));
    store.IngestMany(facts);
    if reviseFrom.Some? && !Blank(reviseFrom.value) {
      return Ok(Generated(Trim(reviseFrom.value), true));
    }
    var kept := PreScreen(rail, facts);
    if kept.Err? {
      return Err(kept.error);
    }
    return Ok(Generated(Join(" ", kept.value), true));
  }

  /** The prescreening raises exactly when some sentence does. */
  lemma {:induction false} FirstRaiseIff(rail: Rail, facts: seq<Fact>)
    ensures FirstRaise(rail, facts).Some? <==> exists f :: f in facts && ScanRaise(rail, f.content).Some?
  {
    hide ScanRaise;
    if facts == [] {
    } else {
      FirstRaiseIff(rail, facts[1..]);
      assert facts == [facts[0]] + facts[1..];
    }
  }

  /** Exactly the clean sentences are kept, in order of their facts. */
  lemma {:induction false} KeptAreClean(rail: Rail, facts: seq<Fact>, s: string)
    ensures s in KeptSentences(rail, facts) <==> exists f :: f in facts && f.content == s && Scan(rail, s).allowed
  {
    hide Scan;
    if facts == [] {
    } else {
      KeptAreClean(rail, facts[1..], s);
      assert facts == [facts[0]] + facts[1..];
    }
  }

  lemma FactIds(address: string, v: Valuation, runId: string, i: nat, j: nat)
    requires i < j < 1 + |v.features|
    ensures var facts := ValuationFacts(address, v, runId); facts[i].sourceId != facts[j].sourceId
  {
    hide EstimateSentence;
    hide FeatureSentence;
    var n := |runId|;
    var a, b := ValuationFacts(address, v, runId)[i].sourceId, ValuationFacts(address, v, runId)[j].sourceId;
    assert b == runId + ":feature:" + Decimal(j - 1);
    if i == 0 {
      assert a[n + 1] == 'e' && b[n + 1] == 'f';
    } else {
      assert a == runId + ":feature:" + Decimal(i - 1);
      assert a[n + 9..] == Decimal(i - 1) && b[n + 9..] == Decimal(j - 1);
      DecimalInjective(i - 1, j - 1);
    }
  }

  /** The facts of one valuation have distinct source ids, so none replaces another in the store. */
  lemma FactIdsDistinct(avm: Avm, address: string)
    ensures DistinctIds(FactsFor(avm, address))
  {
    hide ValuationFacts;
    var v := avm.value(address);
    if v.Some? {
      var facts := FactsFor(avm, address);
      forall i, j | 0 <= i < j < |facts|
        ensures facts[i].sourceId != facts[j].sourceId
      {
        FactIds(address, v.value, avm.runId(address), i, j);
      }
    }
  }

  lemma SentencesEndInStop(address: string, v: Valuation, f: Feature)
    ensures var s := EstimateSentence(address, v); s != "" && s[|s| - 1] == '.'
    ensures var s := FeatureSentence(address, f); s != "" && s[|s| - 1] == '.'
  {
  }

  lemma FactsEndInStop(avm: Avm, address: string, f: Fact)
    requires f in FactsFor(avm, address)
    ensures f.content != "" && f.content[|f.content| - 1] == '.'
  {
    hide EstimateSentence;
    hide FeatureSentence;
    hide Decimal;
    var v := avm.value(address).value;
    var i :| 0 <= i <= |v.features| && f == FactsFor(avm, address)[i];
    SentencesEndInStop(address, v, if i == 0 then Feature("", "") else v.features[i - 1]);
  }
}
