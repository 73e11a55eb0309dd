/** The reason of a verification: which branch of the gate decided, and that approval and reason agree. */
module GateReasons {
  import opened Options
  import opened Reals
  import opened Decompose
  import opened Rebuild
  import opened Rag
  import opened Entailment
  import opened Critic
  import opened Confidence

  /**
   * A contradicted claim is the reason whatever else the verdicts hold, else a baseless one, else a mean under the
   * floor; the two former say how many claims they concern.
   */
  lemma GateTellsWhy(threshold: real, vs: seq<ClaimVerdict>)
    requires vs != []
    ensures var r, bad, unknown := Gate(threshold, vs), TaggedAt(vs, CONTRADICTED), TaggedAt(vs, BASELESS);
            && r.confidence == Round4(MeanScore(vs))
            && (bad != {} ==> r.reason == ContradictedClaims(|bad|))
            && (bad == {} && unknown != {} ==> r.reason == UnsupportedClaims(|unknown|))
            && (bad == {} && unknown == {} && r.confidence < threshold ==> r.reason == BelowThreshold(threshold))
            && (r.reason.AllEntailed? <==> bad == {} && unknown == {} && r.confidence >= threshold)
  {
    hide MeanScore;
    hide Round4;
    hide RebuildMessage;
    hide SupportedTexts;
    CountsAreSizes(vs, CONTRADICTED);
    CountsAreSizes(vs, BASELESS);
    hide CountTag;
    hide TaggedAt;
  }

  lemma NoneTagged(vs: seq<ClaimVerdict>)
    ensures TaggedAt(vs, CONTRADICTED) == {} && TaggedAt(vs, BASELESS) == {} <==>
            forall i :: 0 <= i < |vs| ==> vs[i].tag.ENTAILED?
  {
    if forall i :: 0 <= i < |vs| ==> vs[i].tag.ENTAILED? {
    } else {
      var i :| 0 <= i < |vs| && !vs[i].tag.ENTAILED?;
      assert i in TaggedAt(vs, vs[i].tag);
    }
  }

  lemma CitedAreSupported(c: Critic, facts: seq<Fact>, draft: string, address: Option<string>)
    ensures var vs := Verify(c, facts, draft, address).claims;
            AllSupported(vs) <==> forall i :: 0 <= i < |vs| ==> vs[i].tag.ENTAILED?
  {
    hide Verify;
    hide Cited;
    var vs := Verify(c, facts, draft, address).claims;
    forall i | 0 <= i < |vs|
      ensures vs[i].Supported() <==> vs[i].tag.ENTAILED?
    {
      CitationsAreStored(c, facts, draft, address, vs[i]);
    }
  }

  /** A draft is approved exactly when its reason says so: no entailed claim goes without a citation. */
  lemma ApprovedTellsWhy(c: Critic, facts: seq<Fact>, draft: string, address: Option<string>)
    ensures var r := Verify(c, facts, draft, address);
            && (r.approved <==> r.reason.AllEntailed? || r.reason.EmptyDraft?)
            && (r.reason.EmptyDraft? <==> r.claims == [])
  {
    VerifyJudges(c, facts, draft, address);
    CitedAreSupported(c, facts, draft, address);
    var r := Verify(c, facts, draft, address);
    NoneTagged(r.claims);
    EmptyVerification(c, facts, draft, address);
    hide *;
    if r.claims != [] {
      GateTellsWhy(c.threshold, r.claims);
      GateIsExact(c.threshold, r.claims);
    }
  }

  lemma EmptyVerification(c: Critic, facts: seq<Fact>, draft: string, address: Option<string>)
    ensures var r := Verify(c, facts, draft, address);
            && (r.claims == [] <==> DecomposeSpec(draft) == [])
            && (r.claims == [] ==> r.approved && r.reason.EmptyDraft?)
            && (r.reason.EmptyDraft? ==> r.claims == [])
  {
    hide JudgeClaim;
    hide DecomposeSpec;
    hide Round4;
    hide MeanScore;
    hide RebuildMessage;
    hide SupportedTexts;
  }
}
