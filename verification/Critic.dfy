/** The fixed verification pipeline: decompose, retrieve, entail, cite, score, gate. */
module Critic {
  import opened Options
  import opened Reals
  import opened Decompose
  import opened Rebuild
  import opened Rag
  import opened Entailment

  datatype ClaimVerdict = ClaimVerdict(
    index: nat, claim: string, tag: Label, score: real, citation: Option<string>, sourceKind: Option<string>)
  {
    predicate Supported()
    {
      tag.ENTAILED? && citation.Some?
    }

    function Row(): AuditRow
    {
      AuditRow(index, claim, tag, score, citation, sourceKind, Supported())
    }
  }

  datatype AuditRow = AuditRow(
    index: nat, claim: string, tag: Label, score: real, citation: Option<string>, sourceKind: Option<string>,
    supported: bool)

  datatype Reason =
    | EmptyDraft
    | ContradictedClaims(n: nat)
    | UnsupportedClaims(n: nat)
    | BelowThreshold(threshold: real)
    | AllEntailed

  datatype Verification = Verification(
    approved: bool, escalate: bool, confidence: real, reason: Reason, claims: seq<ClaimVerdict>,
    approvedMessage: Option<string>)
  {
    function AuditRows(): (rows: seq<AuditRow>)
      ensures |rows| == |claims| && forall i :: 0 <= i < |rows| ==> rows[i] == claims[i].Row()
    {
      seq(|claims|, i requires 0 <= i < |claims| => claims[i].Row())
    }
  }

  datatype Critic = Critic(engine: Engine, entailer: Entailer, threshold: real, topK: int)

  // ---- Citations ----

  /** Distinct source ids cited by supported claims, in order of first use. */
  function CitationsOf(claims: seq<ClaimVerdict>): seq<string>
  {
    if claims == [] then []
    else
      var n := |claims| - 1;
      var seen := CitationsOf(claims[..n]);
      if claims[n].Supported() && claims[n].citation.value !in seen then seen + [claims[n].citation.value] else seen
  }

  /** The `citations` property, with the source's loop. */
  method Citations(claims: seq<ClaimVerdict>) returns (seen: seq<string>)
    ensures seen == CitationsOf(claims)
  {
    seen := [];
    for i := 0 to |claims|
      invariant seen == CitationsOf(claims[..i])
    {
      var v := claims[i];
      assert claims[..i + 1][..i] == claims[..i];
      if v.Supported() && v.citation.value !in seen {
        seen := seen + [v.citation.value];
      }
    }
    assert claims[..|claims|] == claims;
  }

  /** The citation list names exactly the sources of the supported claims, each once. */
  lemma {:induction false} CitationsAreExact(claims: seq<ClaimVerdict>, id: string)
    ensures id in CitationsOf(claims) <==> exists v :: v in claims && v.Supported() && v.citation == Some(id)
    ensures forall i, j :: 0 <= i < j < |CitationsOf(claims)| ==> CitationsOf(claims)[i] != CitationsOf(claims)[j]
  {
    if claims == [] {
    } else {
      var n := |claims| - 1;
      CitationsAreExact(claims[..n], id);
      assert claims == claims[..n] + [claims[n]];
    }
  }

  // ---- Judging ----

  /** The verdict on one claim. */
  function JudgeClaim(c: Critic, facts: seq<Fact>, address: Option<string>, claim: Claim): ClaimVerdict
  {
    var v := Entail(c.entailer, claim.text, Retrieve(c.engine, facts, claim.text, c.topK, address));
    Bind(claim, v)
  }

  /** A citation is bound exactly when the claim is entailed by some evidence. */
  function Bind(claim: Claim, v: Verdict): ClaimVerdict
  {
    if v.tag.ENTAILED? && v.evidence.Some? then
      ClaimVerdict(claim.index, claim.text, v.tag, v.score,
                   Some(v.evidence.value.fact.sourceId), Some(v.evidence.value.fact.kind))
    else
      ClaimVerdict(claim.index, claim.text, v.tag, v.score, None, None)
  }

  function JudgeAll(c: Critic, facts: seq<Fact>, address: Option<string>, claims: seq<Claim>): (r: seq<ClaimVerdict>)
    ensures |r| == |claims|
    ensures forall i :: 0 <= i < |r| ==> r[i] == JudgeClaim(c, facts, address, claims[i])
  {
    seq(|claims|, i requires 0 <= i < |claims| => JudgeClaim(c, facts, address, claims[i]))
  }

  // ---- The gate ----

  function CountTag(vs: seq<ClaimVerdict>, tag: Label): nat
  {
    if vs == [] then 0 else (if vs[0].tag == tag then 1 else 0) + CountTag(vs[1..], tag)
  }

  function SupportedTexts(vs: seq<ClaimVerdict>): seq<string>
  {
    if vs == [] then [] else (if vs[0].Supported() then [vs[0].claim] else []) + SupportedTexts(vs[1..])
  }

  function SumScores(vs: seq<ClaimVerdict>): real
  {
    if vs == [] then 0.0 else vs[0].score + SumScores(vs[1..])
  }

  function MeanScore(vs: seq<ClaimVerdict>): real
    requires vs != []
  {
    SumScores(vs) / |vs| as real
  }

  /** `_gate` */
  function Gate(threshold: real, vs: seq<ClaimVerdict>): Verification
    requires vs != []
  {
    var confidence := Round4(MeanScore(vs));
    var supported := SupportedTexts(vs);
    var message := if supported != [] then Some(RebuildMessage(supported)) else None;
    var allSupported := |supported| == |vs|;
    if CountTag(vs, CONTRADICTED) > 0 then
      Verification(false, true, confidence, ContradictedClaims(CountTag(vs, CONTRADICTED)), vs, message)
    else if CountTag(vs, BASELESS) > 0 then
      Verification(false, true, confidence, UnsupportedClaims(CountTag(vs, BASELESS)), vs, message)
    else if confidence < threshold then
      Verification(false, true, confidence, BelowThreshold(threshold), vs, message)
    else
      Verification(allSupported, !allSupported, confidence, AllEntailed, vs, message)
  }

  /** What `Critic.verify` returns. */
  function Verify(c: Critic, facts: seq<Fact>, draft: string, address: Option<string>): Verification
  {
    var claims := DecomposeSpec(draft);
    if claims == [] then Verification(true, false, 1.0, EmptyDraft, [], None)
    else Gate(c.threshold, JudgeAll(c, facts, address, claims))
  }

  method EntailClaim(entailer: Entailer, claim: string, evidence: seq<Evidence>) returns (v: Verdict)
    ensures v == Entail(entailer, claim, evidence)
  {
    if entailer.Fake? {
      v := EntailByOverlap(entailer, claim, evidence);
    } else {
      v := Entail(entailer, claim, evidence);
    }
  }

  /** One iteration of the loop of `verify`: retrieve, entail and cite. */
  method JudgeOne(c: Critic, store: VectorStore, claim: Claim, address: Option<string>)
    returns (verdict: ClaimVerdict)
    requires store.Valid() && store.engine == c.engine
    ensures verdict == JudgeClaim(c, store.Contents(), address, claim)
  {
    var evidence := RetrieveFrom(store, claim.text, c.topK, address);
    var v := EntailClaim(c.entailer, claim.text, evidence);
    verdict := Bind(claim, v);
  }

  /** The loop of `verify`. */
  method JudgeClaims(c: Critic, store: VectorStore, claims: seq<Claim>, address: Option<string>)
    returns (verdicts: seq<ClaimVerdict>)
    requires store.Valid() && store.engine == c.engine
    ensures verdicts == JudgeAll(c, store.Contents(), address, claims)
  {
    hide *;
    verdicts := [];
    ghost var wanted := JudgeAll(c, store.Contents(), address, claims);
    for i := 0 to |claims|
      invariant verdicts == wanted[..i]
    {
      var verdict := JudgeOne(c, store, claims[i], address);
      verdicts := verdicts + [verdict];
    }
  }

  /** `Critic.verify` */
  method VerifyDraft(c: Critic, store: VectorStore, draft: string, address: Option<string>)
    returns (result: Verification)
    requires store.Valid() && store.engine == c.engine
    ensures result == Verify(c, store.Contents(), draft, address)
  {
    hide SplitSpec;
    var texts := SplitClaims(draft);
    var claims := seq(|texts|, i requires 0 <= i < |texts| => Claim(texts[i], i));
    assert claims == DecomposeSpec(draft);
    if claims == [] {
      return Verification(true, false, 1.0, EmptyDraft, [], None);
    }
    var verdicts := JudgeClaims(c, store, claims, address);
    result := Gate(c.threshold, verdicts);
  }

  // ---- What a verification means ----

  ghost predicate AllSupported(vs: seq<ClaimVerdict>)
  {
    forall i :: 0 <= i < |vs| ==> vs[i].Supported()
  }

  function Texts(vs: seq<ClaimVerdict>): (r: seq<string>)
    ensures |r| == |vs| && forall i :: 0 <= i < |r| ==> r[i] == vs[i].claim
  {
    seq(|vs|, i requires 0 <= i < |vs| => vs[i].claim)
  }

  lemma AllSupportedCons(vs: seq<ClaimVerdict>)
    requires vs != []
    ensures AllSupported(vs) <==> vs[0].Supported() && AllSupported(vs[1..])
  {
    if vs[0].Supported() && AllSupported(vs[1..]) {
      forall i | 0 <= i < |vs|
        ensures vs[i].Supported()
      {
        assert i > 0 ==> vs[i] == vs[1..][i - 1];
      }
    }
    if AllSupported(vs) {
      assert forall i :: 0 <= i < |vs| - 1 ==> vs[1..][i] == vs[i + 1];
    }
  }

  lemma {:induction false} SupportedTextsCount(vs: seq<ClaimVerdict>)
    ensures |SupportedTexts(vs)| <= |vs|
    ensures |SupportedTexts(vs)| == |vs| <==> AllSupported(vs)
    ensures AllSupported(vs) ==> SupportedTexts(vs) == Texts(vs)
  {
    if vs == [] {
    } else {
      SupportedTextsCount(vs[1..]);
      AllSupportedCons(vs);
      hide AllSupported;
      assert Texts(vs) == [vs[0].claim] + Texts(vs[1..]);
    }
  }

  lemma {:induction false} SupportedTextsFrom(vs: seq<ClaimVerdict>)
    ensures SupportedTexts(vs) != [] <==> exists v :: v in vs && v.Supported()
    ensures forall t :: t in SupportedTexts(vs) <==> exists v :: v in vs && v.Supported() && v.claim == t
  {
    if vs == [] {
    } else {
      SupportedTextsFrom(vs[1..]);
      assert vs == [vs[0]] + vs[1..];
    }
  }

  lemma SupportedTextsExact(vs: seq<ClaimVerdict>)
    ensures |SupportedTexts(vs)| <= |vs|
    ensures |SupportedTexts(vs)| == |vs| <==> AllSupported(vs)
    ensures AllSupported(vs) ==> SupportedTexts(vs) == Texts(vs)
    ensures SupportedTexts(vs) != [] <==> exists v :: v in vs && v.Supported()
    ensures forall t :: t in SupportedTexts(vs) ==> t in Texts(vs)
  {
    hide SupportedTexts;
    hide AllSupported;
    SupportedTextsCount(vs);
    SupportedTextsFrom(vs);
    forall t | t in SupportedTexts(vs)
      ensures t in Texts(vs)
    {
      var i :| 0 <= i < |vs| && vs[i].claim == t;
      assert Texts(vs)[i] == t;
    }
  }

  lemma {:induction false} SupportedHasNoBadTag(vs: seq<ClaimVerdict>)
    requires AllSupported(vs)
    ensures CountTag(vs, CONTRADICTED) == 0 && CountTag(vs, BASELESS) == 0
  {
    if vs == [] {
    } else {
      assert vs[0].Supported();
      forall i | 0 <= i < |vs[1..]|
        ensures vs[1..][i].Supported()
      {
        assert vs[i + 1].Supported();
      }
      SupportedHasNoBadTag(vs[1..]);
    }
  }

  /** The gate approves exactly when every claim is entailed and cited and the mean score clears the floor. */
  lemma GateIsExact(threshold: real, vs: seq<ClaimVerdict>)
    requires vs != []
    ensures var r := Gate(threshold, vs);
            && (r.approved <==> AllSupported(vs) && Round4(MeanScore(vs)) >= threshold)
            && r.escalate == !r.approved
            && r.claims == vs
            && (r.approved ==> r.approvedMessage == Some(RebuildMessage(Texts(vs))))
            && (r.approvedMessage.None? <==> forall v :: v in vs ==> !v.Supported())
  {
    hide RebuildMessage;
    hide Round4;
    hide MeanScore;
    SupportedTextsExact(vs);
    if AllSupported(vs) {
      SupportedHasNoBadTag(vs);
    }
  }

  /** Whatever the draft: an approved, non-empty draft is sent as the rebuild of all of its claims. */
  lemma VerifyMeans(c: Critic, facts: seq<Fact>, draft: string, address: Option<string>)
    ensures var r := Verify(c, facts, draft, address);
            && Texts(r.claims) == SplitSpec(draft)
            && r.escalate == !r.approved
            && (r.claims != [] ==> (r.approved <==> AllSupported(r.claims) && r.confidence >= c.threshold))
            && (r.claims != [] && r.approved ==> r.approvedMessage == Some(RebuildMessage(SplitSpec(draft))))
            && (r.approvedMessage.Some? ==>
                  && SupportedTexts(r.claims) != []
                  && r.approvedMessage == Some(RebuildMessage(SupportedTexts(r.claims)))
                  && forall t :: t in SupportedTexts(r.claims) ==> t in SplitSpec(draft))
            && (r.approvedMessage.None? ==> forall v :: v in r.claims ==> !v.Supported())
  {
    hide SplitSpec;
    hide RebuildMessage;
    hide JudgeClaim;
    hide Round4;
    hide MeanScore;
    var claims := DecomposeSpec(draft);
    if claims != [] {
      var vs := JudgeAll(c, facts, address, claims);
      forall i | 0 <= i < |vs|
        ensures vs[i].claim == claims[i].text
      {
        JudgedText(c, facts, address, claims[i]);
      }
      assert Texts(vs) == SplitSpec(draft);
      GateIsExact(c.threshold, vs);
      SupportedTextsExact(vs);
    }
  }

  lemma JudgedText(c: Critic, facts: seq<Fact>, address: Option<string>, claim: Claim)
    ensures JudgeClaim(c, facts, address, claim).claim == claim.text
  {
  }

  /** The fact a citation names: stored, in scope, and of the recorded kind. */
  ghost predicate Cited(e: Engine, facts: seq<Fact>, address: Option<string>, v: ClaimVerdict)
  {
    exists f :: f in facts && InScope(e, f, address) && v.citation == Some(f.sourceId) && v.sourceKind == Some(f.kind)
  }

  lemma JudgedIsStored(c: Critic, facts: seq<Fact>, address: Option<string>, claim: Claim)
    ensures var v := JudgeClaim(c, facts, address, claim);
            && (v.citation.Some? <==> v.tag.ENTAILED?)
            && (v.citation.Some? ==> Cited(c.engine, facts, address, v))
  {
    hide Retrieve;
    hide Entail;
    hide InScope;
    var evidence := Retrieve(c.engine, facts, claim.text, c.topK, address);
    VerdictEvidence(c.entailer, claim.text, evidence);
    var verdict := Entail(c.entailer, claim.text, evidence);
    if verdict.evidence.Some? {
      RetrievedIsStored(c.engine, facts, claim.text, c.topK, address, verdict.evidence.value);
    }
  }

  /** The claims of a verification are the judged claims of the draft. */
  lemma VerifyJudges(c: Critic, facts: seq<Fact>, draft: string, address: Option<string>)
    ensures var claims, r := DecomposeSpec(draft), Verify(c, facts, draft, address);
            r.claims == JudgeAll(c, facts, address, claims)
            && (claims != [] ==> r == Gate(c.threshold, r.claims))
  {
    hide JudgeClaim;
    hide DecomposeSpec;
    hide Gate;
    var claims := DecomposeSpec(draft);
    if claims != [] {
      GateIsExact(c.threshold, JudgeAll(c, facts, address, claims));
    }
  }

  /** "No source, no claim": every citation of a verification names a stored fact scoped to the address. */
  lemma CitationsAreStored(c: Critic, facts: seq<Fact>, draft: string, address: Option<string>, v: ClaimVerdict)
    requires v in Verify(c, facts, draft, address).claims
    ensures v.citation.Some? <==> v.tag.ENTAILED?
    ensures v.citation.Some? ==> Cited(c.engine, facts, address, v)
  {
    hide JudgeClaim;
    hide DecomposeSpec;
    hide Verify;
    hide Cited;
    VerifyJudges(c, facts, draft, address);
    var claims := DecomposeSpec(draft);
    var i :| 0 <= i < |claims| && v == JudgeClaim(c, facts, address, claims[i]);
    JudgedIsStored(c, facts, address, claims[i]);
  }
}
