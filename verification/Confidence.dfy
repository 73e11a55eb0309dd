/** The composite confidence of a verification. Scores are exact reals; the source's `round(x, 4)` is kept. */
module Confidence {
  import opened Options
  import opened Reals
  import opened Entailment
  import opened Critic

  const W_COVERAGE: real := 0.4
  const W_AGREEMENT: real := 0.4
  const W_SELF_CONSISTENCY: real := 0.2
  const ENTAILED_FRACTION_WEIGHT: real := 0.5
  const NEUTRAL_SELF_CONSISTENCY: real := 0.7
  const HIGH_STAKES_MISSING_SELF_CONSISTENCY: real := 0.3

  datatype Score = Score(score: real, coverage: real, agreement: real, selfConsistency: real, highStakes: bool)

  function Clamp(x: real): (r: real)
    ensures 0.0 <= r <= 1.0
    ensures 0.0 <= x <= 1.0 ==> r == x
  {
    if x < 0.0 then 0.0 else if x > 1.0 then 1.0 else x
  }

  function CountCited(vs: seq<ClaimVerdict>): nat
  {
    if vs == [] then 0 else (if vs[0].citation.Some? then 1 else 0) + CountCited(vs[1..])
  }

  /** `retrieval_coverage` */
  function RetrievalCoverage(r: Verification): real
  {
    if r.claims == [] then 1.0 else CountCited(r.claims) as real / |r.claims| as real
  }

  /** `critic_agreement` */
  function CriticAgreement(r: Verification): real
  {
    if r.claims == [] then 1.0
    else
      ENTAILED_FRACTION_WEIGHT * (CountTag(r.claims, ENTAILED) as real / |r.claims| as real)
      + (1.0 - ENTAILED_FRACTION_WEIGHT) * MeanScore(r.claims)
  }

  /** `_resolve_self_consistency` */
  function ResolveSelfConsistency(measured: Option<real>, highStakes: bool): real
  {
    if measured.Some? then Clamp(measured.value)
    else if highStakes then HIGH_STAKES_MISSING_SELF_CONSISTENCY
    else NEUTRAL_SELF_CONSISTENCY
  }

  /** The combination function on the three signals. */
  function Blend(coverage: real, agreement: real, selfConsistency: real): real
  {
    var weighted := W_COVERAGE * coverage + W_AGREEMENT * agreement + W_SELF_CONSISTENCY * selfConsistency;
    Clamp(Round4(0.5 * weighted + 0.5 * Min(Min(coverage, agreement), selfConsistency)))
  }

  /** `composite_confidence` */
  function Composite(r: Verification, measured: Option<real>, highStakes: bool): Score
  {
    var coverage := Clamp(RetrievalCoverage(r));
    var agreement := Clamp(CriticAgreement(r));
    var selfConsistency := ResolveSelfConsistency(measured, highStakes);
    Score(Blend(coverage, agreement, selfConsistency),
          Round4(coverage), Round4(agreement), Round4(selfConsistency), highStakes)
  }

  lemma {:induction false} SupportedCounts(vs: seq<ClaimVerdict>)
    requires AllSupported(vs)
    ensures CountCited(vs) == |vs| && CountTag(vs, ENTAILED) == |vs|
  {
    if vs == [] {
    } else {
      assert vs[0].Supported();
      forall i | 0 <= i < |vs[1..]|
        ensures vs[1..][i].Supported()
      {
        assert vs[i + 1].Supported();
      }
      SupportedCounts(vs[1..]);
    }
  }

  /** Rounding to four decimals moves no value across a multiple of one ten-thousandth. */
  lemma RoundKeepsGrid(x: real, n: int)
    ensures Round4(x) >= n as real / 10000.0 ==> x >= n as real / 10000.0 - 0.00005
    ensures Round4(x) <= n as real / 10000.0 ==> x <= n as real / 10000.0 + 0.00005
    ensures x > n as real / 10000.0 - 0.00005 ==> Round4(x) >= n as real / 10000.0
    ensures x < n as real / 10000.0 + 0.00005 ==> Round4(x) <= n as real / 10000.0
  {
    var k := RoundHalfEven(x * 10000.0);
    assert k < n ==> k <= n - 1;
    assert k > n ==> k >= n + 1;
    assert Round4(x) < n as real / 10000.0 <==> k < n;
    assert Round4(x) > n as real / 10000.0 <==> k > n;
  }

  /** With every claim supported, coverage is full and agreement is half a point plus half the mean score. */
  lemma SupportedSignals(r: Verification)
    requires r.claims != [] && AllSupported(r.claims)
    ensures RetrievalCoverage(r) == 1.0 && CriticAgreement(r) == 0.5 + 0.5 * MeanScore(r.claims)
  {
    hide MeanScore;
    hide CountTag;
    hide CountCited;
    SupportedCounts(r.claims);
    SelfQuotient(|r.claims| as real);
  }

  lemma BlendBand(agreement: real)
    requires 0.799975 <= agreement <= 1.0
    ensures 0.78 <= Blend(1.0, agreement, NEUTRAL_SELF_CONSISTENCY) <= 0.82
  {
    hide Round4;
    var x := 0.5 * (0.4 + 0.4 * agreement + 0.14) + 0.35;
    assert 0.779995 <= x <= 0.82;
    RoundKeepsGrid(x, 7800);
    RoundKeepsGrid(x, 8200);
  }

  /**
   * How the two thresholds interact: a draft the Critic approved with a floor of at least 0.6 has a
   * composite of at least 0.78, far above the 0.6 at which operations escalate, and at most 0.82.
   */
  lemma ApprovedCompositeBand(threshold: real, vs: seq<ClaimVerdict>)
    requires vs != [] && threshold >= 0.6 && Gate(threshold, vs).approved
    ensures 0.78 <= Composite(Gate(threshold, vs), None, false).score <= 0.82
  {
    hide Round4;
    hide MeanScore;
    hide Gate;
    hide Blend;
    hide RetrievalCoverage;
    hide CriticAgreement;
    GateIsExact(threshold, vs);
    RoundKeepsGrid(MeanScore(vs), 6000);
    assert MeanScore(vs) >= 0.59995;
    SupportedSignals(Gate(threshold, vs));
    BlendBand(Clamp(0.5 + 0.5 * MeanScore(vs)));
  }

  lemma BlendEnds()
    ensures Blend(1.0, 0.5 + 0.5 * 0.6, NEUTRAL_SELF_CONSISTENCY) == 0.78
    ensures Blend(1.0, 1.0, NEUTRAL_SELF_CONSISTENCY) == 0.82
  {
    RoundKeepsGrid(0.78, 7800);
    RoundKeepsGrid(0.82, 8200);
  }

  /** A draft of one supported claim with the given score. */
  lemma OneClaimScore(v: ClaimVerdict)
    requires v.Supported() && 0.6 <= v.score <= 1.0 && Round4(v.score) == v.score
    ensures Gate(0.6, [v]).approved
    ensures Composite(Gate(0.6, [v]), None, false).score == Blend(1.0, 0.5 + 0.5 * v.score, NEUTRAL_SELF_CONSISTENCY)
  {
    hide Round4;
    hide Gate;
    hide Blend;
    hide RetrievalCoverage;
    hide CriticAgreement;
    var vs := [v];
    assert SumScores(vs) == v.score + SumScores(vs[1..]) && vs[1..] == [];
    assert MeanScore(vs) == v.score;
    hide MeanScore;
    GateIsExact(0.6, vs);
    SupportedSignals(Gate(0.6, vs));
  }

  /** Both ends of the band are reached by approved drafts of one claim: at the floor, and at a perfect score. */
  lemma BandIsTight(v: ClaimVerdict)
    requires v.Supported()
    ensures var r := Gate(0.6, [v.(score := 0.6)]); r.approved && Composite(r, None, false).score == 0.78
    ensures var r := Gate(0.6, [v.(score := 1.0)]); r.approved && Composite(r, None, false).score == 0.82
  {
    RoundKeepsGrid(0.6, 6000);
    RoundKeepsGrid(1.0, 10000);
    hide *;
    BlendEnds();
    SupportedAnyScore(v, 0.6);
    SupportedAnyScore(v, 1.0);
    OneClaimScore(v.(score := 0.6));
    OneClaimScore(v.(score := 1.0));
  }

  lemma SupportedAnyScore(v: ClaimVerdict, score: real)
    requires v.Supported()
    ensures v.(score := score).Supported()
  {
  }

  /** A high-stakes draft whose self-consistency was not measured never scores above 0.58. */
  lemma HighStakesCeiling(r: Verification)
    ensures Composite(r, None, true).score <= 0.58
  {
    hide Round4;
    hide RetrievalCoverage;
    hide CriticAgreement;
    var coverage, agreement := Clamp(RetrievalCoverage(r)), Clamp(CriticAgreement(r));
    var x := 0.5 * (0.4 * coverage + 0.4 * agreement + 0.06) + 0.5 * Min(Min(coverage, agreement), 0.3);
    assert x <= 0.58;
    RoundKeepsGrid(x, 5800);
  }

  // ---- What the signals count ----

  /** The positions of the cited claims. */
  function CitedAt(vs: seq<ClaimVerdict>): set<int>
  {
    set i | 0 <= i < |vs| && vs[i].citation.Some?
  }

  function TaggedAt(vs: seq<ClaimVerdict>, tag: Label): set<int>
  {
    set i | 0 <= i < |vs| && vs[i].tag == tag
  }

  lemma {:induction false} CountsAdd(a: seq<ClaimVerdict>, b: seq<ClaimVerdict>, tag: Label)
    ensures CountCited(a + b) == CountCited(a) + CountCited(b)
    ensures CountTag(a + b, tag) == CountTag(a, tag) + CountTag(b, tag)
  {
    if a == [] {
      assert a + b == b;
    } else {
      CountsAdd(a[1..], b, tag);
      assert (a + b)[1..] == a[1..] + b;
    }
  }

  lemma CountsOfOne(v: ClaimVerdict, tag: Label)
    ensures CountCited([v]) == (if v.citation.Some? then 1 else 0)
    ensures CountTag([v], tag) == (if v.tag == tag then 1 else 0)
  {
    assert [v][1..] == [];
  }

  lemma PositionsAdd(vs: seq<ClaimVerdict>, v: ClaimVerdict, tag: Label)
    ensures CitedAt(vs + [v]) == CitedAt(vs) + (if v.citation.Some? then {|vs|} else {})
    ensures TaggedAt(vs + [v], tag) == TaggedAt(vs, tag) + (if v.tag == tag then {|vs|} else {})
    ensures |vs| !in CitedAt(vs) && |vs| !in TaggedAt(vs, tag)
  {
    var now := vs + [v];
    assert forall i :: 0 <= i < |vs| ==> now[i] == vs[i];
  }

  lemma NoPositions(tag: Label)
    ensures CitedAt([]) == {} && TaggedAt([], tag) == {} && CountCited([]) == 0 && CountTag([], tag) == 0
  {
  }

  /** The counts are the numbers of such positions. */
  lemma {:induction false} CountsAreSizes(vs: seq<ClaimVerdict>, tag: Label)
    ensures CountCited(vs) == |CitedAt(vs)| && CountTag(vs, tag) == |TaggedAt(vs, tag)|
  {
    hide *;
    if vs == [] {
      NoPositions(tag);
    } else {
      var n := |vs| - 1;
      CountsAreSizes(vs[..n], tag);
      assert vs == vs[..n] + [vs[n]];
      CountsAdd(vs[..n], [vs[n]], tag);
      CountsOfOne(vs[n], tag);
      PositionsAdd(vs[..n], vs[n], tag);
    }
  }

  /** Coverage is the share of cited claims, agreement half the share of entailed ones and half the mean score. */
  lemma SignalsAre(r: Verification)
    requires r.claims != []
    ensures var n := |r.claims| as real;
            && RetrievalCoverage(r) * n == |CitedAt(r.claims)| as real
            && (2.0 * CriticAgreement(r) - MeanScore(r.claims)) * n == |TaggedAt(r.claims, ENTAILED)| as real
  {
    hide MeanScore;
    CountsAreSizes(r.claims, ENTAILED);
    hide CountCited;
    hide CountTag;
    QuotientTimes(CountCited(r.claims) as real, |r.claims| as real);
    QuotientTimes(CountTag(r.claims, ENTAILED) as real, |r.claims| as real);
    var share := CountTag(r.claims, ENTAILED) as real / |r.claims| as real;
    assert 2.0 * CriticAgreement(r) - MeanScore(r.claims) == share;
  }

  // ---- How the mean and the composite move ----

  lemma {:induction false} SumMoves(vs: seq<ClaimVerdict>, i: nat, v: ClaimVerdict)
    requires i < |vs|
    ensures SumScores(vs[i := v]) - SumScores(vs) == v.score - vs[i].score
  {
    if i == 0 {
      assert vs[0 := v][1..] == vs[1..];
    } else {
      SumMoves(vs[1..], i - 1, v);
      assert vs[i := v][1..] == vs[1..][i - 1 := v];
    }
  }

  /** A change of one score moves the mean by its share. */
  lemma MeanMoves(vs: seq<ClaimVerdict>, i: nat, v: ClaimVerdict)
    requires i < |vs|
    ensures (MeanScore(vs[i := v]) - MeanScore(vs)) * |vs| as real == v.score - vs[i].score
  {
    var n := |vs| as real;
    SumMoves(vs, i, v);
    hide SumScores;
    QuotientTimes(SumScores(vs), n);
    QuotientTimes(SumScores(vs[i := v]), n);
    TimesDifference(MeanScore(vs[i := v]), MeanScore(vs), n);
  }

  lemma TimesDifference(x: real, y: real, n: real)
    ensures (x - y) * n == x * n - y * n
  {
  }

  lemma {:induction false} SumBetween(vs: seq<ClaimVerdict>, lo: real, hi: real)
    requires forall i :: 0 <= i < |vs| ==> lo <= vs[i].score <= hi
    ensures lo * |vs| as real <= SumScores(vs) <= hi * |vs| as real
  {
    if vs == [] {
    } else {
      SumBetween(vs[1..], lo, hi);
      OneMore(lo, |vs| as real);
      OneMore(hi, |vs| as real);
    }
  }

  lemma OneMore(x: real, n: real)
    ensures x * n == x * (n - 1.0) + x
  {
  }

  /** The mean lies between the lowest and the highest score. */
  lemma MeanBetween(vs: seq<ClaimVerdict>, lo: real, hi: real)
    requires vs != [] && forall i :: 0 <= i < |vs| ==> lo <= vs[i].score <= hi
    ensures lo <= MeanScore(vs) <= hi
  {
    SumBetween(vs, lo, hi);
    hide SumScores;
    QuotientBetween(SumScores(vs), |vs| as real, lo, hi);
  }

  lemma QuotientBetween(s: real, n: real, lo: real, hi: real)
    requires n > 0.0 && lo * n <= s <= hi * n
    ensures lo <= s / n <= hi
  {
    var x := s / n;
    assert x * n == s;
    assert x < lo ==> x * n < lo * n;
    assert x > hi ==> x * n > hi * n;
  }

  /** How far one weak signal pulls a composite that is otherwise perfect. */
  lemma OneWeakSignal(x: real)
    requires 0.0 <= x <= 1.0
    ensures Blend(x, 1.0, 1.0) == Round4(0.3 + 0.7 * x)
    ensures Blend(1.0, x, 1.0) == Round4(0.3 + 0.7 * x)
    ensures Blend(1.0, 1.0, x) == Round4(0.4 + 0.6 * x)
  {
    hide Round4;
    RoundStays(0.3 + 0.7 * x);
    RoundStays(0.4 + 0.6 * x);
    assert 0.5 * (0.4 * x + 0.4 + 0.2) + 0.5 * x == 0.3 + 0.7 * x;
    assert 0.5 * (0.4 + 0.4 + 0.2 * x) + 0.5 * x == 0.4 + 0.6 * x;
  }

  lemma RoundStays(x: real)
    requires 0.0 <= x <= 1.0
    ensures 0.0 <= Round4(x) <= 1.0
  {
    RoundKeepsGrid(x, 0);
    RoundKeepsGrid(x, 10000);
  }

  /** A draft of which nothing is cited never scores above 0.3, so it is always handed off at the default threshold. */
  lemma UncitedCeiling(r: Verification, measured: Option<real>, highStakes: bool)
    requires r.claims != [] && forall i :: 0 <= i < |r.claims| ==> r.claims[i].citation.None?
    ensures Composite(r, measured, highStakes).score <= 0.3
  {
    hide Round4;
    hide CriticAgreement;
    NoneCited(r.claims);
    var agreement, s := Clamp(CriticAgreement(r)), ResolveSelfConsistency(measured, highStakes);
    var x := 0.5 * (0.4 * 0.0 + 0.4 * agreement + 0.2 * s) + 0.5 * Min(Min(0.0, agreement), s);
    assert Clamp(RetrievalCoverage(r)) == 0.0;
    hide RetrievalCoverage;
    assert x <= 0.3;
    RoundKeepsGrid(x, 3000);
  }

  lemma {:induction false} NoneCited(vs: seq<ClaimVerdict>)
    requires forall i :: 0 <= i < |vs| ==> vs[i].citation.None?
    ensures CountCited(vs) == 0
  {
    if vs == [] {
    } else {
      NoneCited(vs[1..]);
    }
  }

  /** A draft without claims scores as a fully grounded one would: 0.82, or 0.58 when the stakes are high. */
  lemma EmptyDraftScore(r: Verification)
    requires r.claims == []
    ensures Composite(r, None, false).score == 0.82 && Composite(r, None, true).score == 0.58
  {
    RoundKeepsGrid(0.82, 8200);
    RoundKeepsGrid(0.58, 5800);
    hide Round4;
  }
}
