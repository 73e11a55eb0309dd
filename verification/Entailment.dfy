/** Labelling a claim against retrieved evidence: the token-overlap entailer and the injected-client one. */
module Entailment {
  import opened Options
  import opened Reals
  import opened Text
  import opened Rag

  datatype Label = ENTAILED | CONTRADICTED | BASELESS

  datatype Verdict = Verdict(tag: Label, score: real, evidence: Option<Evidence>)

  /** What an injected client answers for one claim and its context. */
  datatype Answer = Answer(tag: Label, score: real)

  datatype Entailer =
    | Fake(threshold: real, fixtures: map<string, Label>, lower: string -> string)
    | Real(client: (string, seq<Evidence>) -> Answer)

  const NEGATIONS: set<string> := {"no", "not", "never", "without", "lacks", "lacking", "n't"}

  const STOPWORDS: set<string> := {
    "a", "an", "the", "is", "are", "was", "were", "be", "been", "being",
    "this", "that", "these", "those", "it", "its", "of", "to", "in", "on",
    "at", "for", "and", "or", "with", "has", "have", "had", "as", "by",
    "from", "property", "home", "house", "listing"
  }

  const PUNCTUATION: set<char> := {'.', ',', '!', '?', ';', ':', '(', ')', '[', ']', '"', '\''}

  /** The non-empty words with punctuation stripped from their ends. */
  function TokensOf(words: seq<string>): seq<string>
  {
    if words == [] then []
    else
      var token := Strip(words[0], PUNCTUATION);
      (if token != "" then [token] else []) + TokensOf(words[1..])
  }

  /** `_tokenize` */
  function Tokenize(lower: string -> string, text: string): seq<string>
  {
    TokensOf(Words(lower(text)))
  }

  /** `_content_tokens` */
  function ContentTokens(tokens: seq<string>): set<string>
  {
    set t | t in tokens && t !in STOPWORDS && t !in NEGATIONS
  }

  /** `_has_negation` */
  predicate HasNegation(tokens: seq<string>)
  {
    exists t :: t in tokens && t in NEGATIONS
  }

  /** The claim side of the comparison, computed once per claim. */
  datatype Reading = Reading(content: set<string>, negated: bool)

  function Read(lower: string -> string, text: string): Reading
  {
    var tokens := Tokenize(lower, text);
    Reading(ContentTokens(tokens), HasNegation(tokens))
  }

  /** The share of the claim's content words that the evidence also holds. */
  function Overlap(claim: Reading, evidence: Reading): (x: real)
    ensures 0.0 <= x <= 1.0
  {
    if claim.content == {} then 0.0
    else
      CardinalityBound(claim.content * evidence.content, claim.content);
      Ratio(|claim.content * evidence.content|, |claim.content|)
  }

  function Ratio(a: nat, b: nat): (x: real)
    requires a <= b && b > 0
    ensures 0.0 <= x <= 1.0
    ensures x == 1.0 <==> a == b
  {
    a as real / b as real
  }

  lemma {:induction false} CardinalityBound(a: set<string>, b: set<string>)
    requires a <= b
    ensures |a| <= |b|
    ensures |a| == |b| ==> a == b
  {
    if a == {} {
    } else {
      var x :| x in a;
      CardinalityBound(a - {x}, b - {x});
    }
  }

  datatype Best = Best(evidence: Evidence, overlap: real, mismatch: bool)

  function Weigh(lower: string -> string, claim: Reading, ev: Evidence): Best
  {
    var reading := Read(lower, ev.fact.content);
    Best(ev, Overlap(claim, reading), reading.negated != claim.negated)
  }

  /** The evidence the loop of `FakeEntailer.entail` ends with. */
  function BestOf(lower: string -> string, claim: Reading, evidence: seq<Evidence>): Best
    requires evidence != []
  {
    var here := Weigh(lower, claim, evidence[|evidence| - 1]);
    if |evidence| == 1 then here
    else
      var before := BestOf(lower, claim, evidence[..|evidence| - 1]);
      if here.overlap > before.overlap then here else before
  }

  /** The loop ends with the first evidence of strongest overlap. */
  lemma {:induction false} BestIsFirstStrongest(lower: string -> string, claim: Reading, evidence: seq<Evidence>)
    returns (i: nat)
    requires evidence != []
    ensures i < |evidence| && BestOf(lower, claim, evidence) == Weigh(lower, claim, evidence[i])
    ensures forall j :: 0 <= j < |evidence| ==>
              Weigh(lower, claim, evidence[j]).overlap <= Weigh(lower, claim, evidence[i]).overlap
    ensures forall j :: 0 <= j < i ==>
              Weigh(lower, claim, evidence[j]).overlap < Weigh(lower, claim, evidence[i]).overlap
  {
    hide Weigh;
    var n := |evidence| - 1;
    if n == 0 {
      i := 0;
    } else {
      i := BestIsFirstStrongest(lower, claim, evidence[..n]);
      if Weigh(lower, claim, evidence[n]).overlap > Weigh(lower, claim, evidence[i]).overlap {
        i := n;
      }
    }
  }

  /** `FakeEntailer._norm`, the fixture key of a claim. */
  function FixtureKey(lower: string -> string, claim: string): string
  {
    Join(" ", Words(lower(claim)))
  }

  /** What `entail` returns. */
  function Entail(entailer: Entailer, claim: string, evidence: seq<Evidence>): Verdict
  {
    if evidence == [] then Verdict(BASELESS, 0.0, None)
    else match entailer
      case Real(client) =>
        var answer := client(claim, evidence);
        Verdict(answer.tag, answer.score, if answer.tag.ENTAILED? then Some(evidence[0]) else None)
      case Fake(threshold, fixtures, lower) =>
        Judge(BestOf(lower, Read(lower, claim), evidence), threshold, fixtures, FixtureKey(lower, claim))
  }

  /** The decision at the end of `FakeEntailer.entail`. */
  function Judge(best: Best, threshold: real, fixtures: map<string, Label>, key: string): Verdict
  {
    if key in fixtures then
      Verdict(fixtures[key], if fixtures[key].ENTAILED? then 1.0 else 0.0, Some(best.evidence))
    else if best.overlap >= threshold then
      if best.mismatch then Verdict(CONTRADICTED, 0.0, Some(best.evidence))
      else Verdict(ENTAILED, Round4(best.overlap), Some(best.evidence))
    else Verdict(BASELESS, 0.0, None)
  }

  lemma BestStep(lower: string -> string, claim: Reading, evidence: seq<Evidence>, i: nat)
    requires 0 < i < |evidence|
    ensures BestOf(lower, claim, evidence[..i + 1]) ==
            var before := BestOf(lower, claim, evidence[..i]);
            var here := Weigh(lower, claim, evidence[i]);
            if here.overlap > before.overlap then here else before
  {
    hide Weigh;
    assert evidence[..i + 1][..i] == evidence[..i];
  }

  /** The loop of `FakeEntailer.entail` over non-empty evidence. */
  method PickBest(lower: string -> string, claim: Reading, evidence: seq<Evidence>) returns (best: Best)
    requires evidence != []
    ensures best == BestOf(lower, claim, evidence)
  {
    best := Weigh(lower, claim, evidence[0]);
    assert best == BestOf(lower, claim, evidence[..1]);
    hide Weigh;
    hide BestOf;
    for i := 1 to |evidence|
      invariant best == BestOf(lower, claim, evidence[..i])
    {
      BestStep(lower, claim, evidence, i);
      var next := Weigh(lower, claim, evidence[i]);
      if next.overlap > best.overlap {
        best := next;
      }
    }
    assert evidence[..|evidence|] == evidence;
  }

  /** `FakeEntailer.entail` */
  method EntailByOverlap(entailer: Entailer, claim: string, evidence: seq<Evidence>) returns (v: Verdict)
    requires entailer.Fake?
    ensures v == Entail(entailer, claim, evidence)
  {
    if evidence == [] {
      return Verdict(BASELESS, 0.0, None);
    }
    var best := PickBest(entailer.lower, Read(entailer.lower, claim), evidence);
    v := Judge(best, entailer.threshold, entailer.fixtures, FixtureKey(entailer.lower, claim));
  }

  /** Whatever the entailer, the evidence it rests on was retrieved, and an entailed claim always has some. */
  lemma VerdictEvidence(entailer: Entailer, claim: string, evidence: seq<Evidence>)
    ensures var v := Entail(entailer, claim, evidence);
            && (v.evidence.Some? ==> v.evidence.value in evidence)
            && (v.tag.ENTAILED? ==> v.evidence.Some?)
  {
    hide Weigh;
    hide Read;
    if evidence != [] && entailer.Fake? {
      var i := BestIsFirstStrongest(entailer.lower, Read(entailer.lower, claim), evidence);
      assert Weigh(entailer.lower, Read(entailer.lower, claim), evidence[i]).evidence == evidence[i] by {
        WeighEvidence(entailer.lower, Read(entailer.lower, claim), evidence[i]);
      }
    }
  }

  /** Evidence `i` has the strongest overlap with the claim, and none before it is as strong. */
  ghost predicate FirstStrongest(lower: string -> string, claim: Reading, evidence: seq<Evidence>, i: nat)
  {
    && i < |evidence|
    && (forall j :: 0 <= j < |evidence| ==>
          Weigh(lower, claim, evidence[j]).overlap <= Weigh(lower, claim, evidence[i]).overlap)
    && (forall j :: 0 <= j < i ==>
          Weigh(lower, claim, evidence[j]).overlap < Weigh(lower, claim, evidence[i]).overlap)
  }

  /**
   * The label of a claim without a fixture: baseless exactly when no evidence reaches the threshold; else the
   * first evidence of strongest overlap decides, which entails the claim exactly when both or neither is negated.
   */
  lemma LabelIsExact(entailer: Entailer, claim: string, evidence: seq<Evidence>)
    requires entailer.Fake? && FixtureKey(entailer.lower, claim) !in entailer.fixtures
    ensures var v, lower, reading := Entail(entailer, claim, evidence), entailer.lower, Read(entailer.lower, claim);
            && (v.tag.BASELESS? <==>
                  forall j :: 0 <= j < |evidence| ==> Weigh(lower, reading, evidence[j]).overlap < entailer.threshold)
            && (v.evidence.None? <==> v.tag.BASELESS?)
            && forall i: nat :: FirstStrongest(lower, reading, evidence, i) && !v.tag.BASELESS? ==>
                 && v.evidence == Some(evidence[i])
                 && (v.tag.ENTAILED? <==> HasNegation(Tokenize(lower, evidence[i].fact.content)) == reading.negated)
  {
    var lower, reading := entailer.lower, Read(entailer.lower, claim);
    hide BestOf;
    hide Overlap;
    hide HasNegation;
    hide Tokenize;
    hide ContentTokens;
    if evidence != [] {
      var k := BestIsFirstStrongest(lower, reading, evidence);
      forall i: nat | FirstStrongest(lower, reading, evidence, i)
        ensures i == k
      {
      }
    }
  }

  lemma WeighEvidence(lower: string -> string, claim: Reading, ev: Evidence)
    ensures Weigh(lower, claim, ev).evidence == ev
  {
  }

  /**
   * When the retrieved evidence holds the claim's own text and no evidence of opposite polarity covers
   * all of its content words, the overlap entailer entails it with score 1.
   */
  lemma ExactTextIsEntailed(entailer: Entailer, claim: string, evidence: seq<Evidence>)
    requires entailer.Fake? && entailer.threshold <= 1.0 && FixtureKey(entailer.lower, claim) !in entailer.fixtures
    requires Read(entailer.lower, claim).content != {}
    requires exists ev :: ev in evidence && ev.fact.content == claim
    requires forall ev :: ev in evidence
                          && Read(entailer.lower, claim).content <= Read(entailer.lower, ev.fact.content).content
                          ==> Read(entailer.lower, ev.fact.content).negated == Read(entailer.lower, claim).negated
    ensures var v := Entail(entailer, claim, evidence); v.tag.ENTAILED? && v.score == 1.0
  {
    hide Read;
    hide BestOf;
    var lower := entailer.lower;
    var reading := Read(lower, claim);
    var k :| 0 <= k < |evidence| && evidence[k].fact.content == claim;
    assert reading.content * reading.content == reading.content;
    assert Weigh(lower, reading, evidence[k]).overlap == 1.0;
    var i := BestIsFirstStrongest(lower, reading, evidence);
    var other := Read(lower, evidence[i].fact.content);
    assert Overlap(reading, other) == 1.0;
    CardinalityBound(reading.content * other.content, reading.content);
    assert reading.content <= other.content;
    assert Round4(1.0) == 1.0;
  }

  /** The word `w` stands between blanks. */
  ghost predicate HoldsWord(text: string, w: string)
  {
    exists x, y :: text == x + " " + w + " " + y
  }

  /** Lower-casing leaves the word `w` standing between blanks. */
  ghost predicate KeepsWord(lower: string -> string, w: string)
  {
    forall a, b :: HoldsWord(lower(a + " " + w + " " + b), w)
  }

  /** A content word with nothing to strip. */
  predicate PlainContentWord(w: string)
  {
    && w != "" && w !in STOPWORDS && w !in NEGATIONS
    && forall j :: 0 <= j < |w| ==> !IsSpace(w[j]) && w[j] !in PUNCTUATION
  }

  lemma {:induction false} TokenFound(words: seq<string>, w: string)
    requires w in words && w != "" && Strip(w, PUNCTUATION) == w
    ensures w in TokensOf(words)
  {
    if words[0] == w {
    } else {
      TokenFound(words[1..], w);
    }
  }

  lemma WordStands(x: string, w: string, y: string)
    requires w != "" && forall j :: 0 <= j < |w| ==> !IsSpace(w[j])
    ensures w in Words(x + " " + w + " " + y)
  {
    var s, i := x + " " + w + " " + y, |x| + 1;
    assert s[i..i + |w|] == w && s[i - 1] == ' ' && s[i + |w|] == ' ';
    assert forall j :: i <= j < i + |w| ==> s[j] == w[j - i];
    BlankIsSpace();
    hide IsSpace;
    WordFound(s, i, |w|);
  }

  /** A text around a content word has that word in its reading. */
  lemma WordIsRead(lower: string -> string, a: string, w: string, b: string)
    requires KeepsWord(lower, w) && PlainContentWord(w)
    ensures w in Read(lower, a + " " + w + " " + b).content
  {
    hide Words;
    assert HoldsWord(lower(a + " " + w + " " + b), w);
    var x, y :| lower(a + " " + w + " " + b) == x + " " + w + " " + y;
    StripIdentity(w, PUNCTUATION);
    hide Strip;
    WordStands(x, w, y);
    TokenFound(Words(x + " " + w + " " + y), w);
  }

  // ---- Polarity ----

  lemma {:induction false} TokenIff(words: seq<string>, t: string)
    ensures t in TokensOf(words) <==> t != "" && exists w :: w in words && Strip(w, PUNCTUATION) == t
  {
    hide Strip;
    if words == [] {
    } else {
      TokenIff(words[1..], t);
      assert words == [words[0]] + words[1..];
    }
  }

  /** A text reads as negated exactly when one of its stripped words is a negation, whatever else it holds. */
  lemma NegatedIff(lower: string -> string, text: string)
    ensures Read(lower, text).negated <==>
            exists w :: w in Words(lower(text)) && Strip(w, PUNCTUATION) in NEGATIONS
  {
    hide Strip;
    hide Words;
    var words := Words(lower(text));
    if w :| w in words && Strip(w, PUNCTUATION) in NEGATIONS {
      TokenIff(words, Strip(w, PUNCTUATION));
    }
    if Read(lower, text).negated {
      var t :| t in TokensOf(words) && t in NEGATIONS;
      TokenIff(words, t);
    }
  }

  /** Its content words are its stripped words that are neither stopwords nor negations. */
  lemma ContentIff(lower: string -> string, text: string, t: string)
    ensures t in Read(lower, text).content <==>
            && t != "" && t !in STOPWORDS && t !in NEGATIONS
            && exists w :: w in Words(lower(text)) && Strip(w, PUNCTUATION) == t
  {
    hide Strip;
    hide Words;
    TokenIff(Words(lower(text)), t);
  }

  /** A negation standing between blanks makes a text negated. */
  lemma NegationIsRead(lower: string -> string, a: string, w: string, b: string)
    requires KeepsWord(lower, w) && w in NEGATIONS
    ensures Read(lower, a + " " + w + " " + b).negated
  {
    assert HoldsWord(lower(a + " " + w + " " + b), w);
    var x, y :| lower(a + " " + w + " " + b) == x + " " + w + " " + y;
    NegationIsPlain(w);
    StripIdentity(w, PUNCTUATION);
    WordStands(x, w, y);
    NegatedIff(lower, a + " " + w + " " + b);
    hide *;
  }

  lemma NegationIsPlain(w: string)
    requires w in NEGATIONS
    ensures w != "" && (forall j :: 0 <= j < |w| ==> !IsSpace(w[j]))
    ensures w[0] !in PUNCTUATION && w[|w| - 1] !in PUNCTUATION
  {
  }

  /**
   * When some evidence holds all content words of the claim, and all such evidence is of the opposite polarity, the
   * overlap entailer contradicts the claim: score 0, and no evidence of the same polarity behind it.
   */
  lemma OppositeIsContradicted(entailer: Entailer, claim: string, evidence: seq<Evidence>)
    requires entailer.Fake? && entailer.threshold <= 1.0 && FixtureKey(entailer.lower, claim) !in entailer.fixtures
    requires Read(entailer.lower, claim).content != {}
    requires exists ev :: ev in evidence
                          && Read(entailer.lower, claim).content <= Read(entailer.lower, ev.fact.content).content
    requires forall ev :: ev in evidence
                          && Read(entailer.lower, claim).content <= Read(entailer.lower, ev.fact.content).content
                          ==> Read(entailer.lower, ev.fact.content).negated != Read(entailer.lower, claim).negated
    ensures var v := Entail(entailer, claim, evidence); v.tag.CONTRADICTED? && v.score == 0.0
  {
    hide Read;
    hide BestOf;
    var lower := entailer.lower;
    var reading := Read(lower, claim);
    var k :| 0 <= k < |evidence| && reading.content <= Read(lower, evidence[k].fact.content).content;
    var own := Read(lower, evidence[k].fact.content);
    assert reading.content * own.content == reading.content;
    assert Weigh(lower, reading, evidence[k]).overlap == 1.0;
    var i := BestIsFirstStrongest(lower, reading, evidence);
    var other := Read(lower, evidence[i].fact.content);
    assert Overlap(reading, other) == 1.0;
    CardinalityBound(reading.content * other.content, reading.content);
    assert reading.content <= other.content;
    assert evidence[i] in evidence;
  }

  /** The words of `plain`, in order, with the negation `w` put in at `i`. */
  ghost predicate Negates(lower: string -> string, text: string, plain: string, w: string, i: nat)
  {
    var words := Words(lower(plain));
    i <= |words| && w in NEGATIONS && Words(lower(text)) == words[..i] + [w] + words[i..]
  }

  lemma NegatedReading(lower: string -> string, text: string, plain: string, w: string, i: nat)
    requires Negates(lower, text, plain, w, i) && !Read(lower, plain).negated
    ensures Read(lower, text).negated && Read(lower, text).content == Read(lower, plain).content
  {
    var words, more := Words(lower(plain)), Words(lower(text));
    assert more[i] == w && words == words[..i] + words[i..];
    NegationIsPlain(w);
    StripIdentity(w, PUNCTUATION);
    hide Strip;
    hide Words;
    hide Read;
    assert Strip(w, PUNCTUATION) == w && w in more;
    NegatedIff(lower, text);
    assert forall x :: x in more <==> x in words || x == w;
    forall t: string
      ensures t in Read(lower, text).content <==> t in Read(lower, plain).content
    {
      ContentIff(lower, text, t);
      ContentIff(lower, plain, t);
    }
  }

  /** A claim that differs from its only evidence by a negation is contradicted, whichever of the two holds it. */
  lemma NegationContradicts(entailer: Entailer, claim: string, ev: Evidence, w: string, i: nat)
    requires entailer.Fake? && entailer.threshold <= 1.0 && FixtureKey(entailer.lower, claim) !in entailer.fixtures
    requires Read(entailer.lower, claim).content != {}
    requires || (Negates(entailer.lower, claim, ev.fact.content, w, i)
                 && !Read(entailer.lower, ev.fact.content).negated)
             || (Negates(entailer.lower, ev.fact.content, claim, w, i) && !Read(entailer.lower, claim).negated)
    ensures var v := Entail(entailer, claim, [ev]); v.tag.CONTRADICTED? && v.score == 0.0
  {
    hide Read;
    hide Entail;
    hide FixtureKey;
    if Negates(entailer.lower, claim, ev.fact.content, w, i) && !Read(entailer.lower, ev.fact.content).negated {
      NegatedReading(entailer.lower, claim, ev.fact.content, w, i);
    } else {
      NegatedReading(entailer.lower, ev.fact.content, claim, w, i);
    }
    assert ev in [ev];
    OppositeIsContradicted(entailer, claim, [ev]);
  }

  // ---- Fixtures ----

  /** A fixture is found under any spelling with the same lower-cased words, and under no other. */
  lemma FixtureKeyIff(lower: string -> string, a: string, b: string)
    ensures FixtureKey(lower, a) == FixtureKey(lower, b) <==> Words(lower(a)) == Words(lower(b))
  {
    WordsAreWords(lower(a));
    WordsAreWords(lower(b));
    hide AllWords;
    hide Words;
    WordsOfJoin(Words(lower(a)));
    WordsOfJoin(Words(lower(b)));
  }

  /** A fixture decides whatever the texts say, with the evidence the loop would have chosen. */
  lemma FixtureDecides(entailer: Entailer, claim: string, evidence: seq<Evidence>, pinned: string)
    requires entailer.Fake? && evidence != []
    requires Words(entailer.lower(pinned)) == Words(entailer.lower(claim))
    requires FixtureKey(entailer.lower, pinned) in entailer.fixtures
    ensures var v, tag := Entail(entailer, claim, evidence),
                          entailer.fixtures[FixtureKey(entailer.lower, pinned)];
            && v.tag == tag
            && v.score == (if tag.ENTAILED? then 1.0 else 0.0)
            && exists i: nat ::
                 FirstStrongest(entailer.lower, Read(entailer.lower, claim), evidence, i)
                 && v.evidence == Some(evidence[i])
  {
    var lower, reading := entailer.lower, Read(entailer.lower, claim);
    FixtureKeyIff(lower, pinned, claim);
    hide FixtureKey;
    hide Words;
    hide Read;
    hide BestOf;
    var k := BestIsFirstStrongest(lower, reading, evidence);
    hide Overlap;
    assert FirstStrongest(lower, reading, evidence, k);
  }

  lemma NoContentNoOverlap(lower: string -> string, claim: Reading, ev: Evidence)
    requires claim.content == {}
    ensures Weigh(lower, claim, ev).overlap == 0.0
  {
    hide Read;
  }

  /** A claim of stop words and negations only is baseless, whatever was retrieved. */
  lemma NoContentIsBaseless(entailer: Entailer, claim: string, evidence: seq<Evidence>)
    requires entailer.Fake? && FixtureKey(entailer.lower, claim) !in entailer.fixtures && entailer.threshold > 0.0
    requires forall t :: t in Tokenize(entailer.lower, claim) ==> t in STOPWORDS || t in NEGATIONS
    ensures Entail(entailer, claim, evidence) == Verdict(BASELESS, 0.0, None)
  {
    hide Tokenize;
    var reading := Read(entailer.lower, claim);
    assert reading.content == {};
    hide Read;
    hide FixtureKey;
    forall j | 0 <= j < |evidence|
      ensures Weigh(entailer.lower, reading, evidence[j]).overlap == 0.0
    {
      NoContentNoOverlap(entailer.lower, reading, evidence[j]);
    }
    hide Weigh;
    if evidence != [] {
      var k := BestIsFirstStrongest(entailer.lower, reading, evidence);
    }
  }
}
