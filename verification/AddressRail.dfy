/**
 * When the headline sentence passes the wording rail: for a deny-list that stays clear of the sentence's own
 * words, exactly when the address does.
 */
module AddressRail {
  import opened Options
  import opened Text
  import opened Rag
  import opened FairHousing
  import opened Generator
  import opened Graph
  import opened GraphSafety
  import opened SentenceShape
  import opened Grounded

  const TEMPLATE_WORDS: seq<string> := ["Estimated", "value", "for", "is", "range"]

  /** The template's letters are word characters, its signs are not, and only a blank matches a blank. */
  ghost predicate TemplateTables(rail: Rail)
  {
    && (forall w, j :: w in TEMPLATE_WORDS && 0 <= j < |w| ==> rail.isWord(w[j]))
    && (forall c :: c in {'$', '(', ')', '-'} ==> !rail.isWord(c))
    && (forall c :: rail.fold(c) == rail.fold(' ') ==> c == ' ')
  }

  /** The phrase begins with the word `w`, ignoring case. */
  predicate StartsWithWord(rail: Rail, p: string, w: string)
  {
    && |w| <= |p| && (forall j :: 0 <= j < |w| ==> rail.fold(w[j]) == rail.fold(p[j]))
    && (|p| == |w| || p[|w|] == ' ')
  }

  /** No listed phrase begins with a template word or a digit, or goes on with the word "is". */
  ghost predicate AvoidsTemplate(rail: Rail)
  {
    forall t :: t in rail.terms ==>
      && (forall w :: w in TEMPLATE_WORDS ==> !StartsWithWord(rail, t.phrase, w))
      && (forall k :: 0 <= k < |t.phrase| && t.phrase[k] == ' ' ==> !StartsWithWord(rail, t.phrase[k + 1..], "is"))
      && (t.phrase != "" ==> forall c :: '0' <= c <= '9' ==> rail.fold(c) != rail.fold(t.phrase[0]))
  }

  /** A hit begins and ends in word characters, and each character matches the phrase's. */
  lemma HitEnds(rail: Rail, text: string, i: nat, p: string)
    requires ValidRail(rail) && ValidPhrase(rail, p) && HitAt(rail, text, i, p)
    ensures 0 < |p| && i + |p| <= |text|
    ensures WordAt(rail, text, i) && !WordAt(rail, text, i - 1)
    ensures WordAt(rail, text, i + |p| - 1) && !WordAt(rail, text, i + |p|)
    ensures rail.fold(text[i]) == rail.fold(p[0])
  {
    var n := |p| - 1;
    assert rail.fold(text[i + 0]) == rail.fold(p[0]) && rail.fold(text[i + n]) == rail.fold(p[n]);
  }

  /** A hit that begins in a word followed by a blank begins with that whole word. */
  lemma HitInWord(rail: Rail, w: string, y: string, i: nat, p: string)
    requires ValidRail(rail) && ValidPhrase(rail, p) && TemplateTables(rail)
    requires forall j :: 0 <= j < |w| ==> rail.isWord(w[j])
    requires i < |w| && HitAt(rail, w + " " + y, i, p)
    ensures i == 0 && StartsWithWord(rail, p, w)
  {
    var text := w + " " + y;
    forall j | 0 <= j < |w|
      ensures WordAt(rail, text, j)
    {
      assert text[j] == w[j];
    }
    HitEnds(rail, text, i, p);
    hide ValidRail;
    assert i == 0 && |p| >= |w|;
    forall j | 0 <= j < |p|
      ensures rail.fold(text[j]) == rail.fold(p[j])
    {
      assert rail.fold(text[i + j]) == rail.fold(p[j]);
    }
    assert forall j :: 0 <= j < |w| ==> text[j] == w[j];
    assert text[|w|] == ' ';
  }

  lemma NoTemplateStart(rail: Rail, w: string, k: nat)
    requires AvoidsTemplate(rail) && w in TEMPLATE_WORDS && k < |rail.terms|
    ensures !StartsWithWord(rail, rail.terms[k].phrase, w)
  {
    hide StartsWithWord;
    assert rail.terms[k] in rail.terms;
  }

  lemma PhraseIsValid(rail: Rail, k: nat)
    requires ValidRail(rail) && k < |rail.terms|
    ensures ValidPhrase(rail, rail.terms[k].phrase)
  {
    hide ValidPhrase;
  }

  lemma LettersAreWords(rail: Rail, w: string)
    requires TemplateTables(rail) && w in TEMPLATE_WORDS
    ensures forall j :: 0 <= j < |w| ==> rail.isWord(w[j])
  {
  }

  lemma HitIsNotClean(rail: Rail, text: string, i: nat, k: nat)
    requires i <= |text| && k < |rail.terms| && HitAt(rail, text, i, rail.terms[k].phrase)
    ensures !NoHit(rail, text)
  {
    hide HitAt;
  }

  lemma HitStartsOnWord(rail: Rail, text: string, i: nat, p: string)
    requires ValidRail(rail) && ValidPhrase(rail, p) && HitAt(rail, text, i, p)
    ensures i < |text| && rail.isWord(text[i])
  {
    hide ValidRail;
    hide ValidPhrase;
    hide HitAt;
    HitEnds(rail, text, i, p);
  }

  lemma HitStartsBehind(rail: Rail, w: string, y: string, i: nat, k: nat)
    requires ValidRail(rail) && TemplateTables(rail) && AvoidsTemplate(rail) && w in TEMPLATE_WORDS
    requires k < |rail.terms| && HitAt(rail, w + " " + y, i, rail.terms[k].phrase)
    ensures i > |w|
  {
    hide *;
    var text, p := w + " " + y, rail.terms[k].phrase;
    PhraseIsValid(rail, k);
    NoTemplateStart(rail, w, k);
    LettersAreWords(rail, w);
    BlankIsNoWord(rail);
    HitStartsOnWord(rail, text, i, p);
    assert text[|w|] == ' ';
    assert i != |w|;
    if i < |w| {
      HitInWord(rail, w, y, i, p);
    }
  }

  /** Behind a template word and a blank, only the hits of the text that follows are left. */
  lemma HitBehindWord(rail: Rail, w: string, y: string, i: nat, k: nat)
    requires ValidRail(rail) && TemplateTables(rail) && AvoidsTemplate(rail) && w in TEMPLATE_WORDS
    requires k < |rail.terms| && HitAt(rail, w + " " + y, i, rail.terms[k].phrase)
    ensures !NoHit(rail, y)
  {
    hide *;
    var text, p := w + " " + y, rail.terms[k].phrase;
    PhraseIsValid(rail, k);
    HitStartsBehind(rail, w, y, i, k);
    HitEnds(rail, text, i, p);
    assert text[|w| + 1..|text|] == y;
    HitWithinCut(rail, text, |w| + 1, |text|, i, p);
    HitIsNotClean(rail, y, i - |w| - 1, k);
  }

  /** A template word in front of a clean text adds no hit. */
  lemma WordKeepsNoHit(rail: Rail, w: string, y: string)
    requires ValidRail(rail) && TemplateTables(rail) && AvoidsTemplate(rail) && w in TEMPLATE_WORDS && NoHit(rail, y)
    ensures NoHit(rail, w + " " + y)
  {
    hide HitAt;
    hide ValidRail;
    hide TemplateTables;
    hide AvoidsTemplate;
    var text := w + " " + y;
    forall i, k | 0 <= i <= |text| && 0 <= k < |rail.terms|
      ensures !HitAt(rail, text, i, rail.terms[k].phrase)
    {
      if HitAt(rail, text, i, rail.terms[k].phrase) {
        HitBehindWord(rail, w, y, i, k);
      }
    }
  }

  /** Not a word character, or a digit. */
  predicate Inert(rail: Rail, s: string)
  {
    forall j :: 0 <= j < |s| ==> !rail.isWord(s[j]) || '0' <= s[j] <= '9'
  }

  /** Signs and digits in front of a clean text add no hit. */
  lemma InertKeepsNoHit(rail: Rail, m: string, y: string)
    requires ValidRail(rail) && AvoidsTemplate(rail) && Inert(rail, m) && NoHit(rail, y)
    ensures NoHit(rail, m + y)
  {
    hide HitAt;
    hide StartsWithWord;
    var text := m + y;
    assert text[|m|..|text|] == y;
    assert forall j :: 0 <= j < |m| ==> text[j] == m[j];
    forall i, k | 0 <= i <= |text| && 0 <= k < |rail.terms|
      ensures !HitAt(rail, text, i, rail.terms[k].phrase)
    {
      var t := rail.terms[k];
      assert ValidPhrase(rail, t.phrase) && t in rail.terms;
      if HitAt(rail, text, i, t.phrase) {
        HitEnds(rail, text, i, t.phrase);
        if i < |m| {
          assert false;
        } else {
          HitWithinCut(rail, text, |m|, |text|, i, t.phrase);
        }
      }
    }
  }

  /** A hit that reaches from the address over the blank takes in the word "is". */
  lemma HitOverIs(rail: Rail, address: string, y: string, i: nat, p: string)
    requires ValidRail(rail) && ValidPhrase(rail, p) && TemplateTables(rail)
    requires var text := address + " " + ("is" + " " + y); HitAt(rail, text, i, p) && i < |address| < i + |p|
    ensures var k := |address| - i; k < |p| && p[k] == ' ' && StartsWithWord(rail, p[k + 1..], "is")
  {
    var text, a, k := address + " " + ("is" + " " + y), |address|, |address| - i;
    HitEnds(rail, text, i, p);
    hide ValidRail;
    assert text[a] == ' ' && text[a + 1] == "is"[0] && text[a + 2] == "is"[1] && text[a + 3] == ' ';
    assert "is" in TEMPLATE_WORDS;
    assert rail.isWord("is"[0]) && rail.isWord("is"[1]);
    assert !WordAt(rail, text, a) by {
      BlankIsNoWord(rail);
    }
    assert i + |p| >= a + 3;
    forall j | 0 <= j < |p|
      ensures rail.fold(text[i + j]) == rail.fold(p[j])
    {
    }
    assert rail.fold(text[i + k]) == rail.fold(p[k]);
    assert rail.fold(text[i + (k + 1)]) == rail.fold(p[k + 1]) && rail.fold(text[i + (k + 2)]) == rail.fold(p[k + 2]);
    assert |p| > k + 3 ==> rail.fold(text[i + (k + 3)]) == rail.fold(p[k + 3]);
  }

  lemma BlankIsNoWord(rail: Rail)
    requires ValidRail(rail)
    ensures !rail.isWord(' ')
  {
    assert IsSpace(' ');
  }

  lemma AddressKeepsNoHit(rail: Rail, address: string, y: string)
    requires ValidRail(rail) && TemplateTables(rail) && AvoidsTemplate(rail)
    requires NoHit(rail, address) && NoHit(rail, "is" + " " + y)
    ensures NoHit(rail, address + " " + ("is" + " " + y))
  {
    hide HitAt;
    hide StartsWithWord;
    var rest := "is" + " " + y;
    var text, a := address + " " + rest, |address|;
    assert text[0..a] == address && text[a + 1..|text|] == rest && text[a] == ' ';
    forall i, k | 0 <= i <= |text| && 0 <= k < |rail.terms|
      ensures !HitAt(rail, text, i, rail.terms[k].phrase)
    {
      var t := rail.terms[k];
      assert ValidPhrase(rail, t.phrase) && t in rail.terms;
      if HitAt(rail, text, i, t.phrase) {
        HitEnds(rail, text, i, t.phrase);
        if i > a {
          HitWithinCut(rail, text, a + 1, |text|, i, t.phrase);
        } else if i == a {
          BlankIsNoWord(rail);
        } else if i + |t.phrase| <= a {
          HitWithinCut(rail, text, 0, a, i, t.phrase);
        } else {
          HitOverIs(rail, address, y, i, t.phrase);
        }
      }
    }
  }

  lemma Nested(a: string, b: string, c: string, d: string, e: string, f: string, g: string)
    ensures a + b + c + d + e + f + g == a + (b + (c + (d + (e + (f + g)))))
  {
  }

  /** The headline sentence, taken apart at its words. */
  lemma HeadlineParts(address: string, v: Valuation)
    ensures var m1, m2 := "$" + v.estimate + " (", "$" + v.low + "-$" + v.high + ").";
            EstimateSentence(address, v) ==
            "Estimated" + " " + ("value" + " " + ("for" + " " +
              (address + " " + ("is" + " " + (m1 + ("range" + " " + m2))))))
  {
    var m1, m2 := "$" + v.estimate + " (", "$" + v.low + "-$" + v.high + ").";
    assert "Estimated value for " == ("Estimated" + " ") + ("value" + " ") + ("for" + " ");
    assert " is $" == " " + ("is" + " ") + "$" && " (range $" == " (" + ("range" + " ") + "$";
    assert EstimateSentence(address, v) == ("Estimated" + " ") + ("value" + " ") + ("for" + " ")
                                           + (address + " ") + ("is" + " ") + m1 + (("range" + " ") + m2);
    hide *;
    Nested("Estimated" + " ", "value" + " ", "for" + " ", address + " ", "is" + " ", m1, ("range" + " ") + m2);
  }

  lemma MoneyIsInert(rail: Rail, v: Valuation)
    requires ValidRail(rail) && TemplateTables(rail) && Money(v.estimate) && Money(v.low) && Money(v.high)
    ensures Inert(rail, "$" + v.estimate + " (") && Inert(rail, "$" + v.low + "-$" + v.high + ").")
  {
    BlankIsNoWord(rail);
  }

  /** With a deny-list clear of the template, the headline is as clean as the address. */
  lemma HeadlineIsCleanIff(rail: Rail, address: string, v: Valuation)
    requires ValidRail(rail) && TemplateTables(rail) && AvoidsTemplate(rail)
    requires Money(v.estimate) && Money(v.low) && Money(v.high)
    ensures Scan(rail, EstimateSentence(address, v)).allowed <==> Scan(rail, address).allowed
  {
    var m1, m2 := "$" + v.estimate + " (", "$" + v.low + "-$" + v.high + ").";
    MoneyIsInert(rail, v);
    HeadlineParts(address, v);
    TemplateHas();
    EmptyHasNoHit(rail);
    SentencesHoldAddress(address, v, Feature("", ""));
    hide *;
    ScanIsExact(rail, address);
    ScanIsExact(rail, EstimateSentence(address, v));
    if NoHit(rail, address) {
      InertKeepsNoHit(rail, m2, "");
      assert m2 + "" == m2;
      WordKeepsNoHit(rail, "range", m2);
      InertKeepsNoHit(rail, m1, "range" + " " + m2);
      WordKeepsNoHit(rail, "is", m1 + ("range" + " " + m2));
      AddressKeepsNoHit(rail, address, m1 + ("range" + " " + m2));
      WordKeepsNoHit(rail, "for", address + " " + ("is" + " " + (m1 + ("range" + " " + m2))));
      WordKeepsNoHit(rail, "value", "for" + " " + (address + " " + ("is" + " " + (m1 + ("range" + " " + m2)))));
      WordKeepsNoHit(rail, "Estimated",
                     "value" + " " + ("for" + " " + (address + " " + ("is" + " " + (m1 + ("range" + " " + m2))))));
    } else {
      SurroundedAddressHits(rail, "Estimated value for", address,
                            "is $" + v.estimate + " (range $" + v.low + "-$" + v.high + ").");
    }
  }

  lemma TemplateHas()
    ensures "Estimated" in TEMPLATE_WORDS && "value" in TEMPLATE_WORDS && "for" in TEMPLATE_WORDS
    ensures "is" in TEMPLATE_WORDS && "range" in TEMPLATE_WORDS
  {
    var words := TEMPLATE_WORDS;
    assert words[0] == "Estimated" && words[1] == "value" && words[2] == "for";
    assert words[3] == "is" && words[4] == "range";
  }

  lemma CleanHeadlineIsKept(avm: Avm, rail: Rail, address: string)
    requires avm.value(address).Some? && Scan(rail, EstimateSentence(address, avm.value(address).value)).allowed
    ensures KeptSentences(rail, FactsFor(avm, address)) != []
  {
    hide Scan;
    hide EstimateSentence;
    hide FeatureFact;
    assert FactsFor(avm, address)[0].content == EstimateSentence(address, avm.value(address).value);
  }

  /**
   * Sent exactly when the address is clean: under the assumptions of the grounded run, and with a deny-list that
   * stays clear of the headline's own words, the run sends if and only if the caller's scan of the address passes.
   */
  lemma SendsIffAddressClean(d: Deps, facts: seq<Fact>, st: State, sinkSize: nat)
    requires Configured(d) && !HardQuery(d, st.query) && st.attempts == 0
    requires d.avm.value(st.address).Some? && PlainValuation(st.address, d.avm.value(st.address).value)
    requires forall s :: s in KeptSentences(d.rail, FactsFor(d.avm, st.address)) ==>
               Groundable(d.critic, Ingested(d, facts, st.address), st.address, s)
    requires TemplateTables(d.rail) && AvoidsTemplate(d.rail)
    ensures Run(d, facts, st, sinkSize).state.outcome == Some(Sent) <==> Scan(d.rail, st.address).allowed
  {
    var v := d.avm.value(st.address).value;
    assert Money(v.estimate) && Money(v.low) && Money(v.high) && ValidRail(d.rail);
    hide *;
    GroundedRunSends(d, facts, st, sinkSize);
    HeadlineIsCleanIff(d.rail, st.address, v);
    if Scan(d.rail, st.address).allowed {
      CleanHeadlineIsKept(d.avm, d.rail, st.address);
    } else {
      DirtyAddressKeepsNothing(d.avm, d.rail, st.address);
    }
  }
}
