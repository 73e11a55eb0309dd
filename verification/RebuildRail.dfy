/** The Fair Housing rail scans the draft; these lemmas carry its verdict to the rebuilt message. */
module RebuildRail {
  import opened Text
  import opened Decompose
  import opened Rebuild
  import opened FairHousing

  ghost predicate AllNoHit(rail: Rail, texts: seq<string>)
  {
    forall k :: 0 <= k < |texts| ==> NoHit(rail, texts[k])
  }

  lemma StripKeepsNoHit(rail: Rail, s: string, cs: set<char>)
    requires ValidRail(rail) && NoHit(rail, s)
    requires forall c :: c in cs ==> IsSpace(c) || c in {'.', ',', ';'}
    ensures NoHit(rail, Strip(s, cs))
  {
    hide NoHit;
    var a, b := StripIsPart(s, cs);
    CutKeepsNoHit(rail, s, a, b);
  }

  lemma CleanKeepsNoHit(rail: Rail, s: string)
    requires ValidRail(rail) && NoHit(rail, s)
    ensures NoHit(rail, Clean(s))
  {
    hide NoHit;
    hide Strip;
    StripKeepsNoHit(rail, s, WHITESPACE);
    StripKeepsNoHit(rail, Trim(s), DANGLING);
    StripKeepsNoHit(rail, Strip(Trim(s), DANGLING), WHITESPACE);
  }

  lemma {:induction false} SentencesKeepNoHit(rail: Rail, s: string)
    requires ValidRail(rail) && NoHit(rail, s)
    ensures AllNoHit(rail, Sentences(s))
    decreases |s|
  {
    hide NoHit;
    var i := FirstGap(s, 0);
    if i == |s| {
    } else {
      var e := SkipSpaces(s, i);
      CutKeepsNoHit(rail, s, 0, i);
      CutKeepsNoHit(rail, s, e, |s|);
      EndSlices(s, i);
      EndSlices(s, e);
      SentencesKeepNoHit(rail, s[e..]);
    }
  }

  /** A clause separator begins and ends with whitespace or a semicolon. */
  lemma SeparatorEdges(s: string, i: nat)
    requires i < |s| && SeparatorEnd(s, i).Some?
    ensures var e := SeparatorEnd(s, i).value;
            (IsSpace(s[i]) || s[i] == ';') && (IsSpace(s[e - 1]) || s[e - 1] == ';')
  {
    hide Conjunction;
    hide IsSpace;
    assert i < SkipSpaces(s, i) ==> IsSpace(s[i]);
  }

  lemma ClausePartsKeepNoHit(rail: Rail, s: string, i: nat)
    requires ValidRail(rail) && NoHit(rail, s)
    requires i < |s| && SeparatorEnd(s, i).Some?
    ensures NoHit(rail, s[..i]) && NoHit(rail, s[SeparatorEnd(s, i).value..])
  {
    hide NoHit;
    SeparatorEdges(s, i);
    hide SeparatorEnd;
    var e := SeparatorEnd(s, i).value;
    CutKeepsNoHit(rail, s, 0, i);
    CutKeepsNoHit(rail, s, e, |s|);
    EndSlices(s, i);
    EndSlices(s, e);
  }

  lemma {:induction false} ClausesKeepNoHit(rail: Rail, s: string)
    requires ValidRail(rail) && NoHit(rail, s)
    ensures AllNoHit(rail, Clauses(s))
    decreases |s|
  {
    hide NoHit;
    var i := FirstSeparator(s, 0);
    if i == |s| {
    } else {
      ClausePartsKeepNoHit(rail, s, i);
      hide SeparatorEnd;
      var e := SeparatorEnd(s, i).value;
      ClausesKeepNoHit(rail, s[e..]);
      assert Clauses(s) == [s[..i]] + Clauses(s[e..]);
    }
  }

  lemma {:induction false} CleanAllKeepsNoHit(rail: Rail, fragments: seq<string>)
    requires ValidRail(rail) && AllNoHit(rail, fragments)
    ensures forall c :: c in CleanAll(fragments) ==> NoHit(rail, c)
  {
    hide NoHit;
    hide Clean;
    if fragments == [] {
    } else {
      CleanKeepsNoHit(rail, fragments[0]);
      CleanAllKeepsNoHit(rail, fragments[1..]);
    }
  }

  lemma {:induction false} ClaimsOfKeepNoHit(rail: Rail, sentences: seq<string>)
    requires ValidRail(rail) && AllNoHit(rail, sentences)
    ensures forall c :: c in ClaimsOf(sentences) ==> NoHit(rail, c)
  {
    hide NoHit;
    hide Strip;
    if sentences == [] {
    } else {
      StripKeepsNoHit(rail, sentences[0], WHITESPACE);
      ClausesKeepNoHit(rail, Trim(sentences[0]));
      CleanAllKeepsNoHit(rail, Clauses(Trim(sentences[0])));
      ClaimsOfKeepNoHit(rail, sentences[1..]);
    }
  }

  /** No claim of a clean draft holds a deny-listed phrase. */
  lemma ClaimsKeepNoHit(rail: Rail, draft: string)
    requires ValidRail(rail) && NoHit(rail, draft)
    ensures forall c :: c in SplitSpec(draft) ==> NoHit(rail, c)
  {
    hide NoHit;
    hide Strip;
    StripKeepsNoHit(rail, draft, WHITESPACE);
    SentencesKeepNoHit(rail, Trim(draft));
    ClaimsOfKeepNoHit(rail, Sentences(Trim(draft)));
  }

  lemma StopThenBlank(rail: Rail, t: string, rest: string)
    requires ValidRail(rail) && t != "" && t[|t| - 1] == '.' && NoHit(rail, t) && NoHit(rail, rest)
    ensures NoHit(rail, t + " " + rest)
  {
    hide NoHit;
    hide ValidRail;
    var n := |t| - 1;
    EndSlices(t, n);
    StopEndsWord(rail, t);
    CutKeepsNoHit(rail, t, 0, n);
    SpaceBeforeNoHit(rail, rest);
    StopJoinsNoHit(rail, t[..n], " " + rest);
    assert t + " " + rest == t[..n] + "." + (" " + rest);
  }

  lemma StopEndsWord(rail: Rail, t: string)
    requires ValidRail(rail) && t != "" && t[|t| - 1] == '.'
    ensures !WordAt(rail, t, |t| - 1) && !WordAt(rail, t, -1)
  {
  }

  /** Clean texts that end in a full stop stay clean when joined by blanks. */
  lemma {:induction false} JoinKeepsNoHit(rail: Rail, texts: seq<string>)
    requires ValidRail(rail)
    requires forall t :: t in texts ==> t != "" && t[|t| - 1] == '.' && NoHit(rail, t)
    ensures NoHit(rail, Join(" ", texts))
  {
    hide NoHit;
    hide ValidRail;
    if texts == [] {
      EmptyHasNoHit(rail);
    } else if |texts| == 1 {
      assert texts[0] in texts;
    } else {
      assert texts[0] in texts;
      JoinKeepsNoHit(rail, texts[1..]);
      StopThenBlank(rail, texts[0], Join(" ", texts[1..]));
    }
  }

  lemma NormalisedKeepsNoHit(rail: Rail, claim: string)
    requires ValidRail(rail) && NoHit(rail, claim)
    ensures NoHit(rail, Normalised(claim))
  {
    hide NoHit;
    var n := |claim| - Trailing(claim, {'.'});
    assert n < |claim| ==> claim[n] in {'.'};
    CutKeepsNoHit(rail, claim, 0, n);
    assert claim[0..n] == DropStops(claim);
    EmptyHasNoHit(rail);
    StopJoinsNoHit(rail, DropStops(claim), "");
    assert DropStops(claim) + "." + "" == Normalised(claim);
  }

  /** A message rebuilt from clean claims is clean. */
  lemma RebuildKeepsNoHit(rail: Rail, claims: seq<string>)
    requires ValidRail(rail) && claims != []
    requires forall c :: c in claims ==> NoHit(rail, c)
    ensures NoHit(rail, RebuildMessage(claims))
  {
    hide NoHit;
    hide RebuildMessage;
    RebuildIsJoin(claims);
    var xs := MapNormalised(claims);
    forall t | t in xs
      ensures t != "" && t[|t| - 1] == '.' && NoHit(rail, t)
    {
      var i :| 0 <= i < |xs| && xs[i] == t;
      assert claims[i] in claims;
      NormalisedKeepsNoHit(rail, claims[i]);
    }
    JoinKeepsNoHit(rail, xs);
  }

  /**
   * The rail scans the draft but the rebuilt message is what is sent: whenever the draft passes, so does
   * the message rebuilt from any selection of its claims, and so does that message with its ends stripped,
   * which is the draft of a second pass.
   */
  lemma RebuildPassesRail(rail: Rail, draft: string, claims: seq<string>)
    requires ValidRail(rail) && Scan(rail, draft).allowed
    requires claims != [] && forall c :: c in claims ==> c in SplitSpec(draft)
    ensures Scan(rail, RebuildMessage(claims)).allowed
    ensures Scan(rail, Trim(RebuildMessage(claims))).allowed
  {
    hide NoHit;
    hide Scan;
    hide SplitSpec;
    hide RebuildMessage;
    hide Strip;
    ScanIsExact(rail, draft);
    ClaimsKeepNoHit(rail, draft);
    RebuildKeepsNoHit(rail, claims);
    StripKeepsNoHit(rail, RebuildMessage(claims), WHITESPACE);
    ScanIsExact(rail, RebuildMessage(claims));
    ScanIsExact(rail, Trim(RebuildMessage(claims)));
  }
}
