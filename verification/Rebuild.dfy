/**
 * The message the Critic rebuilds from supported claims, and its relation to the splitter:
 * decomposing a rebuilt message gives the claims back.
 */
module Rebuild {
  import opened Text
  import opened Decompose

  /** `claim.rstrip(".")` */
  function DropStops(claim: string): string
  {
    StripRight(claim, {'.'})
  }

  /** The claim with exactly one final full stop. */
  function Normalised(claim: string): string
  {
    DropStops(claim) + "."
  }

  function MapDropStops(claims: seq<string>): (r: seq<string>)
    ensures |r| == |claims|
  {
    if claims == [] then [] else [DropStops(claims[0])] + MapDropStops(claims[1..])
  }

  function MapNormalised(claims: seq<string>): (r: seq<string>)
    ensures |r| == |claims| && forall i :: 0 <= i < |r| ==> r[i] == Normalised(claims[i])
  {
    if claims == [] then [] else [Normalised(claims[0])] + MapNormalised(claims[1..])
  }

  /** `". ".join(claim.rstrip(".") for claim in claims) + "."` */
  function RebuildMessage(claims: seq<string>): string
  {
    Join(". ", MapDropStops(claims)) + "."
  }

  /** A rebuilt message is the normalised claims separated by single blanks. */
  lemma {:induction false} RebuildIsJoin(claims: seq<string>)
    requires claims != []
    ensures RebuildMessage(claims) == Join(" ", MapNormalised(claims))
  {
    if |claims| == 1 {
    } else {
      hide StripRight;
      RebuildIsJoin(claims[1..]);
      var x := DropStops(claims[0]);
      var rest := Join(". ", MapDropStops(claims[1..]));
      assert Join(". ", MapDropStops(claims)) == x + ". " + rest;
      assert (x + ". " + rest) + "." == (x + ".") + " " + (rest + ".");
    }
  }

  /** No sentence boundary inside. */
  ghost predicate NoGap(s: string)
  {
    forall i :: 0 <= i < |s| ==> !GapAt(s, i)
  }

  /** No clause separator inside. */
  ghost predicate NoSeparator(s: string)
  {
    forall i :: 0 <= i <= |s| ==> SeparatorEnd(s, i).None?
  }

  /** A string the splitter cannot take apart, with no whitespace at its ends. */
  ghost predicate Atomic(s: string)
  {
    s != "" && !IsSpace(s[0]) && !IsSpace(s[|s| - 1]) && NoGap(s) && NoSeparator(s)
  }

  // ---- Every claim is atomic ----

  lemma SkipSpacesWithin(s: string, a: nat, b: nat, i: nat)
    requires a <= b <= |s| && i <= b - a
    ensures SkipSpaces(s[a..b], i) + a <= SkipSpaces(s, a + i)
    ensures SkipSpaces(s[a..b], i) < b - a ==> SkipSpaces(s[a..b], i) + a == SkipSpaces(s, a + i)
    decreases b - a - i
  {
    if i == b - a || !IsSpace(s[a..b][i]) {
    } else {
      SkipSpacesWithin(s, a, b, i + 1);
    }
  }

  lemma WordWithin(s: string, a: nat, b: nat, i: nat, w: string)
    requires a <= b <= |s| && WordThenSpace(s[a..b], i, w)
    ensures WordThenSpace(s, a + i, w)
  {
    SliceOfSlice(s, a, b, i, i + |w|);
  }

  lemma ConjunctionWithin(s: string, a: nat, b: nat, i: nat)
    requires a <= b <= |s| && Conjunction(s[a..b], i)
    ensures Conjunction(s, a + i)
  {
    var w := if WordThenSpace(s[a..b], i, "and") then "and"
             else if WordThenSpace(s[a..b], i, "but") then "but" else "while";
    WordWithin(s, a, b, i, w);
  }

  /** Where a separator can begin: before a semicolon, or at whitespace before a conjunction. */
  lemma SeparatorIff(s: string, i: nat)
    requires i <= |s|
    ensures var w := SkipSpaces(s, i);
            SeparatorEnd(s, i).Some? <==> (w < |s| && s[w] == ';') || (i < w && Conjunction(s, w))
  {
    hide Conjunction;
  }

  lemma ConjunctionFits(s: string, w: nat)
    requires Conjunction(s, w)
    ensures w < |s|
  {
  }

  /** A separator of a substring is one of the whole string. */
  lemma SeparatorWithin(s: string, a: nat, b: nat, i: nat)
    requires a <= b <= |s| && i <= b - a && SeparatorEnd(s[a..b], i).Some?
    ensures SeparatorEnd(s, a + i).Some?
  {
    var t := s[a..b];
    var w := SkipSpaces(t, i);
    SeparatorIff(t, i);
    SeparatorIff(s, a + i);
    SkipSpacesWithin(s, a, b, i);
    hide *;
    if w < |t| && t[w] == ';' {
      assert t[w] == s[a + w];
    } else {
      ConjunctionFits(t, w);
      ConjunctionWithin(s, a, b, w);
    }
  }

  lemma PartNoSeparator(s: string, a: nat, b: nat)
    requires a <= b <= |s| && NoSeparator(s)
    ensures NoSeparator(s[a..b])
  {
    forall i | 0 <= i <= b - a
      ensures SeparatorEnd(s[a..b], i).None?
    {
      if SeparatorEnd(s[a..b], i).Some? {
        SeparatorWithin(s, a, b, i);
      }
    }
  }

  lemma PartNoGap(s: string, a: nat, b: nat)
    requires a <= b <= |s| && NoGap(s)
    ensures NoGap(s[a..b])
  {
    forall i | 0 <= i < b - a
      ensures !GapAt(s[a..b], i)
    {
      assert !GapAt(s, a + i);
    }
  }

  lemma {:induction false} SentencesNoGap(s: string)
    ensures forall k :: 0 <= k < |Sentences(s)| ==> NoGap(Sentences(s)[k])
    decreases |s|
  {
    var i := FirstGap(s, 0);
    if i == |s| {
    } else {
      forall j | 0 <= j < i
        ensures !GapAt(s[..i], j)
      {
        assert !GapAt(s, j);
      }
      SentencesNoGap(s[SkipSpaces(s, i)..]);
    }
  }

  /** Neither part around the first separator holds a sentence boundary, nor the first part a separator. */
  lemma ClauseParts(s: string, i: nat, e: nat)
    requires NoGap(s) && i <= e <= |s| && forall j :: 0 <= j < i ==> SeparatorEnd(s, j).None?
    ensures NoSeparator(s[..i]) && NoGap(s[..i]) && NoGap(s[e..])
  {
    hide NoGap;
    hide NoSeparator;
    FirstPartNoSeparator(s, i);
    PartNoGap(s, 0, i);
    PartNoGap(s, e, |s|);
    EndSlices(s, i);
    EndSlices(s, e);
  }

  lemma {:induction false} ClausesNoSeparator(s: string)
    requires NoGap(s)
    ensures forall k :: 0 <= k < |Clauses(s)| ==> NoSeparator(Clauses(s)[k]) && NoGap(Clauses(s)[k])
    decreases |s|
  {
    var i := FirstSeparator(s, 0);
    if i == |s| {
      assert SeparatorEnd(s, |s|).None?;
    } else {
      var e := SeparatorEnd(s, i).value;
      ClauseParts(s, i, e);
      hide NoGap;
      hide NoSeparator;
      hide SeparatorEnd;
      ClausesNoSeparator(s[e..]);
      assert Clauses(s) == [s[..i]] + Clauses(s[e..]);
    }
  }

  lemma FirstPartNoSeparator(s: string, i: nat)
    requires i <= |s| && forall j :: 0 <= j < i ==> SeparatorEnd(s, j).None?
    ensures NoSeparator(s[..i])
  {
    forall j | 0 <= j <= i
      ensures SeparatorEnd(s[..i], j).None?
    {
      assert s[0..i] == s[..i];
      if SeparatorEnd(s[0..i], j).Some? {
        SeparatorWithin(s, 0, i, j);
      }
    }
  }

  lemma CleanIsPart(s: string)
    returns (a: nat, b: nat)
    ensures a <= b <= |s| && Clean(s) == s[a..b]
  {
    hide Strip;
    var a0, b0 := StripIsPart(s, WHITESPACE);
    var a1, b1 := StripIsPart(s[a0..b0], DANGLING);
    SliceOfSlice(s, a0, b0, a1, b1);
    var a2, b2 := StripIsPart(s[a0 + a1..a0 + b1], WHITESPACE);
    a, b := a0 + a1 + a2, a0 + a1 + b2;
    SliceOfSlice(s, a0 + a1, a0 + b1, a2, b2);
  }

  lemma StripIsPart(s: string, cs: set<char>)
    returns (a: nat, b: nat)
    ensures a <= b <= |s| && Strip(s, cs) == s[a..b]
    ensures a == 0 || s[a - 1] in cs
    ensures b == |s| || s[b] in cs
  {
    a := Leading(s, cs);
    var l := s[a..];
    b := |s| - Trailing(l, cs);
    assert l[..|l| - Trailing(l, cs)] == s[a..b];
    assert b < |s| ==> s[b] == l[b - a];
  }

  lemma CleanIsAtomic(s: string)
    requires NoGap(s) && NoSeparator(s) && Clean(s) != ""
    ensures Atomic(Clean(s))
  {
    var a, b := CleanIsPart(s);
    PartNoGap(s, a, b);
    PartNoSeparator(s, a, b);
    StripEnds(Strip(Trim(s), DANGLING), WHITESPACE);
  }

  lemma {:induction false} CleanAllAtomic(fragments: seq<string>)
    requires forall k :: 0 <= k < |fragments| ==> NoSeparator(fragments[k]) && NoGap(fragments[k])
    ensures forall c :: c in CleanAll(fragments) ==> Atomic(c)
  {
    hide Clean;
    hide Atomic;
    if fragments == [] {
    } else {
      CleanAllAtomic(fragments[1..]);
      if Clean(fragments[0]) != "" {
        CleanIsAtomic(fragments[0]);
      }
    }
  }

  lemma {:induction false} ClaimsOfAtomic(sentences: seq<string>)
    requires forall k :: 0 <= k < |sentences| ==> NoGap(sentences[k])
    ensures forall c :: c in ClaimsOf(sentences) ==> Atomic(c)
  {
    hide Atomic;
    if sentences == [] {
    } else {
      ClaimsOfAtomic(sentences[1..]);
      var t := Trim(sentences[0]);
      var a, b := StripIsPart(sentences[0], WHITESPACE);
      PartNoGap(sentences[0], a, b);
      ClausesNoSeparator(t);
      CleanAllAtomic(Clauses(t));
    }
  }

  /** Whatever the draft, every claim of the splitter is atomic: splitting is exhaustive. */
  lemma ClaimsAreAtomic(draft: string)
    ensures forall c :: c in SplitSpec(draft) ==> Atomic(c)
  {
    if !Blank(draft) {
      SentencesNoGap(Trim(draft));
      ClaimsOfAtomic(Sentences(Trim(draft)));
    }
  }
}
