/** Decomposing a rebuilt message: rebuild and split undo each other exactly on comma-free claims. */
module RoundTrip {
  import opened Text
  import opened Decompose
  import opened Rebuild

  /** An atomic string that ends a sentence. */
  ghost predicate SentenceLike(s: string)
  {
    Atomic(s) && s[|s| - 1] == '.'
  }

  ghost predicate AllSentenceLike(xs: seq<string>)
  {
    forall i :: 0 <= i < |xs| ==> SentenceLike(xs[i])
  }

  function MapClean(xs: seq<string>): (r: seq<string>)
    ensures |r| == |xs| && forall i :: 0 <= i < |r| ==> r[i] == Clean(xs[i])
  {
    hide Clean;
    if xs == [] then [] else [Clean(xs[0])] + MapClean(xs[1..])
  }

  lemma {:induction false} JoinEnds(xs: seq<string>)
    requires xs != [] && AllSentenceLike(xs)
    ensures var s := Join(" ", xs); s != "" && s[0] == xs[0][0] && s[|s| - 1] == '.'
  {
    assert SentenceLike(xs[0]);
    if |xs| == 1 {
    } else {
      JoinEnds(xs[1..]);
    }
  }

  lemma FirstGapOfJoin(x: string, rest: string)
    requires SentenceLike(x) && rest != "" && !IsSpace(rest[0])
    ensures var s := x + " " + rest;
            FirstGap(s, 0) == |x| && s[..|x|] == x && s[SkipSpaces(s, |x|)..] == rest
  {
    var s := x + " " + rest;
    forall j | 0 <= j < |x|
      ensures !GapAt(s, j)
    {
      assert !GapAt(x, j);
    }
    assert GapAt(s, |x|);
    assert SkipSpaces(s, |x| + 1) == |x| + 1;
  }

  /** Sentences joined by blanks are found again. */
  lemma {:induction false} SentencesOfJoin(xs: seq<string>)
    requires xs != [] && AllSentenceLike(xs)
    ensures Sentences(Join(" ", xs)) == xs
  {
    var s := Join(" ", xs);
    assert SentenceLike(xs[0]);
    if |xs| == 1 {
      assert FirstGap(s, 0) == |s|;
    } else {
      var rest := Join(" ", xs[1..]);
      assert AllSentenceLike(xs[1..]);
      assert SentenceLike(xs[1..][0]);
      JoinEnds(xs[1..]);
      FirstGapOfJoin(xs[0], rest);
      SentencesOfJoin(xs[1..]);
      assert s == xs[0] + " " + rest;
    }
  }

  lemma SentenceLikeClauses(x: string)
    requires SentenceLike(x)
    ensures Trim(x) == x && Clauses(x) == [x]
  {
    StripIdentity(x, WHITESPACE);
    assert FirstSeparator(x, 0) == |x|;
  }

  lemma StripKeepsEnd(x: string, cs: set<char>)
    requires x != "" && x[|x| - 1] !in cs
    ensures Leading(x, cs) < |x| && Strip(x, cs) == x[Leading(x, cs)..]
  {
    var l := x[Leading(x, cs)..];
    assert l[|l| - 1] == x[|x| - 1];
    assert Trailing(l, cs) == 0;
  }

  /** `_clean` keeps a final full stop, and changes a sentence exactly when it begins with a comma. */
  lemma CleanSentence(x: string)
    requires SentenceLike(x)
    ensures Clean(x) != ""
    ensures Clean(x) == x <==> x[0] != ','
  {
    hide Strip;
    assert x[0] != ';' by {
      assert SeparatorEnd(x, 0).None?;
    }
    SentenceLikeClauses(x);
    StripKeepsEnd(x, DANGLING);
    var a := Leading(x, DANGLING);
    StripKeepsEnd(x[a..], WHITESPACE);
  }

  lemma ClaimsOfStep(x: string, rest: seq<string>)
    ensures ClaimsOf([x] + rest) == (if Trim(x) != "" then CleanAll(Clauses(Trim(x))) else []) + ClaimsOf(rest)
  {
    hide Trim;
    hide Clauses;
    hide CleanAll;
    assert ([x] + rest)[1..] == rest;
  }

  lemma CleanAllOne(x: string)
    requires Clean(x) != ""
    ensures CleanAll([x]) == [Clean(x)]
  {
    hide Clean;
    assert CleanAll([x]) == [Clean(x)] + CleanAll([x][1..]);
  }

  lemma NotEmpty(x: string)
    requires SentenceLike(x)
    ensures x != ""
  {
  }

  lemma ClaimsOfFirst(x: string, rest: seq<string>)
    requires SentenceLike(x)
    ensures ClaimsOf([x] + rest) == [Clean(x)] + ClaimsOf(rest)
  {
    hide *;
    NotEmpty(x);
    SentenceLikeClauses(x);
    CleanSentence(x);
    CleanAllOne(x);
    ClaimsOfStep(x, rest);
  }

  lemma {:induction false} ClaimsOfSentenceLike(xs: seq<string>)
    requires AllSentenceLike(xs)
    ensures ClaimsOf(xs) == MapClean(xs)
  {
    hide Clean;
    hide SentenceLike;
    if xs == [] {
    } else {
      assert AllSentenceLike(xs[1..]);
      ClaimsOfSentenceLike(xs[1..]);
      ClaimsOfFirst(xs[0], xs[1..]);
      assert xs == [xs[0]] + xs[1..];
      hide ClaimsOf;
    }
  }

  /** What the splitter makes of sentences joined by single blanks. */
  lemma SplitOfJoin(xs: seq<string>)
    requires xs != [] && AllSentenceLike(xs)
    ensures SplitSpec(Join(" ", xs)) == MapClean(xs)
  {
    var s := Join(" ", xs);
    assert SentenceLike(xs[0]);
    JoinEnds(xs);
    StripIdentity(s, WHITESPACE);
    SentencesOfJoin(xs);
    ClaimsOfSentenceLike(xs);
  }

  lemma ConjunctionBeforeStop(r: string, w: nat)
    requires Conjunction(r + ".", w)
    ensures Conjunction(r, w)
  {
    var s := r + ".";
    var n := ConjunctionLength(s, w);
    assert w + n < |r|;
    assert s[w..w + n] == r[w..w + n];
    assert s[w..w + 3] == r[w..w + 3];
  }

  lemma SeparatorBeforeStop(r: string, i: nat)
    requires i <= |r| && SeparatorEnd(r + ".", i).Some?
    ensures SeparatorEnd(r, i).Some?
  {
    hide Conjunction;
    var s := r + ".";
    assert s[0..|r|] == r;
    SkipSpacesWithin(s, 0, |r|, i);
    var w := SkipSpaces(s, i);
    assert s[|r|] == '.';
    if s[w] != ';' {
      ConjunctionBeforeStop(r, w);
    }
  }

  lemma NormalisedNoSeparator(r: string)
    requires NoSeparator(r)
    ensures NoSeparator(r + ".")
  {
    var s := r + ".";
    forall i | 0 <= i <= |s|
      ensures SeparatorEnd(s, i).None?
    {
      if i <= |r| && SeparatorEnd(s, i).Some? {
        SeparatorBeforeStop(r, i);
      }
    }
  }

  lemma NormalisedSentenceLike(c: string)
    requires Atomic(c)
    ensures SentenceLike(Normalised(c))
    ensures Normalised(c)[0] == ',' <==> c[0] == ','
  {
    var n := |c| - Trailing(c, {'.'});
    var r := c[0..n];
    assert DropStops(c) == r;
    PartNoSeparator(c, 0, n);
    PartNoGap(c, 0, n);
    NormalisedNoSeparator(r);
    forall i | 0 <= i < |r + "."|
      ensures !GapAt(r + ".", i)
    {
      assert i < |r| ==> !GapAt(r, i);
    }
  }

  lemma {:induction false} MapNormalisedSentenceLike(claims: seq<string>)
    requires forall c :: c in claims ==> Atomic(c)
    ensures AllSentenceLike(MapNormalised(claims))
  {
    forall i | 0 <= i < |claims|
      ensures SentenceLike(MapNormalised(claims)[i])
    {
      NormalisedSentenceLike(claims[i]);
    }
  }

  /**
   * For any selection of the claims of any draft, decomposing the rebuilt message returns the selected
   * claims in order, each with one final full stop, exactly when none of them begins with a comma.
   */
  lemma RebuildThenSplit(draft: string, claims: seq<string>)
    requires claims != [] && forall c :: c in claims ==> c in SplitSpec(draft)
    ensures |SplitSpec(RebuildMessage(claims))| == |claims|
    ensures SplitSpec(RebuildMessage(claims)) == MapNormalised(claims)
            <==> forall c :: c in claims ==> c != "" && c[0] != ','
  {
    hide SplitSpec;
    hide Clean;
    hide Normalised;
    ClaimsAreAtomic(draft);
    assert forall c :: c in claims ==> Atomic(c);
    RebuildIsJoin(claims);
    MapNormalisedSentenceLike(claims);
    var xs := MapNormalised(claims);
    SplitOfJoin(xs);
    forall i | 0 <= i < |claims|
      ensures claims[i] != "" && (MapClean(xs)[i] == xs[i] <==> claims[i][0] != ',')
    {
      assert claims[i] in claims;
      NormalisedSentenceLike(claims[i]);
      CleanSentence(xs[i]);
    }
    if exists c :: c in claims && c != "" && c[0] == ',' {
      var c :| c in claims && c != "" && c[0] == ',';
      var i :| 0 <= i < |claims| && claims[i] == c;
      assert MapClean(xs)[i] != xs[i];
    } else {
      assert forall i :: 0 <= i < |claims| ==> claims[i] in claims;
      assert forall i :: 0 <= i < |claims| ==> MapClean(xs)[i] == xs[i];
      assert MapClean(xs) == xs;
    }
  }

  lemma OneSentenceOneClause(draft: string)
    requires Atomic(draft) && Clean(draft) != ""
    ensures SplitSpec(draft) == [Clean(draft)]
  {
    hide Clean;
    StripIdentity(draft, WHITESPACE);
    assert FirstGap(draft, 0) == |draft|;
    assert FirstSeparator(draft, 0) == |draft|;
    assert CleanAll([draft]) == [Clean(draft)] + CleanAll([draft][1..]);
    assert ClaimsOf([draft]) == CleanAll([draft]) + ClaimsOf([draft][1..]);
  }

  lemma ConjunctionLetter(s: string, w: nat)
    requires Conjunction(s, w)
    ensures s[w] in {'a', 'b', 'w'}
  {
    assert s[w] == s[w..w + 3][0];
    assert WordThenSpace(s, w, "while") ==> s[w] == s[w..w + 5][0];
  }

  lemma NoSeparatorWithoutLetters(s: string)
    requires ';' !in s && forall i :: 0 <= i < |s| ==> s[i] !in {'a', 'b', 'w'}
    ensures NoSeparator(s)
  {
    hide Conjunction;
    forall i | 0 <= i <= |s|
      ensures SeparatorEnd(s, i).None?
    {
      if Conjunction(s, SkipSpaces(s, i)) {
        ConjunctionLetter(s, SkipSpaces(s, i));
      }
    }
  }

  lemma CleanOnce(s: string, t: string)
    requires s != "" && t != "" && s[|s| - 1] == t[|t| - 1] && !IsSpace(t[|t| - 1]) && t[|t| - 1] !in DANGLING
    requires !IsSpace(s[0]) && s[0] in DANGLING && !IsSpace(t[0]) && s == [s[0]] + " " + t
    ensures Clean(s) == t
  {
    hide Strip;
    StripIdentity(s, WHITESPACE);
    StripKeepsEnd(s, DANGLING);
    assert s[1..] == " " + t;
    assert Leading(" " + t, DANGLING) == 0;
    assert Leading(s, DANGLING) == 1;
    StripKeepsEnd(" " + t, WHITESPACE);
    assert (" " + t)[1..] == t;
    assert Leading(t, WHITESPACE) == 0;
    assert Leading(" " + t, WHITESPACE) == 1;
  }

  /** Claims that begin with a comma do arise: `_clean` strips dangling separators only once. */
  lemma CommaClaimExample()
    ensures SplitSpec(", ,x") == [",x"]
  {
    hide SplitSpec;
    hide Clean;
    CleanOnce(", ,x", ",x");
    NoSeparatorWithoutLetters(", ,x");
    OneSentenceOneClause(", ,x");
  }
}
