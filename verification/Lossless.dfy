/**
 * Splitting loses nothing: a draft is its claims in order, with only separators, dangling commas and semicolons, and
 * whitespace between them.
 */
module Lossless {
  import opened Options
  import opened Text
  import opened Decompose

  predicate Junk(c: char)
  {
    IsSpace(c) || c in DANGLING
  }

  /** The word `w` stands at `k` with whitespace on both sides, and covers `i`. */
  predicate Within(g: string, k: nat, w: string, i: nat)
  {
    0 < k <= i < k + |w| && k <= |g| && IsSpace(g[k - 1]) && WordThenSpace(g, k, w)
  }

  /** Position `i` belongs to whitespace, to a comma or semicolon, or to a standing conjunction. */
  ghost predicate GapChar(g: string, i: nat)
    requires i < |g|
  {
    Junk(g[i]) || exists k :: Within(g, k, "and", i) || Within(g, k, "but", i) || Within(g, k, "while", i)
  }

  ghost predicate IsGap(g: string)
  {
    forall i :: 0 <= i < |g| ==> GapChar(g, i)
  }

  /**
   * `s` is the texts `cs` in order, with gaps before, between and after them; the gaps between two texts are not
   * empty, and neither is the first when `first` is false.
   */
  ghost predicate Woven(s: string, cs: seq<string>, first: bool)
    decreases |cs|
  {
    if cs == [] then IsGap(s)
    else exists a: nat, b: nat :: WovenAt(s, cs, first, a, b)
  }

  ghost predicate WovenAt(s: string, cs: seq<string>, first: bool, a: nat, b: nat)
    requires cs != []
    decreases |cs|, 0
  {
    && a <= b <= |s| && (first || a > 0) && IsGap(s[..a]) && s[a..b] == cs[0]
    && Woven(s[b..], cs[1..], false)
  }

  // ---- Gaps ----

  lemma WithinShifts(g: string, l: string, r: string, k: nat, w: string, i: nat)
    requires Within(g, k, w, i)
    ensures Within(l + g + r, |l| + k, w, |l| + i)
  {
    var s := l + g + r;
    assert s[|l| + k..|l| + k + |w|] == g[k..k + |w|];
    assert s[|l| + k - 1] == g[k - 1] && s[|l| + k + |w|] == g[k + |w|];
  }

  lemma GapCharShifts(g: string, l: string, r: string, i: nat)
    requires i < |g| && GapChar(g, i)
    ensures GapChar(l + g + r, |l| + i)
  {
    hide IsSpace;
    assert (l + g + r)[|l| + i] == g[i];
    if !Junk(g[i]) {
      var k :| Within(g, k, "and", i) || Within(g, k, "but", i) || Within(g, k, "while", i);
      var w := if Within(g, k, "and", i) then "and" else if Within(g, k, "but", i) then "but" else "while";
      WithinShifts(g, l, r, k, w, i);
      hide Within;
    }
  }

  lemma GapsJoin(a: string, b: string)
    requires IsGap(a) && IsGap(b)
    ensures IsGap(a + b)
  {
    hide GapChar;
    assert a + b == "" + a + b && a + b == a + b + "";
    forall i | 0 <= i < |a + b|
      ensures GapChar(a + b, i)
    {
      if i < |a| {
        GapCharShifts(a, "", b, i);
      } else {
        GapCharShifts(b, a, "", i - |a|);
      }
    }
  }

  lemma JunkIsGap(g: string)
    requires forall i :: 0 <= i < |g| ==> Junk(g[i])
    ensures IsGap(g)
  {
  }

  // ---- Weaving ----

  lemma WovenGapBefore(g: string, s: string, cs: seq<string>, first: bool, now: bool)
    requires IsGap(g) && Woven(s, cs, first) && (now || g != "" || !first)
    ensures Woven(g + s, cs, now)
  {
    hide IsGap;
    if cs == [] {
      GapsJoin(g, s);
    } else {
      var a: nat, b: nat :| WovenAt(s, cs, first, a, b);
      GapsJoin(g, s[..a]);
      var t := g + s;
      assert t[..|g| + a] == g + s[..a] && t[|g| + a..|g| + b] == s[a..b] && t[|g| + b..] == s[b..];
      assert WovenAt(t, cs, now, |g| + a, |g| + b);
    }
  }

  /** Two woven texts with a non-empty gap between them. */
  lemma {:induction false} WovenConcat(s: string, cs: seq<string>, first: bool, g: string, t: string, ds: seq<string>)
    requires Woven(s, cs, first) && IsGap(g) && g != "" && Woven(t, ds, true)
    ensures Woven(s + g + t, cs + ds, first)
    decreases |cs|
  {
    hide IsGap;
    if cs == [] {
      GapsJoin(s, g);
      WovenGapBefore(s + g, t, ds, true, first);
      assert cs + ds == ds;
    } else {
      var a: nat, b: nat :| WovenAt(s, cs, first, a, b);
      WovenConcat(s[b..], cs[1..], false, g, t, ds);
      var u := s + g + t;
      assert u[..a] == s[..a] && u[a..b] == s[a..b] && u[b..] == s[b..] + g + t;
      assert (cs + ds)[1..] == cs[1..] + ds && (cs + ds)[0] == cs[0];
      assert WovenAt(u, cs + ds, first, a, b);
    }
  }

  /** A gap after. */
  lemma {:induction false} WovenGapAfter(s: string, cs: seq<string>, first: bool, g: string)
    requires Woven(s, cs, first) && IsGap(g)
    ensures Woven(s + g, cs, first)
    decreases |cs|
  {
    hide IsGap;
    if cs == [] {
      GapsJoin(s, g);
    } else {
      var a: nat, b: nat :| WovenAt(s, cs, first, a, b);
      WovenGapAfter(s[b..], cs[1..], false, g);
      var u := s + g;
      assert u[..a] == s[..a] && u[a..b] == s[a..b] && u[b..] == s[b..] + g;
      assert WovenAt(u, cs, first, a, b);
    }
  }

  lemma WovenOne(s: string)
    ensures Woven(s, [s], true)
  {
    assert s[..0] == "" && s[0..|s|] == s && s[|s|..] == "";
    assert [s][1..] == [] && Woven(s[|s|..], [s][1..], false);
    assert WovenAt(s, [s], true, 0, |s|);
  }

  // ---- The parts of the splitter ----

  lemma StripLeftEdge(s: string, cs: set<char>)
    ensures var a := Leading(s, cs); s == s[..a] + StripLeft(s, cs) && AllIn(s[..a], cs)
  {
    var a := Leading(s, cs);
    forall i | 0 <= i < |s[..a]|
      ensures s[..a][i] in cs
    {
      assert s[..a][i] == s[i];
    }
  }

  lemma StripRightEdge(s: string, cs: set<char>)
    ensures var r := s[|s| - Trailing(s, cs)..];
            s == StripRight(s, cs) + r && AllIn(r, cs)
  {
    var k := |s| - Trailing(s, cs);
    forall i | 0 <= i < |s[k..]|
      ensures s[k..][i] in cs
    {
      assert s[k..][i] == s[k + i];
    }
  }

  /** Stripping takes only characters of `cs` off the ends. */
  lemma StripEdges(s: string, cs: set<char>) returns (l: string, r: string)
    ensures s == l + Strip(s, cs) + r
    ensures AllIn(l, cs) && AllIn(r, cs)
  {
    StripIs(s, cs);
    hide *;
    var t := StripLeft(s, cs);
    l, r := s[..Leading(s, cs)], t[|t| - Trailing(t, cs)..];
    StripLeftEdge(s, cs);
    StripRightEdge(t, cs);
  }

  lemma StripIs(s: string, cs: set<char>)
    ensures Strip(s, cs) == StripRight(StripLeft(s, cs), cs)
  {
    hide StripLeft;
    hide StripRight;
  }

  lemma SpacesAreGap(g: string)
    requires AllIn(g, WHITESPACE)
    ensures IsGap(g)
  {
    JunkIsGap(g);
  }

  lemma DanglingIsGap(g: string)
    requires AllIn(g, DANGLING)
    ensures IsGap(g)
  {
    JunkIsGap(g);
  }

  /** Gaps on both sides of a woven text. */
  lemma WovenBetween(l: string, s: string, r: string, cs: seq<string>)
    requires IsGap(l) && IsGap(r) && Woven(s, cs, true)
    ensures Woven(l + s + r, cs, true)
  {
    WovenGapBefore(l, s, cs, true, true);
    WovenGapAfter(l + s, cs, true, r);
  }

  lemma TrimWoven(s: string, cs: seq<string>)
    requires Woven(Trim(s), cs, true)
    ensures Woven(s, cs, true)
  {
    var l, r := StripEdges(s, WHITESPACE);
    SpacesAreGap(l);
    SpacesAreGap(r);
    hide *;
    WovenBetween(l, Trim(s), r, cs);
  }

  lemma DanglingWoven(s: string, cs: seq<string>)
    requires Woven(Strip(s, DANGLING), cs, true)
    ensures Woven(s, cs, true)
  {
    var l, r := StripEdges(s, DANGLING);
    DanglingIsGap(l);
    DanglingIsGap(r);
    hide *;
    WovenBetween(l, Strip(s, DANGLING), r, cs);
  }

  /** A fragment is its cleaned text between gaps, or only a gap. */
  lemma CleanWoven(s: string)
    ensures Woven(s, if Clean(s) != "" then [Clean(s)] else [], true)
  {
    var cs := if Clean(s) != "" then [Clean(s)] else [];
    if Clean(s) != "" {
      WovenOne(Clean(s));
    } else {
      assert Woven("", [], true);
    }
    hide Strip;
    hide Woven;
    TrimWoven(Strip(Trim(s), DANGLING), cs);
    DanglingWoven(Trim(s), cs);
    TrimWoven(s, cs);
  }

  lemma ConjunctionIsGap(l: string, w: string, r: string)
    requires w in ["and", "but", "while"] && l != "" && r != ""
    requires forall i :: 0 <= i < |l| ==> IsSpace(l[i])
    requires forall i :: 0 <= i < |r| ==> IsSpace(r[i])
    ensures IsGap(l + w + r)
  {
    var g, k := l + w + r, |l|;
    assert g[k..k + |w|] == w && g[k + |w|] == r[0] && g[k - 1] == l[k - 1];
    assert WordThenSpace(g, k, w);
    forall i | 0 <= i < |g|
      ensures GapChar(g, i)
    {
      if i < |l| {
        assert g[i] == l[i];
      } else if i < |l| + |w| {
        assert Within(g, k, w, i);
      } else {
        assert g[i] == r[i - |l| - |w|];
      }
    }
  }

  /** A match of the clause pattern is a non-empty gap. */
  lemma SeparatorIsGap(s: string, i: nat)
    requires i <= |s| && SeparatorEnd(s, i).Some?
    ensures IsGap(s[i..SeparatorEnd(s, i).value])
  {
    if SkipSpaces(s, i) < |s| && s[SkipSpaces(s, i)] == ';' {
      hide *;
      SemicolonIsGap(s, i);
    } else {
      WordIsGap(s, i);
    }
  }

  lemma SemicolonIsGap(s: string, i: nat)
    requires i <= |s| && SeparatorEnd(s, i).Some? && SkipSpaces(s, i) < |s| && s[SkipSpaces(s, i)] == ';'
    ensures IsGap(s[i..SeparatorEnd(s, i).value])
  {
    var e := SeparatorEnd(s, i).value;
    hide IsSpace;
    forall k | 0 <= k < e - i
      ensures Junk(s[i..e][k])
    {
    }
    hide *;
    JunkIsGap(s[i..e]);
  }

  lemma WordIsGap(s: string, i: nat)
    requires i <= |s| && i < SkipSpaces(s, i) < |s| && s[SkipSpaces(s, i)] != ';' && Conjunction(s, SkipSpaces(s, i))
    ensures SeparatorEnd(s, i).Some? && IsGap(s[i..SeparatorEnd(s, i).value])
  {
    hide *;
    ConjunctionParts(s, i);
    var w, e := SkipSpaces(s, i), SeparatorEnd(s, i).value;
    var n := ConjunctionLength(s, w);
    ConjunctionEnds(s, w);
    ConjunctionWord(s, w);
    SliceThree(s, i, w, w + n, e);
    ConjunctionIsGap(s[i..w], s[w..w + n], s[w + n..e]);
  }

  lemma ConjunctionParts(s: string, i: nat)
    requires i <= |s| && i < SkipSpaces(s, i) < |s| && s[SkipSpaces(s, i)] != ';' && Conjunction(s, SkipSpaces(s, i))
    ensures var w := SkipSpaces(s, i);
            SeparatorEnd(s, i) == Some(SkipSpaces(s, w + ConjunctionLength(s, w)))
  {
    hide SkipSpaces;
    hide Conjunction;
    hide ConjunctionLength;
  }

  lemma ConjunctionWord(s: string, w: nat)
    requires Conjunction(s, w)
    ensures s[w..w + ConjunctionLength(s, w)] in ["and", "but", "while"]
  {
    hide IsSpace;
  }

  lemma SliceThree(s: string, i: nat, w: nat, m: nat, e: nat)
    requires i <= w <= m <= e <= |s|
    ensures s[i..e] == s[i..w] + s[w..m] + s[m..e]
  {
  }

  /** A conjunction is followed by at least one character of whitespace. */
  lemma ConjunctionEnds(s: string, w: nat)
    requires Conjunction(s, w)
    ensures var n := ConjunctionLength(s, w); SkipSpaces(s, w + n) > w + n
  {
    hide IsSpace;
  }

  lemma CleanAllCons(x: string, rest: seq<string>)
    ensures CleanAll([x] + rest) == (if Clean(x) != "" then [Clean(x)] else []) + CleanAll(rest)
  {
    hide Clean;
    assert ([x] + rest)[1..] == rest;
  }

  lemma ThreeParts(s: string, i: nat, e: nat)
    requires i <= e <= |s|
    ensures s == s[..i] + s[i..e] + s[e..]
  {
  }

  lemma ClausesUnfold(s: string)
    ensures var i := FirstSeparator(s, 0);
            Clauses(s) == if i == |s| then [s] else [s[..i]] + Clauses(s[SeparatorEnd(s, i).value..])
  {
    hide FirstSeparator;
    hide SeparatorEnd;
  }

  lemma ClausesStep(s: string)
    ensures var i := FirstSeparator(s, 0);
            if i == |s| then Clauses(s) == [s] + []
            else
              var e := SeparatorEnd(s, i).value;
              i < e <= |s| && Clauses(s) == [s[..i]] + Clauses(s[e..]) && IsGap(s[i..e])
              && s == s[..i] + s[i..e] + s[e..]
  {
    hide *;
    ClausesUnfold(s);
    var i := FirstSeparator(s, 0);
    if i < |s| {
      SeparatorIsGap(s, i);
      ThreeParts(s, i, SeparatorEnd(s, i).value);
    }
  }

  lemma NoClaims()
    ensures CleanAll([]) == [] && ClaimsOf([]) == []
  {
  }

  lemma {:induction false} ClausesWoven(s: string)
    ensures Woven(s, CleanAll(Clauses(s)), true)
    decreases |s|
  {
    hide *;
    var i := FirstSeparator(s, 0);
    ClausesStep(s);
    CleanWoven(s[..i]);
    if i == |s| {
      assert s[..i] == s;
      CleanAllCons(s, []);
      NoClaims();
      var cs := if Clean(s) != "" then [Clean(s)] else [];
      assert cs + [] == cs;
    } else {
      var e := SeparatorEnd(s, i).value;
      ClausesWoven(s[e..]);
      CleanAllCons(s[..i], Clauses(s[e..]));
      WovenConcat(s[..i], if Clean(s[..i]) != "" then [Clean(s[..i])] else [], true, s[i..e],
                  s[e..], CleanAll(Clauses(s[e..])));
    }
  }

  lemma SentenceWoven(s: string)
    ensures Woven(s, if Trim(s) != "" then CleanAll(Clauses(Trim(s))) else [], true)
  {
    if Trim(s) != "" {
      ClausesWoven(Trim(s));
    } else {
      assert Woven("", [], true);
    }
    hide *;
    TrimWoven(s, if Trim(s) != "" then CleanAll(Clauses(Trim(s))) else []);
  }

  lemma ClaimsOfCons(x: string, rest: seq<string>)
    ensures ClaimsOf([x] + rest) == (if Trim(x) != "" then CleanAll(Clauses(Trim(x))) else []) + ClaimsOf(rest)
  {
    hide Trim;
    hide Clauses;
    hide CleanAll;
    assert ([x] + rest)[1..] == rest;
  }

  lemma SentencesUnfold(s: string)
    ensures var i := FirstGap(s, 0);
            Sentences(s) == if i == |s| then [s] else [s[..i]] + Sentences(s[SkipSpaces(s, i)..])
  {
    hide FirstGap;
    hide SkipSpaces;
    hide GapAt;
  }

  lemma SentencesStep(s: string)
    ensures var i := FirstGap(s, 0);
            if i == |s| then Sentences(s) == [s] + []
            else
              var e := SkipSpaces(s, i);
              i < e <= |s| && Sentences(s) == [s[..i]] + Sentences(s[e..]) && IsGap(s[i..e])
              && s == s[..i] + s[i..e] + s[e..]
  {
    hide *;
    SentencesUnfold(s);
    var i := FirstGap(s, 0);
    if i < |s| {
      GapIsSpaces(s, i);
      ThreeParts(s, i, SkipSpaces(s, i));
    }
  }

  lemma {:induction false} SentencesWoven(s: string)
    ensures Woven(s, ClaimsOf(Sentences(s)), true)
    decreases |s|
  {
    hide *;
    var i := FirstGap(s, 0);
    SentencesStep(s);
    SentenceWoven(s[..i]);
    if i == |s| {
      assert s[..i] == s;
      ClaimsOfCons(s, []);
      NoClaims();
      var cs := if Trim(s) != "" then CleanAll(Clauses(Trim(s))) else [];
      assert cs + [] == cs;
    } else {
      var e := SkipSpaces(s, i);
      SentencesWoven(s[e..]);
      ClaimsOfCons(s[..i], Sentences(s[e..]));
      WovenConcat(s[..i], if Trim(s[..i]) != "" then CleanAll(Clauses(Trim(s[..i]))) else [], true, s[i..e],
                  s[e..], ClaimsOf(Sentences(s[e..])));
    }
  }

  lemma GapIsSpaces(s: string, i: nat)
    requires i < |s| && GapAt(s, i)
    ensures i < SkipSpaces(s, i) && IsGap(s[i..SkipSpaces(s, i)])
  {
    hide IsSpace;
    var e := SkipSpaces(s, i);
    forall k | 0 <= k < e - i
      ensures Junk(s[i..e][k])
    {
    }
    JunkIsGap(s[i..e]);
  }

  /**
   * Splitting loses nothing and reorders nothing: whatever the draft, it is its claims in order, and every character
   * outside them is whitespace, a comma or semicolon, or of a conjunction standing between whitespace. Between two
   * claims there is at least one such character.
   */
  lemma SplitLosesNothing(draft: string)
    ensures Woven(draft, SplitSpec(draft), true)
  {
    if Blank(draft) {
      assert Woven("", [], true);
    } else {
      SentencesWoven(Trim(draft));
    }
    hide Woven;
    TrimWoven(draft, SplitSpec(draft));
  }
}
