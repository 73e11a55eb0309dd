/** Clauses joined by separators come back one claim each: the splitter cuts at every separator and nowhere else. */
module ClauseTrip {
  import opened Options
  import opened Text
  import opened Decompose
  import opened Rebuild

  const SEPARATORS: seq<string> := ["; ", " and ", " but ", " while "]

  /** A text with no whitespace at its ends that holds no separator, not even with a blank after it. */
  ghost predicate ClauseLike(c: string)
  {
    c != "" && !IsSpace(c[0]) && !IsSpace(c[|c| - 1]) && NoGap(c) && NoSeparator(c + " ")
  }

  ghost predicate AllClauseLike(cs: seq<string>)
  {
    forall i :: 0 <= i < |cs| ==> ClauseLike(cs[i])
  }

  function JoinWith(cs: seq<string>, seps: seq<string>): string
    requires |cs| == |seps| + 1
  {
    if seps == [] then cs[0] else cs[0] + seps[0] + JoinWith(cs[1..], seps[1..])
  }

  ghost predicate AreSeparators(seps: seq<string>)
  {
    forall i :: 0 <= i < |seps| ==> seps[i] in SEPARATORS
  }

  /** The blanks of `s` that start inside `c` end inside it. */
  lemma SkipsAgree(c: string, t: string, j: nat)
    requires c != "" && !IsSpace(c[|c| - 1]) && j < |c|
    ensures SkipSpaces(c + t, j) == SkipSpaces(c, j) < |c|
    decreases |c| - j
  {
    if IsSpace(c[j]) {
      SkipsAgree(c, t, j + 1);
    }
  }

  /** A conjunction that begins in `c` is one of `c` with a blank after it. */
  lemma WordCarries(c: string, t: string, w: nat, word: string)
    requires t != "" && (IsSpace(t[0]) || t[0] == ';') && w < |c| && word in ["and", "but", "while"]
    requires WordThenSpace(c + t, w, word)
    ensures WordThenSpace(c + " ", w, word)
  {
    var s, u, n := c + t, c + " ", |word|;
    forall m | w <= m < w + n
      ensures !IsSpace(s[m]) && s[m] != ';'
    {
      assert s[w..w + n][m - w] == s[m] == word[m - w];
    }
    assert s[|c|] == t[0];
    assert w + n <= |c|;
    assert u[w..w + n] == s[w..w + n];
    assert w + n < |c| ==> u[w + n] == s[w + n];
    assert IsSpace(u[|c|]);
  }

  lemma NoEarlierSeparator(c: string, t: string, j: nat)
    requires ClauseLike(c) && t != "" && (IsSpace(t[0]) || t[0] == ';') && j < |c|
    ensures SeparatorEnd(c + t, j).None?
  {
    var s, u := c + t, c + " ";
    SkipsAgree(c, t, j);
    SkipsAgree(c, " ", j);
    var w := SkipSpaces(c, j);
    SeparatorIff(s, j);
    SeparatorIff(u, j);
    assert SeparatorEnd(u, j).None?;
    assert s[w] == c[w] == u[w];
    hide SeparatorEnd;
    if Conjunction(s, w) {
      var word := if WordThenSpace(s, w, "and") then "and" else if WordThenSpace(s, w, "but") then "but" else "while";
      WordCarries(c, t, w, word);
    }
  }

  lemma SemicolonIs(c: string, rest: string)
    requires rest != "" && !IsSpace(rest[0])
    ensures SeparatorEnd(c + "; " + rest, |c|) == Some(|c| + 2)
  {
    var s, n := c + "; " + rest, |c|;
    assert s[n] == ';' && s[n + 1] == ' ' && s[n + 2] == rest[0];
    assert SkipSpaces(s, n) == n && SkipSpaces(s, n + 1) == SkipSpaces(s, n + 2) == n + 2;
  }

  lemma WordStandsAt(c: string, word: string, rest: string)
    requires word in ["and", "but", "while"]
    ensures var s := c + (" " + word + " ") + rest; WordThenSpace(s, |c| + 1, word)
  {
    var s, n := c + (" " + word + " ") + rest, |c|;
    assert s[n + 1..n + 1 + |word|] == word && s[n + 1 + |word|] == ' ';
  }

  lemma ConjunctionIsSeparator(s: string, n: nat, word: string)
    requires word in ["and", "but", "while"] && WordThenSpace(s, n + 1, word) && IsSpace(s[n])
    requires n + |word| + 2 < |s| && !IsSpace(s[n + |word| + 2])
    ensures SeparatorEnd(s, n) == Some(n + |word| + 2)
  {
    ConjunctionIs(s, n + 1, word);
    FirstLetter(s, n + 1, word);
    assert !IsSpace(word[0]) && word[0] != ';';
    assert SkipSpaces(s, n) == SkipSpaces(s, n + 1) == n + 1;
    var m := n + 1 + |word|;
    assert SkipSpaces(s, m) == SkipSpaces(s, m + 1) == m + 1;
    hide IsSpace;
    hide SkipSpaces;
    hide WordThenSpace;
  }

  lemma SeparatorIs(c: string, sep: string, rest: string)
    requires sep in SEPARATORS && rest != "" && !IsSpace(rest[0])
    ensures SeparatorEnd(c + sep + rest, |c|) == Some(|c| + |sep|)
  {
    hide SeparatorEnd;
    hide WordThenSpace;
    if sep == "; " {
      SemicolonIs(c, rest);
    } else {
      var word := sep[1..|sep| - 1];
      SeparatorWord(sep);
      assert sep == " " + word + " ";
      WordStandsAt(c, word, rest);
      assert (c + sep + rest)[|c|] == ' ' && (c + sep + rest)[|c| + |sep|] == rest[0];
      ConjunctionIsSeparator(c + sep + rest, |c|, word);
    }
  }

  lemma SeparatorWord(sep: string)
    requires sep in SEPARATORS && sep != "; "
    ensures sep[1..|sep| - 1] in ["and", "but", "while"] && !IsSpace(sep[1]) && sep[1] != ';'
  {
    assert " and "[1..4] == "and" && " but "[1..4] == "but" && " while "[1..6] == "while";
  }

  lemma ConjunctionIs(s: string, w: nat, word: string)
    requires word in ["and", "but", "while"] && WordThenSpace(s, w, word)
    ensures Conjunction(s, w) && ConjunctionLength(s, w) == |word|
  {
    FirstLetter(s, w, word);
    FirstLetter(s, w, "while");
  }

  lemma FirstLetter(s: string, w: nat, word: string)
    requires word != ""
    ensures WordThenSpace(s, w, word) ==> w < |s| && s[w] == word[0]
  {
    assert WordThenSpace(s, w, word) ==> s[w..w + |word|][0] == s[w];
  }

  lemma FirstIsHere(c: string, sep: string, rest: string)
    requires ClauseLike(c) && sep in SEPARATORS && rest != "" && !IsSpace(rest[0])
    ensures var s := c + sep + rest; FirstSeparator(s, 0) == |c|
  {
    var s, t := c + sep + rest, sep + rest;
    assert s == c + t && t[0] == sep[0];
    SeparatorIs(c, sep, rest);
    hide SeparatorEnd;
    forall j | 0 <= j < |c|
      ensures SeparatorEnd(s, j).None?
    {
      NoEarlierSeparator(c, t, j);
    }
  }

  lemma ClauseAlone(c: string)
    requires ClauseLike(c)
    ensures Clauses(c) == [c]
  {
    assert (c + " ")[0..|c|] == c;
    PartNoSeparator(c + " ", 0, |c|);
    OneClause(c);
  }

  lemma BothEnds(c: string)
    requires ClauseLike(c)
    ensures c[0] !in WHITESPACE && c[|c| - 1] !in WHITESPACE
  {
  }

  lemma OneClause(c: string)
    requires NoSeparator(c)
    ensures Clauses(c) == [c]
  {
    hide SeparatorEnd;
    assert FirstSeparator(c, 0) == |c|;
  }

  lemma ClauseHasNoSemicolon(c: string, i: nat)
    requires ClauseLike(c) && i < |c|
    ensures c[i] != ';'
  {
    var u := c + " ";
    SeparatorIff(u, i);
    assert SeparatorEnd(u, i).None?;
    assert u[i] == c[i];
  }

  lemma JoinStarts(cs: seq<string>, seps: seq<string>)
    requires |cs| == |seps| + 1 && AllClauseLike(cs)
    ensures var s := JoinWith(cs, seps); s != "" && s[0] == cs[0][0] && !IsSpace(s[0])
  {
    assert ClauseLike(cs[0]);
  }

  lemma {:induction false} JoinEnds(cs: seq<string>, seps: seq<string>)
    requires |cs| == |seps| + 1 && AllClauseLike(cs)
    ensures var s, c := JoinWith(cs, seps), cs[|cs| - 1]; s != "" && c != "" && s[|s| - 1] == c[|c| - 1]
  {
    assert ClauseLike(cs[|cs| - 1]);
    hide ClauseLike;
    if seps == [] {
    } else {
      var rest := JoinWith(cs[1..], seps[1..]);
      JoinEnds(cs[1..], seps[1..]);
      assert JoinWith(cs, seps) == cs[0] + seps[0] + rest;
      assert cs[1..][|cs| - 2] == cs[|cs| - 1];
    }
  }

  /** Clauses joined by separators are found again. */
  lemma {:induction false} ClausesOfJoin(cs: seq<string>, seps: seq<string>)
    requires |cs| == |seps| + 1 && AllClauseLike(cs) && AreSeparators(seps)
    ensures Clauses(JoinWith(cs, seps)) == cs
  {
    assert ClauseLike(cs[0]);
    if seps == [] {
      ClauseAlone(cs[0]);
    } else {
      var c, sep, rest := cs[0], seps[0], JoinWith(cs[1..], seps[1..]);
      JoinStarts(cs[1..], seps[1..]);
      ClausesOfJoin(cs[1..], seps[1..]);
      FirstIsHere(c, sep, rest);
      SeparatorIs(c, sep, rest);
      CutAtSeparator(c, sep, rest);
      hide *;
      assert cs == [c] + cs[1..];
      JoinIs(cs, seps);
    }
  }

  lemma JoinIs(cs: seq<string>, seps: seq<string>)
    requires |cs| == |seps| + 1 && seps != []
    ensures JoinWith(cs, seps) == cs[0] + seps[0] + JoinWith(cs[1..], seps[1..])
  {
  }

  lemma CutAtSeparator(c: string, sep: string, rest: string)
    requires var s := c + sep + rest;
             FirstSeparator(s, 0) == |c| && SeparatorEnd(s, |c|) == Some(|c| + |sep|) && sep != ""
    ensures Clauses(c + sep + rest) == [c] + Clauses(rest)
  {
    hide FirstSeparator;
    hide SeparatorEnd;
    var s := c + sep + rest;
    assert s[..|c|] == c && s[|c| + |sep|..] == rest;
  }

  // ---- Cleaning ----

  lemma EdgesOf(d: string, b: string, c: string, e: string, f: string)
    requires AllIn(d, DANGLING) && AllIn(f, DANGLING) && (d == "" ==> b == "") && (f == "" ==> e == "")
    requires c != "" && c[0] !in WHITESPACE && c[|c| - 1] !in WHITESPACE
    ensures var t := d + b + c + e + f; t != "" && t[0] !in WHITESPACE && t[|t| - 1] !in WHITESPACE
  {
    var t := d + b + c + e + f;
    assert forall x :: x in DANGLING ==> x !in WHITESPACE;
    assert d != "" ==> t[0] == d[0];
    assert d == "" ==> t[0] == c[0];
    assert f != "" ==> t[|t| - 1] == f[|f| - 1];
    assert f == "" ==> t[|t| - 1] == c[|c| - 1];
    hide *;
  }

  lemma DanglingCore(b: string, c: string, e: string)
    requires AllIn(b, WHITESPACE) && AllIn(e, WHITESPACE)
    requires c != "" && c[0] !in DANGLING && c[|c| - 1] !in DANGLING
    ensures var t := b + c + e; t != "" && t[0] !in DANGLING && t[|t| - 1] !in DANGLING
  {
    var t := b + c + e;
    assert forall x :: x in DANGLING ==> x !in WHITESPACE;
    assert b != "" ==> t[0] == b[0];
    assert b == "" ==> t[0] == c[0];
    assert e != "" ==> t[|t| - 1] == e[|e| - 1];
    assert e == "" ==> t[|t| - 1] == c[|c| - 1];
    hide *;
  }

  lemma CleanIs(x: string)
    ensures Clean(x) == Strip(Strip(Strip(x, WHITESPACE), DANGLING), WHITESPACE)
  {
  }

  /**
   * Cleaning takes whitespace off both ends, then commas and semicolons, then whitespace, once each and nothing else:
   * a text that neither starts nor ends with any of these comes back from between them unchanged.
   */
  lemma CleanCutsEdges(a: string, d: string, b: string, c: string, e: string, f: string, g: string)
    requires AllIn(a, WHITESPACE) && AllIn(b, WHITESPACE) && AllIn(e, WHITESPACE) && AllIn(g, WHITESPACE)
    requires AllIn(d, DANGLING) && AllIn(f, DANGLING) && (d == "" ==> b == "") && (f == "" ==> e == "")
    requires c != "" && c[0] !in WHITESPACE + DANGLING && c[|c| - 1] !in WHITESPACE + DANGLING
    ensures Clean(a + (d + b + c + e + f) + g) == c
  {
    hide *;
    var outer, inner := d + b + c + e + f, b + c + e;
    EdgesOf(d, b, c, e, f);
    DanglingCore(b, c, e);
    StripOver(a, outer, g, WHITESPACE);
    assert outer == d + inner + f;
    StripOver(d, inner, f, DANGLING);
    StripOver(b, c, e, WHITESPACE);
    CleanIs(a + outer + g);
  }

  /** `d` is the clause `c` as written: with or without a comma behind it. */
  ghost predicate Written(c: string, d: string)
  {
    c != "" && c[0] != ',' && c[|c| - 1] != ',' && !IsSpace(c[|c| - 1]) && (d == c || d == c + ",")
  }

  ghost predicate AllWritten(cs: seq<string>, ds: seq<string>)
    requires |cs| == |ds|
  {
    forall i :: 0 <= i < |cs| ==> Written(cs[i], ds[i])
  }

  lemma ClauseEnds(c: string, d: string)
    requires ClauseLike(d) && Written(c, d)
    ensures c != "" && c[0] !in WHITESPACE + DANGLING && c[|c| - 1] !in WHITESPACE + DANGLING
  {
    assert d[0] == c[0] && d[|c| - 1] == c[|c| - 1];
    ClauseHasNoSemicolon(d, 0);
    ClauseHasNoSemicolon(d, |c| - 1);
  }

  lemma NoneOrComma()
    ensures AllIn("", WHITESPACE) && AllIn("", DANGLING) && AllIn(",", DANGLING)
  {
  }

  /** A comma behind a clause is cut off. */
  lemma CleanWritten(c: string, d: string)
    requires ClauseLike(d) && Written(c, d)
    ensures Clean(d) == c
  {
    ClauseEnds(c, d);
    NoneOrComma();
    var comma := if d == c then "" else ",";
    assert "" + ("" + "" + c + "" + comma) + "" == d;
    hide *;
    CleanCutsEdges("", "", "", c, "", comma, "");
  }

  lemma {:induction false} CleanAllOf(cs: seq<string>, ds: seq<string>)
    requires |cs| == |ds| && AllClauseLike(ds) && AllWritten(cs, ds)
    ensures CleanAll(ds) == cs
  {
    hide Clean;
    hide ClauseLike;
    if cs == [] {
    } else {
      assert Written(cs[0], ds[0]) && ClauseLike(ds[0]);
      CleanWritten(cs[0], ds[0]);
      CleanAllOf(cs[1..], ds[1..]);
    }
  }

  /** No clause but the last ends a sentence. */
  ghost predicate OneSentence(cs: seq<string>)
  {
    forall i :: 0 <= i < |cs| - 1 ==> cs[i] != "" && cs[i][|cs[i]| - 1] !in TERMINATORS
  }

  lemma GapsOfJoin(c: string, sep: string, rest: string)
    requires NoGap(c) && NoGap(rest) && sep in SEPARATORS && c != "" && c[|c| - 1] !in TERMINATORS
    requires rest != "" && !IsSpace(rest[0])
    ensures NoGap(c + sep + rest)
  {
    hide IsSpace;
    var s := c + sep + rest;
    assert forall k :: 0 <= k < |sep| ==> sep[k] !in TERMINATORS by {
      SeparatorLetters(sep);
    }
    forall i | 0 <= i < |s|
      ensures !GapAt(s, i)
    {
      assert i < |c| ==> !GapAt(c, i);
      if i > |c| + |sep| {
        assert !GapAt(rest, i - |c| - |sep|);
        assert s[i] == rest[i - |c| - |sep|] && s[i - 1] == rest[i - |c| - |sep| - 1];
      } else if i > |c| {
        assert s[i - 1] == sep[i - 1 - |c|];
      }
    }
  }

  lemma SeparatorLetters(sep: string)
    requires sep in SEPARATORS
    ensures forall k :: 0 <= k < |sep| ==> sep[k] !in TERMINATORS
  {
  }

  lemma {:induction false} JoinHasNoGap(cs: seq<string>, seps: seq<string>)
    requires |cs| == |seps| + 1 && AllClauseLike(cs) && AreSeparators(seps) && OneSentence(cs)
    ensures NoGap(JoinWith(cs, seps))
  {
    assert ClauseLike(cs[0]);
    if seps == [] {
    } else {
      hide NoGap;
      JoinStarts(cs[1..], seps[1..]);
      JoinHasNoGap(cs[1..], seps[1..]);
      GapsOfJoin(cs[0], seps[0], JoinWith(cs[1..], seps[1..]));
    }
  }

  lemma OneSentenceClaims(s: string)
    requires s != "" && !IsSpace(s[0]) && !IsSpace(s[|s| - 1]) && NoGap(s)
    ensures SplitSpec(s) == CleanAll(Clauses(s))
  {
    hide CleanAll;
    hide Clauses;
    StripIdentity(s, WHITESPACE);
    hide Strip;
    assert FirstGap(s, 0) == |s|;
    assert Sentences(s) == [s];
    assert ClaimsOf([s]) == CleanAll(Clauses(s)) + ClaimsOf([s][1..]);
  }

  lemma JoinIsSolid(cs: seq<string>, seps: seq<string>)
    requires |cs| == |seps| + 1 && AllClauseLike(cs)
    ensures var s := JoinWith(cs, seps); s != "" && !IsSpace(s[0]) && !IsSpace(s[|s| - 1])
  {
    assert ClauseLike(cs[|cs| - 1]);
    JoinStarts(cs, seps);
    JoinEnds(cs, seps);
    hide JoinWith;
    hide IsSpace;
    hide NoGap;
    hide NoSeparator;
  }

  /**
   * Clauses joined by semicolons and conjunctions, with or without a comma before them, come back one claim each, in
   * order and unchanged: a sentence of several assertions is judged assertion by assertion.
   */
  lemma SplitOfClauses(cs: seq<string>, written: seq<string>, seps: seq<string>)
    requires |cs| == |written| == |seps| + 1 && AreSeparators(seps) && AllWritten(cs, written)
    requires AllClauseLike(written) && OneSentence(written)
    ensures SplitSpec(JoinWith(written, seps)) == cs
  {
    hide *;
    JoinIsSolid(written, seps);
    JoinHasNoGap(written, seps);
    OneSentenceClaims(JoinWith(written, seps));
    ClausesOfJoin(written, seps);
    CleanAllOf(cs, written);
  }
}
