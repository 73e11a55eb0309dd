/**
 * The rule-based splitter that turns a draft into atomic claims.
 * The two regular expressions of the source become index functions: `GapAt` is one match position of
 * the sentence pattern, `SeparatorEnd` the end of one match of the clause pattern.
 */
module Decompose {
  import opened Options
  import opened Text

  const TERMINATORS: set<char> := {'.', '!', '?'}
  const DANGLING: set<char> := {',', ';'}

  datatype Claim = Claim(text: string, index: nat)

  /** `(?<=[.!?])\s+` can start at `i`. */
  predicate GapAt(s: string, i: nat)
  {
    0 < i < |s| && s[i - 1] in TERMINATORS && IsSpace(s[i])
  }

  /** First position at or after `i` where the sentence pattern matches; `|s|` when there is none. */
  function FirstGap(s: string, i: nat): (k: nat)
    requires i <= |s|
    ensures i <= k <= |s|
    ensures k < |s| ==> GapAt(s, k)
    ensures forall j :: i <= j < k ==> !GapAt(s, j)
    decreases |s| - i
  {
    if i == |s| || GapAt(s, i) then i else FirstGap(s, i + 1)
  }

  /** End of the whitespace run that starts at `i`. */
  function SkipSpaces(s: string, i: nat): (k: nat)
    requires i <= |s|
    ensures i <= k <= |s|
    ensures forall j :: i <= j < k ==> IsSpace(s[j])
    ensures k < |s| ==> !IsSpace(s[k])
    decreases |s| - i
  {
    if i < |s| && IsSpace(s[i]) then SkipSpaces(s, i + 1) else i
  }

  /** `_SENTENCE_SPLIT.split(s)` */
  function Sentences(s: string): (ss: seq<string>)
    ensures |ss| > 0
    decreases |s|
  {
    var i := FirstGap(s, 0);
    if i == |s| then [s] else [s[..i]] + Sentences(s[SkipSpaces(s, i)..])
  }

  /** `w` stands at `i` and is followed by whitespace. */
  predicate WordThenSpace(s: string, i: nat, w: string)
  {
    i + |w| < |s| && s[i..i + |w|] == w && IsSpace(s[i + |w|])
  }

  predicate Conjunction(s: string, i: nat)
  {
    WordThenSpace(s, i, "and") || WordThenSpace(s, i, "but") || WordThenSpace(s, i, "while")
  }

  function ConjunctionLength(s: string, i: nat): (n: nat)
    requires Conjunction(s, i)
    ensures 3 <= n && i + n < |s| && IsSpace(s[i + n])
  {
    if WordThenSpace(s, i, "while") then 5 else 3
  }

  /**
   * End of the match of the clause pattern `\s*;\s*|\s+\band\b\s+|...` that starts at `i`, if one does.
   * The word boundaries of the pattern always hold between whitespace and a letter.
   */
  function SeparatorEnd(s: string, i: nat): (e: Option<nat>)
    requires i <= |s|
    ensures e.Some? ==> i < e.value <= |s|
  {
    var w := SkipSpaces(s, i);
    if w < |s| && s[w] == ';' then Some(SkipSpaces(s, w + 1))
    else if i < w && Conjunction(s, w) then Some(SkipSpaces(s, w + ConjunctionLength(s, w)))
    else None
  }

  /** First position at or after `i` where the clause pattern matches; `|s|` when there is none. */
  function FirstSeparator(s: string, i: nat): (k: nat)
    requires i <= |s|
    ensures i <= k <= |s|
    ensures k < |s| ==> SeparatorEnd(s, k).Some?
    ensures forall j :: i <= j < k ==> SeparatorEnd(s, j).None?
    decreases |s| - i
  {
    if i == |s| || SeparatorEnd(s, i).Some? then i else FirstSeparator(s, i + 1)
  }

  /** `_CLAUSE_SPLIT.split(s)` */
  function Clauses(s: string): (cs: seq<string>)
    ensures |cs| > 0
    decreases |s|
  {
    var i := FirstSeparator(s, 0);
    if i == |s| then [s] else [s[..i]] + Clauses(s[SeparatorEnd(s, i).value..])
  }

  /** `_clean` */
  function Clean(fragment: string): string
  {
    Trim(Strip(Trim(fragment), DANGLING))
  }

  /** The non-empty cleaned fragments, in order. */
  function CleanAll(fragments: seq<string>): seq<string>
  {
    if fragments == [] then []
    else
      var c := Clean(fragments[0]);
      (if c != "" then [c] else []) + CleanAll(fragments[1..])
  }

  /** The claims of a list of sentences. */
  function ClaimsOf(sentences: seq<string>): seq<string>
  {
    if sentences == [] then []
    else
      var t := Trim(sentences[0]);
      (if t != "" then CleanAll(Clauses(t)) else []) + ClaimsOf(sentences[1..])
  }

  /** What `split_claims` returns. */
  function SplitSpec(draft: string): seq<string>
  {
    if Blank(draft) then [] else ClaimsOf(Sentences(Trim(draft)))
  }

  lemma CleanAllAppend(a: seq<string>, x: string)
    ensures CleanAll(a + [x]) == CleanAll(a) + (if Clean(x) != "" then [Clean(x)] else [])
  {
    hide Clean;
    if a == [] {
    } else {
      assert (a + [x])[1..] == a[1..] + [x];
      CleanAllAppend(a[1..], x);
    }
  }

  lemma ClaimsOfAppend(a: seq<string>, x: string)
    ensures ClaimsOf(a + [x]) == ClaimsOf(a) + (if Trim(x) != "" then CleanAll(Clauses(Trim(x))) else [])
  {
    hide *;
    var s := a + [x];
    ClaimsUnfold(s);
    if a == [] {
      assert s[1..] == [];
      ClaimsUnfold([]);
    } else {
      assert s[0] == a[0] && s[1..] == a[1..] + [x];
      ClaimsUnfold(a);
      ClaimsOfAppend(a[1..], x);
      Associate(if Trim(a[0]) != "" then CleanAll(Clauses(Trim(a[0]))) else [], ClaimsOf(a[1..]),
                if Trim(x) != "" then CleanAll(Clauses(Trim(x))) else []);
    }
  }

  lemma Associate(a: seq<string>, b: seq<string>, c: seq<string>)
    ensures a + (b + c) == (a + b) + c
  {
  }

  lemma ClaimsUnfold(s: seq<string>)
    ensures s == [] ==> ClaimsOf(s) == []
    ensures s != [] ==>
              ClaimsOf(s) == (if Trim(s[0]) != "" then CleanAll(Clauses(Trim(s[0]))) else []) + ClaimsOf(s[1..])
  {
    hide Trim;
    hide Clauses;
    hide CleanAll;
  }

  /** The inner loop of `split_claims`: the claims of one sentence. */
  method SplitSentence(sentence: string) returns (claims: seq<string>)
    ensures claims == CleanAll(Clauses(sentence))
  {
    hide Clean;
    hide Clauses;
    claims := [];
    var clauses := Clauses(sentence);
    for j := 0 to |clauses|
      invariant claims == CleanAll(clauses[..j])
    {
      var cleaned := Clean(clauses[j]);
      assert clauses[..j + 1] == clauses[..j] + [clauses[j]];
      CleanAllAppend(clauses[..j], clauses[j]);
      if cleaned != "" {
        claims := claims + [cleaned];
      }
    }
    assert clauses[..|clauses|] == clauses;
  }

  /** `split_claims`, the outer loop. */
  method SplitClaims(draft: string) returns (claims: seq<string>)
    ensures claims == SplitSpec(draft)
  {
    hide Trim;
    hide Clauses;
    hide CleanAll;
    hide Sentences;
    if Blank(draft) {
      return [];
    }
    claims := [];
    var sentences := Sentences(Trim(draft));
    for i := 0 to |sentences|
      invariant claims == ClaimsOf(sentences[..i])
    {
      var sentence := Trim(sentences[i]);
      assert sentences[..i + 1] == sentences[..i] + [sentences[i]];
      ClaimsOfAppend(sentences[..i], sentences[i]);
      if sentence != "" {
        var more := SplitSentence(sentence);
        claims := claims + more;
      }
    }
    assert sentences[..|sentences|] == sentences;
  }

  /** `decompose`: the claims with their position in the draft. */
  function DecomposeSpec(draft: string): seq<Claim>
  {
    var texts := SplitSpec(draft);
    seq(|texts|, i requires 0 <= i < |texts| => Claim(texts[i], i))
  }
}
