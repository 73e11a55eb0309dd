/**
 * The Fair Housing wording rail: a case-insensitive, word-boundary scan over a deny-list held as data.
 * Python's `\w` class, its case folding and `str.lower` are functions of the rail. `fold` maps a character to a
 * representative of those the regex engine takes for the same; all that is asked of the tables is `ValidRail`.
 */
module FairHousing {
  import opened Options
  import opened Text

  datatype Term = Term(phrase: string, category: string, source: string)

  datatype Rail = Rail(terms: seq<Term>, isWord: char -> bool, fold: char -> char, lower: string -> string)

  /** One match of the regular expression. */
  datatype Hit = Hit(start: nat, term: Term)

  /** One reported match. */
  datatype Match = Match(matchedText: string, term: Term)

  datatype RailResult = RailResult(allowed: bool, escalate: bool, hits: seq<Hit>)

  /** Phrases start and end in a word character and hold no full stop; separators are not word characters. */
  ghost predicate ValidRail(rail: Rail)
  {
    && (forall k :: 0 <= k < |rail.terms| ==> ValidPhrase(rail, rail.terms[k].phrase))
    && (forall c :: IsSpace(c) || c in {'.', ',', ';', '!', '?'} ==> !rail.isWord(c))
    && (forall c :: rail.fold(c) == rail.fold('.') ==> c == '.')
  }

  /** Whatever matches the first or the last character of the phrase is a word character. */
  ghost predicate ValidPhrase(rail: Rail, p: string)
  {
    && p != "" && '.' !in p
    && forall c :: rail.fold(c) == rail.fold(p[0]) || rail.fold(c) == rail.fold(p[|p| - 1]) ==> rail.isWord(c)
  }

  predicate WordAt(rail: Rail, text: string, i: int)
  {
    0 <= i < |text| && rail.isWord(text[i])
  }

  /** `\b` holds at `i`. */
  predicate Boundary(rail: Rail, text: string, i: nat)
  {
    WordAt(rail, text, i - 1) != WordAt(rail, text, i)
  }

  /** `\bphrase\b` matches at `i`, ignoring case. */
  predicate HitAt(rail: Rail, text: string, i: nat, phrase: string)
  {
    && i + |phrase| <= |text|
    && (forall j :: 0 <= j < |phrase| ==> rail.fold(text[i + j]) == rail.fold(phrase[j]))
    && Boundary(rail, text, i)
    && Boundary(rail, text, i + |phrase|)
  }

  /** No deny-listed phrase occurs in `text` as whole words. */
  ghost predicate NoHit(rail: Rail, text: string)
  {
    forall i, k :: 0 <= i <= |text| && 0 <= k < |rail.terms| ==> !HitAt(rail, text, i, rail.terms[k].phrase)
  }

  /** The first term, in list order from `k`, whose phrase matches at `i`: the regex alternation. */
  function TermAt(rail: Rail, text: string, i: nat, k: nat): (t: Option<Term>)
    requires k <= |rail.terms|
    ensures t.None? <==> forall n :: k <= n < |rail.terms| ==> !HitAt(rail, text, i, rail.terms[n].phrase)
    ensures t.Some? ==> t.value in rail.terms && HitAt(rail, text, i, t.value.phrase)
    decreases |rail.terms| - k
  {
    if k == |rail.terms| then None
    else if HitAt(rail, text, i, rail.terms[k].phrase) then Some(rail.terms[k])
    else TermAt(rail, text, i, k + 1)
  }

  /** Where `finditer` resumes after position `i`. */
  function Resume(rail: Rail, text: string, i: nat): (n: nat)
    requires i <= |text|
    ensures n > i
  {
    var t := TermAt(rail, text, i, 0);
    if t.Some? && t.value.phrase != "" then i + |t.value.phrase| else i + 1
  }

  function HitsAt(rail: Rail, text: string, i: nat): (hits: seq<Hit>)
    requires i <= |text|
  {
    var t := TermAt(rail, text, i, 0);
    if t.Some? then [Hit(i, t.value)] else []
  }

  /** The matches `finditer` yields from position `i` on. */
  function HitsFrom(rail: Rail, text: string, i: nat): (hits: seq<Hit>)
    ensures forall h :: h in hits ==>
              && h.term in rail.terms && i <= h.start && h.start + |h.term.phrase| <= |text|
              && HitAt(rail, text, h.start, h.term.phrase)
    decreases |text| - i
  {
    if i > |text| then []
    else HitsAt(rail, text, i) + HitsFrom(rail, text, Resume(rail, text, i))
  }

  function TextOf(text: string, h: Hit): string
    requires h.start + |h.term.phrase| <= |text|
  {
    text[h.start..h.start + |h.term.phrase|]
  }

  /** `_PHRASE_TO_TERM.get(key)`: of several terms with one phrase the last is kept. */
  function TermFor(terms: seq<Term>, key: string): (t: Option<Term>)
    ensures t.Some? ==> t.value in terms && t.value.phrase == key
    ensures t.None? ==> forall x :: x in terms ==> x.phrase != key
  {
    if terms == [] then None
    else if terms[|terms| - 1].phrase == key then Some(terms[|terms| - 1])
    else TermFor(terms[..|terms| - 1], key)
  }

  /** The reported matches; a matched text whose lower-cased form is no listed phrase raises. */
  function Report(rail: Rail, text: string, hits: seq<Hit>): Result<seq<Match>, string>
    requires forall h :: h in hits ==> h.start + |h.term.phrase| <= |text|
  {
    if hits == [] then Ok([])
    else
      var matched := TextOf(text, hits[0]);
      var term := TermFor(rail.terms, rail.lower(matched));
      if term.None? then Err(rail.lower(matched))
      else Prepend([Match(matched, term.value)], Report(rail, text, hits[1..]))
  }

  function Prepend(ms: seq<Match>, r: Result<seq<Match>, string>): Result<seq<Match>, string>
  {
    if r.Err? then r else Ok(ms + r.value)
  }

  /** `find_protected_terms`; the error is the key that is not found. */
  method FindProtectedTerms(rail: Rail, text: string) returns (found: Result<seq<Match>, string>)
    ensures found == Report(rail, text, HitsFrom(rail, text, 0))
  {
    hide HitsFrom;
    hide Report;
    hide Prepend;
    var matches: seq<Match> := [];
    var i := 0;
    PrependNothing(Report(rail, text, HitsFrom(rail, text, 0)));
    while i <= |text|
      invariant Report(rail, text, HitsFrom(rail, text, 0)) ==
                Prepend(matches, Report(rail, text, HitsFrom(rail, text, i)))
      decreases |text| - i
    {
      var t := TermAt(rail, text, i, 0);
      ReportStep(rail, text, i);
      if t.Some? {
        var matched := TextOf(text, Hit(i, t.value));
        var term := TermFor(rail.terms, rail.lower(matched));
        if term.None? {
          PrependRaises(matches, rail.lower(matched));
          return Err(rail.lower(matched));
        }
        PrependMore(matches, Match(matched, term.value),
                    Report(rail, text, HitsFrom(rail, text, Resume(rail, text, i))));
        matches := matches + [Match(matched, term.value)];
      }
      i := Resume(rail, text, i);
    }
    ReportEnds(rail, text, i);
    PrependAll(matches);
    return Ok(matches);
  }

  lemma PrependNothing(r: Result<seq<Match>, string>)
    ensures Prepend([], r) == r
  {
    assert r.Ok? ==> [] + r.value == r.value;
  }

  lemma PrependMore(ms: seq<Match>, m: Match, r: Result<seq<Match>, string>)
    ensures Prepend(ms, Prepend([m], r)) == Prepend(ms + [m], r)
  {
    assert r.Ok? ==> ms + ([m] + r.value) == ms + [m] + r.value;
  }

  lemma PrependRaises(ms: seq<Match>, key: string)
    ensures Prepend(ms, Err(key)) == Err(key)
  {
  }

  lemma PrependAll(ms: seq<Match>)
    ensures Prepend(ms, Ok([])) == Ok(ms)
  {
    assert ms + [] == ms;
  }

  lemma ReportEnds(rail: Rail, text: string, i: nat)
    requires i > |text|
    ensures Report(rail, text, HitsFrom(rail, text, i)) == Ok([])
  {
  }

  lemma ReportStep(rail: Rail, text: string, i: nat)
    requires i <= |text|
    ensures var t := TermAt(rail, text, i, 0);
            var rest := Report(rail, text, HitsFrom(rail, text, Resume(rail, text, i)));
            Report(rail, text, HitsFrom(rail, text, i)) ==
            if t.None? then rest
            else
              var matched := TextOf(text, Hit(i, t.value));
              var term := TermFor(rail.terms, rail.lower(matched));
              if term.None? then Err(rail.lower(matched)) else Prepend([Match(matched, term.value)], rest)
  {
    hide HitAt;
    HitsFromStep(rail, text, i);
    hide HitsFrom;
    var t, rest := TermAt(rail, text, i, 0), HitsFrom(rail, text, Resume(rail, text, i));
    if t.Some? {
      assert ([Hit(i, t.value)] + rest)[1..] == rest;
    }
  }

  lemma HitsFromStep(rail: Rail, text: string, i: nat)
    requires i <= |text|
    ensures var t, rest := TermAt(rail, text, i, 0), HitsFrom(rail, text, Resume(rail, text, i));
            HitsFrom(rail, text, i) == (if t.Some? then [Hit(i, t.value)] + rest else rest)
  {
  }

  /** The verdict of the regular expression: any match at all trips the rail. */
  function Scan(rail: Rail, text: string): RailResult
  {
    var hits := HitsFrom(rail, text, 0);
    RailResult(hits == [], hits != [], hits)
  }

  /** The key on which the lookup of `scan_output` raises, if it does. */
  function ScanRaise(rail: Rail, text: string): Option<string>
  {
    var r := Report(rail, text, HitsFrom(rail, text, 0));
    if r.Err? then Some(r.error) else None
  }

  /** `scan_output` */
  method ScanOutput(rail: Rail, text: string) returns (result: Result<RailResult, string>)
    ensures var key := ScanRaise(rail, text);
            result == if key.Some? then Err(key.value) else Ok(Scan(rail, text))
  {
    hide HitsFrom;
    hide Report;
    var found := FindProtectedTerms(rail, text);
    if found.Err? {
      return Err(found.error);
    }
    ReportIsExact(rail, text, HitsFrom(rail, text, 0));
    return Ok(RailResult(found.value == [], found.value != [], HitsFrom(rail, text, 0)));
  }

  /** The text holds a match whose lower-cased form is no listed phrase. */
  ghost predicate Unlisted(rail: Rail, text: string)
  {
    exists h :: h in HitsFrom(rail, text, 0) && !IsListed(rail, TextOf(text, h))
  }

  /** The scan raises exactly when the text holds an unlisted match; a clean text never does. */
  lemma RaisesIff(rail: Rail, text: string)
    ensures ScanRaise(rail, text).Some? <==> Unlisted(rail, text)
    ensures Scan(rail, text).allowed ==> ScanRaise(rail, text).None?
  {
    hide HitsFrom;
    hide Report;
    hide IsListed;
    ReportIsExact(rail, text, HitsFrom(rail, text, 0));
  }

  /** A matched text that lower-cases to a listed phrase. */
  ghost predicate IsListed(rail: Rail, text: string)
  {
    exists t :: t in rail.terms && t.phrase == rail.lower(text)
  }

  lemma {:induction false} ReportSucceedsIff(rail: Rail, text: string, hits: seq<Hit>)
    requires forall h :: h in hits ==> h.start + |h.term.phrase| <= |text|
    ensures Report(rail, text, hits).Ok? <==> forall h :: h in hits ==> IsListed(rail, TextOf(text, h))
  {
    if hits == [] {
    } else {
      ReportSucceedsIff(rail, text, hits[1..]);
      assert hits == [hits[0]] + hits[1..];
    }
  }

  lemma {:induction false} ReportNames(rail: Rail, text: string, hits: seq<Hit>)
    requires forall h :: h in hits ==> h.start + |h.term.phrase| <= |text|
    ensures var r := Report(rail, text, hits);
            r.Ok? ==> |r.value| == |hits| && forall n :: 0 <= n < |hits| ==>
              && r.value[n].matchedText == TextOf(text, hits[n])
              && r.value[n].term in rail.terms && r.value[n].term.phrase == rail.lower(r.value[n].matchedText)
  {
    if hits == [] {
    } else {
      ReportNames(rail, text, hits[1..]);
    }
  }

  /**
   * The lookup raises exactly when some matched text does not lower-case to a listed phrase; otherwise every
   * match is reported, in order, under the listed phrase its text lower-cases to.
   */
  lemma ReportIsExact(rail: Rail, text: string, hits: seq<Hit>)
    requires forall h :: h in hits ==> h.start + |h.term.phrase| <= |text|
    ensures var r := Report(rail, text, hits);
            && (r.Ok? <==> forall h :: h in hits ==> IsListed(rail, TextOf(text, h)))
            && (r.Ok? ==> |r.value| == |hits| && forall n :: 0 <= n < |hits| ==>
                  && r.value[n].matchedText == TextOf(text, hits[n])
                  && r.value[n].term in rail.terms && r.value[n].term.phrase == rail.lower(r.value[n].matchedText))
  {
    hide Report;
    ReportSucceedsIff(rail, text, hits);
    ReportNames(rail, text, hits);
  }

  /** Every reported match is an occurrence of a listed phrase, reported under the phrase its text lower-cases to. */
  lemma MatchesAreHits(rail: Rail, text: string, n: nat)
    requires var r := Report(rail, text, HitsFrom(rail, text, 0)); r.Ok? && n < |r.value|
    ensures var m := Report(rail, text, HitsFrom(rail, text, 0)).value[n];
            && m.term in rail.terms && m.term.phrase == rail.lower(m.matchedText)
            && exists h :: h in HitsFrom(rail, text, 0) && HitAt(rail, text, h.start, h.term.phrase)
                           && h.term in rail.terms && m.matchedText == TextOf(text, h)
  {
    hide HitAt;
    hide Report;
    var hits := HitsFrom(rail, text, 0);
    ReportIsExact(rail, text, hits);
    hide HitsFrom;
    assert hits[n] in hits;
  }

  lemma {:induction false} NoHitsFrom(rail: Rail, text: string, i: nat)
    requires HitsFrom(rail, text, i) == []
    ensures forall j, k :: i <= j <= |text| && 0 <= k < |rail.terms| ==> !HitAt(rail, text, j, rail.terms[k].phrase)
    decreases |text| - i
  {
    hide HitAt;
    if i > |text| {
    } else {
      assert TermAt(rail, text, i, 0).None?;
      hide TermAt;
      NoHitsFrom(rail, text, i + 1);
    }
  }

  lemma {:induction false} HitsNeedPhrases(rail: Rail, text: string, i: nat)
    requires NoHit(rail, text)
    ensures HitsFrom(rail, text, i) == []
    decreases |text| - i
  {
    if i > |text| {
    } else {
      HitsNeedPhrases(rail, text, Resume(rail, text, i));
    }
  }

  /** The rail lets a text through exactly when no deny-listed phrase occurs in it as whole words. */
  lemma ScanIsExact(rail: Rail, text: string)
    ensures Scan(rail, text).allowed <==> NoHit(rail, text)
    ensures Scan(rail, text).escalate <==> !NoHit(rail, text)
  {
    if Scan(rail, text).allowed {
      NoHitsFrom(rail, text, 0);
    }
    if NoHit(rail, text) {
      HitsNeedPhrases(rail, text, 0);
    }
  }

  /** `hits` come in order and do not overlap, the first starting at or after `from`. */
  ghost predicate Disjoint(hits: seq<Hit>, from: nat)
  {
    && (forall n :: 0 <= n < |hits| ==> from <= hits[n].start)
    && forall m, n :: 0 <= m < n < |hits| ==> hits[m].start + |hits[m].term.phrase| <= hits[n].start
  }

  lemma FirstIsDisjoint(h: Hit, rest: seq<Hit>, from: nat)
    requires from <= h.start && Disjoint(rest, h.start + |h.term.phrase|)
    ensures Disjoint([h] + rest, from)
  {
  }

  /** Occurrence `j` of phrase `k` is one of the hits, or begins inside one. */
  ghost predicate Covered(hits: seq<Hit>, j: nat)
  {
    exists h :: h in hits && h.start <= j < h.start + |h.term.phrase|
  }

  lemma CoveredWithin(part: seq<Hit>, all: seq<Hit>, j: nat)
    requires Covered(part, j) && forall h :: h in part ==> h in all
    ensures Covered(all, j)
  {
  }

  lemma {:induction false} HitsAreDisjoint(rail: Rail, text: string, i: nat)
    ensures Disjoint(HitsFrom(rail, text, i), i)
    decreases |text| - i
  {
    hide HitAt;
    if i > |text| {
    } else {
      var t, next := TermAt(rail, text, i, 0), Resume(rail, text, i);
      HitsFromStep(rail, text, i);
      HitsAreDisjoint(rail, text, next);
      hide HitsFrom;
      if t.Some? {
        FirstIsDisjoint(Hit(i, t.value), HitsFrom(rail, text, next), i);
      }
    }
  }

  lemma NoTermNoHit(rail: Rail, text: string, i: nat, k: nat)
    requires k < |rail.terms|
    ensures TermAt(rail, text, i, 0).None? ==> !HitAt(rail, text, i, rail.terms[k].phrase)
  {
    hide HitAt;
  }

  lemma ResumeAfter(rail: Rail, text: string, i: nat)
    requires i <= |text| && forall n :: 0 <= n < |rail.terms| ==> rail.terms[n].phrase != ""
    ensures var t := TermAt(rail, text, i, 0);
            Resume(rail, text, i) == if t.Some? then i + |t.value.phrase| else i + 1
  {
    hide HitAt;
    var t := TermAt(rail, text, i, 0);
    if t.Some? {
      var n :| 0 <= n < |rail.terms| && rail.terms[n] == t.value;
    }
  }

  lemma FirstIsHit(rail: Rail, text: string, i: nat)
    requires i <= |text| && TermAt(rail, text, i, 0).Some?
    ensures Hit(i, TermAt(rail, text, i, 0).value) in HitsFrom(rail, text, i)
  {
    HitsFromStep(rail, text, i);
    hide *;
  }

  lemma CoveredBy(hits: seq<Hit>, h: Hit, j: nat)
    requires h in hits && h.start <= j < h.start + |h.term.phrase|
    ensures Covered(hits, j)
  {
  }

  /** An occurrence before the scan resumes is the match at `i`, or begins inside it. */
  lemma FirstCovers(rail: Rail, text: string, i: nat, j: nat, k: nat)
    requires forall n :: 0 <= n < |rail.terms| ==> rail.terms[n].phrase != ""
    requires i <= j <= |text| && k < |rail.terms| && HitAt(rail, text, j, rail.terms[k].phrase)
    requires j < Resume(rail, text, i)
    ensures Covered(HitsFrom(rail, text, i), j)
  {
    hide *;
    var t := TermAt(rail, text, i, 0);
    ResumeAfter(rail, text, i);
    NoTermNoHit(rail, text, i, k);
    assert t.Some?;
    FirstIsHit(rail, text, i);
    CoveredBy(HitsFrom(rail, text, i), Hit(i, t.value), j);
  }

  lemma RestIsPart(rail: Rail, text: string, i: nat)
    requires i <= |text|
    ensures forall h :: h in HitsFrom(rail, text, Resume(rail, text, i)) ==> h in HitsFrom(rail, text, i)
  {
    hide HitAt;
    HitsFromStep(rail, text, i);
    hide HitsFrom;
  }

  /**
   * The scan is complete: every occurrence of a listed phrase is one of the matches or begins inside one, and
   * the matches come in order and do not overlap.
   */
  lemma {:induction false} HitsAreComplete(rail: Rail, text: string, i: nat, j: nat, k: nat)
    requires forall n :: 0 <= n < |rail.terms| ==> rail.terms[n].phrase != ""
    requires i <= j <= |text| && k < |rail.terms| && HitAt(rail, text, j, rail.terms[k].phrase)
    ensures Covered(HitsFrom(rail, text, i), j) && Disjoint(HitsFrom(rail, text, i), i)
    decreases |text| - i
  {
    hide *;
    HitsAreDisjoint(rail, text, i);
    var next := Resume(rail, text, i);
    if j < next {
      FirstCovers(rail, text, i, j, k);
    } else {
      HitsAreComplete(rail, text, next, j, k);
      RestIsPart(rail, text, i);
      CoveredWithin(HitsFrom(rail, text, next), HitsFrom(rail, text, i), j);
    }
  }

  ghost predicate LongestFirst(terms: seq<Term>)
  {
    forall m, n :: 0 <= m < n < |terms| ==> |terms[m].phrase| >= |terms[n].phrase|
  }

  lemma {:induction false} TermAtIsLongest(rail: Rail, text: string, i: nat, from: nat, k: nat)
    requires LongestFirst(rail.terms) && from <= k < |rail.terms| && HitAt(rail, text, i, rail.terms[k].phrase)
    ensures var t := TermAt(rail, text, i, from); t.Some? && |t.value.phrase| >= |rail.terms[k].phrase|
    decreases |rail.terms| - from
  {
    hide HitAt;
    if HitAt(rail, text, i, rail.terms[from].phrase) {
    } else {
      TermAtIsLongest(rail, text, i, from + 1, k);
    }
  }

  /** With the list longest-first, every match is of the longest phrase that occurs where it starts. */
  lemma {:induction false} HitsAreLongest(rail: Rail, text: string, i: nat, h: Hit, k: nat)
    requires LongestFirst(rail.terms) && h in HitsFrom(rail, text, i)
    requires k < |rail.terms| && HitAt(rail, text, h.start, rail.terms[k].phrase)
    ensures |rail.terms[k].phrase| <= |h.term.phrase|
    decreases |text| - i
  {
    hide HitAt;
    HitsFromStep(rail, text, i);
    var t, next := TermAt(rail, text, i, 0), Resume(rail, text, i);
    if t.Some? && h == Hit(i, t.value) {
      TermAtIsLongest(rail, text, i, 0, k);
    } else {
      HitsAreLongest(rail, text, next, h, k);
    }
  }

  /** A hit inside a cut is a hit of the whole text when the cut splits no word. */
  lemma HitSurvivesCut(rail: Rail, text: string, a: nat, b: nat, i: nat, p: string)
    requires ValidRail(rail) && ValidPhrase(rail, p)
    requires a <= b <= |text| && HitAt(rail, text[a..b], i, p)
    requires !WordAt(rail, text, a - 1) || !WordAt(rail, text, a)
    requires !WordAt(rail, text, b - 1) || !WordAt(rail, text, b)
    ensures HitAt(rail, text, a + i, p)
  {
    var cut := text[a..b];
    forall j | 0 <= j < |p|
      ensures rail.fold(text[a + i + j]) == rail.fold(p[j])
    {
      assert cut[i + j] == text[a + i + j];
    }
    assert rail.fold(cut[i + 0]) == rail.fold(p[0]) && rail.fold(cut[i + (|p| - 1)]) == rail.fold(p[|p| - 1]);
    assert WordAt(rail, cut, i) && WordAt(rail, cut, i + |p| - 1);
  }

  /** A hit that lies within `text[a..b]` is a hit of that cut. */
  lemma HitWithinCut(rail: Rail, text: string, a: nat, b: nat, i: nat, p: string)
    requires ValidRail(rail) && ValidPhrase(rail, p)
    requires a <= i <= i + |p| <= b <= |text| && HitAt(rail, text, i, p)
    ensures HitAt(rail, text[a..b], i - a, p)
  {
    var cut := text[a..b];
    forall j | 0 <= j < |p|
      ensures rail.fold(cut[i - a + j]) == rail.fold(p[j])
    {
      assert cut[i - a + j] == text[i + j];
    }
    assert rail.fold(text[i + 0]) == rail.fold(p[0]) && rail.fold(text[i + (|p| - 1)]) == rail.fold(p[|p| - 1]);
    assert WordAt(rail, text, i) && WordAt(rail, text, i + |p| - 1);
  }

  /** A phrase holds no full stop, so no hit reaches across one. */
  lemma HitAvoidsStop(rail: Rail, text: string, at: nat, i: nat, p: string)
    requires ValidRail(rail) && ValidPhrase(rail, p)
    requires at < |text| && text[at] == '.' && HitAt(rail, text, i, p)
    ensures i + |p| <= at || at < i
  {
    forall m | i <= m < i + |p|
      ensures text[m] != '.'
    {
      assert p[m - i] in p;
      assert rail.fold(text[i + (m - i)]) == rail.fold(p[m - i]);
    }
  }

  /** Cutting a text where no word is cut cannot create a hit. */
  lemma CutKeepsNoHit(rail: Rail, text: string, a: nat, b: nat)
    requires ValidRail(rail) && NoHit(rail, text)
    requires a <= b <= |text|
    requires !WordAt(rail, text, a - 1) || !WordAt(rail, text, a)
    requires !WordAt(rail, text, b - 1) || !WordAt(rail, text, b)
    ensures NoHit(rail, text[a..b])
  {
    forall i, k | 0 <= i <= b - a && 0 <= k < |rail.terms|
      ensures !HitAt(rail, text[a..b], i, rail.terms[k].phrase)
    {
      var p := rail.terms[k].phrase;
      assert ValidPhrase(rail, p);
      if HitAt(rail, text[a..b], i, p) {
        HitSurvivesCut(rail, text, a, b, i, p);
      }
    }
  }

  /** A full stop separates words, so clean texts stay clean when joined by one. */
  lemma StopJoinsNoHit(rail: Rail, x: string, y: string)
    requires ValidRail(rail) && NoHit(rail, x) && NoHit(rail, y)
    ensures NoHit(rail, x + "." + y)
  {
    var text := x + "." + y;
    assert text[..|x|] == x && text[0..|x|] == x && text[|x| + 1..|text|] == y;
    forall i, k | 0 <= i <= |text| && 0 <= k < |rail.terms|
      ensures !HitAt(rail, text, i, rail.terms[k].phrase)
    {
      var p := rail.terms[k].phrase;
      assert ValidPhrase(rail, p);
      if HitAt(rail, text, i, p) {
        HitAvoidsStop(rail, text, |x|, i, p);
        if i > |x| {
          HitWithinCut(rail, text, |x| + 1, |text|, i, p);
        } else {
          HitWithinCut(rail, text, 0, |x|, i, p);
        }
      }
    }
  }

  /** A leading blank adds no hit. */
  lemma SpaceBeforeNoHit(rail: Rail, x: string)
    requires ValidRail(rail) && NoHit(rail, x)
    ensures NoHit(rail, " " + x)
  {
    var text := " " + x;
    assert text[1..|text|] == x;
    forall i, k | 0 <= i <= |text| && 0 <= k < |rail.terms|
      ensures !HitAt(rail, text, i, rail.terms[k].phrase)
    {
      var p := rail.terms[k].phrase;
      assert ValidPhrase(rail, p);
      if HitAt(rail, text, i, p) {
        assert rail.fold(text[i + 0]) == rail.fold(p[0]);
        HitWithinCut(rail, text, 1, |text|, i, p);
      }
    }
  }

  lemma EmptyHasNoHit(rail: Rail)
    requires ValidRail(rail)
    ensures NoHit(rail, "")
  {
    forall i, k | 0 <= i <= |""| && 0 <= k < |rail.terms|
      ensures !HitAt(rail, "", i, rail.terms[k].phrase)
    {
      assert ValidPhrase(rail, rail.terms[k].phrase);
    }
  }
}
