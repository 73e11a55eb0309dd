/** A one-phrase deny-list with ASCII tables: the assumptions about rails are met, and both verdicts occur. */
module SampleRail {
  import opened FairHousing
  import opened AddressRail

  const GANG: Term := Term("gang", "crime_steering", "proxy")

  function LowerChar(c: char): char
  {
    if 'A' <= c <= 'Z' then (c as int + 32) as char else c
  }

  function LowerText(s: string): string
  {
    seq(|s|, i requires 0 <= i < |s| => LowerChar(s[i]))
  }

  predicate AsciiWord(c: char)
  {
    'a' <= c <= 'z' || 'A' <= c <= 'Z' || '0' <= c <= '9' || c == '_'
  }

  const RAIL: Rail := Rail([GANG], AsciiWord, LowerChar, LowerText)

  lemma RailIsValid()
    ensures ValidRail(RAIL)
  {
    assert GANG.phrase == "gang" && "gang"[3] == 'g';
  }

  lemma RailFitsTemplate()
    ensures TemplateTables(RAIL)
  {
    assert forall w, j :: w in TEMPLATE_WORDS && 0 <= j < |w| ==> AsciiWord(w[j]);
  }

  /** The phrase begins with a "g", and no template word does. */
  lemma NoWordStarts(w: string, p: string)
    requires w in TEMPLATE_WORDS && p != "" && p[0] == 'g'
    ensures !StartsWithWord(RAIL, p, w)
  {
    StartMatches(RAIL, p, w);
    hide StartsWithWord;
    assert w[0] in {'E', 'v', 'f', 'i', 'r'};
  }

  lemma StartMatches(rail: Rail, p: string, w: string)
    requires p != "" && w != ""
    ensures StartsWithWord(rail, p, w) ==> rail.fold(w[0]) == rail.fold(p[0])
  {
  }

  lemma HitMatches(rail: Rail, text: string, i: nat, p: string)
    requires p != ""
    ensures HitAt(rail, text, i, p) ==> i < |text| && rail.fold(text[i]) == rail.fold(p[0])
  {
    assert HitAt(rail, text, i, p) ==> rail.fold(text[i + 0]) == rail.fold(p[0]);
  }

  lemma RailAvoidsTemplate()
    ensures AvoidsTemplate(RAIL)
  {
    hide StartsWithWord;
    forall t | t in RAIL.terms
      ensures t.phrase == "gang" && forall w :: w in TEMPLATE_WORDS ==> !StartsWithWord(RAIL, t.phrase, w)
    {
      forall w | w in TEMPLATE_WORDS
        ensures !StartsWithWord(RAIL, t.phrase, w)
      {
        NoWordStarts(w, t.phrase);
      }
    }
  }

  /** A text without the letter the phrase begins with is clean. */
  lemma NoLetterNoHit(text: string)
    requires 'g' !in text && 'G' !in text
    ensures Scan(RAIL, text).allowed
  {
    forall i | 0 <= i <= |text|
      ensures !HitAt(RAIL, text, i, "gang")
    {
      HitMatches(RAIL, text, i, "gang");
      hide HitAt;
      assert i < |text| ==> text[i] in text;
    }
    ScanIsExact(RAIL, text);
  }

  /** An address the rail blocks. */
  lemma DirtyAddressExample()
    ensures ValidRail(RAIL) && !Scan(RAIL, "Gang").allowed
  {
    RailIsValid();
    var text := "Gang";
    assert text[0] == 'G' && text[1] == 'a' && text[2] == 'n' && text[3] == 'g';
    assert HitAt(RAIL, text, 0, RAIL.terms[0].phrase);
    ScanIsExact(RAIL, text);
  }

  const SEX: Term := Term("sex", "sex", "federal")

  /** The long s matches an "s" ignoring case, and lower-cases to itself. */
  function FoldChar(c: char): char
  {
    if c == '\U{017F}' then 's' else LowerChar(c)
  }

  predicate LatinWord(c: char)
  {
    AsciiWord(c) || c == '\U{017F}'
  }

  const LONG_S: Rail := Rail([SEX], LatinWord, FoldChar, LowerText)

  const LONG_SEX: string := "\U{017F}ex"

  lemma LongRailIsValid()
    ensures ValidRail(LONG_S)
  {
    assert SEX.phrase == "sex" && "sex"[0] == 's' && "sex"[2] == 'x';
  }

  /** A text on which the term lookup of a valid rail raises. */
  lemma LookupRaisesExample()
    ensures ValidRail(LONG_S)
    ensures Report(LONG_S, LONG_SEX, HitsFrom(LONG_S, LONG_SEX, 0)).Err?
  {
    LongRailIsValid();
    var text := LONG_SEX;
    LongHitStands();
    assert HitAt(LONG_S, text, 0, LONG_S.terms[0].phrase);
    HitsFromStep(LONG_S, text, 0);
    var hits := HitsFrom(LONG_S, text, 0);
    assert hits[0] in hits && hits[0].start == 0 && hits[0].term == SEX && TextOf(text, hits[0]) == text;
    LongIsUnlisted();
    hide Report;
    ReportIsExact(LONG_S, text, hits);
  }

  lemma LongIsUnlisted()
    ensures !IsListed(LONG_S, LONG_SEX)
  {
    assert LowerText(LONG_SEX)[0] == '\U{017F}';
    assert forall t :: t in LONG_S.terms ==> t.phrase[0] == 's';
  }

  lemma BlankMatchesNoLetter(h: Hit, text: string, j: nat)
    requires h.term == SEX && HitAt(LONG_S, text, h.start, "sex") && h.start <= j < h.start + 3
    ensures text[j] != ' '
  {
    var k := j - h.start;
    assert LONG_S.fold(text[h.start + k]) == LONG_S.fold("sex"[k]);
    assert "sex"[k] in {'s', 'e', 'x'};
  }

  lemma LongOccurs(text: string, j: nat)
    requires 0 < j && j + 3 < |text| && text[j..j + 3] == LONG_SEX && text[j - 1] == ' ' && text[j + 3] == ' '
    ensures HitAt(LONG_S, text, j, "sex")
  {
    LongRailIsValid();
    LongHitStands();
    assert LONG_S.terms[0] == SEX && SEX.phrase == "sex";
    assert ValidPhrase(LONG_S, LONG_S.terms[0].phrase) && !LONG_S.isWord(' ');
    hide HitAt;
    hide ValidRail;
    HitSurvivesCut(LONG_S, text, j, j + 3, 0, "sex");
  }

  lemma LongTerms()
    ensures |LONG_S.terms| == 1 && LONG_S.terms[0] == SEX && SEX.phrase == "sex" && |"sex"| == 3
    ensures forall t :: t in LONG_S.terms ==> t == SEX
  {
  }

  /** An occurrence after a blank is itself a match. */
  lemma LongIsMatched(text: string, j: nat) returns (h: Hit)
    requires 0 < j <= |text| && text[j - 1] == ' ' && HitAt(LONG_S, text, j, "sex")
    ensures h in HitsFrom(LONG_S, text, 0) && h.start == j && h.term == SEX
  {
    LongTerms();
    hide HitAt;
    hide Disjoint;
    HitsAreComplete(LONG_S, text, 0, j, 0);
    h :| h in HitsFrom(LONG_S, text, 0) && h.start <= j < h.start + |h.term.phrase|;
    if h.start < j {
      BlankMatchesNoLetter(h, text, j - 1);
    }
  }

  /** The unlisted match is found wherever the word stands between blanks. */
  lemma LongInContext(before: string, after: string)
    ensures Unlisted(LONG_S, before + " " + LONG_SEX + " " + after)
  {
    var text, j := before + " " + LONG_SEX + " " + after, |before| + 1;
    assert |LONG_SEX| == 3;
    assert text[j..j + 3] == LONG_SEX && text[j - 1] == ' ' && text[j + 3] == ' ';
    LongOccurs(text, j);
    var h := LongIsMatched(text, j);
    LongTerms();
    LongIsUnlisted();
    hide HitAt;
    hide HitsFrom;
    hide IsListed;
    assert TextOf(text, h) == LONG_SEX;
  }

  lemma LongHitStands()
    ensures HitAt(LONG_S, LONG_SEX, 0, "sex")
  {
    assert LONG_SEX[0] == '\U{017F}' && LONG_SEX[1] == 'e' && LONG_SEX[2] == 'x';
  }

  lemma PhraseIsDirty()
    ensures !NoHit(LONG_S, "sex")
  {
    LongTerms();
    assert HitAt(LONG_S, "sex", 0, LONG_S.terms[0].phrase);
  }
}
