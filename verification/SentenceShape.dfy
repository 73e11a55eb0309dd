/** Why the generator's fact sentences survive the splitter whole: they are plain pieces joined by blanks. */
module SentenceShape {
  import opened Text
  import opened Decompose
  import opened Rebuild
  import opened RoundTrip
  import opened Generator

  predicate SpacedWord(s: string, w: nat)
  {
    0 < w < |s| && IsSpace(s[w - 1]) && Conjunction(s, w)
  }

  /** None of the splitter's patterns occurs. */
  ghost predicate Plain(s: string)
  {
    ';' !in s && NoGap(s) && forall w :: 0 < w < |s| ==> !SpacedWord(s, w)
  }

  /** Plain even with a blank on either side, so that it can stand inside a sentence. */
  ghost predicate PlainPiece(p: string)
  {
    Plain(" " + p + " ")
  }

  lemma PlainNoSeparator(s: string)
    requires Plain(s)
    ensures NoSeparator(s)
  {
    hide Conjunction;
    forall i | 0 <= i <= |s|
      ensures SeparatorEnd(s, i).None?
    {
      var w := SkipSpaces(s, i);
      assert w < |s| && i < w ==> !SpacedWord(s, w);
      assert w < |s| ==> s[w] in s;
    }
  }

  lemma PlainSuffix(s: string, a: nat)
    requires Plain(s) && a <= |s|
    ensures Plain(s[a..])
  {
    hide Conjunction;
    var t := s[a..];
    assert t == s[a..|s|];
    PartNoGap(s, a, |s|);
    forall w | 0 < w < |t|
      ensures !SpacedWord(t, w)
    {
      assert !SpacedWord(s, a + w);
      if Conjunction(t, w) {
        ConjunctionWithin(s, a, |s|, w);
      }
    }
  }

  /** A conjunction holds no whitespace. */
  lemma ConjunctionLetters(s: string, w: nat, k: nat)
    requires Conjunction(s, w) && w <= k < w + ConjunctionLength(s, w)
    ensures s[k] != ' '
  {
    var n := ConjunctionLength(s, w);
    assert s[k] == s[w..w + n][k - w];
  }

  lemma ConjunctionPrefix(s: string, n: nat, w: nat)
    requires Conjunction(s, w) && w + ConjunctionLength(s, w) < n <= |s|
    ensures Conjunction(s[..n], w)
  {
    var m := ConjunctionLength(s, w);
    assert s[..n][w..w + m] == s[w..w + m];
  }

  lemma ConjunctionSuffix(s: string, a: nat, w: nat)
    requires a <= w && Conjunction(s, w)
    ensures Conjunction(s[a..], w - a)
  {
    var m := ConjunctionLength(s, w);
    assert s[a..][w - a..w - a + m] == s[w..w + m];
  }

  /** Two strings that share a blank stay plain when glued at it. */
  lemma GluePlain(x: string, y: string)
    requires Plain(x + " ") && Plain(" " + y)
    ensures Plain(x + " " + y)
  {
    hide Conjunction;
    var s, n := x + " " + y, |x|;
    assert s[..n + 1] == x + " " && s[n..] == " " + y;
    forall i | 0 <= i < |s|
      ensures !GapAt(s, i) && s[i] != ';'
    {
      if i <= n {
        assert !GapAt(x + " ", i) && (x + " ")[i] in x + " ";
      } else {
        assert !GapAt(" " + y, i - n) && (" " + y)[i - n] in " " + y;
      }
    }
    forall w | 0 < w < |s|
      ensures !SpacedWord(s, w)
    {
      assert w > n ==> !SpacedWord(" " + y, w - n);
      assert w <= n ==> !SpacedWord(x + " ", w);
      if Conjunction(s, w) {
        if w > n {
          ConjunctionSuffix(s, n, w);
        } else if w + ConjunctionLength(s, w) <= n {
          ConjunctionPrefix(s, n + 1, w);
        } else {
          ConjunctionLetters(s, w, n);
        }
      }
    }
  }

  /** Pieces stay a piece when joined by a blank. */
  lemma GluePieces(p: string, q: string)
    requires PlainPiece(p) && PlainPiece(q)
    ensures PlainPiece(p + " " + q)
  {
    hide Plain;
    assert " " + q + " " == " " + (q + " ");
    GluePlain(" " + p, q + " ");
    assert " " + p + " " + (q + " ") == " " + (p + " " + q) + " ";
  }

  /** One whitespace-free word that is neither a conjunction nor the end of a sentence. */
  predicate PlainWord(t: string)
  {
    && t != "" && t != "and" && t != "but" && t != "while"
    && t[|t| - 1] !in TERMINATORS
    && ClosedWord(t)
  }

  predicate ClosedWord(t: string)
  {
    forall i :: 0 <= i < |t| ==> !IsSpace(t[i]) && t[i] != ';'
  }

  lemma WordBetweenBlanks(t: string)
    requires ClosedWord(t) && Conjunction(" " + t + " ", 1)
    ensures t == "and" || t == "but" || t == "while"
  {
    var s := " " + t + " ";
    var n := ConjunctionLength(s, 1);
    assert forall k :: 1 <= k <= |t| ==> s[k] == t[k - 1];
    assert n == |t|;
    assert s[1..1 + n] == t;
  }

  lemma WordIsPiece(t: string)
    requires PlainWord(t)
    ensures PlainPiece(t)
  {
    hide Conjunction;
    var s := " " + t + " ";
    forall w | 0 < w < |s|
      ensures !SpacedWord(s, w)
    {
      assert w > 1 ==> s[w - 1] == t[w - 2];
      if w == 1 && Conjunction(s, 1) {
        WordBetweenBlanks(t);
      }
    }
  }

  /** The last word of a sentence may end in a full stop. */
  lemma LastWordPlain(t: string)
    requires ClosedWord(t)
    ensures Plain(" " + t)
  {
    var s := " " + t;
    forall w | 0 < w < |s|
      ensures !SpacedWord(s, w)
    {
      assert forall k :: 1 <= k < |s| ==> s[k] == t[k - 1];
    }
  }

  /** A piece followed by a closing word is a sentence the splitter leaves whole. */
  lemma PieceThenLast(p: string, last: string)
    requires PlainPiece(p) && p != "" && !IsSpace(p[0]) && p[0] != ','
    requires ClosedWord(last) && |last| > 1 && last[|last| - 1] == '.' && last[|last| - 2] != '.'
    ensures var s := p + " " + last; SentenceLike(s) && Clean(s) == s && Normalised(s) == s
  {
    hide Clean;
    var s := p + " " + last;
    assert (" " + p + " ")[1..] == p + " ";
    PlainSuffix(" " + p + " ", 1);
    LastWordPlain(last);
    GluePlain(p, last);
    PlainNoSeparator(s);
    CleanSentence(s);
    assert Trailing(s[..|s| - 1], {'.'}) == 0;
    assert Trailing(s, {'.'}) == 1;
  }

  /** A formatted dollar amount: digits, thousands separators, perhaps a sign. */
  predicate Money(m: string)
  {
    m != "" && forall i :: 0 <= i < |m| ==> '0' <= m[i] <= '9' || m[i] == ',' || m[i] == '-'
  }

  lemma DollarWord(m: string)
    requires Money(m)
    ensures PlainWord("$" + m)
  {
    assert ("$" + m)[0] == '$';
  }

  lemma HeadlineWords()
    ensures PlainWord("Estimated") && PlainWord("value") && PlainWord("for")
  {
  }

  lemma MoreHeadlineWords()
    ensures PlainWord("is") && PlainWord("(range")
  {
  }

  lemma FeatureWords()
    ensures PlainWord("contributes") && PlainWord("to") && PlainWord("the") && ClosedWord("valuation.")
  {
  }

  /** The headline sentence is left whole whatever the address, if the address itself is a plain piece. */
  lemma EstimateIsWhole(address: string, v: Valuation)
    requires PlainPiece(address) && Money(v.estimate) && Money(v.low) && Money(v.high)
    ensures var s := EstimateSentence(address, v); SentenceLike(s) && Clean(s) == s && Normalised(s) == s
  {
    hide PlainPiece;
    hide PlainWord;
    hide ClosedWord;
    HeadlineWords();
    MoreHeadlineWords();
    DollarWord(v.estimate);
    WordIsPiece("Estimated");
    WordIsPiece("value");
    WordIsPiece("for");
    WordIsPiece("is");
    WordIsPiece("(range");
    WordIsPiece("$" + v.estimate);
    GluePieces("Estimated", "value");
    GluePieces("Estimated" + " " + "value", "for");
    var p := "Estimated" + " " + "value" + " " + "for";
    assert p == "Estimated value for";
    GluePieces(p, address);
    GluePieces(p + " " + address, "is");
    GluePieces(p + " " + address + " " + "is", "$" + v.estimate);
    var q := p + " " + address + " " + "is" + " " + ("$" + v.estimate);
    GluePieces(q, "(range");
    var last := "$" + v.low + "-$" + v.high + ").";
    RangeWord(v.low, v.high);
    assert q[0] == 'E';
    PieceThenLast(q + " " + "(range", last);
    EstimateShape(address, v);
  }

  lemma RangeWord(low: string, high: string)
    requires Money(low) && Money(high)
    ensures var last := "$" + low + "-$" + high + ").";
            ClosedWord(last) && |last| > 1 && last[|last| - 1] == '.' && last[|last| - 2] != '.'
  {
  }

  lemma EstimateShape(address: string, v: Valuation)
    ensures EstimateSentence(address, v) ==
            "Estimated value for" + " " + address + " " + "is" + " " + ("$" + v.estimate) + " " + "(range" + " "
            + ("$" + v.low + "-$" + v.high + ").")
  {
    assert "Estimated value for " == "Estimated value for" + " ";
    assert " is $" == " " + "is" + " " + "$";
    assert " (range $" == " " + "(range" + " " + "$";
  }

  /** So is every feature sentence. */
  lemma FeatureIsWhole(address: string, f: Feature)
    requires PlainPiece(address) && PlainPiece(f.description) && Money(f.contribution)
    requires f.description != "" && !IsSpace(f.description[0]) && f.description[0] != ','
    ensures var s := FeatureSentence(address, f); SentenceLike(s) && Clean(s) == s && Normalised(s) == s
  {
    hide PlainPiece;
    hide PlainWord;
    hide ClosedWord;
    FeatureWords();
    DollarWord(f.contribution);
    WordIsPiece("contributes");
    WordIsPiece("$" + f.contribution);
    WordIsPiece("to");
    WordIsPiece("the");
    var p := f.description + " " + "contributes";
    GluePieces(f.description, "contributes");
    GluePieces(p, "$" + f.contribution);
    GluePieces(p + " " + ("$" + f.contribution), "to");
    GluePieces(p + " " + ("$" + f.contribution) + " " + "to", "the");
    var q := p + " " + ("$" + f.contribution) + " " + "to" + " " + "the";
    GluePieces(q, address);
    assert (q + " " + address)[0] == f.description[0];
    PieceThenLast(q + " " + address, "valuation.");
    FeatureShape(address, f);
  }

  lemma FeatureShape(address: string, f: Feature)
    ensures FeatureSentence(address, f) ==
            f.description + " " + "contributes" + " " + ("$" + f.contribution) + " " + "to" + " " + "the" + " "
            + address
            + " " + "valuation."
  {
    assert " contributes $" == " " + "contributes" + " " + "$";
    assert " to the " == " " + "to" + " " + "the" + " ";
    assert " valuation." == " " + "valuation.";
  }
}
