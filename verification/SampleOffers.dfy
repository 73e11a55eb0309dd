/** Concrete drafts: a reported counter-offer, and the two kinds of price that no human is told about. */
module SampleOffers {
  import opened Options
  import opened Reals
  import opened Text
  import opened Handoff
  import opened Closer
  import opened Samples

  /** An otherwise valid request at `price` under the band. */
  function At(band: AuthorizedBand, price: real): Request
  {
    Request("Oak", "valuation", band, "lead", "Ann", "today", "tomorrow", Some(price), None, "", [])
  }

  lemma AtIsValid(band: AuthorizedBand, price: real)
    requires Round2(price) > 0.0
    ensures OtherwiseValid("Bob", At(band, price)) && OfferPrice(At(band, price)) == Round2(price)
  {
    WordsAreNotBlank();
    hide Blank;
    hide Trim;
    RateKeepsSign(Round2(price));
    hide Round2;
  }

  lemma RateKeepsSign(x: real)
    requires x > 0.0
    ensures Round2(x * EARNEST_MONEY_RATE) >= 0.0
  {
    assert x * EARNEST_MONEY_RATE * 100.0 > 0.0;
  }

  /** Two units above the ceiling: one packet. */
  lemma CounterIsReported()
    ensures DetectorsFit(QUIET)
    ensures var d := DraftSpec(QUIET, "Bob", SellerSide, At(Band(1.0, 1.0), 2.0));
            d.offers == [] && |d.packets| == 1 && d.packets[0].trigger == HIGH_DOLLAR
  {
    QuietFits();
    assert Round2(2.0) == 2.0 && Round2(1.0 + 0.01) == 1.01;
    AtIsValid(Band(1.0, 1.0), 2.0);
    hide *;
    CounterShape(Band(1.0, 1.0), 2.0);
    OutOfBandPacketIff(QUIET, "Bob", SellerSide, At(Band(1.0, 1.0), 2.0));
  }

  lemma CounterShape(band: AuthorizedBand, price: real)
    ensures At(band, price).band == band
    ensures band.Allows(price) <==> band.openPrice <= price <= band.ceiling
  {
  }

  /** Above a ceiling that is not in whole cents: reported as out of band, and no packet. */
  lemma OddCeilingExample()
    ensures var d := DraftSpec(QUIET, "Bob", SellerSide, At(Band(1.0, 100.006), 100.01));
            d.result.OutOfBand? && d.offers == [] && d.packets == []
  {
    QuietFits();
    assert Round2(100.01) == 100.01 && Round2(100.006 + 0.01) == 100.02;
    AtIsValid(Band(1.0, 100.006), 100.01);
    hide *;
    CounterShape(Band(1.0, 100.006), 100.01);
    OddCeilingPushesNothing(QUIET, "Bob", SellerSide, At(Band(1.0, 100.006), 100.01));
  }

  /** Below the opening price: reported as out of band, and no packet. */
  lemma BelowOpenExample()
    ensures var d := DraftSpec(QUIET, "Bob", SellerSide, At(Band(2.0, 3.0), 1.0));
            d.result.OutOfBand? && d.offers == [] && d.packets == []
  {
    QuietFits();
    assert Round2(1.0) == 1.0;
    AtIsValid(Band(2.0, 3.0), 1.0);
    hide *;
    CounterShape(Band(2.0, 3.0), 1.0);
    BelowOpenPushesNothing(QUIET, "Bob", SellerSide, At(Band(2.0, 3.0), 1.0));
  }

  lemma ClauseTextFires(s: string)
    ensures QUIET.legalUpl(CLAUSE_PREFIX + s)
  {
    assert CLAUSE_PREFIX[27] == ' ';
  }

  lemma CounterTextIsQuiet()
    ensures CONFIRM_TEXT[27] == 'c'
  {
  }

  lemma QuietFits()
    ensures DetectorsFit(QUIET)
  {
    forall s: string
      ensures QUIET.legalUpl(CLAUSE_PREFIX + s)
    {
      ClauseTextFires(s);
    }
    CounterTextIsQuiet();
  }

  lemma WordsAreNotBlank()
    ensures !Blank("Oak") && !Blank("Ann") && !Blank("Bob") && !Blank("today") && !Blank("tomorrow")
  {
    hide Strip;
    StripIdentity("Oak", WHITESPACE);
    StripIdentity("Ann", WHITESPACE);
    StripIdentity("Bob", WHITESPACE);
    StripIdentity("today", WHITESPACE);
    StripIdentity("tomorrow", WHITESPACE);
  }
}
