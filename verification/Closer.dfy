/**
 * Drafting an offer under the authorized band, the unauthorized-practice boundary and the broker gate.
 * Money is exact reals; Python's `round(x, 2)` is kept. The claim texts and reasons are not modelled.
 */
module Closer {
  import opened Options
  import opened Reals
  import opened Text
  import opened Rebuild
  import opened Entailment
  import opened Critic
  import opened Confidence
  import opened Handoff

  const EARNEST_MONEY_RATE: real := 0.01
  const CLAUSE_PREFIX: string := "Please add a custom clause: "
  const CONFIRM_TEXT: string := "Confirm acceptance of this counter-offer amount."

  function Cents(k: int): real
  {
    k as real / 100.0
  }

  ghost predicate WholeCents(x: real)
  {
    exists k: int :: x == Cents(k)
  }

  datatype Band = Band(openPrice: real, ceiling: real)
  {
    predicate Allows(price: real)
    {
      openPrice <= price <= ceiling
    }
  }

  /** A band that passed its constructor's checks. */
  type AuthorizedBand = b: Band | b.openPrice > 0.0 && b.ceiling >= b.openPrice witness Band(1.0, 1.0)

  // ---- The promulgated form ----

  datatype Contingency = FINANCING | INSPECTION | APPRAISAL | TITLE_REVIEW | SURVEY | HOA_REVIEW

  /** The options the resale form enumerates. */
  const FORM_CONTINGENCIES: seq<Contingency> := [INSPECTION, APPRAISAL, TITLE_REVIEW, SURVEY, HOA_REVIEW]

  datatype Terms = Terms(
    sellerName: string, buyerName: string, propertyAddress: string, salesPrice: real, earnestMoney: real,
    effectiveDate: string, closingDate: string, selected: seq<Contingency>, customClause: Option<string>)

  datatype FilledForm = FilledForm(
    sellerName: string, buyerName: string, propertyAddress: string, salesPrice: real, earnestMoney: real,
    effectiveDate: string, closingDate: string, selected: seq<Contingency>)

  datatype FormError = UplClause(request: string) | UplContingency(c: Contingency) | BadFact(blank: string)

  function FirstBadFact(t: Terms): Option<string>
  {
    if Blank(t.sellerName) then Some("seller_name")
    else if Blank(t.buyerName) then Some("buyer_name")
    else if Blank(t.propertyAddress) then Some("property_address")
    else if t.salesPrice <= 0.0 then Some("sales_price")
    else if t.earnestMoney < 0.0 then Some("earnest_money")
    else if Blank(t.effectiveDate) then Some("effective_date")
    else if Blank(t.closingDate) then Some("closing_date")
    else None
  }

  /** First occurrences, in order. */
  function Distinct(cs: seq<Contingency>): seq<Contingency>
  {
    if cs == [] then []
    else
      var n := |cs| - 1;
      var before := Distinct(cs[..n]);
      if cs[n] in before then before else before + [cs[n]]
  }

  function FirstOutside(cs: seq<Contingency>): Option<Contingency>
  {
    if cs == [] then None
    else if cs[0] !in FORM_CONTINGENCIES then Some(cs[0])
    else FirstOutside(cs[1..])
  }

  /** `_validate_contingencies` */
  method ValidateContingencies(selected: seq<Contingency>) returns (out: Result<seq<Contingency>, FormError>)
    ensures FirstOutside(selected).Some? ==> out == Err(UplContingency(FirstOutside(selected).value))
    ensures FirstOutside(selected).None? ==> out == Ok(Distinct(selected))
  {
    var kept: seq<Contingency> := [];
    for i := 0 to |selected|
      invariant kept == Distinct(selected[..i])
      invariant FirstOutside(selected) == FirstOutside(selected[i..])
    {
      var c := selected[i];
      assert selected[i..][0] == c && selected[i..][1..] == selected[i + 1..];
      assert selected[..i + 1][..i] == selected[..i];
      if c !in FORM_CONTINGENCIES {
        return Err(UplContingency(c));
      }
      if c !in kept {
        kept := kept + [c];
      }
    }
    assert selected[..|selected|] == selected;
    return Ok(kept);
  }

  /** The kept selections are exactly the selected ones, each once. */
  lemma {:induction false} DistinctIsExact(cs: seq<Contingency>, c: Contingency)
    ensures c in Distinct(cs) <==> c in cs
    ensures forall i, j :: 0 <= i < j < |Distinct(cs)| ==> Distinct(cs)[i] != Distinct(cs)[j]
  {
    if cs == [] {
    } else {
      var n := |cs| - 1;
      DistinctIsExact(cs[..n], c);
      assert cs == cs[..n] + [cs[n]];
    }
  }

  /** `fill_trec_form` */
  function FillForm(t: Terms): Result<FilledForm, FormError>
  {
    if t.customClause.Some? && !Blank(t.customClause.value) then Err(UplClause(Trim(t.customClause.value)))
    else if FirstBadFact(t).Some? then Err(BadFact(FirstBadFact(t).value))
    else if FirstOutside(t.selected).Some? then Err(UplContingency(FirstOutside(t.selected).value))
    else Ok(FilledForm(Trim(t.sellerName), Trim(t.buyerName), Trim(t.propertyAddress), Round2(t.salesPrice),
                       Round2(t.earnestMoney), Trim(t.effectiveDate), Trim(t.closingDate), Distinct(t.selected)))
  }

  method FillTrecForm(t: Terms) returns (form: Result<FilledForm, FormError>)
    ensures form == FillForm(t)
  {
    hide Blank;
    hide Trim;
    hide Round2;
    if t.customClause.Some? && !Blank(t.customClause.value) {
      return Err(UplClause(Trim(t.customClause.value)));
    }
    var bad := FirstBadFact(t);
    if bad.Some? {
      return Err(BadFact(bad.value));
    }
    var selected := ValidateContingencies(t.selected);
    if selected.Err? {
      return Err(selected.error);
    }
    return Ok(FilledForm(Trim(t.sellerName), Trim(t.buyerName), Trim(t.propertyAddress), Round2(t.salesPrice),
                         Round2(t.earnestMoney), Trim(t.effectiveDate), Trim(t.closingDate), selected.value));
  }

  // ---- Drafting ----

  datatype Side = SellerSide | BuyerSide

  datatype OfferStatus = AwaitingBroker | Escalated

  datatype Offer = Offer(
    leadId: string, price: real, form: FilledForm, band: AuthorizedBand, status: OfferStatus, side: Side)

  class OfferSink {
    var offers: seq<Offer>

    constructor ()
      ensures offers == []
    {
      offers := [];
    }

    /** `FakeOfferSink.emit`; the source asserts that offers are never auto-signed. */
    method Emit(offer: Offer)
      requires offer.status.AwaitingBroker?
      modifies this
      ensures offers == old(offers) + [offer]
    {
      offers := offers + [offer];
    }
  }

  /** The arguments of `draft_offer`. */
  datatype Request = Request(
    address: string, citation: string, band: AuthorizedBand, leadId: string, sellerName: string,
    effectiveDate: string, closingDate: string, price: Option<real>, customClause: Option<string>,
    transcript: string, completedSteps: seq<string>)

  datatype CloseResult =
    | Drafted(offer: Offer)
    | UplEscalation(decision: Decision)
    | OutOfBand(decision: Decision)
    | Raised(blank: string)

  /** The result, the emitted offers and the pushed packets of one draft. */
  datatype Draft = Draft(result: CloseResult, offers: seq<Offer>, packets: seq<Packet>)

  function OfferPrice(q: Request): real
  {
    if q.price.None? then q.band.openPrice else Round2(q.price.value)
  }

  function TermsOf(buyerName: string, q: Request): Terms
  {
    Terms(q.sellerName, buyerName, q.address, OfferPrice(q), Round2(OfferPrice(q) * EARNEST_MONEY_RATE),
          q.effectiveDate, q.closingDate, [], q.customClause)
  }

  /** `_grounded_offer_result`: one cited, entailed claim of score 0.95. */
  function GroundedOffer(citation: string): Verification
  {
    var claim := "Cash offer is anchored to a cited AVM valuation.";
    Verification(true, false, 0.95, AllEntailed,
                 [ClaimVerdict(0, claim, ENTAILED, 0.95, Some(citation), Some("valuation"))], Some(claim))
  }

  function OfferCase(q: Request, text: string, action: Action, band: Option<real>): Case
  {
    Case(q.leadId, GroundedOffer(q.citation), None, text, q.transcript, Some(OfferPrice(q)), q.completedSteps,
         Some(action), None, false, DEFAULT_CONFIDENCE_THRESHOLD, band)
  }

  /** The case of a custom-clause request: the dollar band is infinite. */
  function ClauseCase(q: Request, request: string): Case
  {
    OfferCase(q, CLAUSE_PREFIX + request, AdviseOnClause, None)
  }

  /** The case of an out-of-band price: the dollar band is one cent above the ceiling. */
  function CounterCase(q: Request): Case
  {
    OfferCase(q, CONFIRM_TEXT, AuthorizeCounter(OfferPrice(q), q.band.ceiling), Some(Round2(q.band.ceiling + 0.01)))
  }

  /** What `draft_offer` does. */
  function DraftSpec(det: Detectors, buyerName: string, side: Side, q: Request): Draft
  {
    var form := FillForm(TermsOf(buyerName, q));
    if form.Err? && form.error.BadFact? then Draft(Raised(form.error.blank), [], [])
    else if form.Err? then
      var request := if form.error.UplClause? then form.error.request else "";
      var d := Decide(det, ClauseCase(q, request));
      Draft(UplEscalation(d), [], PacketsOf(d))
    else if !q.band.Allows(OfferPrice(q)) then
      var d := Decide(det, CounterCase(q));
      Draft(OutOfBand(d), [], PacketsOf(d))
    else
      var offer := Offer(q.leadId, OfferPrice(q), form.value, q.band, AwaitingBroker, side);
      Draft(Drafted(offer), [offer], [])
  }

  class Closer {
    const detectors: Detectors
    const offerSink: OfferSink
    const handoffSink: HandoffSink
    const buyerName: string
    const side: Side

    constructor (detectors: Detectors, offerSink: OfferSink, handoffSink: HandoffSink, buyerName: string, side: Side)
      ensures this.detectors == detectors && this.offerSink == offerSink && this.handoffSink == handoffSink
      ensures this.buyerName == buyerName && this.side == side
    {
      this.detectors, this.offerSink, this.handoffSink := detectors, offerSink, handoffSink;
      this.buyerName, this.side := buyerName, side;
    }

    /** `draft_offer` */
    method DraftOffer(q: Request) returns (result: CloseResult)
      modifies offerSink, handoffSink
      ensures var d := DraftSpec(detectors, buyerName, side, q);
              && result == d.result
              && offerSink.offers == old(offerSink.offers) + d.offers
              && handoffSink.packets == old(handoffSink.packets) + d.packets
    {
      hide FillForm;
      hide Decide;
      hide Round2;
      var form := FillTrecForm(TermsOf(buyerName, q));
      if form.Err? {
        if form.error.BadFact? {
          return Raised(form.error.blank);
        }
        var request := if form.error.UplClause? then form.error.request else "";
        var clause, _ := DecideInto(detectors, ClauseCase(q, request), handoffSink);
        return UplEscalation(clause);
      }
      if !q.band.Allows(OfferPrice(q)) {
        var counter, _ := DecideInto(detectors, CounterCase(q), handoffSink);
        return OutOfBand(counter);
      }
      var offer := Offer(q.leadId, OfferPrice(q), form.value, q.band, AwaitingBroker, side);
      offerSink.Emit(offer);
      return Drafted(offer);
    }
  }

  // ---- What every draft keeps ----

  /** What the text detectors do on the two texts the Closer builds. */
  ghost predicate DetectorsFit(det: Detectors)
  {
    && (forall s :: det.legalUpl(CLAUSE_PREFIX + s))
    && !det.legalUpl(CONFIRM_TEXT) && !det.humanRequest(CONFIRM_TEXT) && !det.hostile(CONFIRM_TEXT)
  }

  /** The grounded result is never escalated on its score. */
  lemma GroundedScore(citation: string)
    ensures Composite(GroundedOffer(citation), None, false).score == 0.815
  {
    var r := GroundedOffer(citation);
    assert r.claims[1..] == [];
    assert SumScores(r.claims) == 0.95;
    assert MeanScore(r.claims) == 0.95;
    assert CountTag(r.claims, ENTAILED) == 1;
    assert CountCited(r.claims) == 1;
    assert RetrievalCoverage(r) == 1.0;
    assert CriticAgreement(r) == 0.975;
    RoundKeepsGrid(0.815, 8150);
  }

  /** A custom-clause request never yields a form: no offer, and exactly one hard legal packet. */
  lemma CustomClausePushesOnePacket(det: Detectors, buyerName: string, side: Side, q: Request)
    requires DetectorsFit(det) && q.customClause.Some? && !Blank(q.customClause.value)
    ensures var d := DraftSpec(det, buyerName, side, q);
            && d.result.UplEscalation? && d.offers == []
            && |d.packets| == 1 && d.packets[0].hardTrigger && d.packets[0].trigger == LEGAL_UPL
  {
    hide Blank;
    hide Composite;
    var request := Trim(q.customClause.value);
    hide Trim;
    assert det.legalUpl(CLAUSE_PREFIX + request);
  }

  /** Everything but the price and the band is in order. */
  predicate OtherwiseValid(buyerName: string, q: Request)
  {
    FillForm(TermsOf(buyerName, q)).Ok?
  }

  /**
   * An otherwise valid price outside the band emits no offer; a packet is pushed exactly when the price
   * reaches the ceiling plus one cent, rounded to cents, and it is then a hard high-dollar packet.
   */
  lemma OutOfBandPacketIff(det: Detectors, buyerName: string, side: Side, q: Request)
    requires DetectorsFit(det) && OtherwiseValid(buyerName, q) && !q.band.Allows(OfferPrice(q))
    ensures var d := DraftSpec(det, buyerName, side, q);
            && d.result.OutOfBand? && d.offers == []
            && (if OfferPrice(q) >= Round2(q.band.ceiling + 0.01)
                then |d.packets| == 1 && d.packets[0].hardTrigger && d.packets[0].trigger == HIGH_DOLLAR
                else d.packets == [])
  {
    hide FillForm;
    hide Composite;
    hide Round2;
    GroundedScore(q.citation);
    EscalatesIff(det, CounterCase(q));
  }

  lemma WholeRounds(n: int)
    ensures RoundHalfEven(n as real) == n
  {
  }

  lemma NextCent(n: int)
    ensures Round2(Cents(n) + 0.01) == Cents(n + 1)
  {
    var x := (Cents(n) + 0.01) * 100.0;
    assert x == (n + 1) as real;
    WholeRounds(n + 1);
    hide RoundHalfEven;
  }

  lemma CentsOrder(k: int, n: int)
    requires k <= n
    ensures Cents(k) <= Cents(n)
  {
    assert k as real <= n as real;
  }

  lemma CentsGrow(n: int)
    ensures Cents(n) < Cents(n + 1)
  {
    assert (n + 1) as real == n as real + 1.0;
  }

  lemma CentsAbove(price: real, ceiling: real)
    requires WholeCents(price) && WholeCents(ceiling)
    ensures price >= Round2(ceiling + 0.01) <==> price > ceiling
  {
    hide Cents;
    hide Round2;
    var k: int :| price == Cents(k);
    var n: int :| ceiling == Cents(n);
    NextCent(n);
    CentsGrow(n);
    if k <= n {
      CentsOrder(k, n);
    } else {
      CentsOrder(n + 1, k);
    }
  }

  /** With a whole-cent ceiling every explicit price above it pushes exactly one hard packet and emits nothing. */
  lemma AboveCeilingPushesOnePacket(det: Detectors, buyerName: string, side: Side, q: Request)
    requires DetectorsFit(det) && OtherwiseValid(buyerName, q) && WholeCents(q.band.ceiling)
    requires q.price.Some? && OfferPrice(q) > q.band.ceiling
    ensures var d := DraftSpec(det, buyerName, side, q);
            d.offers == [] && |d.packets| == 1 && d.packets[0].hardTrigger && d.packets[0].trigger == HIGH_DOLLAR
  {
    hide FillForm;
    hide DraftSpec;
    var price := OfferPrice(q);
    assert WholeCents(price) by {
      assert price == Cents(RoundHalfEven(q.price.value * 100.0));
    }
    CentsAbove(price, q.band.ceiling);
    OutOfBandPacketIff(det, buyerName, side, q);
  }

  /** A price below the opening price is reported as escalated, but no human is told: no packet is pushed. */
  lemma BelowOpenPushesNothing(det: Detectors, buyerName: string, side: Side, q: Request)
    requires DetectorsFit(det) && OtherwiseValid(buyerName, q) && OfferPrice(q) < q.band.openPrice
    ensures var d := DraftSpec(det, buyerName, side, q); d.result.OutOfBand? && d.offers == [] && d.packets == []
  {
    hide FillForm;
    hide DraftSpec;
    var r := Round2(q.band.ceiling + 0.01);
    assert r >= q.band.ceiling + 0.005;
    hide Round2;
    OutOfBandPacketIff(det, buyerName, side, q);
  }

  /** Above a ceiling that is not in whole cents, a price under the rounded ceiling plus one cent goes unreported. */
  lemma OddCeilingPushesNothing(det: Detectors, buyerName: string, side: Side, q: Request)
    requires DetectorsFit(det) && OtherwiseValid(buyerName, q)
    requires q.band.ceiling < OfferPrice(q) < Round2(q.band.ceiling + 0.01)
    ensures var d := DraftSpec(det, buyerName, side, q); d.result.OutOfBand? && d.offers == [] && d.packets == []
  {
    hide FillForm;
    hide DraftSpec;
    hide Round2;
    OutOfBandPacketIff(det, buyerName, side, q);
  }

  /** Whatever the request: at most one offer or one packet, never both, and every offer is in its band. */
  lemma DraftIsExclusive(det: Detectors, buyerName: string, side: Side, q: Request)
    ensures var d := DraftSpec(det, buyerName, side, q);
            && |d.offers| + |d.packets| <= 1
            && (d.result.Drafted? <==> |d.offers| == 1)
            && (d.result.Drafted? ==>
                  && d.offers == [d.result.offer]
                  && d.result.offer.band == q.band && q.band.Allows(d.result.offer.price)
                  && d.result.offer.side == side && d.result.offer.status.AwaitingBroker?
                  && d.result.offer.form.propertyAddress == Trim(q.address) && !Blank(q.address))
  {
    hide Decide;
    hide Blank;
    hide Trim;
    hide Round2;
    hide FirstOutside;
  }

  // ---- What a drafted offer says ----

  /** The blanks of the form are the request's, trimmed; the price is the one asked for, else the opening price. */
  predicate SaysWhatWasAsked(o: Offer, buyerName: string, q: Request)
  {
    && o.leadId == q.leadId
    && (q.price.None? ==> o.price == q.band.openPrice)
    && (q.price.Some? ==> -0.005 <= o.price - q.price.value <= 0.005)
    && -0.005 <= o.form.salesPrice - o.price <= 0.005
    && -0.005 <= o.form.earnestMoney - o.price / 100.0 <= 0.005
    && o.form.sellerName == Trim(q.sellerName) && o.form.buyerName == Trim(buyerName)
    && o.form.propertyAddress == Trim(q.address)
    && o.form.effectiveDate == Trim(q.effectiveDate) && o.form.closingDate == Trim(q.closingDate)
    && o.form.selected == []
  }

  lemma Round2KeepsCents(n: int)
    ensures Round2(Cents(n)) == Cents(n)
  {
    assert Cents(n) * 100.0 == n as real;
    WholeRounds(n);
    hide RoundHalfEven;
  }

  /** Earnest money is rounded once when it is computed and once, without effect, on the form. */
  lemma EarnestIs(price: real)
    ensures -0.005 <= Round2(Round2(price * EARNEST_MONEY_RATE)) - price / 100.0 <= 0.005
    ensures Round2(Round2(price)) == Round2(price)
  {
    Round2KeepsCents(RoundHalfEven(price * EARNEST_MONEY_RATE * 100.0));
    Round2KeepsCents(RoundHalfEven(price * 100.0));
    assert Round2(price * EARNEST_MONEY_RATE) == Cents(RoundHalfEven(price * EARNEST_MONEY_RATE * 100.0));
    assert Round2(price) == Cents(RoundHalfEven(price * 100.0));
  }

  lemma FilledIs(t: Terms)
    requires FillForm(t).Ok?
    ensures var f := FillForm(t).value;
            && f.sellerName == Trim(t.sellerName) && f.buyerName == Trim(t.buyerName)
            && f.propertyAddress == Trim(t.propertyAddress)
            && f.effectiveDate == Trim(t.effectiveDate) && f.closingDate == Trim(t.closingDate)
            && f.salesPrice == Round2(t.salesPrice) && f.earnestMoney == Round2(t.earnestMoney)
            && f.selected == Distinct(t.selected)
  {
    hide Trim;
    hide Blank;
    hide Round2;
    hide Distinct;
    hide FirstOutside;
    hide FirstBadFact;
  }

  lemma DraftedIs(det: Detectors, buyerName: string, side: Side, q: Request)
    requires DraftSpec(det, buyerName, side, q).result.Drafted?
    ensures FillForm(TermsOf(buyerName, q)).Ok?
    ensures DraftSpec(det, buyerName, side, q).result.offer ==
            Offer(q.leadId, OfferPrice(q), FillForm(TermsOf(buyerName, q)).value, q.band, AwaitingBroker, side)
  {
    hide FillForm;
    hide Decide;
    hide OfferPrice;
  }

  lemma TermsAre(buyerName: string, q: Request)
    ensures var t := TermsOf(buyerName, q);
            && t.sellerName == q.sellerName && t.buyerName == buyerName && t.propertyAddress == q.address
            && t.effectiveDate == q.effectiveDate && t.closingDate == q.closingDate
            && t.salesPrice == OfferPrice(q) && t.earnestMoney == Round2(OfferPrice(q) * EARNEST_MONEY_RATE)
            && Distinct(t.selected) == []
  {
    hide Round2;
    hide OfferPrice;
  }

  lemma PriceIs(q: Request)
    ensures var x := OfferPrice(q);
            && (q.price.None? ==> x == q.band.openPrice)
            && (q.price.Some? ==> -0.005 <= x - q.price.value <= 0.005 && WholeCents(x) && Round2(x) == x)
            && -0.005 <= Round2(x) - x <= 0.005
  {
    if q.price.Some? {
      EarnestIs(q.price.value);
      assert Round2(q.price.value) == Cents(RoundHalfEven(q.price.value * 100.0));
    }
    hide Round2;
    hide Cents;
  }

  lemma SaysWhatFormSays(o: Offer, buyerName: string, q: Request)
    requires o.leadId == q.leadId && o.price == OfferPrice(q)
    requires o.form.salesPrice == Round2(OfferPrice(q))
    requires o.form.earnestMoney == Round2(Round2(OfferPrice(q) * EARNEST_MONEY_RATE))
    requires o.form.sellerName == Trim(q.sellerName) && o.form.buyerName == Trim(buyerName)
    requires o.form.propertyAddress == Trim(q.address) && o.form.selected == []
    requires o.form.effectiveDate == Trim(q.effectiveDate) && o.form.closingDate == Trim(q.closingDate)
    ensures SaysWhatWasAsked(o, buyerName, q)
    ensures q.price.Some? ==> WholeCents(o.price) && o.form.salesPrice == o.price
  {
    PriceIs(q);
    EarnestIs(o.price);
    hide Round2;
    hide WholeCents;
    hide OfferPrice;
    hide Trim;
  }

  /** A drafted offer says what was asked, and an explicit price is whole cents, the same on the form. */
  lemma DraftSaysWhatWasAsked(det: Detectors, buyerName: string, side: Side, q: Request)
    requires DraftSpec(det, buyerName, side, q).result.Drafted?
    ensures var o := DraftSpec(det, buyerName, side, q).result.offer;
            SaysWhatWasAsked(o, buyerName, q)
            && (q.price.Some? ==> WholeCents(o.price) && o.form.salesPrice == o.price)
  {
    hide *;
    DraftedIs(det, buyerName, side, q);
    FilledIs(TermsOf(buyerName, q));
    TermsAre(buyerName, q);
    SaysWhatFormSays(DraftSpec(det, buyerName, side, q).result.offer, buyerName, q);
  }

  // ---- What a packet of the Closer says ----

  /** The synthetic verification of an offer is what the gate gives its one claim at any floor up to 0.95. */
  lemma GroundedIsGated(citation: string, floor: real)
    requires floor <= 0.95
    ensures var r := GroundedOffer(citation);
            && Gate(floor, r.claims) == r
            && |r.claims| == 1 && r.claims[0].index == 0 && r.claims[0].citation == Some(citation)
  {
    var r := GroundedOffer(citation);
    var claim := r.claims[0].claim;
    assert r.claims[1..] == [];
    assert SumScores(r.claims) == 0.95 && MeanScore(r.claims) == 0.95;
    assert CountTag(r.claims, CONTRADICTED) == 0 && CountTag(r.claims, BASELESS) == 0;
    assert SupportedTexts(r.claims) == [claim];
    RoundKeepsGrid(0.95, 9500);
    OneClaimRebuilt(claim);
    hide RebuildMessage;
    hide SupportedTexts;
    hide MeanScore;
    hide Round4;
  }

  /** A claim with one final full stop is rebuilt as it stands. */
  lemma OneClaimRebuilt(claim: string)
    requires |claim| >= 2 && claim[|claim| - 1] == '.' && claim[|claim| - 2] != '.'
    ensures RebuildMessage([claim]) == claim
  {
    var body := claim[..|claim| - 1];
    assert claim == body + ".";
    RebuildIsJoin([claim]);
  }

  /**
   * A form is filled exactly when no clause is asked for, every blank holds text, the price is positive, the earnest
   * money is not negative and no contingency but the offered ones is selected.
   */
  lemma FilledIff(t: Terms)
    ensures FillForm(t).Ok? <==>
            && (t.customClause.None? || Blank(t.customClause.value))
            && !Blank(t.sellerName) && !Blank(t.buyerName) && !Blank(t.propertyAddress)
            && t.salesPrice > 0.0 && t.earnestMoney >= 0.0
            && !Blank(t.effectiveDate) && !Blank(t.closingDate)
            && FINANCING !in t.selected
    ensures FillForm(t).Err? && FillForm(t).error.UplContingency? ==> FillForm(t).error.c == FINANCING
  {
    hide Blank;
    hide Trim;
    hide Round2;
    hide Distinct;
    OutsideIsFinancing(t.selected);
    hide FirstOutside;
  }

  lemma OnForm(c: Contingency)
    ensures c in FORM_CONTINGENCIES <==> c != FINANCING
  {
    var form := FORM_CONTINGENCIES;
    assert form[0] == INSPECTION && form[1] == APPRAISAL && form[2] == TITLE_REVIEW && form[3] == SURVEY;
    assert form[4] == HOA_REVIEW;
  }

  /** The only selection the form does not offer is financing. */
  lemma {:induction false} OutsideIsFinancing(cs: seq<Contingency>)
    ensures FirstOutside(cs) == if FINANCING in cs then Some(FINANCING) else None
  {
    if cs == [] {
    } else {
      OnForm(cs[0]);
      OutsideIsFinancing(cs[1..]);
      assert cs == [cs[0]] + cs[1..];
    }
  }

  lemma GroundedCitations(citation: string)
    ensures CitationsOf(GroundedOffer(citation).claims) == [citation]
  {
    var claims := GroundedOffer(citation).claims;
    assert claims[..0] == [] && CitationsOf([]) == [];
  }

  /** What the packet of a decision copies from the case of an offer. */
  lemma OfferPacketIs(det: Detectors, q: Request, text: string, action: Action, band: Option<real>)
    ensures var d := Decide(det, OfferCase(q, text, action, band));
            d.packet.Some? ==>
              var p := d.packet.value;
              && p.leadId == q.leadId && p.transcript == q.transcript && p.completedSteps == q.completedSteps
              && p.recommended == action && p.retrievedEvidence == [q.citation] && p.confidence == 0.815
  {
    GroundedCitations(q.citation);
    GroundedScore(q.citation);
    hide Composite;
    hide CitationsOf;
    hide GroundedOffer;
    hide FirstTrigger;
    hide OfferPrice;
  }

  lemma CasesAre(q: Request, request: string)
    ensures ClauseCase(q, request) == OfferCase(q, CLAUSE_PREFIX + request, AdviseOnClause, None)
    ensures CounterCase(q) == OfferCase(q, CONFIRM_TEXT, AuthorizeCounter(OfferPrice(q), q.band.ceiling),
                                        Some(Round2(q.band.ceiling + 0.01)))
  {
    hide OfferCase;
    hide Round2;
    hide OfferPrice;
  }

  lemma PacketFromCase(det: Detectors, buyerName: string, side: Side, q: Request, p: Packet)
    requires DraftSpec(det, buyerName, side, q).packets == [p]
    ensures var r := DraftSpec(det, buyerName, side, q).result;
            && (r.UplEscalation? || r.OutOfBand?)
            && r.decision.packet == Some(p)
            && (r.UplEscalation? ==> exists request :: r.decision == Decide(det, ClauseCase(q, request)))
            && (r.OutOfBand? ==> r.decision == Decide(det, CounterCase(q)) && !q.band.Allows(OfferPrice(q)))
            && (r.OutOfBand? ==> OtherwiseValid(buyerName, q))
  {
    hide FillForm;
    hide Decide;
    hide OfferPrice;
    hide ClauseCase;
    hide CounterCase;
    hide Band.Allows;
    var form := FillForm(TermsOf(buyerName, q));
    if form.Err? && !form.error.BadFact? {
      var request := if form.error.UplClause? then form.error.request else "";
      assert DraftSpec(det, buyerName, side, q).result == UplEscalation(Decide(det, ClauseCase(q, request)));
    }
  }

  lemma CounterIsAbove(det: Detectors, buyerName: string, side: Side, q: Request)
    requires DetectorsFit(det) && OtherwiseValid(buyerName, q) && !q.band.Allows(OfferPrice(q))
    requires DraftSpec(det, buyerName, side, q).packets != []
    ensures OfferPrice(q) > q.band.ceiling
  {
    OutOfBandPacketIff(det, buyerName, side, q);
    RoundsUp(q.band.ceiling);
    hide *;
  }

  lemma RoundsUp(ceiling: real)
    ensures Round2(ceiling + 0.01) > ceiling
  {
  }

  /**
   * A packet of the Closer is for the lead, with the transcript, steps and citation of the request; it asks a broker
   * to authorize the price, which is above the ceiling it names, or to advise on the clause.
   */
  lemma PacketSaysWhatWasAsked(det: Detectors, buyerName: string, side: Side, q: Request, p: Packet)
    requires DetectorsFit(det) && DraftSpec(det, buyerName, side, q).packets == [p]
    ensures p.leadId == q.leadId && p.transcript == q.transcript && p.completedSteps == q.completedSteps
    ensures p.retrievedEvidence == [q.citation] && p.confidence == 0.815
    ensures DraftSpec(det, buyerName, side, q).result.UplEscalation? ==> p.recommended == AdviseOnClause
    ensures DraftSpec(det, buyerName, side, q).result.OutOfBand? ==>
              p.recommended == AuthorizeCounter(OfferPrice(q), q.band.ceiling) && OfferPrice(q) > q.band.ceiling
  {
    hide *;
    PacketFromCase(det, buyerName, side, q, p);
    var r := DraftSpec(det, buyerName, side, q).result;
    if r.UplEscalation? {
      var request :| r.decision == Decide(det, ClauseCase(q, request));
      CasesAre(q, request);
      OfferPacketIs(det, q, CLAUSE_PREFIX + request, AdviseOnClause, None);
    } else {
      CounterIsAbove(det, buyerName, side, q);
      CasesAre(q, "");
      OfferPacketIs(det, q, CONFIRM_TEXT, AuthorizeCounter(OfferPrice(q), q.band.ceiling),
                    Some(Round2(q.band.ceiling + 0.01)));
    }
  }
}
