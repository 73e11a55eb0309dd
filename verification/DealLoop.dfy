/** One property driven from acquisition to resale through the two drafting sides. */
module DealLoop {
  import opened Options
  import opened Reals
  import opened Text
  import opened Handoff
  import opened Closer
  import opened BuyerOffer

  datatype Status = Acquired | Listed | UnderOffer | Sold

  const LIFECYCLE: seq<Status> := [Acquired, Listed, UnderOffer, Sold]

  function Next(s: Status): Option<Status>
  {
    match s
    case Acquired => Some(Listed)
    case Listed => Some(UnderOffer)
    case UnderOffer => Some(Sold)
    case Sold => None
  }

  /** The mutable part of a property. */
  datatype Position = Position(status: Status, history: seq<Status>)

  const ENTRY: Position := Position(Acquired, [Acquired])

  /** One call of a transition: refused moves change nothing. */
  function Advanced(p: Position, target: Status): Position
  {
    if Next(p.status) == Some(target) then Position(target, p.history + [target]) else p
  }

  function AdvancedBy(p: Position, targets: seq<Status>): Position
    decreases |targets|
  {
    if targets == [] then p else AdvancedBy(Advanced(p, targets[0]), targets[1..])
  }

  /** The history is the part of the lifecycle that ends in the status. */
  predicate OnPath(p: Position)
  {
    && 0 < |p.history| <= |LIFECYCLE|
    && p.history == LIFECYCLE[..|p.history|]
    && p.status == LIFECYCLE[|p.history| - 1]
  }

  class PropertyState {
    const propertyId: string
    const address: string
    var status: Status
    var history: seq<Status>

    function Now(): Position
      reads this
    {
      Position(status, history)
    }

    constructor (propertyId: string, address: string)
      requires !Blank(propertyId) && !Blank(address)
      ensures this.propertyId == propertyId && this.address == address && Now() == ENTRY
    {
      this.propertyId, this.address := propertyId, address;
      status := Acquired;
      history := [Acquired];
    }

    /** `_advance_to`; `legal` is false where the source raises. */
    method Advance(target: Status) returns (legal: bool)
      modifies this
      ensures legal <==> Next(old(status)) == Some(target)
      ensures Now() == Advanced(old(Now()), target)
    {
      if Next(status) != Some(target) {
        return false;
      }
      status := target;
      history := history + [target];
      return true;
    }
  }

  lemma AdvanceStaysOnPath(p: Position, target: Status)
    requires OnPath(p)
    ensures OnPath(Advanced(p, target))
  {
    assert forall k :: 0 < k < |LIFECYCLE| ==> LIFECYCLE[..k] + [LIFECYCLE[k]] == LIFECYCLE[..k + 1];
  }

  lemma FullAdvance()
    ensures Advanced(Advanced(Advanced(ENTRY, Listed), UnderOffer), Sold) == Position(Sold, LIFECYCLE)
    ensures AdvancedBy(ENTRY, [Listed, UnderOffer, Sold]) == Position(Sold, LIFECYCLE)
  {
    var a, b, c := [Listed, UnderOffer, Sold], [UnderOffer, Sold], [Sold];
    assert a[1..] == b && b[1..] == c && c[1..] == [];
    var p := Advanced(Advanced(ENTRY, Listed), UnderOffer);
    assert AdvancedBy(p, c) == AdvancedBy(Advanced(p, Sold), []);
    assert AdvancedBy(Advanced(ENTRY, Listed), b) == AdvancedBy(p, c);
    assert AdvancedBy(ENTRY, a) == AdvancedBy(Advanced(ENTRY, Listed), b);
  }

  /** Whatever transitions are called, in whatever order, the history stays a prefix of the one lifecycle. */
  lemma {:induction false} HistoryIsPrefix(p: Position, targets: seq<Status>)
    requires OnPath(p)
    ensures OnPath(AdvancedBy(p, targets))
    ensures AdvancedBy(p, targets).status.Sold? <==> AdvancedBy(p, targets).history == LIFECYCLE
    decreases |targets|
  {
    if targets == [] {
    } else {
      AdvanceStaysOnPath(p, targets[0]);
      HistoryIsPrefix(Advanced(p, targets[0]), targets[1..]);
    }
  }

  /** The arguments of `run_loop`; `matched` says whether the buyer's criteria match the listed property. */
  datatype Deal = Deal(
    propertyId: string, address: string, leadId: string, sellerName: string, resaleSellerName: Option<string>,
    acquisitionBuyer: string, resaleBuyer: string, effectiveDate: string, closingDate: string,
    acquisitionBand: AuthorizedBand, acquisitionPrice: Option<real>, acquisitionCitation: string,
    resaleBand: AuthorizedBand, resalePrice: Option<real>, resaleCitation: string, resaleClause: Option<string>,
    matched: bool, now: int)
  {
    function Acquisition(): Request
    {
      Request(address, acquisitionCitation, acquisitionBand, leadId, sellerName, effectiveDate, closingDate,
              acquisitionPrice, None, "", [])
    }

    function ResaleSeller(): string
    {
      if resaleSellerName.Some? && resaleSellerName.value != "" then resaleSellerName.value else sellerName
    }

    function Resale(): Request
    {
      Request(address, resaleCitation, resaleBand, leadId, ResaleSeller(), effectiveDate, closingDate,
              resalePrice, resaleClause, "", [])
    }
  }

  datatype LoopError =
    | NotAcquired(acquisition: CloseResult)
    | BlankPropertyId
    | NoMatch
    | NotResold(resale: CloseResult)

  datatype LoopResult = LoopResult(final: Position, acquisition: CloseResult, resale: CloseResult,
                                   draftedAt: Option<int>)

  datatype LoopRun = LoopRun(outcome: Result<LoopResult, LoopError>, offers: seq<Offer>, packets: seq<Packet>)

  /** What `run_loop` returns, emits and pushes. */
  function RunSpec(det: Detectors, d: Deal): LoopRun
  {
    var a := DraftSpec(det, d.acquisitionBuyer, SellerSide, d.Acquisition());
    if !a.result.Drafted? then LoopRun(Err(NotAcquired(a.result)), a.offers, a.packets)
    else if Blank(d.propertyId) then LoopRun(Err(BlankPropertyId), a.offers, a.packets)
    else if !d.matched then LoopRun(Err(NoMatch), a.offers, a.packets)
    else
      var b := BuyerSpec(det, d.resaleBuyer, d.Resale(), d.now);
      LoopRun(if b.draft.result.Drafted?
              then Ok(LoopResult(AdvancedBy(ENTRY, [Listed, UnderOffer, Sold]), a.result, b.draft.result, b.draftedAt))
              else Err(NotResold(b.draft.result)),
              a.offers + b.draft.offers, a.packets + b.draft.packets)
  }

  lemma AcquiredHasAddress(det: Detectors, d: Deal)
    ensures DraftSpec(det, d.acquisitionBuyer, SellerSide, d.Acquisition()).result.Drafted? ==> !Blank(d.address)
  {
    DraftIsExclusive(det, d.acquisitionBuyer, SellerSide, d.Acquisition());
    hide DraftSpec;
    hide Blank;
  }

  class PropertyLoop {
    const detectors: Detectors
    const offerSink: OfferSink
    const handoffSink: HandoffSink

    constructor (detectors: Detectors, offerSink: OfferSink, handoffSink: HandoffSink)
      ensures this.detectors == detectors && this.offerSink == offerSink && this.handoffSink == handoffSink
    {
      this.detectors, this.offerSink, this.handoffSink := detectors, offerSink, handoffSink;
    }

    /** `run_loop`; none of its transitions is ever refused. */
    method RunLoop(d: Deal) returns (outcome: Result<LoopResult, LoopError>)
      modifies offerSink, handoffSink
      ensures var r := RunSpec(detectors, d);
              && outcome == r.outcome
              && offerSink.offers == old(offerSink.offers) + r.offers
              && handoffSink.packets == old(handoffSink.packets) + r.packets
    {
      AcquiredHasAddress(detectors, d);
      hide DraftSpec;
      hide Deal.Resale;
      hide BuyerSpec;
      hide Blank;
      var closer := new Closer(detectors, offerSink, handoffSink, d.acquisitionBuyer, SellerSide);
      var acquisition := closer.DraftOffer(d.Acquisition());
      if !acquisition.Drafted? {
        return Err(NotAcquired(acquisition));
      }
      if Blank(d.propertyId) {
        return Err(BlankPropertyId);
      }
      var property := new PropertyState(d.propertyId, d.address);
      var listed := property.Advance(Listed);
      assert listed;
      if !d.matched {
        return Err(NoMatch);
      }
      var underOffer := property.Advance(UnderOffer);
      assert underOffer;
      var resale, draftedAt := DraftBuyerOffer(detectors, d.resaleBuyer, d.Resale(), d.now, offerSink, handoffSink);
      if !resale.Drafted? {
        return Err(NotResold(resale));
      }
      var sold := property.Advance(Sold);
      assert sold;
      FullAdvance();
      return Ok(LoopResult(property.Now(), acquisition, resale, draftedAt));
    }
  }

  // ---- Conservation ----

  /** A drafted offer of the deal's property inside the given band, awaiting a broker. */
  predicate OfferFor(o: Offer, d: Deal, side: Side, band: AuthorizedBand)
  {
    && o.side == side && o.band == band && band.Allows(o.price) && o.status.AwaitingBroker?
    && o.form.propertyAddress == Trim(d.address)
    && o.leadId == d.leadId
  }

  lemma DraftedFor(det: Detectors, buyerName: string, side: Side, q: Request)
    ensures var d := DraftSpec(det, buyerName, side, q);
            d.result.Drafted? ==> d.result.offer.leadId == q.leadId && d.packets == []
  {
    hide FillForm;
    hide Decide;
    hide Round2;
  }

  /**
   * A run emits two offers exactly when the property reaches `sold`: then the history is the whole lifecycle,
   * no packet is pushed, and the acquisition and the resale are both for the deal's address, each in its own
   * band and awaiting a broker. A run that fails emits at most one offer, and pushes at most one packet.
   */
  lemma TwoOffersIffSold(det: Detectors, d: Deal)
    ensures var r := RunSpec(det, d);
            && (r.outcome.Ok? <==> |r.offers| == 2)
            && (r.outcome.Ok? ==>
                  && r.outcome.value.final == Position(Sold, LIFECYCLE)
                  && r.packets == []
                  && OfferFor(r.offers[0], d, SellerSide, d.acquisitionBand)
                  && OfferFor(r.offers[1], d, BuyerSide, d.resaleBand)
                  && r.outcome.value.acquisition == Drafted(r.offers[0])
                  && r.outcome.value.resale == Drafted(r.offers[1])
                  && r.outcome.value.draftedAt == Some(d.now))
            && (r.outcome.Err? ==> |r.offers| <= 1 && |r.packets| <= 1)
  {
    var a, b := d.Acquisition(), d.Resale();
    DraftIsExclusive(det, d.acquisitionBuyer, SellerSide, a);
    DraftIsExclusive(det, d.resaleBuyer, BuyerSide, b);
    DraftedFor(det, d.acquisitionBuyer, SellerSide, a);
    DraftedFor(det, d.resaleBuyer, BuyerSide, b);
    hide DraftSpec;
    hide Blank;
    hide Trim;
    FullAdvance();
  }

  /** A request that a side drafts: every blank filled, no clause, a price inside the band. */
  predicate Draftable(buyerName: string, q: Request)
  {
    && !Blank(q.sellerName) && !Blank(buyerName) && !Blank(q.address)
    && !Blank(q.effectiveDate) && !Blank(q.closingDate)
    && (q.customClause.Some? ==> Blank(q.customClause.value))
    && q.band.Allows(OfferPrice(q))
  }

  lemma DraftsIff(det: Detectors, buyerName: string, side: Side, q: Request)
    ensures DraftSpec(det, buyerName, side, q).result.Drafted? <==> Draftable(buyerName, q)
  {
    var price := OfferPrice(q);
    hide Decide;
    hide Blank;
    hide Trim;
    EarnestIsNotNegative(price);
    hide Round2;
  }

  lemma EarnestIsNotNegative(price: real)
    ensures price > 0.0 ==> Round2(price * EARNEST_MONEY_RATE) >= 0.0
  {
    if price > 0.0 {
      var x := price * EARNEST_MONEY_RATE * 100.0;
      assert x > 0.0;
    }
  }

  /** A run sells exactly when both sides are draftable, the property has an id and the buyer matches it. */
  lemma SellsIff(det: Detectors, d: Deal)
    ensures RunSpec(det, d).outcome.Ok? <==>
            && Draftable(d.acquisitionBuyer, d.Acquisition()) && Draftable(d.resaleBuyer, d.Resale())
            && !Blank(d.propertyId) && d.matched
  {
    DraftsIff(det, d.acquisitionBuyer, SellerSide, d.Acquisition());
    DraftsIff(det, d.resaleBuyer, BuyerSide, d.Resale());
    hide DraftSpec;
    hide Blank;
    hide Band.Allows;
  }

  /** A failed run keeps the acquisition offer iff the acquisition was draftable: it is never withdrawn. */
  lemma OfferOutlivesFailure(det: Detectors, d: Deal)
    requires RunSpec(det, d).outcome.Err?
    ensures |RunSpec(det, d).offers| == 1 <==> Draftable(d.acquisitionBuyer, d.Acquisition())
    ensures RunSpec(det, d).offers == [] <==> !Draftable(d.acquisitionBuyer, d.Acquisition())
  {
    var a, b := d.Acquisition(), d.Resale();
    DraftsIff(det, d.acquisitionBuyer, SellerSide, a);
    DraftIsExclusive(det, d.acquisitionBuyer, SellerSide, a);
    DraftIsExclusive(det, d.resaleBuyer, BuyerSide, b);
    hide DraftSpec;
    hide Draftable;
    hide Blank;
  }

  /** The two requests of a deal: the resale names the seller given for it, or else the acquisition's. */
  lemma RequestsAre(d: Deal)
    ensures d.Acquisition().sellerName == d.sellerName && d.Acquisition().price == d.acquisitionPrice
    ensures d.Resale().sellerName ==
            (if d.resaleSellerName == None || d.resaleSellerName == Some("") then d.sellerName
             else d.resaleSellerName.value)
    ensures d.Resale().price == d.resalePrice && d.Resale().customClause == d.resaleClause
    ensures d.Acquisition().customClause == None
    ensures d.Acquisition().address == d.address == d.Resale().address
    ensures d.Acquisition().effectiveDate == d.effectiveDate == d.Resale().effectiveDate
    ensures d.Acquisition().closingDate == d.closingDate == d.Resale().closingDate
  {
  }

  /** Both offers of a sold deal say what the deal asked, each with its own parties. */
  lemma SoldOffersSayWhatWasAsked(det: Detectors, d: Deal)
    requires RunSpec(det, d).outcome.Ok?
    ensures var offers := RunSpec(det, d).offers;
            && |offers| == 2
            && SaysWhatWasAsked(offers[0], d.acquisitionBuyer, d.Acquisition())
            && SaysWhatWasAsked(offers[1], d.resaleBuyer, d.Resale())
  {
    TwoOffersIffSold(det, d);
    var a, b := d.Acquisition(), d.Resale();
    DraftIsExclusive(det, d.acquisitionBuyer, SellerSide, a);
    DraftIsExclusive(det, d.resaleBuyer, BuyerSide, b);
    DraftSaysWhatWasAsked(det, d.acquisitionBuyer, SellerSide, a);
    if DraftSpec(det, d.resaleBuyer, BuyerSide, b).result.Drafted? {
      DraftSaysWhatWasAsked(det, d.resaleBuyer, BuyerSide, b);
    }
    hide DraftSpec;
    hide SaysWhatWasAsked;
    hide Blank;
    hide Deal.Acquisition;
    hide Deal.Resale;
  }
}
