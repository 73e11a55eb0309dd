/** The buyer side of an offer: the same drafting, with the party roles flipped. */
module BuyerOffer {
  import opened Options
  import opened Reals
  import opened Text
  import opened Handoff
  import opened Closer

  /** A buyer draft and its drafted-at stamp. */
  datatype BuyerDraft = BuyerDraft(draft: Draft, draftedAt: Option<int>)

  /** What `draft_buyer_offer` does; a matched property with no address raises before anything else. */
  function BuyerSpec(det: Detectors, buyerName: string, q: Request, now: int): BuyerDraft
  {
    if Blank(q.address) then BuyerDraft(Draft(Raised("matched_property"), [], []), None)
    else
      var d := DraftSpec(det, buyerName, BuyerSide, q);
      BuyerDraft(d, if d.result.Drafted? then Some(now) else None)
  }

  /** `draft_buyer_offer` */
  method DraftBuyerOffer(det: Detectors, buyerName: string, q: Request, now: int,
                         offerSink: OfferSink, handoffSink: HandoffSink)
    returns (result: CloseResult, draftedAt: Option<int>)
    modifies offerSink, handoffSink
    ensures var b := BuyerSpec(det, buyerName, q, now);
            && result == b.draft.result && draftedAt == b.draftedAt
            && offerSink.offers == old(offerSink.offers) + b.draft.offers
            && handoffSink.packets == old(handoffSink.packets) + b.draft.packets
  {
    hide DraftSpec;
    hide Blank;
    if Blank(q.address) {
      return Raised("matched_property"), None;
    }
    var closer := new Closer(det, offerSink, handoffSink, buyerName, BuyerSide);
    result := closer.DraftOffer(q);
    draftedAt := if result.Drafted? then Some(now) else None;
  }

  /** An offer as the seller side would have drafted it. */
  function OnSellerSide(result: CloseResult): CloseResult
  {
    if result.Drafted? then Drafted(result.offer.(side := SellerSide)) else result
  }

  /**
   * The guardrails do not depend on the side: with an address, a buyer draft is the seller draft of the same
   * request with only the side of its offer changed, and pushes the same packets. It is stamped iff it drafted.
   */
  lemma BuyerMirrorsSeller(det: Detectors, buyerName: string, q: Request, now: int)
    requires !Blank(q.address)
    ensures var b := BuyerSpec(det, buyerName, q, now);
            var s := DraftSpec(det, buyerName, SellerSide, q);
            && OnSellerSide(b.draft.result) == s.result
            && b.draft.packets == s.packets
            && |b.draft.offers| == |s.offers|
            && (b.draftedAt == Some(now) <==> |s.offers| == 1)
            && (b.draftedAt.None? <==> s.offers == [])
  {
    hide FillForm;
    hide Decide;
    hide Round2;
    hide Blank;
  }
}
