/** Why a leg ends as it does, and which columns an event changes and to what. */
module LegOutcomes {
  import opened Prelude
  import opened Positions
  import opened Quantities
  import opened Legs
  import opened LegFills

  /** The report finds an unfinished order that has been out for too long. */
  predicate Expires(leg: Leg, ev: LegEvent) {
    Reports(leg, ev) && ev.pollReply.state in {OpenOrder, PartialOrder} && ev.expired
  }

  /** An order is refused. */
  predicate IsRefused(leg: Leg, ev: LegEvent) {
    && ev.Submit? && Submittable(leg.status) && ev.accountActive && leg.requestedPrice > 0.0 && leg.requestedQuantity > 0.0
    && !ev.positionGone && ev.submitReply.Refused?
  }

  /** The exchange reports the order filled, or nothing is left to close when the leg would be submitted. */
  predicate EndsFilled(leg: Leg, ev: LegEvent) {
    || (Reports(leg, ev) && ev.pollReply.state == FilledOrder)
    || (ev.Submit? && Skips(leg, ev.accountActive, ev.positionGone))
  }

  /** The leg is switched off, given up before it had an order, has lost its account or has nothing to ask for, its last retry
      is used up, or its order is in a state nobody knows. */
  predicate EndsFailed(leg: Leg, ev: LegEvent) {
    || (ev.Block? && Active(leg.status))
    || (ev.Abandon? && Active(leg.status) && leg.orderId == "")
    || ((ev.Submit? || ev.Poll?) && Active(leg.status) && Submittable(leg.status) == ev.Submit? && !ev.accountActive)
    || (ev.Submit? && Submittable(leg.status) && (leg.requestedPrice <= 0.0 || leg.requestedQuantity <= 0.0))
    || ((IsRefused(leg, ev) || Expires(leg, ev)) && leg.retryCount >= 9)
    || (Reports(leg, ev) && ev.pollReply.state == OddOrder)
  }

  ghost predicate SomeEventFills(leg: Leg, events: seq<LegEvent>) {
    exists i :: 0 <= i < |events| && EndsFilled(Play(leg, events[..i]).leg, events[i])
  }

  ghost predicate SomeEventFails(leg: Leg, events: seq<LegEvent>) {
    exists i :: 0 <= i < |events| && EndsFailed(Play(leg, events[..i]).leg, events[i])
  }

  lemma SomeEventNext(leg: Leg, events: seq<LegEvent>, ev: LegEvent)
    ensures SomeEventFills(leg, events + [ev]) <==> SomeEventFills(leg, events) || EndsFilled(Play(leg, events).leg, ev)
    ensures SomeEventFails(leg, events + [ev]) <==> SomeEventFails(leg, events) || EndsFailed(Play(leg, events).leg, ev)
  {
    var more := events + [ev];
    forall i | 0 <= i <= |events| ensures more[..i] == events[..i] {}
    assert events[..|events|] == events && more[|events|] == ev;
    forall i | 0 <= i < |events| ensures more[i] == events[i] {}
    if SomeEventFills(leg, events) {
      var i :| 0 <= i < |events| && EndsFilled(Play(leg, events[..i]).leg, events[i]);
      assert EndsFilled(Play(leg, more[..i]).leg, more[i]);
    }
    if SomeEventFails(leg, events) {
      var i :| 0 <= i < |events| && EndsFailed(Play(leg, events[..i]).leg, events[i]);
      assert EndsFailed(Play(leg, more[..i]).leg, more[i]);
    }
    if EndsFilled(Play(leg, events).leg, ev) { assert EndsFilled(Play(leg, more[..|events|]).leg, more[|events|]); }
    if EndsFailed(Play(leg, events).leg, ev) { assert EndsFailed(Play(leg, more[..|events|]).leg, more[|events|]); }
  }

  lemma EventEnds(leg: Leg, ev: LegEvent)
    requires leg.retryCount < MAX_RETRIES || !Active(leg.status)
    ensures Next(leg, ev).status == Filled <==> leg.status == Filled || EndsFilled(leg, ev)
    ensures Next(leg, ev).status == Failed <==> leg.status == Failed || EndsFailed(leg, ev)
  {
  }

  /** Over every run of a fresh leg: it is filled exactly when some report said so or there was nothing left to close, and it
      has failed exactly when one of the listed events has happened to it, so that neither ever changes again. */
  lemma {:induction false} EndedIff(leg: Leg, events: seq<LegEvent>)
    requires Fresh(leg)
    ensures Play(leg, events).leg.status == Filled <==> SomeEventFills(leg, events)
    ensures Play(leg, events).leg.status == Failed <==> SomeEventFails(leg, events)
  {
    if events != [] {
      var before, ev := events[..|events| - 1], events[|events| - 1];
      EndedIff(leg, before);
      RunIsBounded(leg, before);
      SomeEventNext(leg, before, ev);
      assert events == before + [ev];
      EventEnds(Play(leg, before).leg, ev);
    }
  }

  /** Where a leg goes that an event does not end: an order that is accepted is out, one whose client cannot be built is about
      to be, a part of it may be filled, and a refusal, an expiry or a cancellation brings the leg back to the start. */
  lemma StatusFollows(leg: Leg, ev: LegEvent)
    requires Active(leg.status) && leg.retryCount < MAX_RETRIES && !EndsFilled(leg, ev) && !EndsFailed(leg, ev)
    ensures var now := Next(leg, ev).status;
            var attempt := ev.Submit? && Submittable(leg.status);
            && (attempt && ev.submitReply.Accepted? ==> now == Submitted)
            && (attempt && ev.submitReply.ClientUnavailable? ==> now == Submitting)
            && ((attempt && ev.submitReply.Refused?) || Expires(leg, ev) || IsCancel(leg, ev) ==> now == Pending)
            && (Reports(leg, ev) && ev.pollReply.state == PartialOrder && !ev.expired ==> now == Partial)
            && (!attempt && !(Reports(leg, ev) && !(ev.pollReply.state == OpenOrder && !ev.expired)) ==> now == leg.status)
  {
  }

  // --------------------------------------------------------------- columns

  /** A retry that is not the last asks again, at the newest price if there is one. */
  predicate Reposts(leg: Leg, ev: LegEvent) { Expires(leg, ev) && leg.retryCount < 9 }

  predicate GetsOrder(leg: Leg, ev: LegEvent) {
    && ev.Submit? && Submittable(leg.status) && ev.accountActive && leg.requestedPrice > 0.0 && leg.requestedQuantity > 0.0
    && !ev.positionGone && ev.submitReply.Accepted? && ev.submitReply.orderId != ""
  }

  /** The report is stored: it ends the order, or brings news of a partial fill. */
  predicate Stores(leg: Leg, ev: LegEvent) {
    Reports(leg, ev) && (Expires(leg, ev) || ev.pollReply.state in {FilledOrder, PartialOrder})
  }

  /** Column by column, what an event makes of a leg: the request changes by a repost only, the order id by an accepted order
      only, the retry count by a refusal or an order that took too long, and fill and price by the reports that are stored. */
  lemma ColumnsFollow(leg: Leg, ev: LegEvent)
    ensures var next := Next(leg, ev);
            && next.requestedPrice == (if Reposts(leg, ev) && ev.latestPrice > 0.0 then ev.latestPrice else leg.requestedPrice)
            && next.requestedQuantity == (if Reposts(leg, ev) then NextRequest(leg, ev.pollReply.filled, ev.pollReply.base, ev.unit)
                                          else leg.requestedQuantity)
            && next.orderId == (if GetsOrder(leg, ev) then ev.submitReply.orderId else leg.orderId)
            && next.retryCount == leg.retryCount + (if IsRefused(leg, ev) || Expires(leg, ev) then 1 else 0)
            && next.averageFillPrice == (if Stores(leg, ev) && (ev.pollReply.state == FilledOrder || ev.pollReply.average > 0.0)
                                         then ev.pollReply.average else leg.averageFillPrice)
            && next == leg.(status := next.status, requestedPrice := next.requestedPrice, requestedQuantity := next.requestedQuantity,
                            orderId := next.orderId, retryCount := next.retryCount, averageFillPrice := next.averageFillPrice,
                            filledQuantity := next.filledQuantity)
  {
  }

  /** The stored fill follows the reports that are stored; only an order that took too long cannot lower it. */
  lemma StoredFillFollows(leg: Leg, ev: LegEvent)
    ensures var next := Next(leg, ev);
            && (ev.Submit? && Skips(leg, ev.accountActive, ev.positionGone) ==> next.filledQuantity == 0.0)
            && (Stores(leg, ev) && ev.pollReply.state == FilledOrder ==> next.filledQuantity == ev.pollReply.base)
            && (Stores(leg, ev) && ev.pollReply.state == PartialOrder && !ev.expired && ev.pollReply.base > 0.0 ==>
                  next.filledQuantity == ev.pollReply.base)
            && (Expires(leg, ev) && leg.filledQuantity >= 0.0 ==>
                  next.filledQuantity == if ev.pollReply.base > leg.filledQuantity then ev.pollReply.base else leg.filledQuantity)
            && (!Stores(leg, ev) && !(ev.Submit? && Skips(leg, ev.accountActive, ev.positionGone)) ==>
                  next.filledQuantity == leg.filledQuantity)
  {
  }
}
