/** What reposting does to quantities: no over-ordering, lost remainders, and when the fill ledger is the truth. */
module LegFills {
  import opened Prelude
  import opened Positions
  import opened Quantities
  import opened Legs

  // --------------------------------------------------------- over-ordering

  /** A leg together with the fills, in order units, of its orders that have ended; `open` until a report ends the leg. */
  datatype Orders = Orders(leg: Leg, earlier: real, open: bool)

  /** A poll that gets a report on the leg's order. */
  predicate Reports(leg: Leg, ev: LegEvent) {
    ev.Poll? && Polled(leg.status) && ev.accountActive && leg.orderId != "" && ev.pollReply.Report?
  }

  /** A report after which the leg no longer polls the order it was about. */
  predicate EndsOrder(leg: Leg, ev: LegEvent)
  {
    Reports(leg, ev) && !Polled(Next(leg, ev).status)
  }

  function AdvanceOrders(o: Orders, ev: LegEvent): Orders
  {
    var next := Next(o.leg, ev);
    if EndsOrder(o.leg, ev) then Orders(next, o.earlier + ev.pollReply.filled, o.open && next.status == Pending)
    else o.(leg := next)
  }

  function PlayOrders(leg: Leg, events: seq<LegEvent>): Orders
  {
    if events == [] then Orders(leg, 0.0, true)
    else AdvanceOrders(PlayOrders(leg, events[..|events| - 1]), events[|events| - 1])
  }

  /** The exchange behaves: accepted orders have ids, a report that ends an order is final, an order that is retried or
      filled has not gone beyond its request, and one the exchange cancelled had no fill. */
  predicate Faithful(leg: Leg, ev: LegEvent) {
    && (ev.Submit? && ev.submitReply.Accepted? ==> ev.submitReply.orderId != "")
    && (ev.Poll? && ev.pollReply.Report? ==>
          match ev.pollReply.state
          case OpenOrder | PartialOrder => 0.0 <= ev.pollReply.filled < leg.requestedQuantity
          case FilledOrder | OddOrder => 0.0 <= ev.pollReply.filled <= leg.requestedQuantity
          case CancelledOrder => ev.pollReply.filled == 0.0)
  }

  ghost predicate AllFaithful(leg: Leg, events: seq<LegEvent>)
  {
    forall i :: 0 <= i < |events| ==> Faithful(PlayOrders(leg, events[..i]).leg, events[i])
  }

  /** Fills of ended orders plus the outstanding request stay within the original request; the request stays positive
      and never grows; a leg ended by a report is at rest. */
  predicate WithinRequest(o: Orders, original: real) {
    && o.earlier >= 0.0
    && o.earlier + (if o.open then o.leg.requestedQuantity else 0.0) <= original
    && 0.0 < o.leg.requestedQuantity <= original
    && (!o.open ==> !Active(o.leg.status))
  }

  lemma NextRequestShrinks(leg: Leg, filled: real, base: real, unit: Positive)
    requires leg.requestedQuantity > 0.0 && filled >= 0.0
    ensures 0.0 < NextRequest(leg, filled, base, unit) <= leg.requestedQuantity
  {
    if MaxR(leg.filledQuantity, base) > 0.0 { QuotientTimes(MaxR(leg.filledQuantity, base), unit); }
  }

  /** Reposting never over-orders, on every run in which the exchange behaves. */
  lemma {:induction false} NeverOverOrders(leg: Leg, events: seq<LegEvent>)
    requires Fresh(leg) && leg.requestedQuantity > 0.0 && AllFaithful(leg, events)
    ensures WithinRequest(PlayOrders(leg, events), leg.requestedQuantity)
  {
    if events != [] {
      var before, ev := events[..|events| - 1], events[|events| - 1];
      forall i | 0 <= i < |before| ensures Faithful(PlayOrders(leg, before[..i]).leg, before[i]) {
        assert before[..i] == events[..i];
      }
      NeverOverOrders(leg, before);
      assert Faithful(PlayOrders(leg, before).leg, ev);
      KeepsOrders(PlayOrders(leg, before), ev, leg.requestedQuantity);
    }
  }

  lemma KeepsOrders(o: Orders, ev: LegEvent, original: real)
    requires WithinRequest(o, original) && Faithful(o.leg, ev)
    ensures WithinRequest(AdvanceOrders(o, ev), original)
  {
    if ev.Poll? && ev.pollReply.Report? && Polled(o.leg.status) && ev.pollReply.state in {OpenOrder, PartialOrder} {
      RepostCondition(o.leg, ev.pollReply.filled, ev.pollReply.base, ev.unit);
    }
  }

  /** Reposting after a final fill keeps within the request exactly when the fill is below the request; a fill at or
      above it makes the leg ask for the whole quantity again. */
  lemma RepostCondition(leg: Leg, filled: real, base: real, unit: Positive)
    requires leg.requestedQuantity > 0.0 && filled >= 0.0
    ensures NextRequest(leg, filled, base, unit) + filled <= leg.requestedQuantity <==> filled < leg.requestedQuantity
    ensures 0.0 < NextRequest(leg, filled, base, unit) <= leg.requestedQuantity
  {
    NextRequestShrinks(leg, filled, base, unit);
  }

  /** Nothing of the request is lost by a repost exactly when the retired order filled something, or nothing was
      filled before it, or what was filled before reaches the whole request. */
  lemma RepostKeepsRemainderIff(leg: Leg, filled: real, base: real, unit: Positive)
    requires 0.0 <= filled < leg.requestedQuantity && base == filled * unit
    ensures NextRequest(leg, filled, base, unit) + filled == leg.requestedQuantity
            <==> filled > 0.0 || leg.filledQuantity <= 0.0 || leg.filledQuantity / unit >= leg.requestedQuantity
  {
    if leg.filledQuantity > 0.0 { QuotientTimes(leg.filledQuantity, unit); }
  }

  /** Ten wanted, four filled, then an order without a fill: the leg asks for two more although six are missing. */
  lemma EmptyRepostLosesFour(leg: Leg)
    requires Fresh(leg) && leg.requestedQuantity == 10.0 && leg.requestedPrice == 1.0
    ensures var submit := Submit(true, false, Accepted("o"));
            var o := PlayOrders(leg, [submit, Poll(true, Report(PartialOrder, 4.0, 4.0, 1.0), true, 1.0, 1.0),
                                           submit, Poll(true, Report(OpenOrder, 0.0, 0.0, 1.0), true, 1.0, 1.0)]);
            o.earlier == 4.0 && o.leg.requestedQuantity == 2.0 && o.leg.status == Pending
  {
    var submit := Submit(true, false, Accepted("o"));
    var four, none := Poll(true, Report(PartialOrder, 4.0, 4.0, 1.0), true, 1.0, 1.0), Poll(true, Report(OpenOrder, 0.0, 0.0, 1.0), true, 1.0, 1.0);
    PlayTwoOrders(leg, [], submit, four);
    PlayTwoOrders(leg, [submit, four], submit, none);
    assert [] + [submit, four] == [submit, four] && [submit, four] + [submit, none] == [submit, four, submit, none];
    var o1 := AdvanceOrders(Orders(leg, 0.0, true), submit);
    assert o1.leg.status == Submitted && o1.leg.requestedQuantity == 10.0 && NextRequest(o1.leg, 4.0, 4.0, 1.0) == 6.0;
    var o2 := AdvanceOrders(o1, four);
    assert o2.leg.requestedQuantity == 6.0 && o2.leg.filledQuantity == 4.0 && o2.earlier == 4.0;
    var o3 := AdvanceOrders(o2, submit);
    assert o3.leg.status == Submitted && NextRequest(o3.leg, 0.0, 0.0, 1.0) == 2.0;
  }

  lemma PlayTwoOrders(leg: Leg, events: seq<LegEvent>, a: LegEvent, b: LegEvent)
    ensures PlayOrders(leg, events + [a, b]) == AdvanceOrders(AdvanceOrders(PlayOrders(leg, events), a), b)
  {
    var longer := events + [a, b];
    assert longer[..|longer| - 1] == events + [a];
    assert (events + [a])[..|events|] == events;
  }

  // ------------------------------------------------------------ losing track

  /** A submission that is skipped because there is nothing left to close. */
  predicate Skips(leg: Leg, accountActive: bool, positionGone: bool) {
    Submittable(leg.status) && accountActive && leg.requestedPrice > 0.0 && leg.requestedQuantity > 0.0 && positionGone
  }

  /** The event books a fill without storing it, or stores less than was booked. */
  predicate LosesTrack(leg: Leg, ev: LegEvent) {
    match ev
    case Submit(active, gone, _) => Skips(leg, active, gone) && leg.filledQuantity > 0.0
    case Poll(_, reply, expired, _, _) => Reports(leg, ev) && ReportLosesTrack(leg.filledQuantity, reply.state, reply.base, expired)
    case Block => false
    case Abandon => false
  }

  /** A report on an order loses track of its fill when it leaves the stored fill alone although it is above it, or
      replaces it by a lower one. */
  predicate ReportLosesTrack(stored: real, state: OrderState, base: real, expired: bool) {
    match state
    case OpenOrder => !expired && base > stored
    case CancelledOrder => base > stored
    case OddOrder => base > stored
    case FilledOrder => base < stored
    case PartialOrder => !expired && 0.0 < base < stored
  }

  // ------------------------------------------ a run with all that it executed

  /** A leg's run and what its orders have filled, in base units, going by the greatest report on each: `current` by the
      latest order, `earlier` by the ones before it together, `top` by the best of those; `filledBefore` counts those
      that filled anything, `lost` the events that lost track and `twice` the reports that were booked twice. */
  datatype Tally = Tally(run: Run, top: real, earlier: real, current: real, filledBefore: nat, lost: nat, twice: nat)
  {
    function Greatest(): real { MaxR(top, current) }

    function Executed(): real { earlier + current }

    function FilledOrders(): nat { filledBefore + if current > 0.0 then 1 else 0 }
  }

  /** An order is placed under an id of its own. */
  predicate Places(leg: Leg, ev: LegEvent) {
    IsAttempt(leg, ev) && ev.submitReply.Accepted? && ev.submitReply.orderId != ""
  }

  /** A report books some of what the ledger holds already: it is above the stored fill, and so was an earlier one. */
  predicate BooksTwice(t: Tally, ev: LegEvent) {
    Reports(t.run.leg, ev) && t.run.leg.filledQuantity < ev.pollReply.base && t.run.leg.filledQuantity < t.Greatest()
  }

  function AdvanceTally(t: Tally, ev: LegEvent): Tally {
    var run := Advance(t.run, ev);
    var lost := t.lost + if LosesTrack(t.run.leg, ev) then 1 else 0;
    var twice := t.twice + if BooksTwice(t, ev) then 1 else 0;
    if Places(t.run.leg, ev) then Tally(run, t.Greatest(), t.Executed(), 0.0, t.FilledOrders(), lost, twice)
    else if Reports(t.run.leg, ev) then Tally(run, t.top, t.earlier, MaxR(t.current, ev.pollReply.base), t.filledBefore, lost, twice)
    else Tally(run, t.top, t.earlier, t.current, t.filledBefore, lost, twice)
  }

  function StartTally(leg: Leg): Tally { Tally(Run(leg, 0, 0, 0, 0.0), 0.0, 0.0, 0.0, 0, 0, 0) }

  function PlayTally(leg: Leg, events: seq<LegEvent>): Tally {
    if events == [] then StartTally(leg) else AdvanceTally(PlayTally(leg, events[..|events| - 1]), events[|events| - 1])
  }

  lemma {:induction false} TallyRuns(leg: Leg, events: seq<LegEvent>)
    ensures PlayTally(leg, events).run == Play(leg, events)
  {
    if events != [] { TallyRuns(leg, events[..|events| - 1]); }
  }

  // ------------------------------------------------ the ledger and the stored fill

  /** The ledger is not below the stored fill, and equals it exactly if no event has lost track. */
  predicate Tracked(t: Tally) {
    && (t.run.leg.filledQuantity >= 0.0 || t.run.leg.status == Filled)
    && t.run.ledger >= t.run.leg.filledQuantity
    && (t.run.ledger == t.run.leg.filledQuantity <==> t.lost == 0)
  }

  /** An event adds to the ledger what it adds to the stored fill, and more exactly when it loses track. */
  lemma EventTracks(leg: Leg, ev: LegEvent)
    requires leg.filledQuantity >= 0.0 || leg.status == Filled
    ensures var stored := Next(leg, ev).filledQuantity - leg.filledQuantity;
            BookedBy(leg, ev) >= stored && (BookedBy(leg, ev) == stored <==> !LosesTrack(leg, ev))
    ensures Next(leg, ev).filledQuantity >= 0.0 || Next(leg, ev).status == Filled
  {
    if Reports(leg, ev) && ev.pollReply.state in {OpenOrder, PartialOrder} && ev.expired {
      assert Next(leg, ev).filledQuantity == MaxR(leg.filledQuantity, ev.pollReply.base);
    }
  }

  lemma TrackStep(t: Tally, ev: LegEvent)
    requires Tracked(t)
    ensures Tracked(AdvanceTally(t, ev))
  {
    EventTracks(t.run.leg, ev);
  }

  /** Over every run of a leg, whatever the exchange answers and however orders end, the fill records add up to the
      stored filled quantity exactly when no event lost track; otherwise they add up to more. */
  lemma {:induction false} LedgerIsStoredIff(leg: Leg, events: seq<LegEvent>)
    requires Fresh(leg)
    ensures Tracked(PlayTally(leg, events))
  {
    if events != [] {
      LedgerIsStoredIff(leg, events[..|events| - 1]);
      TrackStep(PlayTally(leg, events[..|events| - 1]), events[|events| - 1]);
    }
  }

  // --------------------------------------- the ledger and the exchange's fills

  /** The best of the orders and their sum: equal exactly when at most one of them filled anything. */
  predicate Tallied(t: Tally) {
    && 0.0 <= t.top <= t.earlier && t.current >= 0.0
    && (t.filledBefore == 0 <==> t.earlier == 0.0)
    && (t.filledBefore <= 1 <==> t.top == t.earlier)
    && (t.filledBefore > 0 ==> t.top > 0.0)
  }

  lemma TallyStep(t: Tally, ev: LegEvent)
    requires Tallied(t)
    ensures Tallied(AdvanceTally(t, ev))
  {
  }

  lemma {:induction false} TallyIsTallied(leg: Leg, events: seq<LegEvent>)
    ensures Tallied(PlayTally(leg, events))
  {
    if events != [] {
      TallyIsTallied(leg, events[..|events| - 1]);
      TallyStep(PlayTally(leg, events[..|events| - 1]), events[|events| - 1]);
    }
  }

  lemma GreatestIsExecutedIff(t: Tally)
    requires Tallied(t)
    ensures t.Greatest() <= t.Executed() && (t.Greatest() == t.Executed() <==> t.FilledOrders() <= 1)
  {
  }

  /** The ledger is not below the best order, and equals it exactly if nothing was booked twice. */
  predicate Booked(t: Tally) {
    && t.run.ledger >= t.Greatest() >= t.run.leg.filledQuantity && t.Greatest() >= 0.0
    && (t.run.ledger == t.Greatest() <==> t.twice == 0)
  }

  lemma BookStep(t: Tally, ev: LegEvent)
    requires Booked(t)
    ensures Booked(AdvanceTally(t, ev))
  {
    StoredStaysBelow(t.run.leg, ev, t.Greatest());
    BookingAdds(t, ev);
  }

  lemma StoredStaysBelow(leg: Leg, ev: LegEvent, greatest: real)
    requires leg.filledQuantity <= greatest && greatest >= 0.0
    ensures Next(leg, ev).filledQuantity <= if Reports(leg, ev) then MaxR(greatest, ev.pollReply.base) else greatest
  {
  }

  lemma BookingAdds(t: Tally, ev: LegEvent)
    ensures var next, r := AdvanceTally(t, ev), Reports(t.run.leg, ev);
            && next.run.ledger == t.run.ledger + (if r then MaxR(0.0, ev.pollReply.base - t.run.leg.filledQuantity) else 0.0)
            && next.Greatest() == (if r then MaxR(t.Greatest(), ev.pollReply.base)
                                   else if Places(t.run.leg, ev) then MaxR(t.Greatest(), 0.0) else t.Greatest())
  {
  }

  /** Over every run the ledger is at least the greatest fill that any one order reported, and is no more than that
      exactly when no report was booked twice. */
  lemma {:induction false} LedgerIsGreatestFillIff(leg: Leg, events: seq<LegEvent>)
    requires Fresh(leg)
    ensures Booked(PlayTally(leg, events))
  {
    if events != [] {
      LedgerIsGreatestFillIff(leg, events[..|events| - 1]);
      BookStep(PlayTally(leg, events[..|events| - 1]), events[|events| - 1]);
    }
  }

  /** The ledger against all that the leg's orders executed. While at most one order has filled anything it is exact if
      and only if nothing was booked twice, and otherwise too large; while nothing was booked twice it is exact if and
      only if at most one order filled anything, and otherwise too small. */
  predicate Exact(t: Tally) {
    && (t.FilledOrders() <= 1 ==> t.run.ledger >= t.Executed() && (t.run.ledger == t.Executed() <==> t.twice == 0))
    && (t.twice == 0 ==> t.run.ledger <= t.Executed() && (t.run.ledger == t.Executed() <==> t.FilledOrders() <= 1))
  }

  lemma LedgerIsExactIff(leg: Leg, events: seq<LegEvent>)
    requires Fresh(leg)
    ensures Exact(PlayTally(leg, events))
  {
    LedgerIsGreatestFillIff(leg, events);
    TallyIsTallied(leg, events);
    GreatestIsExecutedIff(PlayTally(leg, events));
  }

  /** A run that never loses track books nothing twice: ledger and stored quantity both hold the greatest fill of any one
      order, which is all that was executed if and only if at most one order filled anything. */
  lemma TrackedLedgerIsGreatestFill(leg: Leg, events: seq<LegEvent>)
    requires Fresh(leg) && PlayTally(leg, events).lost == 0
    ensures var t := PlayTally(leg, events);
            && t.twice == 0 && t.run.ledger == t.run.leg.filledQuantity == t.Greatest()
            && (t.run.ledger == t.Executed() <==> t.FilledOrders() <= 1)
  {
    LedgerIsStoredIff(leg, events);
    LedgerIsGreatestFillIff(leg, events);
    LedgerIsExactIff(leg, events);
  }

  /** Two polls that find an order open with the same fill of four book it twice. */
  lemma OpenPollsBookTwice(leg: Leg)
    requires Fresh(leg) && leg.requestedQuantity == 10.0 && leg.requestedPrice == 1.0
    ensures var poll := Poll(true, Report(OpenOrder, 4.0, 4.0, 1.0), false, 1.0, 1.0);
            var t := PlayTally(leg, [Submit(true, false, Accepted("o")), poll, poll]);
            t.run.ledger == 8.0 && t.Executed() == 4.0 && t.run.leg.filledQuantity == 0.0 && t.twice == 1 && t.lost == 2
  {
    var submit, poll := Submit(true, false, Accepted("o")), Poll(true, Report(OpenOrder, 4.0, 4.0, 1.0), false, 1.0, 1.0);
    PlayTallyNext(leg, [], submit);
    PlayTallyNext(leg, [submit], poll);
    PlayTallyNext(leg, [submit, poll], poll);
    assert [] + [submit] == [submit] && [submit] + [poll] == [submit, poll] && [submit, poll] + [poll] == [submit, poll, poll];
    var placed := leg.(status := Submitted, orderId := "o");
    OpenPollBooks(Tally(Run(placed, 1, 0, 1, 0.0), 0.0, 0.0, 0.0, 0, 0, 0), poll);
    OpenPollBooks(Tally(Run(placed, 1, 0, 1, 4.0), 0.0, 0.0, 4.0, 0, 1, 0), poll);
  }

  lemma OpenPollBooks(t: Tally, poll: LegEvent)
    requires t.run.leg.status == Submitted && t.run.leg.orderId != "" && t.run.leg.filledQuantity == 0.0
    requires poll == Poll(true, Report(OpenOrder, 4.0, 4.0, 1.0), false, 1.0, 1.0)
    ensures AdvanceTally(t, poll) == Tally(t.run.(ledger := t.run.ledger + 4.0), t.top, t.earlier, MaxR(t.current, 4.0), t.filledBefore,
                                           t.lost + 1, t.twice + if t.Greatest() > 0.0 then 1 else 0)
  {
  }

  lemma PlayTallyNext(leg: Leg, events: seq<LegEvent>, ev: LegEvent)
    ensures PlayTally(leg, events + [ev]) == AdvanceTally(PlayTally(leg, events), ev)
  {
    assert (events + [ev])[..|events|] == events;
  }
}
