/**
 Directional-book detection of arbiter/api.py: finding open "hedges" whose two
 legs pay in the same settlement state, and what they cost and pay.
 Amounts are exact; the rounding of displayed figures is not modelled.
 */
module DirectionalBook {
  import opened Options
  import opened Text
  import opened Sums
  import opened Settlement
  import opened PayoffTable

  // ------------------------------------------------------------ conid owners

  /** The conids a mapping records, "" when absent. */
  datatype Conids = Conids(forecastex: string, forecastexNo: string)

  /** MARKET_MAP in iteration order; None is a value that is not a dict. */
  datatype MarketMap = MarketMap(order: seq<string>, entries: map<string, Option<Conids>>) {
    ghost predicate WellFormed() {
      && (forall c :: c in order <==> c in entries)
      && forall i, j :: 0 <= i < j < |order| ==> order[i] != order[j]
    }
  }

  type Owner = (string, Slot)
  type Index = map<string, seq<Owner>>

  function Recorded(mm: MarketMap, canonical: string, slot: Slot): Option<string> {
    if canonical !in mm.entries || mm.entries[canonical].None? then None
    else
      var conids := mm.entries[canonical].value;
      Some(Strip(if slot.Yes? then conids.forecastex else conids.forecastexNo))
  }

  /** is_valid_conid */
  predicate ValidConid(conid: string) {
    Strip(conid) != "" && Strip(conid) != "0" && Strip(conid) != "None"
  }

  function OwnersOf(index: Index, conid: string): seq<Owner> {
    if conid in index then index[conid] else []
  }

  /** owners.setdefault(conid, []).append(owner), for a valid conid. */
  function File(index: Index, conid: Option<string>, owner: Owner): Index {
    if conid.None? || !ValidConid(conid.value) then index
    else index[conid.value := OwnersOf(index, conid.value) + [owner]]
  }

  /** The reverse index over the first n canonicals. */
  function OwnerIndex(mm: MarketMap, n: nat): Index
    requires n <= |mm.order|
  {
    if n == 0 then map[]
    else
      var c := mm.order[n - 1];
      File(File(OwnerIndex(mm, n - 1), Recorded(mm, c, Yes), (c, Yes)), Recorded(mm, c, No), (c, No))
  }

  lemma {:induction false} OwnerIndexExact(mm: MarketMap, n: nat, conid: string, owner: Owner)
    requires n <= |mm.order|
    ensures owner in OwnersOf(OwnerIndex(mm, n), conid) <==>
            ValidConid(conid) && owner.0 in mm.order[..n] && Recorded(mm, owner.0, owner.1) == Some(conid)
  {
    if n > 0 {
      OwnerIndexExact(mm, n - 1, conid, owner);
      assert mm.order[..n] == mm.order[..n - 1] + [mm.order[n - 1]];
      var c := mm.order[n - 1];
      var half := File(OwnerIndex(mm, n - 1), Recorded(mm, c, Yes), (c, Yes));
      FileOwners(OwnerIndex(mm, n - 1), Recorded(mm, c, Yes), (c, Yes), conid, owner);
      FileOwners(half, Recorded(mm, c, No), (c, No), conid, owner);
    }
  }

  lemma FileOwners(index: Index, at: Option<string>, owner: Owner, conid: string, who: Owner)
    ensures who in OwnersOf(File(index, at, owner), conid) <==>
            who in OwnersOf(index, conid) || (who == owner && at == Some(conid) && ValidConid(conid))
  {
  }

  /** The owners of one conid by a scan of the map: in map order, YES before NO. */
  function OwnersByScan(mm: MarketMap, n: nat, conid: string): seq<Owner>
    requires n <= |mm.order|
  {
    if n == 0 then []
    else
      var c := mm.order[n - 1];
      OwnersByScan(mm, n - 1, conid)
      + (if Recorded(mm, c, Yes) == Some(conid) then [(c, Yes)] else [])
      + if Recorded(mm, c, No) == Some(conid) then [(c, No)] else []
  }

  /** The index keeps the owners in that order, so the first one it names is the
      first one in the map. */
  lemma {:induction false} OwnersInOrder(mm: MarketMap, n: nat, conid: string)
    requires n <= |mm.order|
    ensures OwnersOf(OwnerIndex(mm, n), conid) == if ValidConid(conid) then OwnersByScan(mm, n, conid) else []
  {
    if n > 0 {
      OwnersInOrder(mm, n - 1, conid);
      var c := mm.order[n - 1];
      var half := File(OwnerIndex(mm, n - 1), Recorded(mm, c, Yes), (c, Yes));
      FileInOrder(OwnerIndex(mm, n - 1), Recorded(mm, c, Yes), (c, Yes), conid);
      FileInOrder(half, Recorded(mm, c, No), (c, No), conid);
    }
  }

  lemma FileInOrder(index: Index, at: Option<string>, owner: Owner, conid: string)
    ensures OwnersOf(File(index, at, owner), conid) ==
            OwnersOf(index, conid) + if at == Some(conid) && ValidConid(conid) then [owner] else []
  {
    assert OwnersOf(index, conid) + [] == OwnersOf(index, conid);
  }

  /** What a leg is taken for when the index is fresh: a ForecastEx leg whose own
      contract is another one belongs to the first canonical and slot in the map
      that records it, and to nobody else. */
  lemma ForeignOwnerIsFirst(mm: MarketMap, canonical: string, side: Slot, marketId: string)
    requires mm.WellFormed() && ValidConid(marketId) && Recorded(mm, canonical, side) != Some(marketId)
    ensures var scan := OwnersByScan(mm, |mm.order|, marketId);
      Bind(mm, FreshIndex(mm), true, canonical, side, "forecastex", marketId) ==
        if scan == [] then (canonical, side, Unresolved) else (scan[0].0, scan[0].1, Foreign)
  {
    OwnersInOrder(mm, |mm.order|, marketId);
    FastCheckIsExact(mm, canonical, side, marketId);
  }

  /** _fx_leg_matches_own_canonical */
  predicate MatchesOwn(mm: MarketMap, canonical: string, slot: Slot, conid: string) {
    conid != "" && Recorded(mm, canonical, slot) == Some(conid)
  }

  function FreshIndex(mm: MarketMap): Index {
    OwnerIndex(mm, |mm.order|)
  }

  /** On a fresh index the one-lookup check and the index agree exactly, except
      that the check also accepts a recorded placeholder such as "0". */
  lemma FastCheckIsExact(mm: MarketMap, canonical: string, slot: Slot, conid: string)
    requires mm.WellFormed()
    ensures (canonical, slot) in OwnersOf(FreshIndex(mm), conid) <==>
            MatchesOwn(mm, canonical, slot, conid) && Strip(conid) !in ["", "0", "None"]
    ensures MatchesOwn(mm, canonical, slot, conid) <==>
      && conid != "" && canonical in mm.entries && mm.entries[canonical].Some?
      && conid == match slot
         case Yes => Strip(mm.entries[canonical].value.forecastex)
         case No => Strip(mm.entries[canonical].value.forecastexNo)
  {
    OwnerIndexExact(mm, |mm.order|, conid, (canonical, slot));
    assert mm.order[..|mm.order|] == mm.order;
    assert Strip("") == "";
  }

  /** _fx_conid_owners: the index is rebuilt at most every 30 seconds. */
  class ConidOwners {
    const TTL := 30.0
    var cached: Option<Index>
    var cachedAt: real
    ghost var built: MarketMap   // the map as it was at the last rebuild

    ghost predicate Valid()
      reads this
    {
      cached.Some? ==> cached.value == FreshIndex(built)
    }

    constructor ()
      ensures Valid() && cached == None
    {
      cached, cachedAt := None, 0.0;
      built := MarketMap([], map[]);
    }

    /** The exact index of a map that was live less than 30 seconds ago: of the
        one given now, or of the one given at the last rebuild. */
    method Owners(mm: MarketMap, now: real) returns (owners: Index)
      requires Valid()
      modifies this
      ensures Valid() && cached == Some(owners)
      ensures owners == FreshIndex(built) && now - cachedAt < 30.0
      ensures if old(cached).Some? && now - old(cachedAt) < 30.0
              then built == old(built) && cachedAt == old(cachedAt)
              else built == mm && cachedAt == now
    {
      if cached.Some? && now - cachedAt < TTL { return cached.value; }
      owners := map[];
      for i := 0 to |mm.order|
        invariant owners == OwnerIndex(mm, i)
      {
        var c := mm.order[i];
        owners := File(owners, Recorded(mm, c, Yes), (c, Yes));
        owners := File(owners, Recorded(mm, c, No), (c, No));
      }
      cached, cachedAt, built := Some(owners), now, mm;
    }
  }

  // -------------------------------------------------------------------- legs

  datatype Order = Order(fillQty: real, fillPrice: real, marketId: string, platform: string)

  datatype Opportunity = Opportunity(canonical: string, yesPlatform: string, yesMarket: string,
                                     noPlatform: string, noMarket: string)

  datatype Execution = Execution(opportunity: Option<Opportunity>, status: string,
                                 legYes: Option<Order>, legNo: Option<Order>)

  datatype Binding = Assumed | Verified | Foreign | Unresolved

  datatype Leg = Leg(side: Slot, platform: string, marketId: string, quantity: real, cost: real,
                     ownerCanonical: string, ownerSlot: Slot, binding: Binding, state: string)

  /** The owner and binding of a leg.  `index` is what the owner cache would
      answer for this leg: it is consulted only when the live check fails. */
  function Bind(mm: MarketMap, index: Index, fastPath: bool, canonical: string, side: Slot,
                platform: string, marketId: string): (string, Slot, Binding)
  {
    if platform != "forecastex" then (canonical, side, Assumed)
    else if fastPath && MatchesOwn(mm, canonical, side, marketId) then (canonical, side, Verified)
    else
      var owned := OwnersOf(index, marketId);
      if (canonical, side) in owned then (canonical, side, Verified)
      else if owned != [] then (owned[0].0, owned[0].1, Foreign)
      else (canonical, side, Unresolved)
  }

  function MakeLeg(side: Slot, venue: string, marketId: string, o: Order, bound: (string, Slot, Binding)): Leg {
    Leg(side, venue, marketId, o.fillQty, o.fillQty * o.fillPrice, bound.0, bound.1, bound.2,
        SettlementState(bound.0, bound.1))
  }

  function MarketIdOf(o: Order, market: string): string {
    Strip(if o.marketId != "" then o.marketId else market)
  }

  function VenueOf(o: Order, platform: string): string {
    Lower(if platform != "" then platform else o.platform)
  }

  function LegFor(mm: MarketMap, index: Index, fastPath: bool, canonical: string, side: Slot,
                  platform: string, market: string, order: Option<Order>): seq<Leg>
  {
    if order.None? || order.value.fillQty <= 0.0 then []
    else
      var o := order.value;
      var marketId, venue := MarketIdOf(o, market), VenueOf(o, platform);
      [MakeLeg(side, venue, marketId, o, Bind(mm, index, fastPath, canonical, side, venue, marketId))]
  }

  const OPEN_STATUSES := {
    "pending", "submitted", "simulated", "filled", "recovering", "manual_pending", "manual_entered"
  }

  /** The indexes the two legs of an execution saw, fresh or stale. */
  datatype Seen = Seen(yes: Index, no: Index)

  function OpenLegs(mm: MarketMap, seen: Seen, fastPath: bool, opp: Opportunity,
                    legYes: Option<Order>, legNo: Option<Order>): seq<Leg>
  {
    LegFor(mm, seen.yes, fastPath, opp.canonical, Yes, opp.yesPlatform, opp.yesMarket, legYes)
    + LegFor(mm, seen.no, fastPath, opp.canonical, No, opp.noPlatform, opp.noMarket, legNo)
  }

  function LegsOf(mm: MarketMap, seen: Seen, fastPath: bool, e: Execution): seq<Leg> {
    if e.opportunity.None? || Lower(e.status) !in OPEN_STATUSES then []
    else OpenLegs(mm, seen, fastPath, e.opportunity.value, e.legYes, e.legNo)
  }

  predicate SameState(legs: seq<Leg>) {
    forall i, j :: 0 <= i < j < |legs| ==> legs[i].state == legs[j].state
  }

  predicate Unverified(legs: seq<Leg>) {
    exists i :: 0 <= i < |legs| && (legs[i].binding.Foreign? || legs[i].binding.Unresolved?)
  }

  predicate Flagged(legs: seq<Leg>) {
    |legs| >= 2 && SameState(legs) && Unverified(legs)
  }

  /** A leg is filled, states what its owner's contract pays in, and unless it
      is foreign its owner is the position itself. */
  predicate Shaped(leg: Leg, canonical: string) {
    && leg.quantity > 0.0
    && leg.state == SettlementState(leg.ownerCanonical, leg.ownerSlot)
    && (leg.binding.Foreign? || (leg.ownerCanonical == canonical && leg.ownerSlot == leg.side))
  }

  lemma LegShaped(mm: MarketMap, index: Index, fastPath: bool, canonical: string, side: Slot,
                  platform: string, market: string, order: Option<Order>)
    ensures var legs := LegFor(mm, index, fastPath, canonical, side, platform, market, order);
      |legs| <= 1 && (legs != [] ==> Shaped(legs[0], canonical) && legs[0].side == side)
  {
  }

  lemma LegsShaped(mm: MarketMap, seen: Seen, fastPath: bool, e: Execution)
    ensures var legs := LegsOf(mm, seen, fastPath, e);
      && |legs| <= 2 && (legs != [] ==> e.opportunity.Some?)
      && (forall i :: 0 <= i < |legs| ==> Shaped(legs[i], e.opportunity.value.canonical))
      && (|legs| == 2 ==> legs[0].side == Yes && legs[1].side == No)
  {
    if e.opportunity.Some? {
      var opp := e.opportunity.value;
      LegShaped(mm, seen.yes, fastPath, opp.canonical, Yes, opp.yesPlatform, opp.yesMarket, e.legYes);
      LegShaped(mm, seen.no, fastPath, opp.canonical, No, opp.noPlatform, opp.noMarket, e.legNo);
    }
  }

  /** Whatever the owner cache holds: a two-leg position is flagged exactly when
      both legs pay in the same state, and then some leg's contract belongs to
      another canonical or slot.  Verified, assumed and unresolved legs alone
      are never flagged. */
  lemma FlaggedIffSameState(mm: MarketMap, seen: Seen, fastPath: bool, e: Execution)
    ensures var legs := LegsOf(mm, seen, fastPath, e);
      && (Flagged(legs) <==> |legs| == 2 && legs[0].state == legs[1].state)
      && (Flagged(legs) ==> exists i :: 0 <= i < 2 && legs[i].binding.Foreign?)
  {
    var legs := LegsOf(mm, seen, fastPath, e);
    LegsShaped(mm, seen, fastPath, e);
    if |legs| == 2 {
      if !legs[0].binding.Foreign? && !legs[1].binding.Foreign? {
        SlotsAreComplements(e.opportunity.value.canonical, Yes);
      }
    }
  }

  /** The order of one leg has been filled. */
  predicate Filled(order: Option<Order>) {
    order.Some? && order.value.fillQty > 0.0
  }

  /** The execution counts as an open position. */
  predicate Open(e: Execution) {
    && e.opportunity.Some?
    && Lower(e.status) in
         ["pending", "submitted", "simulated", "filled", "recovering", "manual_pending", "manual_entered"]
  }

  /** What a leg says of the order behind it. */
  predicate Reports(leg: Leg, side: Slot, o: Order, platform: string, market: string) {
    && leg.side == side
    && leg.quantity == o.fillQty && leg.cost == o.fillQty * o.fillPrice
    && leg.marketId == Strip(if o.marketId == "" then market else o.marketId)
    && leg.platform == Lower(if platform == "" then o.platform else platform)
  }

  /** The legs of an execution: one for each filled order of an open one, YES before
      NO, with its quantity and its cost, the price times the quantity. */
  lemma LegsReport(mm: MarketMap, seen: Seen, fastPath: bool, e: Execution)
    ensures var legs, yes, no := LegsOf(mm, seen, fastPath, e), Open(e) && Filled(e.legYes), Open(e) && Filled(e.legNo);
      && |legs| == (if yes then 1 else 0) + (if no then 1 else 0)
      && (yes ==> Reports(legs[0], Yes, e.legYes.value, e.opportunity.value.yesPlatform, e.opportunity.value.yesMarket))
      && (no ==> Reports(legs[|legs| - 1], No, e.legNo.value, e.opportunity.value.noPlatform,
                         e.opportunity.value.noMarket))
  {
    OpenStatuses(Lower(e.status));
    if e.opportunity.Some? {
      var opp := e.opportunity.value;
      LegReports(mm, seen.yes, fastPath, opp.canonical, Yes, opp.yesPlatform, opp.yesMarket, e.legYes);
      LegReports(mm, seen.no, fastPath, opp.canonical, No, opp.noPlatform, opp.noMarket, e.legNo);
    }
  }

  lemma OpenStatuses(status: string)
    ensures status in OPEN_STATUSES <==>
            status in ["pending", "submitted", "simulated", "filled", "recovering", "manual_pending", "manual_entered"]
  {
  }

  lemma LegReports(mm: MarketMap, index: Index, fastPath: bool, canonical: string, side: Slot,
                   platform: string, market: string, order: Option<Order>)
    ensures var legs := LegFor(mm, index, fastPath, canonical, side, platform, market, order);
      if Filled(order) then |legs| == 1 && Reports(legs[0], side, order.value, platform, market) else legs == []
  {
  }

  /** The two legs are a hedge: each pays exactly when the other does not. */
  predicate Offset(legs: seq<Leg>)
    requires |legs| == 2
  {
    legs[0].state == Complement(legs[1].state) && legs[1].state == Complement(legs[0].state)
  }

  /** When two legs offset: always without a foreign one; with exactly one, when
      its contract pays where the position's own would have.  In the latter case
      they are flagged when it pays where the other leg pays; a contract of an
      unrelated domain is neither, so unflagged does not mean hedged. */
  lemma OffsetExactly(mm: MarketMap, seen: Seen, fastPath: bool, e: Execution)
    ensures var legs := LegsOf(mm, seen, fastPath, e);
      |legs| == 2 ==>
        && (!legs[0].binding.Foreign? && !legs[1].binding.Foreign? ==> Offset(legs) && !Flagged(legs))
        && (forall i :: 0 <= i < 2 && legs[i].binding.Foreign? && !legs[1 - i].binding.Foreign? ==>
              && (Offset(legs) <==> legs[i].state == SettlementState(e.opportunity.value.canonical, legs[i].side))
              && (Flagged(legs) <==> legs[i].state == SettlementState(e.opportunity.value.canonical, legs[1 - i].side)))
  {
    var legs := LegsOf(mm, seen, fastPath, e);
    LegsShaped(mm, seen, fastPath, e);
    FlaggedIffSameState(mm, seen, fastPath, e);
    if |legs| == 2 {
      SlotsAreComplements(e.opportunity.value.canonical, Yes);
      SlotsAreComplements(e.opportunity.value.canonical, No);
    }
  }

  /** The live check passes for every filled ForecastEx leg of the position. */
  predicate LiveBound(mm: MarketMap, canonical: string, side: Slot, platform: string, market: string,
                      order: Option<Order>)
  {
    order.Some? && order.value.fillQty > 0.0 && VenueOf(order.value, platform) == "forecastex" ==>
      MatchesOwn(mm, canonical, side, MarketIdOf(order.value, market))
  }

  /** For any cache contents: a position whose ForecastEx legs all pass the live
      check is never flagged. */
  lemma LiveBoundNeverFlagged(mm: MarketMap, seen: Seen, e: Execution)
    requires e.opportunity.Some? ==>
      && var opp := e.opportunity.value;
      && LiveBound(mm, opp.canonical, Yes, opp.yesPlatform, opp.yesMarket, e.legYes)
      && LiveBound(mm, opp.canonical, No, opp.noPlatform, opp.noMarket, e.legNo)
    ensures !Flagged(LegsOf(mm, seen, true, e))
  {
    FlaggedIffSameState(mm, seen, true, e);
  }

  /** A stale index only delays a label: whoever it names did have the contract in
      the map the index was built from, and the position does not have it now. */
  lemma LabelIsOnlyDelayed(built: MarketMap, mm: MarketMap, canonical: string, side: Slot,
                           platform: string, marketId: string)
    requires built.WellFormed()
    ensures var bound := Bind(mm, FreshIndex(built), true, canonical, side, platform, marketId);
      bound.2.Foreign? ==>
        && Recorded(built, bound.0, bound.1) == Some(marketId) && (bound.0, bound.1) != (canonical, side)
        && !MatchesOwn(mm, canonical, side, marketId) && !MatchesOwn(built, canonical, side, marketId)
  {
    var owned := OwnersOf(FreshIndex(built), marketId);
    FastCheckIsExact(built, canonical, side, marketId);
    if owned != [] { OwnerIndexExact(built, |built.order|, marketId, owned[0]); }
  }

  /** The incident that motivated the check: the NO leg was bought on a
      contract the map files first under the other party's NO. */
  lemma PartySwapIsFlagged(mm: MarketMap, seen: Seen, e: Execution, other: string)
    requires e.opportunity.Some? && e.legYes.Some? && e.legNo.Some? && Lower(e.status) in OPEN_STATUSES
    requires e.legYes.value.fillQty > 0.0 && e.legNo.value.fillQty > 0.0
    requires var opp := e.opportunity.value;
      && opp.yesPlatform != "" && Lower(opp.yesPlatform) != "forecastex"
      && opp.noPlatform != "" && Lower(opp.noPlatform) == "forecastex"
      && PartyOf(opp.canonical).Some? && PartyOf(other).Some? && PartyOf(opp.canonical) != PartyOf(other)
      && var conid := MarketIdOf(e.legNo.value, opp.noMarket);
         && !MatchesOwn(mm, opp.canonical, No, conid)
         && (opp.canonical, No) !in OwnersOf(seen.no, conid)
         && OwnersOf(seen.no, conid) != [] && OwnersOf(seen.no, conid)[0] == (other, No)
    ensures Flagged(LegsOf(mm, seen, true, e))
  {
    PartySwap(e.opportunity.value.canonical, other, Yes);
    FlaggedIffSameState(mm, seen, true, e);
  }

  lemma BindSameOwner(mm: MarketMap, canonical: string, side: Slot, platform: string, marketId: string)
    requires mm.WellFormed()
    ensures var fast, slow := Bind(mm, FreshIndex(mm), true, canonical, side, platform, marketId),
                              Bind(mm, FreshIndex(mm), false, canonical, side, platform, marketId);
      && fast.0 == slow.0 && fast.1 == slow.1
      && (fast.2 == slow.2 || (fast.2.Verified? && slow.2.Unresolved? && !ValidConid(marketId)))
  {
    FastCheckIsExact(mm, canonical, side, marketId);
    if !ValidConid(marketId) && OwnersOf(FreshIndex(mm), marketId) != [] {
      var owner := OwnersOf(FreshIndex(mm), marketId)[0];
      OwnerIndexExact(mm, |mm.order|, marketId, owner);
    }
  }

  /** Two legs that differ at most in how their binding is labelled. */
  predicate SamePayoff(a: Leg, b: Leg) {
    a == b.(binding := a.binding)
  }

  /** With a fresh index the fast path changes no state, amount or flag; only a
      recorded placeholder conid is labelled differently. */
  lemma FastPathChangesNothing(mm: MarketMap, e: Execution)
    requires mm.WellFormed()
    ensures var current := Seen(FreshIndex(mm), FreshIndex(mm));
      var fast, slow := LegsOf(mm, current, true, e), LegsOf(mm, current, false, e);
      && SamePayoffs(fast, slow)
      && (Flagged(fast) <==> Flagged(slow))
  {
    var current := Seen(FreshIndex(mm), FreshIndex(mm));
    if e.opportunity.Some? {
      var opp := e.opportunity.value;
      LegSamePayoff(mm, opp.canonical, Yes, opp.yesPlatform, opp.yesMarket, e.legYes);
      LegSamePayoff(mm, opp.canonical, No, opp.noPlatform, opp.noMarket, e.legNo);
    }
    FlaggedIffSameState(mm, current, true, e);
    FlaggedIffSameState(mm, current, false, e);
  }

  predicate SamePayoffs(a: seq<Leg>, b: seq<Leg>) {
    && |a| == |b|
    && forall i :: 0 <= i < |a| ==> SamePayoff(a[i], b[i]) && (a[i] == b[i] || !ValidConid(a[i].marketId))
  }

  lemma LegSamePayoff(mm: MarketMap, canonical: string, side: Slot, platform: string, market: string,
                      order: Option<Order>)
    requires mm.WellFormed()
    ensures var fast, slow := LegFor(mm, FreshIndex(mm), true, canonical, side, platform, market, order),
                              LegFor(mm, FreshIndex(mm), false, canonical, side, platform, market, order);
      |fast| <= 1 && SamePayoffs(fast, slow)
  {
    if order.Some? {
      var o := order.value;
      BindSameOwner(mm, canonical, side, VenueOf(o, platform), MarketIdOf(o, market));
    }
  }

  // ---------------------------------------------------------------- the book

  function Stakes(legs: seq<Leg>): seq<Stake> {
    seq(|legs|, i requires 0 <= i < |legs| => Stake(legs[i].state, legs[i].quantity, legs[i].cost))
  }

  /** What the book relies on about the legs of one execution. */
  predicate WellPaired(legs: seq<Leg>) {
    && AllPositive(Stakes(legs)) && AllPaired(Complement, Stakes(legs))
    && (Flagged(legs) <==> |legs| == 2 && legs[0].state == legs[1].state)
  }

  lemma LegsWellPaired(mm: MarketMap, seen: Seen, e: Execution)
    ensures WellPaired(LegsOf(mm, seen, true, e))
  {
    var legs := LegsOf(mm, seen, true, e);
    LegsShaped(mm, seen, true, e);
    FlaggedIffSameState(mm, seen, true, e);
    forall i | 0 <= i < |legs| ensures Paired(Complement, legs[i].state) && legs[i].quantity > 0.0 {
      SlotsAreComplements(legs[i].ownerCanonical, legs[i].ownerSlot);
    }
  }

  /** What a position puts into the payoff table. */
  function Contribution(legs: seq<Leg>): seq<Stake> {
    if Flagged(legs) then Stakes(legs) else []
  }

  lemma ContributionShape(legs: seq<Leg>)
    requires WellPaired(legs)
    ensures Contributes(Complement, Contribution(legs))
    ensures Contribution(legs) != [] <==> |legs| == 2 && legs[0].state == legs[1].state
  {
    if Flagged(legs) {
      assert Stakes(legs)[0].state == legs[0].state && Stakes(legs)[1].state == legs[1].state;
    }
  }

  /** Contracts and cost of the two orders of an execution. */
  function OrderQuantity(e: Execution): real {
    (if e.legYes.Some? then e.legYes.value.fillQty else 0.0) + if e.legNo.Some? then e.legNo.value.fillQty else 0.0
  }

  function OrderCost(e: Execution): real {
    (if e.legYes.Some? then e.legYes.value.fillQty * e.legYes.value.fillPrice else 0.0)
    + if e.legNo.Some? then e.legNo.value.fillQty * e.legNo.value.fillPrice else 0.0
  }

  /** Summed over the flagged executions. */
  function FlaggedQuantity(es: seq<Execution>, flags: seq<bool>): real
    requires |es| == |flags|
  {
    if es == [] then 0.0
    else
      var n := |es| - 1;
      FlaggedQuantity(es[..n], flags[..n]) + if flags[n] then OrderQuantity(es[n]) else 0.0
  }

  function FlaggedCost(es: seq<Execution>, flags: seq<bool>): real
    requires |es| == |flags|
  {
    if es == [] then 0.0
    else
      var n := |es| - 1;
      FlaggedCost(es[..n], flags[..n]) + if flags[n] then OrderCost(es[n]) else 0.0
  }

  /** Of these, what pays in one state: everything flagged whose legs pay there. */
  function FlaggedPayout(es: seq<Execution>, flags: seq<bool>, states: seq<string>, state: string): real
    requires |es| == |flags| == |states|
  {
    if es == [] then 0.0
    else
      var n := |es| - 1;
      FlaggedPayout(es[..n], flags[..n], states[..n], state)
      + if flags[n] && states[n] == state then OrderQuantity(es[n]) else 0.0
  }

  lemma TwoStakes(stakes: seq<Stake>, a: Stake, b: Stake, state: string)
    requires a.state == b.state
    ensures Quantity(stakes + [a, b]) == Quantity(stakes) + a.quantity + b.quantity
    ensures Cost(stakes + [a, b]) == Cost(stakes) + a.cost + b.cost
    ensures Payout(stakes + [a, b], state)
            == Payout(stakes, state) + if a.state == state then a.quantity + b.quantity else 0.0
  {
    assert stakes + [a, b] == (stakes + [a]) + [b];
    assert (stakes + [a] + [b])[..|stakes| + 1] == stakes + [a] && (stakes + [a])[..|stakes|] == stakes;
  }

  /** What one execution puts into the book, in terms of its orders. */
  predicate Accounts(part: seq<Stake>, e: Execution, flag: bool, state: string) {
    if flag then |part| == 2 && part[0].state == part[1].state == state
      && part[0].quantity + part[1].quantity == OrderQuantity(e) && part[0].cost + part[1].cost == OrderCost(e)
    else part == []
  }

  /** The figures add up over the orders of the flagged executions. */
  lemma {:induction false} FiguresAddUp(es: seq<Execution>, flags: seq<bool>, states: seq<string>,
                                        parts: seq<seq<Stake>>, state: string)
    requires |es| == |flags| == |states| == |parts|
    requires forall i :: 0 <= i < |es| ==> Accounts(parts[i], es[i], flags[i], states[i])
    ensures Quantity(Flatten(parts)) == FlaggedQuantity(es, flags)
    ensures Cost(Flatten(parts)) == FlaggedCost(es, flags)
    ensures Payout(Flatten(parts), state) == FlaggedPayout(es, flags, states, state)
  {
    if es != [] {
      var n := |es| - 1;
      FiguresAddUp(es[..n], flags[..n], states[..n], parts[..n], state);
      var front, part := Flatten(parts[..n]), parts[n];
      assert Accounts(part, es[n], flags[n], states[n]);
      if flags[n] {
        assert part == [part[0], part[1]];
        TwoStakes(front, part[0], part[1], state);
      } else {
        assert front + part == front;
      }
    }
  }

  function Contributions(positions: seq<seq<Leg>>): seq<seq<Stake>> {
    seq(|positions|, i requires 0 <= i < |positions| => Contribution(positions[i]))
  }

  /** The state a flagged position pays in. */
  function StateShown(legs: seq<Leg>): string {
    if legs == [] then "" else legs[0].state
  }

  function StatesShown(positions: seq<seq<Leg>>): seq<string> {
    seq(|positions|, i requires 0 <= i < |positions| => StateShown(positions[i]))
  }

  lemma ContributionAccounts(legs: seq<Leg>, e: Execution)
    requires |legs| == 2 ==>
      && e.legYes.Some? && legs[0].quantity == e.legYes.value.fillQty
      && legs[0].cost == e.legYes.value.fillQty * e.legYes.value.fillPrice
      && e.legNo.Some? && legs[1].quantity == e.legNo.value.fillQty
      && legs[1].cost == e.legNo.value.fillQty * e.legNo.value.fillPrice
    requires Flagged(legs) <==> |legs| == 2 && legs[0].state == legs[1].state
    ensures Accounts(Contribution(legs), e, Flagged(legs), StateShown(legs))
  {
  }

  /** What the loop finds out about one execution. */
  predicate Assessed(mm: MarketMap, seen: Seen, e: Execution, legs: seq<Leg>, flagged: bool, stakes: seq<Stake>) {
    && legs == LegsOf(mm, seen, true, e)
    && (flagged <==> |legs| == 2 && legs[0].state == legs[1].state)
    && stakes == Contribution(legs) && Contributes(Complement, stakes)
    && Accounts(stakes, e, flagged, StateShown(legs))
  }

  /** One round of the loop. */
  method AssessPosition(mm: MarketMap, seen: Seen, e: Execution)
    returns (legs: seq<Leg>, flagged: bool, stakes: seq<Stake>)
    ensures Assessed(mm, seen, e, legs, flagged, stakes)
  {
    legs := LegsOf(mm, seen, true, e);
    LegsReport(mm, seen, true, e);
    LegsWellPaired(mm, seen, e);
    ContributionShape(legs);
    ContributionAccounts(legs, e);
    flagged, stakes := Flagged(legs), Contribution(legs);
  }

  ghost function Assessor(mm: MarketMap): (Seen, Execution, seq<Leg>, bool, seq<Stake>) -> bool {
    (seen, e, legs, flagged, stakes) => Assessed(mm, seen, e, legs, flagged, stakes)
  }

  ghost predicate AllHold(ok: (Seen, Execution, seq<Leg>, bool, seq<Stake>) -> bool, seen: seq<Seen>,
                          es: seq<Execution>, positions: seq<seq<Leg>>, flags: seq<bool>, parts: seq<seq<Stake>>)
    requires |positions| == |flags| == |parts| <= |es| == |seen|
  {
    forall i :: 0 <= i < |positions| ==> ok(seen[i], es[i], positions[i], flags[i], parts[i])
  }

  lemma AllHoldMore(ok: (Seen, Execution, seq<Leg>, bool, seq<Stake>) -> bool, seen: seq<Seen>, es: seq<Execution>,
                    positions: seq<seq<Leg>>, flags: seq<bool>, parts: seq<seq<Stake>>,
                    legs: seq<Leg>, flag: bool, part: seq<Stake>)
    requires |positions| == |flags| == |parts| < |es| == |seen|
    requires AllHold(ok, seen, es, positions, flags, parts)
    requires ok(seen[|positions|], es[|positions|], legs, flag, part)
    ensures AllHold(ok, seen, es, positions + [legs], flags + [flag], parts + [part])
  {
  }

  /** The positions, flags and contributions of the loop. */
  method AssessAll(mm: MarketMap, es: seq<Execution>, seen: seq<Seen>)
    returns (positions: seq<seq<Leg>>, flags: seq<bool>, parts: seq<seq<Stake>>)
    requires |es| == |seen|
    ensures |positions| == |flags| == |parts| == |es|
    ensures AllHold(Assessor(mm), seen, es, positions, flags, parts)
  {
    positions, flags, parts := [], [], [];
    for n := 0 to |es|
      invariant |positions| == |flags| == |parts| == n
      invariant AllHold(Assessor(mm), seen, es, positions, flags, parts)
    {
      var legs, flagged, stakes := AssessPosition(mm, seen[n], es[n]);
      AllHoldMore(Assessor(mm), seen, es, positions, flags, parts, legs, flagged, stakes);
      positions, flags, parts := positions + [legs], flags + [flagged], parts + [stakes];
    }
  }

  /** _directional_book.  Flagged are exactly the executions whose two filled legs
      pay in the same state; domains and figures account for their legs alone, and
      contracts, cost and payouts are those of their orders. */
  method DetectDirectional(mm: MarketMap, es: seq<Execution>, seen: seq<Seen>)
    returns (positions: seq<seq<Leg>>, flags: seq<bool>, domains: seq<set<string>>, summary: Summary)
    requires |es| == |seen|
    ensures |positions| == |flags| == |es|
    ensures forall i :: 0 <= i < |es| ==> positions[i] == LegsOf(mm, seen[i], true, es[i])
    ensures forall i :: 0 <= i < |es| ==>
              (flags[i] <==> |positions[i]| == 2 && positions[i][0].state == positions[i][1].state)
    ensures Domains(Complement, domains, Flatten(Contributions(positions)))
    ensures Summarizes(Complement, summary, Flatten(Contributions(positions)))
    ensures summary.contracts == FlaggedQuantity(es, flags) && summary.cost == FlaggedCost(es, flags)
    ensures forall s :: Get(summary.payout, s) == FlaggedPayout(es, flags, StatesShown(positions), s)
    ensures SumOver(summary.universe, summary.payout) == summary.contracts
    ensures forall s :: s in summary.universe ==> Complement(s) in summary.universe
    ensures summary.worst.Some? ==>
      && summary.worst.value.1 >= -summary.cost
      && (summary.worst.value.1 == -summary.cost <==> exists s :: s in summary.universe && s !in summary.payout)
  {
    var parts;
    positions, flags, parts := AssessAll(mm, es, seen);
    forall i | 0 <= i < |es| ensures Assessed(mm, seen[i], es[i], positions[i], flags[i], parts[i]) {
      assert Assessor(mm)(seen[i], es[i], positions[i], flags[i], parts[i]);
    }
    assert forall i :: 0 <= i < |es| ==> parts[i] == Contribution(positions[i]) && Contributes(Complement, parts[i]);
    assert parts == Contributions(positions);
    domains, summary := Tally(Complement, parts);
    FiguresAddUp(es, flags, StatesShown(positions), parts, "");
    forall s ensures Get(summary.payout, s) == FlaggedPayout(es, flags, StatesShown(positions), s) {
      FiguresAddUp(es, flags, StatesShown(positions), parts, s);
    }
  }
}
