/** Results about whole auctions: lifecycle and location of the lot, deadlines, and how long an auction can
    be kept alive. */
module AuctionTheorems {
  import opened Base
  import opened GlobalConfigs
  import opened Tokens
  import opened AuctionModel
  import opened AuctionInvariant

  /* Lifecycle and the lot. */

  /** The one account that holds the auctioned unit. */
  function LotHolder(s: State): Account {
    if LotEscrow in s.lots then LotEscrow
    else if s.auction.status.Finished? && s.auction.topBidder.Some? then Wallet(s.auction.topBidder.value)
    else Wallet(s.auction.creator)
  }

  /** Compared with `base`, exactly one unit has moved from the creator's wallet to the holder. */
  ghost predicate LotMovedFrom(s: State, base: Ledger) {
    forall a :: Balance(s.lots, a) == Balance(base, a) - (if a == Wallet(s.auction.creator) then 1 else 0)
                                                       + (if a == LotHolder(s) then 1 else 0)
  }

  /** A cancelled or finished auction stays as it is: same status, same top bidder, no bid ever added. */
  ghost predicate Frozen(s: State, s': State) {
    && s'.auction.status == s.auction.status
    && s'.auction.topBidder == s.auction.topBidder && s'.auction.topBid == s.auction.topBid
    && s'.auction.expiredTimestamp == s.auction.expiredTimestamp && s'.bids.Keys == s.bids.Keys
  }

  lemma StepFreezes(s: State, action: Action)
    requires Inv(s) && Apply(s, action).Ok? && !s.auction.status.InProgress?
    ensures Frozen(s, Apply(s, action).value)
  {
    match action
    case MakeBid(bidder, bidAmount, maxAllowed, eligible) => MakeBidExact(s, bidder, bidAmount, maxAllowed, eligible);
    case CancelBid(bidder) => CancelBidExact(s, bidder);
    case ClaimLot(bidder) => ClaimLotExact(s, bidder);
    case ClaimRevenue(signer, topBidder, treasury) => ClaimRevenueExact(s, signer, topBidder, treasury);
    case CancelAuction(signer) => CancelAuctionExact(s, signer);
    case ChangeConfigs(signer, input) =>
    case ExternalTransfer(from, to, amount) =>
  }

  lemma ClaimMovesLot(s: State, bidder: User, base: Ledger)
    requires Inv(s) && ApplyClaimLot(s, bidder).Ok? && LotMovedFrom(s, base)
    ensures LotMovedFrom(ApplyClaimLot(s, bidder).value, base)
  {
    ClaimLotExact(s, bidder);
  }

  lemma CancelMovesLot(s: State, signer: User, base: Ledger)
    requires Inv(s) && ApplyCancelAuction(s, signer).Ok? && LotMovedFrom(s, base)
    ensures LotMovedFrom(ApplyCancelAuction(s, signer).value, base)
  {
    CancelAuctionExact(s, signer);
  }

  lemma LotStays(s: State, s': State, base: Ledger)
    requires LotMovedFrom(s, base) && s'.lots == s.lots && LotHolder(s') == LotHolder(s)
    requires s'.auction.creator == s.auction.creator
    ensures LotMovedFrom(s', base)
  {
  }

  /** The holder does not change when the lot does not move: an auction is only finished by a top bidder, after whose
      bid nobody else can hold the lot. */
  lemma OtherStepsLeaveLot(s: State, action: Action)
    requires Inv(s) && Apply(s, action).Ok? && !action.ClaimLot? && !action.CancelAuction?
    ensures var s' := Apply(s, action).value;
            s'.lots == s.lots && LotHolder(s') == LotHolder(s) && s'.auction.creator == s.auction.creator
  {
    match action
    case MakeBid(bidder, bidAmount, maxAllowed, eligible) => MakeBidExact(s, bidder, bidAmount, maxAllowed, eligible);
    case CancelBid(bidder) => CancelBidExact(s, bidder);
    case ClaimRevenue(signer, topBidder, treasury) => ClaimRevenueExact(s, signer, topBidder, treasury);
    case _ =>
  }

  lemma StepLot(s: State, action: Action, base: Ledger)
    requires Inv(s) && Apply(s, action).Ok? && LotMovedFrom(s, base)
    ensures LotMovedFrom(Apply(s, action).value, base)
  {
    match action
    case ClaimLot(bidder) => ClaimMovesLot(s, bidder, base);
    case CancelAuction(signer) => CancelMovesLot(s, signer, base);
    case _ =>
      OtherStepsLeaveLot(s, action);
      LotStays(s, Apply(s, action).value, base);
  }

  lemma StepBidsGrow(s: State, action: Action)
    requires Inv(s) && Apply(s, action).Ok?
    ensures s.bids.Keys <= Apply(s, action).value.bids.Keys
    ensures Apply(s, action).value.auction.creator == s.auction.creator
  {
    match action
    case MakeBid(bidder, bidAmount, maxAllowed, eligible) => MakeBidExact(s, bidder, bidAmount, maxAllowed, eligible);
    case CancelBid(bidder) => CancelBidExact(s, bidder);
    case ClaimLot(bidder) => ClaimLotExact(s, bidder);
    case ClaimRevenue(signer, topBidder, treasury) => ClaimRevenueExact(s, signer, topBidder, treasury);
    case CancelAuction(signer) => CancelAuctionExact(s, signer);
    case ChangeConfigs(signer, input) =>
    case ExternalTransfer(from, to, amount) =>
  }

  /** On every run Cancelled and Finished are absorbing, bid records are never removed, and the lot is in exactly
      one place: the escrow, back with the creator after a cancellation, or with the top bidder. */
  lemma {:induction false} Lifecycle(s: State, events: seq<Event>, base: Ledger)
    requires Inv(s) && LotMovedFrom(s, base)
    ensures var z := Run(s, events);
            && LotMovedFrom(z, base) && s.bids.Keys <= z.bids.Keys && z.auction.creator == s.auction.creator
            && (!s.auction.status.InProgress? ==> Frozen(s, z))
            && (z.auction.status.Cancelled? ==> s.bids == map[] && LotHolder(z) == Wallet(z.auction.creator))
    decreases |events|
  {
    if events != [] {
      var t := s.(clock := Later(s.clock, events[0].now));
      SameIndex(s, t);
      NextKeepsInv(s, events[0]);
      assert LotHolder(t) == LotHolder(s) && LotMovedFrom(t, base);
      if Apply(t, events[0].action).Ok? {
        StepLot(t, events[0].action, base);
        StepBidsGrow(t, events[0].action);
        if !s.auction.status.InProgress? {
          StepFreezes(t, events[0].action);
        }
      }
      Lifecycle(Next(s, events[0]), events[1..], base);
    }
  }

  lemma LotAfterDeposit(s: State, lots: Ledger, events: seq<Event>)
    requires Inv(s) && LotEscrow !in lots && Wallet(s.auction.creator) in lots && lots[Wallet(s.auction.creator)] >= 1
    requires s.lots == lots[Wallet(s.auction.creator) := lots[Wallet(s.auction.creator)] - 1][LotEscrow := 1]
    ensures var z := Run(s, events);
            && Inv(z) && LotMovedFrom(z, lots) && z.auction.creator == s.auction.creator
            && Total(z.tokens) == Total(s.tokens)
  {
    assert LotMovedFrom(s, lots);
    RunKeepsInv(s, events);
    Lifecycle(s, events, lots);
  }

  /** The same from creation on, in terms of the NFT balances before the auction existed. */
  lemma LotAfterCreation(c: Configs, now: int, terms: AuctionTerms, tokens: Ledger, lots: Ledger, events: seq<Event>)
    requires Fresh(tokens) && Fresh(lots) && Total(tokens) <= I64_MAX && c.numKeysPerIndexPage > 0
    requires CreateAuction(c, now, terms, tokens, lots).Ok?
    ensures var z := Run(CreateAuction(c, now, terms, tokens, lots).value, events);
            && Inv(z) && LotMovedFrom(z, lots) && z.auction.creator == terms.creator
            && Total(z.tokens) == Total(tokens)
  {
    CreateEstablishesInv(c, now, terms, tokens, lots);
    LotAfterDeposit(CreateAuction(c, now, terms, tokens, lots).value, lots, events);
  }

  /* The bid index. */

  lemma NextAppends(s: State, e: Event)
    requires Inv(s)
    ensures Inv(Next(s, e)) && Bidders(s) <= Bidders(Next(s, e))
  {
    var t, a := s.(clock := Later(s.clock, e.now)), e.action;
    SameIndex(s, t);
    NextKeepsInv(s, e);
    if Apply(t, a).Ok? {
      if a.MakeBid? {
        MakeBidPages(t, a.bidder, a.bidAmount, a.maxAllowed, a.eligible);
      } else {
        StepDeadline(t, a);
      }
    }
  }

  /** The list of bidders only ever grows at its end: the first bid of a new bidder appends it. */
  lemma {:induction false} BiddersAppended(s: State, events: seq<Event>)
    requires Inv(s)
    ensures Inv(Run(s, events)) && Bidders(s) <= Bidders(Run(s, events))
    decreases |events|
  {
    if events != [] {
      NextAppends(s, events[0]);
      BiddersAppended(Next(s, events[0]), events[1..]);
    }
  }

  /* Auctions nobody can bid on. */

  /** The account has room for the key of a top bidder. With g groups and h recipients that is 33g + 34h <= 567;
      creation only asks for 33g + 34h <= 599. */
  predicate TopBidderFits(a: Auction): (fit: bool)
    ensures fit <==> 33 * a.numGroups + 34 * |a.revenueShares| <= 567
    ensures SerializedSize(a.(topBidder := None)) <= AUCTION_SPACE
            <==> 33 * a.numGroups + 34 * |a.revenueShares| <= 599
  {
    SerializedSize(a.(topBidder := Some(a.creator))) <= AUCTION_SPACE
  }

  lemma NoBidPlaced(s: State, action: Action)
    requires Inv(s) && s.auction.topBidder.None? && !TopBidderFits(s.auction) && Apply(s, action).Ok?
    ensures !action.MakeBid?
    ensures var s' := Apply(s, action).value;
            s'.auction == s.auction.(status := s'.auction.status) && s'.bids == map[]
  {
    match action
    case MakeBid(bidder, bidAmount, maxAllowed, eligible) => MakeBidExact(s, bidder, bidAmount, maxAllowed, eligible);
    case _ =>
  }

  /** Without room for a top bidder no bid is accepted on any run; all that can happen is a cancellation. */
  lemma {:induction false} UnbiddableForever(s: State, events: seq<Event>)
    requires Inv(s) && s.auction.topBidder.None? && !TopBidderFits(s.auction)
    ensures var z := Run(s, events);
            z.auction == s.auction.(status := z.auction.status) && z.bids == map[] && AcceptedBids(s, events) == 0
            && !z.auction.status.Finished?
    decreases |events|
  {
    if events != [] {
      var t := s.(clock := Later(s.clock, events[0].now));
      SameIndex(s, t);
      NextKeepsInv(s, events[0]);
      if Apply(t, events[0].action).Ok? {
        NoBidPlaced(t, events[0].action);
      }
      UnbiddableForever(Next(s, events[0]), events[1..]);
    }
  }

  /* Deadlines. */

  /** Right after an accepted bid at least the smaller of the two windows remains; the deadline moves earlier
      exactly when the bid falls in the final window and the extension ends before the old deadline. */
  lemma DeadlineAfterBid(s: State, bidder: User, bidAmount: nat, maxAllowed: nat, eligible: bool)
    requires Inv(s) && ApplyMakeBid(s, bidder, bidAmount, maxAllowed, eligible).Ok?
    ensures var after := ApplyMakeBid(s, bidder, bidAmount, maxAllowed, eligible).value.auction.expiredTimestamp;
            var before := s.auction.expiredTimestamp;
            var last, extend := s.configs.lastMinutesForAuctionExtend, s.configs.auctionExtendMinutes;
            && after == (if before - s.clock >= last * 60 then before else s.clock + extend * 60)
            && after - s.clock >= Min(last, extend) * 60
            && after <= before + extend * 60
            && (after < before <==> before - s.clock < last * 60 && before - s.clock > extend * 60)
            && (extend >= last ==> after >= before)
  {
    MakeBidExact(s, bidder, bidAmount, maxAllowed, eligible);
  }

  /** The configuration in force satisfies `p` before every instruction of the run. */
  ghost predicate Throughout(s: State, events: seq<Event>, p: Configs -> bool)
    decreases |events|
  {
    p(s.configs) && (events != [] ==> Throughout(Next(s, events[0]), events[1..], p))
  }

  lemma OtherStepsListNothing(s: State, action: Action)
    requires Apply(s, action).Ok? && !action.MakeBid?
    ensures var s' := Apply(s, action).value;
            && s'.auction == s.auction.(status := s'.auction.status) && s'.pages == s.pages
            && s'.configs.numKeysPerIndexPage == s.configs.numKeysPerIndexPage
  {
  }

  lemma StepDeadline(s: State, action: Action)
    requires Inv(s) && Apply(s, action).Ok? && !action.MakeBid?
    ensures Apply(s, action).value.auction == s.auction.(status := Apply(s, action).value.auction.status)
    ensures Apply(s, action).value.configs.numKeysPerIndexPage > 0 && Bidders(Apply(s, action).value) == Bidders(s)
  {
    OtherStepsListNothing(s, action);
  }

  /** While the extension is at least as long as the final window, no run moves the deadline earlier. */
  lemma {:induction false} DeadlineNeverMovesBack(s: State, events: seq<Event>)
    requires Inv(s)
    requires Throughout(s, events, (c: Configs) => c.auctionExtendMinutes >= c.lastMinutesForAuctionExtend)
    ensures Run(s, events).auction.expiredTimestamp >= s.auction.expiredTimestamp
    decreases |events|
  {
    if events != [] {
      var t, a := s.(clock := Later(s.clock, events[0].now)), events[0].action;
      SameIndex(s, t);
      NextKeepsInv(s, events[0]);
      if Apply(t, a).Ok? {
        if a.MakeBid? {
          DeadlineAfterBid(t, a.bidder, a.bidAmount, a.maxAllowed, a.eligible);
        } else {
          StepDeadline(t, a);
        }
      }
      DeadlineNeverMovesBack(Next(s, events[0]), events[1..]);
    }
  }

  /* How the price moves. */

  lemma RoundedRaise(topBid: nat, rateBps: nat, m: nat)
    ensures OutbidMinimum(topBid, rateBps) >= topBid + m <==> topBid * rateBps >= 10000 * m
  {
  }

  lemma ProductMonotone(a: nat, b: nat, c: nat)
    requires a <= b
    ensures a * c <= b * c
  {
  }

  /** An accepted bid raises the top bid exactly when it offers more itself or the outbid rate rounds to at
      least one unit. The program's comment that it always does is not true of small bids. */
  lemma WhenTopBidRises(s: State, bidder: User, bidAmount: nat, maxAllowed: nat, eligible: bool)
    requires Inv(s) && ApplyMakeBid(s, bidder, bidAmount, maxAllowed, eligible).Ok?
    ensures s.auction.topBid < ApplyMakeBid(s, bidder, bidAmount, maxAllowed, eligible).value.auction.topBid
            <==> s.auction.topBid < bidAmount || s.auction.topBid * s.configs.minOutbidRateBps >= 10000
  {
    BidPricing(s, bidder, bidAmount, maxAllowed, eligible);
    RoundedRaise(s.auction.topBid, s.configs.minOutbidRateBps, 1);
  }

  /** The top bid never falls, and once there is a top bidder there always is one, on any run. */
  lemma {:induction false} TopBidNeverFalls(s: State, events: seq<Event>)
    requires Inv(s)
    ensures Run(s, events).auction.topBid >= s.auction.topBid
    ensures s.auction.topBidder.Some? ==> Run(s, events).auction.topBidder.Some?
    decreases |events|
  {
    if events != [] {
      var t, a := s.(clock := Later(s.clock, events[0].now)), events[0].action;
      SameIndex(s, t);
      NextKeepsInv(s, events[0]);
      if Apply(t, a).Ok? {
        if a.MakeBid? {
          BidPricing(t, a.bidder, a.bidAmount, a.maxAllowed, a.eligible);
        } else {
          StepDeadline(t, a);
        }
      }
      TopBidNeverFalls(Next(s, events[0]), events[1..]);
    }
  }

  /** An accepted bid transfers nothing exactly when the escrow already holds the top bid and the bid does not raise
      it: the leader bidding again without an increase. The same comment concludes that the amount is positive. */
  lemma WhenNothingIsTransferred(s: State, bidder: User, bidAmount: nat, maxAllowed: nat, eligible: bool)
    requires Inv(s) && ApplyMakeBid(s, bidder, bidAmount, maxAllowed, eligible).Ok?
    ensures var s' := ApplyMakeBid(s, bidder, bidAmount, maxAllowed, eligible).value;
            Balance(s'.tokens, Wallet(bidder)) == Balance(s.tokens, Wallet(bidder))
            <==> && Balance(s.tokens, BidEscrow(bidder)) == s.auction.topBid
                 && bidAmount <= s.auction.topBid && s.auction.topBid * s.configs.minOutbidRateBps < 10000
  {
    MakeBidExact(s, bidder, bidAmount, maxAllowed, eligible);
    BidPricing(s, bidder, bidAmount, maxAllowed, eligible);
    WhenTopBidRises(s, bidder, bidAmount, maxAllowed, eligible);
    EscrowBelowTop(s, bidder);
  }

  predicate IsAcceptedBid(s: State, e: Event) {
    e.action.MakeBid? && Apply(s.(clock := Later(s.clock, e.now)), e.action).Ok?
  }

  function AcceptedBids(s: State, events: seq<Event>): nat
    decreases |events|
  {
    if events == [] then 0
    else (if IsAcceptedBid(s, events[0]) then 1 else 0) + AcceptedBids(Next(s, events[0]), events[1..])
  }

  /** One accepted bid under a rate that raises the start bid by at least `m`. */
  lemma BidRaises(s: State, bidder: User, bidAmount: nat, maxAllowed: nat, eligible: bool, m: nat)
    requires Inv(s) && ApplyMakeBid(s, bidder, bidAmount, maxAllowed, eligible).Ok?
    requires s.auction.startBid * s.configs.minOutbidRateBps >= 10000 * m
    ensures var price := ApplyMakeBid(s, bidder, bidAmount, maxAllowed, eligible).value.auction.topBid;
            if s.auction.topBidder.Some? then price >= s.auction.topBid + m else price >= s.auction.startBid
  {
    BidPricing(s, bidder, bidAmount, maxAllowed, eligible);
    if s.auction.topBidder.Some? {
      ProductMonotone(s.auction.startBid, s.auction.topBid, s.configs.minOutbidRateBps);
      RoundedRaise(s.auction.topBid, s.configs.minOutbidRateBps, m);
    }
  }

  /** What every instruction of a bounded run satisfies: the rate in force raises the start bid by at least `m`
      units, and the extension is at most `longest` minutes. */
  function Raising(startBid: nat, m: nat, longest: nat): Configs -> bool {
    (c: Configs) => startBid * c.minOutbidRateBps >= 10000 * m && c.auctionExtendMinutes <= longest
  }

  /** `unit` added up `k` times. */
  function Steps(unit: nat, k: nat): nat {
    if k == 0 then 0 else Steps(unit, k - 1) + unit
  }

  lemma {:induction false} StepsIsProduct(unit: nat, k: nat)
    ensures Steps(unit, k) == unit * k
  {
    if k > 0 {
      StepsIsProduct(unit, k - 1);
    }
  }

  /** The ground price and deadline have covered after `k` accepted bids. */
  ghost predicate Covered(s: State, z: State, m: nat, longest: nat, k: nat) {
    && (if s.auction.topBidder.Some? then z.auction.topBid >= s.auction.topBid + Steps(m, k)
        else k > 0 ==> z.auction.topBid >= s.auction.startBid + Steps(m, k - 1))
    && z.auction.expiredTimestamp <= s.auction.expiredTimestamp + Steps(60 * longest, k)
  }

  /** One accepted bid: the price rises by `m` (or starts at the start bid), the deadline by at most `longest`. */
  ghost predicate CoveredOnce(s: State, n: State, m: nat, longest: nat) {
    && n.auction.topBidder.Some? && n.auction.startBid == s.auction.startBid
    && (if s.auction.topBidder.Some? then n.auction.topBid >= s.auction.topBid + m
        else n.auction.topBid >= s.auction.startBid)
    && n.auction.expiredTimestamp <= s.auction.expiredTimestamp + 60 * longest
  }

  lemma CoveredStep(s: State, n: State, z: State, m: nat, longest: nat, k: nat)
    requires CoveredOnce(s, n, m, longest) && Covered(n, z, m, longest, k)
    ensures Covered(s, z, m, longest, k + 1)
  {
  }

  lemma BidCovers(s: State, e: Event, m: nat, longest: nat)
    requires Inv(s) && IsAcceptedBid(s, e) && Raising(s.auction.startBid, m, longest)(s.configs)
    ensures CoveredOnce(s, Next(s, e), m, longest)
  {
    var t, a := s.(clock := Later(s.clock, e.now)), e.action;
    SameIndex(s, t);
    BidRaises(t, a.bidder, a.bidAmount, a.maxAllowed, a.eligible, m);
    DeadlineAfterBid(t, a.bidder, a.bidAmount, a.maxAllowed, a.eligible);
    MakeBidExact(t, a.bidder, a.bidAmount, a.maxAllowed, a.eligible);
  }

  lemma CoveredSame(s: State, n: State, z: State, m: nat, longest: nat, k: nat)
    requires n.auction.topBidder == s.auction.topBidder && n.auction.topBid == s.auction.topBid
    requires n.auction.startBid == s.auction.startBid && n.auction.expiredTimestamp == s.auction.expiredTimestamp
    requires Covered(n, z, m, longest, k)
    ensures Covered(s, z, m, longest, k)
  {
  }

  lemma NoBidCovers(s: State, e: Event)
    requires Inv(s) && !IsAcceptedBid(s, e)
    ensures var n := Next(s, e);
            && n.auction.topBidder == s.auction.topBidder && n.auction.topBid == s.auction.topBid
            && n.auction.startBid == s.auction.startBid && n.auction.expiredTimestamp == s.auction.expiredTimestamp
  {
    var t := s.(clock := Later(s.clock, e.now));
    SameIndex(s, t);
    if Apply(t, e.action).Ok? {
      StepDeadline(t, e.action);
    }
  }

  lemma EventCovers(s: State, e: Event, z: State, m: nat, longest: nat, k: nat)
    requires Inv(s) && Raising(s.auction.startBid, m, longest)(s.configs) && Covered(Next(s, e), z, m, longest, k)
    ensures Covered(s, z, m, longest, k + if IsAcceptedBid(s, e) then 1 else 0)
  {
    if IsAcceptedBid(s, e) {
      BidCovers(s, e, m, longest);
      CoveredStep(s, Next(s, e), z, m, longest, k);
    } else {
      NoBidCovers(s, e);
      CoveredSame(s, Next(s, e), z, m, longest, k);
    }
  }

  lemma SameStartBid(s: State, e: Event)
    requires Inv(s)
    ensures Next(s, e).auction.startBid == s.auction.startBid
  {
    var t := s.(clock := Later(s.clock, e.now));
    if IsAcceptedBid(s, e) {
      SameIndex(s, t);
      MakeBidExact(t, e.action.bidder, e.action.bidAmount, e.action.maxAllowed, e.action.eligible);
    } else {
      NoBidCovers(s, e);
    }
  }

  lemma {:induction false} BidsRaiseAndExtend(s: State, events: seq<Event>, p: Configs -> bool, m: nat, longest: nat)
    requires Inv(s) && Throughout(s, events, p)
    requires forall c :: p(c) ==> Raising(s.auction.startBid, m, longest)(c)
    ensures Covered(s, Run(s, events), m, longest, AcceptedBids(s, events))
    decreases |events|
  {
    if events != [] {
      var n, rest := Next(s, events[0]), events[1..];
      NextKeepsInv(s, events[0]);
      SameStartBid(s, events[0]);
      BidsRaiseAndExtend(n, rest, p, m, longest);
      EventCovers(s, events[0], Run(n, rest), m, longest, AcceptedBids(n, rest));
    }
  }

  /** Bounded life: if every rate in force raises the start bid by at least `m >= 1` units, an auction over a
      supply of `Total(tokens)` accepts at most `1 + (supply - startBid) / m` bids, and its deadline is at most the
      original one plus one maximal extension per accepted bid. */
  lemma BoundedLife(s: State, events: seq<Event>, m: nat, longest: nat)
    requires Inv(s) && s.auction.topBidder.None? && m >= 1
    requires Throughout(s, events, Raising(s.auction.startBid, m, longest))
    ensures var k := AcceptedBids(s, events);
            && (k > 0 ==> s.auction.startBid <= Total(s.tokens) && k <= 1 + (Total(s.tokens) - s.auction.startBid) / m)
            && Run(s, events).auction.expiredTimestamp <= s.auction.expiredTimestamp + 60 * longest * k
  {
    BidsRaiseAndExtend(s, events, Raising(s.auction.startBid, m, longest), m, longest);
    RunKeepsInv(s, events);
    PriceWithinSupply(s, Run(s, events), m, longest, AcceptedBids(s, events));
    StepsIsProduct(60 * longest, AcceptedBids(s, events));
  }

  lemma PriceWithinSupply(s: State, z: State, m: nat, longest: nat, k: nat)
    requires s.auction.topBidder.None? && m >= 1 && Covered(s, z, m, longest, k)
    requires z.auction.topBid <= Total(z.tokens) == Total(s.tokens)
    ensures k > 0 ==> s.auction.startBid <= Total(s.tokens) && k <= 1 + (Total(s.tokens) - s.auction.startBid) / m
  {
    if k > 0 {
      StepsIsProduct(m, k - 1);
      DivideBound(k - 1, m, Total(s.tokens) - s.auction.startBid);
    }
  }

  lemma DivideBound(k: nat, m: nat, room: int)
    requires m >= 1 && m * k <= room
    ensures k <= room / m
  {
    if room / m < k {
      ProductMonotone(room / m + 1, k, m);
    }
  }

  /* Under the program's own configurations. */

  lemma StepKeepsValidated(s: State, action: Action)
    requires Apply(s, action).Ok? && ValidatedUpToFee(s.configs)
    ensures ValidatedUpToFee(Apply(s, action).value.configs)
    ensures Validated(s.configs) ==> Validated(Apply(s, action).value.configs)
  {
  }

  /** A validated configuration stays validated on every run, whatever the authority asks for, and one that is
      validated up to its fee stays so. */
  lemma {:induction false} ValidatedThroughout(s: State, events: seq<Event>)
    requires ValidatedUpToFee(s.configs)
    ensures Throughout(s, events, ValidatedUpToFee)
    ensures Validated(s.configs) ==> Throughout(s, events, Validated)
    decreases |events|
  {
    if events != [] {
      var t := s.(clock := Later(s.clock, events[0].now));
      if Apply(t, events[0].action).Ok? {
        StepKeepsValidated(t, events[0].action);
      }
      ValidatedThroughout(Next(s, events[0]), events[1..]);
    }
  }

  /** A validated configuration raises a start bid of at least 10000 by one unit in every 10000. */
  lemma ValidatedRaises(c: Configs, startBid: nat)
    requires ValidatedUpToFee(c)
    ensures Raising(startBid, startBid / 10000, 0xFF)(c)
  {
    ProductMonotone(1, c.minOutbidRateBps, startBid);
  }

  lemma {:induction false} ThroughoutWeaker(s: State, events: seq<Event>, p: Configs -> bool, q: Configs -> bool)
    requires Throughout(s, events, p) && forall c :: p(c) ==> q(c)
    ensures Throughout(s, events, q)
    decreases |events|
  {
    if events != [] {
      ThroughoutWeaker(Next(s, events[0]), events[1..], p, q);
    }
  }

  /** So under any configurations the authority can set, an auction that starts at `m` times 10000 or more accepts at
      most `1 + (supply - startBid) / m` bids, each moving the deadline by at most 255 minutes. */
  lemma LifeUnderValidatedConfigs(s: State, events: seq<Event>)
    requires Inv(s) && s.auction.topBidder.None? && ValidatedUpToFee(s.configs) && s.auction.startBid >= 10000
    ensures var k, m := AcceptedBids(s, events), s.auction.startBid / 10000;
            && (k > 0 ==> s.auction.startBid <= Total(s.tokens) && k <= 1 + (Total(s.tokens) - s.auction.startBid) / m)
            && Run(s, events).auction.expiredTimestamp <= s.auction.expiredTimestamp + 60 * 0xFF * k
  {
    var m := s.auction.startBid / 10000;
    ValidatedThroughout(s, events);
    forall c | ValidatedUpToFee(c) ensures Raising(s.auction.startBid, m, 0xFF)(c) {
      ValidatedRaises(c, s.auction.startBid);
    }
    ThroughoutWeaker(s, events, ValidatedUpToFee, Raising(s.auction.startBid, m, 0xFF));
    BoundedLife(s, events, m, 0xFF);
  }
}
