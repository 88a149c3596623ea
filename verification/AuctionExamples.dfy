/** Runs of one small auction that show where the program does not do what its documentation says. */
module AuctionExamples {
  import opened Base
  import opened GlobalConfigs
  import opened Tokens
  import opened Revenue
  import opened AuctionModel
  import opened AuctionInvariant
  import opened AuctionTheorems
  import opened AuctionPromises

  /** Seller 0 asks for at least 10 units within a day; bidders 1 and 2 own 1000 each, the treasury is user 3. */
  function Terms(numGroups: nat): AuctionTerms {
    AuctionTerms(0, 0, 86400, 10, numGroups, [Share(0, 10000)], true)
  }

  const TOKENS: Ledger := map[Wallet(1) := 1000, Wallet(2) := 1000, Wallet(3) := 0]
  const LOTS: Ledger := map[Wallet(0) := 1]

  /** Five per cent fee, one per cent outbid rate, a final window of ten minutes and an extension of five. */
  predicate SmallConfigs(c: Configs) {
    && c.auctionCreationEnabled && c.totalAuctions == 0 && c.minAuctionDuration <= 86400 <= c.maxAuctionDuration
    && c.numKeysPerIndexPage == 100 && c.feeTreasury == 3 && c.marketFeeRateBps == 500 && c.minOutbidRateBps == 100
    && c.lastMinutesForAuctionExtend == 10 && c.auctionExtendMinutes == 5
  }

  function Created(c: Configs, numGroups: nat): Result<State> {
    CreateAuction(c, 0, Terms(numGroups), TOKENS, LOTS)
  }

  lemma OwnedTotals()
    ensures Total(TOKENS) == 2000
  {
    assert TOKENS == map[][Wallet(1) := 1000][Wallet(2) := 1000][Wallet(3) := 0];
    TotalUpdate(map[], Wallet(1), 1000);
    TotalUpdate(map[Wallet(1) := 1000], Wallet(2), 1000);
    TotalUpdate(map[Wallet(1) := 1000, Wallet(2) := 1000], Wallet(3), 0);
  }

  lemma CreatedAsAsked(c: Configs, numGroups: nat)
    requires SmallConfigs(c) && numGroups <= 17
    ensures Created(c, numGroups).Ok? && Inv(Created(c, numGroups).value)
    ensures var s := Created(c, numGroups).value;
            && s.clock == 0 && s.bids == map[] && s.tokens == TOKENS && s.configs == c.(totalAuctions := 1)
            && s.auction == Auction(0, 0, 0, 86400, 10, numGroups, [Share(0, 10000)], InProgress, 0, 0, None)
  {
    OwnedTotals();
    assert ShareSum([Share(0, 10000)]) == 10000 + ShareSum([]);
    CreateEstablishesInv(c, 0, Terms(numGroups), TOKENS, LOTS);
  }

  /** Bidder 1 offers 10 at the given time. */
  function FirstBid(c: Configs, now: int): State
    requires Created(c, 0).Ok?
  {
    Next(Created(c, 0).value, Event(now, MakeBid(1, 10, 10, true)))
  }

  /** What the auction looks like after it. */
  predicate Led(c: Configs, s: State, now: int) {
    && s.clock == now && s.configs == c.(totalAuctions := 1) && s.bids == map[1 := AuctionBid(true, 1, 10)]
    && s.tokens == TOKENS[BidEscrow(1) := 10][Wallet(1) := 990]
    && s.auction == Auction(0, 0, 0, if now <= 85800 then 86400 else now + 300, 10, 0, [Share(0, 10000)], InProgress,
                            1, 10, Some(1))
  }

  lemma FirstBidAcceptable(c: Configs, s: State, now: int)
    requires SmallConfigs(c) && 0 <= now <= 86400 && Created(c, 0) == Ok(s)
    ensures Inv(s) && Inv(s.(clock := now))
    ensures MinEligibleBid(0, c.minOutbidRateBps) == Ok(0) && BidAcceptable(s.(clock := now), Ok(0), 1, 10, 10)
  {
    CreatedAsAsked(c, 0);
    SameIndex(s, s.(clock := now));
    MinEligibleBidFromZero(c.minOutbidRateBps);
  }

  lemma FirstBidTakesLead(c: Configs, s: State, now: int)
    requires SmallConfigs(c) && 0 <= now <= 86400 && Created(c, 0) == Ok(s) && s.clock == 0
    requires s.configs == c.(totalAuctions := 1) && s.bids == map[] && s.tokens == TOKENS
    requires s.auction == Auction(0, 0, 0, 86400, 10, 0, [Share(0, 10000)], InProgress, 0, 0, None)
    ensures var n := Next(s, Event(now, MakeBid(1, 10, 10, true)));
            Inv(n) && Led(c, n, now)
  {
    var t := s.(clock := now);
    FirstBidAcceptable(c, s, now);
    MakeBidExact(t, 1, 10, 10, true);
    MakeBidKeepsInv(t, 1, 10, 10, true);
    assert s.(clock := Later(s.clock, now)) == t;
  }

  lemma FirstBidLeads(c: Configs, now: int)
    requires SmallConfigs(c) && 0 <= now <= 86400
    ensures Created(c, 0).Ok? && Inv(FirstBid(c, now)) && Led(c, FirstBid(c, now), now)
  {
    CreatedAsAsked(c, 0);
    FirstBidTakesLead(c, Created(c, 0).value, now);
  }

  /** Another 10 units are acceptable from either bidder. */
  lemma SecondBidAcceptable(c: Configs, s: State, bidder: User, now: int)
    requires SmallConfigs(c) && 1 <= bidder <= 2 && 1 <= now <= 2 && Led(c, s, 1)
    ensures BidAcceptable(s.(clock := now), Ok(10), bidder, 10, 11) && MinEligibleBid(10, 100) == Ok(10)
    ensures Balance(s.tokens, BidEscrow(1)) == 10
  {
  }

  /** A bid of 10 against a top bid of 10 is accepted: the one per cent raise rounds down to nothing. */
  lemma EqualBidTakesTheLead(c: Configs)
    requires SmallConfigs(c) && Created(c, 0).Ok?
    ensures var s := FirstBid(c, 1);
            var z := Next(s, Event(2, MakeBid(2, 10, 11, true)));
            && s.auction.topBid == 10 && s.auction.topBidder == Some(1)
            && z.auction.topBid == 10 && z.auction.topBidder == Some(2)
  {
    var s := FirstBid(c, 1);
    FirstBidLeads(c, 1);
    SameIndex(s, s.(clock := 2));
    SecondBidAcceptable(c, s, 2, 2);
    MakeBidExact(s.(clock := 2), 2, 10, 11, true);
  }

  /** The leader bids again without an increase: the bid is accepted and nothing is transferred. */
  lemma LeaderRebidsForNothing(c: Configs)
    requires SmallConfigs(c) && Created(c, 0).Ok?
    ensures var r := ApplyMakeBid(FirstBid(c, 1), 1, 10, 11, true);
            r.Ok? && Balance(r.value.tokens, Wallet(1)) == Balance(FirstBid(c, 1).tokens, Wallet(1))
  {
    var s := FirstBid(c, 1);
    FirstBidLeads(c, 1);
    SecondBidAcceptable(c, s, 1, 1);
    assert s.(clock := 1) == s;
    MakeBidExact(s, 1, 10, 11, true);
    WhenNothingIsTransferred(s, 1, 10, 11, true);
  }

  /** A bid 400 seconds before the deadline makes the auction end 100 seconds earlier. */
  lemma BidBringsDeadlineForward(c: Configs)
    requires SmallConfigs(c) && Created(c, 0).Ok?
    ensures Created(c, 0).value.auction.expiredTimestamp == 86400
    ensures FirstBid(c, 86000).auction.topBidder == Some(1) && FirstBid(c, 86000).auction.expiredTimestamp == 86300
  {
    CreatedAsAsked(c, 0);
    FirstBidLeads(c, 86000);
  }

  lemma SellerIncome()
    ensures Payable(10, 500, [Share(0, 10000)])
    ensures Income(Wallet(0), Wallet(3), 10, 500, [Share(0, 10000)]) == 10
  {
    var shares := [Share(0, 10000)];
    assert shares[1..] == [] && ShareSum(shares) == 10000 + ShareSum([]);
    assert Floor(10, 500) == 0;
    assert Payouts(shares, 10, 10) == [10] + Payouts([], 10, 0);
    assert Received(shares, Payouts(shares, 10, 10), Wallet(0)) == 10 + Received([], [], Wallet(0));
  }

  lemma SellerIsPaid(c: Configs, s: State, signer: User)
    requires SmallConfigs(c) && Led(c, s, 1) && Inv(s)
    ensures var t := s.(clock := 90000);
            var r := ApplyClaimRevenue(t, signer, 1, 3);
            && r.Ok? && r == ApplyClaimRevenue(t, 2, 1, 3) && r.value.auction.status.Finished?
            && BidEscrow(1) !in r.value.tokens && Balance(r.value.tokens, Wallet(0)) == 10
  {
    var t := s.(clock := 90000);
    SameIndex(s, t);
    SellerIncome();
    ClaimRevenueExact(t, signer, 1, 3);
    OpenWalletsOpens(t.tokens, t.auction.revenueShares, Wallet(0));
    assert Wallet(t.auction.revenueShares[0].receiver) == Wallet(0);
    var after := ApplyClaimRevenue(t, signer, 1, 3).value.tokens;
    assert Wallet(0) in after.Keys && BidEscrow(1) !in after.Keys;
  }

  /** A revenue claim does the same whoever signs it; here user 2, who never bid, claims for seller 0. */
  lemma NonCreatorClaimsRevenue(c: Configs, signer: User)
    requires SmallConfigs(c) && Created(c, 0).Ok?
    ensures var s := FirstBid(c, 1);
            var z := Next(s, Event(90000, ClaimRevenue(2, 1, 3)));
            && s.auction.creator == 0 && z == Next(s, Event(90000, ClaimRevenue(signer, 1, 3)))
            && z.auction.status.Finished? && BidEscrow(1) !in z.tokens
            && Balance(z.tokens, Wallet(0)) == 10
  {
    FirstBidLeads(c, 1);
    SellerIsPaid(c, FirstBid(c, 1), signer);
  }

  /** With seventeen groups the auction is created, and then nobody can ever bid on it. */
  lemma SeventeenGroupsUnbiddable(c: Configs, events: seq<Event>)
    requires SmallConfigs(c)
    ensures Created(c, 17).Ok?
    ensures AcceptedBids(Created(c, 17).value, events) == 0 && Run(Created(c, 17).value, events).bids == map[]
  {
    CreatedAsAsked(c, 17);
    UnbiddableForever(Created(c, 17).value, events);
  }

  /* A bid that cannot be paid out. */

  const HUGE := 0x1000_0000_0000_0000
  const HALVES := [Share(0, 5000), Share(4, 5000)]
  const HUGE_TOKENS: Ledger := map[Wallet(1) := HUGE, Wallet(3) := 0]

  function HugeCreated(c: Configs): Result<State> {
    CreateAuction(c, 0, Terms(0).(shares := HALVES), HUGE_TOKENS, LOTS)
  }

  lemma HugeCreatedAsAsked(c: Configs)
    requires SmallConfigs(c)
    ensures HugeCreated(c).Ok? && Inv(HugeCreated(c).value)
    ensures var s := HugeCreated(c).value;
            && s.clock == 0 && s.bids == map[] && s.tokens == HUGE_TOKENS && s.configs == c.(totalAuctions := 1)
            && s.auction == Auction(0, 0, 0, 86400, 10, 0, HALVES, InProgress, 0, 0, None)
  {
    assert HUGE_TOKENS == map[][Wallet(1) := HUGE][Wallet(3) := 0];
    TotalUpdate(map[], Wallet(1), HUGE);
    TotalUpdate(map[Wallet(1) := HUGE], Wallet(3), 0);
    HugeHalvesDoNotPay(0, 4);
    CreateEstablishesInv(c, 0, Terms(0).(shares := HALVES), HUGE_TOKENS, LOTS);
  }

  lemma HugeBidPlaced(c: Configs, s: State)
    requires SmallConfigs(c) && HugeCreated(c) == Ok(s)
    ensures var n := Next(s, Event(1, MakeBid(1, HUGE, HUGE, true)));
            && Inv(n) && n.auction.topBid == HUGE && n.auction.topBidder == Some(1) && n.auction.revenueShares == HALVES
            && n.auction.expiredTimestamp == 86400 && BidEscrow(1) in n.tokens
  {
    HugeCreatedAsAsked(c);
    var t := s.(clock := 1);
    SameIndex(s, t);
    MinEligibleBidFromZero(c.minOutbidRateBps);
    NextKeepsInv(s, Event(1, MakeBid(1, HUGE, HUGE, true)));
    MakeBidExact(t, 1, HUGE, HUGE, true);
    assert s.(clock := Later(s.clock, 1)) == t;
  }

  /** A bid of 2^60 wins, with the revenue to be halved between two recipients: the product that the payout computes
      leaves u64 at every fee, so the bid stays in escrow for ever. */
  lemma HugeBidNeverPaysOut(c: Configs, events: seq<Event>)
    requires SmallConfigs(c)
    ensures HugeCreated(c).Ok?
    ensures var won := Next(HugeCreated(c).value, Event(1, MakeBid(1, HUGE, HUGE, true)));
            var ended := Next(won, Event(90000, ClaimLot(1)));
            var z := Run(ended, events);
            BidEscrow(1) in z.tokens && z.tokens[BidEscrow(1)] == HUGE
  {
    HugeCreatedAsAsked(c);
    var s := HugeCreated(c).value;
    HugeBidPlaced(c, s);
    LotClaimed(Next(s, Event(1, MakeBid(1, HUGE, HUGE, true))));
    HugeHalvesDoNotPay(0, 4);
    RevenueLockedForever(Next(Next(s, Event(1, MakeBid(1, HUGE, HUGE, true))), Event(90000, ClaimLot(1))), events);
  }

  lemma LotClaimed(s: State)
    requires Inv(s) && s.auction.topBidder == Some(1) && s.auction.expiredTimestamp == 86400
    requires BidEscrow(1) in s.tokens
    ensures var n := Next(s, Event(90000, ClaimLot(1)));
            RevenueOpen(n) && n.auction == s.auction.(status := n.auction.status)
  {
    var t := s.(clock := Later(s.clock, 90000));
    SameIndex(s, t);
    NextKeepsInv(s, Event(90000, ClaimLot(1)));
    ClaimLotExact(t, 1);
  }
}
