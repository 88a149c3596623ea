/** What every reachable auction state satisfies. */
module AuctionInvariant {
  import opened Base
  import opened GlobalConfigs
  import opened Tokens
  import opened Revenue
  import opened PubkeyIndex
  import opened AuctionModel

  /** The bidders in the order of their first bids, as the client's iterator reads them. */
  function Bidders(s: State): seq<User>
    requires s.configs.numKeysPerIndexPage > 0
  {
    Entries(s.pages, s.configs.numKeysPerIndexPage, s.auction.totalBids)
  }

  ghost predicate NoRepeats(xs: seq<User>) {
    forall i, j :: 0 <= i < j < |xs| ==> xs[i] != xs[j]
  }

  /** An open bid escrow holds exactly its bidder's recorded bid, which is positive. */
  ghost predicate EscrowsHoldBids(s: State) {
    forall u :: BidEscrow(u) in s.tokens ==> u in s.bids && s.tokens[BidEscrow(u)] == s.bids[u].bid > 0
  }

  /** No recorded bid exceeds the top bid; a closed escrow belongs to a cancelled bid, or to the top bidder
      after the revenue was claimed. */
  ghost predicate BidsRecorded(s: State) {
    forall u :: u in s.bids ==>
                  && s.bids[u].initialized && s.bids[u].bidder == u && s.bids[u].bid <= s.auction.topBid
                  && u != s.auction.creator
                  && (BidEscrow(u) !in s.tokens ==>
                        if s.auction.topBidder == Some(u) then s.auction.status.Finished? else s.bids[u].bid == 0)
  }

  ghost predicate TopBidRecorded(s: State) {
    match s.auction.topBidder
    case None => s.auction.topBid == 0 && s.auction.totalBids == 0 && s.bids == map[]
    case Some(u) => u in s.bids && s.bids[u].bid == s.auction.topBid > 0 && s.auction.topBid >= s.auction.startBid
  }

  /** The index lists every bidder exactly once. */
  ghost predicate BidsIndexed(s: State) {
    && s.configs.numKeysPerIndexPage > 0
    && IsIndexOf(s.pages, Bidders(s), s.configs.numKeysPerIndexPage)
    && NoRepeats(Bidders(s))
    && forall u :: u in Bidders(s) <==> u in s.bids
  }

  ghost predicate StatusConsistent(s: State) {
    && (LotEscrow in s.lots ==> s.lots[LotEscrow] == 1)
    && (LotEscrow !in s.lots ==> !s.auction.status.InProgress?)
    && (s.auction.status.Cancelled? ==> s.auction.topBidder.None? && LotEscrow !in s.lots)
    && (s.auction.status.Finished? ==> s.auction.topBidder.Some? && IsEnded(s.auction, s.clock))
  }

  ghost predicate Inv(s: State) {
    && EscrowsHoldBids(s)
    && BidsRecorded(s)
    && TopBidRecorded(s)
    && BidsIndexed(s)
    && StatusConsistent(s)
    && SerializedSize(s.auction) <= AUCTION_SPACE
    && s.auction.topBid <= Total(s.tokens) <= I64_MAX
  }

  /* Pricing. */

  /** The exact minimum, over unbounded integers. */
  function OutbidMinimum(topBid: nat, rateBps: nat): nat {
    topBid + topBid * rateBps / 10000
  }

  predicate OutbidFits(topBid: nat, rateBps: nat) {
    topBid * rateBps <= I64_MAX && OutbidMinimum(topBid, rateBps) <= I64_MAX
  }

  /** The checked i64 formula equals the exact one, or the step aborts. */
  lemma MinEligibleBidExact(topBid: nat, rateBps: nat)
    requires topBid <= I64_MAX
    ensures MinEligibleBid(topBid, rateBps).Ok? <==> OutbidFits(topBid, rateBps)
    ensures MinEligibleBid(topBid, rateBps).Ok? ==>
              MinEligibleBid(topBid, rateBps).value == OutbidMinimum(topBid, rateBps)
  {
    assert topBid * rateBps >= 0;
  }

  /** A top bid of 2^63 or more, which the supply excludes, is taken for a negative number: the formula then gives a
      minimum below the top bid, or aborts. */
  lemma MinEligibleBidWraps(topBid: nat, rateBps: nat)
    requires I64_MAX < topBid <= U64_MAX
    ensures var r, below := MinEligibleBid(topBid, rateBps), 0x1_0000_0000_0000_0000 - topBid;
            && (r.Ok? <==> below * rateBps <= 0x8000_0000_0000_0000
                           && below + below * rateBps / 10000 <= 0x8000_0000_0000_0000)
            && (r.Ok? ==> r.value == topBid - below * rateBps / 10000)
  {
    var below := 0x1_0000_0000_0000_0000 - topBid;
    assert AsI64(topBid) == -below && AsI64(topBid) * rateBps == -(below * rateBps);
  }

  lemma MinEligibleBidFromZero(rateBps: nat)
    ensures MinEligibleBid(0, rateBps) == Ok(0)
  {
  }

  /* Preservation, one instruction at a time. */

  lemma IndexAfterBid(s: State, bidder: User)
    requires BidsIndexed(s) && bidder !in s.bids
    ensures var size := s.configs.numKeysPerIndexPage;
            var pages := IndexPubkey(s.pages, PageId(s.auction.totalBids, size), bidder);
            && Entries(pages, size, s.auction.totalBids + 1) == Bidders(s) + [bidder]
            && IsIndexOf(pages, Bidders(s) + [bidder], size)
            && NoRepeats(Bidders(s) + [bidder])
  {
    AppendKeepsIndex(s.pages, Bidders(s), s.configs.numKeysPerIndexPage, bidder);
    var pages := IndexPubkey(s.pages, PageId(s.auction.totalBids, s.configs.numKeysPerIndexPage), bidder);
    EntriesAreFlat(pages, Bidders(s) + [bidder], s.configs.numKeysPerIndexPage);
    assert bidder !in Bidders(s);
  }

  /* Deadlines. */

  /** A bid with at least the final window left leaves the deadline; a later one moves it to one extension from now. */
  function DeadlineFor(s: State): int {
    var remaining := s.auction.expiredTimestamp - s.clock;
    if remaining >= s.configs.lastMinutesForAuctionExtend * 60 then s.auction.expiredTimestamp
    else s.clock + s.configs.auctionExtendMinutes * 60
  }

  /** The start of the final window and the new deadline are i64 values. */
  predicate DeadlineFits(s: State) {
    InI64(s.auction.expiredTimestamp - s.configs.lastMinutesForAuctionExtend * 60)
    && (s.auction.expiredTimestamp - s.clock >= s.configs.lastMinutesForAuctionExtend * 60 || InI64(DeadlineFor(s)))
  }

  lemma NextDeadlineExact(s: State)
    ensures var r := NextDeadline(s.auction.expiredTimestamp, s.configs, s.clock);
            (r.Ok? <==> DeadlineFits(s)) && (r.Ok? ==> r.value == DeadlineFor(s))
  {
  }

  /** Everything an accepted bid changes, without reference to how it is computed. */
  ghost predicate BidPlaced(s: State, s': State, bidder: User, price: nat) {
    var before := Balance(s.tokens, BidEscrow(bidder));
    && before <= price <= before + Balance(s.tokens, Wallet(bidder)) && 0 < price
    && Wallet(bidder) in s.tokens
    && s'.tokens == s.tokens[BidEscrow(bidder) := price][Wallet(bidder) := s.tokens[Wallet(bidder)] - (price - before)]
    && s'.bids == s.bids[bidder := AuctionBid(true, if bidder in s.bids then s.bids[bidder].bidder else bidder, price)]
    && s'.auction.topBid == price && s'.auction.topBidder == Some(bidder)
    && s'.auction == s.auction.(topBid := price, topBidder := Some(bidder), totalBids := s'.auction.totalBids,
                                expiredTimestamp := s'.auction.expiredTimestamp)
    && s'.auction.totalBids == s.auction.totalBids + (if bidder in s.bids then 0 else 1)
    && s'.auction.expiredTimestamp == DeadlineFor(s)
    && SerializedSize(s'.auction) <= AUCTION_SPACE
    && s'.lots == s.lots && s'.configs == s.configs && s'.clock == s.clock
  }

  /** What a caller can check before bidding, given the minimum eligible bid. */
  ghost predicate BidAcceptable(s: State, min: Result<nat>, bidder: User, bidAmount: nat, maxAllowed: nat) {
    && bidder != s.auction.creator && Wallet(bidder) in s.tokens
    && !IsEnded(s.auction, s.clock) && !s.auction.status.Cancelled?
    && 0 < bidAmount && s.auction.startBid <= bidAmount
    && min.Ok? && s.auction.topBid < maxAllowed && Max(bidAmount, min.value) <= maxAllowed
    && Max(bidAmount, min.value) <= Balance(s.tokens, BidEscrow(bidder)) + s.tokens[Wallet(bidder)]
    && (bidder in s.bids || s.auction.totalBids < U64_MAX)
    && DeadlineFits(s)
    && SerializedSize(s.auction.(topBidder := Some(bidder))) <= AUCTION_SPACE
  }

  lemma EscrowBelowTop(s: State, u: User)
    requires Inv(s)
    ensures Balance(s.tokens, BidEscrow(u)) <= s.auction.topBid
  {
  }

  /** The checks on a bid, for an escrow that does not exceed the top bid: the delta never underflows. */
  lemma ValidateBidExact(a: Auction, min: Result<nat>, now: int, bidAmount: nat, maxAllowed: nat, escrowed: nat,
                         wallet: nat)
    requires (min.Ok? ==> a.topBid <= min.value) && (a.topBid == 0 ==> min == Ok(0)) && escrowed <= a.topBid
    ensures var r := ValidateBid(a, min, now, bidAmount, maxAllowed, escrowed, wallet);
            && (r.Ok? <==>
                  && !IsEnded(a, now) && !a.status.Cancelled? && 0 < bidAmount && a.startBid <= bidAmount
                  && min.Ok? && a.topBid < maxAllowed && Max(bidAmount, min.value) <= maxAllowed
                  && Max(bidAmount, min.value) <= escrowed + wallet)
            && (r.Ok? ==> r.value == (Max(bidAmount, min.value), Max(bidAmount, min.value) - escrowed))
  {
  }

  /** Recording a validated bid on top of `s`, whose escrow account has been opened in `t`. */
  lemma EnterBidExact(s: State, t: State, bidder: User, price: nat)
    requires t == s.(tokens := Open(s.tokens, BidEscrow(bidder))) && s.configs.numKeysPerIndexPage > 0
    requires Wallet(bidder) in s.tokens && (bidder in s.bids ==> s.bids[bidder].initialized)
    requires 0 < price && Balance(s.tokens, BidEscrow(bidder)) <= price
    requires price <= Balance(s.tokens, BidEscrow(bidder)) + s.tokens[Wallet(bidder)]
    ensures var r := EnterBid(t, bidder, price, price - Balance(s.tokens, BidEscrow(bidder)));
            && (r.Ok? <==>
                  && (bidder in s.bids || s.auction.totalBids < U64_MAX)
                  && DeadlineFits(s)
                  && SerializedSize(s.auction.(topBidder := Some(bidder))) <= AUCTION_SPACE)
            && (r.Ok? ==> BidPlaced(s, r.value, bidder, price))
  {
    NextDeadlineExact(s);
    var amount := price - Balance(s.tokens, BidEscrow(bidder));
    var paid := s.tokens[BidEscrow(bidder) := price][Wallet(bidder) := s.tokens[Wallet(bidder)] - amount];
    assert amount == 0 ==> paid == t.tokens;
    assert Transfer(t.tokens, Wallet(bidder), BidEscrow(bidder), amount).value == paid;
  }

  lemma MinimumInReach(s: State)
    requires s.auction.topBid <= I64_MAX
    ensures var min := MinEligibleBid(s.auction.topBid, s.configs.minOutbidRateBps);
            && (min.Ok? ==> s.auction.topBid <= min.value)
            && (min.Ok? ==> min.value == OutbidMinimum(s.auction.topBid, s.configs.minOutbidRateBps))
            && (s.auction.topBid == 0 ==> min == Ok(0))
  {
    MinEligibleBidExact(s.auction.topBid, s.configs.minOutbidRateBps);
    MinEligibleBidFromZero(s.configs.minOutbidRateBps);
  }

  /** A bid is accepted exactly under the conditions of `BidAcceptable`; it is placed at exactly the larger of
      its amount and the minimum, and only the difference to what the bidder already has in escrow is
      transferred. */
  lemma MakeBidExact(s: State, bidder: User, bidAmount: nat, maxAllowed: nat, eligible: bool)
    requires Inv(s)
    ensures var min := MinEligibleBid(s.auction.topBid, s.configs.minOutbidRateBps);
            var r := ApplyMakeBid(s, bidder, bidAmount, maxAllowed, eligible);
            && (r.Ok? <==> eligible && BidAcceptable(s, min, bidder, bidAmount, maxAllowed))
            && (r.Ok? ==> BidPlaced(s, r.value, bidder, Max(bidAmount, min.value)))
  {
    MinimumInReach(s);
    PlaceBidExact(s, MinEligibleBid(s.auction.topBid, s.configs.minOutbidRateBps), bidder, bidAmount, maxAllowed,
                  eligible);
  }

  /** A bid is validated against the escrow account it opens, then recorded. */
  lemma PlaceBidSteps(s: State, min: Result<nat>, bidder: User, bidAmount: nat, maxAllowed: nat, eligible: bool)
    requires s.configs.numKeysPerIndexPage > 0
    ensures var t := s.(tokens := Open(s.tokens, BidEscrow(bidder)));
            var terms := ValidateBid(s.auction, min, s.clock, bidAmount, maxAllowed,
                                     Balance(s.tokens, BidEscrow(bidder)), Balance(s.tokens, Wallet(bidder)));
            var r := PlaceBid(s, min, bidder, bidAmount, maxAllowed, eligible);
            if bidder != s.auction.creator && Wallet(bidder) in s.tokens && eligible && terms.Ok?
            then r == EnterBid(t, bidder, terms.value.0, terms.value.1) else r.Err?
  {
  }

  lemma AcceptableBidEntered(s: State, min: Result<nat>, bidder: User, bidAmount: nat, maxAllowed: nat)
    requires Inv(s) && (min.Ok? ==> s.auction.topBid <= min.value) && (s.auction.topBid == 0 ==> min == Ok(0))
    requires BidAcceptable(s, min, bidder, bidAmount, maxAllowed)
    ensures var price := Max(bidAmount, min.value);
            var before := Balance(s.tokens, BidEscrow(bidder));
            && before <= price && (bidder in s.bids ==> s.bids[bidder].initialized)
            && PlaceBid(s, min, bidder, bidAmount, maxAllowed, true)
               == EnterBid(s.(tokens := Open(s.tokens, BidEscrow(bidder))), bidder, price, price - before)
  {
    EscrowBelowTop(s, bidder);
    PlaceBidSteps(s, min, bidder, bidAmount, maxAllowed, true);
    ValidateBidExact(s.auction, min, s.clock, bidAmount, maxAllowed, Balance(s.tokens, BidEscrow(bidder)),
                     Balance(s.tokens, Wallet(bidder)));
  }

  lemma EnteredBidPlaced(s: State, r: Result<State>, bidder: User, price: nat)
    requires s.configs.numKeysPerIndexPage > 0 && (bidder in s.bids ==> s.bids[bidder].initialized)
    requires Wallet(bidder) in s.tokens && 0 < price && Balance(s.tokens, BidEscrow(bidder)) <= price
    requires price <= Balance(s.tokens, BidEscrow(bidder)) + s.tokens[Wallet(bidder)]
    requires r == EnterBid(s.(tokens := Open(s.tokens, BidEscrow(bidder))), bidder, price,
                           price - Balance(s.tokens, BidEscrow(bidder)))
    requires bidder in s.bids || s.auction.totalBids < U64_MAX
    requires DeadlineFits(s)
    requires SerializedSize(s.auction.(topBidder := Some(bidder))) <= AUCTION_SPACE
    ensures r.Ok? && BidPlaced(s, r.value, bidder, price)
  {
    EnterBidExact(s, s.(tokens := Open(s.tokens, BidEscrow(bidder))), bidder, price);
  }

  lemma AcceptableBidPlaced(s: State, min: Result<nat>, bidder: User, bidAmount: nat, maxAllowed: nat)
    requires Inv(s) && (min.Ok? ==> s.auction.topBid <= min.value) && (s.auction.topBid == 0 ==> min == Ok(0))
    requires BidAcceptable(s, min, bidder, bidAmount, maxAllowed)
    ensures var r := PlaceBid(s, min, bidder, bidAmount, maxAllowed, true);
            r.Ok? && BidPlaced(s, r.value, bidder, Max(bidAmount, min.value))
  {
    AcceptableBidEntered(s, min, bidder, bidAmount, maxAllowed);
    EnteredBidPlaced(s, PlaceBid(s, min, bidder, bidAmount, maxAllowed, true), bidder, Max(bidAmount, min.value));
  }

  lemma OtherBidRefused(s: State, min: Result<nat>, bidder: User, bidAmount: nat, maxAllowed: nat, eligible: bool)
    requires Inv(s) && (min.Ok? ==> s.auction.topBid <= min.value) && (s.auction.topBid == 0 ==> min == Ok(0))
    requires !(eligible && BidAcceptable(s, min, bidder, bidAmount, maxAllowed))
    ensures PlaceBid(s, min, bidder, bidAmount, maxAllowed, eligible).Err?
  {
    EscrowBelowTop(s, bidder);
    PlaceBidSteps(s, min, bidder, bidAmount, maxAllowed, eligible);
    var escrowed, wallet := Balance(s.tokens, BidEscrow(bidder)), Balance(s.tokens, Wallet(bidder));
    ValidateBidExact(s.auction, min, s.clock, bidAmount, maxAllowed, escrowed, wallet);
    if Wallet(bidder) in s.tokens && ValidateBid(s.auction, min, s.clock, bidAmount, maxAllowed, escrowed, wallet).Ok? {
      EnterBidExact(s, s.(tokens := Open(s.tokens, BidEscrow(bidder))), bidder, Max(bidAmount, min.value));
    }
  }

  lemma PlaceBidExact(s: State, min: Result<nat>, bidder: User, bidAmount: nat, maxAllowed: nat, eligible: bool)
    requires Inv(s)
    requires min.Ok? ==> s.auction.topBid <= min.value
    requires s.auction.topBid == 0 ==> min == Ok(0)
    ensures var r := PlaceBid(s, min, bidder, bidAmount, maxAllowed, eligible);
            && (r.Ok? <==> eligible && BidAcceptable(s, min, bidder, bidAmount, maxAllowed))
            && (r.Ok? ==> BidPlaced(s, r.value, bidder, Max(bidAmount, min.value)))
  {
    if eligible && BidAcceptable(s, min, bidder, bidAmount, maxAllowed) {
      AcceptableBidPlaced(s, min, bidder, bidAmount, maxAllowed);
    } else {
      OtherBidRefused(s, min, bidder, bidAmount, maxAllowed, eligible);
    }
  }

  /** Every accepted bid's price is the larger of its amount and the exact outbid minimum, and lies between the
      start bid and the bidder's own limit, so the top bid never falls. */
  lemma BidPricing(s: State, bidder: User, bidAmount: nat, maxAllowed: nat, eligible: bool)
    requires Inv(s) && ApplyMakeBid(s, bidder, bidAmount, maxAllowed, eligible).Ok?
    ensures var price := ApplyMakeBid(s, bidder, bidAmount, maxAllowed, eligible).value.auction.topBid;
            && price == Max(bidAmount, OutbidMinimum(s.auction.topBid, s.configs.minOutbidRateBps))
            && s.auction.startBid <= price && s.auction.topBid <= price <= maxAllowed
  {
    MakeBidExact(s, bidder, bidAmount, maxAllowed, eligible);
    MinimumInReach(s);
  }

  lemma PlacedBidPages(s: State, s': State, bidder: User, price: nat)
    requires BidsIndexed(s) && BidPlaced(s, s', bidder, price)
    requires s'.pages == if bidder in s.bids then s.pages
                         else IndexPubkey(s.pages, PageId(s.auction.totalBids, s.configs.numKeysPerIndexPage), bidder)
    ensures BidsIndexed(s') && Bidders(s') == Bidders(s) + if bidder in s.bids then [] else [bidder]
  {
    if bidder !in s.bids {
      IndexAfterBid(s, bidder);
      assert Bidders(s') == Bidders(s) + [bidder];
    } else {
      assert s'.pages == s.pages && Bidders(s') == Bidders(s);
    }
  }

  lemma PagesAfterBid(s: State, min: Result<nat>, bidder: User, bidAmount: nat, maxAllowed: nat, eligible: bool)
    requires PlaceBid(s, min, bidder, bidAmount, maxAllowed, eligible).Ok?
    requires bidder in s.bids ==> s.bids[bidder].initialized
    ensures s.configs.numKeysPerIndexPage > 0
    ensures PlaceBid(s, min, bidder, bidAmount, maxAllowed, eligible).value.pages
         == if bidder in s.bids then s.pages
            else IndexPubkey(s.pages, PageId(s.auction.totalBids, s.configs.numKeysPerIndexPage), bidder)
  {
  }

  lemma MakeBidPages(s: State, bidder: User, bidAmount: nat, maxAllowed: nat, eligible: bool)
    requires Inv(s) && ApplyMakeBid(s, bidder, bidAmount, maxAllowed, eligible).Ok?
    ensures var s' := ApplyMakeBid(s, bidder, bidAmount, maxAllowed, eligible).value;
            BidsIndexed(s') && Bidders(s') == Bidders(s) + if bidder in s.bids then [] else [bidder]
  {
    var min := MinEligibleBid(s.auction.topBid, s.configs.minOutbidRateBps);
    MakeBidExact(s, bidder, bidAmount, maxAllowed, eligible);
    PagesAfterBid(s, min, bidder, bidAmount, maxAllowed, eligible);
    PlacedBidPages(s, ApplyMakeBid(s, bidder, bidAmount, maxAllowed, eligible).value, bidder,
                   Max(bidAmount, min.value));
  }

  lemma PlacedBidConserves(s: State, s': State, bidder: User, price: nat)
    requires Inv(s) && BidPlaced(s, s', bidder, price)
    ensures price <= Total(s'.tokens) == Total(s.tokens)
  {
    TotalUpdate(s.tokens, BidEscrow(bidder), price);
    TotalUpdate(s.tokens[BidEscrow(bidder) := price], Wallet(bidder), s'.tokens[Wallet(bidder)]);
    BalanceWithinTotal(s'.tokens, BidEscrow(bidder));
  }

  lemma PlacedBidRecorded(s: State, s': State, bidder: User, price: nat)
    requires Inv(s) && BidPlaced(s, s', bidder, price) && s.auction.topBid <= price && s.auction.startBid <= price
    requires bidder != s.auction.creator && !IsEnded(s.auction, s.clock)
    ensures EscrowsHoldBids(s') && BidsRecorded(s') && TopBidRecorded(s')
  {
    forall u | u in s'.bids && u != bidder
      ensures u in s.bids && s'.bids[u] == s.bids[u] && (BidEscrow(u) in s'.tokens <==> BidEscrow(u) in s.tokens)
    {
    }
  }

  lemma MakeBidKeepsInv(s: State, bidder: User, bidAmount: nat, maxAllowed: nat, eligible: bool)
    requires Inv(s) && ApplyMakeBid(s, bidder, bidAmount, maxAllowed, eligible).Ok?
    ensures var s' := ApplyMakeBid(s, bidder, bidAmount, maxAllowed, eligible).value;
            Inv(s') && Total(s'.tokens) == Total(s.tokens)
  {
    BidPricing(s, bidder, bidAmount, maxAllowed, eligible);
    MakeBidExact(s, bidder, bidAmount, maxAllowed, eligible);
    MakeBidPages(s, bidder, bidAmount, maxAllowed, eligible);
    var s' := ApplyMakeBid(s, bidder, bidAmount, maxAllowed, eligible).value;
    PlacedBidConserves(s, s', bidder, s'.auction.topBid);
    PlacedBidRecorded(s, s', bidder, s'.auction.topBid);
  }

  lemma SameIndex(s: State, s': State)
    requires BidsIndexed(s) && s'.pages == s.pages && s'.auction.totalBids == s.auction.totalBids
    requires s'.configs.numKeysPerIndexPage == s.configs.numKeysPerIndexPage && s'.bids.Keys == s.bids.Keys
    ensures BidsIndexed(s')
  {
    assert Bidders(s') == Bidders(s);
    assert forall u :: u in s'.bids <==> u in s'.bids.Keys;
    assert forall u :: u in s.bids <==> u in s.bids.Keys;
  }

  lemma CancelBidExact(s: State, bidder: User)
    requires Inv(s)
    ensures var r := ApplyCancelBid(s, bidder);
            && (r.Ok? <==> s.auction.topBidder != Some(bidder) && BidEscrow(bidder) in s.tokens)
            && (r.Ok? ==>
                  && r.value.tokens == s.tokens[Wallet(bidder) :=
                       Balance(s.tokens, Wallet(bidder)) + s.tokens[BidEscrow(bidder)]] - {BidEscrow(bidder)}
                  && r.value.bids == s.bids[bidder := AuctionBid(true, bidder, 0)]
                  && r.value == s.(tokens := r.value.tokens, bids := r.value.bids,
                                   auction := if IsEnded(s.auction, s.clock) then s.auction.(status := Finished)
                                              else s.auction))
  {
    if s.auction.topBidder != Some(bidder) && BidEscrow(bidder) in s.tokens {
      var tokens := Open(s.tokens, Wallet(bidder));
      var refunded := Transfer(tokens, BidEscrow(bidder), Wallet(bidder), tokens[BidEscrow(bidder)]).value;
      assert refunded - {BidEscrow(bidder)}
          == s.tokens[Wallet(bidder) := Balance(s.tokens, Wallet(bidder)) + s.tokens[BidEscrow(bidder)]]
             - {BidEscrow(bidder)};
    }
  }

  lemma CancelBidConserves(s: State, bidder: User)
    requires ApplyCancelBid(s, bidder).Ok?
    ensures Total(ApplyCancelBid(s, bidder).value.tokens) == Total(s.tokens)
  {
    var tokens := Open(s.tokens, Wallet(bidder));
    OpenConserves(s.tokens, Wallet(bidder));
    TransferConserves(tokens, BidEscrow(bidder), Wallet(bidder), tokens[BidEscrow(bidder)]);
    CloseConserves(Transfer(tokens, BidEscrow(bidder), Wallet(bidder), tokens[BidEscrow(bidder)]).value,
                   BidEscrow(bidder));
  }

  lemma CancelBidKeepsInv(s: State, bidder: User)
    requires Inv(s) && ApplyCancelBid(s, bidder).Ok?
    ensures var s' := ApplyCancelBid(s, bidder).value;
            Inv(s') && Total(s'.tokens) == Total(s.tokens)
  {
    CancelBidExact(s, bidder);
    CancelBidConserves(s, bidder);
    var s' := ApplyCancelBid(s, bidder).value;
    SameIndex(s, s');
    forall u ensures BidEscrow(u) in s'.tokens <==> BidEscrow(u) in s.tokens && u != bidder {
    }
  }

  /** The revenue can be claimed exactly under conditions that do not mention the signer, with the same effect for
      every signer. */
  lemma ClaimRevenueExact(s: State, signer: User, topBidder: User, treasury: User)
    requires Inv(s)
    ensures ApplyClaimRevenue(s, signer, topBidder, treasury)
         == ApplyClaimRevenue(s, s.auction.creator, topBidder, treasury)
    ensures var r := ApplyClaimRevenue(s, signer, topBidder, treasury);
            var shares := s.auction.revenueShares;
            && (r.Ok? <==>
                  && s.auction.topBidder == Some(topBidder) && BidEscrow(topBidder) in s.tokens
                  && Wallet(treasury) in s.tokens && s.configs.feeTreasury == treasury
                  && IsEnded(s.auction, s.clock)
                  && Payable(s.auction.topBid, s.configs.marketFeeRateBps, shares))
            && (r.Ok? ==>
                  && r.value == s.(tokens := r.value.tokens, auction := s.auction.(status := Finished))
                  && r.value.tokens.Keys == OpenWallets(s.tokens, shares).Keys - {BidEscrow(topBidder)}
                  && forall a :: a in r.value.tokens ==>
                       r.value.tokens[a] == Balance(s.tokens, a)
                         + Income(a, Wallet(treasury), s.auction.topBid, s.configs.marketFeeRateBps, shares))
  {
    OpenWalletsExact(s.tokens, s.auction.revenueShares);
    if s.auction.topBidder == Some(topBidder) && BidEscrow(topBidder) in s.tokens && Wallet(treasury) in s.tokens {
      SettleExact(OpenWallets(s.tokens, s.auction.revenueShares), BidEscrow(topBidder), Wallet(treasury),
                  s.configs.marketFeeRateBps, s.auction.revenueShares);
    }
  }

  /** A revenue claim closes the top bidder's escrow and leaves every other escrow alone. */
  lemma ClaimRevenueEscrows(s: State, signer: User, topBidder: User, treasury: User, u: User)
    requires Inv(s) && ApplyClaimRevenue(s, signer, topBidder, treasury).Ok?
    ensures var after := ApplyClaimRevenue(s, signer, topBidder, treasury).value.tokens;
            && (BidEscrow(u) in after <==> BidEscrow(u) in s.tokens && u != topBidder)
            && (BidEscrow(u) in after ==> after[BidEscrow(u)] == s.tokens[BidEscrow(u)])
  {
    ClaimRevenueExact(s, signer, topBidder, treasury);
    OpenWalletsExact(s.tokens, s.auction.revenueShares);
    assert BidEscrow(u) in s.tokens ==> BidEscrow(u) in OpenWallets(s.tokens, s.auction.revenueShares).Keys;
    NoBidEscrowIncome(s, Wallet(treasury), u);
  }

  lemma NoBidEscrowIncome(s: State, treasury: Account, u: User)
    requires !treasury.BidEscrow?
    ensures Income(BidEscrow(u), treasury, s.auction.topBid, s.configs.marketFeeRateBps, s.auction.revenueShares) == 0
  {
    var fee := Floor(s.auction.topBid, s.configs.marketFeeRateBps);
    var net := if fee <= s.auction.topBid then s.auction.topBid - fee else 0;
    NothingReceived(s.auction.revenueShares, Payouts(s.auction.revenueShares, net, net), BidEscrow(u));
  }

  lemma RevenueStepKeepsInv(s: State, s': State, topBidder: User)
    requires Inv(s) && s.auction.topBidder == Some(topBidder) && IsEnded(s.auction, s.clock)
    requires s' == s.(tokens := s'.tokens, auction := s.auction.(status := Finished))
    requires Total(s'.tokens) == Total(s.tokens)
    requires forall u :: BidEscrow(u) in s'.tokens <==> BidEscrow(u) in s.tokens && u != topBidder
    requires forall u :: BidEscrow(u) in s'.tokens ==> s'.tokens[BidEscrow(u)] == s.tokens[BidEscrow(u)]
    ensures Inv(s')
  {
    SameIndex(s, s');
  }

  lemma ClaimRevenueKeepsInv(s: State, signer: User, topBidder: User, treasury: User)
    requires Inv(s) && ApplyClaimRevenue(s, signer, topBidder, treasury).Ok?
    ensures var s' := ApplyClaimRevenue(s, signer, topBidder, treasury).value;
            Inv(s') && Total(s'.tokens) == Total(s.tokens)
  {
    var s' := ApplyClaimRevenue(s, signer, topBidder, treasury).value;
    OpenWalletsExact(s.tokens, s.auction.revenueShares);
    SettleConserves(OpenWallets(s.tokens, s.auction.revenueShares), BidEscrow(topBidder), Wallet(treasury),
                    s.configs.marketFeeRateBps, s.auction.revenueShares);
    forall u
      ensures BidEscrow(u) in s'.tokens <==> BidEscrow(u) in s.tokens && u != topBidder
      ensures BidEscrow(u) in s'.tokens ==> s'.tokens[BidEscrow(u)] == s.tokens[BidEscrow(u)]
    {
      ClaimRevenueEscrows(s, signer, topBidder, treasury, u);
    }
    RevenueStepKeepsInv(s, s', topBidder);
  }

  lemma ClaimLotExact(s: State, bidder: User)
    requires Inv(s)
    ensures var r := ApplyClaimLot(s, bidder);
            && (r.Ok? <==>
                  s.auction.topBidder == Some(bidder) && LotEscrow in s.lots && IsEnded(s.auction, s.clock))
            && (r.Ok? ==>
                  r.value == s.(auction := s.auction.(status := Finished),
                                lots := s.lots[Wallet(bidder) := Balance(s.lots, Wallet(bidder)) + 1] - {LotEscrow}))
  {
    if s.auction.topBidder == Some(bidder) && LotEscrow in s.lots {
      var moved := Transfer(Open(s.lots, Wallet(bidder)), LotEscrow, Wallet(bidder), 1).value;
      assert moved - {LotEscrow} == s.lots[Wallet(bidder) := Balance(s.lots, Wallet(bidder)) + 1] - {LotEscrow};
    }
  }

  lemma CancelAuctionExact(s: State, signer: User)
    requires Inv(s)
    ensures var r := ApplyCancelAuction(s, signer);
            && (r.Ok? <==> s.auction.creator == signer && s.auction.topBidder.None? && LotEscrow in s.lots)
            && (r.Ok? ==>
                  r.value == s.(auction := s.auction.(status := Cancelled),
                                lots := s.lots[Wallet(signer) := Balance(s.lots, Wallet(signer)) + 1] - {LotEscrow}))
  {
    if s.auction.topBidder.Some? {
      var u := s.auction.topBidder.value;
      assert u in Bidders(s);
    }
    if LotEscrow in s.lots {
      var moved := Transfer(Open(s.lots, Wallet(signer)), LotEscrow, Wallet(signer), 1).value;
      assert moved - {LotEscrow} == s.lots[Wallet(signer) := Balance(s.lots, Wallet(signer)) + 1] - {LotEscrow};
    }
  }

  lemma LotStepKeepsInv(s: State, s': State)
    requires Inv(s) && LotEscrow !in s'.lots
    requires s' == s.(auction := s.auction.(status := s'.auction.status), lots := s'.lots)
    requires if s'.auction.status.Cancelled? then s.auction.topBidder.None?
             else s'.auction.status.Finished? && s.auction.topBidder.Some? && IsEnded(s.auction, s.clock)
    ensures Inv(s')
  {
    SameIndex(s, s');
  }

  lemma ExternalTransferKeepsInv(s: State, from: Account, to: Account, amount: nat)
    requires Inv(s) && ApplyExternalTransfer(s, from, to, amount).Ok?
    ensures var s' := ApplyExternalTransfer(s, from, to, amount).value;
            Inv(s') && Total(s'.tokens) == Total(s.tokens)
  {
    ExternalTransferKeepsEscrows(s.tokens, from, to, amount);
    SameIndex(s, ApplyExternalTransfer(s, from, to, amount).value);
  }

  lemma StepKeepsInv(s: State, action: Action)
    requires Inv(s) && Apply(s, action).Ok?
    ensures Inv(Apply(s, action).value) && Total(Apply(s, action).value.tokens) == Total(s.tokens)
  {
    var s' := Apply(s, action).value;
    match action
    case MakeBid(bidder, bidAmount, maxAllowed, eligible) =>
      MakeBidKeepsInv(s, bidder, bidAmount, maxAllowed, eligible);
    case CancelBid(bidder) =>
      CancelBidKeepsInv(s, bidder);
    case ClaimLot(bidder) =>
      ClaimLotExact(s, bidder);
      LotStepKeepsInv(s, s');
    case ClaimRevenue(signer, topBidder, treasury) =>
      ClaimRevenueKeepsInv(s, signer, topBidder, treasury);
    case CancelAuction(signer) =>
      CancelAuctionExact(s, signer);
      LotStepKeepsInv(s, s');
    case ChangeConfigs(signer, input) =>
      SameIndex(s, s');
    case ExternalTransfer(from, to, amount) =>
      ExternalTransferKeepsInv(s, from, to, amount);
  }

  lemma NextKeepsInv(s: State, e: Event)
    requires Inv(s)
    ensures Inv(Next(s, e)) && Total(Next(s, e).tokens) == Total(s.tokens)
  {
    var t := s.(clock := Later(s.clock, e.now));
    SameIndex(s, t);
    if Apply(t, e.action).Ok? {
      StepKeepsInv(t, e.action);
    }
  }

  lemma ProcessedNow(s: State, action: Action)
    requires Apply(s, action).Ok?
    ensures Next(s, Event(s.clock, action)) == Apply(s, action).value
  {
    assert s.(clock := s.clock) == s;
  }

  /** Safety over whole runs: the invariant holds after any sequence of instructions, and no currency is
      created or lost between wallets, escrows, treasury and recipients. */
  lemma {:induction false} RunKeepsInv(s: State, events: seq<Event>)
    requires Inv(s)
    ensures Inv(Run(s, events)) && Total(Run(s, events).tokens) == Total(s.tokens)
    decreases |events|
  {
    if events != [] {
      NextKeepsInv(s, events[0]);
      RunKeepsInv(Next(s, events[0]), events[1..]);
    }
  }

  /** A freshly created auction satisfies the invariant. */
  lemma CreateEstablishesInv(c: Configs, now: int, terms: AuctionTerms, tokens: Ledger, lots: Ledger)
    requires Fresh(tokens) && Fresh(lots) && Total(tokens) <= I64_MAX && c.numKeysPerIndexPage > 0
    requires CreateAuction(c, now, terms, tokens, lots).Ok?
    ensures var s := CreateAuction(c, now, terms, tokens, lots).value;
            && Inv(s) && ShareSum(terms.shares) == 10000
            && s.lots == lots[Wallet(terms.creator) := lots[Wallet(terms.creator)] - 1][LotEscrow := 1]
  {
    var s := CreateAuction(c, now, terms, tokens, lots).value;
    assert Bidders(s) == [];
    forall p: nat ensures PageCorrect(s.pages, [], c.numKeysPerIndexPage, p) {
    }
  }

  /* Creation. */

  /** What a creator can check before asking. A negative duration counts as its two's complement, which exceeds every
      limit below 2^63. */
  predicate AuctionCreatable(c: Configs, now: int, terms: AuctionTerms, lots: Ledger) {
    var duration := if terms.duration < 0 then terms.duration + 0x1_0000_0000_0000_0000 else terms.duration;
    && c.auctionCreationEnabled && terms.id == c.totalAuctions < U64_MAX
    && |terms.shares| <= 6 && ShareSum(terms.shares) == 10000
    && Wallet(terms.creator) in lots && lots[Wallet(terms.creator)] >= 1 && terms.listed
    && c.minAuctionDuration <= duration <= c.maxAuctionDuration
    && -0x8000_0000_0000_0000 <= now + terms.duration < 0x8000_0000_0000_0000
    && 33 * terms.numGroups + 34 * |terms.shares| <= 599
  }

  /** Every field of the auction asked for, and the rest of its state. */
  ghost predicate CreatedAuction(c: Configs, now: int, terms: AuctionTerms, tokens: Ledger, lots: Ledger, s: State) {
    && s.auction.id == terms.id && s.auction.creator == terms.creator
    && s.auction.createdTimestamp == now && s.auction.expiredTimestamp == now + terms.duration
    && (forall t :: IsEnded(s.auction, t) <==> t > now + terms.duration)
    && s.auction.startBid == terms.startBid && s.auction.numGroups == terms.numGroups
    && s.auction.revenueShares == terms.shares && s.auction.status.InProgress?
    && s.auction.totalBids == 0 && s.auction.topBid == 0 && s.auction.topBidder.None?
    && s.clock == now && s.bids == map[] && s.pages == map[] && s.tokens == tokens
    && (forall a :: Balance(s.lots, a) == Balance(lots, a) - (if a == Wallet(terms.creator) then 1 else 0)
                                                         + (if a == LotEscrow then 1 else 0))
    && s.configs.totalAuctions == c.totalAuctions + 1
    && s.configs == c.(totalAuctions := s.configs.totalAuctions)
  }

  /** Creation succeeds exactly when it is allowed, and creates the auction that was asked for. */
  lemma CreateAuctionExact(c: Configs, now: int, terms: AuctionTerms, tokens: Ledger, lots: Ledger)
    ensures var r := CreateAuction(c, now, terms, tokens, lots);
            && (r.Ok? <==> AuctionCreatable(c, now, terms, lots))
            && (r.Ok? ==> CreatedAuction(c, now, terms, tokens, lots, r.value))
  {
  }

  /** From the moment of creation up to and including the last second, every eligible user other than the creator with
      the funds can place a bid at the start bid or above. */
  lemma FreshAuctionTakesBids(c: Configs, now: int, terms: AuctionTerms, tokens: Ledger, lots: Ledger, t: int,
                              bidder: User, bidAmount: nat)
    requires Fresh(tokens) && Fresh(lots) && Total(tokens) <= I64_MAX && c.numKeysPerIndexPage > 0
    requires AuctionCreatable(c, now, terms, lots) && 33 * terms.numGroups + 34 * |terms.shares| <= 567
    requires now <= t <= now + terms.duration && bidder != terms.creator
    requires 0 < bidAmount && terms.startBid <= bidAmount <= Balance(tokens, Wallet(bidder))
    requires InI64(now + terms.duration - c.lastMinutesForAuctionExtend * 60)
    requires InI64(t + c.auctionExtendMinutes * 60)
    ensures CreateAuction(c, now, terms, tokens, lots).Ok?
    ensures var s := CreateAuction(c, now, terms, tokens, lots).value;
            var n := Next(s, Event(t, MakeBid(bidder, bidAmount, bidAmount, true)));
            n.auction.topBidder == Some(bidder) && n.auction.topBid == bidAmount
  {
    CreateAuctionExact(c, now, terms, tokens, lots);
    CreateEstablishesInv(c, now, terms, tokens, lots);
    FirstBidAccepted(CreateAuction(c, now, terms, tokens, lots).value, t, bidder, bidAmount);
  }

  lemma FirstBidAccepted(s: State, t: int, bidder: User, bidAmount: nat)
    requires Inv(s) && s.auction.topBidder.None? && s.auction.status.InProgress? && bidder != s.auction.creator
    requires s.clock <= t <= s.auction.expiredTimestamp
    requires 0 < bidAmount && s.auction.startBid <= bidAmount <= Balance(s.tokens, Wallet(bidder))
    requires DeadlineFits(s.(clock := t)) && SerializedSize(s.auction.(topBidder := Some(bidder))) <= AUCTION_SPACE
    ensures var n := Next(s, Event(t, MakeBid(bidder, bidAmount, bidAmount, true)));
            n.auction.topBidder == Some(bidder) && n.auction.topBid == bidAmount
  {
    var u := s.(clock := t);
    assert s.(clock := Later(s.clock, t)) == u;
    SameIndex(s, u);
    MinEligibleBidFromZero(s.configs.minOutbidRateBps);
    MakeBidExact(u, bidder, bidAmount, bidAmount, true);
  }
}
