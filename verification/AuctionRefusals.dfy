/** Why the auction's instructions are refused: every error code names a reason that holds. */
module AuctionRefusals {
  import opened Base
  import opened GlobalConfigs
  import opened Tokens
  import opened Revenue
  import opened AuctionModel
  import opened AuctionInvariant

  /** What each code of the checks says about a bid, given the minimum eligible bid and the bidder's funds. */
  ghost predicate ValidationRefusal(a: Auction, min: Result<nat>, now: int, bidAmount: nat, maxAllowed: nat, funds: nat,
                                    error: ErrorCode)
  {
    match error
    case BidOnEndedAuction => now > a.expiredTimestamp
    case AuctionCancelled => a.status.Cancelled?
    case InvalidBidAmount => bidAmount == 0 || bidAmount > maxAllowed
    case NotMetStartBid => bidAmount < a.startBid
    case NotMetMinOutbidRate => maxAllowed <= a.topBid || (a.topBid > 0 && min.Ok? && maxAllowed < min.value)
    case InsufficientBidFunds => min.Ok? && Max(bidAmount, min.value) > funds
    case Panicked => min.Err?
    case _ => false
  }

  ghost predicate RecordingRefusal(s: State, bidder: User, error: ErrorCode) {
    match error
    case Panicked => (s.auction.totalBids >= U64_MAX && bidder !in s.bids) || !DeadlineFits(s)
    case AccountDidNotSerialize => 33 * s.auction.numGroups + 34 * |s.auction.revenueShares| > 567
    case _ => false
  }

  ghost predicate PlacingRefusal(s: State, min: Result<nat>, bidder: User, bidAmount: nat, maxAllowed: nat,
                                 eligible: bool, error: ErrorCode)
  {
    || (error == AuctionCreatorCannotMakeBid && bidder == s.auction.creator)
    || (error == AccountNotInitialized && Wallet(bidder) !in s.tokens)
    || (error == Ineligible && !eligible)
    || ValidationRefusal(s.auction, min, s.clock, bidAmount, maxAllowed,
                         Balance(s.tokens, BidEscrow(bidder)) + Balance(s.tokens, Wallet(bidder)), error)
    || RecordingRefusal(s, bidder, error)
  }

  /** The minimum is the exact one, and it is missing when the checked formula leaves i64. */
  ghost predicate BidRefusal(s: State, bidder: User, bidAmount: nat, maxAllowed: nat, eligible: bool, error: ErrorCode)
  {
    var top, rate := s.auction.topBid, s.configs.minOutbidRateBps;
    PlacingRefusal(s, if OutbidFits(top, rate) then Ok(OutbidMinimum(top, rate)) else Err(Panicked), bidder, bidAmount,
                   maxAllowed, eligible, error)
  }

  ghost predicate CancelBidRefusal(s: State, bidder: User, error: ErrorCode) {
    match error
    case AccountNotInitialized => BidEscrow(bidder) !in s.tokens
    case TopBidderCannotCancelBid => s.auction.topBidder == Some(bidder)
    case _ => false
  }

  ghost predicate ClaimLotRefusal(s: State, bidder: User, error: ErrorCode) {
    match error
    case AccountNotInitialized => bidder !in s.bids || LotEscrow !in s.lots
    case IneligibleToClaimLotNft => s.auction.topBidder != Some(bidder)
    case OngoingAuction => s.clock <= s.auction.expiredTimestamp
    case _ => false
  }

  ghost predicate ClaimRevenueRefusal(s: State, topBidder: User, treasury: User, error: ErrorCode) {
    match error
    case AccountNotInitialized => BidEscrow(topBidder) !in s.tokens || Wallet(treasury) !in s.tokens
    case IneligibleToClaimRevenue => s.auction.topBidder != Some(topBidder)
    case InvalidFeeTreasuryAddress => treasury != s.configs.feeTreasury
    case OngoingAuction => s.clock <= s.auction.expiredTimestamp
    case _ => SettlementRefusal(s.auction.topBid, s.configs.marketFeeRateBps, s.auction.revenueShares, error)
  }

  ghost predicate CancelAuctionRefusal(s: State, signer: User, error: ErrorCode) {
    match error
    case NotAuctionCreator => signer != s.auction.creator
    case AuctionNotCancelable => s.auction.topBidder.Some?
    case AccountNotInitialized => LotEscrow !in s.lots
    case _ => false
  }

  ghost predicate Refusal(s: State, action: Action, error: ErrorCode) {
    match action
    case MakeBid(bidder, bidAmount, maxAllowed, eligible) =>
      BidRefusal(s, bidder, bidAmount, maxAllowed, eligible, error)
    case CancelBid(bidder) => CancelBidRefusal(s, bidder, error)
    case ClaimLot(bidder) => ClaimLotRefusal(s, bidder, error)
    case ClaimRevenue(signer, topBidder, treasury) => ClaimRevenueRefusal(s, topBidder, treasury, error)
    case CancelAuction(signer) => CancelAuctionRefusal(s, signer, error)
    case ChangeConfigs(signer, input) => UpdateRefusal(s.configs, signer, input, error)
    case ExternalTransfer(from, to, amount) => true
  }

  lemma EnterBidRefused(s: State, t: State, bidder: User, price: nat)
    requires t == s.(tokens := Open(s.tokens, BidEscrow(bidder))) && s.configs.numKeysPerIndexPage > 0
    requires Wallet(bidder) in s.tokens && (bidder in s.bids ==> s.bids[bidder].initialized)
    requires Balance(s.tokens, BidEscrow(bidder)) <= price
    requires price <= Balance(s.tokens, BidEscrow(bidder)) + s.tokens[Wallet(bidder)]
    ensures var r := EnterBid(t, bidder, price, price - Balance(s.tokens, BidEscrow(bidder)));
            r.Err? ==> RecordingRefusal(s, bidder, r.error)
  {
    NextDeadlineExact(s);
  }

  lemma ValidationRefused(a: Auction, min: Result<nat>, now: int, bidAmount: nat, maxAllowed: nat, escrowed: nat,
                          wallet: nat)
    requires (min.Ok? ==> a.topBid <= min.value) && (a.topBid == 0 ==> min == Ok(0)) && escrowed <= a.topBid
    requires min.Err? ==> min.error == Panicked
    ensures var r := ValidateBid(a, min, now, bidAmount, maxAllowed, escrowed, wallet);
            r.Err? ==> ValidationRefusal(a, min, now, bidAmount, maxAllowed, escrowed + wallet, r.error)
  {
  }

  lemma MinimumIsExact(s: State)
    requires Inv(s)
    ensures var min := MinEligibleBid(s.auction.topBid, s.configs.minOutbidRateBps);
            && (min.Ok? <==> OutbidFits(s.auction.topBid, s.configs.minOutbidRateBps))
            && (min.Ok? ==> min.value == OutbidMinimum(s.auction.topBid, s.configs.minOutbidRateBps))
            && (min.Ok? ==> s.auction.topBid <= min.value) && (s.auction.topBid == 0 ==> min == Ok(0))
            && (min.Err? ==> min.error == Panicked)
  {
    MinEligibleBidExact(s.auction.topBid, s.configs.minOutbidRateBps);
    MinimumInReach(s);
  }

  /** A refused bid fails at a guard, in validation, or when it is recorded. */
  lemma PlaceBidGuards(s: State, min: Result<nat>, bidder: User, bidAmount: nat, maxAllowed: nat, eligible: bool)
    requires s.configs.numKeysPerIndexPage > 0
    ensures var t := s.(tokens := Open(s.tokens, BidEscrow(bidder)));
            var terms := ValidateBid(s.auction, min, s.clock, bidAmount, maxAllowed,
                                     Balance(s.tokens, BidEscrow(bidder)), Balance(s.tokens, Wallet(bidder)));
            var r := PlaceBid(s, min, bidder, bidAmount, maxAllowed, eligible);
            r.Err? ==>
              || (r.error == AuctionCreatorCannotMakeBid && bidder == s.auction.creator)
              || (r.error == AccountNotInitialized && Wallet(bidder) !in s.tokens)
              || (r.error == Ineligible && !eligible)
              || (Wallet(bidder) in s.tokens && terms.Err? && r.error == terms.error)
              || (Wallet(bidder) in s.tokens && terms.Ok? && r == EnterBid(t, bidder, terms.value.0, terms.value.1))
  {
  }

  lemma PlacingRefused(s: State, min: Result<nat>, bidder: User, bidAmount: nat, maxAllowed: nat, eligible: bool)
    requires Inv(s) && (min.Ok? ==> s.auction.topBid <= min.value) && (s.auction.topBid == 0 ==> min == Ok(0))
    requires min.Err? ==> min.error == Panicked
    ensures var r := PlaceBid(s, min, bidder, bidAmount, maxAllowed, eligible);
            r.Err? ==> PlacingRefusal(s, min, bidder, bidAmount, maxAllowed, eligible, r.error)
  {
    EscrowBelowTop(s, bidder);
    PlaceBidGuards(s, min, bidder, bidAmount, maxAllowed, eligible);
    var escrowed, wallet := Balance(s.tokens, BidEscrow(bidder)), Balance(s.tokens, Wallet(bidder));
    ValidationRefused(s.auction, min, s.clock, bidAmount, maxAllowed, escrowed, wallet);
    ValidateBidExact(s.auction, min, s.clock, bidAmount, maxAllowed, escrowed, wallet);
    if Wallet(bidder) in s.tokens && ValidateBid(s.auction, min, s.clock, bidAmount, maxAllowed, escrowed, wallet).Ok? {
      EnterBidRefused(s, s.(tokens := Open(s.tokens, BidEscrow(bidder))), bidder, Max(bidAmount, min.value));
    }
  }

  lemma BidRefused(s: State, bidder: User, bidAmount: nat, maxAllowed: nat, eligible: bool)
    requires Inv(s)
    ensures var r := ApplyMakeBid(s, bidder, bidAmount, maxAllowed, eligible);
            r.Err? ==> BidRefusal(s, bidder, bidAmount, maxAllowed, eligible, r.error)
  {
    MinimumIsExact(s);
    PlacingRefused(s, MinEligibleBid(s.auction.topBid, s.configs.minOutbidRateBps), bidder, bidAmount, maxAllowed,
                   eligible);
  }

  /** A refused revenue claim fails at a guard or in the settlement. */
  lemma ClaimRevenueGuards(s: State, signer: User, topBidder: User, treasury: User)
    requires topBidder in s.bids ==> s.bids[topBidder].bidder == topBidder
    requires BidEscrow(topBidder) in s.tokens ==>
               topBidder in s.bids && s.tokens[BidEscrow(topBidder)] == s.bids[topBidder].bid
    ensures var r := ApplyClaimRevenue(s, signer, topBidder, treasury);
            var settled := Settle(OpenWallets(s.tokens, s.auction.revenueShares), BidEscrow(topBidder),
                                  Wallet(treasury), s.configs.marketFeeRateBps, s.auction.revenueShares);
            r.Err? ==>
              || (r.error == AccountNotInitialized
                  && (BidEscrow(topBidder) !in s.tokens || Wallet(treasury) !in s.tokens))
              || (r.error == IneligibleToClaimRevenue && s.auction.topBidder != Some(topBidder))
              || (r.error == InvalidFeeTreasuryAddress && treasury != s.configs.feeTreasury)
              || (r.error == OngoingAuction && s.clock <= s.auction.expiredTimestamp)
              || (s.auction.topBidder == Some(topBidder) && BidEscrow(topBidder) in s.tokens
                  && Wallet(treasury) in s.tokens && settled.Err? && r.error == settled.error)
  {
  }

  lemma TopBidSettlementRefused(s: State, topBidder: User, treasury: User)
    requires Inv(s) && s.auction.topBidder == Some(topBidder) && BidEscrow(topBidder) in s.tokens
    requires Wallet(treasury) in s.tokens
    ensures var rate, shares := s.configs.marketFeeRateBps, s.auction.revenueShares;
            var r := Settle(OpenWallets(s.tokens, shares), BidEscrow(topBidder), Wallet(treasury), rate, shares);
            r.Err? ==> SettlementRefusal(s.auction.topBid, rate, shares, r.error)
  {
    OpenWalletsExact(s.tokens, s.auction.revenueShares);
    SettleRefused(OpenWallets(s.tokens, s.auction.revenueShares), BidEscrow(topBidder), Wallet(treasury),
                  s.configs.marketFeeRateBps, s.auction.revenueShares);
  }

  lemma ClaimRevenueRefused(s: State, signer: User, topBidder: User, treasury: User)
    requires Inv(s)
    ensures var r := ApplyClaimRevenue(s, signer, topBidder, treasury);
            r.Err? ==> ClaimRevenueRefusal(s, topBidder, treasury, r.error)
  {
    ClaimRevenueGuards(s, signer, topBidder, treasury);
    if s.auction.topBidder == Some(topBidder) && BidEscrow(topBidder) in s.tokens && Wallet(treasury) in s.tokens {
      TopBidSettlementRefused(s, topBidder, treasury);
    }
  }

  lemma CancelBidRefused(s: State, bidder: User)
    requires Inv(s)
    ensures var r := ApplyCancelBid(s, bidder);
            r.Err? ==> CancelBidRefusal(s, bidder, r.error)
  {
    CancelBidExact(s, bidder);
  }

  lemma ClaimLotRefused(s: State, bidder: User)
    requires Inv(s)
    ensures var r := ApplyClaimLot(s, bidder);
            r.Err? ==> ClaimLotRefusal(s, bidder, r.error)
  {
    ClaimLotExact(s, bidder);
  }

  lemma CancelAuctionRefused(s: State, signer: User)
    requires Inv(s)
    ensures var r := ApplyCancelAuction(s, signer);
            r.Err? ==> CancelAuctionRefusal(s, signer, r.error)
  {
    CancelAuctionExact(s, signer);
  }

  /** Whatever instruction is refused in a reachable state, the code it fails with names a reason that holds. */
  lemma RefusalsExplained(s: State, action: Action)
    requires Inv(s) && Apply(s, action).Err?
    ensures Refusal(s, action, Apply(s, action).error)
  {
    match action
    case MakeBid(bidder, bidAmount, maxAllowed, eligible) => BidRefused(s, bidder, bidAmount, maxAllowed, eligible);
    case CancelBid(bidder) => CancelBidRefused(s, bidder);
    case ClaimLot(bidder) => ClaimLotRefused(s, bidder);
    case ClaimRevenue(signer, topBidder, treasury) => ClaimRevenueRefused(s, signer, topBidder, treasury);
    case CancelAuction(signer) => CancelAuctionRefused(s, signer);
    case ChangeConfigs(signer, input) => UpdateRefused(s.configs, signer, input);
    case ExternalTransfer(from, to, amount) =>
  }

  /** The same for creation. */
  lemma CreationRefused(c: Configs, now: int, terms: AuctionTerms, tokens: Ledger, lots: Ledger)
    ensures var r := CreateAuction(c, now, terms, tokens, lots);
            var duration := if terms.duration < 0 then terms.duration + 0x1_0000_0000_0000_0000 else terms.duration;
            r.Err? ==>
              match r.error
              case AuctionCreationDisabled => !c.auctionCreationEnabled
              case InvalidAuctionId => terms.id != c.totalAuctions
              case InvalidRevenueRecipientNumber => |terms.shares| > 6
              case InvalidAuctionCreatorNftAccount => Balance(lots, Wallet(terms.creator)) == 0
              case NftCollectionNotInAllowlist => !terms.listed
              case InvalidRevenueShareConfig => ShareSum(terms.shares) != 10000
              case InvalidAuctionDuration => !(c.minAuctionDuration <= duration <= c.maxAuctionDuration)
              case AccountDidNotSerialize => 33 * terms.numGroups + 34 * |terms.shares| > 599
              case Panicked =>
                ShareSum(terms.shares) > U16_MAX || c.totalAuctions == U64_MAX || !InI64(now + terms.duration)
              case _ => false
  {
  }
}
