/** The auction as a state machine over values: what every instruction does to the listing, the bids, the
    two token ledgers and the bid index. An instruction that fails leaves the state as it was. */
module AuctionModel {
  import opened Base
  import opened GlobalConfigs
  import opened Tokens
  import opened Revenue
  import opened PubkeyIndex

  const MAX_REVENUE_RECEIVERS := 6

  datatype Auction = Auction(
    id: nat,
    creator: User,
    createdTimestamp: int,
    expiredTimestamp: int,
    startBid: nat,
    numGroups: nat,
    revenueShares: seq<Share>,
    status: ListingStatus,
    totalBids: nat,
    topBid: nat,
    topBidder: Option<User>)

  /** The bytes allocated for the account's data: ten groups at 36 bytes, six recipients at 34, and the other
      fields at their largest. */
  const AUCTION_SPACE := 129 + (4 + 10 * 36) + (4 + 6 * 34) + 4 + 8 + 8 + 33

  /** The bytes its data takes: 33 a group, 34 a recipient, one for the status, and the key of the top bidder once
      there is one. */
  function SerializedSize(a: Auction): nat {
    129 + (4 + 33 * a.numGroups) + (4 + 34 * |a.revenueShares|) + 1 + 8 + 8 + if a.topBidder.Some? then 33 else 1
  }

  datatype AuctionBid = AuctionBid(initialized: bool, bidder: User, bid: nat)

  /** One auction with everything its instructions read or write. `tokens` is the currency mint, `lots` the
      mint of the auctioned NFT, `clock` the last time an instruction was processed. */
  datatype State = State(
    configs: Configs,
    clock: int,
    auction: Auction,
    bids: map<User, AuctionBid>,
    tokens: Ledger,
    lots: Ledger,
    pages: Pages)

  datatype Action =
    | MakeBid(bidder: User, bidAmount: nat, maxAllowed: nat, eligible: bool)
    | CancelBid(bidder: User)
    | ClaimLot(bidder: User)
    | ClaimRevenue(signer: User, topBidder: User, treasury: User)
    | CancelAuction(signer: User)
    | ChangeConfigs(signer: User, input: UpdateConfigsInput)
    | ExternalTransfer(from: Account, to: Account, amount: nat)

  /* The read-only parts of the strategies. */

  function IsEnded(a: Auction, now: int): bool {
    now > a.expiredTimestamp
  }

  /** Division of signed integers that truncates toward zero. */
  function TruncDiv(x: int, d: nat): int
    requires d > 0
  {
    if x >= 0 then x / d else -((-x) / d)
  }

  /** The smallest bid that outbids `topBid`, computed in checked i64. */
  function MinEligibleBid(topBid: nat, rateBps: nat): Result<nat> {
    var top := AsI64(topBid);
    if !InI64(top * rateBps) then Err(Panicked)
    else
      var min := top + TruncDiv(top * rateBps, 10000);
      if !InI64(min) then Err(Panicked) else Ok(AsU64(min))
  }

  /** All the checks on a bid, in order; `min` is the minimum eligible bid or its panic. The result is the
      price and the amount still to be transferred. */
  function ValidateBid(a: Auction, min: Result<nat>, now: int, bidAmount: nat, maxAllowed: nat, escrowed: nat,
                       wallet: nat): Result<(nat, nat)>
  {
    if IsEnded(a, now) then Err(BidOnEndedAuction)
    else if a.status.Cancelled? then Err(AuctionCancelled)
    else if bidAmount == 0 || bidAmount > maxAllowed then Err(InvalidBidAmount)
    else if bidAmount < a.startBid then Err(NotMetStartBid)
    else if maxAllowed <= a.topBid then Err(NotMetMinOutbidRate)
    else
      var minEligible :- min;
      var actual := Max(bidAmount, minEligible);
      if a.topBid > 0 && maxAllowed < minEligible then Err(NotMetMinOutbidRate)
      else if actual < escrowed then Err(Panicked)
      else if actual - escrowed > wallet then Err(InsufficientBidFunds)
      else Ok((actual, actual - escrowed))
  }

  /** The deadline after a bid at `now`. */
  function NextDeadline(expired: int, c: Configs, now: int): Result<int> {
    if !InI64(expired - c.lastMinutesForAuctionExtend * 60) then Err(Panicked)
    else if now <= expired - c.lastMinutesForAuctionExtend * 60 then Ok(expired)
    else if !InI64(now + c.auctionExtendMinutes * 60) then Err(Panicked)
    else Ok(now + c.auctionExtendMinutes * 60)
  }

  /* The instructions. */

  function ApplyMakeBid(s: State, bidder: User, bidAmount: nat, maxAllowed: nat, eligible: bool): Result<State> {
    PlaceBid(s, MinEligibleBid(s.auction.topBid, s.configs.minOutbidRateBps), bidder, bidAmount, maxAllowed, eligible)
  }

  /** `ApplyMakeBid` for a given minimum eligible bid. */
  function PlaceBid(s: State, min: Result<nat>, bidder: User, bidAmount: nat, maxAllowed: nat, eligible: bool)
    : Result<State>
  {
    if s.configs.numKeysPerIndexPage == 0 then Err(Panicked)
    else if bidder == s.auction.creator then Err(AuctionCreatorCannotMakeBid)
    else if Wallet(bidder) !in s.tokens then Err(AccountNotInitialized)
    else if !eligible then Err(Ineligible)
    else
      var tokens := Open(s.tokens, BidEscrow(bidder));
      var terms :- ValidateBid(s.auction, min, s.clock, bidAmount, maxAllowed, tokens[BidEscrow(bidder)],
                               tokens[Wallet(bidder)]);
      EnterBid(s.(tokens := tokens), bidder, terms.0, terms.1)
  }

  /** Records a validated bid: bid account, index, delta transfer, listing. */
  function EnterBid(s: State, bidder: User, price: nat, amount: nat): Result<State>
    requires s.configs.numKeysPerIndexPage > 0
  {
    var newlyInitialized := bidder !in s.bids || !s.bids[bidder].initialized;
    var bid := AuctionBid(true, if newlyInitialized then bidder else s.bids[bidder].bidder, price);
    var pages := if newlyInitialized
                 then IndexPubkey(s.pages, PageId(s.auction.totalBids, s.configs.numKeysPerIndexPage), bidder)
                 else s.pages;
    var paid :- Transfer(s.tokens, Wallet(bidder), BidEscrow(bidder), amount);
    ListBid(s.(bids := s.bids[bidder := bid], tokens := paid, pages := pages), bidder, price, newlyInitialized)
  }

  /** Counter, top bid and deadline. The listing is written back to its account last, and has to fit. */
  function ListBid(s: State, bidder: User, price: nat, newlyInitialized: bool): Result<State> {
    if newlyInitialized && s.auction.totalBids >= U64_MAX then Err(Panicked)
    else
      var expired :- NextDeadline(s.auction.expiredTimestamp, s.configs, s.clock);
      var auction := s.auction.(totalBids := s.auction.totalBids + if newlyInitialized then 1 else 0,
                                topBid := price, topBidder := Some(bidder), expiredTimestamp := expired);
      if SerializedSize(auction) > AUCTION_SPACE then Err(AccountDidNotSerialize) else Ok(s.(auction := auction))
  }

  function ApplyCancelBid(s: State, bidder: User): Result<State> {
    if bidder !in s.bids then Err(AccountNotInitialized)
    else if s.bids[bidder].bidder != bidder then Err(NotTheBidder)
    else if s.auction.topBidder == Some(bidder) then Err(TopBidderCannotCancelBid)
    else if BidEscrow(bidder) !in s.tokens then Err(AccountNotInitialized)
    else if s.tokens[BidEscrow(bidder)] != s.bids[bidder].bid then Err(InconsistentBidEscrowTokenAccount)
    else
      var tokens := Open(s.tokens, Wallet(bidder));
      var refunded :- Transfer(tokens, BidEscrow(bidder), Wallet(bidder), tokens[BidEscrow(bidder)]);
      var closed :- Close(refunded, BidEscrow(bidder));
      Ok(s.(tokens := closed, bids := s.bids[bidder := s.bids[bidder].(bid := 0)],
            auction := if IsEnded(s.auction, s.clock) then s.auction.(status := Finished) else s.auction))
  }

  function ApplyClaimLot(s: State, bidder: User): Result<State> {
    if bidder !in s.bids then Err(AccountNotInitialized)
    else if s.bids[bidder].bidder != bidder then Err(InvalidBidAccount)
    else if s.auction.topBidder != Some(bidder) then Err(IneligibleToClaimLotNft)
    else if LotEscrow !in s.lots then Err(AccountNotInitialized)
    else if s.lots[LotEscrow] != 1 then Err(InconsistentLotEscrowNftAccount)
    else if !IsEnded(s.auction, s.clock) then Err(OngoingAuction)
    else
      var moved :- Transfer(Open(s.lots, Wallet(bidder)), LotEscrow, Wallet(bidder), 1);
      var closed :- Close(moved, LotEscrow);
      Ok(s.(lots := closed, auction := s.auction.(status := Finished)))
  }

  /** The accounts it names must be the current top bidder's and the treasury's; the signer only pays rent. */
  function ApplyClaimRevenue(s: State, signer: User, topBidder: User, treasury: User): Result<State> {
    if topBidder !in s.bids then Err(AccountNotInitialized)
    else if s.bids[topBidder].bidder != topBidder then Err(IneligibleToClaimRevenue)
    else if BidEscrow(topBidder) !in s.tokens then Err(AccountNotInitialized)
    else if s.tokens[BidEscrow(topBidder)] != s.bids[topBidder].bid then Err(InconsistentBidEscrowAccountState)
    else if Wallet(treasury) !in s.tokens then Err(AccountNotInitialized)
    else if s.auction.topBidder != Some(topBidder) then Err(IneligibleToClaimRevenue)
    else if s.configs.feeTreasury != treasury then Err(InvalidFeeTreasuryAddress)
    else if !IsEnded(s.auction, s.clock) then Err(OngoingAuction)
    else
      var tokens := OpenWallets(s.tokens, s.auction.revenueShares);
      var settled :- Settle(tokens, BidEscrow(topBidder), Wallet(treasury), s.configs.marketFeeRateBps,
                            s.auction.revenueShares);
      Ok(s.(tokens := settled, auction := s.auction.(status := Finished)))
  }

  function ApplyCancelAuction(s: State, signer: User): Result<State> {
    if s.auction.creator != signer then Err(NotAuctionCreator)
    else if s.auction.totalBids != 0 then Err(AuctionNotCancelable)
    else if LotEscrow !in s.lots then Err(AccountNotInitialized)
    else
      var moved :- Transfer(Open(s.lots, Wallet(signer)), LotEscrow, Wallet(signer), 1);
      var closed :- Close(moved, LotEscrow);
      Ok(s.(lots := closed, auction := s.auction.(status := Cancelled)))
  }

  function ApplyExternalTransfer(s: State, from: Account, to: Account, amount: nat): Result<State> {
    var moved :- ExternalTransferOf(s.tokens, from, to, amount);
    Ok(s.(tokens := moved))
  }

  function Apply(s: State, action: Action): Result<State> {
    match action
    case MakeBid(bidder, bidAmount, maxAllowed, eligible) => ApplyMakeBid(s, bidder, bidAmount, maxAllowed, eligible)
    case CancelBid(bidder) => ApplyCancelBid(s, bidder)
    case ClaimLot(bidder) => ApplyClaimLot(s, bidder)
    case ClaimRevenue(signer, topBidder, treasury) => ApplyClaimRevenue(s, signer, topBidder, treasury)
    case CancelAuction(signer) => ApplyCancelAuction(s, signer)
    case ChangeConfigs(signer, input) =>
      var updated :- UpdateConfigs(s.configs, signer, input);
      Ok(s.(configs := updated))
    case ExternalTransfer(from, to, amount) => ApplyExternalTransfer(s, from, to, amount)
  }

  /** What a creator asks for. `listed` says that collection and currency are on the allow-lists and the NFT's
      metadata names the collection. */
  datatype AuctionTerms = AuctionTerms(
    id: U64,
    creator: User,
    duration: I64,
    startBid: U64,
    numGroups: nat,
    shares: seq<Share>,
    listed: bool)

  /** Creation: configuration and argument checks, the deposit of the lot, and the listing written to its account. */
  function CreateAuction(c: Configs, now: int, terms: AuctionTerms, tokens: Ledger, lots: Ledger): Result<State> {
    if !c.auctionCreationEnabled then Err(AuctionCreationDisabled)
    else if c.totalAuctions != terms.id then Err(InvalidAuctionId)
    else if |terms.shares| > MAX_REVENUE_RECEIVERS then Err(InvalidRevenueRecipientNumber)
    else if Balance(lots, Wallet(terms.creator)) == 0 then Err(InvalidAuctionCreatorNftAccount)
    else if !terms.listed then Err(NftCollectionNotInAllowlist)
    else if ShareConfigError(terms.shares).Some? then Err(ShareConfigError(terms.shares).value)
    else if AsU64(terms.duration) < c.minAuctionDuration || AsU64(terms.duration) > c.maxAuctionDuration then
      Err(InvalidAuctionDuration)
    else if c.totalAuctions == U64_MAX || !InI64(now + terms.duration) then Err(Panicked)
    else
      var auction := Auction(terms.id, terms.creator, now, now + terms.duration, terms.startBid, terms.numGroups,
                             terms.shares, InProgress, 0, 0, None);
      var deposited :- Transfer(Open(lots, LotEscrow), Wallet(terms.creator), LotEscrow, 1);
      if SerializedSize(auction) > AUCTION_SPACE then Err(AccountDidNotSerialize)
      else Ok(State(c.(totalAuctions := c.totalAuctions + 1), now, auction, map[], tokens, deposited, map[]))
  }

  /* Runs. */

  /** An instruction with the time at which the runtime processes it. */
  datatype Event = Event(now: int, action: Action)

  /** Time does not run backwards, and a failed instruction changes nothing else. */
  function Next(s: State, e: Event): State {
    var t := s.(clock := Later(s.clock, e.now));
    var r := Apply(t, e.action);
    if r.Ok? then r.value else t
  }

  function Run(s: State, events: seq<Event>): State
    decreases |events|
  {
    if events == [] then s else Run(Next(s, events[0]), events[1..])
  }
}
