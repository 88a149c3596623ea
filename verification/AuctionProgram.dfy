/** The auction as the program runs it: accounts changed in place, instruction by instruction, with the
    runtime's rollback. Every handler is tied to its function in AuctionModel. */
module AuctionProgram {
  import opened Base
  import opened GlobalConfigs
  import opened Tokens
  import opened Revenue
  import opened PubkeyIndex
  import opened AuctionModel

  class AuctionAccounts {
    const id: nat
    const creator: User
    const createdTimestamp: int
    const startBid: nat
    const numGroups: nat
    const revenueShares: seq<Share>
    const tokens: TokenLedger
    const lots: TokenLedger
    const index: IndexPages
    var configs: Configs
    var clock: int
    var expiredTimestamp: int
    var status: ListingStatus
    var totalBids: nat
    var topBid: nat
    var topBidder: Option<User>
    var bids: map<User, AuctionBid>

    ghost predicate Valid()
      reads this
    {
      tokens != lots
    }

    function Listing(): Auction
      reads this
    {
      Auction(id, creator, createdTimestamp, expiredTimestamp, startBid, numGroups, revenueShares, status, totalBids,
              topBid, topBidder)
    }

    function Current(): State
      reads this, tokens, lots, index
    {
      State(configs, clock, Listing(), bids, tokens.accounts, lots.accounts, index.pages)
    }

    /** The accounts of a listing in the given state. */
    constructor (s: State)
      ensures Valid() && Current() == s
      ensures fresh(tokens) && fresh(lots) && fresh(index)
    {
      id, creator, createdTimestamp := s.auction.id, s.auction.creator, s.auction.createdTimestamp;
      numGroups := s.auction.numGroups;
      startBid, revenueShares := s.auction.startBid, s.auction.revenueShares;
      configs, clock, bids := s.configs, s.clock, s.bids;
      expiredTimestamp, status, totalBids := s.auction.expiredTimestamp, s.auction.status, s.auction.totalBids;
      topBid, topBidder := s.auction.topBid, s.auction.topBidder;
      tokens := new TokenLedger(s.tokens);
      lots := new TokenLedger(s.lots);
      index := new IndexPages();
      new;
      index.pages := s.pages;
    }

    method MakeBid(bidder: User, bidAmount: nat, maxAllowed: nat, eligible: bool) returns (r: Result<()>)
      requires Valid()
      modifies this, tokens, index
      ensures r.Ok? <==> ApplyMakeBid(old(Current()), bidder, bidAmount, maxAllowed, eligible).Ok?
      ensures r.Ok? ==> Current() == ApplyMakeBid(old(Current()), bidder, bidAmount, maxAllowed, eligible).value
      ensures r.Err? ==> r.error == ApplyMakeBid(old(Current()), bidder, bidAmount, maxAllowed, eligible).error
    {
      var min := MinEligibleBid(topBid, configs.minOutbidRateBps);
      r := PlaceBidAt(min, bidder, bidAmount, maxAllowed, eligible);
    }

    method PlaceBidAt(min: Result<nat>, bidder: User, bidAmount: nat, maxAllowed: nat, eligible: bool)
      returns (r: Result<()>)
      requires Valid()
      modifies this, tokens, index
      ensures r.Ok? <==> PlaceBid(old(Current()), min, bidder, bidAmount, maxAllowed, eligible).Ok?
      ensures r.Ok? ==> Current() == PlaceBid(old(Current()), min, bidder, bidAmount, maxAllowed, eligible).value
      ensures r.Err? ==> r.error == PlaceBid(old(Current()), min, bidder, bidAmount, maxAllowed, eligible).error
    {
      if configs.numKeysPerIndexPage == 0 {
        return Err(Panicked);
      }
      if bidder == creator {
        return Err(AuctionCreatorCannotMakeBid);
      }
      if Wallet(bidder) !in tokens.accounts {
        return Err(AccountNotInitialized);
      }
      if !eligible {
        return Err(Ineligible);
      }
      tokens.OpenAccount(BidEscrow(bidder));
      var terms :- ValidateBid(Listing(), min, clock, bidAmount, maxAllowed, tokens.accounts[BidEscrow(bidder)],
                               tokens.accounts[Wallet(bidder)]);
      r := RecordBid(bidder, terms.0, terms.1);
    }

    method RecordBid(bidder: User, price: nat, amount: nat) returns (r: Result<()>)
      requires Valid() && configs.numKeysPerIndexPage > 0
      modifies this, tokens, index
      ensures r.Ok? <==> EnterBid(old(Current()), bidder, price, amount).Ok?
      ensures r.Ok? ==> Current() == EnterBid(old(Current()), bidder, price, amount).value
      ensures r.Err? ==> r.error == EnterBid(old(Current()), bidder, price, amount).error
    {
      var newlyInitialized := bidder !in bids || !bids[bidder].initialized;
      bids := bids[bidder := AuctionBid(true, if newlyInitialized then bidder else bids[bidder].bidder, price)];
      if newlyInitialized {
        index.Append(PageId(totalBids, configs.numKeysPerIndexPage), bidder);
      }
      var _ :- tokens.TransferToken(Wallet(bidder), BidEscrow(bidder), amount);
      r := UpdateListing(bidder, price, newlyInitialized);
    }

    method UpdateListing(bidder: User, price: nat, newlyInitialized: bool) returns (r: Result<()>)
      requires Valid()
      modifies this
      ensures r.Ok? <==> ListBid(old(Current()), bidder, price, newlyInitialized).Ok?
      ensures r.Ok? ==> Current() == ListBid(old(Current()), bidder, price, newlyInitialized).value
      ensures r.Err? ==> r.error == ListBid(old(Current()), bidder, price, newlyInitialized).error
    {
      if newlyInitialized {
        if totalBids >= U64_MAX {
          return Err(Panicked);
        }
        totalBids := totalBids + 1;
      }
      topBid := price;
      topBidder := Some(bidder);
      var expired :- NextDeadline(expiredTimestamp, configs, clock);
      expiredTimestamp := expired;
      if SerializedSize(Listing()) > AUCTION_SPACE {
        return Err(AccountDidNotSerialize);
      }
      r := Ok(());
    }

    method FinalizeIfNeeded()
      modifies this`status
      ensures status == Finished
    {
      if status != Finished {
        status := Finished;
      }
    }

    method CancelBid(bidder: User) returns (r: Result<()>)
      requires Valid()
      modifies this, tokens
      ensures r.Ok? <==> ApplyCancelBid(old(Current()), bidder).Ok?
      ensures r.Ok? ==> Current() == ApplyCancelBid(old(Current()), bidder).value
      ensures r.Err? ==> r.error == ApplyCancelBid(old(Current()), bidder).error
    {
      if bidder !in bids {
        return Err(AccountNotInitialized);
      }
      if bids[bidder].bidder != bidder {
        return Err(NotTheBidder);
      }
      if topBidder == Some(bidder) {
        return Err(TopBidderCannotCancelBid);
      }
      if BidEscrow(bidder) !in tokens.accounts {
        return Err(AccountNotInitialized);
      }
      if tokens.accounts[BidEscrow(bidder)] != bids[bidder].bid {
        return Err(InconsistentBidEscrowTokenAccount);
      }
      tokens.OpenAccount(Wallet(bidder));
      var _ :- tokens.TransferToken(BidEscrow(bidder), Wallet(bidder), tokens.accounts[BidEscrow(bidder)]);
      var _ :- tokens.CloseAccount(BidEscrow(bidder));
      bids := bids[bidder := bids[bidder].(bid := 0)];
      if IsEnded(Listing(), clock) {
        FinalizeIfNeeded();
      }
      r := Ok(());
    }

    method ClaimLot(bidder: User) returns (r: Result<()>)
      requires Valid()
      modifies this, lots
      ensures r.Ok? <==> ApplyClaimLot(old(Current()), bidder).Ok?
      ensures r.Ok? ==> Current() == ApplyClaimLot(old(Current()), bidder).value
      ensures r.Err? ==> r.error == ApplyClaimLot(old(Current()), bidder).error
    {
      if bidder !in bids {
        return Err(AccountNotInitialized);
      }
      if bids[bidder].bidder != bidder {
        return Err(InvalidBidAccount);
      }
      if topBidder != Some(bidder) {
        return Err(IneligibleToClaimLotNft);
      }
      if LotEscrow !in lots.accounts {
        return Err(AccountNotInitialized);
      }
      if lots.accounts[LotEscrow] != 1 {
        return Err(InconsistentLotEscrowNftAccount);
      }
      lots.OpenAccount(Wallet(bidder));
      if !IsEnded(Listing(), clock) {
        return Err(OngoingAuction);
      }
      var _ :- lots.TransferToken(LotEscrow, Wallet(bidder), 1);
      var _ :- lots.CloseAccount(LotEscrow);
      FinalizeIfNeeded();
      r := Ok(());
    }

    method ClaimRevenue(signer: User, bidder: User, treasury: User) returns (r: Result<()>)
      requires Valid()
      modifies this, tokens
      ensures r.Ok? <==> ApplyClaimRevenue(old(Current()), signer, bidder, treasury).Ok?
      ensures r.Ok? ==> Current() == ApplyClaimRevenue(old(Current()), signer, bidder, treasury).value
      ensures r.Err? ==> r.error == ApplyClaimRevenue(old(Current()), signer, bidder, treasury).error
    {
      if bidder !in bids {
        return Err(AccountNotInitialized);
      }
      if bids[bidder].bidder != bidder {
        return Err(IneligibleToClaimRevenue);
      }
      if BidEscrow(bidder) !in tokens.accounts {
        return Err(AccountNotInitialized);
      }
      if tokens.accounts[BidEscrow(bidder)] != bids[bidder].bid {
        return Err(InconsistentBidEscrowAccountState);
      }
      if Wallet(treasury) !in tokens.accounts {
        return Err(AccountNotInitialized);
      }
      if topBidder != Some(bidder) {
        return Err(IneligibleToClaimRevenue);
      }
      if configs.feeTreasury != treasury {
        return Err(InvalidFeeTreasuryAddress);
      }
      if !IsEnded(Listing(), clock) {
        return Err(OngoingAuction);
      }
      CreateRecipientWallets(tokens, revenueShares);
      var _ :- DistributeRevenue(tokens, BidEscrow(bidder), Wallet(treasury), configs.marketFeeRateBps, revenueShares);
      FinalizeIfNeeded();
      r := Ok(());
    }

    method CancelAuction(signer: User) returns (r: Result<()>)
      requires Valid()
      modifies this, lots
      ensures r.Ok? <==> ApplyCancelAuction(old(Current()), signer).Ok?
      ensures r.Ok? ==> Current() == ApplyCancelAuction(old(Current()), signer).value
      ensures r.Err? ==> r.error == ApplyCancelAuction(old(Current()), signer).error
    {
      if creator != signer {
        return Err(NotAuctionCreator);
      }
      if totalBids != 0 {
        return Err(AuctionNotCancelable);
      }
      if LotEscrow !in lots.accounts {
        return Err(AccountNotInitialized);
      }
      lots.OpenAccount(Wallet(signer));
      var _ :- lots.TransferToken(LotEscrow, Wallet(signer), 1);
      var _ :- lots.CloseAccount(LotEscrow);
      status := Cancelled;
      r := Ok(());
    }

    method ExternalTransfer(from: Account, to: Account, amount: nat) returns (r: Result<()>)
      requires Valid()
      modifies tokens
      ensures r.Ok? <==> ApplyExternalTransfer(old(Current()), from, to, amount).Ok?
      ensures r.Ok? ==> Current() == ApplyExternalTransfer(old(Current()), from, to, amount).value
      ensures r.Err? ==> r.error == ApplyExternalTransfer(old(Current()), from, to, amount).error
    {
      if IsEscrow(from) || IsEscrow(to) {
        return Err(TokenProgramError);
      }
      tokens.OpenAccount(to);
      r := tokens.TransferToken(from, to, amount);
    }

    method Dispatch(action: Action) returns (r: Result<()>)
      requires Valid()
      modifies this, tokens, lots, index
      ensures r.Ok? <==> Apply(old(Current()), action).Ok?
      ensures r.Ok? ==> Current() == Apply(old(Current()), action).value
      ensures r.Err? ==> r.error == Apply(old(Current()), action).error
    {
      match action
      case MakeBid(bidder, bidAmount, maxAllowed, eligible) => r := MakeBid(bidder, bidAmount, maxAllowed, eligible);
      case CancelBid(bidder) => r := CancelBid(bidder);
      case ClaimLot(bidder) => r := ClaimLot(bidder);
      case ClaimRevenue(signer, bidder, treasury) => r := ClaimRevenue(signer, bidder, treasury);
      case CancelAuction(signer) => r := CancelAuction(signer);
      case ChangeConfigs(signer, input) =>
        var updated := RunUpdateConfigs(configs, signer, input);
        if updated.Err? {
          return Err(updated.error);
        }
        configs := updated.value;
        r := Ok(());
      case ExternalTransfer(from, to, amount) => r := ExternalTransfer(from, to, amount);
    }

    method Rollback(saved: State)
      requires Valid()
      requires saved.auction == Listing().(expiredTimestamp := saved.auction.expiredTimestamp,
                                           status := saved.auction.status, totalBids := saved.auction.totalBids,
                                           topBid := saved.auction.topBid, topBidder := saved.auction.topBidder)
      modifies this, tokens, lots, index
      ensures Current() == saved
    {
      configs, clock, bids := saved.configs, saved.clock, saved.bids;
      expiredTimestamp, status := saved.auction.expiredTimestamp, saved.auction.status;
      totalBids, topBid, topBidder := saved.auction.totalBids, saved.auction.topBid, saved.auction.topBidder;
      tokens.accounts := saved.tokens;
      lots.accounts := saved.lots;
      index.pages := saved.pages;
    }

    /** The runtime: the clock advances, and an instruction that fails is rolled back. */
    method Process(now: int, action: Action) returns (r: Result<()>)
      requires Valid()
      modifies this, tokens, lots, index
      ensures Current() == Next(old(Current()), Event(now, action))
    {
      clock := Later(clock, now);
      var saved := Current();
      r := Dispatch(action);
      if r.Err? {
        Rollback(saved);
      }
    }

    /** Any number of instructions, one after the other: the accounts end in the state of the model's run, so
        whatever holds of runs holds of them. */
    method ProcessAll(events: seq<Event>)
      requires Valid()
      modifies this, tokens, lots, index
      ensures Current() == Run(old(Current()), events)
    {
      var i := 0;
      while i < |events|
        invariant i <= |events|
        invariant Run(Current(), events[i..]) == Run(old(Current()), events)
      {
        assert events[i..][1..] == events[i + 1..];
        var _ := Process(events[i].now, events[i].action);
        i := i + 1;
      }
    }
  }

  /** Creation of the listing's accounts and deposit of the lot. */
  method Create(c: Configs, now: int, terms: AuctionTerms, tokens: Ledger, lots: Ledger)
    returns (r: Result<AuctionAccounts>)
    ensures var created := CreateAuction(c, now, terms, tokens, lots);
            && (r.Ok? <==> created.Ok?)
            && (r.Ok? ==> fresh(r.value) && r.value.Valid() && r.value.Current() == created.value)
            && (r.Err? ==> r.error == created.error)
  {
    if !c.auctionCreationEnabled {
      return Err(AuctionCreationDisabled);
    }
    if c.totalAuctions != terms.id {
      return Err(InvalidAuctionId);
    }
    if |terms.shares| > MAX_REVENUE_RECEIVERS {
      return Err(InvalidRevenueRecipientNumber);
    }
    if Balance(lots, Wallet(terms.creator)) == 0 {
      return Err(InvalidAuctionCreatorNftAccount);
    }
    if !terms.listed {
      return Err(NftCollectionNotInAllowlist);
    }
    var valid := ValidateShareConfigs(terms.shares);
    if valid.Err? {
      return Err(valid.error);
    }
    if AsU64(terms.duration) < c.minAuctionDuration || AsU64(terms.duration) > c.maxAuctionDuration {
      return Err(InvalidAuctionDuration);
    }
    if c.totalAuctions == U64_MAX || !InI64(now + terms.duration) {
      return Err(Panicked);
    }
    var listing := Auction(terms.id, terms.creator, now, now + terms.duration, terms.startBid, terms.numGroups,
                           terms.shares, InProgress, 0, 0, None);
    var lotLedger := new TokenLedger(lots);
    lotLedger.OpenAccount(LotEscrow);
    var deposit := lotLedger.TransferToken(Wallet(terms.creator), LotEscrow, 1);
    if deposit.Err? {
      return Err(deposit.error);
    }
    if SerializedSize(listing) > AUCTION_SPACE {
      return Err(AccountDidNotSerialize);
    }
    var counted := c.(totalAuctions := c.totalAuctions + 1);
    var accounts := new AuctionAccounts(State(counted, now, listing, map[], tokens, lotLedger.accounts, map[]));
    r := Ok(accounts);
  }
}
