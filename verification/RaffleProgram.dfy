/** The raffle as the program runs it: accounts changed in place, instruction by instruction, with the
    runtime's rollback. Every handler is tied to its function in RaffleModel. */
module RaffleProgram {
  import opened Base
  import opened GlobalConfigs
  import opened Tokens
  import opened Revenue
  import opened PubkeyIndex
  import opened WinnerDraw
  import opened ClaimMask
  import opened RaffleModel

  class RaffleAccounts {
    const id: nat
    const creator: User
    const numRaffledNfts: nat
    const createdTimestamp: int
    const expiredTimestamp: int
    const ticketSupply: nat
    const ticketPrice: nat
    const numGroups: nat
    const revenueShares: seq<Share>
    const tokens: TokenLedger
    const nfts: TokenLedger
    const index: IndexPages
    var configs: Configs
    var clock: int
    var numTicketPositions: nat
    var ticketSold: nat
    var status: ListingStatus
    var winnerIds: seq<nat>
    var claimMask: nat
    var positions: map<User, TicketPosition>
    var stats: seq<nat>

    ghost predicate Valid()
      reads this
    {
      tokens != nfts
    }

    function Listing(): Raffle
      reads this
    {
      Raffle(id, creator, numRaffledNfts, numTicketPositions, createdTimestamp, expiredTimestamp, ticketSupply,
             ticketPrice, ticketSold, numGroups, revenueShares, status, winnerIds, claimMask)
    }

    function Current(): State
      reads this, tokens, nfts, index
    {
      State(configs, clock, Listing(), positions, stats, tokens.accounts, nfts.accounts, index.pages)
    }

    /** The accounts of a listing in the given state. */
    constructor (s: State)
      ensures Valid() && Current() == s
      ensures fresh(tokens) && fresh(nfts) && fresh(index)
    {
      id, creator, numRaffledNfts := s.raffle.id, s.raffle.creator, s.raffle.numRaffledNfts;
      createdTimestamp, expiredTimestamp := s.raffle.createdTimestamp, s.raffle.expiredTimestamp;
      ticketSupply, ticketPrice := s.raffle.ticketSupply, s.raffle.ticketPrice;
      numGroups, revenueShares := s.raffle.numGroups, s.raffle.revenueShares;
      configs, clock, positions, stats := s.configs, s.clock, s.positions, s.stats;
      numTicketPositions, ticketSold := s.raffle.numTicketPositions, s.raffle.ticketSold;
      status, winnerIds, claimMask := s.raffle.status, s.raffle.winnerIds, s.raffle.claimMask;
      tokens := new TokenLedger(s.tokens);
      nfts := new TokenLedger(s.nfts);
      index := new IndexPages();
      new;
      index.pages := s.pages;
    }

    method BuyTickets(buyer: User, numTickets: nat, eligible: bool) returns (r: Result<()>)
      requires Valid()
      modifies this, tokens, index
      ensures r.Ok? <==> ApplyBuyTickets(old(Current()), buyer, numTickets, eligible).Ok?
      ensures r.Ok? ==> Current() == ApplyBuyTickets(old(Current()), buyer, numTickets, eligible).value
      ensures r.Err? ==> r.error == ApplyBuyTickets(old(Current()), buyer, numTickets, eligible).error
    {
      if configs.numKeysPerIndexPage == 0 {
        return Err(Panicked);
      }
      if numTickets == 0 {
        return Err(InvalidRaffleTicketNumber);
      }
      if numTickets + ticketSold > U16_MAX {
        return Err(Panicked);
      }
      if numTickets + ticketSold > ticketSupply {
        return Err(InvalidRaffleTicketNumber);
      }
      if buyer == creator {
        return Err(RaffleCreatorCannotBuyTickets);
      }
      if RevenueEscrow !in tokens.accounts || Wallet(buyer) !in tokens.accounts {
        return Err(AccountNotInitialized);
      }
      if Cost(numTickets, ticketPrice) > U64_MAX {
        return Err(Panicked);
      }
      if tokens.accounts[Wallet(buyer)] < Cost(numTickets, ticketPrice) {
        return Err(InvalidTicketBuyerTokenAccount);
      }
      if !eligible {
        return Err(Ineligible);
      }
      if IsEnded(Listing(), clock) {
        return Err(RaffleEnded);
      }
      if status.Cancelled? {
        return Err(RaffleCancelled);
      }
      var position := if buyer in positions then positions[buyer] else TicketPosition(0, 0, 0);
      if position.totalNumTickets == 0 {
        index.Append(PageId(numTicketPositions, configs.numKeysPerIndexPage), buyer);
      }
      var _ :- tokens.TransferToken(Wallet(buyer), RevenueEscrow, Cost(numTickets, ticketPrice));
      r := AddTickets(buyer, position, numTickets);
    }

    method AddTickets(buyer: User, given: TicketPosition, numTickets: nat) returns (r: Result<()>)
      modifies this
      ensures r.Ok? <==> RecordTickets(old(Current()), buyer, given, numTickets).Ok?
      ensures r.Ok? ==> Current() == RecordTickets(old(Current()), buyer, given, numTickets).value
      ensures r.Err? ==> r.error == RecordTickets(old(Current()), buyer, given, numTickets).error
    {
      var position := given;
      if position.totalNumTickets != 0 {
        if position.id >= |stats| || stats[position.id] + numTickets > U16_MAX {
          return Err(Panicked);
        }
        stats := stats[position.id := stats[position.id] + numTickets];
      } else {
        if numTicketPositions >= U16_MAX {
          return Err(Panicked);
        }
        position := TicketPosition(numTicketPositions, buyer, 0);
        stats := stats + [numTickets];
        numTicketPositions := numTicketPositions + 1;
      }
      if position.totalNumTickets + numTickets > U16_MAX || ticketSold + numTickets > U16_MAX {
        return Err(Panicked);
      }
      positions := positions[buyer := position.(totalNumTickets := position.totalNumTickets + numTickets)];
      ticketSold := ticketSold + numTickets;
      r := Ok(());
    }

    method MakeRaffle(signer: User, draws: seq<Draw>) returns (r: Result<()>)
      requires Valid()
      modifies this
      ensures r.Ok? <==> ApplyMakeRaffle(old(Current()), signer, draws).Ok?
      ensures r.Ok? ==> Current() == ApplyMakeRaffle(old(Current()), signer, draws).value
      ensures r.Err? ==> r.error == ApplyMakeRaffle(old(Current()), signer, draws).error
    {
      if configs.authority != signer {
        return Err(NotTheAuthority);
      }
      if status.Cancelled? {
        return Err(RaffleCancelled);
      }
      if !IsEnded(Listing(), clock) {
        return Err(RaffleOngoing);
      }
      if winnerIds != [] {
        return Err(RaffleAlreadyMade);
      }
      if !Typed(Current()) || !ValidDraws(draws, |stats|, ticketSold) {
        return Err(DrawStillRunning);
      }
      var winners := RunPickWinners(stats, ticketSold, numRaffledNfts, draws);
      if winners.Err? {
        return Err(winners.error);
      }
      winnerIds := winners.value;
      status := Finished;
      if SerializedSize(Listing()) > RAFFLE_SPACE {
        return Err(AccountDidNotSerialize);
      }
      r := Ok(());
    }

    method TransferRewards(to: User, amount: nat) returns (r: Result<()>)
      modifies nfts
      ensures r.Ok? <==> PayRewards(old(nfts.accounts), to, amount).Ok?
      ensures r.Ok? ==> nfts.accounts == PayRewards(old(nfts.accounts), to, amount).value
      ensures r.Err? ==> r.error == PayRewards(old(nfts.accounts), to, amount).error
    {
      nfts.OpenAccount(Wallet(to));
      var _ :- nfts.TransferToken(RewardsEscrow, Wallet(to), amount);
      if Balance(nfts.accounts, RewardsEscrow) != 0 {
        return Ok(());
      }
      r := nfts.CloseAccount(RewardsEscrow);
    }

    method ClaimReward(claimer: User) returns (r: Result<()>)
      requires Valid()
      modifies this, nfts
      ensures r.Ok? <==> ApplyClaimReward(old(Current()), claimer).Ok?
      ensures r.Ok? ==> Current() == ApplyClaimReward(old(Current()), claimer).value
      ensures r.Err? ==> r.error == ApplyClaimReward(old(Current()), claimer).error
    {
      if claimer !in positions {
        return Err(AccountNotInitialized);
      }
      if positions[claimer].buyer != claimer {
        return Err(InconsistentRaffleTicketPosition);
      }
      if RewardsEscrow !in nfts.accounts {
        return Err(AccountNotInitialized);
      }
      if !status.Finished? {
        return Err(RaffleNotMade);
      }
      var winner := WinnerIndex(winnerIds, positions[claimer].id);
      if winner.None? {
        return Err(NotARaffleWinner);
      }
      if winner.value >= MASK_BITS {
        return Err(Panicked);
      }
      if Bit(claimMask, winner.value) {
        return Err(RaffleRewardClaimed);
      }
      claimMask := SetBit(claimMask, winner.value);
      r := TransferRewards(claimer, 1);
    }

    method ClaimRemaining(signer: User) returns (r: Result<()>)
      requires Valid()
      modifies nfts
      ensures r.Ok? <==> ApplyClaimRemaining(old(Current()), signer).Ok?
      ensures r.Ok? ==> Current() == ApplyClaimRemaining(old(Current()), signer).value
      ensures r.Err? ==> r.error == ApplyClaimRemaining(old(Current()), signer).error
    {
      if creator != signer {
        return Err(NotRaffleCreator);
      }
      if RewardsEscrow !in nfts.accounts {
        return Err(AccountNotInitialized);
      }
      if winnerIds == [] {
        return Err(RaffleNotMade);
      }
      var remaining :- NumRemainingRewards(Listing());
      if remaining == 0 {
        return Err(NoRemainingRaffleRewards);
      }
      r := TransferRewards(signer, remaining);
    }

    method ClaimRevenue(signer: User, treasury: User) returns (r: Result<()>)
      requires Valid()
      modifies tokens
      ensures r.Ok? <==> ApplyClaimRevenue(old(Current()), signer, treasury).Ok?
      ensures r.Ok? ==> Current() == ApplyClaimRevenue(old(Current()), signer, treasury).value
      ensures r.Err? ==> r.error == ApplyClaimRevenue(old(Current()), signer, treasury).error
    {
      if creator != signer {
        return Err(NotRaffleCreator);
      }
      if RevenueEscrow !in tokens.accounts || Wallet(treasury) !in tokens.accounts {
        return Err(AccountNotInitialized);
      }
      CreateRecipientWallets(tokens, revenueShares);
      if !status.Finished? {
        return Err(RaffleNotMade);
      }
      r := DistributeRevenue(tokens, RevenueEscrow, Wallet(treasury), configs.marketFeeRateBps, revenueShares);
    }

    method CancelRaffle(signer: User) returns (r: Result<()>)
      requires Valid()
      modifies this, tokens, nfts
      ensures r.Ok? <==> ApplyCancelRaffle(old(Current()), signer).Ok?
      ensures r.Ok? ==> Current() == ApplyCancelRaffle(old(Current()), signer).value
      ensures r.Err? ==> r.error == ApplyCancelRaffle(old(Current()), signer).error
    {
      if creator != signer {
        return Err(NotRaffleCreator);
      }
      if ticketSold != 0 {
        return Err(RaffleNotCancelable);
      }
      if RewardsEscrow !in nfts.accounts || RevenueEscrow !in tokens.accounts {
        return Err(AccountNotInitialized);
      }
      var remaining :- NumRemainingRewards(Listing());
      var _ :- TransferRewards(signer, remaining);
      var _ :- tokens.CloseAccount(RevenueEscrow);
      status := Cancelled;
      r := Ok(());
    }

    method ExternalTransfer(from: Account, to: Account, amount: nat) returns (r: Result<()>)
      requires Valid()
      modifies tokens
      ensures r.Ok? <==> ApplyExternalTransfer(old(Current()), from, to, amount).Ok?
      ensures r.Ok? ==> Current() == ApplyExternalTransfer(old(Current()), from, to, amount).value
      ensures r.Err? ==> r.error == ApplyExternalTransfer(old(Current()), from, to, amount).error
    {
      if IsEscrow(from) || IsEscrow(to) {
        return Err(TokenProgramError);
      }
      tokens.OpenAccount(to);
      r := tokens.TransferToken(from, to, amount);
    }

    method Dispatch(action: Action) returns (r: Result<()>)
      requires Valid()
      modifies this, tokens, nfts, index
      ensures r.Ok? <==> Apply(old(Current()), action).Ok?
      ensures r.Ok? ==> Current() == Apply(old(Current()), action).value
      ensures r.Err? ==> r.error == Apply(old(Current()), action).error
    {
      match action
      case BuyTickets(buyer, numTickets, eligible) => r := BuyTickets(buyer, numTickets, eligible);
      case MakeRaffle(signer, draws) => r := MakeRaffle(signer, draws);
      case ClaimReward(claimer) => r := ClaimReward(claimer);
      case ClaimRemaining(signer) => r := ClaimRemaining(signer);
      case ClaimRevenue(signer, treasury) => r := ClaimRevenue(signer, treasury);
      case CancelRaffle(signer) => r := CancelRaffle(signer);
      case ChangeConfigs(signer, input) =>
        var updated := RunUpdateConfigs(configs, signer, input);
        if updated.Err? {
          return Err(updated.error);
        }
        configs := updated.value;
        r := Ok(());
      case ExternalTransfer(from, to, amount) => r := ExternalTransfer(from, to, amount);
    }

    method Rollback(saved: State)
      requires Valid()
      requires saved.raffle == Listing().(numTicketPositions := saved.raffle.numTicketPositions,
                                          ticketSold := saved.raffle.ticketSold, status := saved.raffle.status,
                                          winnerIds := saved.raffle.winnerIds, claimMask := saved.raffle.claimMask)
      modifies this, tokens, nfts, index
      ensures Current() == saved
    {
      configs, clock, positions, stats := saved.configs, saved.clock, saved.positions, saved.stats;
      numTicketPositions, ticketSold := saved.raffle.numTicketPositions, saved.raffle.ticketSold;
      status, winnerIds, claimMask := saved.raffle.status, saved.raffle.winnerIds, saved.raffle.claimMask;
      tokens.accounts := saved.tokens;
      nfts.accounts := saved.nfts;
      index.pages := saved.pages;
    }

    /** The runtime: the clock advances, and an instruction that fails is rolled back. */
    method Process(now: int, action: Action) returns (r: Result<()>)
      requires Valid()
      modifies this, tokens, nfts, index
      ensures Current() == Next(old(Current()), Event(now, action))
    {
      clock := Later(clock, now);
      var saved := Current();
      r := Dispatch(action);
      if r.Err? {
        Rollback(saved);
      }
    }

    /** Any number of instructions, one after the other: the accounts end in the state of the model's run, so
        whatever holds of runs holds of them. */
    method ProcessAll(events: seq<Event>)
      requires Valid()
      modifies this, tokens, nfts, index
      ensures Current() == Run(old(Current()), events)
    {
      var i := 0;
      while i < |events|
        invariant i <= |events|
        invariant Run(Current(), events[i..]) == Run(old(Current()), events)
      {
        assert events[i..][1..] == events[i + 1..];
        var _ := Process(events[i].now, events[i].action);
        i := i + 1;
      }
    }
  }

  /** Creation of the listing's accounts and deposit of the rewards. */
  method Create(c: Configs, now: int, terms: RaffleTerms, tokens: Ledger, nfts: Ledger)
    returns (r: Result<RaffleAccounts>)
    ensures var created := CreateRaffle(c, now, terms, tokens, nfts);
            && (r.Ok? <==> created.Ok?)
            && (r.Ok? ==> fresh(r.value) && r.value.Valid() && r.value.Current() == created.value)
            && (r.Err? ==> r.error == created.error)
  {
    if !c.raffleCreationEnabled {
      return Err(RaffleCreationDisabled);
    }
    if c.totalRaffles != terms.id {
      return Err(InvalidRaffleId);
    }
    if terms.mintDecimals != 0 || terms.mintSupply < terms.numNfts {
      return Err(InvalidNftMint);
    }
    if Wallet(terms.creator) !in nfts || nfts[Wallet(terms.creator)] < terms.numNfts {
      return Err(InvalidRaffleCreatorNftAccount);
    }
    if !terms.listed {
      return Err(NftCollectionNotInAllowlist);
    }
    var valid := ValidateShareConfigs(terms.shares);
    if valid.Err? {
      return Err(valid.error);
    }
    if AsU64(terms.duration) < c.minRaffleDuration || AsU64(terms.duration) > c.maxRaffleDuration {
      return Err(InvalidRaffleDuration);
    }
    if terms.numNfts == 0 || terms.numNfts > c.maxRaffledNfts {
      return Err(InvalidNumRaffledNfts);
    }
    if terms.ticketSupply < c.minRaffleTicketSupply || terms.ticketSupply > c.maxRaffleTicketSupply {
      return Err(InvalidRaffleTicketSupply);
    }
    if c.totalRaffles == U64_MAX || !InI64(now + terms.duration) {
      return Err(Panicked);
    }
    var listing := Raffle(terms.id, terms.creator, terms.numNfts, 0, now, now + terms.duration, terms.ticketSupply,
                          terms.ticketPrice, 0, terms.numGroups, terms.shares, InProgress, [], 0);
    var rewards := new TokenLedger(nfts);
    rewards.OpenAccount(RewardsEscrow);
    var deposit := rewards.TransferToken(Wallet(terms.creator), RewardsEscrow, terms.numNfts);
    if deposit.Err? {
      return Err(deposit.error);
    }
    if SerializedSize(listing) > RAFFLE_SPACE {
      return Err(AccountDidNotSerialize);
    }
    var revenue := new TokenLedger(tokens);
    revenue.OpenAccount(RevenueEscrow);
    var counted := c.(totalRaffles := c.totalRaffles + 1);
    var accounts := new RaffleAccounts(State(counted, now, listing, map[], [], revenue.accounts, rewards.accounts,
                                             map[]));
    r := Ok(accounts);
  }
}
