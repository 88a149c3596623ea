/** The raffle as a state machine over values. An instruction that fails leaves the state as it was. */
module RaffleModel {
  import opened Base
  import opened GlobalConfigs
  import opened Tokens
  import opened Revenue
  import opened PubkeyIndex
  import opened WinnerDraw
  import opened ClaimMask

  datatype Raffle = Raffle(
    id: nat,
    creator: User,
    numRaffledNfts: nat,
    numTicketPositions: nat,
    createdTimestamp: int,
    expiredTimestamp: int,
    ticketSupply: nat,
    ticketPrice: nat,
    ticketSold: nat,
    numGroups: nat,
    revenueShares: seq<Share>,
    status: ListingStatus,
    winnerIds: seq<nat>,
    claimMask: nat)

  /** The bytes allocated for the account's data: ten groups at 36 bytes, six recipients at 34, fifteen winners at
      two, and the other fields at their largest. */
  const RAFFLE_SPACE := 136 + (4 + 10 * 36) + (4 + 6 * 34) + 4 + (4 + 15 * 2) + 8

  /** The bytes its data takes with the given number of winners: 33 a group, 34 a recipient, one for the status. */
  function SizeWithWinners(r: Raffle, winners: nat): nat {
    136 + (4 + 33 * r.numGroups) + (4 + 34 * |r.revenueShares|) + 1 + (4 + 2 * winners) + 8
  }

  function SerializedSize(r: Raffle): nat {
    SizeWithWinners(r, |r.winnerIds|)
  }

  datatype TicketPosition = TicketPosition(id: nat, buyer: User, totalNumTickets: nat)

  /** One raffle with everything its instructions read or write. `stats` is the compact vector of ticket
      counts, `tokens` the currency mint, `nfts` the mint of the raffled NFTs. */
  datatype State = State(
    configs: Configs,
    clock: int,
    raffle: Raffle,
    positions: map<User, TicketPosition>,
    stats: seq<nat>,
    tokens: Ledger,
    nfts: Ledger,
    pages: Pages)

  datatype Action =
    | BuyTickets(buyer: User, numTickets: nat, eligible: bool)
    | MakeRaffle(signer: User, draws: seq<Draw>)
    | ClaimReward(claimer: User)
    | ClaimRemaining(signer: User)
    | ClaimRevenue(signer: User, treasury: User)
    | CancelRaffle(signer: User)
    | ChangeConfigs(signer: User, input: UpdateConfigsInput)
    | ExternalTransfer(from: Account, to: Account, amount: nat)

  function IsEnded(r: Raffle, now: int): bool {
    now > r.expiredTimestamp
  }

  /** The position of an id in the winner list. */
  function WinnerIndex(winnerIds: seq<nat>, id: nat): (r: Option<nat>)
    ensures r.Some? ==> r.value < |winnerIds| && winnerIds[r.value] == id
    ensures r.None? <==> id !in winnerIds
    decreases |winnerIds|
  {
    if winnerIds == [] then None
    else if winnerIds[0] == id then Some(0)
    else
      var rest := WinnerIndex(winnerIds[1..], id);
      if rest.None? then None else Some(rest.value + 1)
  }

  function NumRemainingRewards(r: Raffle): Result<nat> {
    if |r.winnerIds| > r.numRaffledNfts then Err(Panicked) else Ok(r.numRaffledNfts - |r.winnerIds|)
  }

  /** The element types of the stats vector and the counters. */
  predicate Typed(s: State) {
    |s.stats| <= U16_MAX && s.raffle.ticketSold <= U16_MAX && forall i :: 0 <= i < |s.stats| ==> s.stats[i] <= U16_MAX
  }

  /* The instructions. */

  function Cost(numTickets: nat, price: nat): nat {
    numTickets * price
  }

  function ApplyBuyTickets(s: State, buyer: User, numTickets: nat, eligible: bool): Result<State> {
    if s.configs.numKeysPerIndexPage == 0 then Err(Panicked)
    else if numTickets == 0 then Err(InvalidRaffleTicketNumber)
    else if numTickets + s.raffle.ticketSold > U16_MAX then Err(Panicked)
    else if numTickets + s.raffle.ticketSold > s.raffle.ticketSupply then Err(InvalidRaffleTicketNumber)
    else if buyer == s.raffle.creator then Err(RaffleCreatorCannotBuyTickets)
    else if RevenueEscrow !in s.tokens || Wallet(buyer) !in s.tokens then Err(AccountNotInitialized)
    else if Cost(numTickets, s.raffle.ticketPrice) > U64_MAX then Err(Panicked)
    else if s.tokens[Wallet(buyer)] < Cost(numTickets, s.raffle.ticketPrice) then Err(InvalidTicketBuyerTokenAccount)
    else if !eligible then Err(Ineligible)
    else if IsEnded(s.raffle, s.clock) then Err(RaffleEnded)
    else if s.raffle.status.Cancelled? then Err(RaffleCancelled)
    else
      var position := if buyer in s.positions then s.positions[buyer] else TicketPosition(0, 0, 0);
      var pages := if position.totalNumTickets == 0
                   then IndexPubkey(s.pages, PageId(s.raffle.numTicketPositions, s.configs.numKeysPerIndexPage), buyer)
                   else s.pages;
      var paid :- Transfer(s.tokens, Wallet(buyer), RevenueEscrow, Cost(numTickets, s.raffle.ticketPrice));
      RecordTickets(s.(pages := pages, tokens := paid), buyer, position, numTickets)
  }

  /** Adds the tickets to the buyer's position, to the stats vector and to the total, in checked u16. */
  function RecordTickets(s: State, buyer: User, position: TicketPosition, numTickets: nat): Result<State> {
    var isNew := position.totalNumTickets == 0;
    if !isNew && (position.id >= |s.stats| || s.stats[position.id] + numTickets > U16_MAX) then Err(Panicked)
    else if isNew && s.raffle.numTicketPositions >= U16_MAX then Err(Panicked)
    else if position.totalNumTickets + numTickets > U16_MAX || s.raffle.ticketSold + numTickets > U16_MAX then
      Err(Panicked)
    else
      var stats := if isNew then s.stats + [numTickets]
                   else s.stats[position.id := s.stats[position.id] + numTickets];
      var entered := if isNew then TicketPosition(s.raffle.numTicketPositions, buyer, 0) else position;
      Ok(s.(stats := stats,
            positions := s.positions[buyer := entered.(totalNumTickets := entered.totalNumTickets + numTickets)],
            raffle := s.raffle.(numTicketPositions := s.raffle.numTicketPositions + if isNew then 1 else 0,
                                ticketSold := s.raffle.ticketSold + numTickets)))
  }

  /** The draw, for the random stream `draws`; a stream the generator cannot produce is no step. The winners are
      written to the listing's account last, and have to fit. */
  function ApplyMakeRaffle(s: State, signer: User, draws: seq<Draw>): Result<State> {
    if s.configs.authority != signer then Err(NotTheAuthority)
    else if s.raffle.status.Cancelled? then Err(RaffleCancelled)
    else if !IsEnded(s.raffle, s.clock) then Err(RaffleOngoing)
    else if s.raffle.winnerIds != [] then Err(RaffleAlreadyMade)
    else if !Typed(s) || !ValidDraws(draws, |s.stats|, s.raffle.ticketSold) then Err(DrawStillRunning)
    else
      var winners :- PickWinners(s.stats, s.raffle.ticketSold, s.raffle.numRaffledNfts, draws);
      var raffle := s.raffle.(winnerIds := winners, status := Finished);
      if SerializedSize(raffle) > RAFFLE_SPACE then Err(AccountDidNotSerialize) else Ok(s.(raffle := raffle))
  }

  /** Transfers rewards out of the escrow and closes it when it is empty. */
  function PayRewards(nfts: Ledger, to: User, amount: nat): Result<Ledger> {
    var moved :- Transfer(Open(nfts, Wallet(to)), RewardsEscrow, Wallet(to), amount);
    if Balance(moved, RewardsEscrow) != 0 then Ok(moved) else Close(moved, RewardsEscrow)
  }

  function ApplyClaimReward(s: State, claimer: User): Result<State> {
    if claimer !in s.positions then Err(AccountNotInitialized)
    else if s.positions[claimer].buyer != claimer then Err(InconsistentRaffleTicketPosition)
    else if RewardsEscrow !in s.nfts then Err(AccountNotInitialized)
    else if !s.raffle.status.Finished? then Err(RaffleNotMade)
    else
      var index := WinnerIndex(s.raffle.winnerIds, s.positions[claimer].id);
      if index.None? then Err(NotARaffleWinner)
      else if index.value >= MASK_BITS then Err(Panicked)
      else if Bit(s.raffle.claimMask, index.value) then Err(RaffleRewardClaimed)
      else
        var paid :- PayRewards(s.nfts, claimer, 1);
        Ok(s.(nfts := paid, raffle := s.raffle.(claimMask := SetBit(s.raffle.claimMask, index.value))))
  }

  function ApplyClaimRemaining(s: State, signer: User): Result<State> {
    if s.raffle.creator != signer then Err(NotRaffleCreator)
    else if RewardsEscrow !in s.nfts then Err(AccountNotInitialized)
    else if s.raffle.winnerIds == [] then Err(RaffleNotMade)
    else
      var remaining :- NumRemainingRewards(s.raffle);
      if remaining == 0 then Err(NoRemainingRaffleRewards)
      else
        var paid :- PayRewards(s.nfts, signer, remaining);
        Ok(s.(nfts := paid))
  }

  /** The signer names the treasury: nothing ties it to the configured one. */
  function ApplyClaimRevenue(s: State, signer: User, treasury: User): Result<State> {
    if s.raffle.creator != signer then Err(NotRaffleCreator)
    else if RevenueEscrow !in s.tokens || Wallet(treasury) !in s.tokens then Err(AccountNotInitialized)
    else if !s.raffle.status.Finished? then Err(RaffleNotMade)
    else
      var tokens := OpenWallets(s.tokens, s.raffle.revenueShares);
      var settled :- Settle(tokens, RevenueEscrow, Wallet(treasury), s.configs.marketFeeRateBps,
                            s.raffle.revenueShares);
      Ok(s.(tokens := settled))
  }

  function ApplyCancelRaffle(s: State, signer: User): Result<State> {
    if s.raffle.creator != signer then Err(NotRaffleCreator)
    else if s.raffle.ticketSold != 0 then Err(RaffleNotCancelable)
    else if RewardsEscrow !in s.nfts || RevenueEscrow !in s.tokens then Err(AccountNotInitialized)
    else
      var remaining :- NumRemainingRewards(s.raffle);
      var paid :- PayRewards(s.nfts, signer, remaining);
      var closed :- Close(s.tokens, RevenueEscrow);
      Ok(s.(nfts := paid, tokens := closed, raffle := s.raffle.(status := Cancelled)))
  }

  function ApplyExternalTransfer(s: State, from: Account, to: Account, amount: nat): Result<State> {
    var moved :- ExternalTransferOf(s.tokens, from, to, amount);
    Ok(s.(tokens := moved))
  }

  function Apply(s: State, action: Action): Result<State> {
    match action
    case BuyTickets(buyer, numTickets, eligible) => ApplyBuyTickets(s, buyer, numTickets, eligible)
    case MakeRaffle(signer, draws) => ApplyMakeRaffle(s, signer, draws)
    case ClaimReward(claimer) => ApplyClaimReward(s, claimer)
    case ClaimRemaining(signer) => ApplyClaimRemaining(s, signer)
    case ClaimRevenue(signer, treasury) => ApplyClaimRevenue(s, signer, treasury)
    case CancelRaffle(signer) => ApplyCancelRaffle(s, signer)
    case ChangeConfigs(signer, input) =>
      var updated :- UpdateConfigs(s.configs, signer, input);
      Ok(s.(configs := updated))
    case ExternalTransfer(from, to, amount) => ApplyExternalTransfer(s, from, to, amount)
  }

  /** What a creator asks for. `listed` says that collection and currency are on the allow-lists and the NFT's
      metadata names the collection; the mint's decimals and supply are checked here. */
  datatype RaffleTerms = RaffleTerms(
    id: U64,
    creator: User,
    duration: I64,
    ticketSupply: U16,
    ticketPrice: U64,
    numNfts: U8,
    numGroups: nat,
    shares: seq<Share>,
    listed: bool,
    mintDecimals: U8,
    mintSupply: U64)

  /** Creation: configuration and argument checks, the deposit of the rewards, and the listing written to its
      account. */
  function CreateRaffle(c: Configs, now: int, terms: RaffleTerms, tokens: Ledger, nfts: Ledger): Result<State> {
    if !c.raffleCreationEnabled then Err(RaffleCreationDisabled)
    else if c.totalRaffles != terms.id then Err(InvalidRaffleId)
    else if terms.mintDecimals != 0 || terms.mintSupply < terms.numNfts then Err(InvalidNftMint)
    else if Wallet(terms.creator) !in nfts || nfts[Wallet(terms.creator)] < terms.numNfts then
      Err(InvalidRaffleCreatorNftAccount)
    else if !terms.listed then Err(NftCollectionNotInAllowlist)
    else if ShareConfigError(terms.shares).Some? then Err(ShareConfigError(terms.shares).value)
    else if AsU64(terms.duration) < c.minRaffleDuration || AsU64(terms.duration) > c.maxRaffleDuration then
      Err(InvalidRaffleDuration)
    else if terms.numNfts == 0 || terms.numNfts > c.maxRaffledNfts then Err(InvalidNumRaffledNfts)
    else if terms.ticketSupply < c.minRaffleTicketSupply || terms.ticketSupply > c.maxRaffleTicketSupply then
      Err(InvalidRaffleTicketSupply)
    else if c.totalRaffles == U64_MAX || !InI64(now + terms.duration) then Err(Panicked)
    else
      var raffle := Raffle(terms.id, terms.creator, terms.numNfts, 0, now, now + terms.duration, terms.ticketSupply,
                           terms.ticketPrice, 0, terms.numGroups, terms.shares, InProgress, [], 0);
      var deposited :- Transfer(Open(nfts, RewardsEscrow), Wallet(terms.creator), RewardsEscrow, terms.numNfts);
      if SerializedSize(raffle) > RAFFLE_SPACE then Err(AccountDidNotSerialize)
      else Ok(State(c.(totalRaffles := c.totalRaffles + 1), now, raffle, map[], [], Open(tokens, RevenueEscrow),
                    deposited, map[]))
  }

  /* Runs. */

  datatype Event = Event(now: int, action: Action)

  /** Time does not run backwards, and a failed instruction changes nothing else. */
  function Next(s: State, e: Event): State {
    var t := s.(clock := Later(s.clock, e.now));
    var r := Apply(t, e.action);
    if r.Ok? then r.value else t
  }

  function Run(s: State, events: seq<Event>): State
    decreases |events|
  {
    if events == [] then s else Run(Next(s, events[0]), events[1..])
  }
}
