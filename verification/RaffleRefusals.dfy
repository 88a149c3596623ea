/** Why the raffle's instructions are refused: every error code names a reason that holds. */
module RaffleRefusals {
  import opened Base
  import opened GlobalConfigs
  import opened Tokens
  import opened Revenue
  import Alias = AliasTable
  import opened WinnerDraw
  import opened ClaimMask
  import opened RaffleModel
  import opened RaffleInvariant
  import opened RaffleTheorems

  /** What each code says about a refused purchase. */
  ghost predicate PurchaseRefusal(s: State, buyer: User, numTickets: nat, eligible: bool, error: ErrorCode) {
    match error
    case InvalidRaffleTicketNumber => numTickets == 0 || s.raffle.ticketSold + numTickets > s.raffle.ticketSupply
    case RaffleCreatorCannotBuyTickets => buyer == s.raffle.creator
    case AccountNotInitialized => RevenueEscrow !in s.tokens || Wallet(buyer) !in s.tokens
    case InvalidTicketBuyerTokenAccount => Balance(s.tokens, Wallet(buyer)) < Cost(numTickets, s.raffle.ticketPrice)
    case Ineligible => !eligible
    case RaffleEnded => s.clock > s.raffle.expiredTimestamp
    case RaffleCancelled => s.raffle.status.Cancelled?
    case Panicked =>
      s.raffle.ticketSold + numTickets > U16_MAX || Cost(numTickets, s.raffle.ticketPrice) > U64_MAX
    case _ => false
  }

  /** Of a refused draw. */
  ghost predicate DrawRefusal(s: State, signer: User, draws: seq<Draw>, error: ErrorCode)
    requires Typed(s)
  {
    match error
    case NotTheAuthority => signer != s.configs.authority
    case RaffleCancelled => s.raffle.status.Cancelled?
    case RaffleOngoing => s.clock <= s.raffle.expiredTimestamp
    case RaffleAlreadyMade => s.raffle.status.Finished?
    case Panicked => !CountsFitTable(s)
    case DrawStillRunning => !ValidDraws(draws, |s.stats|, s.raffle.ticketSold) || TooShort(s, draws)
    case AccountDidNotSerialize => !WinnersFit(s)
    case _ => false
  }

  /** No prefix of the stream samples as many buyers as there are rewards. */
  ghost predicate TooShort(s: State, draws: seq<Draw>)
    requires Typed(s) && ValidDraws(draws, |s.stats|, s.raffle.ticketSold)
  {
    var built := Alias.BuildTable(s.stats, AsI16(s.raffle.ticketSold));
    built.Some? && forall j: nat :: !FirstFull(built.value, s.raffle.numRaffledNfts, draws, j)
  }

  ghost predicate ClaimRewardRefusal(s: State, claimer: User, error: ErrorCode) {
    match error
    case AccountNotInitialized => claimer !in s.positions || RewardsEscrow !in s.nfts
    case RaffleNotMade => !s.raffle.status.Finished?
    case NotARaffleWinner => claimer in s.positions && s.positions[claimer].id !in s.raffle.winnerIds
    case RaffleRewardClaimed => Rewarded(s, claimer)
    case Panicked =>
      claimer in s.positions && exists i: nat ::
        MASK_BITS <= i < |s.raffle.winnerIds| && s.raffle.winnerIds[i] == s.positions[claimer].id
    case _ => false
  }

  ghost predicate ClaimRemainingRefusal(s: State, signer: User, error: ErrorCode) {
    match error
    case NotRaffleCreator => signer != s.raffle.creator
    case AccountNotInitialized => RewardsEscrow !in s.nfts
    case RaffleNotMade => !s.raffle.status.Finished?
    case NoRemainingRaffleRewards => s.raffle.status.Finished?
    case _ => false
  }

  ghost predicate ClaimRevenueRefusal(s: State, signer: User, treasury: User, error: ErrorCode) {
    match error
    case NotRaffleCreator => signer != s.raffle.creator
    case AccountNotInitialized => RevenueEscrow !in s.tokens || Wallet(treasury) !in s.tokens
    case RaffleNotMade => !s.raffle.status.Finished?
    case _ =>
      SettlementRefusal(Cost(s.raffle.ticketSold, s.raffle.ticketPrice), s.configs.marketFeeRateBps,
                        s.raffle.revenueShares, error)
  }

  ghost predicate CancelRaffleRefusal(s: State, signer: User, error: ErrorCode) {
    match error
    case NotRaffleCreator => signer != s.raffle.creator
    case RaffleNotCancelable => s.raffle.ticketSold > 0
    case AccountNotInitialized => s.raffle.status.Cancelled?
    case _ => false
  }

  ghost predicate Refusal(s: State, action: Action, error: ErrorCode)
    requires Typed(s)
  {
    match action
    case BuyTickets(buyer, numTickets, eligible) => PurchaseRefusal(s, buyer, numTickets, eligible, error)
    case MakeRaffle(signer, draws) => DrawRefusal(s, signer, draws, error)
    case ClaimReward(claimer) => ClaimRewardRefusal(s, claimer, error)
    case ClaimRemaining(signer) => ClaimRemainingRefusal(s, signer, error)
    case ClaimRevenue(signer, treasury) => ClaimRevenueRefusal(s, signer, treasury, error)
    case CancelRaffle(signer) => CancelRaffleRefusal(s, signer, error)
    case ChangeConfigs(signer, input) => UpdateRefusal(s.configs, signer, input, error)
    case ExternalTransfer(from, to, amount) => true
  }

  lemma PurchaseRefused(s: State, buyer: User, numTickets: nat, eligible: bool)
    requires Inv(s)
    ensures var r := ApplyBuyTickets(s, buyer, numTickets, eligible);
            r.Err? ==> PurchaseRefusal(s, buyer, numTickets, eligible, r.error)
  {
    BuyTicketsExact(s, buyer, numTickets, eligible);
  }

  /** What is known of the pick when the stream is valid. */
  ghost predicate PickExplained(s: State, draws: seq<Draw>)
    requires Typed(s) && ValidDraws(draws, |s.stats|, s.raffle.ticketSold)
  {
    var r := PickWinners(s.stats, s.raffle.ticketSold, s.raffle.numRaffledNfts, draws);
    && (r.Ok? ==> |r.value| == s.raffle.numRaffledNfts)
    && (r.Err? ==> if r.error == Panicked then !CountsFitTable(s)
                   else r.error == DrawStillRunning && TooShort(s, draws))
  }

  lemma PickingRefused(s: State, draws: seq<Draw>)
    requires Inv(s) && ValidDraws(draws, |s.stats|, s.raffle.ticketSold)
    ensures Typed(s) && PickExplained(s, draws)
  {
    StatsPositive(s);
    DrawRefused(s.stats, s.raffle.ticketSold, s.raffle.numRaffledNfts, draws);
    WinnersSound(s.stats, s.raffle.ticketSold, s.raffle.numRaffledNfts, draws);
  }

  /** A refused draw fails at a guard, in picking the winners, or when they are written. */
  lemma DrawGuards(s: State, signer: User, draws: seq<Draw>)
    requires Typed(s)
    ensures var r, valid := ApplyMakeRaffle(s, signer, draws), ValidDraws(draws, |s.stats|, s.raffle.ticketSold);
            r.Err? ==>
              || (r.error == NotTheAuthority && signer != s.configs.authority)
              || (r.error == RaffleCancelled && s.raffle.status.Cancelled?)
              || (r.error == RaffleOngoing && s.clock <= s.raffle.expiredTimestamp)
              || (r.error == RaffleAlreadyMade && s.raffle.winnerIds != [])
              || (r.error == DrawStillRunning && !valid)
              || (valid && var picked := PickWinners(s.stats, s.raffle.ticketSold, s.raffle.numRaffledNfts, draws);
                    if picked.Err? then r.error == picked.error
                    else r.error == AccountDidNotSerialize
                         && SizeWithWinners(s.raffle, |picked.value|) > RAFFLE_SPACE)
  {
  }

  lemma GuardsExplain(s: State, signer: User, draws: seq<Draw>)
    requires Typed(s) && (s.raffle.winnerIds != [] ==> s.raffle.status.Finished?)
    requires ValidDraws(draws, |s.stats|, s.raffle.ticketSold) ==> PickExplained(s, draws)
    ensures var r := ApplyMakeRaffle(s, signer, draws);
            r.Err? ==> DrawRefusal(s, signer, draws, r.error)
  {
    DrawGuards(s, signer, draws);
  }

  lemma DrawIsRefused(s: State, signer: User, draws: seq<Draw>)
    requires Inv(s)
    ensures Typed(s)
    ensures var r := ApplyMakeRaffle(s, signer, draws);
            r.Err? ==> DrawRefusal(s, signer, draws, r.error)
  {
    StatsPositive(s);
    if ValidDraws(draws, |s.stats|, s.raffle.ticketSold) {
      PickingRefused(s, draws);
    }
    GuardsExplain(s, signer, draws);
  }

  lemma ClaimRewardRefused(s: State, claimer: User)
    requires Inv(s)
    ensures var r := ApplyClaimReward(s, claimer);
            r.Err? ==> ClaimRewardRefusal(s, claimer, r.error)
  {
    if claimer in s.positions {
      BuyerPosition(s, claimer);
      var index := WinnerIndex(s.raffle.winnerIds, s.positions[claimer].id);
      if index.Some? {
        if index.value < MASK_BITS && Claimable(s, claimer, index.value) {
          ClaimRewardPays(s, claimer, index.value);
        }
        assert Bit(s.raffle.claimMask, index.value) ==> RewardedAt(s, claimer, index.value);
      }
    }
  }

  lemma ClaimRevenueRefused(s: State, signer: User, treasury: User)
    requires Inv(s)
    ensures var r := ApplyClaimRevenue(s, signer, treasury);
            r.Err? ==> ClaimRevenueRefusal(s, signer, treasury, r.error)
  {
    OpenWalletsExact(s.tokens, s.raffle.revenueShares);
    if RevenueEscrow in s.tokens && Wallet(treasury) in s.tokens {
      SettleRefused(OpenWallets(s.tokens, s.raffle.revenueShares), RevenueEscrow, Wallet(treasury),
                    s.configs.marketFeeRateBps, s.raffle.revenueShares);
    }
  }

  lemma CancelRaffleRefused(s: State, signer: User)
    requires Inv(s)
    ensures var r := ApplyCancelRaffle(s, signer);
            r.Err? ==> CancelRaffleRefusal(s, signer, r.error)
  {
    CancelRaffleExact(s, signer);
    if s.raffle.status.Finished? {
      DrawnWasSold(s);
    }
  }

  /** Whatever instruction is refused in a reachable state, the code it fails with names a reason that holds. */
  lemma RefusalsExplained(s: State, action: Action)
    requires Inv(s) && Apply(s, action).Err?
    ensures Typed(s) && Refusal(s, action, Apply(s, action).error)
  {
    StatsPositive(s);
    match action
    case BuyTickets(buyer, numTickets, eligible) => PurchaseRefused(s, buyer, numTickets, eligible);
    case MakeRaffle(signer, draws) => DrawIsRefused(s, signer, draws);
    case ClaimReward(claimer) => ClaimRewardRefused(s, claimer);
    case ClaimRemaining(signer) => NothingRemains(s, signer);
    case ClaimRevenue(signer, treasury) => ClaimRevenueRefused(s, signer, treasury);
    case CancelRaffle(signer) => CancelRaffleRefused(s, signer);
    case ChangeConfigs(signer, input) => UpdateRefused(s.configs, signer, input);
    case ExternalTransfer(from, to, amount) =>
  }

  /** The same for creation. */
  lemma CreationRefused(c: Configs, now: int, terms: RaffleTerms, tokens: Ledger, nfts: Ledger)
    ensures var r := CreateRaffle(c, now, terms, tokens, nfts);
            var duration := if terms.duration < 0 then terms.duration + 0x1_0000_0000_0000_0000 else terms.duration;
            r.Err? ==>
              match r.error
              case RaffleCreationDisabled => !c.raffleCreationEnabled
              case InvalidRaffleId => terms.id != c.totalRaffles
              case InvalidNftMint => terms.mintDecimals != 0 || terms.mintSupply < terms.numNfts
              case InvalidRaffleCreatorNftAccount =>
                Wallet(terms.creator) !in nfts || nfts[Wallet(terms.creator)] < terms.numNfts
              case NftCollectionNotInAllowlist => !terms.listed
              case InvalidRevenueShareConfig => ShareSum(terms.shares) != 10000
              case InvalidRaffleDuration => !(c.minRaffleDuration <= duration <= c.maxRaffleDuration)
              case InvalidNumRaffledNfts => !(1 <= terms.numNfts <= c.maxRaffledNfts)
              case InvalidRaffleTicketSupply =>
                !(c.minRaffleTicketSupply <= terms.ticketSupply <= c.maxRaffleTicketSupply)
              case AccountDidNotSerialize => 33 * terms.numGroups + 34 * |terms.shares| > 597
              case Panicked =>
                ShareSum(terms.shares) > U16_MAX || c.totalRaffles == U64_MAX || !InI64(now + terms.duration)
              case _ => false
  {
  }
}
