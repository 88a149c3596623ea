/** Results about whole raffles: who is paid, when a draw can happen, and what follows when it cannot. */
module RaffleTheorems {
  import opened Base
  import opened GlobalConfigs
  import opened Tokens
  import opened Revenue
  import Alias = AliasTable
  import opened WinnerDraw
  import opened ClaimMask
  import opened RaffleModel
  import opened RaffleInvariant

  /* Rewards, from creation to the last claim. */

  /** Buyer `u` won at an index whose flag is set. */
  ghost predicate Rewarded(s: State, u: User) {
    u in s.positions
    && exists i: nat :: i < |s.raffle.winnerIds| && RewardedAt(s, u, i)
  }

  ghost predicate RewardedAt(s: State, u: User, i: nat) {
    u in s.positions && i < |s.raffle.winnerIds|
    && s.raffle.winnerIds[i] == s.positions[u].id && Bit(s.raffle.claimMask, i)
  }

  /** Compared with `base`, the creator has deposited the rewards (and got them back after a cancellation),
      and every rewarded buyer has exactly one more NFT. */
  ghost predicate RewardsMovedFrom(s: State, base: Ledger) {
    forall u: User ::
      Balance(s.nfts, Wallet(u)) == Balance(base, Wallet(u))
        - (if u == s.raffle.creator && !s.raffle.status.Cancelled? then s.raffle.numRaffledNfts else 0)
        + (if Rewarded(s, u) then 1 else 0)
  }

  lemma NobodyRewardedYet(s: State)
    requires Inv(s) && s.raffle.claimMask == 0
    ensures forall u :: !Rewarded(s, u)
  {
    forall i: nat ensures !Bit(0, i) {
      ZeroHasNoBits(i);
    }
  }

  /** Distinct winners have distinct indices, so a claim changes nobody else's record. */
  lemma ClaimRewardsOne(s: State, claimer: User, i: nat, u: User)
    requires Inv(s) && Claimable(s, claimer, i) && i < MASK_BITS
    ensures ApplyClaimReward(s, claimer).Ok?
    ensures var s' := ApplyClaimReward(s, claimer).value;
            Rewarded(s', u) <==> u == claimer || Rewarded(s, u)
    ensures !Rewarded(s, claimer)
  {
    ClaimRewardPays(s, claimer, i);
    var s' := ApplyClaimReward(s, claimer).value;
    assert forall j: nat :: j < |s.raffle.winnerIds| && s.raffle.winnerIds[j] == s.raffle.winnerIds[i] ==> j == i;
    forall j: nat | j < |s.raffle.winnerIds|
      ensures RewardedAt(s', u, j) <==> RewardedAt(s, u, j) || (j == i && u == claimer)
    {
      SetBitBits(s.raffle.claimMask, i, j);
      if j == i && u in s.positions && s.positions[u].id == s.raffle.winnerIds[i] {
        BuyerPosition(s, u);
        BuyerPosition(s, claimer);
      }
    }
    assert RewardedAt(s', claimer, i) by {
      SetBitBits(s.raffle.claimMask, i, i);
    }
  }

  /** For one user: the claimer, and nobody else, is rewarded and has one NFT more. */
  lemma ClaimRewardsUser(s: State, claimer: User, i: nat, u: User)
    requires Inv(s) && Claimable(s, claimer, i) && i < MASK_BITS && ApplyClaimReward(s, claimer).Ok?
    ensures var s' := ApplyClaimReward(s, claimer).value;
            && Balance(s'.nfts, Wallet(u)) == Balance(s.nfts, Wallet(u)) + (if u == claimer then 1 else 0)
            && (Rewarded(s', u) <==> u == claimer || Rewarded(s, u)) && !Rewarded(s, claimer)
            && s'.raffle == s.raffle.(claimMask := s'.raffle.claimMask)
  {
    ClaimRewardsOne(s, claimer, i, u);
    ClaimRewardPays(s, claimer, i);
    PayRewardsExact(s.nfts, claimer, 1);
  }

  lemma ClaimMovesReward(s: State, claimer: User, base: Ledger)
    requires Inv(s) && RewardsMovedFrom(s, base) && ApplyClaimReward(s, claimer).Ok?
    ensures RewardsMovedFrom(ApplyClaimReward(s, claimer).value, base)
  {
    ClaimRewardExact(s, claimer);
    var i: nat :| i < MASK_BITS && Claimable(s, claimer, i);
    var s' := ApplyClaimReward(s, claimer).value;
    forall u: User
      ensures Balance(s'.nfts, Wallet(u)) == Balance(base, Wallet(u))
                - (if u == s'.raffle.creator && !s'.raffle.status.Cancelled? then s'.raffle.numRaffledNfts else 0)
                + (if Rewarded(s', u) then 1 else 0)
    {
      ClaimRewardsUser(s, claimer, i, u);
    }
  }

  /** Steps that touch neither the winners nor the NFTs leave the account of rewards as it is. */
  lemma RewardsUntouched(s: State, s': State, base: Ledger)
    requires RewardsMovedFrom(s, base) && s'.nfts == s.nfts
    requires s'.raffle.creator == s.raffle.creator && s'.raffle.numRaffledNfts == s.raffle.numRaffledNfts
    requires s'.raffle.status.Cancelled? == s.raffle.status.Cancelled?
    requires forall u :: Rewarded(s', u) <==> Rewarded(s, u)
    ensures RewardsMovedFrom(s', base)
  {
  }

  lemma SameRewarded(s: State, s': State)
    requires s'.positions == s.positions && s'.raffle.winnerIds == s.raffle.winnerIds
    requires s'.raffle.claimMask == s.raffle.claimMask
    ensures forall u :: Rewarded(s', u) <==> Rewarded(s, u)
  {
    forall u, i: nat ensures RewardedAt(s', u, i) <==> RewardedAt(s, u, i) {
    }
  }

  /** Before the first claim nobody is rewarded, so a step that leaves the NFTs alone changes nothing. */
  lemma EarlyStepMovesNothing(s: State, s': State, base: Ledger)
    requires Inv(s) && Inv(s') && RewardsMovedFrom(s, base) && s'.nfts == s.nfts
    requires s.raffle.claimMask == 0 && s'.raffle.claimMask == 0
    requires s'.raffle.creator == s.raffle.creator && s'.raffle.numRaffledNfts == s.raffle.numRaffledNfts
    requires s'.raffle.status.Cancelled? == s.raffle.status.Cancelled?
    ensures RewardsMovedFrom(s', base)
  {
    NobodyRewardedYet(s);
    NobodyRewardedYet(s');
    RewardsUntouched(s, s', base);
  }

  lemma CancelReturnsRewards(s: State, signer: User, base: Ledger)
    requires Inv(s) && RewardsMovedFrom(s, base) && ApplyCancelRaffle(s, signer).Ok?
    ensures RewardsMovedFrom(ApplyCancelRaffle(s, signer).value, base)
  {
    CancelRaffleExact(s, signer);
    CancelRaffleKeepsInv(s, signer);
    NoClaimsBeforeDraw(s);
    NobodyRewardedYet(s);
    NobodyRewardedYet(ApplyCancelRaffle(s, signer).value);
  }

  lemma PurchaseMovesNothing(s: State, buyer: User, numTickets: nat, eligible: bool, base: Ledger)
    requires Inv(s) && RewardsMovedFrom(s, base) && ApplyBuyTickets(s, buyer, numTickets, eligible).Ok?
    ensures RewardsMovedFrom(ApplyBuyTickets(s, buyer, numTickets, eligible).value, base)
  {
    BuyTicketsKeepsInv(s, buyer, numTickets, eligible);
    BuyTicketsExact(s, buyer, numTickets, eligible);
    NoClaimsBeforeDraw(s);
    EarlyStepMovesNothing(s, ApplyBuyTickets(s, buyer, numTickets, eligible).value, base);
  }

  lemma DrawMovesNothing(s: State, signer: User, draws: seq<Draw>, base: Ledger)
    requires Inv(s) && RewardsMovedFrom(s, base) && ApplyMakeRaffle(s, signer, draws).Ok?
    ensures RewardsMovedFrom(ApplyMakeRaffle(s, signer, draws).value, base)
  {
    MakeRaffleKeepsInv(s, signer, draws);
    MakeRaffleExact(s, signer, draws);
    NoClaimsBeforeDraw(s);
    EarlyStepMovesNothing(s, ApplyMakeRaffle(s, signer, draws).value, base);
  }

  lemma SameRaffleMovesNothing(s: State, s': State, base: Ledger)
    requires RewardsMovedFrom(s, base)
    requires s'.nfts == s.nfts && s'.raffle == s.raffle && s'.positions == s.positions
    ensures RewardsMovedFrom(s', base)
  {
    SameRewarded(s, s');
    RewardsUntouched(s, s', base);
  }

  lemma StepMovesRewards(s: State, action: Action, base: Ledger)
    requires Inv(s) && RewardsMovedFrom(s, base) && Apply(s, action).Ok?
    ensures RewardsMovedFrom(Apply(s, action).value, base)
  {
    match action
    case BuyTickets(buyer, numTickets, eligible) => PurchaseMovesNothing(s, buyer, numTickets, eligible, base);
    case MakeRaffle(signer, draws) => DrawMovesNothing(s, signer, draws, base);
    case ClaimReward(claimer) => ClaimMovesReward(s, claimer, base);
    case ClaimRemaining(signer) => NothingRemains(s, signer);
    case CancelRaffle(signer) => CancelReturnsRewards(s, signer, base);
    case _ => SameRaffleMovesNothing(s, Apply(s, action).value, base);
  }

  lemma {:induction false} RunMovesRewards(s: State, events: seq<Event>, base: Ledger)
    requires Inv(s) && RewardsMovedFrom(s, base)
    ensures RewardsMovedFrom(Run(s, events), base)
    decreases |events|
  {
    if events != [] {
      var t := s.(clock := Later(s.clock, events[0].now));
      LaterKeepsInv(s, events[0].now);
      NextKeepsInv(s, events[0]);
      SameRewarded(s, t);
      RewardsUntouched(s, t, base);
      if Apply(t, events[0].action).Ok? {
        StepMovesRewards(t, events[0].action, base);
      }
      RunMovesRewards(Next(s, events[0]), events[1..], base);
    }
  }

  lemma RewardsAfterDeposit(s: State, base: Ledger, events: seq<Event>)
    requires Inv(s) && s.raffle.claimMask == 0 && s.raffle.status.InProgress? && Fresh(base)
    requires Balance(base, Wallet(s.raffle.creator)) >= s.raffle.numRaffledNfts
    requires var deposit := s.raffle.numRaffledNfts;
             s.nfts == base[Wallet(s.raffle.creator) := Balance(base, Wallet(s.raffle.creator)) - deposit]
                           [RewardsEscrow := deposit]
    ensures var z := Run(s, events);
            Inv(z) && Total(z.tokens) == Total(s.tokens) && RewardsMovedFrom(z, base)
  {
    NobodyRewardedYet(s);
    RunKeepsInv(s, events);
    RunMovesRewards(s, events, base);
  }

  /** End to end: after any run from creation the invariant holds, no currency was created or lost, and the NFT
      balances differ from those before creation by the deposit and by exactly one NFT per claimed winner. */
  lemma RaffleEndToEnd(c: Configs, now: int, terms: RaffleTerms, tokens: Ledger, nfts: Ledger, events: seq<Event>)
    requires Fresh(tokens) && Fresh(nfts) && c.numKeysPerIndexPage > 0
    requires CreateRaffle(c, now, terms, tokens, nfts).Ok?
    ensures var z := Run(CreateRaffle(c, now, terms, tokens, nfts).value, events);
            Inv(z) && Total(z.tokens) == Total(tokens) && RewardsMovedFrom(z, nfts)
  {
    CreateEstablishesInv(c, now, terms, tokens, nfts);
    RewardsAfterDeposit(CreateRaffle(c, now, terms, tokens, nfts).value, nfts, events);
  }

  /** In a finished raffle every winner id is an existing buyer's, and the winners are different buyers. */
  lemma WinnersAreBuyers(s: State, i: nat, j: nat)
    requires Inv(s) && i < |s.raffle.winnerIds| && j < |s.raffle.winnerIds|
    ensures s.raffle.winnerIds[i] < |Buyers(s)| && s.raffle.winnerIds[j] < |Buyers(s)|
    ensures var u, v := Buyers(s)[s.raffle.winnerIds[i]], Buyers(s)[s.raffle.winnerIds[j]];
            && u in s.positions && s.positions[u].totalNumTickets > 0 && s.positions[u].id == s.raffle.winnerIds[i]
            && (u == v <==> i == j)
  {
    assert PositionOf(s, Buyers(s)[s.raffle.winnerIds[i]], s.raffle.winnerIds[i]);
    assert PositionOf(s, Buyers(s)[s.raffle.winnerIds[j]], s.raffle.winnerIds[j]);
  }

  /** The rewards escrow closes exactly when every winner has been paid; with more than 64 winners the mask has
      no room for the last ones, so it never does. */
  lemma RewardsCloseWhenAllClaimed(s: State)
    requires Inv(s) && s.raffle.status.Finished?
    ensures RewardsEscrow !in s.nfts <==> AllSet(s.raffle.claimMask, s.raffle.numRaffledNfts)
    ensures s.raffle.numRaffledNfts > MASK_BITS ==> RewardsEscrow in s.nfts
  {
    PopcountFull(s.raffle.claimMask, s.raffle.numRaffledNfts);
    assert !Bit(s.raffle.claimMask, MASK_BITS);
  }

  /** Up to 64 winners: whoever has won and not been paid can claim, now and after any other claims. */
  lemma UnpaidWinnerCanClaim(s: State, u: User)
    requires Inv(s) && s.raffle.numRaffledNfts <= MASK_BITS
    requires u in s.positions && s.positions[u].id in s.raffle.winnerIds && !Rewarded(s, u)
    ensures ApplyClaimReward(s, u).Ok? && Rewarded(ApplyClaimReward(s, u).value, u)
  {
    var i: nat :| i < |s.raffle.winnerIds| && s.raffle.winnerIds[i] == s.positions[u].id;
    assert !RewardedAt(s, u, i);
    assert Claimable(s, u, i);
    ClaimRewardExact(s, u);
    ClaimRewardsOne(s, u, i, u);
  }

  /* Lifecycle. */

  /** Once the deadline has passed nothing about the sale changes any more, and an outcome is final. */
  ghost predicate SaleClosed(s: State, s': State) {
    && s'.stats == s.stats && s'.positions == s.positions && s'.pages == s.pages
    && s'.raffle.ticketSold == s.raffle.ticketSold && s'.raffle.expiredTimestamp == s.raffle.expiredTimestamp
    && (!s.raffle.status.InProgress? ==>
          s'.raffle.status == s.raffle.status && s'.raffle.winnerIds == s.raffle.winnerIds)
  }

  /** A draw after the deadline decides the outcome and leaves the sale alone. */
  lemma DrawClosesSale(s: State, signer: User, draws: seq<Draw>)
    requires Inv(s) && ApplyMakeRaffle(s, signer, draws).Ok?
    ensures SaleClosed(s, ApplyMakeRaffle(s, signer, draws).value)
  {
    MakeRaffleExact(s, signer, draws);
  }

  lemma CancelClosesSale(s: State, signer: User)
    requires Inv(s) && ApplyCancelRaffle(s, signer).Ok?
    ensures SaleClosed(s, ApplyCancelRaffle(s, signer).value)
  {
    CancelRaffleExact(s, signer);
  }

  lemma NoPurchaseAfterDeadline(s: State, buyer: User, numTickets: nat, eligible: bool)
    requires Inv(s) && IsEnded(s.raffle, s.clock)
    ensures ApplyBuyTickets(s, buyer, numTickets, eligible).Err?
  {
    BuyTicketsExact(s, buyer, numTickets, eligible);
  }

  lemma StepAfterDeadline(s: State, action: Action)
    requires Inv(s) && Apply(s, action).Ok? && IsEnded(s.raffle, s.clock)
    ensures SaleClosed(s, Apply(s, action).value)
  {
    match action
    case BuyTickets(buyer, numTickets, eligible) => NoPurchaseAfterDeadline(s, buyer, numTickets, eligible);
    case MakeRaffle(signer, draws) => DrawClosesSale(s, signer, draws);
    case ClaimRemaining(signer) => NothingRemains(s, signer);
    case CancelRaffle(signer) => CancelClosesSale(s, signer);
    case _ =>
  }

  lemma {:induction false} SaleClosesAtDeadline(s: State, events: seq<Event>)
    requires Inv(s) && IsEnded(s.raffle, s.clock)
    ensures SaleClosed(s, Run(s, events))
    decreases |events|
  {
    if events != [] {
      var t := s.(clock := Later(s.clock, events[0].now));
      LaterKeepsInv(s, events[0].now);
      NextKeepsInv(s, events[0]);
      if Apply(t, events[0].action).Ok? {
        StepAfterDeadline(t, events[0].action);
        ClockKept(t, events[0].action);
      }
      SaleClosesAtDeadline(Next(s, events[0]), events[1..]);
    }
  }

  lemma ClockKept(s: State, action: Action)
    requires Apply(s, action).Ok?
    ensures Apply(s, action).value.clock == s.clock
  {
  }

  /** A cancelled raffle never sold a ticket and stays cancelled. */
  lemma {:induction false} CancelledIsFinal(s: State, events: seq<Event>)
    requires Inv(s) && s.raffle.status.Cancelled?
    ensures Run(s, events).raffle == s.raffle && Run(s, events).stats == s.stats && s.raffle.ticketSold == 0
    decreases |events|
  {
    if events != [] {
      var t, a := s.(clock := Later(s.clock, events[0].now)), events[0].action;
      LaterKeepsInv(s, events[0].now);
      NextKeepsInv(s, events[0]);
      if Apply(t, a).Ok? {
        CancelledStep(t, a);
      }
      CancelledIsFinal(Next(s, events[0]), events[1..]);
    }
  }

  lemma CancelledStep(s: State, action: Action)
    requires Inv(s) && s.raffle.status.Cancelled? && Apply(s, action).Ok?
    ensures Apply(s, action).value.raffle == s.raffle && Apply(s, action).value.stats == s.stats
  {
    match action
    case ClaimRemaining(signer) => NothingRemains(s, signer);
    case CancelRaffle(signer) => CancelRaffleExact(s, signer);
    case _ =>
  }

  /* When a draw can happen. */

  /** Tickets were sold, and the counts are small enough for the 16-bit table. */
  predicate CountsFitTable(s: State) {
    0 < s.raffle.ticketSold <= I16_MAX && Alias.Fits(s.stats)
  }

  /** The account has room for one winner id a reward; creation only asks for room without the last summand. */
  predicate WinnersFit(s: State): (fit: bool)
    ensures fit <==> 33 * s.raffle.numGroups + 34 * |s.raffle.revenueShares| + 2 * s.raffle.numRaffledNfts <= 597
  {
    SizeWithWinners(s.raffle, s.raffle.numRaffledNfts) <= RAFFLE_SPACE
  }

  /** Counts the table can hold, enough participants, and room for their ids. */
  predicate EnoughForDraw(s: State) {
    CountsFitTable(s) && s.raffle.numRaffledNfts <= s.raffle.numTicketPositions && WinnersFit(s)
  }

  lemma {:induction false} AllCount(ws: seq<nat>)
    requires forall k :: 0 <= k < |ws| ==> ws[k] > 0
    ensures PositiveCount(ws) == |ws|
  {
    if ws != [] {
      AllCount(ws[..|ws| - 1]);
    }
  }

  lemma EnoughIsDrawable(s: State)
    requires Inv(s)
    ensures Typed(s) && |s.stats| <= s.raffle.ticketSold
    ensures EnoughForDraw(s) <==> WinnersFit(s) && Drawable(s.stats, s.raffle.ticketSold, s.raffle.numRaffledNfts)
  {
    StatsPositive(s);
    AllCount(s.stats);
  }

  /** The authority's draw can succeed if and only if the raffle has ended, is in progress, sold at most 32767
      tickets, no buyer's count times the number of buyers exceeds 32767, there are at least as many buyers as
      rewards, and the account has room for the winners. */
  lemma WhenDrawCanSucceed(s: State)
    requires Inv(s)
    ensures (exists draws :: ApplyMakeRaffle(s, s.configs.authority, draws).Ok?)
            <==> s.raffle.status.InProgress? && IsEnded(s.raffle, s.clock) && EnoughForDraw(s)
  {
    var n, sold, max := |s.stats|, s.raffle.ticketSold, s.raffle.numRaffledNfts;
    EnoughIsDrawable(s);
    DrawPossible(s.stats, sold, max);
    if s.raffle.status.InProgress? && IsEnded(s.raffle, s.clock) && EnoughForDraw(s) {
      var draws :| ValidDraws(draws, n, sold) && PickWinners(s.stats, sold, max, draws).Ok?;
      MakeRaffleExact(s, s.configs.authority, draws);
    }
    forall draws | ApplyMakeRaffle(s, s.configs.authority, draws).Ok? ensures EnoughForDraw(s) {
      MakeRaffleExact(s, s.configs.authority, draws);
    }
  }

  /** On a stream where every draw keeps recurring it then does succeed, after finitely many draws. */
  lemma FairDrawSucceeds(s: State, stream: Stream)
    requires Inv(s) && s.raffle.status.InProgress? && IsEnded(s.raffle, s.clock) && EnoughForDraw(s)
    requires ValidStream(stream, |s.stats|, s.raffle.ticketSold) && Fair(stream, |s.stats|, s.raffle.ticketSold)
    ensures exists n: nat :: ApplyMakeRaffle(s, s.configs.authority, Prefix(stream, n)).Ok?
  {
    EnoughIsDrawable(s);
    DrawTerminates(s.stats, s.raffle.ticketSold, s.raffle.numRaffledNfts, stream);
    var n: nat :| PickWinners(s.stats, s.raffle.ticketSold, s.raffle.numRaffledNfts, Prefix(stream, n)).Ok?;
    MakeRaffleExact(s, s.configs.authority, Prefix(stream, n));
  }

  /** Every ticket is equally likely: of all draws the generator can make, exactly `numTicketPositions` select each
      ticket's owner, so a buyer is selected in proportion to the tickets bought. */
  lemma EveryTicketEqual(s: State, u: User)
    requires Inv(s) && CountsFitTable(s) && u in s.positions
    ensures Typed(s) && AsI16(s.raffle.ticketSold) == s.raffle.ticketSold
    ensures var built := Alias.BuildTable(s.stats, s.raffle.ticketSold);
            && built.Some? && s.positions[u].id < |s.stats|
            && |Cells(built.value, s.raffle.ticketSold, s.positions[u].id, |s.stats|)|
               == |s.stats| * s.positions[u].totalNumTickets
  {
    StatsPositive(s);
    BuyerPosition(s, u);
    Alias.TableCorrect(s.stats, s.raffle.ticketSold);
    ExactSampling(Alias.BuildTable(s.stats, s.raffle.ticketSold).value, s.stats, s.raffle.ticketSold,
                  s.positions[u].id);
  }

  /* When it cannot. */

  /** Ended with tickets sold, but not drawable. */
  ghost predicate Stranded(s: State) {
    && Inv(s) && s.raffle.status.InProgress? && IsEnded(s.raffle, s.clock)
    && s.raffle.ticketSold > 0 && !EnoughForDraw(s)
  }

  lemma StrandedStep(s: State, action: Action)
    requires Stranded(s) && Apply(s, action).Ok?
    ensures action.ChangeConfigs? || action.ExternalTransfer?
    ensures var s' := Apply(s, action).value;
            s'.raffle == s.raffle && s'.stats == s.stats && s'.nfts == s.nfts && s'.clock == s.clock
  {
    match action
    case BuyTickets(buyer, numTickets, eligible) => BuyTicketsExact(s, buyer, numTickets, eligible);
    case MakeRaffle(signer, draws) =>
      MakeRaffleExact(s, signer, draws);
      WhenDrawCanSucceed(s);
    case ClaimReward(claimer) =>
    case ClaimRemaining(signer) => NothingRemains(s, signer);
    case ClaimRevenue(signer, treasury) =>
    case CancelRaffle(signer) => CancelRaffleExact(s, signer);
    case ChangeConfigs(signer, input) =>
    case ExternalTransfer(from, to, amount) =>
  }

  /** A raffle that ended with tickets sold but cannot be drawn stays that way on every run: it can be neither
      drawn nor cancelled, and rewards and proceeds stay in escrow. */
  lemma {:induction false} StrandedForever(s: State, events: seq<Event>)
    requires Stranded(s)
    ensures var z := Run(s, events);
            && Stranded(z) && z.raffle == s.raffle
            && RewardsEscrow in z.nfts && z.nfts[RewardsEscrow] == s.raffle.numRaffledNfts
            && RevenueEscrow in z.tokens
            && z.tokens[RevenueEscrow] == Cost(s.raffle.ticketSold, s.raffle.ticketPrice)
    decreases |events|
  {
    if events == [] {
      NoClaimsBeforeDraw(s);
    } else {
      var t := s.(clock := Later(s.clock, events[0].now));
      LaterKeepsInv(s, events[0].now);
      NextKeepsInv(s, events[0]);
      if Apply(t, events[0].action).Ok? {
        StrandedStep(t, events[0].action);
      }
      StrandedForever(Next(s, events[0]), events[1..]);
    }
  }

  /* The index of buyers. */

  /** Every buyer of `s` is still there, at the same place, with the same id and no fewer tickets. */
  ghost predicate BuyersKept(s: State, s': State) {
    && s.configs.numKeysPerIndexPage > 0 && s'.configs.numKeysPerIndexPage > 0
    && Buyers(s) <= Buyers(s')
    && forall u :: u in s.positions ==>
         && u in s'.positions && s'.positions[u].id == s.positions[u].id
         && s'.positions[u].totalNumTickets >= s.positions[u].totalNumTickets
  }

  lemma PositionsGrow(s: State, s': State, buyer: User, numTickets: nat)
    requires Inv(s) && TicketsBought(s, s', buyer, numTickets)
    ensures forall u :: u in s.positions ==>
              && u in s'.positions && s'.positions[u].id == s.positions[u].id
              && s'.positions[u].totalNumTickets >= s.positions[u].totalNumTickets
  {
  }

  lemma PurchaseKeepsBuyers(s: State, buyer: User, numTickets: nat, eligible: bool)
    requires Inv(s) && ApplyBuyTickets(s, buyer, numTickets, eligible).Ok?
    ensures BuyersKept(s, ApplyBuyTickets(s, buyer, numTickets, eligible).value)
  {
    BuyTicketsExact(s, buyer, numTickets, eligible);
    var s' := ApplyBuyTickets(s, buyer, numTickets, eligible).value;
    PositionsGrow(s, s', buyer, numTickets);
    if buyer in s.positions {
      GrownPositionMatches(s, s', buyer, numTickets);
    } else {
      NewPositionMatches(s, s', buyer, numTickets);
    }
  }

  lemma OtherStepsBuyNothing(s: State, action: Action)
    requires Apply(s, action).Ok? && !action.BuyTickets?
    ensures var s' := Apply(s, action).value;
            && s'.positions == s.positions && s'.pages == s.pages
            && s'.raffle.numTicketPositions == s.raffle.numTicketPositions
            && s'.configs.numKeysPerIndexPage == s.configs.numKeysPerIndexPage
  {
  }

  lemma StepKeepsBuyers(s: State, action: Action)
    requires Inv(s) && Apply(s, action).Ok?
    ensures BuyersKept(s, Apply(s, action).value)
  {
    if action.BuyTickets? {
      PurchaseKeepsBuyers(s, action.buyer, action.numTickets, action.eligible);
    } else {
      OtherStepsBuyNothing(s, action);
      assert Buyers(Apply(s, action).value) == Buyers(s);
    }
  }

  /** The list of buyers only ever grows at its end: a first purchase appends, and nobody's id ever changes. */
  lemma {:induction false} BuyersAppended(s: State, events: seq<Event>)
    requires Inv(s)
    ensures Inv(Run(s, events)) && BuyersKept(s, Run(s, events))
    decreases |events|
  {
    if events != [] {
      var t, n := s.(clock := Later(s.clock, events[0].now)), Next(s, events[0]);
      LaterKeepsInv(s, events[0].now);
      NextKeepsInv(s, events[0]);
      assert Buyers(t) == Buyers(s);
      if Apply(t, events[0].action).Ok? {
        StepKeepsBuyers(t, events[0].action);
      }
      BuyersAppended(n, events[1..]);
      KeptTwice(s, n, Run(n, events[1..]));
    }
  }

  lemma KeptTwice(s: State, t: State, u: State)
    requires BuyersKept(s, t) && BuyersKept(t, u)
    ensures BuyersKept(s, u)
  {
  }

  /* Who receives the fee. */

  /** What user `u` received beyond its part as a recipient. */
  function FeeReceived(s: State, s': State, u: User): int {
    var revenue := Cost(s.raffle.ticketSold, s.raffle.ticketPrice);
    var fee := Floor(revenue, s.configs.marketFeeRateBps);
    var net := if fee <= revenue then revenue - fee else 0;
    Balance(s'.tokens, Wallet(u)) - Balance(s.tokens, Wallet(u))
      - Received(s.raffle.revenueShares, Payouts(s.raffle.revenueShares, net, net), Wallet(u))
  }

  /** The fee goes to whatever wallet the creator names. The configured treasury receives it if and only if the
      creator names it (or there is none to pay), and naming another existing wallet changes nothing about the
      success of the step. */
  lemma FeeGoesWhereNamed(s: State, signer: User, treasury: User, other: User)
    requires Inv(s) && ApplyClaimRevenue(s, signer, treasury).Ok?
    ensures var s' := ApplyClaimRevenue(s, signer, treasury).value;
            var fee := Floor(Cost(s.raffle.ticketSold, s.raffle.ticketPrice), s.configs.marketFeeRateBps);
            && FeeReceived(s, s', treasury) == fee
            && (FeeReceived(s, s', s.configs.feeTreasury) == fee <==> treasury == s.configs.feeTreasury || fee == 0)
    ensures ApplyClaimRevenue(s, signer, other).Ok? <==> Wallet(other) in s.tokens
  {
    ClaimRevenueExact(s, signer, treasury);
    ClaimRevenueExact(s, signer, other);
    FeeReceivedIs(s, signer, treasury, treasury);
    FeeReceivedIs(s, signer, treasury, s.configs.feeTreasury);
  }

  lemma FeeReceivedIs(s: State, signer: User, treasury: User, u: User)
    requires Inv(s) && ApplyClaimRevenue(s, signer, treasury).Ok?
    ensures FeeReceived(s, ApplyClaimRevenue(s, signer, treasury).value, u)
         == if u == treasury
            then Floor(Cost(s.raffle.ticketSold, s.raffle.ticketPrice), s.configs.marketFeeRateBps) else 0
  {
    ClaimRevenueExact(s, signer, treasury);
    var shares := s.raffle.revenueShares;
    OpenWalletsOpens(s.tokens, shares, Wallet(u));
    if Wallet(u) !in OpenWallets(s.tokens, shares) {
      var revenue := Cost(s.raffle.ticketSold, s.raffle.ticketPrice);
      var net := revenue - Floor(revenue, s.configs.marketFeeRateBps);
      NothingReceived(shares, Payouts(shares, net, net), Wallet(u));
    } else {
      assert Wallet(u) in ApplyClaimRevenue(s, signer, treasury).value.tokens.Keys;
    }
  }
}
