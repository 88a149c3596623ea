/** Settling a drawn raffle: winners and creator may claim in any order. */
module RaffleSettlement {
  import opened Base
  import opened Tokens
  import opened Revenue
  import opened ClaimMask
  import opened RaffleModel
  import opened RaffleInvariant
  import opened RaffleTheorems

  /** A drawn raffle with a flag for every reward, whose proceeds can be split under the configuration in force with
      the fee going to `treasury`. */
  ghost predicate Settling(s: State, treasury: User) {
    && Inv(s) && s.raffle.status.Finished? && s.raffle.numRaffledNfts <= MASK_BITS
    && Wallet(treasury) in s.tokens
    && Payable(Cost(s.raffle.ticketSold, s.raffle.ticketPrice), s.configs.marketFeeRateBps, s.raffle.revenueShares)
  }

  /** Any instructions of any users, in any order, as long as the authority leaves the configuration alone. */
  predicate ConfigsFixed(events: seq<Event>) {
    forall i :: 0 <= i < |events| ==> !events[i].action.ChangeConfigs?
  }

  /** The same when every revenue claim names `treasury`. */
  predicate TreasuryFixed(events: seq<Event>, treasury: User) {
    forall i :: 0 <= i < |events| ==> Names(events[i].action, treasury)
  }

  predicate Names(action: Action, treasury: User) {
    !action.ChangeConfigs? && (action.ClaimRevenue? ==> action.treasury == treasury)
  }

  /** The same without transfers outside the raffle. */
  predicate RaffleOnly(events: seq<Event>, treasury: User) {
    forall i :: 0 <= i < |events| ==> IsRaffleOnly(events[i].action, treasury)
  }

  predicate IsRaffleOnly(action: Action, treasury: User) {
    Names(action, treasury) && !action.ExternalTransfer?
  }

  /** Nothing is left to claim. */
  ghost predicate Settled(s: State) {
    RewardsEscrow !in s.nfts && RevenueEscrow !in s.tokens
  }

  /** After the draw only claims succeed. */
  lemma OnlyClaimsSucceed(s: State, action: Action)
    requires Inv(s) && s.raffle.status.Finished? && Apply(s, action).Ok?
    ensures action.ClaimReward? || action.ClaimRevenue? || action.ChangeConfigs? || action.ExternalTransfer?
  {
    match action
    case BuyTickets(buyer, numTickets, eligible) => BuyTicketsExact(s, buyer, numTickets, eligible);
    case MakeRaffle(signer, draws) => MakeRaffleExact(s, signer, draws);
    case ClaimRemaining(signer) => NothingRemains(s, signer);
    case CancelRaffle(signer) => CancelRaffleExact(s, signer);
    case _ =>
  }

  /* Each claim stays enabled until it is taken. */

  /** A winner who has not been paid. */
  ghost predicate Unpaid(s: State, u: User) {
    u in s.positions && s.positions[u].id in s.raffle.winnerIds && !Rewarded(s, u)
  }

  /** What a reward claim changes: one NFT moves, and one winner is unpaid no longer. */
  lemma ClaimRewardEffect(s: State, claimer: User)
    requires Inv(s) && ApplyClaimReward(s, claimer).Ok?
    ensures var s' := ApplyClaimReward(s, claimer).value;
            && s' == s.(nfts := s'.nfts, raffle := s.raffle.(claimMask := s'.raffle.claimMask))
            && RewardsEscrow in s.nfts && Unpaid(s, claimer)
            && (forall u :: Unpaid(s', u) <==> Unpaid(s, u) && u != claimer)
            && forall a :: a != RewardsEscrow ==>
                 && Balance(s'.nfts, a) == Balance(s.nfts, a) + (if a == Wallet(claimer) then 1 else 0)
                 && (a in s'.nfts <==> a in s.nfts || a == Wallet(claimer))
  {
    ClaimRewardExact(s, claimer);
    var i: nat :| i < MASK_BITS && Claimable(s, claimer, i);
    ClaimRewardPays(s, claimer, i);
    PayRewardsExact(s.nfts, claimer, 1);
    var s' := ApplyClaimReward(s, claimer).value;
    forall u
      ensures Rewarded(s', u) <==> u == claimer || Rewarded(s, u)
      ensures !Rewarded(s, claimer)
    {
      ClaimRewardsOne(s, claimer, i, u);
    }
  }

  /** In a settling state a reward can be claimed exactly by an unpaid winner, and the proceeds exactly while their
      escrow is open. */
  lemma ClaimsEnabled(s: State, treasury: User, u: User)
    requires Settling(s, treasury)
    ensures ApplyClaimReward(s, u).Ok? <==> Unpaid(s, u)
    ensures ApplyClaimRevenue(s, s.raffle.creator, treasury).Ok? <==> RevenueEscrow in s.tokens
  {
    ClaimRevenueExact(s, s.raffle.creator, treasury);
    if ApplyClaimReward(s, u).Ok? {
      ClaimRewardEffect(s, u);
    }
    if Unpaid(s, u) {
      UnpaidWinnerCanClaim(s, u);
    }
  }

  /** The actions that take the proceeds, and those that take the reward of `u`. */
  function TakingProceeds(): Action -> bool {
    (a: Action) => a.ClaimRevenue?
  }

  function TakingReward(u: User): Action -> bool {
    (a: Action) => a == ClaimReward(u)
  }

  /** Some instruction of the run satisfies `p` and succeeds. */
  predicate Succeeds(s: State, events: seq<Event>, p: Action -> bool)
    decreases |events|
  {
    && events != []
    && (|| (p(events[0].action) && Apply(s.(clock := Later(s.clock, events[0].now)), events[0].action).Ok?)
        || Succeeds(Next(s, events[0]), events[1..], p))
  }

  /** A successful step of a settling raffle takes the claim it names and leaves every other as it is. */
  ghost predicate ClaimTaken(s: State, s': State, treasury: User, action: Action) {
    && Settling(s, treasury) && Settling(s', treasury)
    && s'.raffle == s.raffle.(claimMask := s'.raffle.claimMask)
    && (RevenueEscrow in s'.tokens <==> RevenueEscrow in s.tokens && !TakingProceeds()(action))
    && forall u :: Unpaid(s', u) <==> Unpaid(s, u) && !TakingReward(u)(action)
  }

  lemma SameUnpaid(s: State, s': State)
    requires s'.positions == s.positions && s'.raffle == s.raffle
    ensures forall u :: Unpaid(s', u) <==> Unpaid(s, u)
  {
    SameRewarded(s, s');
  }

  lemma ClaimRewardTakes(s: State, claimer: User, treasury: User)
    requires Settling(s, treasury) && ApplyClaimReward(s, claimer).Ok?
    ensures ClaimTaken(s, ApplyClaimReward(s, claimer).value, treasury, ClaimReward(claimer))
  {
    ClaimRewardEffect(s, claimer);
    ClaimRewardKeepsInv(s, claimer);
  }

  lemma ClaimRevenueTakes(s: State, signer: User, named: User, treasury: User)
    requires Settling(s, treasury) && ApplyClaimRevenue(s, signer, named).Ok?
    ensures ClaimTaken(s, ApplyClaimRevenue(s, signer, named).value, treasury, ClaimRevenue(signer, named))
  {
    ClaimRevenueExact(s, signer, named);
    ClaimRevenueKeepsInv(s, signer, named);
    OpenWalletsOpens(s.tokens, s.raffle.revenueShares, Wallet(treasury));
    var s' := ApplyClaimRevenue(s, signer, named).value;
    SameUnpaid(s, s');
    assert Wallet(treasury) in s'.tokens.Keys && RevenueEscrow !in s'.tokens.Keys;
  }

  lemma TransferTakesNothing(s: State, from: Account, to: Account, amount: nat, treasury: User)
    requires Settling(s, treasury) && ApplyExternalTransfer(s, from, to, amount).Ok?
    ensures ClaimTaken(s, ApplyExternalTransfer(s, from, to, amount).value, treasury,
                       ExternalTransfer(from, to, amount))
  {
    ExternalTransferKeepsEscrows(s.tokens, from, to, amount);
    ExternalTransferKeepsInv(s, from, to, amount);
    SameUnpaid(s, ApplyExternalTransfer(s, from, to, amount).value);
  }

  lemma StepTakesClaim(s: State, action: Action, treasury: User)
    requires Settling(s, treasury) && Apply(s, action).Ok? && !action.ChangeConfigs?
    ensures ClaimTaken(s, Apply(s, action).value, treasury, action)
  {
    OnlyClaimsSucceed(s, action);
    match action
    case ClaimReward(claimer) => ClaimRewardTakes(s, claimer, treasury);
    case ClaimRevenue(signer, named) => ClaimRevenueTakes(s, signer, named, treasury);
    case ExternalTransfer(from, to, amount) => TransferTakesNothing(s, from, to, amount, treasury);
    case _ =>
  }

  lemma LaterKeepsSettling(s: State, now: int, treasury: User)
    requires Settling(s, treasury)
    ensures var t := s.(clock := Later(s.clock, now));
            Settling(t, treasury) && forall u :: Unpaid(t, u) <==> Unpaid(s, u)
  {
    LaterKeepsInv(s, now);
    SameUnpaid(s, s.(clock := Later(s.clock, now)));
  }

  /** One event: a claim is taken exactly by an action that takes it and succeeds. */
  lemma NextTakesClaim(s: State, e: Event, treasury: User)
    requires Settling(s, treasury) && !e.action.ChangeConfigs?
    ensures var n, done := Next(s, e), Apply(s.(clock := Later(s.clock, e.now)), e.action).Ok?;
            && Settling(n, treasury) && n.raffle == s.raffle.(claimMask := n.raffle.claimMask)
            && (RevenueEscrow in n.tokens <==> RevenueEscrow in s.tokens && !(TakingProceeds()(e.action) && done))
            && forall u :: Unpaid(n, u) <==> Unpaid(s, u) && !(TakingReward(u)(e.action) && done)
  {
    var t := s.(clock := Later(s.clock, e.now));
    LaterKeepsSettling(s, e.now, treasury);
    if Apply(t, e.action).Ok? {
      StepTakesClaim(t, e.action, treasury);
    }
  }

  lemma RestOfConfigsFixed(events: seq<Event>)
    requires ConfigsFixed(events) && events != []
    ensures !events[0].action.ChangeConfigs? && ConfigsFixed(events[1..])
  {
    assert forall i :: 0 <= i < |events[1..]| ==> events[1..][i] == events[i + 1];
  }

  lemma {:induction false} DueUntilTaken(s: State, events: seq<Event>, treasury: User, u: User)
    requires Settling(s, treasury) && ConfigsFixed(events)
    ensures var z := Run(s, events);
            && Settling(z, treasury) && z.raffle == s.raffle.(claimMask := z.raffle.claimMask)
            && (RevenueEscrow in z.tokens <==> RevenueEscrow in s.tokens && !Succeeds(s, events, TakingProceeds()))
            && (Unpaid(z, u) <==> Unpaid(s, u) && !Succeeds(s, events, TakingReward(u)))
    decreases |events|
  {
    if events != [] {
      RestOfConfigsFixed(events);
      NextTakesClaim(s, events[0], treasury);
      DueUntilTaken(Next(s, events[0]), events[1..], treasury, u);
    }
  }

  /** Enabled until taken: whatever happens after the draw, under a fixed configuration, an unpaid winner can claim
      exactly if no claim of that winner has succeeded yet, and the creator can claim the proceeds, for any treasury
      with a wallet, exactly if no revenue claim has. */
  lemma ClaimsStayEnabled(s: State, events: seq<Event>, treasury: User, u: User)
    requires Settling(s, treasury) && ConfigsFixed(events)
    ensures var z := Run(s, events);
            && (ApplyClaimReward(z, u).Ok? <==> Unpaid(s, u) && !Succeeds(s, events, TakingReward(u)))
            && (ApplyClaimRevenue(z, s.raffle.creator, treasury).Ok?
                <==> RevenueEscrow in s.tokens && !Succeeds(s, events, TakingProceeds()))
  {
    DueUntilTaken(s, events, treasury, u);
    ClaimsEnabled(Run(s, events), treasury, u);
  }

  /* The state every order leads to. */

  ghost predicate RewardDue(s: State, a: Account) {
    a.Wallet? && Unpaid(s, a.owner)
  }

  ghost function FinalNftBalance(s: State, a: Account): nat {
    if a == RewardsEscrow then 0 else Balance(s.nfts, a) + if RewardDue(s, a) then 1 else 0
  }

  ghost predicate NftFinallyOpen(s: State, a: Account) {
    a != RewardsEscrow && (a in s.nfts || RewardDue(s, a))
  }

  function FinalBalance(s: State, treasury: User, a: Account): int {
    if a == RevenueEscrow then 0
    else Balance(s.tokens, a)
         + if RevenueEscrow in s.tokens
           then Income(a, Wallet(treasury), Cost(s.raffle.ticketSold, s.raffle.ticketPrice),
                       s.configs.marketFeeRateBps, s.raffle.revenueShares)
           else 0
  }

  predicate FinallyOpen(s: State, a: Account) {
    a != RevenueEscrow
    && (a in s.tokens || (RevenueEscrow in s.tokens && IsRecipient(s.raffle.revenueShares, a)))
  }

  /** `s` and `s'` are headed for the same end. */
  ghost predicate SameEnd(s: State, s': State, treasury: User) {
    && Settling(s, treasury) && Settling(s', treasury)
    && (forall a :: FinalNftBalance(s', a) == FinalNftBalance(s, a))
    && (forall a :: NftFinallyOpen(s', a) <==> NftFinallyOpen(s, a))
    && (forall a :: FinalBalance(s', treasury, a) == FinalBalance(s, treasury, a))
    && (forall a :: FinallyOpen(s', a) <==> FinallyOpen(s, a))
    && s' == s.(clock := s'.clock, tokens := s'.tokens, nfts := s'.nfts,
                raffle := s.raffle.(claimMask := s'.raffle.claimMask))
  }

  lemma RewardMovesToWallet(s: State, s': State, claimer: User, a: Account)
    requires Unpaid(s, claimer) && forall u :: Unpaid(s', u) <==> Unpaid(s, u) && u != claimer
    requires a != RewardsEscrow ==>
               && Balance(s'.nfts, a) == Balance(s.nfts, a) + (if a == Wallet(claimer) then 1 else 0)
               && (a in s'.nfts <==> a in s.nfts || a == Wallet(claimer))
    ensures FinalNftBalance(s', a) == FinalNftBalance(s, a)
    ensures NftFinallyOpen(s', a) <==> NftFinallyOpen(s, a)
  {
  }

  /** A reward claim moves what is due from the escrow to the winner's wallet. */
  lemma ClaimRewardSameEnd(s: State, claimer: User, treasury: User)
    requires Settling(s, treasury) && ApplyClaimReward(s, claimer).Ok?
    ensures SameEnd(s, ApplyClaimReward(s, claimer).value, treasury)
  {
    ClaimRewardKeepsInv(s, claimer);
    ClaimRewardEffect(s, claimer);
    var s' := ApplyClaimReward(s, claimer).value;
    forall a
      ensures FinalNftBalance(s', a) == FinalNftBalance(s, a)
      ensures NftFinallyOpen(s', a) <==> NftFinallyOpen(s, a)
      ensures FinalBalance(s', treasury, a) == FinalBalance(s, treasury, a)
      ensures FinallyOpen(s', a) <==> FinallyOpen(s, a)
    {
      RewardMovesToWallet(s, s', claimer, a);
    }
  }

  /** A revenue claim turns what is due from it into balances. */
  lemma ProceedsSameBalances(s: State, s': State, treasury: User, a: Account)
    requires Settling(s, treasury) && RevenueEscrow in s.tokens && RevenueEscrow !in s'.tokens
    requires s'.configs == s.configs && s'.raffle == s.raffle
    requires a != RevenueEscrow ==> (a in s'.tokens <==> a in s.tokens || IsRecipient(s.raffle.revenueShares, a))
    requires a in s'.tokens ==>
               s'.tokens[a] == Balance(s.tokens, a)
                 + Income(a, Wallet(treasury), Cost(s.raffle.ticketSold, s.raffle.ticketPrice),
                          s.configs.marketFeeRateBps, s.raffle.revenueShares)
    ensures FinalBalance(s', treasury, a) == FinalBalance(s, treasury, a)
    ensures FinallyOpen(s', a) <==> FinallyOpen(s, a)
  {
    if a !in s'.tokens && a != RevenueEscrow {
      NotPaid(s, treasury, a);
    }
  }

  lemma ClaimRevenueSameEnd(s: State, signer: User, treasury: User)
    requires Settling(s, treasury) && ApplyClaimRevenue(s, signer, treasury).Ok?
    ensures SameEnd(s, ApplyClaimRevenue(s, signer, treasury).value, treasury)
  {
    ClaimRevenueExact(s, signer, treasury);
    ClaimRevenueTakes(s, signer, treasury, treasury);
    var s' := ApplyClaimRevenue(s, signer, treasury).value;
    SameUnpaid(s, s');
    forall a
      ensures FinalBalance(s', treasury, a) == FinalBalance(s, treasury, a)
      ensures FinallyOpen(s', a) <==> FinallyOpen(s, a)
      ensures RewardDue(s', a) <==> RewardDue(s, a)
    {
      OpenWalletsOpens(s.tokens, s.raffle.revenueShares, a);
      assert a in s'.tokens <==> a in s'.tokens.Keys;
      ProceedsSameBalances(s, s', treasury, a);
    }
  }

  lemma NotPaid(s: State, treasury: User, a: Account)
    requires Settling(s, treasury) && a !in s.tokens && !IsRecipient(s.raffle.revenueShares, a)
    ensures Income(a, Wallet(treasury), Cost(s.raffle.ticketSold, s.raffle.ticketPrice), s.configs.marketFeeRateBps,
                   s.raffle.revenueShares) == 0
  {
    var revenue := Cost(s.raffle.ticketSold, s.raffle.ticketPrice);
    var net := revenue - Floor(revenue, s.configs.marketFeeRateBps);
    NothingReceived(s.raffle.revenueShares, Payouts(s.raffle.revenueShares, net, net), a);
  }

  lemma LaterSameEnd(s: State, now: int, treasury: User)
    requires Settling(s, treasury)
    ensures SameEnd(s, s.(clock := Later(s.clock, now)), treasury)
  {
    var t := s.(clock := Later(s.clock, now));
    LaterKeepsInv(s, now);
    SameRewarded(s, t);
    assert forall a :: RewardDue(t, a) <==> RewardDue(s, a);
  }

  lemma SameEndTransitive(s: State, t: State, u: State, treasury: User)
    requires SameEnd(s, t, treasury) && SameEnd(t, u, treasury)
    ensures SameEnd(s, u, treasury)
  {
  }

  lemma StepSameEnd(s: State, action: Action, treasury: User)
    requires Settling(s, treasury) && IsRaffleOnly(action, treasury) && Apply(s, action).Ok?
    ensures SameEnd(s, Apply(s, action).value, treasury)
  {
    OnlyClaimsSucceed(s, action);
    match action
    case ClaimReward(claimer) => ClaimRewardSameEnd(s, claimer, treasury);
    case ClaimRevenue(signer, named) => ClaimRevenueSameEnd(s, signer, treasury);
    case _ =>
  }

  lemma NextSameEnd(s: State, e: Event, treasury: User)
    requires Settling(s, treasury) && IsRaffleOnly(e.action, treasury)
    ensures SameEnd(s, Next(s, e), treasury)
  {
    var t := s.(clock := Later(s.clock, e.now));
    LaterSameEnd(s, e.now, treasury);
    if Apply(t, e.action).Ok? {
      StepSameEnd(t, e.action, treasury);
      SameEndTransitive(s, t, Next(s, e), treasury);
    }
  }

  lemma {:induction false} SettlementRunSameEnd(s: State, events: seq<Event>, treasury: User)
    requires Settling(s, treasury) && RaffleOnly(events, treasury)
    ensures SameEnd(s, Run(s, events), treasury)
    decreases |events|
  {
    if events == [] {
      SameEndReflexive(s, treasury);
    } else {
      var n, rest := Next(s, events[0]), events[1..];
      NextSameEnd(s, events[0], treasury);
      SettlementRunSameEnd(n, rest, treasury);
      SameEndTransitive(s, n, Run(n, rest), treasury);
    }
  }

  lemma SameEndReflexive(s: State, treasury: User)
    requires Settling(s, treasury)
    ensures SameEnd(s, s, treasury)
  {
  }

  lemma NobodyUnpaid(s: State)
    requires Inv(s) && s.raffle.status.Finished? && RewardsEscrow !in s.nfts
    ensures forall u :: !Unpaid(s, u)
  {
    RewardsCloseWhenAllClaimed(s);
    forall u ensures !Unpaid(s, u) {
      if Unpaid(s, u) {
        var i: nat :| i < |s.raffle.winnerIds| && s.raffle.winnerIds[i] == s.positions[u].id;
        assert Bit(s.raffle.claimMask, i);
        assert RewardedAt(s, u, i);
      }
    }
  }

  /** Once nothing is left to claim, the ledgers are the final ones and every flag of a reward is set. */
  lemma SettledIsFinal(s: State, treasury: User)
    requires Settling(s, treasury) && Settled(s)
    ensures forall a :: (a in s.nfts <==> NftFinallyOpen(s, a)) && Balance(s.nfts, a) == FinalNftBalance(s, a)
    ensures forall a :: (a in s.tokens <==> FinallyOpen(s, a)) && Balance(s.tokens, a) == FinalBalance(s, treasury, a)
    ensures forall i: nat :: Bit(s.raffle.claimMask, i) <==> i < s.raffle.numRaffledNfts
  {
    RewardsCloseWhenAllClaimed(s);
    NobodyUnpaid(s);
  }

  /** Confluence: any two orders in which everything is claimed, with any failing instructions in between, reach the
      same state; only the clock may differ. */
  lemma SettlementConfluence(s: State, order1: seq<Event>, order2: seq<Event>, treasury: User)
    requires Settling(s, treasury) && RaffleOnly(order1, treasury) && RaffleOnly(order2, treasury)
    requires Settled(Run(s, order1)) && Settled(Run(s, order2))
    ensures Run(s, order1).(clock := 0) == Run(s, order2).(clock := 0)
  {
    var z1, z2 := Run(s, order1), Run(s, order2);
    SettlementRunSameEnd(s, order1, treasury);
    SettlementRunSameEnd(s, order2, treasury);
    SettledIsFinal(z1, treasury);
    SettledIsFinal(z2, treasury);
    SameLedger(z1.tokens, z2.tokens);
    SameLedger(z1.nfts, z2.nfts);
    SameBitsSameMask(z1.raffle.claimMask, z2.raffle.claimMask);
  }

  /* With transfers outside the raffle. */

  /** What a successful transfer outside the raffle adds to account `a`. */
  function Flow(s: State, e: Event, a: Account): int {
    if e.action.ExternalTransfer? && Apply(s.(clock := Later(s.clock, e.now)), e.action).Ok? then
      (if a == e.action.to then e.action.amount else 0) - (if a == e.action.from then e.action.amount else 0)
    else 0
  }

  function NetFlow(s: State, events: seq<Event>, a: Account): int
    decreases |events|
  {
    if events == [] then 0 else Flow(s, events[0], a) + NetFlow(Next(s, events[0]), events[1..], a)
  }

  lemma TransferShiftsEnd(s: State, from: Account, to: Account, amount: nat, treasury: User, a: Account)
    requires ApplyExternalTransfer(s, from, to, amount).Ok?
    ensures var s' := ApplyExternalTransfer(s, from, to, amount).value;
            FinalBalance(s', treasury, a)
            == FinalBalance(s, treasury, a) + (if a == to then amount else 0) - (if a == from then amount else 0)
  {
    ExternalTransferKeepsEscrows(s.tokens, from, to, amount);
  }

  lemma SameNftsDue(s: State, s': State, a: Account)
    requires s'.positions == s.positions && s'.raffle == s.raffle && s'.nfts == s.nfts
    ensures FinalNftBalance(s', a) == FinalNftBalance(s, a)
  {
    SameUnpaid(s, s');
  }

  lemma TransferEventShiftsEnd(s: State, e: Event, treasury: User, a: Account)
    requires e.action.ExternalTransfer?
    ensures FinalBalance(Next(s, e), treasury, a) == FinalBalance(s, treasury, a) + Flow(s, e, a)
    ensures FinalNftBalance(Next(s, e), a) == FinalNftBalance(s, a)
  {
    var t := s.(clock := Later(s.clock, e.now));
    assert FinalBalance(t, treasury, a) == FinalBalance(s, treasury, a);
    SameNftsDue(s, Next(s, e), a);
    if Apply(t, e.action).Ok? {
      TransferShiftsEnd(t, e.action.from, e.action.to, e.action.amount, treasury, a);
    }
  }

  lemma NextShiftsEnd(s: State, e: Event, treasury: User, a: Account)
    requires Settling(s, treasury) && Names(e.action, treasury)
    ensures Settling(Next(s, e), treasury)
    ensures FinalBalance(Next(s, e), treasury, a) == FinalBalance(s, treasury, a) + Flow(s, e, a)
    ensures FinalNftBalance(Next(s, e), a) == FinalNftBalance(s, a)
  {
    if e.action.ExternalTransfer? {
      NextTakesClaim(s, e, treasury);
      TransferEventShiftsEnd(s, e, treasury, a);
    } else {
      NextSameEnd(s, e, treasury);
    }
  }

  lemma {:induction false} RunShiftsEnd(s: State, events: seq<Event>, treasury: User, a: Account)
    requires Settling(s, treasury) && TreasuryFixed(events, treasury)
    ensures Settling(Run(s, events), treasury)
    ensures FinalBalance(Run(s, events), treasury, a) == FinalBalance(s, treasury, a) + NetFlow(s, events, a)
    ensures FinalNftBalance(Run(s, events), a) == FinalNftBalance(s, a)
    decreases |events|
  {
    if events != [] {
      NextShiftsEnd(s, events[0], treasury, a);
      RunShiftsEnd(Next(s, events[0]), events[1..], treasury, a);
    }
  }

  /** Where everything ends up, whatever happens in between: one NFT more for every winner who was still unpaid, for
      every wallet its income from the proceeds if they were still there, and what was transferred outside. */
  lemma SettlementOutcome(s: State, events: seq<Event>, treasury: User, u: User)
    requires Settling(s, treasury) && TreasuryFixed(events, treasury) && Settled(Run(s, events))
    ensures var z := Run(s, events);
            && Balance(z.nfts, Wallet(u)) == Balance(s.nfts, Wallet(u)) + (if Unpaid(s, u) then 1 else 0)
            && Balance(z.tokens, Wallet(u)) == Balance(s.tokens, Wallet(u)) + NetFlow(s, events, Wallet(u))
                 + (if RevenueEscrow in s.tokens
                    then Income(Wallet(u), Wallet(treasury), Cost(s.raffle.ticketSold, s.raffle.ticketPrice),
                                s.configs.marketFeeRateBps, s.raffle.revenueShares)
                    else 0)
  {
    RunShiftsEnd(s, events, treasury, Wallet(u));
    SettledIsFinal(Run(s, events), treasury);
  }

  /* Such an order exists. */

  function ClaimsLeft(s: State): int {
    s.raffle.numRaffledNfts - Popcount(s.raffle.claimMask) + if RevenueEscrow in s.tokens then 1 else 0
  }

  /** Some winner's flag is clear while the rewards escrow is open, and that winner can claim. */
  lemma SomeUnpaidWinner(s: State) returns (u: User)
    requires Inv(s) && s.raffle.status.Finished? && s.raffle.numRaffledNfts <= MASK_BITS && RewardsEscrow in s.nfts
    ensures ApplyClaimReward(s, u).Ok?
  {
    RewardsCloseWhenAllClaimed(s);
    var i: nat :| i < s.raffle.numRaffledNfts && !Bit(s.raffle.claimMask, i);
    WinnersAreBuyers(s, i, i);
    u := Buyers(s)[s.raffle.winnerIds[i]];
    assert Claimable(s, u, i);
    ClaimRewardExact(s, u);
  }

  lemma SomeClaim(s: State, treasury: User) returns (action: Action)
    requires Settling(s, treasury) && !Settled(s)
    ensures IsRaffleOnly(action, treasury) && Apply(s, action).Ok?
  {
    if RevenueEscrow in s.tokens {
      action := ClaimRevenue(s.raffle.creator, treasury);
      ClaimRevenueExact(s, s.raffle.creator, treasury);
    } else {
      var u := SomeUnpaidWinner(s);
      action := ClaimReward(u);
    }
  }

  lemma TakingAClaim(s: State, action: Action, treasury: User)
    requires Settling(s, treasury) && IsRaffleOnly(action, treasury) && Apply(s, action).Ok?
    ensures ClaimsLeft(Apply(s, action).value) == ClaimsLeft(s) - 1
  {
    OnlyClaimsSucceed(s, action);
    match action
    case ClaimReward(claimer) =>
      ClaimRewardExact(s, claimer);
      var i: nat :| i < MASK_BITS && Claimable(s, claimer, i);
      ClaimRewardPays(s, claimer, i);
      SetBitCounts(s.raffle.claimMask, i);
    case ClaimRevenue(signer, named) =>
      ClaimRevenueExact(s, signer, named);
      assert RevenueEscrow !in Apply(s, action).value.tokens.Keys;
    case _ =>
  }

  lemma ProcessedNow(s: State, action: Action)
    requires Apply(s, action).Ok?
    ensures Next(s, Event(s.clock, action)) == Apply(s, action).value
  {
    assert s.(clock := s.clock) == s;
  }

  /** Everything can be claimed: as many instructions as there are open claims complete the settlement. */
  lemma {:induction false} SettlementCompletes(s: State, treasury: User) returns (order: seq<Event>)
    requires Settling(s, treasury)
    ensures RaffleOnly(order, treasury) && |order| == ClaimsLeft(s) && Settled(Run(s, order))
    decreases ClaimsLeft(s)
  {
    if Settled(s) {
      order := [];
    } else {
      var action := SomeClaim(s, treasury);
      var e := Event(s.clock, action);
      ProcessedNow(s, action);
      TakingAClaim(s, action, treasury);
      StepSameEnd(s, action, treasury);
      var rest := SettlementCompletes(Next(s, e), treasury);
      order := [e] + rest;
      assert order[1..] == rest;
    }
  }
}
