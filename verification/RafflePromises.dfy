/** When exactly rewards and proceeds of a raffle can be claimed. */
module RafflePromises {
  import opened Base
  import opened GlobalConfigs
  import opened Tokens
  import opened Revenue
  import opened WinnerDraw
  import opened ClaimMask
  import opened RaffleModel
  import opened RaffleInvariant
  import opened RaffleTheorems
  import opened RaffleSettlement

  /* Rewards. */

  /** Winners were drawn, and each has been paid. */
  ghost predicate AllRewarded(s: State) {
    s.raffle.status.Finished? && forall u :: !Unpaid(s, u)
  }

  /** The run draws winners and pays each of them. */
  ghost predicate PaysWinners(s: State, events: seq<Event>) {
    AllRewarded(Run(s, events))
  }

  /** Winner ids are distinct, so the buyer with the id at index `i` is paid at that index or not at all. */
  lemma BeyondMaskNotPaid(s: State, u: User, i: nat)
    requires Inv(s) && MASK_BITS <= i < |s.raffle.winnerIds|
    requires u in s.positions && s.positions[u].id == s.raffle.winnerIds[i]
    ensures ApplyClaimReward(s, u).Err? && Unpaid(s, u) && RewardsEscrow in s.nfts
  {
    forall j: nat | j < |s.raffle.winnerIds| && s.raffle.winnerIds[j] == s.positions[u].id ensures j == i {
      assert StrictlyIncreasing(s.raffle.winnerIds);
    }
    ClaimRewardExact(s, u);
    RewardsCloseWhenAllClaimed(s);
  }

  /** A winner at an index for which the mask has no flag can never claim, on any run, and the rewards escrow never
      closes. */
  lemma BeyondMaskNeverPaid(s: State, events: seq<Event>, i: nat)
    requires Inv(s) && MASK_BITS <= i < |s.raffle.winnerIds|
    ensures s.raffle.winnerIds[i] < |Buyers(s)|
    ensures var z, u := Run(s, events), Buyers(s)[s.raffle.winnerIds[i]];
            && z.raffle.winnerIds == s.raffle.winnerIds && u in z.positions && z.positions[u] == s.positions[u]
            && ApplyClaimReward(z, u).Err? && !Rewarded(z, u) && RewardsEscrow in z.nfts
  {
    WinnersAreBuyers(s, i, i);
    RunKeepsInv(s, events);
    SaleClosesAtDeadline(s, events);
    BeyondMaskNotPaid(Run(s, events), Buyers(s)[s.raffle.winnerIds[i]], i);
  }

  /** In a drawn raffle every unpaid winner can claim if and only if there are at most 64 rewards. */
  lemma EveryWinnerCanClaim(s: State)
    requires Inv(s) && s.raffle.status.Finished?
    ensures (forall u :: Unpaid(s, u) ==> ApplyClaimReward(s, u).Ok?) <==> s.raffle.numRaffledNfts <= 64
  {
    if s.raffle.numRaffledNfts <= MASK_BITS {
      forall u | Unpaid(s, u) ensures ApplyClaimReward(s, u).Ok? {
        UnpaidWinnerCanClaim(s, u);
      }
    } else {
      WinnersAreBuyers(s, MASK_BITS, MASK_BITS);
      BeyondMaskNotPaid(s, Buyers(s)[s.raffle.winnerIds[MASK_BITS]], MASK_BITS);
    }
  }

  /** With a flag for every reward the winners can all claim, one after the other. */
  lemma {:induction false} WinnersClaim(s: State) returns (events: seq<Event>)
    requires Inv(s) && s.raffle.status.Finished? && s.raffle.numRaffledNfts <= MASK_BITS
    ensures AllRewarded(Run(s, events))
    decreases s.raffle.numRaffledNfts - Popcount(s.raffle.claimMask)
  {
    if RewardsEscrow in s.nfts {
      var u := SomeUnpaidWinner(s);
      var n := Next(s, Event(s.clock, ClaimReward(u)));
      ProcessedNow(s, ClaimReward(u));
      ClaimRewardKeepsInv(s, u);
      FlagAdded(s, u);
      var rest := WinnersClaim(n);
      events := [Event(s.clock, ClaimReward(u))] + rest;
      assert events[1..] == rest;
    } else {
      events := [];
      NobodyUnpaid(s);
    }
  }

  lemma FlagAdded(s: State, u: User)
    requires Inv(s) && ApplyClaimReward(s, u).Ok?
    ensures var s' := ApplyClaimReward(s, u).value;
            && s'.raffle == s.raffle.(claimMask := s'.raffle.claimMask)
            && Popcount(s'.raffle.claimMask) == Popcount(s.raffle.claimMask) + 1 <= s.raffle.numRaffledNfts
  {
    ClaimRewardKeepsInv(s, u);
    ClaimRewardExact(s, u);
    var i: nat :| i < MASK_BITS && Claimable(s, u, i);
    ClaimRewardPays(s, u, i);
    SetBitCounts(s.raffle.claimMask, i);
  }

  /** Without a draw nobody ever wins. */
  lemma NeverDrawn(s: State, events: seq<Event>)
    requires Inv(s) && s.raffle.status.InProgress? && IsEnded(s.raffle, s.clock) && !EnoughForDraw(s)
    ensures !Run(s, events).raffle.status.Finished?
  {
    var z := Run(s, events);
    if s.raffle.ticketSold > 0 {
      StrandedForever(s, events);
    } else {
      RunKeepsInv(s, events);
      SaleClosesAtDeadline(s, events);
      if z.raffle.status.Finished? {
        DrawnWasSold(z);
      }
    }
  }

  lemma NotAllRewarded(s: State, events: seq<Event>)
    requires Inv(s) && s.raffle.status.InProgress? && IsEnded(s.raffle, s.clock)
    requires !EnoughForDraw(s) || s.raffle.numRaffledNfts > MASK_BITS
    ensures !PaysWinners(s, events)
  {
    var z := Run(s, events);
    if !EnoughForDraw(s) {
      NeverDrawn(s, events);
    } else if z.raffle.status.Finished? {
      RunKeepsInv(s, events);
      SomebodyUnpaid(z);
    }
  }

  lemma SomebodyUnpaid(s: State)
    requires Inv(s) && s.raffle.status.Finished? && s.raffle.numRaffledNfts > MASK_BITS
    ensures !AllRewarded(s)
  {
    WinnersAreBuyers(s, MASK_BITS, MASK_BITS);
    BeyondMaskNotPaid(s, Buyers(s)[s.raffle.winnerIds[MASK_BITS]], MASK_BITS);
  }

  lemma DrawnAndClaimed(s: State) returns (events: seq<Event>)
    requires Inv(s) && s.raffle.status.InProgress? && IsEnded(s.raffle, s.clock)
    requires EnoughForDraw(s) && s.raffle.numRaffledNfts <= MASK_BITS
    ensures PaysWinners(s, events)
  {
    WhenDrawCanSucceed(s);
    var draws :| ApplyMakeRaffle(s, s.configs.authority, draws).Ok?;
    var draw := MakeRaffle(s.configs.authority, draws);
    ProcessedNow(s, draw);
    MakeRaffleExact(s, s.configs.authority, draws);
    MakeRaffleKeepsInv(s, s.configs.authority, draws);
    var rest := WinnersClaim(Next(s, Event(s.clock, draw)));
    events := [Event(s.clock, draw)] + rest;
    assert events[1..] == rest;
  }

  /** The promise that winners can claim their rewards after the end: winners can be drawn and all be paid if and only
      if the raffle is drawable and has at most 64 rewards. */
  lemma RewardPromise(s: State)
    requires Inv(s) && s.raffle.status.InProgress? && IsEnded(s.raffle, s.clock)
    ensures (exists events :: PaysWinners(s, events))
            <==> EnoughForDraw(s) && s.raffle.numRaffledNfts <= 64
  {
    if EnoughForDraw(s) && s.raffle.numRaffledNfts <= MASK_BITS {
      var events := DrawnAndClaimed(s);
    } else {
      forall events ensures !PaysWinners(s, events) {
        NotAllRewarded(s, events);
      }
    }
  }

  /* Proceeds. */

  function Proceeds(s: State): nat {
    Cost(s.raffle.ticketSold, s.raffle.ticketPrice)
  }

  /** Drawn, with the proceeds still in escrow. */
  ghost predicate ProceedsOpen(s: State) {
    Inv(s) && s.raffle.status.Finished? && RevenueEscrow in s.tokens
  }

  lemma OtherStepsKeepProceeds(s: State, action: Action)
    requires ProceedsOpen(s) && Apply(s, action).Ok? && !action.ClaimRevenue?
    ensures var s' := Apply(s, action).value;
            && s'.raffle == s.raffle.(claimMask := s'.raffle.claimMask) && RevenueEscrow in s'.tokens
  {
    OnlyClaimsSucceed(s, action);
    match action
    case ClaimReward(claimer) => FlagAdded(s, claimer);
    case ExternalTransfer(from, to, amount) => ExternalTransferKeepsEscrows(s.tokens, from, to, amount);
    case _ =>
  }

  /** A revenue claim succeeds only if the fee in force pays. */
  lemma StepKeepsProceeds(s: State, action: Action)
    requires ProceedsOpen(s) && !SomeFeePays(Proceeds(s), s.raffle.revenueShares) && Apply(s, action).Ok?
    ensures var s' := Apply(s, action).value;
            && ProceedsOpen(s') && Proceeds(s') == Proceeds(s) && s'.raffle.revenueShares == s.raffle.revenueShares
  {
    if action.ClaimRevenue? {
      ClaimRevenueExact(s, action.signer, action.treasury);
      PayableSomehow(Proceeds(s), s.configs.marketFeeRateBps, s.raffle.revenueShares);
    } else {
      StepKeepsInv(s, action);
      OtherStepsKeepProceeds(s, action);
    }
  }

  /** Proceeds that no fee makes payable stay in escrow on every run, whatever the authority configures and whatever
      treasury the creator names. */
  lemma {:induction false} ProceedsLockedForever(s: State, events: seq<Event>)
    requires ProceedsOpen(s) && !SomeFeePays(Proceeds(s), s.raffle.revenueShares)
    ensures var z := Run(s, events);
            ProceedsOpen(z) && z.tokens[RevenueEscrow] == Proceeds(s) == Proceeds(z)
    decreases |events|
  {
    if events != [] {
      var t := s.(clock := Later(s.clock, events[0].now));
      LaterKeepsInv(s, events[0].now);
      if Apply(t, events[0].action).Ok? {
        StepKeepsProceeds(t, events[0].action);
      }
      ProceedsLockedForever(Next(s, events[0]), events[1..]);
    }
  }

  /** Set the fee, open a wallet to name, claim. */
  function PayingRun(s: State, feeBps: nat): seq<Event>
    requires feeBps < 10000
  {
    var creator := s.raffle.creator;
    [Event(s.clock, ChangeConfigs(s.configs.authority, SetFee(feeBps))),
     Event(s.clock, ExternalTransfer(Wallet(creator), Wallet(creator), 0)),
     Event(s.clock, ClaimRevenue(creator, creator))]
  }

  lemma FeeSet(s: State, feeBps: nat)
    requires Inv(s) && ValidatedUpToFee(s.configs) && feeBps < 10000
    ensures var t := s.(configs := s.configs.(marketFeeRateBps := feeBps));
            Inv(t) && Next(s, Event(s.clock, ChangeConfigs(s.configs.authority, SetFee(feeBps)))) == t
  {
    FeeSettable(s.configs, feeBps);
    ProcessedNow(s, ChangeConfigs(s.configs.authority, SetFee(feeBps)));
    NewConfigsKeepInv(s, s.configs.(marketFeeRateBps := feeBps));
  }

  lemma WalletOpened(s: State, u: User)
    requires Inv(s)
    ensures var t := s.(tokens := Open(s.tokens, Wallet(u)));
            Inv(t) && Next(s, Event(s.clock, ExternalTransfer(Wallet(u), Wallet(u), 0))) == t
  {
    ProcessedNow(s, ExternalTransfer(Wallet(u), Wallet(u), 0));
    ExternalTransferKeepsInv(s, Wallet(u), Wallet(u), 0);
  }

  lemma ClaimPays(s: State)
    requires ProceedsOpen(s) && Wallet(s.raffle.creator) in s.tokens
    requires Payable(Proceeds(s), s.configs.marketFeeRateBps, s.raffle.revenueShares)
    ensures RevenueEscrow !in Next(s, Event(s.clock, ClaimRevenue(s.raffle.creator, s.raffle.creator))).tokens
  {
    var creator := s.raffle.creator;
    ClaimRevenueExact(s, creator, creator);
    ProcessedNow(s, ClaimRevenue(creator, creator));
    assert RevenueEscrow !in ApplyClaimRevenue(s, creator, creator).value.tokens.Keys;
  }

  lemma PayingRunPays(s: State, feeBps: nat)
    requires ProceedsOpen(s) && ValidatedUpToFee(s.configs)
    requires feeBps < 10000 && Payable(Proceeds(s), feeBps, s.raffle.revenueShares)
    ensures RevenueEscrow !in Run(s, PayingRun(s, feeBps)).tokens
  {
    var creator := s.raffle.creator;
    var t1 := s.(configs := s.configs.(marketFeeRateBps := feeBps));
    var t2 := t1.(tokens := Open(t1.tokens, Wallet(creator)));
    FeeSet(s, feeBps);
    WalletOpened(t1, creator);
    ClaimPays(t2);
    RunOfThree(s, PayingRun(s, feeBps));
  }

  lemma RunOfThree(s: State, events: seq<Event>)
    requires |events| == 3
    ensures Run(s, events) == Next(Next(Next(s, events[0]), events[1]), events[2])
  {
    var n := Next(s, events[0]);
    assert events[1..][1..] == [events[2]];
    assert Run(n, events[1..]) == Run(Next(n, events[1]), [events[2]]);
    assert Run(Next(n, events[1]), [events[2]]) == Run(Next(Next(n, events[1]), events[2]), []);
  }

  /** The promise that the creator can claim the proceeds of a drawn raffle holds if and only if some fee below 100 per
      cent makes them payable. */
  lemma ProceedsPromise(s: State)
    requires ProceedsOpen(s) && ValidatedUpToFee(s.configs)
    ensures (exists events :: RevenueEscrow !in Run(s, events).tokens)
            <==> SomeFeePays(Proceeds(s), s.raffle.revenueShares)
  {
    if SomeFeePays(Proceeds(s), s.raffle.revenueShares) {
      var feeBps: nat :| feeBps < 10000 && Payable(Proceeds(s), feeBps, s.raffle.revenueShares);
      PayingRunPays(s, feeBps);
    } else {
      forall events ensures RevenueEscrow in Run(s, events).tokens {
        ProceedsLockedForever(s, events);
      }
    }
  }
}
