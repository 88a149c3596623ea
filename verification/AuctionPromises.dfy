/** When exactly the revenue of an ended auction can be claimed. */
module AuctionPromises {
  import opened Base
  import opened GlobalConfigs
  import opened Tokens
  import opened Revenue
  import opened AuctionModel
  import opened AuctionInvariant

  /** Ended with a winner whose bid is still in escrow. */
  ghost predicate RevenueOpen(s: State) {
    && Inv(s) && IsEnded(s.auction, s.clock)
    && s.auction.topBidder.Some? && BidEscrow(s.auction.topBidder.value) in s.tokens
  }

  /** Every step but a revenue claim leaves the top bid in escrow after the end. */
  lemma OtherStepsKeepRevenue(s: State, action: Action)
    requires RevenueOpen(s) && Apply(s, action).Ok? && !action.ClaimRevenue?
    ensures var s' := Apply(s, action).value;
            && s'.auction == s.auction.(status := s'.auction.status)
            && BidEscrow(s.auction.topBidder.value) in s'.tokens && s'.clock == s.clock
  {
    match action
    case MakeBid(bidder, bidAmount, maxAllowed, eligible) => MakeBidExact(s, bidder, bidAmount, maxAllowed, eligible);
    case CancelBid(bidder) => CancelBidExact(s, bidder);
    case ClaimLot(bidder) => ClaimLotExact(s, bidder);
    case CancelAuction(signer) => CancelAuctionExact(s, signer);
    case ChangeConfigs(signer, input) =>
    case ExternalTransfer(from, to, amount) => ExternalTransferKeepsEscrows(s.tokens, from, to, amount);
  }

  /** And a revenue claim succeeds only if the fee in force pays. */
  lemma StepKeepsRevenue(s: State, action: Action)
    requires RevenueOpen(s) && !SomeFeePays(s.auction.topBid, s.auction.revenueShares) && Apply(s, action).Ok?
    ensures var s' := Apply(s, action).value;
            RevenueOpen(s') && s'.auction == s.auction.(status := s'.auction.status)
  {
    if action.ClaimRevenue? {
      ClaimRevenueExact(s, action.signer, action.topBidder, action.treasury);
      PayableSomehow(s.auction.topBid, s.configs.marketFeeRateBps, s.auction.revenueShares);
    } else {
      StepKeepsInv(s, action);
      OtherStepsKeepRevenue(s, action);
    }
  }

  /** A top bid that no fee makes payable stays in escrow on every run, whatever the authority configures. */
  lemma {:induction false} RevenueLockedForever(s: State, events: seq<Event>)
    requires RevenueOpen(s) && !SomeFeePays(s.auction.topBid, s.auction.revenueShares)
    ensures var z := Run(s, events);
            RevenueOpen(z) && z.auction == s.auction.(status := z.auction.status)
            && z.tokens[BidEscrow(s.auction.topBidder.value)] == s.auction.topBid
    decreases |events|
  {
    if events != [] {
      var t := s.(clock := Later(s.clock, events[0].now));
      SameIndex(s, t);
      if Apply(t, events[0].action).Ok? {
        StepKeepsRevenue(t, events[0].action);
      }
      RevenueLockedForever(Next(s, events[0]), events[1..]);
    }
  }

  /** Set the fee, open the treasury's wallet, claim. */
  function PayingRun(s: State, feeBps: nat): seq<Event>
    requires feeBps < 10000 && s.auction.topBidder.Some?
  {
    var treasury := s.configs.feeTreasury;
    [Event(s.clock, ChangeConfigs(s.configs.authority, SetFee(feeBps))),
     Event(s.clock, ExternalTransfer(Wallet(treasury), Wallet(treasury), 0)),
     Event(s.clock, ClaimRevenue(s.auction.creator, s.auction.topBidder.value, treasury))]
  }

  lemma FeeSet(s: State, feeBps: nat)
    requires Inv(s) && ValidatedUpToFee(s.configs) && feeBps < 10000
    ensures var t := s.(configs := s.configs.(marketFeeRateBps := feeBps));
            Inv(t) && Next(s, Event(s.clock, ChangeConfigs(s.configs.authority, SetFee(feeBps)))) == t
  {
    FeeSettable(s.configs, feeBps);
    ProcessedNow(s, ChangeConfigs(s.configs.authority, SetFee(feeBps)));
    SameIndex(s, s.(configs := s.configs.(marketFeeRateBps := feeBps)));
  }

  lemma WalletOpened(s: State, u: User)
    requires Inv(s)
    ensures var t := s.(tokens := Open(s.tokens, Wallet(u)));
            Inv(t) && Next(s, Event(s.clock, ExternalTransfer(Wallet(u), Wallet(u), 0))) == t
  {
    ProcessedNow(s, ExternalTransfer(Wallet(u), Wallet(u), 0));
    ExternalTransferKeepsInv(s, Wallet(u), Wallet(u), 0);
  }

  lemma ClaimPays(s: State)
    requires RevenueOpen(s) && Wallet(s.configs.feeTreasury) in s.tokens
    requires Payable(s.auction.topBid, s.configs.marketFeeRateBps, s.auction.revenueShares)
    ensures var top := s.auction.topBidder.value;
            var e := Event(s.clock, ClaimRevenue(s.auction.creator, top, s.configs.feeTreasury));
            BidEscrow(top) !in Next(s, e).tokens
  {
    var creator, top, treasury := s.auction.creator, s.auction.topBidder.value, s.configs.feeTreasury;
    ClaimRevenueExact(s, creator, top, treasury);
    ProcessedNow(s, ClaimRevenue(creator, top, treasury));
    assert BidEscrow(top) !in ApplyClaimRevenue(s, creator, top, treasury).value.tokens.Keys;
  }

  lemma PayingRunPays(s: State, feeBps: nat)
    requires RevenueOpen(s) && ValidatedUpToFee(s.configs)
    requires feeBps < 10000 && Payable(s.auction.topBid, feeBps, s.auction.revenueShares)
    ensures BidEscrow(s.auction.topBidder.value) !in Run(s, PayingRun(s, feeBps)).tokens
  {
    var treasury := s.configs.feeTreasury;
    var t1 := s.(configs := s.configs.(marketFeeRateBps := feeBps));
    var t2 := t1.(tokens := Open(t1.tokens, Wallet(treasury)));
    FeeSet(s, feeBps);
    WalletOpened(t1, treasury);
    ClaimPays(t2);
    RunOfThree(s, PayingRun(s, feeBps));
  }

  lemma RunOfThree(s: State, events: seq<Event>)
    requires |events| == 3
    ensures Run(s, events) == Next(Next(Next(s, events[0]), events[1]), events[2])
  {
    var n := Next(s, events[0]);
    assert events[1..][1..] == [events[2]];
    assert Run(n, events[1..]) == Run(Next(n, events[1]), [events[2]]);
    assert Run(Next(n, events[1]), [events[2]]) == Run(Next(Next(n, events[1]), events[2]), []);
  }

  /** The promise that the revenue can be claimed after the end holds if and only if some fee below 100 per cent makes
      the top bid payable. */
  lemma RevenuePromise(s: State)
    requires RevenueOpen(s) && ValidatedUpToFee(s.configs)
    ensures (exists events :: BidEscrow(s.auction.topBidder.value) !in Run(s, events).tokens)
            <==> SomeFeePays(s.auction.topBid, s.auction.revenueShares)
  {
    if SomeFeePays(s.auction.topBid, s.auction.revenueShares) {
      var feeBps: nat :| feeBps < 10000 && Payable(s.auction.topBid, feeBps, s.auction.revenueShares);
      PayingRunPays(s, feeBps);
    } else {
      forall events ensures BidEscrow(s.auction.topBidder.value) in Run(s, events).tokens {
        RevenueLockedForever(s, events);
      }
    }
  }
}
