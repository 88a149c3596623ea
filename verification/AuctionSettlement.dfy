/** Settling an ended auction: the lot, the revenue and the losing bids may be claimed in any order. */
module AuctionSettlement {
  import opened Base
  import opened Tokens
  import opened Revenue
  import opened AuctionModel
  import opened AuctionInvariant

  /** An ended auction with a winner whose revenue can be split under the configuration in force. */
  ghost predicate Settling(s: State) {
    && Inv(s) && IsEnded(s.auction, s.clock) && s.auction.topBidder.Some?
    && Wallet(s.configs.feeTreasury) in s.tokens
    && Payable(s.auction.topBid, s.configs.marketFeeRateBps, s.auction.revenueShares)
  }

  /** No event of the run satisfies `p`. */
  predicate Never(events: seq<Event>, p: Action -> bool) {
    forall i :: 0 <= i < |events| ==> !p(events[i].action)
  }

  /** Any instructions of any users, in any order, as long as the authority leaves the configuration alone. */
  predicate ConfigsFixed(events: seq<Event>) {
    Never(events, (a: Action) => a.ChangeConfigs?)
  }

  /** The same without transfers outside the auction. Bids and cancellations may occur; they fail. */
  predicate AuctionOnly(events: seq<Event>) {
    Never(events, (a: Action) => a.ChangeConfigs? || a.ExternalTransfer?)
  }

  /** Nothing is left to claim. */
  ghost predicate Settled(s: State) {
    (forall u :: BidEscrow(u) !in s.tokens) && LotEscrow !in s.lots
  }

  /* Each claim stays enabled until it is taken. */

  /** In a settling state every claim is enabled exactly while its escrow is open. */
  lemma ClaimsEnabled(s: State, signer: User)
    requires Settling(s)
    ensures var top := s.auction.topBidder.value;
            && (ApplyClaimLot(s, top).Ok? <==> LotEscrow in s.lots)
            && (ApplyClaimRevenue(s, signer, top, s.configs.feeTreasury).Ok? <==> BidEscrow(top) in s.tokens)
            && (forall u :: u != top ==> (ApplyCancelBid(s, u).Ok? <==> BidEscrow(u) in s.tokens))
  {
    var top := s.auction.topBidder.value;
    ClaimLotExact(s, top);
    ClaimRevenueExact(s, signer, top, s.configs.feeTreasury);
    forall u | u != top ensures ApplyCancelBid(s, u).Ok? <==> BidEscrow(u) in s.tokens {
      CancelBidExact(s, u);
    }
  }

  /** After the end no bid is accepted and the auction cannot be cancelled. */
  lemma OnlyClaimsSucceed(s: State, action: Action)
    requires Settling(s) && Apply(s, action).Ok?
    ensures !action.MakeBid? && !action.CancelAuction?
  {
    match action
    case MakeBid(bidder, bidAmount, maxAllowed, eligible) => MakeBidExact(s, bidder, bidAmount, maxAllowed, eligible);
    case CancelAuction(signer) => CancelAuctionExact(s, signer);
    case _ =>
  }

  /** The actions that take the lot, and those that take the bid of `u` while `top` is the top bidder. */
  function TakingLot(): Action -> bool {
    (a: Action) => a.ClaimLot?
  }

  function TakingBid(top: User, u: User): Action -> bool {
    (a: Action) => a == CancelBid(u) || (a.ClaimRevenue? && u == top)
  }

  /** Some instruction of the run satisfies `p` and succeeds. */
  predicate Succeeds(s: State, events: seq<Event>, p: Action -> bool)
    decreases |events|
  {
    && events != []
    && (|| (p(events[0].action) && Apply(s.(clock := Later(s.clock, events[0].now)), events[0].action).Ok?)
        || Succeeds(Next(s, events[0]), events[1..], p))
  }

  /** Taking the revenue closes the top bidder's escrow only, and the treasury's wallet stays. */
  lemma ClaimRevenueKeepsOthers(s: State, signer: User, top: User, treasury: User)
    requires Inv(s) && ApplyClaimRevenue(s, signer, top, treasury).Ok?
    ensures var s' := ApplyClaimRevenue(s, signer, top, treasury).value;
            && s' == s.(tokens := s'.tokens, auction := s.auction.(status := Finished))
            && s.auction.topBidder == Some(top) && Wallet(s.configs.feeTreasury) in s'.tokens
            && forall u :: BidEscrow(u) in s'.tokens <==> BidEscrow(u) in s.tokens && u != top
  {
    ClaimRevenueExact(s, signer, top, treasury);
    OpenWalletsExact(s.tokens, s.auction.revenueShares);
    assert Wallet(treasury) in OpenWallets(s.tokens, s.auction.revenueShares).Keys;
    forall u
      ensures BidEscrow(u) in ApplyClaimRevenue(s, signer, top, treasury).value.tokens
              <==> BidEscrow(u) in s.tokens && u != top
    {
      ClaimRevenueEscrows(s, signer, top, treasury, u);
    }
  }

  lemma TransferKeepsClaims(s: State, from: Account, to: Account, amount: nat)
    requires ApplyExternalTransfer(s, from, to, amount).Ok?
    ensures var s' := ApplyExternalTransfer(s, from, to, amount).value;
            s' == s.(tokens := s'.tokens)
            && (forall u :: BidEscrow(u) in s'.tokens <==> BidEscrow(u) in s.tokens)
            && forall u :: Wallet(u) in s.tokens ==> Wallet(u) in s'.tokens
  {
    ExternalTransferKeepsEscrows(s.tokens, from, to, amount);
  }

  /** A successful step of a settling auction takes the claim it names and leaves every other as it is. */
  ghost predicate ClaimTaken(s: State, s': State, action: Action) {
    && Settling(s) && Settling(s') && s'.auction == s.auction.(status := s'.auction.status)
    && (LotEscrow in s'.lots <==> LotEscrow in s.lots && !TakingLot()(action))
    && forall u :: BidEscrow(u) in s'.tokens
                   <==> BidEscrow(u) in s.tokens && !TakingBid(s.auction.topBidder.value, u)(action)
  }

  lemma CancelBidTakes(s: State, u: User)
    requires Settling(s) && ApplyCancelBid(s, u).Ok?
    ensures ClaimTaken(s, ApplyCancelBid(s, u).value, CancelBid(u))
  {
    CancelBidExact(s, u);
    CancelBidKeepsInv(s, u);
  }

  lemma ClaimLotTakes(s: State, u: User)
    requires Settling(s) && ApplyClaimLot(s, u).Ok?
    ensures ClaimTaken(s, ApplyClaimLot(s, u).value, ClaimLot(u))
  {
    ClaimLotExact(s, u);
    LotStepKeepsInv(s, ApplyClaimLot(s, u).value);
  }

  lemma ClaimRevenueTakes(s: State, signer: User, top: User, treasury: User)
    requires Settling(s) && ApplyClaimRevenue(s, signer, top, treasury).Ok?
    ensures ClaimTaken(s, ApplyClaimRevenue(s, signer, top, treasury).value, ClaimRevenue(signer, top, treasury))
  {
    ClaimRevenueKeepsOthers(s, signer, top, treasury);
    ClaimRevenueKeepsInv(s, signer, top, treasury);
  }

  lemma TransferTakesNothing(s: State, from: Account, to: Account, amount: nat)
    requires Settling(s) && ApplyExternalTransfer(s, from, to, amount).Ok?
    ensures ClaimTaken(s, ApplyExternalTransfer(s, from, to, amount).value, ExternalTransfer(from, to, amount))
  {
    TransferKeepsClaims(s, from, to, amount);
    ExternalTransferKeepsInv(s, from, to, amount);
  }

  lemma StepTakesClaim(s: State, action: Action)
    requires Settling(s) && Apply(s, action).Ok? && !action.ChangeConfigs?
    ensures ClaimTaken(s, Apply(s, action).value, action)
  {
    OnlyClaimsSucceed(s, action);
    match action
    case CancelBid(u) => CancelBidTakes(s, u);
    case ClaimLot(u) => ClaimLotTakes(s, u);
    case ClaimRevenue(signer, top, treasury) => ClaimRevenueTakes(s, signer, top, treasury);
    case ExternalTransfer(from, to, amount) => TransferTakesNothing(s, from, to, amount);
    case _ =>
  }

  lemma LaterKeepsSettling(s: State, now: int)
    requires Settling(s)
    ensures Settling(s.(clock := Later(s.clock, now)))
  {
    SameIndex(s, s.(clock := Later(s.clock, now)));
  }

  /** One event: a claim is taken exactly by an action that takes it and succeeds. */
  lemma NextTakesClaim(s: State, e: Event)
    requires Settling(s) && !e.action.ChangeConfigs?
    ensures var n, done := Next(s, e), Apply(s.(clock := Later(s.clock, e.now)), e.action).Ok?;
            && Settling(n) && n.auction == s.auction.(status := n.auction.status)
            && (LotEscrow in n.lots <==> LotEscrow in s.lots && !(TakingLot()(e.action) && done))
            && forall u :: BidEscrow(u) in n.tokens
                 <==> BidEscrow(u) in s.tokens && !(TakingBid(s.auction.topBidder.value, u)(e.action) && done)
  {
    var t := s.(clock := Later(s.clock, e.now));
    LaterKeepsSettling(s, e.now);
    if Apply(t, e.action).Ok? {
      StepTakesClaim(t, e.action);
    }
  }

  lemma RestOfConfigsFixed(events: seq<Event>)
    requires ConfigsFixed(events) && events != []
    ensures !events[0].action.ChangeConfigs? && ConfigsFixed(events[1..])
  {
    assert forall i :: 0 <= i < |events[1..]| ==> events[1..][i] == events[i + 1];
  }

  lemma {:induction false} LotOpenUntilTaken(s: State, events: seq<Event>)
    requires Settling(s) && ConfigsFixed(events)
    ensures var z := Run(s, events);
            && Settling(z) && z.auction == s.auction.(status := z.auction.status)
            && (LotEscrow in z.lots <==> LotEscrow in s.lots && !Succeeds(s, events, TakingLot()))
    decreases |events|
  {
    if events != [] {
      RestOfConfigsFixed(events);
      NextTakesClaim(s, events[0]);
      LotOpenUntilTaken(Next(s, events[0]), events[1..]);
    }
  }

  lemma {:induction false} BidOpenUntilTaken(s: State, events: seq<Event>, u: User)
    requires Settling(s) && ConfigsFixed(events)
    ensures var taking := TakingBid(s.auction.topBidder.value, u);
            BidEscrow(u) in Run(s, events).tokens <==> BidEscrow(u) in s.tokens && !Succeeds(s, events, taking)
    decreases |events|
  {
    if events != [] {
      RestOfConfigsFixed(events);
      NextTakesClaim(s, events[0]);
      BidOpenUntilTaken(Next(s, events[0]), events[1..], u);
    }
  }

  /** Enabled until taken: whatever happens after the end, under a fixed configuration, a claim can be taken exactly
      if it was open and no step that takes it has succeeded yet. The lot by the top bidder, the revenue by any
      signer, a losing bid by its bidder. */
  lemma ClaimsStayEnabled(s: State, events: seq<Event>, signer: User)
    requires Settling(s) && ConfigsFixed(events)
    ensures var z, top := Run(s, events), s.auction.topBidder.value;
            && (ApplyClaimLot(z, top).Ok? <==> LotEscrow in s.lots && !Succeeds(s, events, TakingLot()))
            && (ApplyClaimRevenue(z, signer, top, z.configs.feeTreasury).Ok?
                <==> BidEscrow(top) in s.tokens && !Succeeds(s, events, TakingBid(top, top)))
            && forall u :: u != top ==>
                 (ApplyCancelBid(z, u).Ok? <==> BidEscrow(u) in s.tokens && !Succeeds(s, events, TakingBid(top, u)))
  {
    var z, top := Run(s, events), s.auction.topBidder.value;
    LotOpenUntilTaken(s, events);
    ClaimsEnabled(z, signer);
    BidOpenUntilTaken(s, events, top);
    forall u | u != top
      ensures ApplyCancelBid(z, u).Ok? <==> BidEscrow(u) in s.tokens && !Succeeds(s, events, TakingBid(top, u))
    {
      BidOpenUntilTaken(s, events, u);
    }
  }

  /* The state every order leads to. */

  /** What account `a` still has to receive from losing bids. */
  function Refund(s: State, a: Account): nat {
    if a.Wallet? && s.auction.topBidder != Some(a.owner) && BidEscrow(a.owner) in s.tokens
    then s.tokens[BidEscrow(a.owner)] else 0
  }

  ghost predicate RevenueDue(s: State) {
    s.auction.topBidder.Some? && BidEscrow(s.auction.topBidder.value) in s.tokens
  }

  /** What account `a` still has to receive from the revenue. */
  ghost function RevenueFor(s: State, a: Account): int {
    if RevenueDue(s)
    then Income(a, Wallet(s.configs.feeTreasury), s.auction.topBid, s.configs.marketFeeRateBps,
                s.auction.revenueShares)
    else 0
  }

  ghost function FinalBalance(s: State, a: Account): int {
    if a.BidEscrow? then 0 else Balance(s.tokens, a) + Refund(s, a) + RevenueFor(s, a)
  }

  ghost predicate FinallyOpen(s: State, a: Account) {
    !a.BidEscrow?
    && (a in s.tokens
        || (a.Wallet? && s.auction.topBidder != Some(a.owner) && BidEscrow(a.owner) in s.tokens)
        || (RevenueDue(s) && IsRecipient(s.auction.revenueShares, a)))
  }

  function FinalLotBalance(s: State, a: Account): nat {
    if a == LotEscrow then 0
    else Balance(s.lots, a)
         + if s.auction.topBidder.Some? && a == Wallet(s.auction.topBidder.value) && LotEscrow in s.lots then 1 else 0
  }

  predicate LotFinallyOpen(s: State, a: Account) {
    a != LotEscrow
    && (a in s.lots || (s.auction.topBidder.Some? && a == Wallet(s.auction.topBidder.value) && LotEscrow in s.lots))
  }

  /** `s` and `s'` are headed for the same end. */
  ghost predicate SameEnd(s: State, s': State) {
    && Settling(s) && Settling(s')
    && (forall a :: FinalBalance(s', a) == FinalBalance(s, a))
    && (forall a :: FinallyOpen(s', a) <==> FinallyOpen(s, a))
    && (forall a :: FinalLotBalance(s', a) == FinalLotBalance(s, a))
    && (forall a :: LotFinallyOpen(s', a) <==> LotFinallyOpen(s, a))
    && s'.bids.Keys == s.bids.Keys && s'.pages == s.pages && s'.configs == s.configs
    && s'.auction == s.auction.(status := s'.auction.status)
  }

  /** A refund moves what is due to the bidder from the escrow to the wallet, so the end does not change. */
  lemma RefundSameBalances(s: State, s': State, u: User, a: Account)
    requires s.auction.topBidder != Some(u) && BidEscrow(u) in s.tokens
    requires s'.tokens == s.tokens[Wallet(u) := Balance(s.tokens, Wallet(u)) + s.tokens[BidEscrow(u)]] - {BidEscrow(u)}
    requires s'.auction == s.auction.(status := s'.auction.status) && s'.configs == s.configs
    ensures FinalBalance(s', a) == FinalBalance(s, a)
    ensures FinallyOpen(s', a) <==> FinallyOpen(s, a)
  {
    assert RevenueDue(s') <==> RevenueDue(s);
    assert RevenueFor(s', a) == RevenueFor(s, a);
    if a.Wallet? && a.owner != u {
      assert BidEscrow(a.owner) in s'.tokens <==> BidEscrow(a.owner) in s.tokens;
    }
  }

  lemma CancelBidSameEnd(s: State, u: User)
    requires Settling(s) && ApplyCancelBid(s, u).Ok?
    ensures SameEnd(s, ApplyCancelBid(s, u).value)
  {
    CancelBidExact(s, u);
    CancelBidTakes(s, u);
    var s' := ApplyCancelBid(s, u).value;
    forall a
      ensures FinalBalance(s', a) == FinalBalance(s, a) && (FinallyOpen(s', a) <==> FinallyOpen(s, a))
      ensures FinalLotBalance(s', a) == FinalLotBalance(s, a) && (LotFinallyOpen(s', a) <==> LotFinallyOpen(s, a))
    {
      RefundSameBalances(s, s', u, a);
    }
  }

  lemma ClaimLotSameEnd(s: State, u: User)
    requires Settling(s) && ApplyClaimLot(s, u).Ok?
    ensures SameEnd(s, ApplyClaimLot(s, u).value)
  {
    ClaimLotExact(s, u);
    LotStepKeepsInv(s, ApplyClaimLot(s, u).value);
  }

  /** A revenue claim turns what is due from it into balances. */
  lemma RevenueSameBalances(s: State, s': State, u: User, a: Account)
    requires Settling(s) && Inv(s') && s.auction.topBidder == Some(u) && BidEscrow(u) in s.tokens
    requires BidEscrow(u) !in s'.tokens && s'.bids == s.bids && s'.configs == s.configs
    requires s'.auction == s.auction.(status := s'.auction.status)
    requires a.BidEscrow? || (a in s'.tokens <==> a in s.tokens || IsRecipient(s.auction.revenueShares, a))
    requires a in s'.tokens && !a.BidEscrow? ==> s'.tokens[a] == Balance(s.tokens, a) + RevenueFor(s, a)
    requires a.Wallet? && a.owner != u ==> (BidEscrow(a.owner) in s'.tokens <==> BidEscrow(a.owner) in s.tokens)
    ensures FinalBalance(s', a) == FinalBalance(s, a)
    ensures FinallyOpen(s', a) <==> FinallyOpen(s, a)
  {
    if a !in s'.tokens && !a.BidEscrow? {
      NotPaid(s, a);
    }
    if a.Wallet? && a.owner != u {
      EscrowUntouched(s, s', a.owner, u);
    }
  }

  lemma ClaimRevenueSameEnd(s: State, signer: User, u: User, treasury: User)
    requires Settling(s) && ApplyClaimRevenue(s, signer, u, treasury).Ok?
    ensures SameEnd(s, ApplyClaimRevenue(s, signer, u, treasury).value)
  {
    ClaimRevenueExact(s, signer, u, treasury);
    ClaimRevenueTakes(s, signer, u, treasury);
    var s' := ApplyClaimRevenue(s, signer, u, treasury).value;
    forall a ensures FinalBalance(s', a) == FinalBalance(s, a) && (FinallyOpen(s', a) <==> FinallyOpen(s, a)) {
      OpenWalletsOpens(s.tokens, s.auction.revenueShares, a);
      assert a in s'.tokens <==> a in s'.tokens.Keys;
      RevenueSameBalances(s, s', u, a);
    }
  }

  lemma EscrowUntouched(s: State, s': State, w: User, u: User)
    requires Inv(s) && Inv(s') && w != u && s'.bids == s.bids
    requires BidEscrow(w) in s'.tokens <==> BidEscrow(w) in s.tokens
    ensures BidEscrow(w) in s.tokens ==> s'.tokens[BidEscrow(w)] == s.tokens[BidEscrow(w)]
  {
  }

  lemma NotPaid(s: State, a: Account)
    requires Settling(s) && a !in s.tokens && !IsRecipient(s.auction.revenueShares, a)
    ensures RevenueFor(s, a) == 0
  {
    if RevenueDue(s) {
      var net := s.auction.topBid - Floor(s.auction.topBid, s.configs.marketFeeRateBps);
      NothingReceived(s.auction.revenueShares, Payouts(s.auction.revenueShares, net, net), a);
    }
  }

  lemma SettlementStepSameEnd(s: State, action: Action)
    requires Settling(s) && !action.ChangeConfigs? && !action.ExternalTransfer? && Apply(s, action).Ok?
    ensures SameEnd(s, Apply(s, action).value)
  {
    OnlyClaimsSucceed(s, action);
    match action
    case CancelBid(u) => CancelBidSameEnd(s, u);
    case ClaimLot(u) => ClaimLotSameEnd(s, u);
    case ClaimRevenue(signer, u, treasury) => ClaimRevenueSameEnd(s, signer, u, treasury);
    case _ =>
  }

  lemma LaterSameEnd(s: State, now: int)
    requires Settling(s)
    ensures SameEnd(s, s.(clock := Later(s.clock, now)))
  {
    SameIndex(s, s.(clock := Later(s.clock, now)));
  }

  lemma SameEndTransitive(s: State, t: State, u: State)
    requires SameEnd(s, t) && SameEnd(t, u)
    ensures SameEnd(s, u)
  {
  }

  lemma NextSameEnd(s: State, e: Event)
    requires Settling(s) && !e.action.ChangeConfigs? && !e.action.ExternalTransfer?
    ensures SameEnd(s, Next(s, e))
  {
    var t := s.(clock := Later(s.clock, e.now));
    LaterSameEnd(s, e.now);
    if Apply(t, e.action).Ok? {
      SettlementStepSameEnd(t, e.action);
      SameEndTransitive(s, t, Next(s, e));
    }
  }

  lemma {:induction false} SettlementRunSameEnd(s: State, events: seq<Event>)
    requires Settling(s) && AuctionOnly(events)
    ensures SameEnd(s, Run(s, events))
    decreases |events|
  {
    if events != [] {
      var n, rest := Next(s, events[0]), events[1..];
      assert forall i :: 0 <= i < |rest| ==> rest[i] == events[i + 1];
      NextSameEnd(s, events[0]);
      SettlementRunSameEnd(n, rest);
      SameEndTransitive(s, n, Run(n, rest));
    }
  }

  /** Once nothing is left to claim, the ledgers are the final ones and the auction is finished. */
  lemma SettledIsFinal(s: State)
    requires Settling(s) && Settled(s)
    ensures s.auction.status.Finished?
    ensures forall a :: (a in s.tokens <==> FinallyOpen(s, a)) && Balance(s.tokens, a) == FinalBalance(s, a)
    ensures forall a :: (a in s.lots <==> LotFinallyOpen(s, a)) && Balance(s.lots, a) == FinalLotBalance(s, a)
    ensures forall u :: u in s.bids ==>
              s.bids[u] == AuctionBid(true, u, if s.auction.topBidder == Some(u) then s.auction.topBid else 0)
  {
  }

  lemma SameBids(s: State, s': State)
    requires Settling(s) && Settled(s) && Settling(s') && Settled(s')
    requires s.bids.Keys == s'.bids.Keys && s.auction.topBidder == s'.auction.topBidder
    requires s.auction.topBid == s'.auction.topBid
    ensures s.bids == s'.bids
  {
    SettledIsFinal(s);
    SettledIsFinal(s');
    forall u | u in s.bids ensures u in s'.bids && s.bids[u] == s'.bids[u] {
      assert u in s'.bids.Keys;
    }
  }

  /** Confluence: any two orders in which all claims are taken, with any failing instructions in between, reach
      the same state, with every escrow closed and the auction finished; only the clock may differ. */
  lemma SettlementConfluence(s: State, order1: seq<Event>, order2: seq<Event>)
    requires Settling(s) && AuctionOnly(order1) && AuctionOnly(order2)
    requires Settled(Run(s, order1)) && Settled(Run(s, order2))
    ensures Run(s, order1).(clock := 0) == Run(s, order2).(clock := 0)
    ensures Run(s, order1).auction.status.Finished?
  {
    var z1, z2 := Run(s, order1), Run(s, order2);
    SettlementRunSameEnd(s, order1);
    SettlementRunSameEnd(s, order2);
    SettledIsFinal(z1);
    SettledIsFinal(z2);
    SameLedger(z1.tokens, z2.tokens);
    SameLedger(z1.lots, z2.lots);
    SameBids(z1, z2);
  }

  /* With transfers outside the auction. */

  /** What a successful transfer outside the auction adds to account `a`. */
  function Flow(s: State, e: Event, a: Account): int {
    if e.action.ExternalTransfer? && Apply(s.(clock := Later(s.clock, e.now)), e.action).Ok? then
      (if a == e.action.to then e.action.amount else 0) - (if a == e.action.from then e.action.amount else 0)
    else 0
  }

  function NetFlow(s: State, events: seq<Event>, a: Account): int
    decreases |events|
  {
    if events == [] then 0 else Flow(s, events[0], a) + NetFlow(Next(s, events[0]), events[1..], a)
  }

  lemma SameDue(s: State, s': State, a: Account)
    requires s' == s.(tokens := s'.tokens)
    requires forall u :: BidEscrow(u) in s'.tokens <==> BidEscrow(u) in s.tokens
    requires forall u :: BidEscrow(u) in s.tokens ==> s'.tokens[BidEscrow(u)] == s.tokens[BidEscrow(u)]
    ensures Refund(s', a) == Refund(s, a) && RevenueFor(s', a) == RevenueFor(s, a)
  {
  }

  lemma TransferMovesBalance(m: Ledger, from: Account, to: Account, amount: nat, a: Account)
    requires ExternalTransferOf(m, from, to, amount).Ok?
    ensures var r := ExternalTransferOf(m, from, to, amount).value;
            Balance(r, a) == Balance(m, a) + (if a == to then amount else 0) - (if a == from then amount else 0)
    ensures a.BidEscrow? ==> a != to && a != from
  {
    TransferExact(Open(m, to), from, to, amount);
    OpenCloseExact(m, to);
  }

  /** A transfer outside the auction shifts final balances by its amount and nothing else. */
  lemma TransferShiftsEnd(s: State, from: Account, to: Account, amount: nat, a: Account)
    requires ApplyExternalTransfer(s, from, to, amount).Ok?
    ensures var s' := ApplyExternalTransfer(s, from, to, amount).value;
            FinalBalance(s', a)
            == FinalBalance(s, a) + (if a == to then amount else 0) - (if a == from then amount else 0)
  {
    ExternalTransferKeepsEscrows(s.tokens, from, to, amount);
    TransferMovesBalance(s.tokens, from, to, amount, a);
    SameDue(s, ApplyExternalTransfer(s, from, to, amount).value, a);
  }

  lemma LaterShiftsNothing(s: State, now: int, a: Account)
    ensures var t := s.(clock := Later(s.clock, now));
            FinalBalance(t, a) == FinalBalance(s, a) && FinalLotBalance(t, a) == FinalLotBalance(s, a)
  {
  }

  lemma TransferEventShiftsEnd(s: State, e: Event, a: Account)
    requires e.action.ExternalTransfer?
    ensures FinalBalance(Next(s, e), a) == FinalBalance(s, a) + Flow(s, e, a)
    ensures FinalLotBalance(Next(s, e), a) == FinalLotBalance(s, a)
  {
    var t := s.(clock := Later(s.clock, e.now));
    LaterShiftsNothing(s, e.now, a);
    if Apply(t, e.action).Ok? {
      TransferShiftsEnd(t, e.action.from, e.action.to, e.action.amount, a);
    }
  }

  lemma NextShiftsEnd(s: State, e: Event, a: Account)
    requires Settling(s) && !e.action.ChangeConfigs?
    ensures Settling(Next(s, e))
    ensures FinalBalance(Next(s, e), a) == FinalBalance(s, a) + Flow(s, e, a)
    ensures FinalLotBalance(Next(s, e), a) == FinalLotBalance(s, a)
  {
    if e.action.ExternalTransfer? {
      NextTakesClaim(s, e);
      TransferEventShiftsEnd(s, e, a);
    } else {
      NextSameEnd(s, e);
    }
  }

  lemma {:induction false} RunShiftsEnd(s: State, events: seq<Event>, a: Account)
    requires Settling(s) && ConfigsFixed(events)
    ensures Settling(Run(s, events))
    ensures FinalBalance(Run(s, events), a) == FinalBalance(s, a) + NetFlow(s, events, a)
    ensures FinalLotBalance(Run(s, events), a) == FinalLotBalance(s, a)
    decreases |events|
  {
    if events != [] {
      RestOfConfigsFixed(events);
      NextShiftsEnd(s, events[0], a);
      RunShiftsEnd(Next(s, events[0]), events[1..], a);
    }
  }

  /** Where everything ends up, whatever happens in between: each losing bidder is refunded the escrowed bid,
      treasury and recipients have their income from the top bid, the lot is with the top bidder, and all that
      else moved is what was transferred outside the auction. */
  lemma SettlementOutcome(s: State, events: seq<Event>, u: User)
    requires Settling(s) && ConfigsFixed(events) && Settled(Run(s, events))
    ensures var z, top := Run(s, events), s.auction.topBidder.value;
            && Balance(z.tokens, Wallet(u)) == Balance(s.tokens, Wallet(u)) + NetFlow(s, events, Wallet(u))
                 + (if u != top then Balance(s.tokens, BidEscrow(u)) else 0)
                 + (if BidEscrow(top) in s.tokens
                    then Income(Wallet(u), Wallet(s.configs.feeTreasury), s.auction.topBid,
                                s.configs.marketFeeRateBps, s.auction.revenueShares)
                    else 0)
            && Balance(z.lots, Wallet(u))
               == Balance(s.lots, Wallet(u)) + if u == top && LotEscrow in s.lots then 1 else 0
  {
    RunShiftsEnd(s, events, Wallet(u));
    SettledIsFinal(Run(s, events));
  }

  /* Such an order exists. */

  ghost function OpenBids(s: State): set<User> {
    set u | u in s.bids && BidEscrow(u) in s.tokens
  }

  ghost function ClaimsLeft(s: State): nat {
    |OpenBids(s)| + if LotEscrow in s.lots then 1 else 0
  }

  lemma OneLess(a: set<User>, b: set<User>, u: User)
    requires u in a && forall w :: w in b <==> w in a && w != u
    ensures |b| == |a| - 1
  {
    assert b == a - {u};
  }

  lemma TakingAClaim(s: State, action: Action)
    requires Settling(s) && !action.ChangeConfigs? && !action.ExternalTransfer? && Apply(s, action).Ok?
    ensures ClaimsLeft(Apply(s, action).value) == ClaimsLeft(s) - 1
  {
    OnlyClaimsSucceed(s, action);
    match action
    case CancelBid(u) => TakingABid(s, u);
    case ClaimLot(u) =>
      ClaimLotExact(s, u);
      assert OpenBids(Apply(s, action).value) == OpenBids(s);
    case ClaimRevenue(signer, u, treasury) => TakingTheRevenue(s, signer, u, treasury);
    case _ =>
  }

  lemma TakingABid(s: State, u: User)
    requires Settling(s) && ApplyCancelBid(s, u).Ok?
    ensures ClaimsLeft(ApplyCancelBid(s, u).value) == ClaimsLeft(s) - 1
  {
    CancelBidExact(s, u);
    var s' := ApplyCancelBid(s, u).value;
    forall w ensures w in OpenBids(s') <==> w in OpenBids(s) && w != u {
    }
    OneLess(OpenBids(s), OpenBids(s'), u);
  }

  lemma TakingTheRevenue(s: State, signer: User, u: User, treasury: User)
    requires Settling(s) && ApplyClaimRevenue(s, signer, u, treasury).Ok?
    ensures ClaimsLeft(ApplyClaimRevenue(s, signer, u, treasury).value) == ClaimsLeft(s) - 1
  {
    ClaimRevenueExact(s, signer, u, treasury);
    var s' := ApplyClaimRevenue(s, signer, u, treasury).value;
    forall w ensures w in OpenBids(s') <==> w in OpenBids(s) && w != u {
      OpenWalletsOpens(s.tokens, s.auction.revenueShares, BidEscrow(w));
    }
    OneLess(OpenBids(s), OpenBids(s'), u);
  }

  lemma SomeClaim(s: State) returns (action: Action)
    requires Settling(s) && !Settled(s)
    ensures !action.ChangeConfigs? && !action.ExternalTransfer? && Apply(s, action).Ok?
  {
    ClaimsEnabled(s, s.auction.creator);
    var top := s.auction.topBidder.value;
    if LotEscrow in s.lots {
      action := ClaimLot(top);
    } else {
      var u :| BidEscrow(u) in s.tokens;
      action := if u == top then ClaimRevenue(s.auction.creator, top, s.configs.feeTreasury) else CancelBid(u);
    }
  }

  /** One instruction that takes one of the claims. */
  lemma TakeSomeClaim(s: State) returns (e: Event)
    requires Settling(s) && !Settled(s)
    ensures !e.action.ChangeConfigs? && !e.action.ExternalTransfer?
    ensures Settling(Next(s, e)) && ClaimsLeft(Next(s, e)) == ClaimsLeft(s) - 1
  {
    var action := SomeClaim(s);
    ProcessedNow(s, action);
    TakingAClaim(s, action);
    SettlementStepSameEnd(s, action);
    e := Event(s.clock, action);
  }

  lemma OrderExtended(s: State, e: Event, rest: seq<Event>)
    requires AuctionOnly(rest) && !e.action.ChangeConfigs? && !e.action.ExternalTransfer?
    ensures AuctionOnly([e] + rest) && Run(s, [e] + rest) == Run(Next(s, e), rest)
  {
    assert ([e] + rest)[1..] == rest;
  }

  lemma NothingLeft(s: State)
    requires Settled(s)
    ensures ClaimsLeft(s) == 0
  {
    assert OpenBids(s) == {};
  }

  /** From every settling state all claims can be taken: as many instructions as there are claims complete it. */
  lemma {:induction false} SettlementCompletes(s: State) returns (order: seq<Event>)
    requires Settling(s)
    ensures AuctionOnly(order) && |order| == ClaimsLeft(s) && Settled(Run(s, order))
    decreases ClaimsLeft(s)
  {
    if Settled(s) {
      order := [];
      NothingLeft(s);
    } else {
      var e := TakeSomeClaim(s);
      var rest := SettlementCompletes(Next(s, e));
      order := [e] + rest;
      OrderExtended(s, e, rest);
    }
  }
}
