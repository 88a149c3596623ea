/** Runs of small raffles that show where the program does not do what its documentation says. */
module RaffleExamples {
  import opened Base
  import opened GlobalConfigs
  import opened Tokens
  import opened Revenue
  import opened WinnerDraw
  import opened ClaimMask
  import opened RaffleModel
  import opened RaffleInvariant
  import opened RaffleTheorems
  import opened RaffleSettlement
  import opened RafflePromises

  /** Seller 0 raffles NFTs for a day at 1000 units a ticket. */
  function Terms(numNfts: U8, numGroups: nat, shares: seq<Share>): RaffleTerms {
    RaffleTerms(0, 0, 86400, 100, 1000, numNfts, numGroups, shares, true, 0, 2)
  }

  /** Buyer 1 can afford one ticket; the treasury is user 2. */
  const TOKENS: Ledger := map[Wallet(0) := 0, Wallet(1) := 1000, Wallet(2) := 0]
  const NFTS: Ledger := map[Wallet(0) := 2]

  predicate SmallConfigs(c: Configs) {
    && c.raffleCreationEnabled && c.totalRaffles == 0 && c.minRaffleDuration <= 86400 <= c.maxRaffleDuration
    && c.minRaffleTicketSupply <= 100 <= c.maxRaffleTicketSupply && c.maxRaffledNfts >= 2
    && c.numKeysPerIndexPage == 100 && c.feeTreasury == 2 && c.marketFeeRateBps == 500
  }

  function Created(c: Configs, numNfts: U8, numGroups: nat, shares: seq<Share>): Result<State> {
    CreateRaffle(c, 0, Terms(numNfts, numGroups, shares), TOKENS, NFTS)
  }

  lemma CreatedFields(c: Configs, numNfts: U8, numGroups: nat, shares: seq<Share>)
    requires SmallConfigs(c) && 1 <= numNfts <= 2 && ShareSum(shares) == 10000
    requires 33 * numGroups + 34 * |shares| <= 597
    ensures Created(c, numNfts, numGroups, shares).Ok?
    ensures var s := Created(c, numNfts, numGroups, shares).value;
            && s.clock == 0 && s.configs == c.(totalRaffles := 1) && s.positions == map[] && s.stats == []
            && s.tokens == TOKENS[RevenueEscrow := 0]
            && s.raffle == Raffle(0, 0, numNfts, 0, 0, 86400, 100, 1000, 0, numGroups, shares, InProgress, [], 0)
  {
  }

  lemma CreatedAsAsked(c: Configs, numNfts: U8, numGroups: nat, shares: seq<Share>)
    requires SmallConfigs(c) && 1 <= numNfts <= 2 && ShareSum(shares) == 10000
    requires 33 * numGroups + 34 * |shares| <= 597
    ensures Created(c, numNfts, numGroups, shares).Ok? && Inv(Created(c, numNfts, numGroups, shares).value)
    ensures var s := Created(c, numNfts, numGroups, shares).value;
            && s.clock == 0 && s.configs == c.(totalRaffles := 1) && s.positions == map[] && s.stats == []
            && s.tokens == TOKENS[RevenueEscrow := 0]
            && s.raffle == Raffle(0, 0, numNfts, 0, 0, 86400, 100, 1000, 0, numGroups, shares, InProgress, [], 0)
  {
    CreatedFields(c, numNfts, numGroups, shares);
    CreateEstablishesInv(c, 0, Terms(numNfts, numGroups, shares), TOKENS, NFTS);
  }

  /** Buyer 1 buys one ticket. */
  function Sold(c: Configs, numNfts: U8, numGroups: nat, shares: seq<Share>): State
    requires Created(c, numNfts, numGroups, shares).Ok?
  {
    Next(Created(c, numNfts, numGroups, shares).value, Event(1, BuyTickets(1, 1, true)))
  }

  lemma PurchaseAcceptable(c: Configs, s: State)
    requires SmallConfigs(c) && Inv(s) && s.raffle.creator == 0 && s.raffle.ticketPrice == 1000
    requires s.raffle.ticketSold == 0 && s.raffle.ticketSupply == 100 && s.raffle.expiredTimestamp == 86400
    requires s.clock == 0 && s.raffle.status.InProgress? && s.tokens == TOKENS[RevenueEscrow := 0]
    ensures Inv(s.(clock := 1)) && BuyAcceptable(s.(clock := 1), 1, 1) && Cost(1, 1000) == 1000
  {
    LaterKeepsInv(s, 1);
    assert s.(clock := 1) == s.(clock := Later(s.clock, 1));
  }

  lemma OneTicketSold(c: Configs, numNfts: U8, numGroups: nat, shares: seq<Share>)
    requires SmallConfigs(c) && 1 <= numNfts <= 2 && ShareSum(shares) == 10000
    requires 33 * numGroups + 34 * |shares| <= 597
    ensures Created(c, numNfts, numGroups, shares).Ok? && Inv(Sold(c, numNfts, numGroups, shares))
    ensures var s := Sold(c, numNfts, numGroups, shares);
            && s.clock == 1 && s.stats == [1] && RewardsEscrow in s.nfts && s.configs == c.(totalRaffles := 1)
            && s.tokens == TOKENS[Wallet(1) := 0][RevenueEscrow := 1000]
            && s.raffle == Raffle(0, 0, numNfts, 1, 0, 86400, 100, 1000, 1, numGroups, shares, InProgress, [], 0)
  {
    CreatedAsAsked(c, numNfts, numGroups, shares);
    FirstPurchase(c, Created(c, numNfts, numGroups, shares).value);
  }

  lemma FirstPurchase(c: Configs, s: State)
    requires SmallConfigs(c) && Inv(s) && s.raffle.creator == 0 && s.raffle.ticketPrice == 1000
    requires s.raffle.ticketSold == 0 && s.raffle.ticketSupply == 100 && s.raffle.expiredTimestamp == 86400
    requires s.clock == 0 && s.raffle.status.InProgress? && s.tokens == TOKENS[RevenueEscrow := 0]
    requires s.positions == map[] && s.stats == [] && s.raffle.numTicketPositions == 0
    ensures var s' := Next(s, Event(1, BuyTickets(1, 1, true)));
            && Inv(s') && s'.clock == 1 && s'.stats == [1] && RewardsEscrow in s'.nfts && s'.configs == s.configs
            && s'.tokens == TOKENS[Wallet(1) := 0][RevenueEscrow := 1000]
            && s'.raffle == s.raffle.(ticketSold := 1, numTicketPositions := 1)
  {
    var t := s.(clock := 1);
    PurchaseAcceptable(c, s);
    assert t == s.(clock := Later(s.clock, 1));
    BuyTicketsExact(t, 1, 1, true);
    BuyTicketsKeepsInv(t, 1, 1, true);
    var s' := ApplyBuyTickets(t, 1, 1, true).value;
    TicketPaid(t, s');
    NoClaimsBeforeDraw(s');
  }

  lemma TicketPaid(s: State, s': State)
    requires TicketsBought(s, s', 1, 1) && s.raffle.ticketPrice == 1000 && s.positions == map[] && s.stats == []
    requires s.tokens == TOKENS[RevenueEscrow := 0]
    ensures s'.stats == [1] && s'.tokens == TOKENS[Wallet(1) := 0][RevenueEscrow := 1000]
  {
    assert Cost(1, 1000) == 1000;
  }

  /** All to the one recipient, user 3. */
  const ALL_TO_ONE := [Share(3, 10000)]

  lemma AllToOne()
    ensures ShareSum(ALL_TO_ONE) == 10000
  {
    assert ShareSum(ALL_TO_ONE) == 10000 + ShareSum([]);
  }

  lemma StrandedByBuyers(s: State)
    requires Inv(s) && s.raffle.status.InProgress? && s.raffle.expiredTimestamp == 86400 && s.raffle.creator == 0
    requires s.raffle.ticketSold == 1 && s.raffle.numTicketPositions == 1 && s.raffle.numRaffledNfts == 2
    requires RewardsEscrow in s.nfts
    ensures var z := Next(s, Event(90000, ClaimRemaining(0)));
            Stranded(z) && ApplyClaimRemaining(z, 0) == Err(RaffleNotMade)
  {
    LaterKeepsInv(s, 90000);
    NothingRemains(s.(clock := Later(s.clock, 90000)), 0);
  }

  /** Two rewards, one buyer, one ticket: the raffle is stranded. The creator's step for leftover rewards, meant for
      this situation, fails. */
  lemma TooFewBuyersStrands(c: Configs)
    requires SmallConfigs(c)
    ensures Created(c, 2, 0, ALL_TO_ONE).Ok?
    ensures var z := Next(Sold(c, 2, 0, ALL_TO_ONE), Event(90000, ClaimRemaining(0)));
            Stranded(z) && ApplyClaimRemaining(z, 0) == Err(RaffleNotMade)
  {
    AllToOne();
    OneTicketSold(c, 2, 0, ALL_TO_ONE);
    StrandedByBuyers(Sold(c, 2, 0, ALL_TO_ONE));
  }

  /** All to user 3, with two more recipients who get nothing. */
  const SPLIT := [Share(3, 10000), Share(4, 0), Share(5, 0)]

  lemma SplitAddsUp()
    ensures ShareSum(SPLIT) == 10000
  {
    assert SPLIT[1..] == [Share(4, 0), Share(5, 0)] && SPLIT[1..][1..] == [Share(5, 0)];
    assert ShareSum([Share(5, 0)]) == 0 + ShareSum([]);
    assert ShareSum([Share(4, 0), Share(5, 0)]) == 0 + ShareSum([Share(5, 0)]);
  }

  /** One reward, one buyer, one ticket, fifteen groups and three recipients: everything for a draw is there except
      room in the account for the two bytes of the winner's id, so every draw fails and the raffle is stranded. */
  lemma NoRoomForWinnerStrands(c: Configs, signer: User, draws: seq<Draw>)
    requires SmallConfigs(c)
    ensures Created(c, 1, 15, SPLIT).Ok?
    ensures var z := Next(Sold(c, 1, 15, SPLIT), Event(90000, MakeRaffle(signer, draws)));
            && Stranded(z) && CountsFitTable(z) && z.raffle.numRaffledNfts == z.raffle.numTicketPositions
            && ApplyMakeRaffle(z, signer, draws).Err?
  {
    SplitAddsUp();
    OneTicketSold(c, 1, 15, SPLIT);
    var s := Sold(c, 1, 15, SPLIT);
    var t := s.(clock := Later(s.clock, 90000));
    LaterKeepsInv(s, 90000);
    MakeRaffleExact(t, signer, draws);
    assert !WinnersFit(t);
    assert Next(s, Event(90000, MakeRaffle(signer, draws))) == t;
  }

  /** One reward, one buyer: the raffle is drawn. */
  lemma DrawHappens(c: Configs) returns (draws: seq<Draw>)
    requires SmallConfigs(c)
    ensures Created(c, 1, 0, ALL_TO_ONE).Ok?
    ensures var s := Sold(c, 1, 0, ALL_TO_ONE);
            var z := Next(s, Event(90000, MakeRaffle(c.authority, draws)));
            && Inv(z) && z.raffle.status.Finished?
            && z == s.(clock := 90000, raffle := s.raffle.(status := Finished, winnerIds := z.raffle.winnerIds))
  {
    AllToOne();
    OneTicketSold(c, 1, 0, ALL_TO_ONE);
    var s := Sold(c, 1, 0, ALL_TO_ONE);
    var t := s.(clock := Later(s.clock, 90000));
    LaterKeepsInv(s, 90000);
    WhenDrawCanSucceed(t);
    assert EnoughForDraw(t);
    draws :| ApplyMakeRaffle(t, c.authority, draws).Ok?;
    MakeRaffleExact(t, c.authority, draws);
    MakeRaffleKeepsInv(t, c.authority, draws);
  }

  lemma OneRecipientIncome(a: Account)
    ensures Payable(1000, 500, ALL_TO_ONE)
    ensures Income(a, Wallet(0), 1000, 500, ALL_TO_ONE)
         == (if a == Wallet(0) then 50 else 0) + (if a == Wallet(3) then 950 else 0)
  {
    AllToOne();
    assert Floor(1000, 500) == 50;
    assert ALL_TO_ONE[1..] == [];
    assert Payouts(ALL_TO_ONE, 950, 950) == [950] + Payouts([], 950, 0);
    assert Payouts(ALL_TO_ONE, 950, 950)[1..] == [];
    assert Received([], [], a) == 0;
  }

  lemma FeeToSellerAt(t: State, a: Account)
    requires Inv(t) && t.raffle.creator == 0 && t.raffle.status.Finished? && t.raffle.revenueShares == ALL_TO_ONE
    requires t.raffle.ticketSold == 1 && t.raffle.ticketPrice == 1000 && t.configs.marketFeeRateBps == 500
    requires RevenueEscrow in t.tokens && Wallet(0) in t.tokens && (a == Wallet(3) || (a in t.tokens && a.Wallet?))
    ensures var r := ApplyClaimRevenue(t, 0, 0);
            && r.Ok? && RevenueEscrow !in r.value.tokens && r.value.configs == t.configs
            && Balance(r.value.tokens, a)
               == Balance(t.tokens, a) + (if a == Wallet(0) then 50 else 0) + (if a == Wallet(3) then 950 else 0)
  {
    assert Cost(1, 1000) == 1000;
    OneRecipientIncome(a);
    ClaimRevenueExact(t, 0, 0);
    OpenWalletsOpens(t.tokens, ALL_TO_ONE, a);
    assert Wallet(ALL_TO_ONE[0].receiver) == Wallet(3);
    var after := ApplyClaimRevenue(t, 0, 0).value.tokens;
    assert a in after.Keys && RevenueEscrow !in after.Keys;
  }

  lemma FeeToSeller(t: State)
    requires Inv(t) && t.raffle.creator == 0 && t.raffle.status.Finished? && t.raffle.revenueShares == ALL_TO_ONE
    requires t.raffle.ticketSold == 1 && t.raffle.ticketPrice == 1000 && t.configs.marketFeeRateBps == 500
    requires t.tokens == TOKENS[Wallet(1) := 0][RevenueEscrow := 1000]
    ensures var r := ApplyClaimRevenue(t, 0, 0);
            && r.Ok? && RevenueEscrow !in r.value.tokens && r.value.configs == t.configs
            && Balance(r.value.tokens, Wallet(0)) == 50 && Balance(r.value.tokens, Wallet(2)) == 0
            && Balance(r.value.tokens, Wallet(3)) == 950
  {
    FeeToSellerAt(t, Wallet(0));
    FeeToSellerAt(t, Wallet(2));
    FeeToSellerAt(t, Wallet(3));
  }

  lemma FeeToSellerNext(drawn: State)
    requires Inv(drawn) && drawn.raffle.creator == 0 && drawn.raffle.status.Finished?
    requires drawn.raffle.revenueShares == ALL_TO_ONE && drawn.configs.marketFeeRateBps == 500
    requires drawn.raffle.ticketSold == 1 && drawn.raffle.ticketPrice == 1000
    requires drawn.tokens == TOKENS[Wallet(1) := 0][RevenueEscrow := 1000]
    ensures var z := Next(drawn, Event(90001, ClaimRevenue(0, 0)));
            && RevenueEscrow !in z.tokens && z.configs == drawn.configs
            && Balance(z.tokens, Wallet(0)) == 50 && Balance(z.tokens, Wallet(2)) == 0
            && Balance(z.tokens, Wallet(3)) == 950
  {
    LaterKeepsInv(drawn, 90001);
    FeeToSeller(drawn.(clock := Later(drawn.clock, 90001)));
  }

  /** The configured treasury is user 2. The seller, user 0, claims the proceeds of 1000 naming its own wallet and
      receives the fee of 50; the treasury receives nothing. */
  lemma SellerTakesTheFee(c: Configs) returns (draws: seq<Draw>)
    requires SmallConfigs(c)
    ensures Created(c, 1, 0, ALL_TO_ONE).Ok?
    ensures var drawn := Next(Sold(c, 1, 0, ALL_TO_ONE), Event(90000, MakeRaffle(c.authority, draws)));
            var z := Next(drawn, Event(90001, ClaimRevenue(0, 0)));
            && RevenueEscrow in drawn.tokens && RevenueEscrow !in z.tokens && z.configs.feeTreasury == 2
            && Balance(z.tokens, Wallet(0)) == 50 && Balance(z.tokens, Wallet(2)) == 0
            && Balance(z.tokens, Wallet(3)) == 950
  {
    draws := DrawHappens(c);
    OneTicketSold(c, 1, 0, ALL_TO_ONE);
    var drawn := Next(Sold(c, 1, 0, ALL_TO_ONE), Event(90000, MakeRaffle(c.authority, draws)));
    FeeToSellerNext(drawn);
  }

  /* More rewards than flags. */

  /** Sixty-five rewards at one unit a ticket, and sixty-five users who own one unit each. */
  const MANY_TERMS := RaffleTerms(0, 0, 86400, 100, 1, 65, 0, ALL_TO_ONE, true, 0, 65)
  const MANY_TOKENS: Ledger := map u: User | 1 <= u <= 65 :: Wallet(u) := 1
  const MANY_NFTS: Ledger := map[Wallet(0) := 65]

  predicate ManyConfigs(c: Configs) {
    && c.raffleCreationEnabled && c.totalRaffles == 0 && c.minRaffleDuration <= 86400 <= c.maxRaffleDuration
    && c.minRaffleTicketSupply <= 100 <= c.maxRaffleTicketSupply && c.maxRaffledNfts >= 65
    && c.numKeysPerIndexPage == 100
  }

  function ManyCreated(c: Configs): Result<State> {
    CreateRaffle(c, 0, MANY_TERMS, MANY_TOKENS, MANY_NFTS)
  }

  /** Users `k + 1` to 65 buy one ticket each. */
  function Purchases(k: nat): seq<Event>
    requires k <= 65
    decreases 65 - k
  {
    if k == 65 then [] else [Event(1, BuyTickets(k + 1, 1, true))] + Purchases(k + 1)
  }

  /** The raffle after the purchases of users 1 to `k`. */
  ghost predicate SoldTo(c: Configs, s: State, k: nat) {
    && Inv(s) && 0 <= s.clock <= 1 && s.configs == c.(totalRaffles := 1)
    && s.raffle == Raffle(0, 0, 65, k, 0, 86400, 100, 1, k, 0, ALL_TO_ONE, InProgress, [], 0)
    && (forall u :: u in s.positions ==> 1 <= u <= k)
    && (forall u: User :: 1 <= u <= k ==> u in s.positions && s.positions[u].id == u - 1)
    && (forall i :: 0 <= i < |s.stats| ==> s.stats[i] == 1)
    && RevenueEscrow in s.tokens && forall u: User :: k < u <= 65 ==> Wallet(u) in s.tokens && s.tokens[Wallet(u)] == 1
  }

  lemma ManyCreatedAsAsked(c: Configs)
    requires ManyConfigs(c)
    ensures ManyCreated(c).Ok? && SoldTo(c, ManyCreated(c).value, 0)
  {
    AllToOne();
    CreateEstablishesInv(c, 0, MANY_TERMS, MANY_TOKENS, MANY_NFTS);
  }

  lemma NextUserMayBuy(c: Configs, s: State, k: nat)
    requires SoldTo(c, s, k) && k < 65
    ensures SoldTo(c, s.(clock := 1), k) && BuyAcceptable(s.(clock := 1), k + 1, 1)
    ensures s.(clock := Later(s.clock, 1)) == s.(clock := 1)
  {
    LaterKeepsInv(s, 1);
    assert Cost(1, 1) == 1;
  }

  lemma NextUserBuys(c: Configs, s: State, k: nat)
    requires SoldTo(c, s, k) && k < 65
    ensures SoldTo(c, Next(s, Event(1, BuyTickets(k + 1, 1, true))), k + 1)
  {
    var t := s.(clock := 1);
    NextUserMayBuy(c, s, k);
    BuyTicketsExact(t, k + 1, 1, true);
    BuyTicketsKeepsInv(t, k + 1, 1, true);
    UserHasBought(c, t, ApplyBuyTickets(t, k + 1, 1, true).value, k);
  }

  lemma UserHasPaid(c: Configs, s: State, s': State, k: nat)
    requires SoldTo(c, s, k) && k < 65 && TicketsBought(s, s', k + 1, 1)
    ensures RevenueEscrow in s'.tokens
    ensures forall u: User :: k + 1 < u <= 65 ==> Wallet(u) in s'.tokens && s'.tokens[Wallet(u)] == 1
  {
    assert Cost(1, 1) == 1;
  }

  lemma UserHasPosition(c: Configs, s: State, s': State, k: nat)
    requires SoldTo(c, s, k) && k < 65 && TicketsBought(s, s', k + 1, 1)
    ensures forall u :: u in s'.positions ==> 1 <= u <= k + 1
    ensures forall u: User :: 1 <= u <= k + 1 ==> u in s'.positions && s'.positions[u].id == u - 1
    ensures forall i :: 0 <= i < |s'.stats| ==> s'.stats[i] == 1
  {
  }

  lemma UserHasBought(c: Configs, s: State, s': State, k: nat)
    requires SoldTo(c, s, k) && k < 65 && TicketsBought(s, s', k + 1, 1) && Inv(s')
    ensures SoldTo(c, s', k + 1)
  {
    UserHasPaid(c, s, s', k);
    UserHasPosition(c, s, s', k);
  }

  lemma {:induction false} AllUsersBuy(c: Configs, s: State, k: nat)
    requires k <= 65 && SoldTo(c, s, k)
    ensures SoldTo(c, Run(s, Purchases(k)), 65)
    decreases 65 - k
  {
    if k < 65 {
      var e, rest := Event(1, BuyTickets(k + 1, 1, true)), Purchases(k + 1);
      NextUserBuys(c, s, k);
      assert ([e] + rest)[1..] == rest;
      AllUsersBuy(c, Next(s, e), k + 1);
    }
  }

  lemma {:induction false} EntryAtLeastIndex(ids: seq<nat>, i: nat)
    requires StrictlyIncreasing(ids) && i < |ids|
    ensures ids[i] >= i
  {
    if i > 0 {
      EntryAtLeastIndex(ids, i - 1);
    }
  }

  lemma SixtyFiveDrawable(c: Configs, s: State)
    requires SoldTo(c, s, 65)
    ensures Inv(s.(clock := 90000)) && EnoughForDraw(s.(clock := 90000))
  {
    LaterKeepsInv(s, 90000);
    assert s.(clock := Later(s.clock, 90000)) == s.(clock := 90000);
  }

  /** Everybody wins. */
  lemma SixtyFiveDrawn(c: Configs, s: State, draws: seq<Draw>)
    requires SoldTo(c, s, 65) && ApplyMakeRaffle(s.(clock := 90000), c.authority, draws).Ok?
    ensures var drawn := Next(s, Event(90000, MakeRaffle(c.authority, draws)));
            && Inv(drawn) && drawn.raffle.status.Finished? && |drawn.raffle.winnerIds| == 65
            && drawn.raffle.winnerIds[64] == 64 && 65 in drawn.positions && drawn.positions[65].id == 64
  {
    SixtyFiveDrawable(c, s);
    var t := s.(clock := 90000);
    assert s.(clock := Later(s.clock, 90000)) == t;
    MakeRaffleExact(t, c.authority, draws);
    MakeRaffleKeepsInv(t, c.authority, draws);
    EntryAtLeastIndex(ApplyMakeRaffle(t, c.authority, draws).value.raffle.winnerIds, 64);
  }

  /** Sixty-five rewards, sixty-five buyers: the raffle can be drawn, everybody wins, and whatever happens then, user 65
      cannot claim and the rewards escrow stays open. */
  lemma LastOfSixtyFiveNeverPaid(c: Configs) returns (draws: seq<Draw>)
    requires ManyConfigs(c)
    ensures ManyCreated(c).Ok?
    ensures var drawn := Next(Run(ManyCreated(c).value, Purchases(0)), Event(90000, MakeRaffle(c.authority, draws)));
            && drawn.raffle.status.Finished? && 65 in drawn.positions
            && drawn.positions[65].id in drawn.raffle.winnerIds
            && forall events ::
                 ApplyClaimReward(Run(drawn, events), 65).Err? && RewardsEscrow in Run(drawn, events).nfts
  {
    ManyCreatedAsAsked(c);
    AllUsersBuy(c, ManyCreated(c).value, 0);
    var s := Run(ManyCreated(c).value, Purchases(0));
    SixtyFiveDrawable(c, s);
    WhenDrawCanSucceed(s.(clock := 90000));
    draws :| ApplyMakeRaffle(s.(clock := 90000), c.authority, draws).Ok?;
    SixtyFiveDrawn(c, s, draws);
    var drawn := Next(s, Event(90000, MakeRaffle(c.authority, draws)));
    BuyerPosition(drawn, 65);
    forall events ensures ApplyClaimReward(Run(drawn, events), 65).Err? && RewardsEscrow in Run(drawn, events).nfts {
      BeyondMaskNeverPaid(drawn, events, 64);
    }
  }

  /* Proceeds that cannot be paid out. */

  const HUGE := 0x1000_0000_0000_0000
  const HALVES := [Share(3, 5000), Share(4, 5000)]
  const HUGE_TOKENS: Ledger := map[Wallet(1) := HUGE, Wallet(2) := 0]

  function HugeCreated(c: Configs): Result<State> {
    CreateRaffle(c, 0, Terms(1, 0, HALVES).(ticketPrice := HUGE), HUGE_TOKENS, NFTS)
  }

  function HugeSold(c: Configs): State
    requires HugeCreated(c).Ok?
  {
    Next(HugeCreated(c).value, Event(1, BuyTickets(1, 1, true)))
  }

  lemma HugeCreatedAsAsked(c: Configs)
    requires SmallConfigs(c)
    ensures HugeCreated(c).Ok? && Inv(HugeCreated(c).value)
    ensures var s := HugeCreated(c).value;
            && s.clock == 0 && s.configs == c.(totalRaffles := 1) && s.positions == map[] && s.stats == []
            && s.tokens == HUGE_TOKENS[RevenueEscrow := 0]
            && s.raffle == Raffle(0, 0, 1, 0, 0, 86400, 100, HUGE, 0, 0, HALVES, InProgress, [], 0)
  {
    HugeHalvesDoNotPay(3, 4);
    CreateEstablishesInv(c, 0, Terms(1, 0, HALVES).(ticketPrice := HUGE), HUGE_TOKENS, NFTS);
  }

  lemma HugeTicketSold(c: Configs)
    requires SmallConfigs(c)
    ensures HugeCreated(c).Ok? && Inv(HugeSold(c))
    ensures var s := HugeSold(c);
            && s.clock == 1 && s.stats == [1] && s.configs == c.(totalRaffles := 1)
            && s.raffle == Raffle(0, 0, 1, 1, 0, 86400, 100, HUGE, 1, 0, HALVES, InProgress, [], 0)
  {
    HugeCreatedAsAsked(c);
    var s := HugeCreated(c).value;
    var t := s.(clock := 1);
    LaterKeepsInv(s, 1);
    assert s.(clock := Later(s.clock, 1)) == t;
    assert Cost(1, HUGE) == HUGE;
    assert BuyAcceptable(t, 1, 1);
    BuyTicketsExact(t, 1, 1, true);
    NextKeepsInv(s, Event(1, BuyTickets(1, 1, true)));
  }

  /** One ticket at 2^60 units, to be halved between two recipients: the raffle is drawn, and its proceeds stay in
      escrow for ever. */
  lemma HugeProceedsNeverPaid(c: Configs) returns (draws: seq<Draw>)
    requires SmallConfigs(c)
    ensures HugeCreated(c).Ok?
    ensures var drawn := Next(HugeSold(c), Event(90000, MakeRaffle(c.authority, draws)));
            && drawn.raffle.status.Finished?
            && forall events ::
                 RevenueEscrow in Run(drawn, events).tokens && Run(drawn, events).tokens[RevenueEscrow] == HUGE
  {
    HugeTicketSold(c);
    var s := HugeSold(c);
    var t := s.(clock := 90000);
    LaterKeepsInv(s, 90000);
    assert s.(clock := Later(s.clock, 90000)) == t;
    WhenDrawCanSucceed(t);
    assert EnoughForDraw(t);
    draws :| ApplyMakeRaffle(t, c.authority, draws).Ok?;
    MakeRaffleExact(t, c.authority, draws);
    MakeRaffleKeepsInv(t, c.authority, draws);
    var drawn := Next(s, Event(90000, MakeRaffle(c.authority, draws)));
    HugeHalvesDoNotPay(3, 4);
    assert Cost(1, HUGE) == HUGE;
    forall events
      ensures RevenueEscrow in Run(drawn, events).tokens && Run(drawn, events).tokens[RevenueEscrow] == HUGE
    {
      ProceedsLockedForever(drawn, events);
    }
  }
}
