/** What every reachable raffle state satisfies. */
module RaffleInvariant {
  import opened Base
  import opened GlobalConfigs
  import opened Tokens
  import opened Revenue
  import opened PubkeyIndex
  import Alias = AliasTable
  import opened WinnerDraw
  import opened ClaimMask
  import opened RaffleModel

  /** The buyers in the order of their first purchases, as the client's iterator reads them. */
  function Buyers(s: State): seq<User>
    requires s.configs.numKeysPerIndexPage > 0
  {
    Entries(s.pages, s.configs.numKeysPerIndexPage, s.raffle.numTicketPositions)
  }

  /** Ids number the buyers in purchase order, without gaps: position `id`, entry `id` of the vector and
      entry `id` of the index belong to the same buyer, and the entry is the buyer's positive total. */
  ghost predicate PositionsMatch(s: State) {
    && s.configs.numKeysPerIndexPage > 0
    && |s.stats| == s.raffle.numTicketPositions
    && IsIndexOf(s.pages, Buyers(s), s.configs.numKeysPerIndexPage)
    && (forall i :: 0 <= i < |s.stats| ==> PositionOf(s, Buyers(s)[i], i))
    && (forall u :: u in s.positions ==> s.positions[u].id < |s.stats| && Buyers(s)[s.positions[u].id] == u)
  }

  ghost predicate PositionOf(s: State, u: User, i: nat) {
    && u in s.positions && i < |s.stats|
    && s.positions[u] == TicketPosition(i, u, s.stats[i]) && s.stats[i] > 0
  }

  ghost predicate TicketsCounted(s: State) {
    && Sum(s.stats) == s.raffle.ticketSold <= s.raffle.ticketSupply <= U16_MAX
    && (s.raffle.status.Cancelled? ==> s.raffle.ticketSold == 0)
  }

  ghost predicate RevenueHeld(s: State) {
    && (RevenueEscrow in s.tokens ==>
          s.tokens[RevenueEscrow] == Cost(s.raffle.ticketSold, s.raffle.ticketPrice))
    && (s.raffle.status.InProgress? ==> RevenueEscrow in s.tokens)
  }

  /** Winners exist exactly in a finished raffle; they are distinct ids in range, as many as rewards. */
  ghost predicate WinnersDrawn(s: State) {
    && s.raffle.numRaffledNfts > 0
    && (if s.raffle.status.Finished? then
          && IsEnded(s.raffle, s.clock)
          && |s.raffle.winnerIds| == s.raffle.numRaffledNfts
          && StrictlyIncreasing(s.raffle.winnerIds)
          && (forall i :: 0 <= i < |s.raffle.winnerIds| ==> s.raffle.winnerIds[i] < |s.stats|)
        else s.raffle.winnerIds == [])
    && s.raffle.claimMask < Pow2(MASK_BITS)
    && (forall i: nat :: Bit(s.raffle.claimMask, i) ==> i < |s.raffle.winnerIds| && i < MASK_BITS)
  }

  /** The rewards escrow holds what was not claimed, and exists exactly while something is left. */
  ghost predicate RewardsHeld(s: State) {
    && Popcount(s.raffle.claimMask) <= s.raffle.numRaffledNfts
    && (RewardsEscrow in s.nfts <==>
          !s.raffle.status.Cancelled? && Popcount(s.raffle.claimMask) < s.raffle.numRaffledNfts)
    && (RewardsEscrow in s.nfts ==>
          s.nfts[RewardsEscrow] == s.raffle.numRaffledNfts - Popcount(s.raffle.claimMask))
  }

  ghost predicate Inv(s: State) {
    && PositionsMatch(s) && TicketsCounted(s) && RevenueHeld(s) && WinnersDrawn(s) && RewardsHeld(s)
    && SerializedSize(s.raffle) <= RAFFLE_SPACE
  }

  /* Facts about a single state. */

  lemma StatsPositive(s: State)
    requires Inv(s)
    ensures forall i :: 0 <= i < |s.stats| ==> 0 < s.stats[i] <= U16_MAX
    ensures |s.stats| <= s.raffle.ticketSold
    ensures Typed(s)
  {
    forall i | 0 <= i < |s.stats| ensures s.stats[i] > 0 {
      assert PositionOf(s, Buyers(s)[i], i);
    }
    SumBounds(s.stats);
  }

  lemma DrawnWasSold(s: State)
    requires Inv(s) && s.raffle.status.Finished?
    ensures s.raffle.ticketSold > 0
  {
    StatsPositive(s);
    assert s.raffle.winnerIds[0] < |s.stats|;
  }

  /** No claim has been made before the draw. */
  lemma NoClaimsBeforeDraw(s: State)
    requires Inv(s) && !s.raffle.status.Finished?
    ensures s.raffle.claimMask == 0
  {
    NoBits(s.raffle.claimMask);
  }

  lemma SameIndex(s: State, s': State)
    requires PositionsMatch(s) && s'.pages == s.pages && s'.positions == s.positions && s'.stats == s.stats
    requires s'.raffle.numTicketPositions == s.raffle.numTicketPositions
    requires s'.configs.numKeysPerIndexPage == s.configs.numKeysPerIndexPage
    ensures PositionsMatch(s')
  {
    assert Buyers(s') == Buyers(s);
    forall i | 0 <= i < |s'.stats| ensures PositionOf(s', Buyers(s')[i], i) {
      assert PositionOf(s, Buyers(s)[i], i);
    }
  }

  /* Buying. */

  ghost predicate BuyAcceptable(s: State, buyer: User, numTickets: nat) {
    var cost := Cost(numTickets, s.raffle.ticketPrice);
    && 0 < numTickets && numTickets + s.raffle.ticketSold <= s.raffle.ticketSupply
    && buyer != s.raffle.creator && RevenueEscrow in s.tokens && Wallet(buyer) in s.tokens
    && cost <= U64_MAX && cost <= s.tokens[Wallet(buyer)]
    && !IsEnded(s.raffle, s.clock) && !s.raffle.status.Cancelled?
  }

  /** What a purchase changes. */
  ghost predicate TicketsBought(s: State, s': State, buyer: User, numTickets: nat) {
    var cost, isNew := Cost(numTickets, s.raffle.ticketPrice), buyer !in s.positions;
    var id := if isNew then |s.stats| else s.positions[buyer].id;
    var total := if isNew then 0 else s.positions[buyer].totalNumTickets;
    && RevenueEscrow in s.tokens && Wallet(buyer) in s.tokens && cost <= s.tokens[Wallet(buyer)]
    && s'.tokens == s.tokens[Wallet(buyer) := s.tokens[Wallet(buyer)] - cost]
                            [RevenueEscrow := s.tokens[RevenueEscrow] + cost]
    && s'.positions == s.positions[buyer := TicketPosition(id, buyer, total + numTickets)]
    && id <= |s.stats|
    && s'.stats == (if isNew then s.stats + [numTickets]
                    else if id < |s.stats| then s.stats[id := s.stats[id] + numTickets] else s.stats)
    && s'.raffle == s.raffle.(ticketSold := s.raffle.ticketSold + numTickets,
                              numTicketPositions := s.raffle.numTicketPositions + if isNew then 1 else 0)
    && s'.pages == (if isNew then IndexPubkey(s.pages, PageIdOf(s), buyer) else s.pages)
    && s' == s.(tokens := s'.tokens, positions := s'.positions, stats := s'.stats, raffle := s'.raffle,
                pages := s'.pages)
  }

  function PageIdOf(s: State): nat {
    if s.configs.numKeysPerIndexPage == 0 then 0
    else PageId(s.raffle.numTicketPositions, s.configs.numKeysPerIndexPage)
  }

  lemma BuyerPosition(s: State, buyer: User)
    requires Inv(s) && buyer in s.positions
    ensures PositionOf(s, buyer, s.positions[buyer].id) && s.positions[buyer].totalNumTickets <= s.raffle.ticketSold
    ensures Buyers(s)[s.positions[buyer].id] == buyer
  {
    assert PositionOf(s, Buyers(s)[s.positions[buyer].id], s.positions[buyer].id);
    SumBounds(s.stats);
  }

  /** The bookkeeping never fails in u16: whenever the guards of a purchase hold, the counters have room. */
  lemma RecordTicketsFits(s: State, buyer: User, numTickets: nat)
    requires Inv(s) && 0 < numTickets && numTickets + s.raffle.ticketSold <= s.raffle.ticketSupply
    ensures var position := if buyer in s.positions then s.positions[buyer] else TicketPosition(0, 0, 0);
            && (position.totalNumTickets == 0 <==> buyer !in s.positions)
            && (buyer in s.positions ==>
                  position.id < |s.stats| && s.stats[position.id] + numTickets <= U16_MAX && position.buyer == buyer)
            && s.raffle.numTicketPositions < U16_MAX && position.totalNumTickets + numTickets <= U16_MAX
  {
    StatsPositive(s);
    if buyer in s.positions {
      BuyerPosition(s, buyer);
    }
  }

  /** The bookkeeping for any state and position: it fails exactly when a u16 counter has no room or the vector no entry
      at the position's id, and otherwise adds the tickets everywhere. */
  lemma RecordTicketsChecked(s: State, buyer: User, position: TicketPosition, numTickets: nat)
    ensures var r, isNew := RecordTickets(s, buyer, position, numTickets), position.totalNumTickets == 0;
            && (r.Ok? <==>
                  && (if isNew then s.raffle.numTicketPositions < U16_MAX
                      else position.id < |s.stats| && s.stats[position.id] + numTickets <= U16_MAX)
                  && position.totalNumTickets + numTickets <= U16_MAX && s.raffle.ticketSold + numTickets <= U16_MAX)
            && (r.Err? ==> r.error == Panicked)
            && (r.Ok? ==>
                  && r.value.raffle == s.raffle.(ticketSold := s.raffle.ticketSold + numTickets,
                       numTicketPositions := s.raffle.numTicketPositions + if isNew then 1 else 0)
                  && r.value.positions == s.positions[buyer :=
                       if isNew then TicketPosition(s.raffle.numTicketPositions, buyer, numTickets)
                       else position.(totalNumTickets := position.totalNumTickets + numTickets)]
                  && |r.value.stats| == |s.stats| + (if isNew then 1 else 0)
                  && (forall i :: 0 <= i < |s.stats| ==>
                        r.value.stats[i] == s.stats[i] + if !isNew && i == position.id then numTickets else 0)
                  && (isNew ==> r.value.stats[|s.stats|] == numTickets))
  {
  }

  lemma RecordTicketsExact(s: State, t: State, buyer: User, position: TicketPosition, numTickets: nat)
    requires position == if buyer in s.positions then s.positions[buyer] else TicketPosition(0, 0, 0)
    requires position.totalNumTickets == 0 <==> buyer !in s.positions
    requires buyer in s.positions ==>
               position.id < |s.stats| && s.stats[position.id] + numTickets <= U16_MAX && position.buyer == buyer
    requires s.raffle.numTicketPositions < U16_MAX && position.totalNumTickets + numTickets <= U16_MAX
    requires s.raffle.ticketSold + numTickets <= U16_MAX && |s.stats| == s.raffle.numTicketPositions
    requires t == s.(pages := t.pages, tokens := t.tokens)
    ensures var r := RecordTickets(t, buyer, position, numTickets);
            var isNew := buyer !in s.positions;
            && r.Ok?
            && r.value == t.(positions := s.positions[buyer :=
                 TicketPosition(if isNew then |s.stats| else position.id, buyer,
                                position.totalNumTickets + numTickets)],
               stats := if isNew then s.stats + [numTickets]
                        else s.stats[position.id := s.stats[position.id] + numTickets],
               raffle := s.raffle.(ticketSold := s.raffle.ticketSold + numTickets,
                                   numTicketPositions := s.raffle.numTicketPositions + if isNew then 1 else 0))
  {
  }

  /** The guards passed, a purchase is the payment, the index entry and the bookkeeping. */
  lemma BuyTicketsSteps(s: State, buyer: User, numTickets: nat, eligible: bool)
    requires s.configs.numKeysPerIndexPage > 0 && s.raffle.ticketSupply <= U16_MAX
    ensures var position := if buyer in s.positions then s.positions[buyer] else TicketPosition(0, 0, 0);
            var cost := Cost(numTickets, s.raffle.ticketPrice);
            var pages := if position.totalNumTickets == 0 then IndexPubkey(s.pages, PageIdOf(s), buyer) else s.pages;
            var paid := Transfer(s.tokens, Wallet(buyer), RevenueEscrow, cost);
            && (eligible && BuyAcceptable(s, buyer, numTickets) ==>
                  && paid.Ok?
                  && ApplyBuyTickets(s, buyer, numTickets, eligible)
                     == RecordTickets(s.(pages := pages, tokens := paid.value), buyer, position, numTickets))
            && (!(eligible && BuyAcceptable(s, buyer, numTickets)) ==>
                  ApplyBuyTickets(s, buyer, numTickets, eligible).Err?)
  {
  }

  lemma RecordedIsBought(s: State, s': State, buyer: User, position: TicketPosition, numTickets: nat)
    requires position == if buyer in s.positions then s.positions[buyer] else TicketPosition(0, 0, 0)
    requires BuyAcceptable(s, buyer, numTickets) && (buyer in s.positions ==> position.id < |s.stats|)
    requires var cost, isNew := Cost(numTickets, s.raffle.ticketPrice), buyer !in s.positions;
             && Transfer(s.tokens, Wallet(buyer), RevenueEscrow, cost) == Ok(s'.tokens)
             && s'.pages == (if isNew then IndexPubkey(s.pages, PageIdOf(s), buyer) else s.pages)
             && s' == s.(tokens := s'.tokens, pages := s'.pages, positions := s.positions[buyer :=
                   TicketPosition(if isNew then |s.stats| else position.id, buyer,
                                  position.totalNumTickets + numTickets)],
                 stats := if isNew then s.stats + [numTickets]
                          else s.stats[position.id := s.stats[position.id] + numTickets],
                 raffle := s.raffle.(ticketSold := s.raffle.ticketSold + numTickets,
                                     numTicketPositions := s.raffle.numTicketPositions + if isNew then 1 else 0))
    ensures TicketsBought(s, s', buyer, numTickets)
  {
    var cost := Cost(numTickets, s.raffle.ticketPrice);
    var paid := s.tokens[Wallet(buyer) := s.tokens[Wallet(buyer)] - cost]
                        [RevenueEscrow := s.tokens[RevenueEscrow] + cost];
    assert cost == 0 ==> paid == s.tokens;
  }

  lemma PurchaseRecorded(s: State, buyer: User, numTickets: nat, r: Result<State>)
    requires Inv(s) && BuyAcceptable(s, buyer, numTickets)
    requires var position := if buyer in s.positions then s.positions[buyer] else TicketPosition(0, 0, 0);
             var pages := if position.totalNumTickets == 0 then IndexPubkey(s.pages, PageIdOf(s), buyer) else s.pages;
             var paid := Transfer(s.tokens, Wallet(buyer), RevenueEscrow, Cost(numTickets, s.raffle.ticketPrice));
             paid.Ok? && r == RecordTickets(s.(pages := pages, tokens := paid.value), buyer, position, numTickets)
    ensures r.Ok? && TicketsBought(s, r.value, buyer, numTickets)
  {
    RecordTicketsFits(s, buyer, numTickets);
    var position := if buyer in s.positions then s.positions[buyer] else TicketPosition(0, 0, 0);
    var pages := if buyer !in s.positions then IndexPubkey(s.pages, PageIdOf(s), buyer) else s.pages;
    var paid := Transfer(s.tokens, Wallet(buyer), RevenueEscrow, Cost(numTickets, s.raffle.ticketPrice)).value;
    RecordTicketsExact(s, s.(pages := pages, tokens := paid), buyer, position, numTickets);
    RecordedIsBought(s, r.value, buyer, position, numTickets);
  }

  /** A purchase succeeds exactly under `BuyAcceptable`; the u16 counters always have room for it. */
  lemma BuyTicketsExact(s: State, buyer: User, numTickets: nat, eligible: bool)
    requires Inv(s)
    ensures var r := ApplyBuyTickets(s, buyer, numTickets, eligible);
            && (r.Ok? <==> eligible && BuyAcceptable(s, buyer, numTickets))
            && (r.Ok? ==> TicketsBought(s, r.value, buyer, numTickets))
  {
    BuyTicketsSteps(s, buyer, numTickets, eligible);
    if eligible && BuyAcceptable(s, buyer, numTickets) {
      PurchaseRecorded(s, buyer, numTickets, ApplyBuyTickets(s, buyer, numTickets, eligible));
    }
  }

  lemma NewPositionMatches(s: State, s': State, buyer: User, numTickets: nat)
    requires Inv(s) && TicketsBought(s, s', buyer, numTickets) && numTickets > 0 && buyer !in s.positions
    ensures PositionsMatch(s') && Buyers(s') == Buyers(s) + [buyer]
  {
    AppendKeepsIndex(s.pages, Buyers(s), s.configs.numKeysPerIndexPage, buyer);
    EntriesAreFlat(s'.pages, Buyers(s) + [buyer], s.configs.numKeysPerIndexPage);
    assert Buyers(s') == Buyers(s) + [buyer];
    forall i | 0 <= i < |s'.stats| ensures PositionOf(s', Buyers(s')[i], i) {
      if i < |s.stats| {
        assert PositionOf(s, Buyers(s)[i], i);
      }
    }
  }

  lemma GrownPositionMatches(s: State, s': State, buyer: User, numTickets: nat)
    requires Inv(s) && TicketsBought(s, s', buyer, numTickets) && buyer in s.positions
    ensures PositionsMatch(s') && Buyers(s') == Buyers(s)
  {
    BuyerPosition(s, buyer);
    assert Buyers(s') == Buyers(s);
    forall i | 0 <= i < |s'.stats| ensures PositionOf(s', Buyers(s')[i], i) {
      assert PositionOf(s, Buyers(s)[i], i);
    }
  }

  lemma SumAfterPurchase(s: State, s': State, buyer: User, numTickets: nat)
    requires Inv(s) && TicketsBought(s, s', buyer, numTickets)
    ensures Sum(s'.stats) == Sum(s.stats) + numTickets
  {
    if buyer in s.positions {
      BuyerPosition(s, buyer);
      SumUpdate(s.stats, s.positions[buyer].id, s.stats[s.positions[buyer].id] + numTickets);
    } else {
      assert (s.stats + [numTickets])[..|s.stats|] == s.stats;
    }
  }

  lemma CostAdds(a: nat, b: nat, price: nat)
    ensures Cost(a + b, price) == Cost(a, price) + Cost(b, price)
  {
  }

  /** The bookkeeping of a purchase keeps the rest of the invariant. */
  lemma PurchaseKeepsInv(s: State, s': State, buyer: User, numTickets: nat)
    requires Inv(s) && BuyAcceptable(s, buyer, numTickets) && TicketsBought(s, s', buyer, numTickets)
    requires PositionsMatch(s') && Sum(s'.stats) == Sum(s.stats) + numTickets
    ensures Inv(s')
  {
    assert !s.raffle.status.Finished?;
    CostAdds(s.raffle.ticketSold, numTickets, s.raffle.ticketPrice);
  }

  lemma BuyTicketsKeepsInv(s: State, buyer: User, numTickets: nat, eligible: bool)
    requires Inv(s) && ApplyBuyTickets(s, buyer, numTickets, eligible).Ok?
    ensures var s' := ApplyBuyTickets(s, buyer, numTickets, eligible).value;
            Inv(s') && Total(s'.tokens) == Total(s.tokens)
  {
    BuyTicketsExact(s, buyer, numTickets, eligible);
    var s' := ApplyBuyTickets(s, buyer, numTickets, eligible).value;
    if buyer in s.positions {
      GrownPositionMatches(s, s', buyer, numTickets);
    } else {
      NewPositionMatches(s, s', buyer, numTickets);
    }
    SumAfterPurchase(s, s', buyer, numTickets);
    PurchaseKeepsInv(s, s', buyer, numTickets);
    PurchaseConserves(s, s', buyer, numTickets);
  }

  lemma PurchaseConserves(s: State, s': State, buyer: User, numTickets: nat)
    requires TicketsBought(s, s', buyer, numTickets)
    ensures Total(s'.tokens) == Total(s.tokens)
  {
    var cost := Cost(numTickets, s.raffle.ticketPrice);
    var debited := s.tokens[Wallet(buyer) := s.tokens[Wallet(buyer)] - cost];
    TotalUpdate(s.tokens, Wallet(buyer), s.tokens[Wallet(buyer)] - cost);
    TotalUpdate(debited, RevenueEscrow, s.tokens[RevenueEscrow] + cost);
  }

  /* The draw. */

  /** As many distinct existing buyers as there are rewards, in the order of their ids: exactly those whom the first
      draws that sample so many have sampled. */
  ghost predicate SampledWinners(s: State, draws: seq<Draw>, winnerIds: seq<nat>)
    requires Typed(s) && ValidDraws(draws, |s.stats|, s.raffle.ticketSold)
  {
    var built := Alias.BuildTable(s.stats, AsI16(s.raffle.ticketSold));
    && built.Some? && FirstSampled(built.value, s.raffle.numRaffledNfts, draws, winnerIds)
    && |winnerIds| == s.raffle.numRaffledNfts && StrictlyIncreasing(winnerIds)
    && forall i :: 0 <= i < |winnerIds| ==> winnerIds[i] < |s.stats| && s.stats[winnerIds[i]] > 0
  }

  lemma PickIsSampled(s: State, draws: seq<Draw>)
    requires Inv(s) && ValidDraws(draws, |s.stats|, s.raffle.ticketSold)
    ensures Typed(s)
    ensures var r := PickWinners(s.stats, s.raffle.ticketSold, s.raffle.numRaffledNfts, draws);
            r.Ok? ==> SampledWinners(s, draws, r.value)
  {
    StatsPositive(s);
    WinnersSound(s.stats, s.raffle.ticketSold, s.raffle.numRaffledNfts, draws);
    WinnersAreSampled(s.stats, s.raffle.ticketSold, s.raffle.numRaffledNfts, draws);
  }

  /** A draw succeeds exactly when its guards hold, the rejection loop finishes on the given stream and the account
      has room for one id a reward; the winners are then distinct existing buyers with at least one ticket, as many
      as there are rewards, namely the buyers sampled by the first draws that sample that many. */
  lemma MakeRaffleExact(s: State, signer: User, draws: seq<Draw>)
    requires Inv(s)
    ensures var r := ApplyMakeRaffle(s, signer, draws);
            && Typed(s)
            && (r.Ok? <==>
                  && s.configs.authority == signer && s.raffle.status.InProgress? && IsEnded(s.raffle, s.clock)
                  && ValidDraws(draws, |s.stats|, s.raffle.ticketSold)
                  && PickWinners(s.stats, s.raffle.ticketSold, s.raffle.numRaffledNfts, draws).Ok?
                  && SizeWithWinners(s.raffle, s.raffle.numRaffledNfts) <= RAFFLE_SPACE)
            && (r.Ok? ==>
                  && r.value == s.(raffle := s.raffle.(winnerIds := r.value.raffle.winnerIds, status := Finished))
                  && SampledWinners(s, draws, r.value.raffle.winnerIds))
  {
    StatsPositive(s);
    if ValidDraws(draws, |s.stats|, s.raffle.ticketSold) {
      PickIsSampled(s, draws);
    }
  }

  lemma MakeRaffleKeepsInv(s: State, signer: User, draws: seq<Draw>)
    requires Inv(s) && ApplyMakeRaffle(s, signer, draws).Ok?
    ensures var s' := ApplyMakeRaffle(s, signer, draws).value;
            Inv(s') && Total(s'.tokens) == Total(s.tokens)
  {
    MakeRaffleExact(s, signer, draws);
    NoClaimsBeforeDraw(s);
    var s' := ApplyMakeRaffle(s, signer, draws).value;
    SameIndex(s, s');
    forall i: nat ensures !Bit(0, i) {
      ZeroHasNoBits(i);
    }
  }

  /* Rewards. */

  lemma PayRewardsExact(nfts: Ledger, to: User, amount: nat)
    requires RewardsEscrow in nfts && 0 < amount <= nfts[RewardsEscrow]
    ensures var r := PayRewards(nfts, to, amount);
            var left := nfts[RewardsEscrow] - amount;
            var paid := nfts[Wallet(to) := Balance(nfts, Wallet(to)) + amount];
            r.Ok? && r.value == if left == 0 then paid - {RewardsEscrow} else paid[RewardsEscrow := left]
  {
    var moved := Transfer(Open(nfts, Wallet(to)), RewardsEscrow, Wallet(to), amount).value;
    var paid := nfts[Wallet(to) := Balance(nfts, Wallet(to)) + amount];
    assert moved == paid[RewardsEscrow := nfts[RewardsEscrow] - amount];
    assert moved - {RewardsEscrow} == paid - {RewardsEscrow};
  }

  /** The index a claimer may still be paid for. */
  ghost predicate Claimable(s: State, claimer: User, i: nat) {
    && claimer in s.positions && i < |s.raffle.winnerIds| && s.raffle.winnerIds[i] == s.positions[claimer].id
    && !Bit(s.raffle.claimMask, i)
  }

  /** The index of a claimable reward is the one the program finds, and the escrow is still open. */
  lemma ClaimableIndex(s: State, claimer: User, i: nat)
    requires Inv(s) && Claimable(s, claimer, i)
    ensures WinnerIndex(s.raffle.winnerIds, s.positions[claimer].id) == Some(i)
    ensures s.raffle.status.Finished? && RewardsEscrow in s.nfts
  {
    PopcountFull(s.raffle.claimMask, s.raffle.numRaffledNfts);
    var index := WinnerIndex(s.raffle.winnerIds, s.positions[claimer].id);
    assert s.raffle.winnerIds[i] in s.raffle.winnerIds;
    assert index.value == i by {
      assert StrictlyIncreasing(s.raffle.winnerIds);
    }
  }

  /** The claim of a drawn buyer whose bit is clear pays one reward and sets the bit. */
  lemma ClaimRewardPays(s: State, claimer: User, i: nat)
    requires Inv(s) && Claimable(s, claimer, i) && i < MASK_BITS
    ensures RewardsEscrow in s.nfts && s.nfts[RewardsEscrow] >= 1 && PayRewards(s.nfts, claimer, 1).Ok?
    ensures ApplyClaimReward(s, claimer)
         == Ok(s.(nfts := PayRewards(s.nfts, claimer, 1).value,
                  raffle := s.raffle.(claimMask := SetBit(s.raffle.claimMask, i))))
  {
    BuyerPosition(s, claimer);
    ClaimableIndex(s, claimer, i);
    PayRewardsExact(s.nfts, claimer, 1);
  }

  /** A buyer is paid exactly when drawn at an index the mask has room for whose bit is clear. */
  lemma ClaimRewardExact(s: State, claimer: User)
    requires Inv(s)
    ensures ApplyClaimReward(s, claimer).Ok? <==> exists i: nat :: i < MASK_BITS && Claimable(s, claimer, i)
  {
    if i: nat :| i < MASK_BITS && Claimable(s, claimer, i) {
      ClaimRewardPays(s, claimer, i);
    }
    if ApplyClaimReward(s, claimer).Ok? {
      var index := WinnerIndex(s.raffle.winnerIds, s.positions[claimer].id);
      assert index.value < MASK_BITS && Claimable(s, claimer, index.value);
    }
  }

  lemma FlagKeepsWinners(s: State, s': State, i: nat)
    requires WinnersDrawn(s) && s.raffle.status.Finished? && i < |s.raffle.winnerIds| && i < MASK_BITS
    requires s' == s.(nfts := s'.nfts, raffle := s.raffle.(claimMask := SetBit(s.raffle.claimMask, i)))
    ensures WinnersDrawn(s')
  {
    SetBitWidth(s.raffle.claimMask, i, MASK_BITS);
    forall j: nat | Bit(SetBit(s.raffle.claimMask, i), j) ensures j < |s.raffle.winnerIds| && j < MASK_BITS {
      SetBitBits(s.raffle.claimMask, i, j);
    }
  }

  lemma FlagPaysReward(s: State, s': State, claimer: User, i: nat)
    requires Inv(s) && Claimable(s, claimer, i) && i < MASK_BITS
    requires s' == s.(nfts := s'.nfts, raffle := s.raffle.(claimMask := SetBit(s.raffle.claimMask, i)))
    requires PayRewards(s.nfts, claimer, 1) == Ok(s'.nfts) && RewardsEscrow in s.nfts && s.nfts[RewardsEscrow] >= 1
    ensures RewardsHeld(s')
  {
    PayRewardsExact(s.nfts, claimer, 1);
    SetBitCounts(s.raffle.claimMask, i);
  }

  lemma ClaimRewardKeepsInv(s: State, claimer: User)
    requires Inv(s) && ApplyClaimReward(s, claimer).Ok?
    ensures Inv(ApplyClaimReward(s, claimer).value)
  {
    ClaimRewardExact(s, claimer);
    var i: nat :| i < MASK_BITS && Claimable(s, claimer, i);
    ClaimRewardPays(s, claimer, i);
    ClaimableIndex(s, claimer, i);
    var s' := ApplyClaimReward(s, claimer).value;
    FlagPaysReward(s, s', claimer, i);
    FlagKeepsWinners(s, s', i);
    SameIndex(s, s');
  }

  /** What the step for leftover rewards would do in any state: it pays the creator as many rewards as there are fewer
      winners than rewards. */
  lemma ClaimRemainingExact(s: State, signer: User)
    ensures var r, left := ApplyClaimRemaining(s, signer), s.raffle.numRaffledNfts - |s.raffle.winnerIds|;
            && (r.Ok? <==>
                  && s.raffle.creator == signer && s.raffle.winnerIds != [] && left > 0
                  && RewardsEscrow in s.nfts && left <= s.nfts[RewardsEscrow])
            && (r.Ok? ==>
                  && r.value == s.(nfts := r.value.nfts)
                  && (RewardsEscrow in r.value.nfts <==> left < s.nfts[RewardsEscrow])
                  && forall a :: Balance(r.value.nfts, a)
                       == Balance(s.nfts, a) + (if a == Wallet(signer) then left else 0)
                                             - (if a == RewardsEscrow then left else 0))
  {
    var left := s.raffle.numRaffledNfts - |s.raffle.winnerIds|;
    if RewardsEscrow in s.nfts && 0 < left <= s.nfts[RewardsEscrow] {
      PayRewardsExact(s.nfts, signer, left);
    }
  }

  /** The step for leftover rewards is never enabled: a draw always leaves as many winners as rewards. */
  lemma NothingRemains(s: State, signer: User)
    requires Inv(s)
    ensures ApplyClaimRemaining(s, signer).Err?
    ensures s.raffle.creator == signer && RewardsEscrow in s.nfts ==>
              ApplyClaimRemaining(s, signer).error
              == if s.raffle.status.Finished? then NoRemainingRaffleRewards else RaffleNotMade
  {
  }

  /* Revenue and cancellation. */

  /** The revenue claim succeeds exactly when the sales proceeds are payable; it pays out all of them. */
  lemma ClaimRevenueExact(s: State, signer: User, treasury: User)
    requires Inv(s)
    ensures var r := ApplyClaimRevenue(s, signer, treasury);
            var revenue := Cost(s.raffle.ticketSold, s.raffle.ticketPrice);
            && (r.Ok? <==>
                  && s.raffle.creator == signer && s.raffle.status.Finished?
                  && RevenueEscrow in s.tokens && Wallet(treasury) in s.tokens
                  && Payable(revenue, s.configs.marketFeeRateBps, s.raffle.revenueShares))
            && (r.Ok? ==>
                  && r.value == s.(tokens := r.value.tokens)
                  && r.value.tokens.Keys == OpenWallets(s.tokens, s.raffle.revenueShares).Keys - {RevenueEscrow}
                  && forall a :: a in r.value.tokens ==>
                       r.value.tokens[a] == Balance(s.tokens, a)
                         + Income(a, Wallet(treasury), revenue, s.configs.marketFeeRateBps, s.raffle.revenueShares))
  {
    OpenWalletsExact(s.tokens, s.raffle.revenueShares);
    if RevenueEscrow in s.tokens && Wallet(treasury) in s.tokens {
      SettleExact(OpenWallets(s.tokens, s.raffle.revenueShares), RevenueEscrow, Wallet(treasury),
                  s.configs.marketFeeRateBps, s.raffle.revenueShares);
    }
  }

  lemma ClaimRevenueKeepsInv(s: State, signer: User, treasury: User)
    requires Inv(s) && ApplyClaimRevenue(s, signer, treasury).Ok?
    ensures var s' := ApplyClaimRevenue(s, signer, treasury).value;
            Inv(s') && Total(s'.tokens) == Total(s.tokens)
  {
    ClaimRevenueExact(s, signer, treasury);
    OpenWalletsExact(s.tokens, s.raffle.revenueShares);
    SettleConserves(OpenWallets(s.tokens, s.raffle.revenueShares), RevenueEscrow, Wallet(treasury),
                    s.configs.marketFeeRateBps, s.raffle.revenueShares);
    SameIndex(s, ApplyClaimRevenue(s, signer, treasury).value);
  }

  lemma CancelRaffleExact(s: State, signer: User)
    requires Inv(s)
    ensures var r := ApplyCancelRaffle(s, signer);
            && (r.Ok? <==> s.raffle.creator == signer && s.raffle.ticketSold == 0 && s.raffle.status.InProgress?)
            && (r.Ok? ==>
                  r.value == s.(raffle := s.raffle.(status := Cancelled), tokens := s.tokens - {RevenueEscrow},
                    nfts := s.nfts[Wallet(signer) := Balance(s.nfts, Wallet(signer)) + s.raffle.numRaffledNfts]
                            - {RewardsEscrow}))
  {
    StatsPositive(s);
    if s.raffle.ticketSold == 0 && s.raffle.status.InProgress? {
      NoClaimsBeforeDraw(s);
      PayRewardsExact(s.nfts, signer, s.raffle.numRaffledNfts);
      assert Cost(0, s.raffle.ticketPrice) == 0;
    }
    assert s.raffle.status.Finished? ==> s.raffle.winnerIds[0] < |s.stats| <= s.raffle.ticketSold;
  }

  lemma CancelRaffleKeepsInv(s: State, signer: User)
    requires Inv(s) && ApplyCancelRaffle(s, signer).Ok?
    ensures var s' := ApplyCancelRaffle(s, signer).value;
            Inv(s') && Total(s'.tokens) == Total(s.tokens)
  {
    CancelRaffleExact(s, signer);
    NoClaimsBeforeDraw(s);
    CloseConserves(s.tokens, RevenueEscrow);
    SameIndex(s, ApplyCancelRaffle(s, signer).value);
  }

  lemma ExternalTransferKeepsInv(s: State, from: Account, to: Account, amount: nat)
    requires Inv(s) && ApplyExternalTransfer(s, from, to, amount).Ok?
    ensures var s' := ApplyExternalTransfer(s, from, to, amount).value;
            Inv(s') && Total(s'.tokens) == Total(s.tokens)
  {
    ExternalTransferKeepsEscrows(s.tokens, from, to, amount);
    SameIndex(s, ApplyExternalTransfer(s, from, to, amount).value);
  }

  /* Runs. */

  lemma NewConfigsKeepInv(s: State, c: Configs)
    requires Inv(s) && c.numKeysPerIndexPage == s.configs.numKeysPerIndexPage
    ensures Inv(s.(configs := c))
  {
    SameIndex(s, s.(configs := c));
  }

  lemma ClaimRewardStep(s: State, claimer: User)
    requires Inv(s) && ApplyClaimReward(s, claimer).Ok?
    ensures Inv(ApplyClaimReward(s, claimer).value)
    ensures ApplyClaimReward(s, claimer).value.tokens == s.tokens
  {
    ClaimRewardKeepsInv(s, claimer);
  }

  lemma StepKeepsInv(s: State, action: Action)
    requires Inv(s) && Apply(s, action).Ok?
    ensures Inv(Apply(s, action).value) && Total(Apply(s, action).value.tokens) == Total(s.tokens)
  {
    match action
    case BuyTickets(buyer, numTickets, eligible) => BuyTicketsKeepsInv(s, buyer, numTickets, eligible);
    case MakeRaffle(signer, draws) => MakeRaffleKeepsInv(s, signer, draws);
    case ClaimReward(claimer) => ClaimRewardStep(s, claimer);
    case ClaimRemaining(signer) => NothingRemains(s, signer);
    case ClaimRevenue(signer, treasury) => ClaimRevenueKeepsInv(s, signer, treasury);
    case CancelRaffle(signer) => CancelRaffleKeepsInv(s, signer);
    case ChangeConfigs(signer, input) => NewConfigsKeepInv(s, Apply(s, action).value.configs);
    case ExternalTransfer(from, to, amount) => ExternalTransferKeepsInv(s, from, to, amount);
  }

  lemma LaterKeepsInv(s: State, now: int)
    requires Inv(s)
    ensures Inv(s.(clock := Later(s.clock, now)))
  {
    SameIndex(s, s.(clock := Later(s.clock, now)));
  }

  /** The terms of a raffle are fixed at creation. */
  ghost predicate SameTerms(s: State, s': State) {
    s'.raffle == s.raffle.(numTicketPositions := s'.raffle.numTicketPositions, ticketSold := s'.raffle.ticketSold,
                           status := s'.raffle.status, winnerIds := s'.raffle.winnerIds,
                           claimMask := s'.raffle.claimMask)
  }

  lemma StepKeepsTerms(s: State, action: Action)
    requires Apply(s, action).Ok?
    ensures SameTerms(s, Apply(s, action).value)
  {
  }

  lemma NextKeepsInv(s: State, e: Event)
    requires Inv(s)
    ensures Inv(Next(s, e)) && Total(Next(s, e).tokens) == Total(s.tokens) && SameTerms(s, Next(s, e))
  {
    LaterKeepsInv(s, e.now);
    var t := s.(clock := Later(s.clock, e.now));
    if Apply(t, e.action).Ok? {
      StepKeepsInv(t, e.action);
      StepKeepsTerms(t, e.action);
    }
  }

  /** Safety over whole runs: the invariant, conservation of the currency, and unchanged terms. */
  lemma {:induction false} RunKeepsInv(s: State, events: seq<Event>)
    requires Inv(s)
    ensures Inv(Run(s, events)) && Total(Run(s, events).tokens) == Total(s.tokens) && SameTerms(s, Run(s, events))
    decreases |events|
  {
    if events != [] {
      NextKeepsInv(s, events[0]);
      RunKeepsInv(Next(s, events[0]), events[1..]);
    }
  }

  /** Nothing sold, nothing drawn, everything deposited. */
  ghost predicate JustCreated(s: State) {
    && s.configs.numKeysPerIndexPage > 0 && s.positions == map[] && s.stats == [] && s.pages == map[]
    && s.raffle.numTicketPositions == 0 && s.raffle.ticketSold == 0 <= s.raffle.ticketSupply <= U16_MAX
    && s.raffle.status.InProgress? && s.raffle.winnerIds == [] && s.raffle.claimMask == 0
    && s.raffle.numRaffledNfts > 0 && SerializedSize(s.raffle) <= RAFFLE_SPACE
    && RevenueEscrow in s.tokens && s.tokens[RevenueEscrow] == 0
    && RewardsEscrow in s.nfts && s.nfts[RewardsEscrow] == s.raffle.numRaffledNfts
  }

  lemma JustCreatedIndexed(s: State)
    requires JustCreated(s)
    ensures PositionsMatch(s)
  {
    assert Buyers(s) == [];
    forall p: nat ensures PageCorrect(s.pages, [], s.configs.numKeysPerIndexPage, p) {
    }
  }

  lemma JustCreatedInv(s: State)
    requires JustCreated(s)
    ensures Inv(s)
  {
    JustCreatedIndexed(s);
    forall i: nat ensures !Bit(0, i) {
      ZeroHasNoBits(i);
    }
    assert Cost(0, s.raffle.ticketPrice) == 0;
    PowPositive(MASK_BITS);
  }

  lemma CreatedJustNow(c: Configs, now: int, terms: RaffleTerms, tokens: Ledger, nfts: Ledger)
    requires Fresh(tokens) && Fresh(nfts) && c.numKeysPerIndexPage > 0
    requires CreateRaffle(c, now, terms, tokens, nfts).Ok?
    ensures var s := CreateRaffle(c, now, terms, tokens, nfts).value;
            && JustCreated(s) && ShareSum(terms.shares) == 10000 && s.tokens == Open(tokens, RevenueEscrow)
            && s.nfts == nfts[Wallet(terms.creator) := nfts[Wallet(terms.creator)] - terms.numNfts]
                             [RewardsEscrow := terms.numNfts]
  {
  }

  /** A freshly created raffle satisfies the invariant. */
  lemma CreateEstablishesInv(c: Configs, now: int, terms: RaffleTerms, tokens: Ledger, nfts: Ledger)
    requires Fresh(tokens) && Fresh(nfts) && c.numKeysPerIndexPage > 0
    requires CreateRaffle(c, now, terms, tokens, nfts).Ok?
    ensures var s := CreateRaffle(c, now, terms, tokens, nfts).value;
            && Inv(s) && ShareSum(terms.shares) == 10000 && Total(s.tokens) == Total(tokens)
            && s.nfts == nfts[Wallet(terms.creator) := nfts[Wallet(terms.creator)] - terms.numNfts]
                             [RewardsEscrow := terms.numNfts]
  {
    CreatedJustNow(c, now, terms, tokens, nfts);
    OpenConserves(tokens, RevenueEscrow);
    JustCreatedInv(CreateRaffle(c, now, terms, tokens, nfts).value);
  }

  lemma {:induction false} PowPositive(n: nat)
    ensures Pow2(n) > 0
  {
    if n > 0 {
      PowPositive(n - 1);
    }
  }

  /** What a creator can check before asking. A negative duration counts as its two's complement, which exceeds every
      limit below 2^63. */
  predicate RaffleCreatable(c: Configs, now: int, terms: RaffleTerms, nfts: Ledger) {
    var duration := if terms.duration < 0 then terms.duration + 0x1_0000_0000_0000_0000 else terms.duration;
    && c.raffleCreationEnabled && terms.id == c.totalRaffles < U64_MAX
    && terms.mintDecimals == 0 && terms.numNfts <= terms.mintSupply && terms.listed
    && Wallet(terms.creator) in nfts && terms.numNfts <= nfts[Wallet(terms.creator)]
    && ShareSum(terms.shares) == 10000 && 1 <= terms.numNfts <= c.maxRaffledNfts
    && c.minRaffleDuration <= duration <= c.maxRaffleDuration
    && c.minRaffleTicketSupply <= terms.ticketSupply <= c.maxRaffleTicketSupply
    && -0x8000_0000_0000_0000 <= now + terms.duration < 0x8000_0000_0000_0000
    && 33 * terms.numGroups + 34 * |terms.shares| <= 597
  }

  /** Every field of the raffle asked for, and the rest of its state. */
  ghost predicate CreatedRaffle(c: Configs, now: int, terms: RaffleTerms, tokens: Ledger, nfts: Ledger, s: State) {
    && s.raffle.id == terms.id && s.raffle.creator == terms.creator && s.raffle.numRaffledNfts == terms.numNfts
    && s.raffle.createdTimestamp == now && s.raffle.expiredTimestamp == now + terms.duration
    && (forall t :: IsEnded(s.raffle, t) <==> t > now + terms.duration)
    && s.raffle.ticketSupply == terms.ticketSupply && s.raffle.ticketPrice == terms.ticketPrice
    && s.raffle.numGroups == terms.numGroups && s.raffle.revenueShares == terms.shares
    && s.raffle.ticketSold == 0 && s.raffle.numTicketPositions == 0 && s.raffle.status.InProgress?
    && s.raffle.winnerIds == [] && s.raffle.claimMask == 0
    && s.clock == now && s.positions == map[] && s.stats == [] && s.pages == map[]
    && RevenueEscrow in s.tokens && (forall a :: Balance(s.tokens, a) == Balance(tokens, a))
    && (forall a :: Balance(s.nfts, a) == Balance(nfts, a) - (if a == Wallet(terms.creator) then terms.numNfts else 0)
                                                         + (if a == RewardsEscrow then terms.numNfts else 0))
    && s.configs.totalRaffles == c.totalRaffles + 1
    && s.configs == c.(totalRaffles := s.configs.totalRaffles)
  }

  /** Creation succeeds exactly when it is allowed, and creates the raffle that was asked for. */
  lemma CreateRaffleExact(c: Configs, now: int, terms: RaffleTerms, tokens: Ledger, nfts: Ledger)
    ensures var r := CreateRaffle(c, now, terms, tokens, nfts);
            && (r.Ok? <==> RaffleCreatable(c, now, terms, nfts))
            && (r.Ok? ==> CreatedRaffle(c, now, terms, tokens, nfts, r.value))
  {
  }

  /** From the moment of creation up to and including the last second, every eligible user other than the creator with
      the funds can buy up to the whole supply. */
  lemma FreshRaffleSells(c: Configs, now: int, terms: RaffleTerms, tokens: Ledger, nfts: Ledger, t: int, buyer: User,
                         numTickets: nat)
    requires Fresh(tokens) && Fresh(nfts) && c.numKeysPerIndexPage > 0
    requires RaffleCreatable(c, now, terms, nfts) && now <= t <= now + terms.duration
    requires buyer != terms.creator && 0 < numTickets <= terms.ticketSupply
    requires Wallet(buyer) in tokens && numTickets * terms.ticketPrice <= Min(tokens[Wallet(buyer)], U64_MAX)
    ensures CreateRaffle(c, now, terms, tokens, nfts).Ok?
    ensures var s := CreateRaffle(c, now, terms, tokens, nfts).value;
            var n := Next(s, Event(t, BuyTickets(buyer, numTickets, true)));
            && n.raffle.ticketSold == numTickets && n.stats == [numTickets]
            && n.positions == map[buyer := TicketPosition(0, buyer, numTickets)]
            && Balance(n.tokens, Wallet(buyer)) == tokens[Wallet(buyer)] - numTickets * terms.ticketPrice
            && Balance(n.tokens, RevenueEscrow) == numTickets * terms.ticketPrice
  {
    CreateRaffleExact(c, now, terms, tokens, nfts);
    CreateEstablishesInv(c, now, terms, tokens, nfts);
    var s := CreateRaffle(c, now, terms, tokens, nfts).value;
    assert Balance(s.tokens, Wallet(buyer)) == Balance(tokens, Wallet(buyer));
    FirstPurchaseAccepted(s, t, buyer, numTickets, Cost(numTickets, terms.ticketPrice));
  }

  lemma FirstPurchaseAccepted(s: State, t: int, buyer: User, numTickets: nat, cost: nat)
    requires JustCreated(s) && Inv(s) && buyer != s.raffle.creator && cost == Cost(numTickets, s.raffle.ticketPrice)
    requires s.clock <= t <= s.raffle.expiredTimestamp && 0 < numTickets <= s.raffle.ticketSupply
    requires Wallet(buyer) in s.tokens && cost <= Min(s.tokens[Wallet(buyer)], U64_MAX)
    ensures var n := Next(s, Event(t, BuyTickets(buyer, numTickets, true)));
            && n.raffle.ticketSold == numTickets && n.stats == [numTickets]
            && n.positions == map[buyer := TicketPosition(0, buyer, numTickets)]
            && Balance(n.tokens, Wallet(buyer)) == s.tokens[Wallet(buyer)] - cost
            && Balance(n.tokens, RevenueEscrow) == cost
  {
    var u := s.(clock := t);
    assert s.(clock := Later(s.clock, t)) == u;
    LaterKeepsInv(s, t);
    BuyTicketsExact(u, buyer, numTickets, true);
  }
}
