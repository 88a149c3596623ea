# A verified model of the auction and raffle program

The program sells NFTs on a token ledger in two ways. In an **auction**, bidders escrow their bids, outbid each
other by a minimum rate, and after the deadline the top bidder takes the lot while everyone else is refunded. In a
**raffle**, buyers pay for tickets, and after the deadline an on-chain draw picks distinct winners with probability
proportional to their tickets. The revenue of both is split between a treasury and a list of recipients, and the
bidders and buyers are recorded in a paged index that a client can iterate.

Every instruction is an atomic step. A failed check, a missing account, a panic or an overflow of checked
arithmetic leaves the state as it was; machine widths (i16 in the alias table, u16 counters, i64 prices and
timestamps, u64 products) are written out where the program can leave them.

## How it is organised

* `Base`, `Configs` (module `GlobalConfigs`), `Tokens`: results and error codes, machine integers, the
  configuration, token accounts with open, transfer and close.
* `AliasTable`, `WinnerDraw`: the weighted draw. The table is built by pure functions over two worklists and by
  methods that update arrays in place and are proved equal to them; mass conservation is proved about the functions.
* `Revenue`: fee, payouts, and closing of an escrow, as a loop and as a closed form.
* `PubkeyIndex`: the on-chain pages and the client iterator, both against one flat list.
* `AuctionModel`, `RaffleModel`: one listing as a state machine over values, one function per instruction, and runs
  (`Run`) over arbitrary sequences of instructions with arbitrary arguments, signers and times.
* `AuctionProgram`, `RaffleProgram`: the same instructions as methods that change account fields and ledgers in
  place, with the runtime's rollback (`Process`) and whole runs (`ProcessAll`); each is proved equal to its model
  function.
* `AuctionInvariant`, `RaffleInvariant`: exact success conditions and effects of every instruction, and the
  invariant of all reachable states. `ClaimMask` is the 64-bit claim mask.
* `AuctionTheorems`, `AuctionSettlement`, `RaffleTheorems`, `RaffleSettlement`: the results about whole listings.
* `AuctionPromises`, `RafflePromises`: when exactly revenue, rewards and proceeds can be claimed.
* `AuctionRefusals`, `RaffleRefusals`: what every error code says about the instruction that was refused.
* `AuctionExamples`, `RaffleExamples`: concrete runs that show each difference listed below.

Assumptions of the results about runs: the page size is positive, which holds from initialisation on because only
a test environment may change it; before a listing exists neither mint has accounts at its escrow addresses; and
the currency supply is below 2^63. The results about fees the authority can set assume a configuration that passes all
checks but the one on the fee, which initialization establishes and every update keeps.

## Where the code and its documentation differ

The model follows the code. For each difference there is the exact condition, for all inputs, and a run that shows it.

* Comments at `programs/justies/src/common/bid_strategy.rs:97-98` and `117-119` say an accepted bid always exceeds the
  previous one, and so the amount transferred is positive. `AuctionTheorems.WhenTopBidRises` says exactly when the first
  holds and `AuctionTheorems.WhenNothingIsTransferred` exactly when the second fails;
  `AuctionExamples.EqualBidTakesTheLead` and `LeaderRebidsForNothing` are runs where they fail.
* A bid in the final window is meant to extend the auction (`programs/justies/src/admin/init_justies_program.rs:55-58`).
  When the extension is shorter than the window it may end the auction earlier instead:
  `AuctionTheorems.DeadlineAfterBid` says exactly when, `AuctionExamples.BidBringsDeadlineForward` is such a run.
* `programs/justies/src/auction/claim_auction_revenue.rs:13` says only the creator may call it; the code accepts any
  signer. `AuctionInvariant.ClaimRevenueExact` states that the signer makes no difference to success or effect, and in
  `AuctionExamples.NonCreatorClaimsRevenue` somebody else claims.
* `README.md:69` of the program says the fee on raffle revenue goes to the program's treasury, and
  `programs/justies/src/raffle/claim_raffle_revenue.rs:52` that a constraint verifies its address. There is no such
  constraint: the configured treasury receives a nonzero fee if and only if the creator names it
  (`RaffleTheorems.FeeGoesWhereNamed`), and in `RaffleExamples.SellerTakesTheFee` the creator names itself.
* `README.md:71-72` of the program says creators can claim the remaining rewards when there are fewer participants
  than winners. That instruction is never enabled (`RaffleInvariant.NothingRemains`); such a raffle cannot be drawn at
  all and stays as it is (`RaffleTheorems.WhenDrawCanSucceed`, `StrandedForever`,
  `RaffleExamples.TooFewBuyersStrands`).
* `README.md:65` of the program says the winners can claim their rewards. The mask of claimed rewards has 64 flags, and
  `programs/justies/src/common/configs_strategy.rs:48-84` does not limit the number of rewards: a winner at index 64 or
  higher can never claim, and the rewards escrow never closes (`RafflePromises.BeyondMaskNeverPaid`). The promise holds
  if and only if the raffle is drawable and has at most 64 rewards (`RafflePromises.RewardPromise`);
  `RaffleExamples.LastOfSixtyFiveNeverPaid` is a run with 65 buyers.
* `README.md:42` and `README.md:68` of the program say the creator can claim the revenue. The fee and the recipients'
  parts are computed with products in u64. For a large amount these overflow at every fee below 100 per cent, and the
  revenue stays in escrow; otherwise it can be claimed, if need be after the authority has lowered the fee
  (`AuctionPromises.RevenuePromise`, `RafflePromises.ProceedsPromise`, both if and only if). An amount of at most
  (2^64 - 1) / 10000 can always be paid (`Revenue.SmallRevenuePays`); 2^60 in two halves never can
  (`AuctionExamples.HugeBidNeverPaysOut`, `RaffleExamples.HugeProceedsNeverPaid`).
* `programs/justies/src/raffle/state.rs:35-53` and `programs/justies/src/auction/state.rs:35-50` fix the size of the
  listing's account, but creation does not limit the number of eligible groups, nor a raffle's number of recipients, so
  a listing can be created that has no room for what is written later. With g groups, h recipients and w rewards a
  raffle is created up to 33g + 34h <= 597 and can be drawn only up to 33g + 34h + 2w <= 597
  (`RaffleTheorems.WinnersFit`, part of `WhenDrawCanSucceed`; run: `RaffleExamples.NoRoomForWinnerStrands`). An auction
  is created up to 33g + 34h <= 599 and can be bid on only up to 567 (`AuctionTheorems.TopBidderFits`,
  `UnbiddableForever`; run: `AuctionExamples.SeventeenGroupsUnbiddable`).

## Model

| member | source | states |
|---|---|---|
| AliasTable.CreateAliasTable | programs/justies/src/common/random_utils.rs:21-61 | the in-place construction equals the functional one; for weights that sum to a positive i16 total it panics exactly when a scaled weight overflows, and otherwise returns a table with exact masses |
| AliasTable.FillWorklists | programs/justies/src/common/random_utils.rs:31-38 | scaling and classifying in checked i16 |
| AliasTable.PairWorklists | programs/justies/src/common/random_utils.rs:40-50 | the main loop over the two stacks, in checked i16 |
| AliasTable.DrainWorklist | programs/justies/src/common/random_utils.rs:52-58 | a trailing loop |
| AliasTable.TableCorrect | programs/justies/src/common/random_utils.rs:21-61 | construction succeeds if and only if n times every weight fits i16; every index k then owns exactly n*weights[k] of the n*total cells, and every column is between 0 and the total |
| AliasTable.FillCorrect | programs/justies/src/common/random_utils.rs:31-38 | the filling loop panics exactly when a remaining scaled weight does not fit, and otherwise puts every index on exactly one worklist, on the right side of the total |
| AliasTable.PairOnceFits | programs/justies/src/common/random_utils.rs:41-44 | in a balanced state neither checked subtraction overflows: all values stay between 0 and the scaled weight |
| AliasTable.PairOnceMass | programs/justies/src/common/random_utils.rs:41-49 | a round moves mass without losing any: what the large column gives up is what the closed column now hands to it |
| AliasTable.PairOnceBalanced | programs/justies/src/common/random_utils.rs:40-50 | the loop invariant: disjoint duplicate-free worklists, value ranges, exact mass of every index, no excess over all open columns |
| AliasTable.PairUpBalanced | programs/justies/src/common/random_utils.rs:40-50 | the main loop ends, without panic, in a balanced state |
| AliasTable.NothingLostToDrains | programs/justies/src/common/random_utils.rs:52-58 | at the exit of the main loop `small` is empty and every column left in `large` is exactly full, so both trailing loops change nothing |
| AliasTable.FourColumns | programs/justies/src/common/random_utils.rs:21-61 | the whole table for the weights 1, 1, 3, 3 |
| WinnerDraw.ExactSampling | programs/justies/src/common/random_utils.rs:64-73 | of all n*total draws (i, p) exactly n*weights[k] are sampled to k |
| WinnerDraw.GridSize | programs/justies/src/common/random_utils.rs:70-71 | there are n*total draws in all |
| WinnerDraw.RejectionExact | programs/justies/src/common/random_utils.rs:87-90 | with some winners chosen, exactly n times their weight of all draws is rejected, so every further winner is drawn in proportion to its weight, without replacement |
| WinnerDraw.RunPickWinners | programs/justies/src/common/random_utils.rs:76-92 | the rejection loop as the program runs it equals `PickWinners`, whose results `WinnersAreSampled` and `DrawRefused` describe in terms of the samples |
| WinnerDraw.WinnersSound | programs/justies/src/common/random_utils.rs:76-92 | a returned list is strictly increasing, has exactly the requested length and names only indices of positive weight |
| WinnerDraw.WinnersAreSampled | programs/justies/src/common/random_utils.rs:87-91 | the draw returns if and only if the table is built and some prefix of the stream samples the requested number of different indices; the winners are exactly the indices sampled by the shortest such prefix |
| WinnerDraw.DrawRefused | programs/justies/src/common/random_utils.rs:76-92 | otherwise it panics, for a total or a scaled weight out of range, or is still running with too few different samples |
| WinnerDraw.ThreeDrawsTwoWinners | programs/justies/src/common/random_utils.rs:64-92 | a draw of two winners from the stream in which the second sample repeats the first |
| WinnerDraw.DrawTerminates | programs/justies/src/common/random_utils.rs:87-90 | on a stream where every draw keeps recurring the loop returns if and only if the total fits a positive i16, no scaled weight overflows, and at least `max_num_winners` weights are positive |
| WinnerDraw.DrawPossible | programs/justies/src/common/random_utils.rs:76-92 | the same condition decides whether any stream at all finishes the draw |
| WinnerDraw.AscendingIncreases | programs/justies/src/common/random_utils.rs:91 | the bit set is listed in strictly ascending order |
| Tokens.TokenLedger.TransferToken | programs/justies/src/common/cpi_utils.rs:12-49 | a transfer in place: nothing for amount zero, otherwise debit and credit or an error and no change |
| Tokens.TokenLedger.CloseAccount | programs/justies/src/common/cpi_utils.rs:51-75 | closing succeeds only on an existing account with balance zero |
| Tokens.TokenLedger.OpenAccount | programs/justies/src/common/cpi_utils.rs:77-100 | idempotent creation |
| Tokens.TransferConserves | programs/justies/src/common/cpi_utils.rs:12-49 | a transfer conserves the supply |
| Tokens.TransferExact | programs/justies/src/common/cpi_utils.rs:12-49 | when a transfer succeeds, what every account has afterwards, and what its refusal says |
| Tokens.OpenCloseExact | programs/justies/src/common/cpi_utils.rs:51-100 | which accounts exist after opening and closing, that no balance changes, and when an account can be closed |
| Revenue.ValidateShareConfigs | programs/justies/src/common/revenue_distribution_strategy.rs:17-29 | accepts exactly share lists that sum to 10000; a u16 overflow of the sum is a panic |
| Revenue.DistributeRevenue | programs/justies/src/common/revenue_distribution_strategy.rs:144-235 | fee, payout loop and closing in place equal `Settle` |
| Revenue.PayRecipients | programs/justies/src/common/revenue_distribution_strategy.rs:156-166 | the payout loop with its tracked remainder and share |
| Revenue.CreateRecipientWallets | programs/justies/src/common/revenue_distribution_strategy.rs:51-63 | every recipient's wallet exists afterwards |
| Revenue.PaySharesExact | programs/justies/src/common/revenue_distribution_strategy.rs:192-220 | the loop succeeds exactly when its products fit u64; the tracked remainder equals the escrow balance at every round, no subtraction underflows, and the escrow ends empty |
| Revenue.SettleExact | programs/justies/src/common/revenue_distribution_strategy.rs:144-235 | a settlement succeeds exactly when shares sum to 10000, the fee does not exceed the revenue and no product leaves u64; the escrow is then closed and every account gained its income and nothing else |
| Revenue.FairRounding | programs/justies/src/common/revenue_distribution_strategy.rs:200-204 | everybody gets the floor of the pro-rata amount except the last recipient with a nonzero share, whose excess is less than the number of nonzero shares |
| Revenue.SmallRevenuePays | programs/justies/src/common/revenue_distribution_strategy.rs:144-235 | an amount of at most (2^64 - 1) / 10000 is payable at every fee |
| Revenue.SettleConserves | programs/justies/src/common/revenue_distribution_strategy.rs:148-235 | fee plus payouts equal the revenue |
| PubkeyIndex.IndexPages.Append | programs/justies/src/common/pubkey_indexing.rs:16-62 | create or grow the page and append the key |
| PubkeyIndex.AppendKeepsIndex | programs/justies/src/common/pubkey_indexing.rs:16-62 | appending at the page the counter selects appends to the flat list: page p exists while the list reaches it and holds exactly its slice, in an account of exactly its serialised size |
| PubkeyIndex.GetIndexedKeys | libraries/JustiesProgramClient.ts:110-129 | the client's iterator, which fetches a page only at its first position, yields the flat list |
| PubkeyIndex.EntriesAreFlat | programs/justies/src/common/types.rs:22-24 | looking positions up by page id and offset gives the flat list |
| GlobalConfigs.RunUpdateConfigs | programs/justies/src/common/configs_strategy.rs:27-84 | the field by field update, kept only if it validates |
| GlobalConfigs.UpdateConfigs | programs/justies/src/admin/update_configs.rs:50-59 | an accepted update passes all checks and leaves the page size |
| GlobalConfigs.UpdateConfigsExact | programs/justies/src/common/configs_strategy.rs:27-84 | an update succeeds if and only if the authority signs it and the configuration it asks for satisfies the inequalities; the result is that configuration, field by field, and a refusal names a reason that holds |
| GlobalConfigs.AcceptedUpdate | programs/justies/src/admin/update_configs.rs:50-59 | every accepted update has the given values, leaves absent fields, authority, counters and page size, and is usable |
| AuctionInvariant.MinEligibleBidExact | programs/justies/src/common/auction_strategy.rs:107-111 | the checked i64 formula equals the exact minimum or the step aborts |
| AuctionInvariant.MinEligibleBidWraps | programs/justies/src/common/auction_strategy.rs:107-111 | a top bid of 2^63 or more is taken for negative: the minimum is then below it, or the step aborts |
| AuctionInvariant.MakeBidExact | programs/justies/src/auction/make_bid.rs:112-159 | a bid is accepted exactly under the listed conditions, among them that the deadline stays in i64 and the account has room for the top bidder's key, at exactly the larger of its amount and the minimum, with the exact new deadline; only the difference to the bidder's escrow is transferred, and it never underflows |
| AuctionInvariant.NextDeadlineExact | programs/justies/src/common/auction_strategy.rs:101-116 | with at least the final window left the deadline stays, later it becomes one extension from now; the ranges in which that is computed |
| AuctionInvariant.BidPricing | programs/justies/src/common/bid_strategy.rs:58-132 | an accepted price is at least the start bid and the exact outbid minimum and at most the bidder's limit, and not below the top bid |
| AuctionInvariant.CancelBidExact | programs/justies/src/auction/cancel_auction_bid.rs:78-102 | exactly the bidders with an open escrow who are not on top can cancel; the whole bid is refunded |
| AuctionInvariant.ClaimRevenueExact | programs/justies/src/auction/claim_auction_revenue.rs:93-152 | when revenue can be claimed, that the signer makes no difference, and what every account receives |
| AuctionInvariant.ClaimLotExact | programs/justies/src/auction/claim_lot_nft.rs:79-103 | when the lot can be claimed, and the move to the top bidder |
| AuctionInvariant.CancelAuctionExact | programs/justies/src/auction/cancel_auction.rs:24-31 | an auction can be cancelled exactly while it has no bid and its lot; the lot returns to the creator |
| AuctionInvariant.MakeBidKeepsInv | programs/justies/src/common/bid_strategy.rs:120-208 | a bid keeps the invariant and the currency supply |
| AuctionInvariant.CreateEstablishesInv | programs/justies/src/auction/create_auction.rs:109-149 | a created auction satisfies the invariant, with one unit of the lot in escrow |
| AuctionInvariant.CreateAuctionExact | programs/justies/src/common/auction_strategy.rs:39-74 | for all configurations, times and terms: creation succeeds if and only if the listed guards hold, and every field of the auction, its deadline, the ledgers and the counter are then as asked |
| AuctionInvariant.FreshAuctionTakesBids | programs/justies/src/auction/create_auction.rs:109-149 | from creation up to and including the last second every funded eligible user can place a first bid at the start bid or above |
| AuctionInvariant.RunKeepsInv | programs/justies/src/common/bid_strategy.rs:120-261 | on every run each open escrow holds exactly its bidder's recorded bid, no recorded bid exceeds the top bid, the top bidder's equals it, the index lists every bidder exactly once, and the currency is conserved |
| AuctionTheorems.Lifecycle | programs/justies/src/common/auction_strategy.rs:118-167 | Cancelled and Finished are absorbing, a cancelled auction never had a bid, and the lot is at exactly one holder |
| AuctionTheorems.LotAfterCreation | programs/justies/src/auction/create_auction.rs:109-149 | the same from creation: compared with the balances before it, exactly one unit moved from the creator to escrow, back to the creator, or to the top bidder |
| AuctionTheorems.BiddersAppended | programs/justies/src/common/bid_strategy.rs:173-208 | the indexed list of bidders only grows at its end |
| AuctionTheorems.UnbiddableForever | programs/justies/src/auction/state.rs:35-50 | without room for a top bidder no bid is ever accepted, on any run; creation allows such auctions |
| AuctionExamples.SeventeenGroupsUnbiddable | programs/justies/src/auction/create_auction.rs:109-149 | an auction of seventeen groups is created and never receives a bid, whatever happens |
| AuctionTheorems.DeadlineAfterBid | programs/justies/src/common/auction_strategy.rs:101-116 | the exact deadline after every accepted bid; at least the smaller of both windows remains; when exactly it moves earlier; by how much it can move later |
| AuctionExamples.BidBringsDeadlineForward | programs/justies/src/common/auction_strategy.rs:101-116 | a run in which a bid 400 seconds before the end makes the auction end 100 seconds earlier |
| AuctionTheorems.DeadlineNeverMovesBack | programs/justies/src/common/bid_strategy.rs:150-161 | while the extension is at least the window, no run moves the deadline earlier |
| AuctionTheorems.WhenTopBidRises | programs/justies/src/common/bid_strategy.rs:95-98 | an accepted bid raises the top bid if and only if it offers more itself or top bid times rate reaches 10000 |
| AuctionTheorems.TopBidNeverFalls | programs/justies/src/common/bid_strategy.rs:58-132 | on every run the top bid never falls, and there stays a top bidder once there is one |
| AuctionTheorems.WhenNothingIsTransferred | programs/justies/src/common/bid_strategy.rs:117-124 | an accepted bid transfers nothing if and only if the escrow holds the top bid and the bid does not raise it |
| AuctionExamples.EqualBidTakesTheLead | programs/justies/src/common/bid_strategy.rs:95-98 | a run in which a bid equal to the top bid takes the lead |
| AuctionExamples.LeaderRebidsForNothing | programs/justies/src/common/bid_strategy.rs:117-124 | a run in which the leader bids again and nothing is transferred |
| AuctionTheorems.BoundedLife | programs/justies/src/common/bid_strategy.rs:150-161 | if every rate in force raises the start bid by at least m, at most 1 + (supply - start bid) / m bids are accepted and the deadline moves by at most one longest extension per bid |
| AuctionTheorems.ValidatedThroughout | programs/justies/src/common/configs_strategy.rs:48-84 | a validated configuration stays validated on every run, and one validated up to its fee stays so |
| AuctionTheorems.LifeUnderValidatedConfigs | programs/justies/src/common/configs_strategy.rs:48-84 | under any configurations the authority can set during the run, an auction that starts at m times 10000 or more accepts at most 1 + (supply - start bid) / m bids, each moving the deadline by at most 255 minutes |
| AuctionSettlement.ClaimsEnabled | programs/justies/src/auction/claim_lot_nft.rs:79-103 | after the end every claim is enabled exactly until it is taken |
| AuctionSettlement.ClaimsStayEnabled | programs/justies/src/auction/claim_lot_nft.rs:79-103 | under a fixed configuration, after any run, a claim can be taken if and only if it was open and no step that takes it has succeeded; bids, cancellations, failing claims and transfers may lie in between |
| AuctionExamples.NonCreatorClaimsRevenue | programs/justies/src/auction/claim_auction_revenue.rs:11-22 | a run in which a user who is not the creator claims the revenue, with the same result as for any signer |
| AuctionSettlement.SettlementRunSameEnd | programs/justies/src/auction/cancel_auction_bid.rs:78-102 | no instruction after the end, successful or not, changes the final balances |
| AuctionSettlement.SettledIsFinal | programs/justies/src/auction/claim_auction_revenue.rs:145-151 | when nothing is left to claim the auction is finished and every balance is the final one |
| AuctionSettlement.SettlementConfluence | programs/justies/src/auction/claim_auction_revenue.rs:93-152 | any two complete orders of lot claim, revenue claim and refunds, with failing instructions in between, reach the same state |
| AuctionSettlement.SettlementOutcome | programs/justies/src/auction/claim_auction_revenue.rs:93-152 | whatever the order and whatever is transferred outside the auction meanwhile, losing bidders end with their bids back, treasury and recipients with their income from the top bid, the top bidder with the lot |
| AuctionSettlement.SettlementCompletes | programs/justies/src/auction/claim_lot_nft.rs:79-103 | a complete order exists, with exactly one step per open claim |
| AuctionPromises.RevenueLockedForever | programs/justies/src/auction/claim_auction_revenue.rs:93-152 | a top bid that no fee makes payable stays in escrow on every run, whatever the authority configures |
| AuctionPromises.RevenuePromise | programs/justies/src/auction/claim_auction_revenue.rs:93-152 | the revenue of an ended auction can be claimed on some run if and only if some fee below 100 per cent makes it payable |
| AuctionRefusals.RefusalsExplained | programs/justies/src/common/bid_strategy.rs:58-132 | whatever instruction is refused in a reachable state, its error code names a reason that holds |
| AuctionRefusals.CreationRefused | programs/justies/src/auction/create_auction.rs:36-104 | so does the error code of a refused creation |
| AuctionExamples.HugeBidNeverPaysOut | programs/justies/src/common/revenue_distribution_strategy.rs:192-220 | a run in which a bid of 2^60 wins, to be halved between two recipients, and stays in escrow whatever follows |
| AuctionProgram.AuctionAccounts.MakeBid | programs/justies/src/auction/make_bid.rs:112-159 | the handler in place equals `ApplyMakeBid` |
| AuctionProgram.AuctionAccounts.RecordBid | programs/justies/src/common/bid_strategy.rs:135-227 | bid data, index, transfer, counters and deadline, in the program's order |
| AuctionProgram.AuctionAccounts.UpdateListing | programs/justies/src/common/bid_strategy.rs:150-161 | counter, top bid and deadline in the program's order, and the size of the account |
| AuctionProgram.AuctionAccounts.Process | programs/justies/src/lib.rs:93-139 | one instruction through its handler, accounts and ledgers changed in place, rolled back if it fails, equals `Next` |
| AuctionProgram.AuctionAccounts.ProcessAll | programs/justies/src/lib.rs:93-139 | any sequence of instructions leaves the accounts in the state of the model's run |
| AuctionProgram.Create | programs/justies/src/auction/create_auction.rs:109-149 | creation in place equals `CreateAuction` |
| ClaimMask.SetBitBits | programs/justies/src/common/raffle_strategy.rs:330-333 | setting a flag sets that flag and no other |
| ClaimMask.SetBitWidth | programs/justies/src/common/raffle_strategy.rs:332 | the mask stays within its width |
| ClaimMask.SetBitCounts | programs/justies/src/common/raffle_strategy.rs:332 | setting a clear flag adds one to the count |
| ClaimMask.PopcountFull | programs/justies/src/common/raffle_strategy.rs:127 | a mask of flags below k counts k exactly when all are set |
| RaffleInvariant.BuyTicketsExact | programs/justies/src/raffle/buy_raffle_tickets.rs:30-160 | a purchase succeeds exactly under its guards, the u16 counters always have room, and its whole effect on positions, vector, totals and balances |
| RaffleInvariant.RecordTicketsChecked | programs/justies/src/common/raffle_strategy.rs:215-249 | in any state the bookkeeping fails exactly when a u16 counter has no room or the vector no entry, and otherwise adds the tickets to position, vector and totals |
| RaffleInvariant.BuyTicketsKeepsInv | programs/justies/src/common/raffle_strategy.rs:215-308 | ids stay a bijection onto 0..n, entries equal totals, their sum equals `ticket_sold`, the escrow holds sold times price |
| RaffleInvariant.MakeRaffleExact | programs/justies/src/raffle/make_raffle.rs:43-54 | when a draw succeeds, among others only if the account has room for the winners; they are as many distinct buyers as rewards, exactly those whom the first draws that sample so many have sampled |
| RaffleInvariant.ClaimRewardExact | programs/justies/src/common/raffle_strategy.rs:118-132 | a buyer can claim exactly when drawn at an index below 64 whose flag is clear |
| RaffleInvariant.ClaimRewardPays | programs/justies/src/raffle/claim_raffle_reward.rs:72-95 | the claim pays one reward and sets exactly that flag |
| RaffleInvariant.NothingRemains | programs/justies/src/common/raffle_strategy.rs:80-104 | the step for leftover rewards fails in every reachable state, and with which error |
| RaffleInvariant.ClaimRemainingExact | programs/justies/src/raffle/claim_remaining_raffle_rewards.rs:57-78 | what that step would need and pay in any state |
| RaffleInvariant.ClaimRevenueExact | programs/justies/src/raffle/claim_raffle_revenue.rs:64-115 | when the proceeds can be claimed, and what every account receives |
| RaffleInvariant.CancelRaffleExact | programs/justies/src/raffle/cancel_raffle.rs:73-99 | a raffle can be cancelled exactly by its creator, in progress and without a sale; both escrows are closed and all rewards return |
| RaffleInvariant.CreateEstablishesInv | programs/justies/src/raffle/create_raffle.rs:128-168 | a created raffle satisfies the invariant, with all rewards in escrow |
| RaffleInvariant.CreateRaffleExact | programs/justies/src/common/raffle_strategy.rs:134-190 | for all configurations, times and terms: creation succeeds if and only if the listed guards hold, and every field of the raffle, its deadline, the ledgers and the counter are then as asked |
| RaffleInvariant.FreshRaffleSells | programs/justies/src/raffle/create_raffle.rs:128-168 | from creation up to and including the last second every funded eligible user can buy any number of tickets up to the supply |
| RaffleInvariant.RunKeepsInv | programs/justies/src/common/raffle_strategy.rs:215-373 | the invariant over every run, conservation of the currency, and terms fixed at creation |
| RaffleTheorems.RaffleEndToEnd | programs/justies/src/common/raffle_strategy.rs:316-373 | from creation, on every run: the invariant, the supply, and NFT balances that differ from the start by the deposit and by exactly one per paid winner |
| RaffleTheorems.WinnersAreBuyers | programs/justies/src/common/raffle_strategy.rs:110-116 | winner ids name different existing buyers with tickets |
| RaffleTheorems.RewardsCloseWhenAllClaimed | programs/justies/src/common/raffle_strategy.rs:355-373 | the rewards escrow is closed exactly when all winners have claimed, which never happens with more than 64 |
| RaffleTheorems.UnpaidWinnerCanClaim | programs/justies/src/raffle/claim_raffle_reward.rs:72-95 | with at most 64 winners every unpaid winner can claim in every reachable state |
| RaffleTheorems.SaleClosesAtDeadline | programs/justies/src/raffle/buy_raffle_tickets.rs:130-135 | after the deadline positions, vector and index are frozen and an outcome is final, on every run |
| RaffleTheorems.CancelledIsFinal | programs/justies/src/raffle/cancel_raffle.rs:15-18 | a cancelled raffle sold nothing and never changes again |
| RaffleTheorems.WhenDrawCanSucceed | programs/justies/src/common/raffle_strategy.rs:316-326 | a draw can succeed if and only if the raffle has ended, is in progress, sold between 1 and 32767 tickets, buyers times the largest count fits i16, there are at least as many buyers as rewards, and the account has room for the winner ids |
| RaffleTheorems.FairDrawSucceeds | programs/justies/src/common/raffle_strategy.rs:316-326 | under that condition a fair stream finishes it |
| RaffleTheorems.EveryTicketEqual | programs/justies/src/common/random_utils.rs:14-20 | in a reachable state whose counts fit the table a buyer is sampled in exact proportion to the tickets bought |
| RaffleTheorems.StrandedForever | programs/justies/src/common/raffle_strategy.rs:55-88 | an ended raffle with sales that cannot be drawn keeps rewards and proceeds in escrow on every run |
| RaffleExamples.TooFewBuyersStrands | programs/justies/src/raffle/claim_remaining_raffle_rewards.rs:8-14 | a run with two rewards and one buyer ends that way, and the step for leftover rewards fails |
| RaffleExamples.NoRoomForWinnerStrands | programs/justies/src/raffle/state.rs:35-53 | a run with one reward and one buyer that lacks only the two bytes of a winner id: every draw fails and the raffle is stranded |
| RafflePromises.BeyondMaskNeverPaid | programs/justies/src/common/raffle_strategy.rs:118-132 | a winner at index 64 or higher can claim on no run, and the rewards escrow never closes |
| RafflePromises.EveryWinnerCanClaim | programs/justies/src/common/raffle_strategy.rs:118-132 | in a drawn raffle every unpaid winner can claim if and only if there are at most 64 rewards |
| RafflePromises.RewardPromise | programs/justies/src/common/raffle_strategy.rs:316-373 | an ended raffle can be drawn with all winners paid on some run if and only if it is drawable and has at most 64 rewards |
| RaffleRefusals.RefusalsExplained | programs/justies/src/common/raffle_strategy.rs:55-132 | whatever instruction is refused in a reachable state, its error code names a reason that holds |
| RaffleRefusals.CreationRefused | programs/justies/src/raffle/create_raffle.rs:32-125 | so does the error code of a refused creation |
| RaffleExamples.LastOfSixtyFiveNeverPaid | programs/justies/src/common/configs_strategy.rs:37-84 | a run with 65 rewards and 65 buyers that is drawn and in which user 65 never gets a reward, whatever follows |
| RaffleTheorems.BuyersAppended | programs/justies/src/common/pubkey_indexing.rs:16-62 | on every run the indexed list of buyers only grows at its end, no buyer's id changes and no total falls |
| RaffleTheorems.FeeGoesWhereNamed | programs/justies/src/raffle/claim_raffle_revenue.rs:43-53 | the fee goes to the wallet the creator names; the configured treasury receives it if and only if it is named or the fee is zero; any existing wallet can be named |
| RaffleExamples.SellerTakesTheFee | programs/justies/src/raffle/claim_raffle_revenue.rs:43-53 | a run in which the creator names itself and receives the fee of 50, the configured treasury nothing |
| RaffleSettlement.SettlementRunSameEnd | programs/justies/src/raffle/claim_raffle_reward.rs:72-95 | no instruction after the draw, successful or not, changes the final balances |
| RaffleSettlement.SettlementConfluence | programs/justies/src/raffle/claim_raffle_revenue.rs:64-115 | with at most 64 rewards any two complete orders of reward claims and revenue claim to the same treasury, with failing instructions in between, reach the same state |
| RaffleSettlement.SettlementOutcome | programs/justies/src/raffle/claim_raffle_reward.rs:72-95 | whatever the order and whatever is transferred outside the raffle meanwhile, every unpaid winner ends with one NFT more and every wallet with its income from the proceeds |
| RaffleSettlement.SettlementCompletes | programs/justies/src/common/raffle_strategy.rs:355-373 | a complete order exists, with exactly one step per open claim |
| RaffleSettlement.ClaimsStayEnabled | programs/justies/src/raffle/claim_raffle_reward.rs:72-95 | under a fixed configuration, after any run, a winner can claim if and only if unpaid before and no claim of that winner has succeeded, and the creator can claim the proceeds if and only if they were open and no revenue claim has |
| RafflePromises.ProceedsLockedForever | programs/justies/src/raffle/claim_raffle_revenue.rs:64-115 | proceeds that no fee makes payable stay in escrow on every run, whatever the authority configures and the creator names |
| RafflePromises.ProceedsPromise | programs/justies/src/raffle/claim_raffle_revenue.rs:64-115 | the proceeds of a drawn raffle can be claimed on some run if and only if some fee below 100 per cent makes them payable |
| RaffleExamples.HugeProceedsNeverPaid | programs/justies/src/common/revenue_distribution_strategy.rs:192-220 | a run in which one ticket of 2^60 is sold and drawn and its proceeds stay in escrow whatever follows |
| RaffleProgram.RaffleAccounts.BuyTickets | programs/justies/src/raffle/buy_raffle_tickets.rs:110-161 | the handler in place equals `ApplyBuyTickets` |
| RaffleProgram.RaffleAccounts.AddTickets | programs/justies/src/common/raffle_strategy.rs:215-249 | the bookkeeping in place |
| RaffleProgram.RaffleAccounts.MakeRaffle | programs/justies/src/raffle/make_raffle.rs:43-54 | the handler in place equals `ApplyMakeRaffle` |
| RaffleProgram.RaffleAccounts.TransferRewards | programs/justies/src/common/raffle_strategy.rs:337-373 | the transfer and the closing of an empty rewards escrow |
| RaffleProgram.RaffleAccounts.Process | programs/justies/src/lib.rs:163-219 | one instruction through its handler, in place, rolled back if it fails, equals `Next` |
| RaffleProgram.RaffleAccounts.ProcessAll | programs/justies/src/lib.rs:163-219 | any sequence of instructions leaves the accounts in the state of the model's run |
| RaffleProgram.Create | programs/justies/src/raffle/create_raffle.rs:128-168 | creation in place equals `CreateRaffle` |

## Left out

- Account parsing, program-derived addresses, bumps and signer seeds: an escrow is one account per seed tuple, and a
  user has one wallet per mint (a bidder or buyer could pay from any token account they own).
- Allow-lists, NFT metadata and eligibility groups: at creation a Boolean says that collection and currency are listed,
  at bids and purchases one says that the user is eligible. Of the groups only their number is modelled.
- Deposits into an escrow from outside the program, and transfers of the listed NFT between wallets by others.
  Currency transfers between other accounts may happen at any point of a run (`ExternalTransfer`), which is also how
  other listings appear.
- The random generator and its seed: a draw works on an arbitrary stream of pairs in range.
- Closing of a wallet by its owner: wallets that exist stay. The results that need the treasury's wallet hold while it
  is not closed.
- The runtime's limits on compute and heap: a draw among thousands of buyers is one step here however long it takes.
- Rent, lamports and reallocation costs; `latest_change_timestamp` and `last_purchase_timestamp`.
- Size limits of accounts other than the listing's: bids, positions and index pages are allocated to fit, and the
  runtime's own limit on the size of an account is not modelled.
- Test-environment steps: mock time, rerunning a draw, setting winners, changing the page size.
- When several checks of one instruction fail at once, the order among missing accounts is not modelled: they share
  one error. The results about error codes say that the code names a check that fails, not which of several it is.
- The types of instruction arguments other than a listing's terms and the configuration: they are unbounded naturals, so
  the results also cover inputs the program cannot receive.
- AliasTable.CreateAliasTable: for vectors longer than 32767, or weights that do not sum to the total, it is only tied to the functional construction; no reachable raffle has them, because its entries are positive and sum to the total.
- WinnerDraw.DrawTerminates: leaves out vectors longer than both 32767 and their own total, for the same reason; so do WinnersSound and DrawPossible.
