/** Results, error codes and the machine-integer ranges shared by every module. */
module Base {

  datatype Option<+T> = None | Some(value: T)

  /** What an instruction returns: its value, or the reason the runtime rolls it back. */
  datatype Result<+T> = Ok(value: T) | Err(error: ErrorCode) {
    predicate IsFailure() {
      Err?
    }

    function PropagateFailure<U>(): Result<U>
      requires Err?
    {
      Err(error)
    }

    function Extract(): T
      requires Ok?
    {
      value
    }
  }

  /** The program's error codes, and five failures that come from below the program:
      a panic (checked arithmetic, an empty sampling range, an index out of bounds), an account
      that does not exist, an account too small for its data, a rejected token transfer, and a draw
      whose random stream ended before the rejection loop did. */
  datatype ErrorCode =
    | NotMetMinOutbidRate | NotMetStartBid | InsufficientBidFunds | BidOnEndedAuction | OngoingAuction
    | CloseNonZeroBalanceAccount | InvalidRevenueShareConfig | RaffleEnded | RaffleOngoing | RaffleAlreadyMade
    | NotARaffleWinner | RaffleRewardClaimed | RaffleNotMade | Ineligible | InvalidNumRaffledNfts
    | InvalidRaffleTicketSupply | InvalidRaffleDuration | NotAuctionCreator | NotRaffleCreator
    | AuctionNotCancelable | RaffleNotCancelable | AuctionCancelled | RaffleCancelled | NoRemainingRaffleRewards
    | AuctionCreatorCannotMakeBid | RaffleCreatorCannotBuyTickets | NotTheAuthority | InvalidMarketFeeRate
    | InvalidAuctionExtensionSettings | InvalidAuctionDurationRangeSettings
    | InvalidRaffleTicketSupplyRangeSettings | InvalidRaffleDurationRangeSettings | InvalidMinOutbidRate
    | InvalidFeeTreasuryAddress | InconsistentBidEscrowAccountState | IneligibleToClaimRevenue
    | IneligibleToClaimLotNft | InconsistentLotEscrowNftAccount | InvalidAuctionDuration
    | InvalidRevenueRecipientNumber | InvalidAuctionCreatorNftAccount | InvalidBidAmount
    | TopBidderCannotCancelBid | NotTheBidder | InvalidBidAccount | InconsistentBidEscrowTokenAccount
    | InvalidRaffleTicketNumber | InvalidTicketBuyerTokenAccount | InvalidRaffleCreatorNftAccount
    | InconsistentRaffleTicketPosition | AuctionCreationDisabled | RaffleCreationDisabled | Panicked
    | InvalidAuctionId | InvalidRaffleId | InvalidNftMint | NftCollectionNotInAllowlist
    | AccountNotInitialized | AccountDidNotSerialize | TokenProgramError | DrawStillRunning

  datatype ListingStatus = InProgress | Finished | Cancelled

  /** A public key that signs, owns a wallet or receives revenue. */
  type User = nat

  const I16_MAX := 0x7FFF
  const U16_MAX := 0xFFFF
  const I64_MAX := 0x7FFF_FFFF_FFFF_FFFF
  const U64_MAX := 0xFFFF_FFFF_FFFF_FFFF

  type U8 = x: nat | x <= 0xFF
  type U16 = x: nat | x <= U16_MAX
  type U64 = x: nat | x <= U64_MAX
  type I64 = x: int | -I64_MAX - 1 <= x <= I64_MAX

  predicate InI16(x: int) {
    -I16_MAX - 1 <= x <= I16_MAX
  }

  predicate InI64(x: int) {
    -I64_MAX - 1 <= x <= I64_MAX
  }

  /** The `as i16` cast of a 16-bit unsigned value. */
  function AsI16(x: nat): (r: int)
    requires x <= U16_MAX
    ensures InI16(r) && (r == x || r == x - 0x1_0000)
    ensures r == x <==> x <= I16_MAX
  {
    if x <= I16_MAX then x else x - 0x1_0000
  }

  /** The `as i64` cast of a 64-bit unsigned value. */
  function AsI64(x: nat): int {
    if x <= I64_MAX then x else x - 0x1_0000_0000_0000_0000
  }

  /** The `as u64` cast of a 64-bit signed value. */
  function AsU64(x: int): (r: nat)
    requires InI64(x)
    ensures r <= U64_MAX && (r == x || r == x + 0x1_0000_0000_0000_0000)
    ensures r == x <==> x >= 0
  {
    if x >= 0 then x else x + 0x1_0000_0000_0000_0000
  }

  function Min(a: nat, b: nat): nat {
    if a < b then a else b
  }

  function Max(a: nat, b: nat): nat {
    if a < b then b else a
  }

  /** The clock after something happens at `b`: time does not run backwards. */
  function Later(a: int, b: int): int {
    if a < b then b else a
  }

  lemma ProductOfSum(n: nat, a: nat, b: nat)
    ensures n * (a + b) == n * a + n * b
  {
  }

  function Sum(xs: seq<nat>): nat {
    if xs == [] then 0 else Sum(xs[..|xs| - 1]) + xs[|xs| - 1]
  }

  lemma {:induction false} SumUpdate(xs: seq<nat>, i: nat, v: nat)
    requires i < |xs|
    ensures Sum(xs[i := v]) == Sum(xs) - xs[i] + v
  {
    var last := |xs| - 1;
    if i == last {
      assert xs[i := v][..last] == xs[..last];
    } else {
      assert xs[i := v][..last] == xs[..last][i := v];
      SumUpdate(xs[..last], i, v);
    }
  }

  lemma {:induction false} SumBounds(xs: seq<nat>)
    ensures forall k :: 0 <= k < |xs| ==> xs[k] <= Sum(xs)
    ensures (forall k :: 0 <= k < |xs| ==> xs[k] > 0) ==> |xs| <= Sum(xs)
  {
    if xs != [] {
      var front := xs[..|xs| - 1];
      SumBounds(front);
      assert forall k :: 0 <= k < |front| ==> front[k] == xs[k];
    }
  }
}
