/** Splitting an escrow between the treasury and the revenue recipients. */
module Revenue {
  import opened Base
  import opened Tokens

  datatype Share = Share(receiver: User, bps: nat)

  function ShareSum(shares: seq<Share>): nat {
    if shares == [] then 0 else shares[0].bps + ShareSum(shares[1..])
  }

  /** The running u16 sum of the shares must neither overflow nor miss 10000. */
  function ShareConfigError(shares: seq<Share>): Option<ErrorCode> {
    if ShareSum(shares) > U16_MAX then Some(Panicked)
    else if ShareSum(shares) != 10000 then Some(InvalidRevenueShareConfig)
    else None
  }

  lemma {:induction false} ShareSumSplit(shares: seq<Share>, i: nat)
    requires i <= |shares|
    ensures ShareSum(shares) == ShareSum(shares[..i]) + ShareSum(shares[i..])
  {
    if i > 0 {
      assert shares[..i][1..] == shares[1..][..i - 1] && shares[i..] == shares[1..][i - 1..];
      ShareSumSplit(shares[1..], i - 1);
    }
  }

  method ValidateShareConfigs(shares: seq<Share>) returns (r: Result<()>)
    ensures r.Ok? <==> ShareSum(shares) == 10000
    ensures r.Err? ==> ShareConfigError(shares) == Some(r.error)
  {
    var sum, i := 0, 0;
    while i < |shares|
      invariant i <= |shares| && sum == ShareSum(shares[..i]) <= U16_MAX
    {
      ShareSumSplit(shares[..i + 1], i);
      assert shares[..i + 1][..i] == shares[..i] && shares[..i + 1][i..] == [shares[i]];
      assert ShareSum([shares[i]]) == shares[i].bps + ShareSum([]);
      sum := sum + shares[i].bps;
      i := i + 1;
      if sum > U16_MAX {
        ShareSumSplit(shares, i);
        return Err(Panicked);
      }
    }
    assert shares[..i] == shares;
    r := if sum != 10000 then Err(InvalidRevenueShareConfig) else Ok(());
  }

  /** Integer share of an amount, in basis points. */
  function Floor(total: nat, bps: nat): nat {
    total * bps / 10000
  }

  /** Pays the recipients in order out of the escrow: whoever's share equals all that is still unassigned
      gets the remainder, everyone else the floor of the pro-rata amount. */
  function PayShares(m: Ledger, escrow: Account, shares: seq<Share>, total: nat, remaining: nat,
                     remainingShare: nat): Result<Ledger>
  {
    if shares == [] then Ok(m)
    else
      var s := shares[0];
      if remainingShare != s.bps && total * s.bps > U64_MAX then Err(Panicked)
      else
        var amount := if remainingShare == s.bps then remaining else Floor(total, s.bps);
        var paid :- Transfer(m, escrow, Wallet(s.receiver), amount);
        if amount > remaining || s.bps > remainingShare then Err(Panicked)
        else PayShares(paid, escrow, shares[1..], total, remaining - amount, remainingShare - s.bps)
  }

  /** Takes the fee, pays the recipients, closes the escrow. */
  function PayOut(m: Ledger, escrow: Account, treasury: Account, fee: nat, shares: seq<Share>): Result<Ledger>
    requires escrow in m
  {
    var charged :- Transfer(m, escrow, treasury, fee);
    if fee > m[escrow] then Err(Panicked)
    else
      var paid :- PayShares(charged, escrow, shares, m[escrow] - fee, m[escrow] - fee, 10000);
      Close(paid, escrow)
  }

  /** Validation, fee, payouts and closing of the escrow. */
  function Settle(m: Ledger, escrow: Account, treasury: Account, feeBps: nat, shares: seq<Share>): Result<Ledger> {
    var invalid := ShareConfigError(shares);
    if invalid.Some? then Err(invalid.value)
    else if escrow !in m then Err(AccountNotInitialized)
    else if m[escrow] * feeBps > U64_MAX then Err(Panicked)
    else PayOut(m, escrow, treasury, Floor(m[escrow], feeBps), shares)
  }

  /** Every recipient's associated wallet is created if it does not exist. */
  function OpenWallets(m: Ledger, shares: seq<Share>): Ledger
    decreases |shares|
  {
    if shares == [] then m else OpenWallets(Open(m, Wallet(shares[0].receiver)), shares[1..])
  }

  method CreateRecipientWallets(ledger: TokenLedger, shares: seq<Share>)
    modifies ledger
    ensures ledger.accounts == OpenWallets(old(ledger.accounts), shares)
  {
    var i := 0;
    while i < |shares|
      invariant i <= |shares|
      invariant OpenWallets(ledger.accounts, shares[i..]) == OpenWallets(old(ledger.accounts), shares)
    {
      ledger.OpenAccount(Wallet(shares[i].receiver));
      assert shares[i..][1..] == shares[i + 1..];
      i := i + 1;
    }
  }

  /** `distribute_revenue` followed by the closing of the escrow. On an error the ledger is left as it
      happens to be: the runtime rolls the instruction back. */
  method DistributeRevenue(ledger: TokenLedger, escrow: Account, treasury: Account, feeBps: nat, shares: seq<Share>)
    returns (r: Result<()>)
    modifies ledger
    ensures r.Ok? <==> Settle(old(ledger.accounts), escrow, treasury, feeBps, shares).Ok?
    ensures r.Ok? ==> ledger.accounts == Settle(old(ledger.accounts), escrow, treasury, feeBps, shares).value
    ensures r.Err? ==> r.error == Settle(old(ledger.accounts), escrow, treasury, feeBps, shares).error
  {
    var _ :- ValidateShareConfigs(shares);
    if escrow !in ledger.accounts {
      return Err(AccountNotInitialized);
    }
    if ledger.accounts[escrow] * feeBps > U64_MAX {
      return Err(Panicked);
    }
    r := ChargeAndPay(ledger, escrow, treasury, Floor(ledger.accounts[escrow], feeBps), shares);
  }

  method ChargeAndPay(ledger: TokenLedger, escrow: Account, treasury: Account, fee: nat, shares: seq<Share>)
    returns (r: Result<()>)
    requires escrow in ledger.accounts
    modifies ledger
    ensures r.Ok? <==> PayOut(old(ledger.accounts), escrow, treasury, fee, shares).Ok?
    ensures r.Ok? ==> ledger.accounts == PayOut(old(ledger.accounts), escrow, treasury, fee, shares).value
    ensures r.Err? ==> r.error == PayOut(old(ledger.accounts), escrow, treasury, fee, shares).error
  {
    var revenue := ledger.accounts[escrow];
    ghost var charged := Transfer(ledger.accounts, escrow, treasury, fee);
    var _ :- ledger.TransferToken(escrow, treasury, fee);
    if fee > revenue {
      return Err(Panicked);
    }
    assert ledger.accounts == charged.value;
    PayOutParts(old(ledger.accounts), escrow, treasury, fee, shares, charged.value);
    var _ :- PayRecipients(ledger, escrow, shares, revenue - fee);
    r := ledger.CloseAccount(escrow);
  }

  method PayRecipients(ledger: TokenLedger, escrow: Account, shares: seq<Share>, total: nat) returns (r: Result<()>)
    modifies ledger
    ensures r.Ok? <==> PayShares(old(ledger.accounts), escrow, shares, total, total, 10000).Ok?
    ensures r.Ok? ==> ledger.accounts == PayShares(old(ledger.accounts), escrow, shares, total, total, 10000).value
    ensures r.Err? ==> r.error == PayShares(old(ledger.accounts), escrow, shares, total, total, 10000).error
  {
    ghost var goal := PayShares(ledger.accounts, escrow, shares, total, total, 10000);
    var remaining: nat, remainingShare: nat := total, 10000;
    var i := 0;
    while i < |shares|
      invariant i <= |shares|
      invariant PayShares(ledger.accounts, escrow, shares[i..], total, remaining, remainingShare) == goal
    {
      var s := shares[i];
      assert shares[i..][0] == s && shares[i..][1..] == shares[i + 1..];
      if remainingShare != s.bps && total * s.bps > U64_MAX {
        return Err(Panicked);
      }
      var amount := if remainingShare == s.bps then remaining else Floor(total, s.bps);
      var _ :- ledger.TransferToken(escrow, Wallet(s.receiver), amount);
      if amount > remaining || s.bps > remainingShare {
        return Err(Panicked);
      }
      remaining, remainingShare := remaining - amount, remainingShare - s.bps;
      i := i + 1;
    }
    r := Ok(());
  }

  /* What every recipient gets. */

  /** The amounts, in order: the last recipient with a nonzero share takes what the floors before it left. */
  function Payouts(shares: seq<Share>, total: nat, remaining: int): (r: seq<int>)
    ensures |r| == |shares|
  {
    if shares == [] then []
    else
      var first := if shares[0].bps > 0 && ShareSum(shares[1..]) == 0 then remaining
                   else Floor(total, shares[0].bps);
      [first] + Payouts(shares[1..], total, remaining - first)
  }

  function Floors(shares: seq<Share>, total: nat): nat {
    if shares == [] then 0 else Floor(total, shares[0].bps) + Floors(shares[1..], total)
  }

  function NonzeroCount(shares: seq<Share>): nat {
    if shares == [] then 0 else (if shares[0].bps > 0 then 1 else 0) + NonzeroCount(shares[1..])
  }

  predicate IsLastNonzero(shares: seq<Share>, i: nat)
    requires i < |shares|
  {
    shares[i].bps > 0 && ShareSum(shares[i + 1..]) == 0
  }

  /** What account `a` receives from the recipients' part. */
  function Received(shares: seq<Share>, payouts: seq<int>, a: Account): int
    requires |payouts| == |shares|
  {
    if shares == [] then 0
    else (if Wallet(shares[0].receiver) == a then payouts[0] else 0) + Received(shares[1..], payouts[1..], a)
  }

  /** The pro-rata products the loop computes stay in u64 range. */
  predicate ProductsFit(shares: seq<Share>, total: nat) {
    shares == [] ||
    ((ShareSum(shares) == shares[0].bps || total * shares[0].bps <= U64_MAX) && ProductsFit(shares[1..], total))
  }

  lemma FloorBounds(total: nat, bps: nat)
    ensures total * bps - 9999 <= 10000 * Floor(total, bps) <= total * bps
    ensures bps == 0 ==> Floor(total, bps) == 0
  {
  }

  /** The floors fall short of the exact total by less than one unit per nonzero share. */
  lemma {:induction false} FloorsBounds(shares: seq<Share>, total: nat)
    ensures 10000 * Floors(shares, total) <= total * ShareSum(shares)
    ensures total * ShareSum(shares) - 9999 * NonzeroCount(shares) <= 10000 * Floors(shares, total)
    ensures ShareSum(shares) == 0 ==> NonzeroCount(shares) == 0 && Floors(shares, total) == 0
  {
    if shares != [] {
      FloorsBounds(shares[1..], total);
      FloorBounds(total, shares[0].bps);
      ProductOfSum(total, shares[0].bps, ShareSum(shares[1..]));
    }
  }

  lemma {:induction false} PayoutsShape(shares: seq<Share>, total: nat, remaining: int, i: nat)
    requires i < |shares|
    ensures ShareSum(shares) >= shares[i].bps
    ensures !IsLastNonzero(shares, i) ==> Payouts(shares, total, remaining)[i] == Floor(total, shares[i].bps)
    ensures IsLastNonzero(shares, i) ==>
              Payouts(shares, total, remaining)[i] == remaining - Floors(shares, total) + Floor(total, shares[i].bps)
  {
    FloorBounds(total, shares[0].bps);
    FloorsBounds(shares[1..], total);
    if i > 0 {
      var rest := shares[1..];
      assert rest[i - 1] == shares[i] && rest[i..] == shares[i + 1..];
      var first := Payouts(shares, total, remaining)[0];
      PayoutsShape(rest, total, remaining - first, i - 1);
    }
  }

  /** Everyone receives the floor of the pro-rata amount, except the last recipient with a nonzero share,
      whose excess is smaller than the number of recipients with nonzero shares. */
  lemma FairRounding(shares: seq<Share>, total: nat, i: nat)
    requires ShareSum(shares) == 10000 && i < |shares|
    ensures var paid := Payouts(shares, total, total)[i];
            var exact := Floor(total, shares[i].bps);
            if IsLastNonzero(shares, i) then exact <= paid < exact + NonzeroCount(shares) else paid == exact
  {
    PayoutsShape(shares, total, total, i);
    FloorsBounds(shares, total);
    if IsLastNonzero(shares, i) {
      NonzeroCountPositive(shares, i);
    }
  }

  lemma {:induction false} NonzeroCountPositive(shares: seq<Share>, i: nat)
    requires i < |shares| && shares[i].bps > 0
    ensures NonzeroCount(shares) > 0
  {
    if i > 0 {
      NonzeroCountPositive(shares[1..], i - 1);
    }
  }

  /* The payment loop pays exactly these amounts. */

  predicate HasWallets(m: Ledger, shares: seq<Share>) {
    forall i :: 0 <= i < |shares| ==> Wallet(shares[i].receiver) in m
  }

  /** The ledger after paying `income` on top of `m`, with the escrow emptied. */
  ghost predicate PaidOut(after: Ledger, before: Ledger, escrow: Account, shares: seq<Share>, payouts: seq<int>)
    requires |payouts| == |shares|
  {
    && after.Keys == before.Keys
    && escrow in after && after[escrow] == 0
    && forall a :: a in after && a != escrow ==> after[a] == before[a] + Received(shares, payouts, a)
  }

  /** One round: the amount paid is the first payout, and the balance tracks the remainder. */
  lemma PayFirst(m: Ledger, escrow: Account, shares: seq<Share>, total: nat, remaining: nat)
    requires shares != [] && escrow in m && m[escrow] == remaining && IsEscrow(escrow) && HasWallets(m, shares)
    requires Floors(shares, total) <= remaining && (ShareSum(shares) == 0 ==> remaining == 0)
    requires ShareSum(shares) == shares[0].bps || total * shares[0].bps <= U64_MAX
    ensures var first, rest := Payouts(shares, total, remaining)[0], shares[1..];
            && 0 <= first <= remaining
            && Payouts(shares, total, remaining)[1..] == Payouts(rest, total, remaining - first)
            && Floors(rest, total) <= remaining - first && (ShareSum(rest) == 0 ==> remaining == first)
            && var paid := Transfer(m, escrow, Wallet(shares[0].receiver), first);
               && paid.Ok?
               && PayShares(m, escrow, shares, total, remaining, ShareSum(shares))
                  == PayShares(paid.value, escrow, rest, total, remaining - first, ShareSum(rest))
  {
    FloorBounds(total, shares[0].bps);
    FloorsBounds(shares[1..], total);
  }

  lemma PaidOutFirst(after: Ledger, before: Ledger, escrow: Account, shares: seq<Share>, payouts: seq<int>)
    requires shares != [] && |payouts| == |shares| && payouts[0] >= 0 && HasWallets(before, shares) && IsEscrow(escrow)
    requires Transfer(before, escrow, Wallet(shares[0].receiver), payouts[0]).Ok? && escrow in before
    requires PaidOut(after, Transfer(before, escrow, Wallet(shares[0].receiver), payouts[0]).value, escrow, shares[1..],
                     payouts[1..])
    ensures PaidOut(after, before, escrow, shares, payouts)
  {
  }

  /** The loop succeeds exactly when its products fit, the tracked remainder is the escrow's balance at
      every step, and it leaves the escrow empty. */
  lemma {:induction false} PaySharesExact(m: Ledger, escrow: Account, shares: seq<Share>, total: nat, remaining: nat)
    requires escrow in m && m[escrow] == remaining && IsEscrow(escrow) && HasWallets(m, shares)
    requires Floors(shares, total) <= remaining && (ShareSum(shares) == 0 ==> remaining == 0)
    ensures var r := PayShares(m, escrow, shares, total, remaining, ShareSum(shares));
            && (r.Ok? <==> ProductsFit(shares, total))
            && (r.Err? ==> r.error == Panicked)
            && (r.Ok? ==> PaidOut(r.value, m, escrow, shares, Payouts(shares, total, remaining)))
    decreases |shares|
  {
    if shares != [] && (ShareSum(shares) == shares[0].bps || total * shares[0].bps <= U64_MAX) {
      PayFirst(m, escrow, shares, total, remaining);
      var first := Payouts(shares, total, remaining)[0];
      var paid := Transfer(m, escrow, Wallet(shares[0].receiver), first).value;
      PaySharesExact(paid, escrow, shares[1..], total, remaining - first);
      if ProductsFit(shares, total) {
        PaidOutFirst(PayShares(m, escrow, shares, total, remaining, ShareSum(shares)).value, m, escrow, shares,
                     Payouts(shares, total, remaining));
      }
    }
  }

  /* The whole settlement. */

  /** What a caller can check before claiming: the shares add up, and no product leaves u64. */
  predicate Payable(revenue: nat, feeBps: nat, shares: seq<Share>) {
    && ShareSum(shares) == 10000
    && revenue * feeBps <= U64_MAX
    && Floor(revenue, feeBps) <= revenue
    && ProductsFit(shares, revenue - Floor(revenue, feeBps))
  }

  /** Some fee the authority can set makes the revenue payable. */
  predicate SomeFeePays(revenue: nat, shares: seq<Share>) {
    exists feeBps: nat :: feeBps < 10000 && Payable(revenue, feeBps, shares)
  }

  lemma ProductWithin(total: nat, bps: nat, revenue: nat)
    requires total <= revenue && bps <= 10000 && revenue * 10000 <= U64_MAX
    ensures total * bps <= U64_MAX
  {
    ProductGrows(bps, 10000, total);
  }

  lemma ProductGrows(a: nat, b: nat, factor: nat)
    requires a <= b
    ensures factor * a <= factor * b
  {
  }

  lemma {:induction false} SmallProductsFit(shares: seq<Share>, total: nat, revenue: nat)
    requires total <= revenue && revenue * 10000 <= U64_MAX && ShareSum(shares) <= 10000
    ensures ProductsFit(shares, total)
  {
    if shares != [] {
      ProductWithin(total, shares[0].bps, revenue);
      SmallProductsFit(shares[1..], total, revenue);
    }
  }

  lemma FeeWithin(revenue: nat, feeBps: nat)
    requires feeBps <= 10000
    ensures Floor(revenue, feeBps) <= revenue
  {
    ProductGrows(feeBps, 10000, revenue);
  }

  /** A revenue of at most (2^64 - 1) / 10000 is payable at every fee. */
  lemma SmallRevenuePays(revenue: nat, feeBps: nat, shares: seq<Share>)
    requires ShareSum(shares) == 10000 && revenue * 10000 <= U64_MAX && feeBps <= 10000
    ensures Payable(revenue, feeBps, shares)
  {
    ProductWithin(revenue, feeBps, revenue);
    FeeWithin(revenue, feeBps);
    SmallProductsFit(shares, revenue - Floor(revenue, feeBps), revenue);
  }

  /** Fees of 100 per cent and more, which only initialization could set, pay no revenue that a lower fee does not. */
  lemma PayableSomehow(revenue: nat, feeBps: nat, shares: seq<Share>)
    requires Payable(revenue, feeBps, shares)
    ensures SomeFeePays(revenue, shares)
  {
    if feeBps >= 10000 {
      ProductGrows(10000, feeBps, revenue);
      SmallRevenuePays(revenue, 0, shares);
    }
  }

  /** Half and half of 2^60: at no fee do both the fee and the first half stay in u64. */
  lemma HugeHalvesDoNotPay(a: User, b: User)
    ensures ShareSum([Share(a, 5000), Share(b, 5000)]) == 10000
    ensures !SomeFeePays(0x1000_0000_0000_0000, [Share(a, 5000), Share(b, 5000)])
  {
    var shares := [Share(a, 5000), Share(b, 5000)];
    assert shares[1..] == [Share(b, 5000)];
    assert ShareSum([Share(b, 5000)]) == 5000 + ShareSum([]);
  }

  /** What a settlement adds to account `a`. */
  function Income(a: Account, treasury: Account, revenue: nat, feeBps: nat, shares: seq<Share>): int {
    var net := if Floor(revenue, feeBps) <= revenue then revenue - Floor(revenue, feeBps) else 0;
    (if a == treasury then Floor(revenue, feeBps) else 0) + Received(shares, Payouts(shares, net, net), a)
  }

  lemma FloorsWithin(shares: seq<Share>, total: nat)
    requires ShareSum(shares) == 10000
    ensures Floors(shares, total) <= total
  {
    FloorsBounds(shares, total);
  }

  lemma FeeCharged(m: Ledger, escrow: Account, treasury: Account, fee: nat)
    requires escrow in m && treasury in m && escrow != treasury && fee <= m[escrow]
    ensures var charged := Transfer(m, escrow, treasury, fee);
            && charged.Ok? && charged.value.Keys == m.Keys && charged.value[escrow] == m[escrow] - fee
            && forall a :: a in m && a != escrow ==> charged.value[a] == m[a] + (if a == treasury then fee else 0)
  {
  }

  lemma EscrowClosed(m: Ledger, charged: Ledger, paid: Ledger, escrow: Account, treasury: Account, fee: nat,
                     shares: seq<Share>, payouts: seq<int>)
    requires escrow in m && |payouts| == |shares| && charged.Keys == m.Keys
    requires forall a :: a in m && a != escrow ==> charged[a] == m[a] + (if a == treasury then fee else 0)
    requires PaidOut(paid, charged, escrow, shares, payouts)
    ensures var r := Close(paid, escrow);
            && r.Ok? && r.value.Keys == m.Keys - {escrow}
            && forall a :: a in r.value ==>
                 r.value[a] == m[a] + (if a == treasury then fee else 0) + Received(shares, payouts, a)
  {
  }

  lemma PayAllExact(m: Ledger, escrow: Account, shares: seq<Share>, net: nat)
    requires escrow in m && m[escrow] == net && IsEscrow(escrow) && HasWallets(m, shares) && ShareSum(shares) == 10000
    ensures var r := PayShares(m, escrow, shares, net, net, 10000);
            && (r.Ok? <==> ProductsFit(shares, net))
            && (r.Ok? ==> PaidOut(r.value, m, escrow, shares, Payouts(shares, net, net)))
  {
    FloorsWithin(shares, net);
    PaySharesExact(m, escrow, shares, net, net);
  }

  lemma PayOutParts(m: Ledger, escrow: Account, treasury: Account, fee: nat, shares: seq<Share>, charged: Ledger)
    requires escrow in m && fee <= m[escrow] && Transfer(m, escrow, treasury, fee) == Ok(charged)
    ensures var paid := PayShares(charged, escrow, shares, m[escrow] - fee, m[escrow] - fee, 10000);
            PayOut(m, escrow, treasury, fee, shares) == if paid.Ok? then Close(paid.value, escrow) else Err(paid.error)
  {
  }

  /** The part of a settlement after the fee is known. */
  lemma PayOutExact(m: Ledger, escrow: Account, treasury: Account, fee: nat, shares: seq<Share>)
    requires escrow in m && treasury in m && IsEscrow(escrow) && !IsEscrow(treasury) && HasWallets(m, shares)
    requires fee <= m[escrow] && ShareSum(shares) == 10000
    ensures var r, net := PayOut(m, escrow, treasury, fee, shares), m[escrow] - fee;
            && (r.Ok? <==> ProductsFit(shares, net))
            && (r.Ok? ==>
                  && r.value.Keys == m.Keys - {escrow}
                  && forall a :: a in r.value ==>
                       r.value[a] == m[a] + (if a == treasury then fee else 0)
                                          + Received(shares, Payouts(shares, net, net), a))
  {
    FeeCharged(m, escrow, treasury, fee);
    var charged, net := Transfer(m, escrow, treasury, fee).value, m[escrow] - fee;
    PayAllExact(charged, escrow, shares, net);
    PayOutParts(m, escrow, treasury, fee, shares, charged);
    var paid := PayShares(charged, escrow, shares, net, net, 10000);
    if paid.Ok? {
      EscrowClosed(m, charged, paid.value, escrow, treasury, fee, shares, Payouts(shares, net, net));
    }
  }

  lemma FeeTooHigh(m: Ledger, escrow: Account, treasury: Account, fee: nat, shares: seq<Share>)
    requires escrow in m && fee > m[escrow]
    ensures PayOut(m, escrow, treasury, fee, shares).Err?
  {
  }

  /** A settlement succeeds exactly when it is payable; it then closes the escrow, and every other account
      gains its income and nothing else. */
  lemma SettleExact(m: Ledger, escrow: Account, treasury: Account, feeBps: nat, shares: seq<Share>)
    requires escrow in m && treasury in m && IsEscrow(escrow) && !IsEscrow(treasury) && HasWallets(m, shares)
    ensures var r := Settle(m, escrow, treasury, feeBps, shares);
            && (r.Ok? <==> Payable(m[escrow], feeBps, shares))
            && (r.Ok? ==>
                  && r.value.Keys == m.Keys - {escrow}
                  && forall a :: a in r.value ==> r.value[a] == m[a] + Income(a, treasury, m[escrow], feeBps, shares))
  {
    if ShareSum(shares) == 10000 && Floor(m[escrow], feeBps) <= m[escrow] {
      PayOutExact(m, escrow, treasury, Floor(m[escrow], feeBps), shares);
    } else if Floor(m[escrow], feeBps) > m[escrow] {
      FeeTooHigh(m, escrow, treasury, Floor(m[escrow], feeBps), shares);
    }
  }

  /** What the code of a refused settlement says. */
  predicate SettlementRefusal(revenue: nat, feeBps: nat, shares: seq<Share>, error: ErrorCode) {
    match error
    case InvalidRevenueShareConfig => ShareSum(shares) != 10000
    case TokenProgramError => Floor(revenue, feeBps) > revenue
    case Panicked =>
      || ShareSum(shares) > U16_MAX || revenue * feeBps > U64_MAX
      || (Floor(revenue, feeBps) <= revenue && !ProductsFit(shares, revenue - Floor(revenue, feeBps)))
    case _ => false
  }

  lemma PayOutRefused(m: Ledger, escrow: Account, treasury: Account, fee: nat, shares: seq<Share>)
    requires escrow in m && treasury in m && IsEscrow(escrow) && !IsEscrow(treasury) && HasWallets(m, shares)
    requires ShareSum(shares) == 10000 && PayOut(m, escrow, treasury, fee, shares).Err?
    ensures var error := PayOut(m, escrow, treasury, fee, shares).error;
            if fee > m[escrow] then error == TokenProgramError
            else error == Panicked && !ProductsFit(shares, m[escrow] - fee)
  {
    if fee <= m[escrow] {
      var net := m[escrow] - fee;
      FeeCharged(m, escrow, treasury, fee);
      var charged := Transfer(m, escrow, treasury, fee).value;
      FloorsWithin(shares, net);
      PaySharesExact(charged, escrow, shares, net, net);
      PayOutExact(m, escrow, treasury, fee, shares);
      PayOutParts(m, escrow, treasury, fee, shares, charged);
    }
  }

  lemma SettleRefused(m: Ledger, escrow: Account, treasury: Account, feeBps: nat, shares: seq<Share>)
    requires escrow in m && treasury in m && IsEscrow(escrow) && !IsEscrow(treasury) && HasWallets(m, shares)
    ensures var r := Settle(m, escrow, treasury, feeBps, shares);
            r.Err? ==> SettlementRefusal(m[escrow], feeBps, shares, r.error)
  {
    var fee := Floor(m[escrow], feeBps);
    if ShareSum(shares) == 10000 && PayOut(m, escrow, treasury, fee, shares).Err? {
      PayOutRefused(m, escrow, treasury, fee, shares);
    }
  }

  lemma {:induction false} PaySharesConserves(m: Ledger, escrow: Account, shares: seq<Share>, total: nat,
                                              remaining: nat, remainingShare: nat)
    requires PayShares(m, escrow, shares, total, remaining, remainingShare).Ok?
    ensures Total(PayShares(m, escrow, shares, total, remaining, remainingShare).value) == Total(m)
    decreases |shares|
  {
    if shares != [] {
      var s := shares[0];
      var amount := if remainingShare == s.bps then remaining else Floor(total, s.bps);
      TransferConserves(m, escrow, Wallet(s.receiver), amount);
      var paid := Transfer(m, escrow, Wallet(s.receiver), amount).value;
      PaySharesConserves(paid, escrow, shares[1..], total, remaining - amount, remainingShare - s.bps);
    }
  }

  lemma PayOutSteps(m: Ledger, escrow: Account, treasury: Account, fee: nat, shares: seq<Share>)
    requires escrow in m && PayOut(m, escrow, treasury, fee, shares).Ok?
    ensures fee <= m[escrow] && Transfer(m, escrow, treasury, fee).Ok?
    ensures var paid := PayShares(Transfer(m, escrow, treasury, fee).value, escrow, shares, m[escrow] - fee,
                                  m[escrow] - fee, 10000);
            paid.Ok? && PayOut(m, escrow, treasury, fee, shares) == Close(paid.value, escrow)
  {
  }

  lemma StepsConserve(m: Ledger, charged: Ledger, paid: Ledger, escrow: Account, treasury: Account, fee: nat,
                      shares: seq<Share>, net: nat)
    requires Transfer(m, escrow, treasury, fee) == Ok(charged)
    requires PayShares(charged, escrow, shares, net, net, 10000) == Ok(paid) && Close(paid, escrow).Ok?
    ensures Total(Close(paid, escrow).value) == Total(m)
  {
    TransferConserves(m, escrow, treasury, fee);
    PaySharesConserves(charged, escrow, shares, net, net, 10000);
    CloseConserves(paid, escrow);
  }

  lemma PayOutConserves(m: Ledger, escrow: Account, treasury: Account, fee: nat, shares: seq<Share>)
    requires escrow in m && PayOut(m, escrow, treasury, fee, shares).Ok?
    ensures Total(PayOut(m, escrow, treasury, fee, shares).value) == Total(m)
  {
    PayOutSteps(m, escrow, treasury, fee, shares);
    var charged, net := Transfer(m, escrow, treasury, fee).value, m[escrow] - fee;
    StepsConserve(m, charged, PayShares(charged, escrow, shares, net, net, 10000).value, escrow, treasury, fee, shares,
                  net);
  }

  lemma SettleConserves(m: Ledger, escrow: Account, treasury: Account, feeBps: nat, shares: seq<Share>)
    requires Settle(m, escrow, treasury, feeBps, shares).Ok?
    ensures Total(Settle(m, escrow, treasury, feeBps, shares).value) == Total(m)
  {
    PayOutConserves(m, escrow, treasury, Floor(m[escrow], feeBps), shares);
  }

  lemma {:induction false} OpenWalletsExact(m: Ledger, shares: seq<Share>)
    ensures var r := OpenWallets(m, shares);
            && HasWallets(r, shares) && m.Keys <= r.Keys && Total(r) == Total(m)
            && (forall a :: a in r ==> r[a] == Balance(m, a))
            && (forall a :: a in r && a !in m ==> a.Wallet?)
    decreases |shares|
  {
    if shares != [] {
      var created := Open(m, Wallet(shares[0].receiver));
      OpenConserves(m, Wallet(shares[0].receiver));
      OpenWalletsExact(created, shares[1..]);
      var r := OpenWallets(m, shares);
      forall i | 0 <= i < |shares| ensures Wallet(shares[i].receiver) in r {
        if i > 0 {
          assert shares[1..][i - 1] == shares[i];
        }
      }
    }
  }

  predicate IsRecipient(shares: seq<Share>, a: Account) {
    exists i :: 0 <= i < |shares| && Wallet(shares[i].receiver) == a
  }

  lemma {:induction false} NothingReceived(shares: seq<Share>, payouts: seq<int>, a: Account)
    requires |payouts| == |shares| && !IsRecipient(shares, a)
    ensures Received(shares, payouts, a) == 0
  {
    if shares != [] {
      var rest := shares[1..];
      forall i | 0 <= i < |rest| ensures Wallet(rest[i].receiver) != a {
        assert rest[i] == shares[i + 1];
      }
      NothingReceived(shares[1..], payouts[1..], a);
    }
  }

  lemma {:induction false} OpenWalletsOpens(m: Ledger, shares: seq<Share>, a: Account)
    ensures a in OpenWallets(m, shares) <==> a in m || IsRecipient(shares, a)
    decreases |shares|
  {
    if shares != [] {
      OpenWalletsOpens(Open(m, Wallet(shares[0].receiver)), shares[1..], a);
      if IsRecipient(shares, a) {
        var i :| 0 <= i < |shares| && Wallet(shares[i].receiver) == a;
        assert i > 0 ==> shares[1..][i - 1] == shares[i];
      }
      if IsRecipient(shares[1..], a) {
        var i :| 0 <= i < |shares[1..]| && Wallet(shares[1..][i].receiver) == a;
        assert shares[i + 1] == shares[1..][i];
      }
    }
  }
}
