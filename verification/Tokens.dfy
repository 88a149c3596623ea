/** Token accounts of one mint: transfer, creation and closing, and the supply they conserve. */
module Tokens {
  import opened Base

  /** A program-derived escrow is one account per seed tuple of the listing; every user has one
      associated wallet; all other accounts of the mint are `Outside`. */
  datatype Account =
    | Wallet(owner: User)
    | BidEscrow(bidder: User)
    | LotEscrow
    | RevenueEscrow
    | RewardsEscrow
    | Outside(id: nat)

  /** The open accounts and their balances. */
  type Ledger = map<Account, nat>

  predicate IsEscrow(a: Account) {
    !a.Wallet? && !a.Outside?
  }

  function Balance(m: Ledger, a: Account): nat {
    if a in m then m[a] else 0
  }

  /** Creates the account if it does not exist yet. */
  function Open(m: Ledger, a: Account): Ledger {
    if a in m then m else m[a := 0]
  }

  function Transfer(m: Ledger, from: Account, to: Account, amount: nat): Result<Ledger> {
    if amount == 0 then Ok(m)
    else if from !in m || to !in m then Err(AccountNotInitialized)
    else if m[from] < amount then Err(TokenProgramError)
    else
      var debited := m[from := m[from] - amount];
      Ok(debited[to := debited[to] + amount])
  }

  function Close(m: Ledger, a: Account): Result<Ledger> {
    if a !in m then Err(AccountNotInitialized)
    else if m[a] != 0 then Err(CloseNonZeroBalanceAccount)
    else Ok(m - {a})
  }

  /** A transfer by somebody else, between accounts that are not escrows. */
  function ExternalTransferOf(m: Ledger, from: Account, to: Account, amount: nat): Result<Ledger> {
    if IsEscrow(from) || IsEscrow(to) then Err(TokenProgramError) else Transfer(Open(m, to), from, to, amount)
  }

  /** The mint has no account at one of the listing's addresses yet. */
  ghost predicate Fresh(m: Ledger) {
    forall a :: a in m ==> !IsEscrow(a)
  }

  /** The token accounts as the program sees them: changed in place, one call at a time. */
  class TokenLedger {
    var accounts: Ledger

    constructor (initial: Ledger)
      ensures accounts == initial
    {
      accounts := initial;
    }

    method OpenAccount(a: Account)
      modifies this
      ensures accounts == Open(old(accounts), a)
    {
      if a !in accounts {
        accounts := accounts[a := 0];
      }
    }

    method TransferToken(from: Account, to: Account, amount: nat) returns (r: Result<()>)
      modifies this
      ensures r.Ok? <==> Transfer(old(accounts), from, to, amount).Ok?
      ensures r.Ok? ==> accounts == Transfer(old(accounts), from, to, amount).value
      ensures r.Err? ==> r.error == Transfer(old(accounts), from, to, amount).error && accounts == old(accounts)
    {
      if amount == 0 {
        return Ok(());
      }
      if from !in accounts || to !in accounts {
        return Err(AccountNotInitialized);
      }
      if accounts[from] < amount {
        return Err(TokenProgramError);
      }
      accounts := accounts[from := accounts[from] - amount];
      accounts := accounts[to := accounts[to] + amount];
      r := Ok(());
    }

    method CloseAccount(a: Account) returns (r: Result<()>)
      modifies this
      ensures r.Ok? <==> Close(old(accounts), a).Ok?
      ensures r.Ok? ==> accounts == Close(old(accounts), a).value
      ensures r.Err? ==> r.error == Close(old(accounts), a).error && accounts == old(accounts)
    {
      if a !in accounts {
        return Err(AccountNotInitialized);
      }
      if accounts[a] != 0 {
        return Err(CloseNonZeroBalanceAccount);
      }
      accounts := accounts - {a};
      r := Ok(());
    }
  }

  /** A ledger is its open accounts and their balances. */
  lemma SameLedger(m: Ledger, n: Ledger)
    requires forall a :: (a in m <==> a in n) && Balance(m, a) == Balance(n, a)
    ensures m == n
  {
    forall a | a in m ensures m[a] == n[a] {
      assert Balance(m, a) == Balance(n, a);
    }
  }

  /* The supply. */

  ghost function Total(m: Ledger): nat {
    if m == map[] then 0
    else
      var a :| a in m;
      m[a] + Total(m - {a})
  }

  lemma {:induction false} TotalRemove(m: Ledger, a: Account)
    requires a in m
    ensures Total(m) == m[a] + Total(m - {a})
    decreases |m|
  {
    var b :| b in m && Total(m) == m[b] + Total(m - {b});
    if a != b {
      TotalRemove(m - {b}, a);
      TotalRemove(m - {a}, b);
      assert m - {a} - {b} == m - {b} - {a};
    }
  }

  lemma TotalUpdate(m: Ledger, a: Account, v: nat)
    ensures Total(m[a := v]) == Total(m) - Balance(m, a) + v
  {
    TotalRemove(m[a := v], a);
    if a in m {
      TotalRemove(m, a);
      assert m[a := v] - {a} == m - {a};
    } else {
      assert m[a := v] - {a} == m;
    }
  }

  lemma BalanceWithinTotal(m: Ledger, a: Account)
    ensures Balance(m, a) <= Total(m)
  {
    if a in m {
      TotalRemove(m, a);
    }
  }

  /** No token call creates or destroys tokens. */
  lemma OpenConserves(m: Ledger, a: Account)
    ensures Total(Open(m, a)) == Total(m)
  {
    TotalUpdate(m, a, 0);
  }

  lemma TransferConserves(m: Ledger, from: Account, to: Account, amount: nat)
    requires Transfer(m, from, to, amount).Ok?
    ensures Total(Transfer(m, from, to, amount).value) == Total(m)
  {
    if amount > 0 {
      var debited := m[from := m[from] - amount];
      TotalUpdate(m, from, m[from] - amount);
      TotalUpdate(debited, to, debited[to] + amount);
    }
  }

  lemma CloseConserves(m: Ledger, a: Account)
    requires Close(m, a).Ok?
    ensures Total(Close(m, a).value) == Total(m)
  {
    TotalRemove(m, a);
  }

  /** A transfer of nothing always succeeds; any other needs both accounts and the funds, and moves exactly the amount.
      A refusal says which was missing. */
  lemma TransferExact(m: Ledger, from: Account, to: Account, amount: nat)
    ensures var r := Transfer(m, from, to, amount);
            && (r.Ok? <==> amount == 0 || (from in m && to in m && m[from] >= amount))
            && (r.Ok? ==>
                  && r.value.Keys == m.Keys
                  && forall a :: Balance(r.value, a)
                       == Balance(m, a) + (if a == to then amount else 0) - (if a == from then amount else 0))
            && (r.Err? ==> r.error == if from in m && to in m then TokenProgramError else AccountNotInitialized)
  {
  }

  /** Opening and closing change which accounts exist and no balance; only an empty account can be closed. */
  lemma OpenCloseExact(m: Ledger, a: Account)
    ensures Open(m, a).Keys == m.Keys + {a} && forall b :: Balance(Open(m, a), b) == Balance(m, b)
    ensures var r := Close(m, a);
            && (r.Ok? <==> a in m && m[a] == 0)
            && (r.Ok? ==> r.value.Keys == m.Keys - {a} && forall b :: Balance(r.value, b) == Balance(m, b))
            && (r.Err? ==> r.error == if a in m then CloseNonZeroBalanceAccount else AccountNotInitialized)
  {
  }

  lemma ExternalTransferKeepsEscrows(m: Ledger, from: Account, to: Account, amount: nat)
    requires ExternalTransferOf(m, from, to, amount).Ok?
    ensures var r := ExternalTransferOf(m, from, to, amount).value;
            && Total(r) == Total(m)
            && forall a :: IsEscrow(a) ==> (a in r <==> a in m) && (a in m ==> r[a] == m[a])
  {
    OpenConserves(m, to);
    TransferConserves(Open(m, to), from, to, amount);
  }
}
