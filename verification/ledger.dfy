/** The balance operations of app.py: the `deposit`, `withdraw` and
    `transfer` handlers. Each one acts for the account number held in the
    session, validates completely, and only then writes. */
module Ledger {
  import opened Wrappers
  import opened Accounts

  /** Why a balance operation was refused. `InsufficientFunds` carries the
      balance the refusal message shows. `MissingAccount` stands for the
      uncaught `TypeError` a handler raises when the session names a number
      no account has (a session cookie that outlived a restart of the
      in-memory store): the handler indexes the `None` that `find_account`
      returned, and nothing has been written by then. */
  datatype LedgerError =
    | MissingAccount
    | NonPositiveAmount
    | InsufficientFunds(balance: int)
    | SelfTransfer
    | ReceiverNotFound

  /** `t` is `s` with at most the balances of the positions in `touched`
      changed: same length, every other account identical, and every
      account keeps its number, name and PIN. */
  predicate OnlyTouched(s: Store, t: Store, touched: set<nat>)
  {
    && |t| == |s|
    && forall k :: 0 <= k < |s| ==>
         && (k !in touched ==> t[k] == s[k])
         && t[k].number == s[k].number
         && t[k].name == s[k].name
         && t[k].pin == s[k].pin
  }

  /** `s` with the balance at position `i` replaced. */
  function SetBalance(s: Store, i: nat, balance: int): (t: Store)
    requires i < |s|
    ensures OnlyTouched(s, t, {i}) && t[i].balance == balance
  {
    s[i := s[i].(balance := balance)]
  }

  /** The `deposit` handler for session account `n`: an amount that is not
      positive is refused with the store untouched (whether or not the
      account exists); a positive amount for a missing account fails with
      the store untouched; otherwise that account's balance grows by
      exactly `amount`, nothing else changes, and the new balance is
      answered. */
  function Deposit(s: Store, n: int, amount: int): (r: Step<int, LedgerError>)
    ensures amount <= 0 ==> r.result == Err(NonPositiveAmount) && r.store == s
    ensures amount > 0 && !HasAccount(s, n) ==> r.result == Err(MissingAccount) && r.store == s
    ensures amount > 0 && HasAccount(s, n) ==>
              var i := IndexOf(s, n);
              && r.result == Ok(s[i].balance + amount)
              && OnlyTouched(s, r.store, {i})
              && r.store[i].balance == s[i].balance + amount
  {
    if amount <= 0 then Step(Err(NonPositiveAmount), s)
    else if !HasAccount(s, n) then Step(Err(MissingAccount), s)
    else
      var i := IndexOf(s, n);
      var balance := s[i].balance + amount;
      Step(Ok(balance), SetBalance(s, i, balance))
  }

  /** The `withdraw` handler for session account `n`: refuses an amount
      that is not positive, then fails for a missing account, then refuses
      an amount above the balance (reporting that balance), in every case
      with the store untouched; otherwise the balance drops by exactly
      `amount`, stays non-negative, nothing else changes, and the new
      balance is answered. */
  function Withdraw(s: Store, n: int, amount: int): (r: Step<int, LedgerError>)
    ensures amount <= 0 ==> r.result == Err(NonPositiveAmount)
    ensures amount > 0 && !HasAccount(s, n) ==> r.result == Err(MissingAccount)
    ensures HasAccount(s, n) ==>
              var b := s[IndexOf(s, n)].balance;
              && (0 < amount && b < amount ==> r.result == Err(InsufficientFunds(b)))
              && (r.result.Ok? <==> 0 < amount <= b)
    ensures r.result.Err? ==> r.store == s
    ensures r.result.Ok? ==>
              HasAccount(s, n) &&
              var i := IndexOf(s, n);
              && OnlyTouched(s, r.store, {i})
              && r.result.value == r.store[i].balance == s[i].balance - amount
              && r.store[i].balance >= 0
  {
    if amount <= 0 then Step(Err(NonPositiveAmount), s)
    else if !HasAccount(s, n) then Step(Err(MissingAccount), s)
    else
      var i := IndexOf(s, n);
      if amount > s[i].balance then Step(Err(InsufficientFunds(s[i].balance)), s)
      else
        var balance := s[i].balance - amount;
        Step(Ok(balance), SetBalance(s, i, balance))
  }

  /** The `transfer` handler from session account `sender` to account
      `receiver`. Refusals, checked in this order and each leaving the
      store untouched: the sender's account is missing (the handler fails
      reading its number); the receiver is the sender; the amount is not
      positive; no account has the receiver's number; the amount exceeds
      the sender's balance. Otherwise the sender loses and the receiver
      gains exactly `amount`, every other account is unchanged, and the
      two new balances are answered. */
  function Transfer(s: Store, sender: int, receiver: int, amount: int): (r: Step<(int, int), LedgerError>)
    ensures !HasAccount(s, sender) ==> r.result == Err(MissingAccount)
    ensures HasAccount(s, sender) ==>
            var b := s[IndexOf(s, sender)].balance;
            && (receiver == sender ==> r.result == Err(SelfTransfer))
            && (receiver != sender && amount <= 0 ==> r.result == Err(NonPositiveAmount))
            && (receiver != sender && amount > 0 && !HasAccount(s, receiver) ==>
                  r.result == Err(ReceiverNotFound))
            && (receiver != sender && amount > 0 && HasAccount(s, receiver) && b < amount ==>
                  r.result == Err(InsufficientFunds(b)))
            && (r.result.Ok? <==> receiver != sender && HasAccount(s, receiver) && 0 < amount <= b)
    ensures r.result.Err? ==> r.store == s
    ensures r.result.Ok? ==>
              HasAccount(s, sender) &&
              var i := IndexOf(s, sender);
              var j := IndexOf(s, receiver);
              && i != j
              && OnlyTouched(s, r.store, {i, j})
              && r.store[i].balance == s[i].balance - amount >= 0
              && r.store[j].balance == s[j].balance + amount
              && r.store[i].balance + r.store[j].balance == s[i].balance + s[j].balance
              && r.result.value == (r.store[i].balance, r.store[j].balance)
  {
    if !HasAccount(s, sender) then Step(Err(MissingAccount), s)
    else
      var i := IndexOf(s, sender);
      if receiver == sender then Step(Err(SelfTransfer), s)
      else if amount <= 0 then Step(Err(NonPositiveAmount), s)
      else match FindIndex(s, receiver)
        case None => Step(Err(ReceiverNotFound), s)
        case Some(j) =>
          if amount > s[i].balance then Step(Err(InsufficientFunds(s[i].balance)), s)
          else
            var from := s[i].balance - amount;
            var to := s[j].balance + amount;
            Step(Ok((from, to)), SetBalance(SetBalance(s, i, from), j, to))
  }

  /** A deposit keeps the store well-formed and changes the total by
      exactly the amount deposited (by nothing when refused). */
  lemma DepositPreserves(s: Store, n: int, amount: int)
    requires WellFormed(s)
    ensures var r := Deposit(s, n, amount);
            && WellFormed(r.store)
            && Total(r.store) == Total(s) + (if r.result.Ok? then amount else 0)
  {
    var r := Deposit(s, n, amount);
    if r.result.Ok? {
      var i := IndexOf(s, n);
      TotalUpdate(s, i, r.store[i]);
      assert r.store == s[i := r.store[i]];
    }
  }

  /** A withdrawal keeps the store well-formed and changes the total by
      exactly minus the amount withdrawn (by nothing when refused). */
  lemma WithdrawPreserves(s: Store, n: int, amount: int)
    requires WellFormed(s)
    ensures var r := Withdraw(s, n, amount);
            && WellFormed(r.store)
            && Total(r.store) == Total(s) - (if r.result.Ok? then amount else 0)
  {
    var r := Withdraw(s, n, amount);
    if r.result.Ok? {
      var i := IndexOf(s, n);
      TotalUpdate(s, i, r.store[i]);
      assert r.store == s[i := r.store[i]];
    }
  }

  /** Conservation: a transfer, accepted or refused, leaves the sum of all
      balances unchanged, and keeps a well-formed store well-formed. */
  lemma TransferPreserves(s: Store, sender: int, receiver: int, amount: int)
    ensures var r := Transfer(s, sender, receiver, amount);
            && Total(r.store) == Total(s)
            && (WellFormed(s) ==> WellFormed(r.store))
  {
    var r := Transfer(s, sender, receiver, amount);
    if r.result.Ok? {
      var i := IndexOf(s, sender);
      var j := IndexOf(s, receiver);
      var mid := s[i := r.store[i]];
      TotalUpdate(s, i, r.store[i]);
      TotalUpdate(mid, j, r.store[j]);
      assert r.store == mid[j := r.store[j]];
    }
  }
}
