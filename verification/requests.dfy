/** Sequences of requests as the app's handlers receive them, one after
    another, and the invariants that hold over any such sequence. */
module Requests {
  import opened Wrappers
  import opened Text
  import opened Accounts
  import opened Auth
  import opened Ledger

  /** One form submission to a ledger handler, already parsed. `account`
      is the number the session holds for the signed-in user. */
  datatype Request =
    | Open(name: string, pin: string, deposit: int)
    | SignIn(number: int, pin: string)
    | Put(account: int, amount: int)
    | Take(account: int, amount: int)
    | Send(account: int, receiver: int, amount: int)

  /** The store after one request. A login only reads; a balance request
      whose session names a missing account fails without writing. */
  function Apply(s: Store, q: Request): (t: Store)
  {
    match q
    case Open(name, pin, deposit) => CreateAccount(s, name, pin, deposit).store
    case SignIn(_, _) => s
    case Put(n, amount) => Deposit(s, n, amount).store
    case Take(n, amount) => Withdraw(s, n, amount).store
    case Send(n, to, amount) => Transfer(s, n, to, amount).store
  }

  /** The store after a whole sequence of requests, in order. */
  function Run(s: Store, qs: seq<Request>): (t: Store)
    decreases |qs|
  {
    if |qs| == 0 then s else Run(Apply(s, qs[0]), qs[1..])
  }

  /** One request keeps the store well-formed. */
  lemma ApplyPreserves(s: Store, q: Request)
    requires WellFormed(s)
    ensures WellFormed(Apply(s, q))
  {
    match q
    case Open(name, pin, deposit) => CreatePreserves(s, name, pin, deposit);
    case SignIn(_, _) =>
    case Put(n, amount) => DepositPreserves(s, n, amount);
    case Take(n, amount) => WithdrawPreserves(s, n, amount);
    case Send(n, to, amount) => TransferPreserves(s, n, to, amount);
  }

  /** Any sequence of requests keeps the store well-formed: numbers stay
      1..n without gaps or duplicates (so the n-th account opened has
      number n) and no balance is ever negative. */
  lemma {:induction false} RunPreserves(s: Store, qs: seq<Request>)
    requires WellFormed(s)
    ensures WellFormed(Run(s, qs))
    decreases |qs|
  {
    if |qs| > 0 {
      ApplyPreserves(s, qs[0]);
      RunPreserves(Apply(s, qs[0]), qs[1..]);
    }
  }

  /** Every store the app can reach from its empty start is well-formed. */
  lemma ReachableWellFormed(qs: seq<Request>)
    ensures WellFormed(Run([], qs))
  {
    RunPreserves([], qs);
  }

  /** `t` extends `s`: it is at least as long, and every account of `s`
      keeps its number, name and PIN in `t`. */
  predicate Extends(s: Store, t: Store)
  {
    && |s| <= |t|
    && forall k :: 0 <= k < |s| ==>
         && t[k].number == s[k].number
         && t[k].name == s[k].name
         && t[k].pin == s[k].pin
  }

  /** No request removes an account or changes its number, name or PIN. */
  lemma ApplyExtends(s: Store, q: Request)
    ensures Extends(s, Apply(s, q))
  {
  }

  /** Accounts are never removed, renumbered, renamed or re-keyed by any
      sequence of requests. */
  lemma {:induction false} RunExtends(s: Store, qs: seq<Request>)
    ensures Extends(s, Run(s, qs))
    decreases |qs|
  {
    if |qs| > 0 {
      ApplyExtends(s, qs[0]);
      RunExtends(Apply(s, qs[0]), qs[1..]);
    }
  }

  /** Requests that move money only between accounts: transfers and logins. */
  predicate Internal(q: Request)
  {
    q.Send? || q.SignIn?
  }

  /** Conservation over a run: transfers and logins, in any number and
      order, accepted or refused, leave the sum of all balances as it was. */
  lemma {:induction false} TransfersConserve(s: Store, qs: seq<Request>)
    requires forall k :: 0 <= k < |qs| ==> Internal(qs[k])
    ensures Total(Run(s, qs)) == Total(s)
    decreases |qs|
  {
    if |qs| > 0 {
      if qs[0].Send? {
        TransferPreserves(s, qs[0].account, qs[0].receiver, qs[0].amount);
      }
      RunAfterFirst(s, qs);
      TransfersConserve(Apply(s, qs[0]), qs[1..]);
    }
  }

  /** The remaining requests of an internal run are internal. */
  lemma RunAfterFirst(s: Store, qs: seq<Request>)
    requires |qs| > 0
    requires forall k :: 0 <= k < |qs| ==> Internal(qs[k])
    ensures forall k :: 0 <= k < |qs| - 1 ==> Internal(qs[1..][k])
    ensures Run(s, qs) == Run(Apply(s, qs[0]), qs[1..])
  {
  }

  /** Alice, account 1, as opened with 100.00 (10000 minor units). */
  const Alice := Account(1, "Alice", "1234", 10000)

  /** Bob, account 2, as opened with 0.00. */
  const Bob := Account(2, "Bob", "5678", 0)

  /** Opening Alice's account in the empty store numbers it 1 and keeps
      the stripped PIN. */
  lemma WalkOpenAlice()
    ensures CreateAccount([], "Alice", " 1234 ", 10000) == Step(Ok(1), [Alice])
  {
    StripPinExample();
    PinExamples();
    StripUntrimmed("Alice");
    var a := CreateAccount([], "Alice", " 1234 ", 10000);
    assert a.result.Ok?;
    assert a.store == [Alice];
  }

  /** Opening Bob's account next numbers it 2 and keeps the stripped name. */
  lemma WalkOpenBob()
    ensures CreateAccount([Alice], "  Bob", "5678", 0) == Step(Ok(2), [Alice, Bob])
  {
    StripNameExample();
    PinExamples();
    StripUntrimmed("5678");
    var b := CreateAccount([Alice], "  Bob", "5678", 0);
    assert b.result.Ok?;
    assert b.store == [Alice, Bob];
  }

  /** Alice logs in with her PIN; Bob's number with Alice's PIN is a
      mismatch; number 3 does not exist. */
  lemma WalkLogin()
    ensures Login([Alice, Bob], 1, "1234") == Ok(1)
    ensures Login([Alice, Bob], 2, "1234") == Err(PinMismatch)
    ensures Login([Alice, Bob], 3, "1234") == Err(AccountNotFound)
  {
    StripUntrimmed("1234");
    assert FindIndex([Alice, Bob], 2) == Some(1) by { assert [Alice, Bob][1..] == [Bob]; }
  }

  /** Alice deposits 50.00 (balance 150.00); withdrawing 200.00 is then
      refused for insufficient funds and changes nothing. */
  lemma WalkDepositWithdraw()
    ensures Deposit([Alice, Bob], 1, 5000) == Step(Ok(15000), [Alice.(balance := 15000), Bob])
    ensures Withdraw([Alice.(balance := 15000), Bob], 1, 20000)
            == Step(Err(InsufficientFunds(15000)), [Alice.(balance := 15000), Bob])
  {
    FindInWellFormed([Alice, Bob], 1);
    FindInWellFormed([Alice.(balance := 15000), Bob], 1);
  }

  /** Alice sends 50.00 to Bob, leaving 100.00 and 50.00; a transfer to
      herself is refused and changes nothing. */
  lemma WalkTransfer()
    ensures Transfer([Alice.(balance := 15000), Bob], 1, 2, 5000)
            == Step(Ok((10000, 5000)), [Alice, Bob.(balance := 5000)])
    ensures Transfer([Alice, Bob.(balance := 5000)], 1, 1, 1000)
            == Step(Err(SelfTransfer), [Alice, Bob.(balance := 5000)])
  {
    FindInWellFormed([Alice.(balance := 15000), Bob], 1);
    FindInWellFormed([Alice.(balance := 15000), Bob], 2);
    FindInWellFormed([Alice, Bob.(balance := 5000)], 1);
  }

  /** A session that outlived a restart names account 1 in an empty store:
      a non-positive deposit is still refused as such, while a positive
      deposit, a withdrawal and a transfer fail on the missing account;
      none of them writes. */
  lemma WalkStaleSession()
    ensures Deposit([], 1, 0) == Step(Err(NonPositiveAmount), [])
    ensures Deposit([], 1, 5000) == Step(Err(MissingAccount), [])
    ensures Withdraw([], 1, 5000) == Step(Err(MissingAccount), [])
    ensures Transfer([], 1, 2, 5000) == Step(Err(MissingAccount), [])
  {
  }
}
