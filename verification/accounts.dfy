/** The account store of app.py: the in-memory list of account records,
    lookup by number, and account creation. */
module Accounts {
  import opened Wrappers
  import opened Text

  /** One account record. `balance` is in integer minor units. */
  datatype Account = Account(number: int, name: string, pin: string, balance: int)

  /** The in-memory account list, in creation order. */
  type Store = seq<Account>

  /** What an operation answers together with the store it leaves behind. */
  datatype Step<+T, +E> = Step(result: Result<T, E>, store: Store)

  /** Why account creation was refused. */
  datatype CreateError = EmptyName | InvalidPin | NegativeDeposit

  /** app.py `find_account`, as the index of the first account with the
      given number: no account before it has that number, and there is no
      index exactly when no account has it. */
  function FindIndex(s: Store, n: int): (r: Option<nat>)
    ensures r.Some? ==> r.value < |s| && s[r.value].number == n
                        && forall k :: 0 <= k < r.value ==> s[k].number != n
    ensures r.None? <==> forall k :: 0 <= k < |s| ==> s[k].number != n
    decreases |s|
  {
    if |s| == 0 then None
    else if s[0].number == n then Some(0)
    else match FindIndex(s[1..], n)
      case None => None
      case Some(i) => Some(i + 1)
  }

  /** Some account in the store has number `n`. */
  predicate HasAccount(s: Store, n: int)
  {
    FindIndex(s, n).Some?
  }

  /** The position of the account `find_account` returns for `n`. */
  function IndexOf(s: Store, n: int): (i: nat)
    requires HasAccount(s, n)
    ensures i < |s| && s[i].number == n
    ensures forall k :: 0 <= k < i ==> s[k].number != n
  {
    FindIndex(s, n).value
  }

  /** app.py `find_account` as the loop it is: the first account whose
      number is `n`, or None only when no account has that number. */
  method FindAccount(s: Store, n: int) returns (r: Option<Account>)
    ensures r.Some? ==> r.value.number == n && r.value in s
    ensures r.None? <==> forall k :: 0 <= k < |s| ==> s[k].number != n
    ensures HasAccount(s, n) ==> r == Some(s[IndexOf(s, n)])
  {
    var i := 0;
    while i < |s|
      invariant 0 <= i <= |s|
      invariant forall k :: 0 <= k < i ==> s[k].number != n
    {
      if s[i].number == n {
        return Some(s[i]);
      }
      i := i + 1;
    }
    return None;
  }

  /** The store invariant every operation keeps: account `i` (0-based)
      has number `i + 1`, a non-empty name, a valid PIN and a balance that
      is not negative. */
  predicate WellFormed(s: Store)
  {
    forall i :: 0 <= i < |s| ==>
      && s[i].number == i + 1
      && s[i].name != []
      && ValidatePin(s[i].pin)
      && s[i].balance >= 0
  }

  /** In a well-formed store no two accounts share a number. */
  lemma NumbersUnique(s: Store, i: nat, j: nat)
    requires WellFormed(s)
    requires i < |s| && j < |s| && s[i].number == s[j].number
    ensures i == j
  {
  }

  /** In a well-formed store the numbers in use are exactly 1..|s|, and
      number `n` sits at position `n - 1`. */
  lemma FindInWellFormed(s: Store, n: int)
    requires WellFormed(s)
    ensures HasAccount(s, n) <==> 1 <= n <= |s|
    ensures HasAccount(s, n) ==> IndexOf(s, n) == n - 1
  {
    if 1 <= n <= |s| {
      assert s[n - 1].number == n;
    }
  }

  /** The sum of all balances in the store. */
  function Total(s: Store): (t: int)
    decreases |s|
  {
    if |s| == 0 then 0 else s[0].balance + Total(s[1..])
  }

  /** Appending an account adds its balance to the total. */
  lemma {:induction false} TotalAppend(s: Store, a: Account)
    ensures Total(s + [a]) == Total(s) + a.balance
    decreases |s|
  {
    if |s| > 0 {
      assert (s + [a])[1..] == s[1..] + [a];
      TotalAppend(s[1..], a);
    }
  }

  /** Replacing one account changes the total by the difference of the
      two balances. */
  lemma {:induction false} TotalUpdate(s: Store, i: nat, a: Account)
    requires i < |s|
    ensures Total(s[i := a]) == Total(s) - s[i].balance + a.balance
    decreases |s|
  {
    if i > 0 {
      assert s[i := a][1..] == s[1..][i - 1 := a];
      TotalUpdate(s[1..], i - 1, a);
    }
  }

  /** The `create_account` handler: strip the name and PIN, then refuse an
      empty name, a malformed PIN and a negative opening deposit, in that
      order, leaving the store as it was; otherwise append one account
      numbered `|s| + 1` and answer that number. */
  function CreateAccount(s: Store, name: string, pin: string, deposit: int): (r: Step<int, CreateError>)
    ensures r.result == Err(EmptyName) <==> Strip(name) == []
    ensures r.result == Err(InvalidPin) <==> Strip(name) != [] && !ValidatePin(Strip(pin))
    ensures r.result == Err(NegativeDeposit) <==>
              Strip(name) != [] && ValidatePin(Strip(pin)) && deposit < 0
    ensures r.result.Err? ==> r.store == s
    ensures r.result.Ok? ==>
              && r.result.value == |s| + 1
              && |r.store| == |s| + 1
              && r.store[..|s|] == s
              && r.store[|s|] == Account(|s| + 1, Strip(name), Strip(pin), deposit)
  {
    var name' := Strip(name);
    var pin' := Strip(pin);
    if name' == [] then Step(Err(EmptyName), s)
    else if !ValidatePin(pin') then Step(Err(InvalidPin), s)
    else if deposit < 0 then Step(Err(NegativeDeposit), s)
    else
      var number := |s| + 1;
      Step(Ok(number), s + [Account(number, name', pin', deposit)])
  }

  /** Creation keeps the store well-formed and raises the total by exactly
      the opening deposit (by nothing when refused). */
  lemma CreatePreserves(s: Store, name: string, pin: string, deposit: int)
    requires WellFormed(s)
    ensures WellFormed(CreateAccount(s, name, pin, deposit).store)
    ensures var r := CreateAccount(s, name, pin, deposit);
            Total(r.store) == Total(s) + (if r.result.Ok? then deposit else 0)
  {
    var r := CreateAccount(s, name, pin, deposit);
    if r.result.Ok? {
      TotalAppend(s, r.store[|s|]);
      assert r.store == s + [r.store[|s|]];
    }
  }

  /** After a successful creation the new number finds the new account,
      and every number that found an account before still finds the same one. */
  lemma CreateThenFind(s: Store, name: string, pin: string, deposit: int, n: int)
    requires WellFormed(s)
    requires CreateAccount(s, name, pin, deposit).result.Ok?
    ensures var t := CreateAccount(s, name, pin, deposit).store;
            && HasAccount(t, |s| + 1)
            && t[IndexOf(t, |s| + 1)] == Account(|s| + 1, Strip(name), Strip(pin), deposit)
            && (HasAccount(s, n) ==> HasAccount(t, n) && t[IndexOf(t, n)] == s[IndexOf(s, n)])
  {
    var t := CreateAccount(s, name, pin, deposit).store;
    CreatePreserves(s, name, pin, deposit);
    FindInWellFormed(t, |s| + 1);
    FindInWellFormed(t, n);
    FindInWellFormed(s, n);
  }
}
