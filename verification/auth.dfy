/** The decision the `login` handler of app.py makes: which account, if
    any, a number and PIN sign in to. */
module Auth {
  import opened Wrappers
  import opened Text
  import opened Accounts

  /** Why a login was refused. */
  datatype AuthError = AccountNotFound | PinMismatch

  /** The `login` handler: strip the supplied PIN, look the number up,
      answer `AccountNotFound` when no account has it, `PinMismatch` when
      the stored PIN differs, and otherwise the number to keep in the
      session. The store is only read. */
  function Login(s: Store, number: int, pin: string): (r: Result<int, AuthError>)
    ensures r == Err(AccountNotFound) <==> forall k :: 0 <= k < |s| ==> s[k].number != number
    ensures r == Err(PinMismatch) <==>
              HasAccount(s, number) && s[IndexOf(s, number)].pin != Strip(pin)
    ensures r.Ok? <==> HasAccount(s, number) && s[IndexOf(s, number)].pin == Strip(pin)
    ensures r.Ok? ==> r.value == number
  {
    match FindIndex(s, number)
    case None => Err(AccountNotFound)
    case Some(i) =>
      if s[i].pin != Strip(pin) then Err(PinMismatch) else Ok(number)
  }

  /** In a well-formed store, a login succeeds exactly when the number is
      one of 1..|s| and account `number - 1` holds the stripped PIN. */
  lemma LoginInWellFormed(s: Store, number: int, pin: string)
    requires WellFormed(s)
    ensures Login(s, number, pin).Ok? <==> 1 <= number <= |s| && s[number - 1].pin == Strip(pin)
  {
    FindInWellFormed(s, number);
  }

  /** Round trip: right after an account is opened, its new number and
      the PIN it was opened with log in to it; any PIN that strips to
      something else is refused as a mismatch. */
  lemma CreateThenLogin(s: Store, name: string, pin: string, deposit: int, other: string)
    requires WellFormed(s)
    requires CreateAccount(s, name, pin, deposit).result.Ok?
    ensures var t := CreateAccount(s, name, pin, deposit).store;
            && Login(t, |s| + 1, pin) == Ok(|s| + 1)
            && (Strip(other) != Strip(pin) ==> Login(t, |s| + 1, other) == Err(PinMismatch))
  {
    var t := CreateAccount(s, name, pin, deposit).store;
    CreatePreserves(s, name, pin, deposit);
    FindInWellFormed(t, |s| + 1);
  }
}
