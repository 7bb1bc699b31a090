# Bank ledger model

A Dafny model of the ledger logic of a small Flask banking app
(`app.py`). The app keeps every account in one in-memory list of
records with a `number`, `name`, `pin` and `balance`. It opens accounts
with sequential numbers, checks a login (number plus four-digit PIN), and
runs deposits, withdrawals and transfers between accounts. Each
handler's decision logic is written here as a pure function over an
immutable `seq<Account>` store. The function returns a result value plus
the store it leaves behind.

Modules, one per part of the source:

- `Wrappers` (`wrappers.dfy`): `Option` and `Result`.
- `Text` (`text.dfy`): Python's `str.strip()`, applied to the name and PIN
  form fields, and `validate_pin`.
- `Accounts` (`accounts.dfy`): the account record and store,
  `find_account`, account creation, the store invariant `WellFormed`, and
  the balance total `Total`.
- `Auth` (`auth.dfy`): the decision made by the `login` handler.
- `Ledger` (`ledger.dfy`): the `deposit`, `withdraw` and `transfer`
  handlers.
- `Requests` (`requests.dfy`): a sequence of handler calls starting from
  the empty list. It carries the properties that hold over every run and
  a concrete walk-through.

Balances and amounts are integers in minor units, so 100.00 is 10000.
Form strings are taken as already parsed. The session account number is
a parameter. The login gate only checks that the session holds a number,
not that an account has it. A session can outlive the in-memory store,
because the store is lost on restart while the signed cookie stays valid.
For such a number the balance handlers still run. A non-positive deposit
or withdrawal amount is refused as usual. Otherwise the handler indexes
the `None` that `find_account` returned and raises an uncaught `TypeError`
(app.py:121, 137, 156). The model gives this path its own error,
`MissingAccount`, and the store is unchanged on it, as in the source.

The source has no locking, and the model is sequential. A reimplementation
serving concurrent callers would need locks. Those locks are not part of
this model.

## Model

| member | source | states |
|---|---|---|
| Accounts.FindIndex | app.py:11-16 | the index of the first account with the queried number; no index exactly when no account has that number |
| Accounts.FindAccount | app.py:11-16 | the linear-search loop returns an account carrying the queried number, the first such one, and None only when no account has the number |
| Text.ValidatePin | app.py:18-20 | true exactly when the PIN has length 4 and every character is a digit, so the empty string and every other length are refused |
| Text.Strip | app.py:40-41 | the stripped string is a slice of the input with only whitespace outside it and a non-space character at each end; it is empty exactly when the input is all whitespace |
| Text.StripAround | app.py:40-41 | stripping removes exactly the whitespace around a core that neither starts nor ends with whitespace |
| Text.StripIdempotent | app.py:40-41 | stripping a stripped value changes nothing |
| Text.PinExamples | app.py:18-20 | "1234" and "5678" pass the PIN check; "123", "12345" and "12a4" fail it |
| Accounts.CreateAccount | app.py:40-70 | after stripping the fields, an empty name, a malformed PIN and a negative deposit are refused in that order with the store unchanged; otherwise exactly one account numbered length+1 is appended with the stripped name and PIN and the deposit, and all earlier accounts are kept |
| Accounts.CreatePreserves | app.py:63-70 | creation keeps the store invariant (numbers 1..n in order, non-empty names, valid PINs, non-negative balances) and raises the total by exactly the opening deposit |
| Accounts.CreateThenFind | app.py:63-70 | after a creation the new number finds exactly the new account record (number, stripped name, stripped PIN, deposit), and every number that found an account before still finds the same account |
| Accounts.NumbersUnique | app.py:63-70 | in a store that keeps the invariant, no two accounts share a number |
| Accounts.FindInWellFormed | app.py:11-16 | in a store that keeps the invariant, number n exists exactly when 1 <= n <= length, and it is found at position n-1 |
| Auth.Login | app.py:86-99 | not-found exactly when no account has the number; PIN mismatch exactly when the found account's PIN differs from the stripped PIN; otherwise success carrying the number; the store is only read |
| Auth.LoginInWellFormed | app.py:88-99 | in a store that keeps the invariant, a login succeeds exactly when 1 <= number <= length and that account's PIN equals the stripped PIN |
| Auth.CreateThenLogin | app.py:86-96 | round trip: right after an account is opened, its number and the PIN it was opened with log in; a PIN that strips to something else is a mismatch |
| Ledger.Deposit | app.py:113-121 | a non-positive amount is refused with the store unchanged, even for a missing session account; a positive amount for a missing account fails with the store unchanged; otherwise that account's balance grows by exactly the amount, its number, name and PIN are kept, and every other account is unchanged |
| Ledger.Withdraw | app.py:130-140 | a non-positive amount, then a missing session account, then an amount above the balance, is refused with the store unchanged; otherwise the balance drops by exactly the amount and stays non-negative, and every other account is unchanged |
| Ledger.Transfer | app.py:149-168 | refusals are checked in order: missing session account, self-transfer, non-positive amount, missing receiver, insufficient funds; each leaves the store unchanged; otherwise the sender loses and the receiver gains exactly the amount, their sum is preserved, the sender stays non-negative, and every other account is unchanged |
| Ledger.DepositPreserves | app.py:118-121 | a deposit, accepted or refused, keeps the store invariant and changes the total by exactly the amount deposited |
| Ledger.WithdrawPreserves | app.py:135-140 | a withdrawal, accepted or refused, keeps the store invariant and changes the total by exactly minus the amount withdrawn |
| Ledger.TransferPreserves | app.py:156-168 | a transfer, accepted or refused, leaves the total of all balances unchanged and keeps the store invariant |
| Requests.RunPreserves | app.py:38-173 | any sequence of handler calls keeps the store invariant: numbers 1..n with no gaps or duplicates, and no negative balance |
| Requests.ReachableWellFormed | app.py:8-173 | every store reachable from the empty account list keeps the invariant, so the n-th account opened has number n |
| Requests.RunExtends | app.py:38-173 | no sequence of handler calls removes an account or changes its number, name or PIN |
| Requests.TransfersConserve | app.py:147-168 | any sequence of transfers and logins leaves the total of all balances unchanged |
| Requests.WalkOpenAlice | app.py:40-70 | opening "Alice" with PIN " 1234 " and 100.00 on the empty list yields number 1 with the PIN stripped |
| Requests.WalkOpenBob | app.py:40-70 | opening "  Bob" next yields number 2 with the name stripped |
| Requests.WalkLogin | app.py:86-99 | the right PIN logs in; another account's PIN is a mismatch; number 3 is not found |
| Requests.WalkDepositWithdraw | app.py:113-140 | depositing 50.00 gives 150.00; withdrawing 200.00 is then refused, reporting 150.00, and nothing changes |
| Requests.WalkStaleSession | app.py:113-156 | with a session naming account 1 in an empty store, a zero deposit is refused as non-positive, while a positive deposit, a withdrawal and a transfer fail on the missing account; the store stays empty |
| Requests.WalkTransfer | app.py:149-168 | sending 50.00 to Bob leaves 100.00 and 50.00; sending to oneself is refused and nothing changes |

## Left out

- Flask routing, templates, redirects, `flash` messages, `url_for` and `app.run` (app.py:1-5, 33-35, 181-182) are web plumbing. The refusal kinds in the result values stand in for the flashed messages.
- Sessions, the `login_required` gate and `logout` (app.py:22-30, 175-179) are transport state. The session number is a parameter. A request with no session number at all is redirected by the gate before any handler runs, so it is not part of `Requests.Request`.
- The uncaught `TypeError` for a session that names a missing account (app.py:121, 137, 156) is modelled as the `MissingAccount` result. The HTTP error response it causes is not modelled.
- `dashboard` (app.py:105-109) only looks an account up. That lookup is `Accounts.FindAccount`.
- Parsing of form strings with `float()`/`int()` and the `ValueError` paths (app.py:54, 58-60, 81-84, 117, 123-124, 134, 142-143, 153-154, 170-171) are not modelled. Amounts are already-parsed integers in minor units. Float rounding and `nan`/`inf` amounts are floating-point behaviour and are not modelled. The form defaults (a missing deposit reads as "0", a missing number as 0) belong to parsing.
- Text.ValidatePin: accepts only the ASCII digits 0-9. Python's `str.isdigit()` also accepts other Unicode digit characters, such as superscripts and Arabic-Indic digits, so the model is stricter than the source there.
- The deposit, withdraw and transfer handlers answer with a redirect. The models return the new balance or balances instead. These are the values the success messages report.
- Concurrency and locking: the source has none, and the model is sequential.
- Currency formatting (`:.2f`, "PKR") in messages.
