# Bank account state machine

A model of the single-account balance service's core, `bank-account/account.go`:
an `Account` holding a signed 64-bit `Amount` and two lifecycle flags,
`IsOpened` and `IsClosed`, with the operations `Open`, `Deposit` (a negative
amount is a withdrawal), `Balance` and `Close`, plus the gate that `Load`
applies to a stored record.

- `int64.dfy` (module `Int64`): Go's `int64` as a newtype and Go's `+` on it,
  which wraps modulo 2^64 on overflow.
- `account_spec.dfy` (module `AccountSpec`): the account as a value
  (`AccountState`), one function per operation returning the new state and
  Go's `(value, ok)` pair, `Step`/`Run` for sequences of operations, and the
  lemmas about what every sequence keeps.
- `account.dfy` (module `BankAccount`): the `Account` class whose `Close` and
  `Deposit` update its fields in place, `Balance` as a read-only query, and
  `Open` returning `null` (Go's `nil`) or a fresh account. Each method is
  proved against its `AccountSpec` function. Two client methods replay the
  open/deposit/close and overdraft scenarios.
- `persistence.dfy` (module `Persistence`): `Load` and `Store` over an
  abstract stored record, without files or JSON.

Overflow: `newBalance = a.Amount + amount` wraps in Go. The model writes the
wrap out (`Int64.Add`) instead of forbidding it, and proves that from a
non-negative amount the wrap is harmless: an overflowing sum wraps to a
negative value, which the `newBalance < 0` guard rejects. So `Deposit`
succeeds exactly when the mathematical sum lies in `0 ..= 2^63-1`, and then
stores that sum. An overflowing deposit is reported with the same `0, false`
as an overdraft.

The Go code's behaviour, which the model follows:
- `Deposit` returns the same `0, false` for a closed account and for
  insufficient funds; there are no distinct error kinds.
- `Load` reports every failure to open the file as "not created": a missing
  file and, for instance, a file it may not read are the same to it. Only a
  read failure after a successful open is passed on as an error.
- `Load` ignores JSON decoding errors, so a corrupt file yields whatever
  record decoding produced. A record without the opened flag (such as the
  zero value) is reported as "not created", exactly as a file that cannot be
  opened is.
- `Deposit`, `Balance` and `Close` do not check `IsOpened`; the model's
  methods accept any receiver state and promise only that a valid one stays
  valid.

## Model

| member | source | states |
|---|---|---|
| Int64.Add | bank-account/account.go:60 | Go's int64 `+`: the exact sum when it fits, otherwise the sum shifted by 2^64 in the direction that brings it back into range |
| AccountSpec.Open | bank-account/account.go:20-29 | no account exactly when the initial deposit is negative; otherwise an opened, not closed account whose amount is the deposit |
| AccountSpec.Close | bank-account/account.go:31-41 | succeeds exactly when not already closed; afterwards the account is closed, amount and opened flag unchanged; payout is the amount on success and 0 on failure |
| AccountSpec.Balance | bank-account/account.go:43-51 | succeeds exactly when not closed, returning the amount, otherwise 0 |
| AccountSpec.Deposit | bank-account/account.go:53-67 | flags never change; a failure leaves the state unchanged and returns `0, false`; a success stores and returns a non-negative amount congruent to old amount plus deposit modulo 2^64; from a non-negative amount it succeeds exactly when not closed and the true sum is between 0 and the int64 maximum, and then stores the true sum |
| AccountSpec.Step | bank-account/account.go:31-67 | any single operation: a failure changes nothing, a closed account is unchanged and every operation on it fails, the opened flag is kept, and the invariant (opened, amount >= 0) is preserved |
| AccountSpec.RunKeepsInvariant | bank-account/account.go:57-65 | every sequence of operations from a state with amount >= 0 and the opened flag set ends in such a state |
| AccountSpec.RunKeepsOpened | bank-account/account.go:25-28 | no operation ever changes the opened flag |
| AccountSpec.ClosedIsFrozen | bank-account/account.go:36-37 | from a closed account every sequence of operations leaves the state exactly as it was |
| AccountSpec.ClosedIsTerminal | bank-account/account.go:57-58 | once a run has closed the account, any further operations leave the final state equal to the state at closing: closed is never reset and the amount never changes |
| AccountSpec.RunAppend | bank-account/account.go:31-67 | running two sequences one after the other equals running their concatenation |
| AccountSpec.OpenedAccountStaysValid | bank-account/account.go:22-28 | every account produced by a successful `Open` keeps amount >= 0 and the opened flag under any sequence of operations |
| AccountSpec.AmountIsLedger | bank-account/account.go:60-65 | from a valid state, the final amount equals the starting amount plus exactly the amounts of the deposits that succeeded, with no wrap-around |
| AccountSpec.CloseTwice | bank-account/account.go:36-40 | a first `Close` pays out the amount; a second fails with `0, false` and changes nothing |
| BankAccount.Account.Zero | bank-account/account.go:25 | Go's zero-valued account: amount 0, neither opened nor closed |
| BankAccount.Account.Close | bank-account/account.go:31-41 | sets the closed flag in place, succeeds exactly when it was not set, pays out the unchanged amount, keeps validity, and agrees with `AccountSpec.Close` |
| BankAccount.Account.Balance | bank-account/account.go:43-51 | changes nothing; succeeds exactly when not closed, returning the amount, and agrees with `AccountSpec.Balance` |
| BankAccount.Account.Deposit | bank-account/account.go:53-67 | updates the amount in place only on success; flags untouched; failure returns `0, false` with the amount unchanged; from a non-negative amount succeeds exactly when not closed and the true sum fits in 0 to the int64 maximum, storing that sum; keeps validity and agrees with `AccountSpec.Deposit` |
| BankAccount.Open | bank-account/account.go:20-29 | returns null exactly for a negative deposit, otherwise a fresh valid, not closed account holding the deposit, matching `AccountSpec.Open` |
| Persistence.Load | bank-account/account.go:69-91 | loads an account exactly when the stored record has the opened flag, returning that record; any failure to open the file (absent or otherwise) and a record without the flag both give "not created"; only a read failure after a successful open gives a read failure |
| Persistence.ZeroRecordIsAbsent | bank-account/account.go:86-88 | a decoded zero-valued record loads exactly as a file that cannot be opened does |
| Persistence.Store | bank-account/account.go:93-105 | writes all three semantic fields, so that `Load` of the stored file returns the same account when it is opened and "not created" otherwise (the store-then-load round trip) |
| Persistence.LoadThenStore | bank-account/account.go:82-99 | an account that `Load` returned is written back by `Store` as exactly the record that was read |
| Persistence.ReachableAccountRoundTrips | bank-account/account.go:86-90 | every account reached from a successful `Open` by any operations survives a store and a load unchanged |

## Left out

- The `sync.Mutex` in `Account` (bank-account/account.go:17, 33-34, 45-46, 55-56): its only effect is that each operation is atomic, which a sequential method already is.
- The lost-update race between two requests that each load, change and store their own copy: a concurrency property of the request flow, not of the account.
- File and JSON handling in `Load` and `Store`: the file name, permissions, `ioutil.ReadAll`, `json.Marshal` and `json.Unmarshal` are replaced by the abstract `StoredFile`; which record a given corrupt file decodes to is not modelled.
- Persistence.Store: a failing write is not modelled; `Store` always produces the stored record, and what a failed write leaves on disk is unknown to the model.
- Error message texts ("Account is not created") and the error values returned by the read and write calls are reduced to `LoadError`.
- `server.go` (HTTP routing, body parsing, status codes, response writing) is not part of this model.
