/** The account state machine as values: one function per operation of
    bank-account/account.go, and what sequences of operations keep. */
module AccountSpec {
  import opened Int64

  /** The semantic fields of Go's `Account` (the mutex is not state). */
  datatype AccountState = AccountState(amount: int64, isOpened: bool, isClosed: bool)

  /** Go's `(value int64, ok bool)` result pair. */
  datatype Reply = Reply(value: int64, ok: bool)

  /** The state after an operation together with what it returned. */
  datatype Outcome = Outcome(state: AccountState, reply: Reply)

  datatype Option<T> = None | Some(value: T)

  /** Every failing operation returns `0, false`. */
  const Rejected: Reply := Reply(0, false)

  /** What every account reached from a successful `Open` satisfies. */
  predicate Invariant(s: AccountState) {
    s.isOpened && s.amount >= 0
  }

  /** `Open`: no account for a negative initial deposit, otherwise an open,
      not closed account holding exactly that deposit. */
  function Open(initialDeposit: int64): (r: Option<AccountState>)
    ensures r.None? <==> initialDeposit < 0
    ensures r.Some? ==> Invariant(r.value) && !r.value.isClosed
    ensures r.Some? ==> r.value.amount == initialDeposit
  {
    if initialDeposit < 0 then None
    else Some(AccountState(initialDeposit, true, false))
  }

  /** `Close`: succeeds once, freezing the amount and paying it out. */
  function Close(s: AccountState): (r: Outcome)
    ensures r.reply.ok <==> !s.isClosed
    ensures r.state.isClosed
    ensures r.state.amount == s.amount && r.state.isOpened == s.isOpened
    ensures r.reply.value == (if r.reply.ok then s.amount else 0)
  {
    if s.isClosed then Outcome(s, Rejected)
    else Outcome(s.(isClosed := true), Reply(s.amount, true))
  }

  /** `Balance`: reads the amount of an account that is not closed. */
  function Balance(s: AccountState): (r: Reply)
    ensures r.ok <==> !s.isClosed
    ensures r.value == (if r.ok then s.amount else 0)
  {
    if s.isClosed then Rejected else Reply(s.amount, true)
  }

  /** `Deposit`: adds a signed amount with Go's wrapping `+` and refuses a
      closed account or a negative result. From a non-negative amount the
      wrap never shows: the deposit succeeds exactly when the mathematical
      sum is a non-negative int64, and then the new amount is that sum. */
  function Deposit(s: AccountState, amount: int64): (r: Outcome)
    ensures r.state.isOpened == s.isOpened && r.state.isClosed == s.isClosed
    ensures !r.reply.ok ==> r.state == s && r.reply == Rejected
    ensures r.reply.ok ==> r.state.amount == r.reply.value >= 0
    ensures r.reply.ok ==> (r.state.amount as int - s.amount as int - amount as int) % MODULUS == 0
    ensures s.amount >= 0 ==>
      (r.reply.ok <==> !s.isClosed && 0 <= s.amount as int + amount as int <= MAX)
    ensures s.amount >= 0 && r.reply.ok ==>
      r.state.amount as int == s.amount as int + amount as int
  {
    if s.isClosed then Outcome(s, Rejected)
    else
      var newBalance := Add(s.amount, amount);
      if newBalance < 0 then Outcome(s, Rejected)
      else Outcome(s.(amount := newBalance), Reply(newBalance, true))
  }

  /** The operations a caller can apply to an opened account. */
  datatype Op = DepositOp(amount: int64) | CloseOp | BalanceOp

  /** One operation: a failure never changes the state, a closed account
      never changes, and the invariant is kept. */
  function Step(s: AccountState, op: Op): (r: Outcome)
    ensures !r.reply.ok ==> r.state == s
    ensures s.isClosed ==> r.state == s && !r.reply.ok
    ensures r.state.isOpened == s.isOpened
    ensures Invariant(s) ==> Invariant(r.state)
  {
    match op
    case DepositOp(x) => Deposit(s, x)
    case CloseOp => Close(s)
    case BalanceOp => Outcome(s, Balance(s))
  }

  /** The state after applying the operations in order. */
  function Run(s: AccountState, ops: seq<Op>): AccountState
    decreases |ops|
  {
    if ops == [] then s else Run(Step(s, ops[0]).state, ops[1..])
  }

  /** The sum of the amounts of the deposits that succeeded along the run. */
  function Credited(s: AccountState, ops: seq<Op>): int
    decreases |ops|
  {
    if ops == [] then 0
    else
      var o := Step(s, ops[0]);
      (if ops[0].DepositOp? && o.reply.ok then ops[0].amount as int else 0)
      + Credited(o.state, ops[1..])
  }

  lemma {:induction false} RunAppend(s: AccountState, ops1: seq<Op>, ops2: seq<Op>)
    ensures Run(s, ops1 + ops2) == Run(Run(s, ops1), ops2)
    decreases |ops1|
  {
    if ops1 != [] {
      assert (ops1 + ops2)[1..] == ops1[1..] + ops2;
      RunAppend(Step(s, ops1[0]).state, ops1[1..], ops2);
    } else {
      assert ops1 + ops2 == ops2;
    }
  }

  lemma {:induction false} RunKeepsInvariant(s: AccountState, ops: seq<Op>)
    requires Invariant(s)
    ensures Invariant(Run(s, ops))
    decreases |ops|
  {
    if ops != [] {
      RunKeepsInvariant(Step(s, ops[0]).state, ops[1..]);
    }
  }

  lemma {:induction false} RunKeepsOpened(s: AccountState, ops: seq<Op>)
    ensures Run(s, ops).isOpened == s.isOpened
    decreases |ops|
  {
    if ops != [] {
      RunKeepsOpened(Step(s, ops[0]).state, ops[1..]);
    }
  }

  /** A closed account is frozen: no sequence of operations changes it. */
  lemma {:induction false} ClosedIsFrozen(s: AccountState, ops: seq<Op>)
    requires s.isClosed
    ensures Run(s, ops) == s
    decreases |ops|
  {
    if ops != [] {
      ClosedIsFrozen(Step(s, ops[0]).state, ops[1..]);
    }
  }

  /** Once a run has closed the account, everything that follows leaves it
      closed with the same amount. */
  lemma ClosedIsTerminal(s: AccountState, ops: seq<Op>, later: seq<Op>)
    requires Run(s, ops).isClosed
    ensures Run(s, ops + later) == Run(s, ops)
  {
    RunAppend(s, ops, later);
    ClosedIsFrozen(Run(s, ops), later);
  }

  /** Every account that a successful `Open` starts keeps a non-negative
      amount and its opened flag whatever is applied to it. */
  lemma OpenedAccountStaysValid(initialDeposit: int64, ops: seq<Op>)
    requires initialDeposit >= 0
    ensures Open(initialDeposit).Some?
    ensures Invariant(Run(Open(initialDeposit).value, ops))
  {
    RunKeepsInvariant(Open(initialDeposit).value, ops);
  }

  /** No money is created or lost: the final amount is the starting amount
      plus exactly the amounts of the deposits that succeeded, with no wrap. */
  lemma {:induction false} AmountIsLedger(s: AccountState, ops: seq<Op>)
    requires Invariant(s)
    ensures Run(s, ops).amount as int == s.amount as int + Credited(s, ops)
    decreases |ops|
  {
    if ops != [] {
      var o := Step(s, ops[0]);
      AmountIsLedger(o.state, ops[1..]);
    }
  }

  /** A second `Close` fails and changes nothing. */
  lemma CloseTwice(s: AccountState)
    requires !s.isClosed
    ensures Close(s).reply == Reply(s.amount, true)
    ensures Close(Close(s).state) == Outcome(Close(s).state, Rejected)
  {
  }
}
