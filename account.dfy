/** The `Account` object of bank-account/account.go. Go's `Account` methods
    `Close` and `Deposit` update its fields in place, each under the
    account's own mutex, so each method here is one atomic step. */
module BankAccount {
  import opened Int64
  import AccountSpec

  class Account {
    var amount: int64
    var isClosed: bool
    var isOpened: bool

    /** Go's zero value `var a Account`. */
    constructor Zero()
      ensures amount == 0 && !isClosed && !isOpened
    {
      amount, isClosed, isOpened := 0, false, false;
    }

    /** The fields as a value of the specification. */
    function State(): AccountSpec.AccountState
      reads this
    {
      AccountSpec.AccountState(amount, isOpened, isClosed)
    }

    ghost predicate Valid()
      reads this
    {
      AccountSpec.Invariant(State())
    }

    method Close() returns (payout: int64, ok: bool)
      modifies this
      ensures ok == !old(isClosed)
      ensures isClosed && amount == old(amount) && isOpened == old(isOpened)
      ensures payout == (if ok then amount else 0)
      ensures old(Valid()) ==> Valid()
      ensures AccountSpec.Outcome(State(), AccountSpec.Reply(payout, ok)) == AccountSpec.Close(old(State()))
    {
      if isClosed {
        return 0, false;
      }
      isClosed := true;
      return amount, true;
    }

    method Balance() returns (balance: int64, ok: bool)
      ensures ok == !isClosed
      ensures balance == (if ok then amount else 0)
      ensures AccountSpec.Reply(balance, ok) == AccountSpec.Balance(State())
    {
      if isClosed {
        return 0, false;
      }
      return amount, true;
    }

    method Deposit(x: int64) returns (newBalance: int64, ok: bool)
      modifies this
      ensures isClosed == old(isClosed) && isOpened == old(isOpened)
      ensures !ok ==> amount == old(amount) && newBalance == 0
      ensures ok ==> newBalance == amount && amount >= 0
      ensures old(isClosed) ==> !ok
      ensures old(amount) >= 0 ==>
        (ok <==> !old(isClosed) && 0 <= old(amount) as int + x as int <= MAX)
      ensures old(amount) >= 0 && ok ==> amount as int == old(amount) as int + x as int
      ensures old(Valid()) ==> Valid()
      ensures AccountSpec.Outcome(State(), AccountSpec.Reply(newBalance, ok)) == AccountSpec.Deposit(old(State()), x)
    {
      if isClosed {
        return 0, false;
      }
      newBalance := Add(amount, x);
      if newBalance < 0 {
        return 0, false;
      }
      amount := newBalance;
      return amount, true;
    }
  }

  /** `Open` returns no account (Go's nil) for a negative initial deposit,
      and otherwise a new open account holding that deposit. */
  method Open(initialDeposit: int64) returns (a: Account?)
    ensures (a == null) <==> initialDeposit < 0
    ensures a != null ==> fresh(a) && a.Valid() && !a.isClosed && a.amount == initialDeposit
    ensures a != null ==> AccountSpec.Open(initialDeposit) == AccountSpec.Some(a.State())
  {
    if initialDeposit < 0 {
      return null;
    }
    a := new Account.Zero();
    a.amount := initialDeposit;
    a.isOpened := true;
  }

  /** A client: open with 100, deposit 50, read 150, close for a payout of
      150, after which reading the balance fails. */
  method DepositThenCloseScenario() {
    var a := Open(100);
    var b, ok := a.Deposit(50);
    assert ok && b == 150;
    b, ok := a.Balance();
    assert ok && b == 150;
    var payout, closed := a.Close();
    assert closed && payout == 150;
    b, ok := a.Balance();
    assert !ok;
    b, ok := a.Deposit(1);
    assert !ok;
    payout, closed := a.Close();
    assert !closed && payout == 0;
  }

  /** A client: a withdrawal larger than the balance fails and leaves the
      balance at 100. */
  method OverdraftScenario() {
    var a := Open(100);
    var b, ok := a.Deposit(-150);
    assert !ok;
    b, ok := a.Balance();
    assert ok && b == 100;
  }
}
