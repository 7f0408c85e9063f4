/** `Load` and `Store` of bank-account/account.go over an abstract stored
    record: what the file holds after decoding, not the bytes or the JSON. */
module Persistence {
  import opened Int64
  import opened AccountSpec

  /** What Go's `Load` finds: a file it cannot open (absent, or any other
      open error such as a denied permission), a file it opened but failed to
      read, or the record that decoding left behind. Go's `Load` ignores
      decoding errors, so a corrupt file shows up as whatever record decoding
      produced (for an empty or unparsable file, Go's zero value). */
  datatype StoredFile = CannotOpen | Unreadable | Present(record: AccountState)

  datatype LoadError = NotCreated | ReadFailed

  datatype LoadResult = Loaded(account: AccountState) | LoadFailed(error: LoadError)

  /** The record of Go's zero value `Account{}`. */
  const ZeroRecord: AccountState := AccountState(0, false, false)

  /** `Load`: any failure to open the file, and a record without the opened
      flag, both count as no account at all; only a read failure after a
      successful open is reported as such. */
  function Load(f: StoredFile): (r: LoadResult)
    ensures r.Loaded? <==> f.Present? && f.record.isOpened
    ensures r.Loaded? ==> r.account == f.record
    ensures r == LoadFailed(NotCreated) <==> f.CannotOpen? || (f.Present? && !f.record.isOpened)
    ensures r == LoadFailed(ReadFailed) <==> f.Unreadable?
  {
    match f
    case CannotOpen => LoadFailed(NotCreated)
    case Unreadable => LoadFailed(ReadFailed)
    case Present(record) =>
      if !record.isOpened then LoadFailed(NotCreated) else Loaded(record)
  }

  /** `Store` writes all three semantic fields (the mutex is unexported and
      not serialised): loading the stored file gives the account back
      exactly when it is opened, and "not created" otherwise. */
  function Store(s: AccountState): (f: StoredFile)
    ensures s.isOpened ==> Load(f) == Loaded(s)
    ensures !s.isOpened ==> Load(f) == LoadFailed(NotCreated)
  {
    Present(s)
  }

  /** A decoded zero record is indistinguishable from a file that cannot be
      opened. */
  lemma ZeroRecordIsAbsent()
    ensures Load(Present(ZeroRecord)) == Load(CannotOpen) == LoadFailed(NotCreated)
  {
  }

  /** The other direction of the round trip: storing an account that was
      just loaded writes back the very record that was read. */
  lemma LoadThenStore(f: StoredFile)
    requires Load(f).Loaded?
    ensures Store(Load(f).account) == f
  {
  }

  /** Every account reached from a successful `Open` by any operations
      survives a store and a load unchanged, so the next request sees it. */
  lemma ReachableAccountRoundTrips(initialDeposit: int64, ops: seq<Op>)
    requires initialDeposit >= 0
    ensures Open(initialDeposit).Some?
    ensures Load(Store(Run(Open(initialDeposit).value, ops))) == Loaded(Run(Open(initialDeposit).value, ops))
  {
    RunKeepsOpened(Open(initialDeposit).value, ops);
  }
}
