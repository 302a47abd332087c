/**
 * The unit of work: the repositories over one context, and a nullable
 * handle on the database transaction that is open, if any.
 */
module UnitOfWork {
  import opened Domain
  import opened Storage

  /** What the unit of work asked of the database through a transaction handle. */
  datatype TransactionEvent = Committed(handle: int) | RolledBack(handle: int)

  class UnitOfWork {
    /**
     * The context every repository property reads and writes. The properties
     * are get-only, so the repositories cannot be replaced after construction.
     */
    const store: Store
    /** The open transaction's handle, or none. */
    var transaction: Option<int>
    /** The commits and rollbacks sent to the database, oldest first. */
    var events: seq<TransactionEvent>

    constructor (store: Store)
      ensures this.store == store
      ensures transaction.None? && events == []
    {
      this.store := store;
      transaction := None;
      events := [];
    }

    /**
     * `BeginTransactionAsync`: the handle the database hands out becomes the
     * open transaction, replacing any handle already held without closing it.
     */
    method BeginTransaction(handle: int)
      modifies this`transaction
      ensures transaction == Some(handle)
    {
      transaction := Some(handle);
    }

    /** `CommitAsync`: commits and forgets the open transaction; with none open it does nothing. */
    method Commit()
      modifies this`transaction, this`events
      ensures old(transaction).None? ==> transaction.None? && events == old(events)
      ensures old(transaction).Some? ==> events == old(events) + [Committed(old(transaction).value)]
      ensures transaction.None?
    {
      if transaction.Some? {
        events := events + [Committed(transaction.value)];
        transaction := None;
      }
    }

    /** `RollbackAsync`: rolls back and forgets the open transaction; with none open it does nothing. */
    method Rollback()
      modifies this`transaction, this`events
      ensures old(transaction).None? ==> transaction.None? && events == old(events)
      ensures old(transaction).Some? ==> events == old(events) + [RolledBack(old(transaction).value)]
      ensures transaction.None?
    {
      if transaction.Some? {
        events := events + [RolledBack(transaction.value)];
        transaction := None;
      }
    }
  }
}
