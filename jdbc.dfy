/** A MySQL database and one JDBC connection to it, as far as the transactional service
    uses them: auto-commit, commit, rollback, close, and the statements it runs. */
module Jdbc {
  import opened JavaLang
  import opened Exceptions
  import opened CustomerTable
  import opened Relations

  /** The constraints the schema enforces, with every key below the counter. */
  ghost predicate TablesValid(t: Tables, nextId: int) {
    && 1 <= nextId <= MaxInt32 + 1
    && KeysBelow(t.customers, nextId)
    && EmailsUnique(t.customers)
    && KeysResolve(t)
  }

  /** The database server: the committed tables and the Customer AUTO_INCREMENT
      counter, which a rollback does not wind back. */
  class Database {
    var tables: Tables
    var nextId: int

    ghost predicate Valid()
      reads this
    {
      TablesValid(tables, nextId)
    }

    constructor (tables: Tables, nextId: int)
      requires TablesValid(tables, nextId)
      ensures Valid() && this.tables == tables && this.nextId == nextId
    {
      this.tables := tables;
      this.nextId := nextId;
    }
  }

  /** One java.sql.Connection. Its statements work on `pending`; in auto-commit mode
      every statement is committed at once, otherwise `pending` holds the open
      transaction until commit or rollback. */
  class Connection {
    const db: Database
    /** The tables as this connection's statements see them. */
    var pending: Tables
    var autoCommit: bool
    /** commit() has succeeded on this connection. */
    var committed: bool
    var closed: bool

    ghost predicate Valid()
      reads this, db
    {
      && db.Valid()
      && TablesValid(pending, db.nextId)
      && (autoCommit ==> pending == db.tables)
    }

    /** A connection freshly handed out by DriverManager: auto-commit on. */
    constructor (db: Database)
      requires db.Valid()
      ensures Valid() && this.db == db
      ensures pending == db.tables && autoCommit && !committed && !closed
    {
      this.db := db;
      pending := db.tables;
      autoCommit := true;
      committed := false;
      closed := false;
    }

    /** Connection.setAutoCommit: switching auto-commit on while a transaction is open
        commits it, as JDBC prescribes. */
    method SetAutoCommit(on: bool, fail: Option<SqlException>) returns (r: DbResult<()>)
      requires Valid()
      modifies this, db
      ensures Valid()
      ensures pending == old(pending) && committed == old(committed) && closed == old(closed)
      ensures db.nextId == old(db.nextId)
      ensures fail.Some? ==> r == Failed(fail.value) && autoCommit == old(autoCommit) && db.tables == old(db.tables)
      ensures fail.None? ==> r == Ok(()) && autoCommit == on
      ensures fail.None? ==> db.tables == (if on && !old(autoCommit) then old(pending) else old(db.tables))
    {
      if fail.Some? {
        return Failed(fail.value);
      }
      if on && !autoCommit {
        db.tables := pending;
      }
      autoCommit := on;
      return Ok(());
    }

    /** Connection.commit, only ever called with auto-commit off. */
    method Commit(fail: Option<SqlException>) returns (r: DbResult<()>)
      requires Valid() && !autoCommit
      modifies this, db
      ensures Valid()
      ensures pending == old(pending) && autoCommit == old(autoCommit) && closed == old(closed)
      ensures db.nextId == old(db.nextId)
      ensures fail.Some? ==> r == Failed(fail.value) && db.tables == old(db.tables) && committed == old(committed)
      ensures fail.None? ==> r == Ok(()) && db.tables == old(pending) && committed
    {
      if fail.Some? {
        return Failed(fail.value);
      }
      db.tables := pending;
      committed := true;
      return Ok(());
    }

    /** Connection.rollback: the open transaction's work is discarded. In auto-commit
        mode the driver refuses, which the source catches and logs, so nothing changes.
        A rollback that throws leaves the transaction as it was. */
    method Rollback(fail: Option<SqlException>) returns (r: DbResult<()>)
      requires Valid()
      modifies this
      ensures Valid()
      ensures fail.Some? ==> r == Failed(fail.value) && pending == old(pending)
      ensures fail.None? ==> r == Ok(()) && pending == old(db.tables)
      ensures autoCommit == old(autoCommit) && committed == old(committed) && closed == old(closed)
    {
      if fail.Some? {
        return Failed(fail.value);
      }
      pending := db.tables;
      return Ok(());
    }

    /** Connection.close; work not committed is lost. A close that throws leaves the
        connection open. */
    method Close(fail: Option<SqlException>) returns (r: DbResult<()>)
      requires Valid()
      modifies this
      ensures Valid()
      ensures fail.Some? ==> r == Failed(fail.value) && pending == old(pending) && closed == old(closed)
      ensures fail.None? ==> r == Ok(()) && closed && pending == db.tables
      ensures autoCommit == old(autoCommit) && committed == old(committed)
    {
      if fail.Some? {
        return Failed(fail.value);
      }
      pending := db.tables;
      closed := true;
      return Ok(());
    }

    /** Runs a statement that changed the tables to `t`; auto-commit makes it durable. */
    method Apply(t: Tables)
      requires Valid() && TablesValid(t, db.nextId)
      modifies this, db
      ensures Valid()
      ensures pending == t && db.nextId == old(db.nextId)
      ensures db.tables == (if autoCommit then t else old(db.tables))
      ensures autoCommit == old(autoCommit) && committed == old(committed) && closed == old(closed)
    {
      pending := t;
      if autoCommit {
        db.tables := t;
      }
    }

    /** `SELECT 1 FROM Customer WHERE customer_id = ?` and `rs.next()`. */
    method CustomerExists(cid: Int32, fail: Option<SqlException>) returns (r: DbResult<bool>)
      requires Valid()
      ensures fail.Some? ==> r == Failed(fail.value)
      ensures fail.None? ==> r == Ok(cid in pending.customers)
    {
      if fail.Some? {
        return Failed(fail.value);
      }
      return Ok(cid in pending.customers);
    }

    /** The DELETE of the customer's order lines. */
    method DeleteLines(cid: Int32, fail: Option<SqlException>) returns (r: DbResult<()>)
      requires Valid()
      modifies this, db
      ensures Valid()
      ensures db.nextId == old(db.nextId)
      ensures autoCommit == old(autoCommit) && committed == old(committed) && closed == old(closed)
      ensures fail.Some? ==> r == Failed(fail.value) && pending == old(pending) && db.tables == old(db.tables)
      ensures fail.None? ==> r == Ok(()) && pending == DeleteLinesOf(old(pending), cid)
      ensures fail.None? ==> db.tables == (if autoCommit then pending else old(db.tables))
    {
      if fail.Some? {
        return Failed(fail.value);
      }
      StatementsKeepKeysResolving(pending, cid);
      Apply(DeleteLinesOf(pending, cid));
      return Ok(());
    }

    /** The DELETE of the customer's orders. */
    method DeleteOrders(cid: Int32, fail: Option<SqlException>) returns (r: DbResult<()>)
      requires Valid()
      modifies this, db
      ensures Valid()
      ensures db.nextId == old(db.nextId)
      ensures autoCommit == old(autoCommit) && committed == old(committed) && closed == old(closed)
      ensures fail.Some? ==> r == Failed(fail.value) && pending == old(pending) && db.tables == old(db.tables)
      ensures fail.None? ==> r == Ok(()) && pending == DeleteOrdersOf(old(pending), cid)
      ensures fail.None? ==> db.tables == (if autoCommit then pending else old(db.tables))
    {
      if fail.Some? {
        return Failed(fail.value);
      }
      StatementsKeepKeysResolving(pending, cid);
      Apply(DeleteOrdersOf(pending, cid));
      return Ok(());
    }

    /** The DELETE of the customer row; answers the number of rows affected. */
    method DeleteCustomer(cid: Int32, fail: Option<SqlException>) returns (r: DbResult<nat>)
      requires Valid()
      modifies this, db
      ensures Valid()
      ensures db.nextId == old(db.nextId)
      ensures autoCommit == old(autoCommit) && committed == old(committed) && closed == old(closed)
      ensures fail.Some? ==> r == Failed(fail.value) && pending == old(pending) && db.tables == old(db.tables)
      ensures fail.None? ==> r == Ok(DeleteCustomerRow(old(pending), cid).1)
                             && pending == DeleteCustomerRow(old(pending), cid).0
      ensures fail.None? ==> db.tables == (if autoCommit then pending else old(db.tables))
    {
      if fail.Some? {
        return Failed(fail.value);
      }
      var (t, affected) := DeleteCustomerRow(pending, cid);
      StatementsKeepKeysResolving(pending, cid);
      Apply(t);
      return Ok(affected);
    }

    /** Another session deletes the same customer with the same cascade and commits
        while this connection's transaction is open; this connection's next statement
        no longer finds the customer row. */
    method OtherSessionDeletes(cid: Int32)
      requires Valid()
      modifies this, db
      ensures Valid()
      ensures db.tables == Cascade(old(db.tables), cid) && db.nextId == old(db.nextId)
      ensures pending == (if autoCommit then db.tables else DeleteCustomerRow(old(pending), cid).0)
      ensures autoCommit == old(autoCommit) && committed == old(committed) && closed == old(closed)
    {
      var t := db.tables;
      StatementsKeepKeysResolving(t, cid);
      StatementsKeepKeysResolving(DeleteLinesOf(t, cid), cid);
      StatementsKeepKeysResolving(DeleteOrdersOf(DeleteLinesOf(t, cid), cid), cid);
      db.tables := Cascade(t, cid);
      StatementsKeepKeysResolving(pending, cid);
      pending := if autoCommit then db.tables else DeleteCustomerRow(pending, cid).0;
    }

    /** `INSERT INTO Customer (name, email, phone_number) VALUES (?, ?, ?)` with
        RETURN_GENERATED_KEYS: the rows affected and the generated key. */
    method InsertCustomer(row: Row, fail: Option<SqlException>) returns (r: DbResult<(nat, Option<Int32>)>)
      requires Valid()
      modifies this, db
      ensures Valid()
      ensures autoCommit == old(autoCommit) && committed == old(committed) && closed == old(closed)
      ensures fail.Some? ==> r == Failed(fail.value) && unchanged(this, db)
      ensures fail.None? ==>
                match InsertOutcome(old(pending.customers), old(db.nextId), row)
                case Failed(e) => r == Failed(e) && unchanged(this, db)
                case Ok(id) =>
                  && r == Ok((1, Some(id)))
                  && pending == old(pending).(customers := old(pending.customers)[id := row])
                  && db.nextId == old(db.nextId) + 1
                  && db.tables == (if autoCommit then pending else old(db.tables))
    {
      if fail.Some? {
        return Failed(fail.value);
      }
      var outcome := InsertOutcome(pending.customers, db.nextId, row);
      if outcome.Failed? {
        return Failed(outcome.error);
      }
      InsertKeepsTableValid(pending.customers, db.nextId, row);
      MoreCustomersKeepKeysResolving(pending, pending.customers[outcome.value := row]);
      var t := pending.(customers := pending.customers[outcome.value := row]);
      db.nextId := db.nextId + 1;
      pending := t;
      if autoCommit {
        db.tables := t;
      }
      return Ok((1, Some(outcome.value)));
    }

    /** `UPDATE Customer SET name = ?, email = ?, phone_number = ? WHERE customer_id = ?`:
        the number of rows affected. */
    method UpdateCustomer(id: Int32, row: Row, fail: Option<SqlException>) returns (r: DbResult<nat>)
      requires Valid()
      modifies this, db
      ensures Valid() && db.nextId == old(db.nextId)
      ensures autoCommit == old(autoCommit) && committed == old(committed) && closed == old(closed)
      ensures fail.Some? ==> r == Failed(fail.value) && pending == old(pending) && db.tables == old(db.tables)
      ensures fail.None? ==> r == UpdateOutcome(old(pending.customers), Some(id), row)
      ensures fail.None? && r == Ok(1) ==>
                && pending == old(pending).(customers := old(pending.customers)[id := row])
                && db.tables == (if autoCommit then pending else old(db.tables))
      ensures fail.None? && r != Ok(1) ==> pending == old(pending) && db.tables == old(db.tables)
    {
      if fail.Some? {
        return Failed(fail.value);
      }
      r := UpdateOutcome(pending.customers, Some(id), row);
      if r == Ok(1) {
        UpdateKeepsTableValid(pending.customers, Some(id), row);
        MoreCustomersKeepKeysResolving(pending, pending.customers[id := row]);
        Apply(pending.(customers := pending.customers[id := row]));
      }
    }

    /** addBatch for each row, then executeBatch: the INSERTs run in order and the
        first one refused makes the whole call throw. Answers the generated keys. */
    method ExecuteBatch(batch: seq<Row>, fail: Option<SqlException>) returns (r: DbResult<seq<Int32>>)
      requires Valid() && !autoCommit
      modifies this, db
      ensures Valid() && db.tables == old(db.tables) && db.nextId >= old(db.nextId)
      ensures autoCommit == old(autoCommit) && committed == old(committed) && closed == old(closed)
      ensures fail.Some? ==> r == Failed(fail.value) && pending == old(pending) && db.nextId == old(db.nextId)
      ensures fail.None? ==>
                match InsertAll(old(pending.customers), old(db.nextId), batch)
                // the INSERTs before the refused one stay in the open transaction
                case Rejected(e, partial) => r == Failed(e) && pending == old(pending).(customers := partial)
                case Inserted(rows, next, keys) =>
                  && r == Ok(keys)
                  && pending == old(pending).(customers := rows)
                  && db.nextId == next
    {
      if fail.Some? {
        return Failed(fail.value);
      }
      var keys: seq<Int32> := [];
      var i := 0;
      ghost var start, next0 := pending, db.nextId;
      while i < |batch|
        invariant 0 <= i <= |batch|
        invariant Valid() && db.tables == old(db.tables) && db.nextId >= next0
        invariant autoCommit == old(autoCommit) && committed == old(committed) && closed == old(closed)
        invariant pending.orders == start.orders && pending.lines == start.lines
        invariant InsertAll(start.customers, next0, batch[..i]) == Inserted(pending.customers, db.nextId, keys)
        decreases |batch| - i
      {
        assert batch[..i + 1][..i] == batch[..i];
        var outcome := InsertOutcome(pending.customers, db.nextId, batch[i]);
        if outcome.Failed? {
          RejectedPrefixRejectsBatch(start.customers, next0, batch, i + 1);
          return Failed(outcome.error);
        }
        InsertKeepsTableValid(pending.customers, db.nextId, batch[i]);
        MoreCustomersKeepKeysResolving(pending, pending.customers[outcome.value := batch[i]]);
        pending := pending.(customers := pending.customers[outcome.value := batch[i]]);
        db.nextId := db.nextId + 1;
        keys := keys + [outcome.value];
        i := i + 1;
      }
      assert batch[..|batch|] == batch;
      return Ok(keys);
    }
  }
}
