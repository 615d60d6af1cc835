/** CustomerServiceAdvanced: the same Customer table reached through JDBC connections.
    createCustomer and updateCustomer run one auto-committed statement each;
    deleteCustomer and batchCreateCustomers run a transaction that is committed only
    when every step succeeds, rolled back otherwise, and always ends with auto-commit
    back on and the connection closed. Every SQLException leaves as a DatabaseException
    whose message is a fixed prefix followed by the SQLException's own message. */
module AdvancedService {
  import opened JavaLang
  import opened Exceptions
  import opened CustomerModel
  import opened CustomerTable
  import opened Relations
  import opened Jdbc

  const CreatePrefix := "Failed to create customer: "
  const UpdatePrefix := "Failed to update customer: "
  const DeletePrefix := "Failed to delete customer: "
  const BatchPrefix := "Failed to batch create customers: "
  const NoRowsAffected := "Creating customer failed, no rows affected."
  const NoIdObtained := "Creating customer failed, no ID obtained."

  /** The message of the EntityNotFoundException thrown by updateCustomer. */
  function NotFoundMessage(id: Int32): string {
    "Customer with ID " + IntToString(id) + " not found"
  }

  /** The JDBC calls that can throw an SQLException; a fault names the one that does. */
  datatype Step =
    | Connect              // DatabaseUtil.getConnection
    | BeginTransaction     // setAutoCommit(false)
    | CheckExists          // the SELECT of customerExists
    | DeleteLinesStmt
    | DeleteOrdersStmt
    | DeleteCustomerStmt
    | InsertStmt
    | UpdateStmt
    | BatchStmt            // executeBatch
    | ReadKeys             // getGeneratedKeys and its ResultSet
    | CommitStmt
    | RollbackStmt         // Connection.rollback
    | CloseResource        // close() of a ResultSet, a PreparedStatement or the Connection
    | RestoreAutoCommit    // setAutoCommit(true) in a finally block

  // ---------------------------------------------------------------------------
  // createCustomer

  /** The checks after the INSERT of createCustomer, in the source's order: no row
      affected, then the generated-key ResultSet (which can itself throw), then a
      ResultSet without a row. The two DatabaseExceptions are raised inside the try
      but are not SQLExceptions, so they leave unwrapped. */
  function CreateRowChecks(affected: nat, keys: DbResult<Option<Int32>>): (r: Outcome<Int32>)
    ensures r.Return? <==> affected != 0 && keys.Ok? && keys.value.Some?
    ensures r.Return? ==> r.value == keys.value.value
    ensures affected == 0 ==> r == Throw(Database(NoRowsAffected, None))
    ensures affected != 0 && keys.Failed? ==> r == Throw(Wrap(CreatePrefix, keys.error))
    ensures affected != 0 && keys == Ok(None) ==> r == Throw(Database(NoIdObtained, None))
  {
    if affected == 0 then Throw(Database(NoRowsAffected, None))
    else match keys
      case Failed(e) => Throw(Wrap(CreatePrefix, e))
      case Ok(None) => Throw(Database(NoIdObtained, None))
      case Ok(Some(id)) => Return(id)
  }

  /** A single-row INSERT that the database accepts reports one row and its key, so
      neither DatabaseException of the row checks can be raised after it. */
  lemma AcceptedInsertPassesRowChecks(rows: map<Int32, Row>, nextId: int, row: Row)
    requires 1 <= nextId && InsertOutcome(rows, nextId, row).Ok?
    ensures CreateRowChecks(1, Ok(Some(InsertOutcome(rows, nextId, row).value)))
            == Return(nextId)
  {
  }

  // ---------------------------------------------------------------------------
  // deleteCustomer

  /** What deleteCustomer returns and what the committed tables are afterwards.
      `concurrentDelete` stands for another session that deletes the same customer
      and commits between the existence check and the three DELETEs. */
  function DeleteSpec(t: Tables, cid: Int32, fault: Option<Fault<Step>>, concurrentDelete: bool)
    : (Outcome<bool>, Tables)
  {
    if || FailsAt(fault, Connect) || FailsAt(fault, BeginTransaction)
       || FailsAt(fault, CheckExists) || FailsAt(fault, CloseResource) then
      // customerExists closes its ResultSet and statement first of all
      (Throw(Wrap(DeletePrefix, fault.value.error)), t)
    else if cid !in t.customers then
      // the rollback before `return false` is inside the try
      (if FailsAt(fault, RollbackStmt) then Throw(Wrap(DeletePrefix, fault.value.error)) else Return(false), t)
    else
      DeleteExistingSpec(t, cid, fault, concurrentDelete)
  }

  /** The part of DeleteSpec after the existence check has found the customer. */
  function DeleteExistingSpec(t: Tables, cid: Int32, fault: Option<Fault<Step>>, concurrentDelete: bool)
    : (Outcome<bool>, Tables)
  {
    var committedByOthers := if concurrentDelete then Cascade(t, cid) else t;
    if FailsAt(fault, DeleteLinesStmt) || FailsAt(fault, DeleteOrdersStmt) || FailsAt(fault, DeleteCustomerStmt) then
      (Throw(Wrap(DeletePrefix, fault.value.error)), committedByOthers)
    else if concurrentDelete then
      (if FailsAt(fault, RollbackStmt) then Throw(Wrap(DeletePrefix, fault.value.error)) else Return(false),
       committedByOthers)
    else if FailsAt(fault, CommitStmt) then
      (Throw(Wrap(DeletePrefix, fault.value.error)), t)
    else
      (Return(true), Cascade(t, cid))
  }

  /** None of the JDBC calls deleteCustomer makes throws. */
  predicate DeleteRunsClean(fault: Option<Fault<Step>>) {
    fault.None? ||
    fault.value.step !in {Connect, BeginTransaction, CheckExists, CloseResource, DeleteLinesStmt,
                          DeleteOrdersStmt, DeleteCustomerStmt, CommitStmt, RollbackStmt}
  }

  /** deleteCustomer answers true exactly when the customer exists, no call throws and
      no other session removed the customer first; the way to true calls no rollback,
      so a failing rollback does not matter there. */
  lemma DeleteReturnsTrueIff(t: Tables, cid: Int32, fault: Option<Fault<Step>>, concurrentDelete: bool)
    ensures DeleteSpec(t, cid, fault, concurrentDelete).0 == Return(true) <==>
            cid in t.customers && (DeleteRunsClean(fault) || FailsAt(fault, RollbackStmt)) && !concurrentDelete
  {
  }

  /** There is no partial commit: alone on the database, deleteCustomer either commits
      the whole cascade and answers true, or leaves every table as it was. */
  lemma DeleteIsAllOrNothing(t: Tables, cid: Int32, fault: Option<Fault<Step>>)
    ensures var (r, after) := DeleteSpec(t, cid, fault, false);
            after == (if r == Return(true) then Cascade(t, cid) else t)
  {
  }

  /** After deleteCustomer answers true, nothing of the customer is left (its row, its
      orders, the lines of those orders), and everything else is as it was. */
  lemma DeleteTrueRemovesExactlyTheCustomer(t: Tables, cid: Int32, fault: Option<Fault<Step>>, concurrentDelete: bool)
    requires DeleteSpec(t, cid, fault, concurrentDelete).0 == Return(true)
    ensures var after := DeleteSpec(t, cid, fault, concurrentDelete).1;
            && cid in t.customers && cid !in after.customers
            && (forall o :: o in after.orders ==> after.orders[o].customerId != cid)
            && (forall k :: k in after.lines ==> !OwnedBy(t, k.0, cid))
            && (forall id :: id in t.customers && id != cid ==> id in after.customers && after.customers[id] == t.customers[id])
            && (forall o :: o in t.orders && !OwnedBy(t, o, cid) ==> o in after.orders && after.orders[o] == t.orders[o])
            && (forall k :: k in t.lines && !OwnedBy(t, k.0, cid) ==> k in after.lines && after.lines[k] == t.lines[k])
  {
    CascadeRemovesOwned(t, cid);
    CascadeKeepsOthers(t, cid);
  }

  /** For a customer that does not exist the answer is never true and nothing changes. */
  lemma DeleteOfMissingCustomerChangesNothing(t: Tables, cid: Int32, fault: Option<Fault<Step>>, concurrentDelete: bool)
    requires cid !in t.customers
    ensures DeleteSpec(t, cid, fault, concurrentDelete).0 != Return(true)
    ensures DeleteSpec(t, cid, fault, concurrentDelete).1 == t
    ensures DeleteRunsClean(fault) ==> DeleteSpec(t, cid, fault, concurrentDelete).0 == Return(false)
  {
  }

  /** Every exception deleteCustomer throws is the DatabaseException wrapping the
      injected SQLException, and the database keeps only what another session did. */
  lemma DeleteErrorsAreWrapped(t: Tables, cid: Int32, fault: Option<Fault<Step>>, concurrentDelete: bool)
    requires DeleteSpec(t, cid, fault, concurrentDelete).0.Throw?
    ensures fault.Some? && !DeleteRunsClean(fault)
    ensures DeleteSpec(t, cid, fault, concurrentDelete).0 == Throw(Wrap(DeletePrefix, fault.value.error))
    ensures var after := DeleteSpec(t, cid, fault, concurrentDelete).1;
            after == t || (concurrentDelete && after == Cascade(t, cid))
  {
  }

  /** Whatever happens, every order still names a customer and every line an order. */
  lemma DeleteKeepsKeysResolving(t: Tables, cid: Int32, fault: Option<Fault<Step>>, concurrentDelete: bool)
    requires KeysResolve(t)
    ensures KeysResolve(DeleteSpec(t, cid, fault, concurrentDelete).1)
  {
    var t1 := DeleteLinesOf(t, cid);
    StatementsKeepKeysResolving(t, cid);
    StatementsKeepKeysResolving(t1, cid);
    StatementsKeepKeysResolving(DeleteOrdersOf(t1, cid), cid);
  }

  // ---------------------------------------------------------------------------
  // batchCreateCustomers

  /** The objects of a list that the batch may update. */
  function Elements(customers: seq<Customer?>): set<Customer> {
    set c: Customer | c in customers
  }

  /** The rows the batch INSERTs, one per customer, in list order. */
  function RowsOf(cs: seq<Customer?>): (rows: seq<Row>)
    requires null !in cs
    reads Elements(cs)
    ensures |rows| == |cs|
    ensures forall k :: 0 <= k < |cs| ==> rows[k] == RowOf(cs[k].Record())
    decreases |cs|
  {
    if cs == [] then [] else RowsOf(cs[..|cs| - 1]) + [RowOf(cs[|cs| - 1].Record())]
  }

  /** The last position below `m` at which `c` appears in the list, or -1: the same
      object may sit at several positions, and the last assignment to it wins. */
  function LastIndexBelow(cs: seq<Customer?>, m: nat, c: Customer): (k: int)
    requires m <= |cs|
    ensures -1 <= k < m
    ensures k >= 0 ==> cs[k] == c && forall j :: k < j < m ==> cs[j] != c
    ensures k == -1 ==> forall j :: 0 <= j < m ==> cs[j] != c
    decreases m
  {
    if m == 0 then -1 else if cs[m - 1] == c then m - 1 else LastIndexBelow(cs, m - 1, c)
  }

  /** The id the key loop leaves on `c`: the key read at its last position below
      min(#keys, #customers), or the id it had before. */
  function KeyFor(cs: seq<Customer?>, keys: seq<Int32>, c: Customer, before: Option<Int32>): Option<Int32> {
    var m := if |keys| < |cs| then |keys| else |cs|;
    var k := LastIndexBelow(cs, m, c);
    if k >= 0 then Some(keys[k]) else before
  }

  /** In a list without repeated objects the k-th key goes to the k-th customer for
      k < min(#keys, #customers), and the customers beyond keep their id. */
  lemma DistinctListGetsKeysByIndex(cs: seq<Customer?>, keys: seq<Int32>, k: nat, before: Option<Int32>)
    requires k < |cs| && cs[k] != null
    requires forall i, j :: 0 <= i < j < |cs| ==> cs[i] != cs[j]
    ensures k < |keys| ==> KeyFor(cs, keys, cs[k], before) == Some(keys[k])
    ensures k >= |keys| ==> KeyFor(cs, keys, cs[k], before) == before
  {
    var m := if |keys| < |cs| then |keys| else |cs|;
    var i := LastIndexBelow(cs, m, cs[k]);
    if k < m {
      assert i >= k;
    }
  }

  /** The loop over the generated keys: `while (keys.next() && index < size)
      customers.get(index).setCustomerId(key)`. */
  method AssignGeneratedKeys(cs: seq<Customer?>, keys: seq<Int32>)
    requires null !in cs
    modifies Elements(cs)
    ensures forall c :: c in Elements(cs) ==>
              c.Record() == old(c.Record()).(customerId := KeyFor(cs, keys, c, old(c.customerId)))
  {
    var index := 0;
    while index < |keys| && index < |cs|
      invariant 0 <= index <= |keys| && index <= |cs|
      invariant forall c :: c in Elements(cs) ==>
                  && c.name == old(c.name) && c.email == old(c.email) && c.phoneNumber == old(c.phoneNumber)
                  && c.customerId == (var k := LastIndexBelow(cs, index, c); if k >= 0 then Some(keys[k]) else old(c.customerId))
      decreases |cs| - index
    {
      cs[index].SetCustomerId(Some(keys[index]));
      index := index + 1;
    }
  }

  /** What the transaction of batchCreateCustomers leaves once the customers were
      added to the batch: the exception (if any), the committed tables, and the keys
      written onto the list. */
  datatype BatchRun = BatchRun(thrown: Option<Thrown>, tables: Tables, keys: seq<Int32>)

  function BatchSpec(t: Tables, nextId: int, batch: seq<Row>, fault: Option<Fault<Step>>): BatchRun
    requires 1 <= nextId
  {
    if FailsAt(fault, BatchStmt) then BatchRun(Some(Wrap(BatchPrefix, fault.value.error)), t, [])
    else match InsertAll(t.customers, nextId, batch)
      case Rejected(e, partial) =>
        // a rollback that throws leaves the INSERTs before the refused one open, and
        // setAutoCommit(true) in the finally block commits them
        BatchRun(Some(Wrap(BatchPrefix, e)), if FailsAt(fault, RollbackStmt) then t.(customers := partial) else t, [])
      case Inserted(rows, _, keys) =>
        if FailsAt(fault, ReadKeys) then BatchRun(Some(Wrap(BatchPrefix, fault.value.error)), t, [])
        // the key loop has run when the ResultSet's close() or the commit throws
        else if FailsAt(fault, CloseResource) || FailsAt(fault, CommitStmt) then
          BatchRun(Some(Wrap(BatchPrefix, fault.value.error)), t, keys)
        else BatchRun(None, t.(customers := rows), keys)
  }

  /** A batch is committed whole or not at all: either every row went in, or the
      tables are as they were, except when the database refuses a row and the rollback
      throws as well: then the rows before the refused one are committed. */
  lemma BatchIsAllOrNothing(t: Tables, nextId: int, batch: seq<Row>, fault: Option<Fault<Step>>)
    requires 1 <= nextId
    ensures var run := BatchSpec(t, nextId, batch, fault);
            if run.thrown.None? then
              InsertAll(t.customers, nextId, batch).Inserted?
              && run.tables == t.(customers := InsertAll(t.customers, nextId, batch).rows)
            else if FailsAt(fault, RollbackStmt) && InsertAll(t.customers, nextId, batch).Rejected? then
              run.tables == t.(customers := InsertAll(t.customers, nextId, batch).partial)
            else run.tables == t
  {
  }

  /** Whatever happens to a batch, what ends up committed is the old tables plus rows
      of the batch: every row that was there is still there, the rows added are rows
      of the batch under keys from the counter, and the orders and their lines are
      untouched. This covers the refused batch whose rollback throws. */
  lemma BatchCommitsOnlyBatchRows(t: Tables, nextId: int, batch: seq<Row>, fault: Option<Fault<Step>>)
    requires 1 <= nextId && KeysBelow(t.customers, nextId)
    ensures var run := BatchSpec(t, nextId, batch, fault);
            && run.tables.orders == t.orders && run.tables.lines == t.lines
            && (forall id :: id in t.customers ==> id in run.tables.customers && run.tables.customers[id] == t.customers[id])
            && (forall id :: id in run.tables.customers && id !in t.customers ==>
                  nextId <= id < nextId + |batch| && run.tables.customers[id] in batch)
  {
    var run := BatchSpec(t, nextId, batch, fault);
    BatchAddsOnlyBatchRows(t.customers, nextId, batch);
    assert run.tables == t || run.tables == t.(customers := TableAfter(InsertAll(t.customers, nextId, batch)));
  }

  /** The batch succeeds exactly when every row is complete, no e-mail is taken or
      repeated, the counter has room, and no JDBC call of the transaction throws. */
  lemma BatchSucceedsIff(t: Tables, nextId: int, batch: seq<Row>, fault: Option<Fault<Step>>)
    requires 1 <= nextId <= MaxInt32 + 1 && KeysBelow(t.customers, nextId)
    ensures BatchSpec(t, nextId, batch, fault).thrown.None? <==>
            && BatchAcceptable(t.customers, nextId, batch)
            && !FailsAt(fault, BatchStmt) && !FailsAt(fault, ReadKeys)
            && !FailsAt(fault, CloseResource) && !FailsAt(fault, CommitStmt)
  {
    InsertAllSucceedsIff(t.customers, nextId, batch);
  }

  /** After a successful batch the k-th customer's row is stored under the k-th key,
      the keys are consecutive from the counter, and the other tables are untouched. */
  lemma BatchStoresEachRowUnderItsKey(t: Tables, nextId: int, batch: seq<Row>, fault: Option<Fault<Step>>)
    requires 1 <= nextId && KeysBelow(t.customers, nextId)
    requires BatchSpec(t, nextId, batch, fault).thrown.None?
    ensures var run := BatchSpec(t, nextId, batch, fault);
            && |run.keys| == |batch|
            && (forall k :: 0 <= k < |batch| ==> run.keys[k] == nextId + k)
            && (forall k :: 0 <= k < |batch| ==>
                  run.keys[k] in run.tables.customers && run.tables.customers[run.keys[k]] == batch[k])
            && (forall id :: id in t.customers ==> id in run.tables.customers && run.tables.customers[id] == t.customers[id])
            && run.tables.orders == t.orders && run.tables.lines == t.lines
  {
    InsertAllAssignsConsecutiveKeys(t.customers, nextId, batch);
  }

  /** The keys are written onto the customers before the key ResultSet is closed and
      before the commit, so a failure of either leaves every customer carrying the id
      of a row that was rolled back. */
  lemma CommitFailureLeavesRolledBackIds(t: Tables, nextId: int, batch: seq<Row>, fault: Option<Fault<Step>>)
    requires 1 <= nextId && KeysBelow(t.customers, nextId)
    requires FailsAt(fault, CloseResource) || FailsAt(fault, CommitStmt)
    requires InsertAll(t.customers, nextId, batch).Inserted?
    ensures var run := BatchSpec(t, nextId, batch, fault);
            && run.thrown == Some(Wrap(BatchPrefix, fault.value.error))
            && run.tables == t && |run.keys| == |batch|
            && (forall k :: 0 <= k < |batch| ==> run.keys[k] !in t.customers)
  {
    InsertAllAssignsConsecutiveKeys(t.customers, nextId, batch);
  }

  // ---------------------------------------------------------------------------
  // The service

  /** The finally block of the two transactions: auto-commit back on, then close, in
      one try whose SQLException is logged. Switching auto-commit on commits what the
      transaction still holds: nothing after a commit or a rollback, the work a
      rollback that threw left behind otherwise. When it throws, close() is skipped and
      the connection stays open. */
  method Release(conn: Connection, fault: Option<Fault<Step>>)
    requires conn.Valid() && !conn.closed
    modifies conn, conn.db
    ensures conn.Valid()
    ensures conn.autoCommit <==> old(conn.autoCommit) || !FailsAt(fault, RestoreAutoCommit)
    ensures conn.closed <==> !FailsAt(fault, RestoreAutoCommit) && !FailsAt(fault, CloseResource)
    ensures conn.db.tables == (if FailsAt(fault, RestoreAutoCommit) then old(conn.db.tables) else old(conn.pending))
    ensures conn.db.nextId == old(conn.db.nextId)
    ensures conn.committed == old(conn.committed)
  {
    var restored := conn.SetAutoCommit(true, FaultAt(fault, RestoreAutoCommit));
    if restored.Ok? {
      var _ := conn.Close(FaultAt(fault, CloseResource));
    }
  }

  /** The part of batchCreateCustomers between executeBatch and the catch block:
      execute, write the generated keys onto the list, commit; roll back on any
      SQLException. */
  method RunBatch(conn: Connection, list: seq<Customer?>, batch: seq<Row>, fault: Option<Fault<Step>>)
    returns (r: Outcome<seq<Customer?>>)
    requires conn.Valid() && !conn.autoCommit && !conn.committed && conn.pending == conn.db.tables
    requires null !in list && batch == RowsOf(list)
    modifies conn, conn.db, Elements(list)
    ensures conn.Valid() && !conn.autoCommit && conn.closed == old(conn.closed)
    ensures conn.db.nextId >= old(conn.db.nextId)
    ensures var run := BatchSpec(old(conn.db.tables), old(conn.db.nextId), batch, fault);
            && r == (if run.thrown.Some? then Throw(run.thrown.value) else Return(list))
            && conn.pending == run.tables
            && conn.db.tables == (if conn.committed then run.tables else old(conn.db.tables))
            && (!FailsAt(fault, RollbackStmt) ==> conn.db.tables == run.tables)
            && (conn.committed <==> run.thrown.None?)
            && (forall c :: c in Elements(list) ==>
                  c.Record() == old(c.Record()).(customerId := KeyFor(list, run.keys, c, old(c.customerId))))
    ensures InsertAll(old(conn.db.tables.customers), old(conn.db.nextId), batch).Inserted? && !FailsAt(fault, BatchStmt) ==>
              conn.db.nextId == InsertAll(old(conn.db.tables.customers), old(conn.db.nextId), batch).nextId
  {
    var executed := conn.ExecuteBatch(batch, FaultAt(fault, BatchStmt));
    if executed.Failed? {
      var _ := conn.Rollback(FaultAt(fault, RollbackStmt));
      r := Throw(Wrap(BatchPrefix, executed.error));
    } else if FailsAt(fault, ReadKeys) {
      var _ := conn.Rollback(FaultAt(fault, RollbackStmt));
      r := Throw(Wrap(BatchPrefix, fault.value.error));
    } else {
      AssignGeneratedKeys(list, executed.value);
      // the key ResultSet is closed before the commit
      var step: DbResult<()> := if FailsAt(fault, CloseResource) then Failed(fault.value.error) else Ok(());
      if step.Ok? {
        step := conn.Commit(FaultAt(fault, CommitStmt));
      }
      if step.Failed? {
        var _ := conn.Rollback(FaultAt(fault, RollbackStmt));
        r := Throw(Wrap(BatchPrefix, step.error));
      } else {
        r := Return(list);
      }
    }
  }

  /** The addBatch loop of batchCreateCustomers: one row per customer, in list order,
      until a null element stops it with a NullPointerException. */
  method AddBatch(list: seq<Customer?>) returns (batch: seq<Row>, complete: bool)
    ensures complete <==> null !in list
    ensures complete ==> batch == RowsOf(list)
  {
    batch := [];
    var i := 0;
    while i < |list| && list[i] != null
      invariant 0 <= i <= |list| && |batch| == i
      invariant forall k :: 0 <= k < i ==> list[k] != null && batch[k] == RowOf(list[k].Record())
    {
      batch := batch + [RowOf(list[i].Record())];
      i := i + 1;
    }
    complete := i == |list|;
  }

  /** The statements of deleteCustomer once the customer has been found, inside the
      transaction: the three DELETEs, then the commit when exactly one customer row
      went; a rollback on any SQLException and on a row count other than one. */
  method RunDelete(conn: Connection, customerId: Int32, fault: Option<Fault<Step>>, concurrentDelete: bool)
    returns (r: Outcome<bool>)
    requires conn.Valid() && !conn.autoCommit && !conn.committed && conn.pending == conn.db.tables
    requires customerId in conn.db.tables.customers
    modifies conn, conn.db
    ensures conn.Valid() && conn.pending == conn.db.tables && !conn.autoCommit && conn.closed == old(conn.closed)
    ensures conn.db.nextId == old(conn.db.nextId)
    ensures (r, conn.db.tables) == DeleteExistingSpec(old(conn.db.tables), customerId, fault, concurrentDelete)
    ensures conn.committed <==> r == Return(true)
  {
    if concurrentDelete {
      conn.OtherSessionDeletes(customerId);
    }
    var lines := conn.DeleteLines(customerId, FaultAt(fault, DeleteLinesStmt));
    if lines.Failed? {
      var _ := conn.Rollback(FaultAt(fault, RollbackStmt));
      return Throw(Wrap(DeletePrefix, lines.error));
    }
    var orders := conn.DeleteOrders(customerId, FaultAt(fault, DeleteOrdersStmt));
    if orders.Failed? {
      var _ := conn.Rollback(FaultAt(fault, RollbackStmt));
      return Throw(Wrap(DeletePrefix, orders.error));
    }
    var deleted := conn.DeleteCustomer(customerId, FaultAt(fault, DeleteCustomerStmt));
    if deleted.Failed? {
      var _ := conn.Rollback(FaultAt(fault, RollbackStmt));
      r := Throw(Wrap(DeletePrefix, deleted.error));
    } else if deleted.value == 1 {
      var committed := conn.Commit(FaultAt(fault, CommitStmt));
      if committed.Failed? {
        var _ := conn.Rollback(FaultAt(fault, RollbackStmt));
        r := Throw(Wrap(DeletePrefix, committed.error));
      } else {
        r := Return(true);
      }
    } else {
      var rolledBack := conn.Rollback(FaultAt(fault, RollbackStmt));
      if rolledBack.Failed? {
        // the catch block's second rollback throws too and is logged; the open
        // transaction repeated the cascade another session had already committed
        CascadeMatchesSchemaCascade(old(conn.db.tables), customerId);
        CascadeIsIdempotent(old(conn.db.tables), customerId);
        r := Throw(Wrap(DeletePrefix, rolledBack.error));
      } else {
        r := Return(false);
      }
    }
  }

  /** batchCreateCustomers from setAutoCommit(false) to the finally block, on the
      connection it has just opened. */
  method BatchTransaction(conn: Connection, list: seq<Customer?>, fault: Option<Fault<Step>>)
    returns (r: Outcome<seq<Customer?>>)
    requires conn.Valid() && conn.autoCommit && !conn.committed && !conn.closed && conn.pending == conn.db.tables
    modifies conn, conn.db, Elements(list)
    ensures conn.Valid() && conn.db.nextId >= old(conn.db.nextId)
    ensures conn.autoCommit <==> !FailsAt(fault, RestoreAutoCommit)
    ensures conn.closed <==> !FailsAt(fault, RestoreAutoCommit) && !FailsAt(fault, CloseResource)
    ensures conn.committed <==> r.Return?
    ensures FailsAt(fault, BeginTransaction) ==>
              && r == Throw(Wrap(BatchPrefix, fault.value.error))
              && conn.db.tables == old(conn.db.tables) && conn.db.nextId == old(conn.db.nextId)
              && unchanged(Elements(list))
    ensures null in list && !FailsAt(fault, BeginTransaction) ==>
              && r == Throw(NullPointer) && conn.db.tables == old(conn.db.tables)
              && conn.db.nextId == old(conn.db.nextId) && unchanged(Elements(list))
    ensures null !in list && !FailsAt(fault, BeginTransaction) ==>
              var batch := old(RowsOf(list));
              var run := BatchSpec(old(conn.db.tables), old(conn.db.nextId), batch, fault);
              && r == (if run.thrown.Some? then Throw(run.thrown.value) else Return(list))
              && conn.db.tables == run.tables
              && (InsertAll(old(conn.db.tables.customers), old(conn.db.nextId), batch).Inserted? && !FailsAt(fault, BatchStmt) ==>
                    conn.db.nextId == InsertAll(old(conn.db.tables.customers), old(conn.db.nextId), batch).nextId)
              && (forall c :: c in Elements(list) ==>
                    c.Record() == old(c.Record()).(customerId := KeyFor(list, run.keys, c, old(c.customerId))))
  {
    ghost var rows := if null !in list then RowsOf(list) else [];
    var began := conn.SetAutoCommit(false, FaultAt(fault, BeginTransaction));
    if began.Failed? {
      var _ := conn.Rollback(FaultAt(fault, RollbackStmt));
      r := Throw(Wrap(BatchPrefix, began.error));
    } else {
      assert forall c :: c in Elements(list) ==> c.Record() == old(c.Record());
      var batch, complete := AddBatch(list);
      if !complete {
        // a NullPointerException is no SQLException: no rollback, straight to finally
        r := Throw(NullPointer);
      } else {
        assert batch == rows;
        r := RunBatch(conn, list, batch, fault);
      }
    }
    Release(conn, fault);
  }

  class CustomerServiceAdvanced {
    /** The database that DatabaseUtil.getConnection(dbName) reaches. */
    const db: Database

    constructor (db: Database)
      ensures this.db == db
    {
      this.db := db;
    }

    /** CustomerServiceAdvanced.createCustomer: one auto-committed INSERT; no validation. */
    method CreateCustomer(customer: Customer?, fault: Option<Fault<Step>>) returns (r: Outcome<Customer>)
      requires db.Valid()
      modifies db, customer
      ensures db.Valid()
      ensures FailsAt(fault, Connect) ==>
                r == Throw(Wrap(CreatePrefix, fault.value.error)) && unchanged(db)
                && (customer != null ==> unchanged(customer))
      ensures !FailsAt(fault, Connect) && customer == null ==> r == Throw(NullPointer) && unchanged(db)
      ensures !FailsAt(fault, Connect) && customer != null && FailsAt(fault, InsertStmt) ==>
                r == Throw(Wrap(CreatePrefix, fault.value.error)) && unchanged(db) && unchanged(customer)
      ensures !FailsAt(fault, Connect) && customer != null && !FailsAt(fault, InsertStmt) ==>
                match InsertOutcome(old(db.tables.customers), old(db.nextId), RowOf(old(customer.Record())))
                case Failed(e) =>
                  r == Throw(Wrap(CreatePrefix, e)) && unchanged(db) && unchanged(customer)
                case Ok(id) =>
                  // auto-commit: the row is in the table whatever happens next
                  && db.tables == old(db.tables).(customers := old(db.tables.customers)[id := RowOf(old(customer.Record()))])
                  && db.nextId == old(db.nextId) + 1
                  && (FailsAt(fault, ReadKeys) ==>
                        r == Throw(Wrap(CreatePrefix, fault.value.error)) && unchanged(customer))
                  && (!FailsAt(fault, ReadKeys) ==>
                        customer.Record() == old(customer.Record()).(customerId := Some(id)))
                  // closing the resources after `return customer` throws into the catch block
                  && (FailsAt(fault, CloseResource) ==> r == Throw(Wrap(CreatePrefix, fault.value.error)))
                  && (!FailsAt(fault, ReadKeys) && !FailsAt(fault, CloseResource) ==> r == Return(customer))
    {
      if FailsAt(fault, Connect) {
        return Throw(Wrap(CreatePrefix, fault.value.error));
      }
      var conn := new Connection(db);
      if customer == null {
        // a failing close() is suppressed behind the exception already thrown
        var _ := conn.Close(FaultAt(fault, CloseResource));
        return Throw(NullPointer);
      }
      var inserted := conn.InsertCustomer(RowOf(customer.Record()), FaultAt(fault, InsertStmt));
      if inserted.Failed? {
        var _ := conn.Close(FaultAt(fault, CloseResource));
        return Throw(Wrap(CreatePrefix, inserted.error));
      }
      var (affected, key) := inserted.value;
      var keys: DbResult<Option<Int32>> := match FaultAt(fault, ReadKeys)
        case Some(e) => Failed(e)
        case None => Ok(key);
      match CreateRowChecks(affected, keys) {
        case Return(id) =>
          customer.SetCustomerId(Some(id));
          r := Return(customer);
        case Throw(t) =>
          r := Throw(t);
      }
      var closing := conn.Close(FaultAt(fault, CloseResource));
      if r.Return? && closing.Failed? {
        r := Throw(Wrap(CreatePrefix, closing.error));
      }
    }

    /** CustomerServiceAdvanced.updateCustomer: one auto-committed UPDATE; no
        validation, and a null id fails when it is bound. */
    method UpdateCustomer(customer: Customer?, fault: Option<Fault<Step>>) returns (r: Outcome<Customer>)
      requires db.Valid()
      modifies db
      ensures db.Valid() && db.nextId == old(db.nextId)
      ensures FailsAt(fault, Connect) ==> r == Throw(Wrap(UpdatePrefix, fault.value.error)) && db.tables == old(db.tables)
      ensures !FailsAt(fault, Connect) && (customer == null || customer.customerId.None?) ==>
                r == Throw(NullPointer) && db.tables == old(db.tables)
      ensures !FailsAt(fault, Connect) && customer != null && customer.customerId.Some? && FailsAt(fault, UpdateStmt) ==>
                r == Throw(Wrap(UpdatePrefix, fault.value.error)) && db.tables == old(db.tables)
      ensures !FailsAt(fault, Connect) && customer != null && customer.customerId.Some? && !FailsAt(fault, UpdateStmt) ==>
                var id := customer.customerId.value;
                var row := RowOf(customer.Record());
                if id !in old(db.tables.customers) then
                  r == Throw(EntityNotFound(NotFoundMessage(id))) && db.tables == old(db.tables)
                else if UpdateOutcome(old(db.tables.customers), Some(id), row).Failed? then
                  && r == Throw(Wrap(UpdatePrefix, UpdateOutcome(old(db.tables.customers), Some(id), row).error))
                  && db.tables == old(db.tables)
                else
                  // closing the resources after `return customer` throws into the catch block
                  && r == (if FailsAt(fault, CloseResource) then Throw(Wrap(UpdatePrefix, fault.value.error)) else Return(customer))
                  && db.tables == old(db.tables).(customers := old(db.tables.customers)[id := row])
    {
      if FailsAt(fault, Connect) {
        return Throw(Wrap(UpdatePrefix, fault.value.error));
      }
      var conn := new Connection(db);
      if customer == null || customer.customerId.None? {
        var _ := conn.Close(FaultAt(fault, CloseResource));
        return Throw(NullPointer);
      }
      var id := customer.customerId.value;
      var updated := conn.UpdateCustomer(id, RowOf(customer.Record()), FaultAt(fault, UpdateStmt));
      if updated.Failed? {
        r := Throw(Wrap(UpdatePrefix, updated.error));
      } else if updated.value == 0 {
        r := Throw(EntityNotFound(NotFoundMessage(id)));
      } else {
        r := Return(customer);
      }
      var closing := conn.Close(FaultAt(fault, CloseResource));
      if r.Return? && closing.Failed? {
        r := Throw(Wrap(UpdatePrefix, closing.error));
      }
    }

    /** CustomerServiceAdvanced.deleteCustomer. The connection it opened, if any, is
        handed back so that its final state can be stated. */
    method DeleteCustomer(customerId: Int32, fault: Option<Fault<Step>>, concurrentDelete: bool)
      returns (r: Outcome<bool>, conn: Connection?)
      requires db.Valid()
      modifies db
      ensures db.Valid() && db.nextId == old(db.nextId)
      ensures (r, db.tables) == DeleteSpec(old(db.tables), customerId, fault, concurrentDelete)
      ensures conn == null <==> FailsAt(fault, Connect)
      ensures conn != null ==>
                && fresh(conn) && conn.db == db
                && (conn.autoCommit <==> !FailsAt(fault, RestoreAutoCommit))
                && (conn.closed <==> !FailsAt(fault, RestoreAutoCommit) && !FailsAt(fault, CloseResource))
                && (conn.committed <==> r == Return(true))
    {
      if FailsAt(fault, Connect) {
        return Throw(Wrap(DeletePrefix, fault.value.error)), null;
      }
      conn := new Connection(db);
      var began := conn.SetAutoCommit(false, FaultAt(fault, BeginTransaction));
      if began.Failed? {
        var _ := conn.Rollback(FaultAt(fault, RollbackStmt));
        r := Throw(Wrap(DeletePrefix, began.error));
      } else {
        var found := conn.CustomerExists(customerId, FaultAt(fault, CheckExists));
        if found.Ok? && FailsAt(fault, CloseResource) {
          // the query has run; closing its ResultSet throws
          found := Failed(fault.value.error);
        }
        if found.Failed? {
          var _ := conn.Rollback(FaultAt(fault, RollbackStmt));
          r := Throw(Wrap(DeletePrefix, found.error));
        } else if !found.value {
          var rolledBack := conn.Rollback(FaultAt(fault, RollbackStmt));
          r := if rolledBack.Failed? then Throw(Wrap(DeletePrefix, rolledBack.error)) else Return(false);
        } else {
          r := RunDelete(conn, customerId, fault, concurrentDelete);
        }
      }
      Release(conn, fault);
    }

    /** CustomerServiceAdvanced.batchCreateCustomers. */
    method BatchCreateCustomers(customers: Option<seq<Customer?>>, fault: Option<Fault<Step>>)
      returns (r: Outcome<seq<Customer?>>, conn: Connection?)
      requires db.Valid()
      modifies db, if customers.Some? then Elements(customers.value) else {}
      ensures db.Valid() && db.nextId >= old(db.nextId)
      // nothing to insert: a new empty list, and no connection is opened
      ensures customers.None? || customers.value == [] ==>
                r == Return([]) && conn == null && unchanged(db)
      ensures customers.Some? && customers.value != [] ==>
                && (conn == null <==> FailsAt(fault, Connect))
                && (FailsAt(fault, Connect) || FailsAt(fault, BeginTransaction) ==>
                      && r == Throw(Wrap(BatchPrefix, fault.value.error))
                      && db.tables == old(db.tables) && db.nextId == old(db.nextId)
                      && unchanged(Elements(customers.value)))
      ensures conn != null ==>
                && fresh(conn) && conn.db == db
                && (conn.autoCommit <==> !FailsAt(fault, RestoreAutoCommit))
                && (conn.closed <==> !FailsAt(fault, RestoreAutoCommit) && !FailsAt(fault, CloseResource))
                && (conn.committed <==> r.Return?)
      // a null element fails while the batch is built, before any statement runs
      ensures customers.Some? && null in customers.value
              && !FailsAt(fault, Connect) && !FailsAt(fault, BeginTransaction) ==>
                && r == Throw(NullPointer) && db.tables == old(db.tables) && db.nextId == old(db.nextId)
                && unchanged(Elements(customers.value))
      ensures customers.Some? && customers.value != [] && null !in customers.value
              && !FailsAt(fault, Connect) && !FailsAt(fault, BeginTransaction) ==>
                var batch := old(RowsOf(customers.value));
                var run := BatchSpec(old(db.tables), old(db.nextId), batch, fault);
                && r == (if run.thrown.Some? then Throw(run.thrown.value) else Return(customers.value))
                && db.tables == run.tables
                && (InsertAll(old(db.tables.customers), old(db.nextId), batch).Inserted? && !FailsAt(fault, BatchStmt) ==>
                      db.nextId == InsertAll(old(db.tables.customers), old(db.nextId), batch).nextId)
                && (forall c :: c in Elements(customers.value) ==>
                      c.Record() == old(c.Record()).(customerId := KeyFor(customers.value, run.keys, c, old(c.customerId))))
    {
      if customers.None? || |customers.value| == 0 {
        return Return([]), null;
      }
      if FailsAt(fault, Connect) {
        return Throw(Wrap(BatchPrefix, fault.value.error)), null;
      }
      conn := new Connection(db);
      r := BatchTransaction(conn, customers.value, fault);
    }
  }
}
