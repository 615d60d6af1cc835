/** CustomerDao as CustomerService sees it: an abstract store over the Customer table.
    Every call either answers or throws an SQLException. */
module CustomerStore {
  import opened JavaLang
  import opened Exceptions
  import opened CustomerModel
  import opened CustomerTable

  /** One call into the DAO, as a mock would record it. */
  datatype DaoCall =
    | FindByEmailCall(email: Option<string>)
    | FindByIdCall(id: Int32)
    | FindAllCall
    | CreateCall(customer: CustomerRecord)
    | UpdateCall(customer: CustomerRecord)
    | DeleteCall(id: Int32)

  /** The six operations of the DAO, to say which of them throw. */
  datatype DaoOp = FindByEmailOp | FindByIdOp | FindAllOp | CreateOp | UpdateOp | DeleteOp

  class CustomerDao {
    /** The Customer table. */
    var rows: map<Int32, Row>
    /** The next value of the AUTO_INCREMENT counter. */
    var nextId: int
    /** The operations that throw, each with its SQLException: one failing statement,
        or all six while the database cannot be reached. */
    var failures: map<DaoOp, SqlException>
    /** Every call made so far, in order. */
    ghost var calls: seq<DaoCall>

    ghost predicate Valid()
      reads this
    {
      && 1 <= nextId <= MaxInt32 + 1
      && KeysBelow(rows, nextId)
      && EmailsUnique(rows)
    }

    constructor (rows: map<Int32, Row>, nextId: int, failures: map<DaoOp, SqlException>)
      requires 1 <= nextId <= MaxInt32 + 1 && KeysBelow(rows, nextId)
      requires EmailsUnique(rows)
      ensures Valid() && this.rows == rows && this.nextId == nextId && this.failures == failures
      ensures calls == []
    {
      this.rows := rows;
      this.nextId := nextId;
      this.failures := failures;
      calls := [];
    }

    /** CustomerDao.findByEmail: the row holding that e-mail, if any. */
    method FindByEmail(email: Option<string>) returns (r: DbResult<Option<CustomerRecord>>)
      modifies this`calls
      ensures calls == old(calls) + [FindByEmailCall(email)]
      ensures FindByEmailOp in failures ==> r == Failed(failures[FindByEmailOp])
      ensures FindByEmailOp !in failures ==> r.Ok? && (r.value.Some? <==> EmailInUse(rows, email))
      ensures FindByEmailOp !in failures && r.value.Some? ==>
                exists id :: id in rows && rows[id].email == email && r.value.value == RecordOf(id, rows[id])
    {
      calls := calls + [FindByEmailCall(email)];
      if FindByEmailOp in failures {
        return Failed(failures[FindByEmailOp]);
      }
      if EmailInUse(rows, email) {
        var id :| id in rows && rows[id].email == email;
        return Ok(Some(RecordOf(id, rows[id])));
      }
      return Ok(None);
    }

    /** CustomerDao.findById: the row stored under `id`, if any. */
    method FindById(id: Int32) returns (r: DbResult<Option<CustomerRecord>>)
      modifies this`calls
      ensures calls == old(calls) + [FindByIdCall(id)]
      ensures FindByIdOp in failures ==> r == Failed(failures[FindByIdOp])
      ensures FindByIdOp !in failures ==> r == Ok(if id in rows then Some(RecordOf(id, rows[id])) else None)
    {
      calls := calls + [FindByIdCall(id)];
      if FindByIdOp in failures {
        return Failed(failures[FindByIdOp]);
      }
      if id in rows {
        return Ok(Some(RecordOf(id, rows[id])));
      }
      return Ok(None);
    }

    /** CustomerDao.findAll: every row exactly once, as a customer carrying its id. */
    method FindAll() returns (r: DbResult<seq<CustomerRecord>>)
      modifies this`calls
      ensures calls == old(calls) + [FindAllCall]
      ensures FindAllOp in failures ==> r == Failed(failures[FindAllOp])
      ensures FindAllOp !in failures ==> r.Ok?
      ensures FindAllOp !in failures ==> forall i :: 0 <= i < |r.value| ==>
                r.value[i].customerId.Some? && r.value[i].customerId.value in rows
                && r.value[i] == RecordOf(r.value[i].customerId.value, rows[r.value[i].customerId.value])
      ensures FindAllOp !in failures ==> forall id :: id in rows ==>
                exists i :: 0 <= i < |r.value| && r.value[i].customerId == Some(id)
      ensures FindAllOp !in failures ==> forall i, j :: 0 <= i < j < |r.value| ==>
                r.value[i].customerId != r.value[j].customerId
    {
      calls := calls + [FindAllCall];
      if FindAllOp in failures {
        return Failed(failures[FindAllOp]);
      }
      var found: seq<CustomerRecord> := [];
      var left := rows.Keys;
      while left != {}
        invariant left <= rows.Keys
        invariant forall i :: 0 <= i < |found| ==>
                    found[i].customerId.Some? && found[i].customerId.value in rows - left
                    && found[i] == RecordOf(found[i].customerId.value, rows[found[i].customerId.value])
        invariant forall id :: id in rows && id !in left ==>
                    exists i :: 0 <= i < |found| && found[i].customerId == Some(id)
        invariant forall i, j :: 0 <= i < j < |found| ==> found[i].customerId != found[j].customerId
        decreases left
      {
        var id :| id in left;
        var before := found;
        found := found + [RecordOf(id, rows[id])];
        left := left - {id};
        assert forall i :: 0 <= i < |before| ==> found[i] == before[i];
        assert found[|found| - 1].customerId == Some(id);
      }
      return Ok(found);
    }

    /** CustomerDao.createCustomer: inserts the row under the next AUTO_INCREMENT value,
        writes that id onto the argument and returns it. */
    method Create(c: Customer) returns (r: DbResult<Int32>)
      requires Valid()
      modifies this, c
      ensures Valid() && failures == old(failures)
      ensures calls == old(calls) + [CreateCall(old(c.Record()))]
      ensures CreateOp in failures ==> r == Failed(failures[CreateOp])
      ensures CreateOp !in failures ==> r == InsertOutcome(old(rows), old(nextId), RowOf(old(c.Record())))
      ensures r.Failed? ==> rows == old(rows) && nextId == old(nextId) && c.Record() == old(c.Record())
      ensures r.Ok? ==>
                && old(nextId) !in old(rows)
                && rows == old(rows)[old(nextId) := RowOf(old(c.Record()))]
                && nextId == old(nextId) + 1
                && c.Record() == old(c.Record()).(customerId := Some(old(nextId)))
    {
      calls := calls + [CreateCall(c.Record())];
      if CreateOp in failures {
        return Failed(failures[CreateOp]);
      }
      var row := RowOf(c.Record());
      r := InsertOutcome(rows, nextId, row);
      if r.Ok? {
        InsertKeepsTableValid(rows, nextId, row);
        rows := rows[r.value := row];
        nextId := nextId + 1;
        c.SetCustomerId(Some(r.value));
      }
    }

    /** CustomerDao.updateCustomer: replaces the row of the customer's id; true
        exactly when a row was affected. */
    method Update(c: Customer) returns (r: DbResult<bool>)
      requires Valid()
      modifies this
      ensures Valid() && failures == old(failures) && nextId == old(nextId)
      ensures calls == old(calls) + [UpdateCall(c.Record())]
      ensures UpdateOp in failures ==> r == Failed(failures[UpdateOp]) && rows == old(rows)
      ensures UpdateOp !in failures ==>
                match UpdateOutcome(old(rows), c.customerId, RowOf(c.Record()))
                case Failed(e) => r == Failed(e) && rows == old(rows)
                case Ok(affected) =>
                  && r == Ok(affected > 0)
                  && rows == (if affected > 0 then old(rows)[c.customerId.value := RowOf(c.Record())] else old(rows))
    {
      calls := calls + [UpdateCall(c.Record())];
      if UpdateOp in failures {
        return Failed(failures[UpdateOp]);
      }
      var row := RowOf(c.Record());
      var outcome := UpdateOutcome(rows, c.customerId, row);
      if outcome.Failed? {
        return Failed(outcome.error);
      }
      if outcome.value > 0 {
        UpdateKeepsTableValid(rows, c.customerId, row);
        rows := rows[c.customerId.value := row];
      }
      return Ok(outcome.value > 0);
    }

    /** CustomerDao.deleteCustomer: removes the row of `id`; true exactly when a row
        was affected. */
    method Delete(id: Int32) returns (r: DbResult<bool>)
      requires Valid()
      modifies this
      ensures Valid() && failures == old(failures) && nextId == old(nextId)
      ensures calls == old(calls) + [DeleteCall(id)]
      ensures DeleteOp in failures ==> r == Failed(failures[DeleteOp]) && rows == old(rows)
      ensures DeleteOp !in failures ==> r == Ok(id in old(rows)) && rows == old(rows) - {id}
    {
      calls := calls + [DeleteCall(id)];
      if DeleteOp in failures {
        return Failed(failures[DeleteOp]);
      }
      var affected := if id in rows then 1 else 0;
      rows := rows - {id};
      return Ok(affected > 0);
    }
  }
}
