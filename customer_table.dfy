/** The Customer table: a map from customer_id to the row stored under it, the
    AUTO_INCREMENT counter, the NOT NULL columns and the UNIQUE constraint on email,
    and what an INSERT or an UPDATE of one row does to it. */
module CustomerTable {
  import opened JavaLang
  import opened Exceptions
  import opened CustomerModel

  /** One row of the Customer table; its customer_id is its key in the map. */
  datatype Row = Row(name: Option<string>, email: Option<string>, phoneNumber: Option<string>)

  function RowOf(r: CustomerRecord): Row {
    Row(r.name, r.email, r.phoneNumber)
  }

  /** What mapResultSetToCustomer builds from the row stored under `id`. */
  function RecordOf(id: Int32, row: Row): CustomerRecord {
    CustomerRecord(Some(id), row.name, row.email, row.phoneNumber)
  }

  /** `SELECT ... WHERE email = ?` finds a row; a null email matches nothing. */
  predicate EmailInUse(rows: map<Int32, Row>, email: Option<string>) {
    email.Some? && exists id :: id in rows && rows[id].email == email
  }

  /** Some row other than `id` holds `email`. */
  predicate EmailHeldByOther(rows: map<Int32, Row>, id: Int32, email: Option<string>) {
    email.Some? && exists other :: other in rows && other != id && rows[other].email == email
  }

  /** The UNIQUE constraint on Customer.email. */
  ghost predicate EmailsUnique(rows: map<Int32, Row>) {
    forall i, j :: i in rows && j in rows && i != j && rows[i].email.Some? ==> rows[i].email != rows[j].email
  }

  /** Every key is positive and below the AUTO_INCREMENT counter `next`. */
  ghost predicate KeysBelow(rows: map<Int32, Row>, next: int) {
    forall id :: id in rows ==> 1 <= id < next
  }

  /** A new row whose e-mail nobody holds keeps the constraint. */
  lemma InsertKeepsEmailsUnique(rows: map<Int32, Row>, id: Int32, row: Row)
    requires EmailsUnique(rows) && id !in rows && !EmailInUse(rows, row.email)
    ensures EmailsUnique(rows[id := row])
  {
    var rows' := rows[id := row];
    forall i, j | i in rows' && j in rows' && i != j && rows'[i].email.Some?
      ensures rows'[i].email != rows'[j].email
    {
      if i == id {
        assert j in rows && rows[j].email == rows'[j].email;
      } else if j == id {
        assert i in rows && rows[i].email == rows'[i].email;
      }
    }
  }

  /** Replacing a row with one whose e-mail no other row holds keeps the constraint. */
  lemma ReplaceKeepsEmailsUnique(rows: map<Int32, Row>, id: Int32, row: Row)
    requires EmailsUnique(rows) && id in rows && !EmailHeldByOther(rows, id, row.email)
    ensures EmailsUnique(rows[id := row])
  {
    var rows' := rows[id := row];
    forall i, j | i in rows' && j in rows' && i != j && rows'[i].email.Some?
      ensures rows'[i].email != rows'[j].email
    {
      if i == id {
        assert j in rows && j != id && rows[j].email == rows'[j].email;
      } else if j == id {
        assert i in rows && i != id && rows[i].email == rows'[i].email;
      }
    }
  }

  /** The SQLException MySQL raises when an INSERT or UPDATE would break the UNIQUE
      constraint on email (the driver's exact wording is not modelled). */
  function DuplicateEmail(email: string): SqlException {
    SqlException("Duplicate entry '" + email + "' for key 'Customer.email'")
  }

  /** The SQLException for a NULL written into a NOT NULL column. */
  function ColumnNull(column: string): SqlException {
    SqlException("Column '" + column + "' cannot be null")
  }

  /** The SQLException MySQL raises once the INT AUTO_INCREMENT counter is exhausted. */
  const KeysExhausted := SqlException("Failed to read auto-increment value from storage engine")

  /** name, email and phone_number are all NOT NULL. */
  predicate Complete(row: Row) {
    row.name.Some? && row.email.Some? && row.phoneNumber.Some?
  }

  /** The NOT NULL check, column by column in table order. */
  function NullColumnError(row: Row): (r: Option<SqlException>)
    ensures r.None? <==> Complete(row)
  {
    if row.name.None? then Some(ColumnNull("name"))
    else if row.email.None? then Some(ColumnNull("email"))
    else if row.phoneNumber.None? then Some(ColumnNull("phone_number"))
    else None
  }

  /** `INSERT INTO Customer (name, email, phone_number) VALUES (?, ?, ?)` against the
      table `rows` with the AUTO_INCREMENT counter at `nextId`: the key the new row
      receives, or the SQLException the statement raises. */
  function InsertOutcome(rows: map<Int32, Row>, nextId: int, row: Row): (r: DbResult<Int32>)
    requires 1 <= nextId
    ensures r.Ok? <==> Complete(row) && !EmailInUse(rows, row.email) && nextId <= MaxInt32
    ensures r.Ok? ==> r.value == nextId
  {
    if NullColumnError(row).Some? then Failed(NullColumnError(row).value)
    else if EmailInUse(rows, row.email) then Failed(DuplicateEmail(row.email.value))
    else if nextId > MaxInt32 then Failed(KeysExhausted)
    else Ok(nextId)
  }

  /** `UPDATE Customer SET name = ?, email = ?, phone_number = ? WHERE customer_id = ?`:
      the number of rows affected, or the SQLException raised. A missing or null id
      matches no row and so breaks no constraint. */
  function UpdateOutcome(rows: map<Int32, Row>, id: Option<Int32>, row: Row): (r: DbResult<nat>)
    ensures r == Ok(0) <==> id.None? || id.value !in rows
    ensures r == Ok(1) <==> id.Some? && id.value in rows && Complete(row)
                            && !EmailHeldByOther(rows, id.value, row.email)
    ensures r.Ok? ==> r.value <= 1
  {
    if id.None? || id.value !in rows then Ok(0)
    else if NullColumnError(row).Some? then Failed(NullColumnError(row).value)
    else if EmailHeldByOther(rows, id.value, row.email) then Failed(DuplicateEmail(row.email.value))
    else Ok(1)
  }

  /** A successful INSERT keeps the UNIQUE constraint and every key below the counter. */
  lemma InsertKeepsTableValid(rows: map<Int32, Row>, nextId: int, row: Row)
    requires 1 <= nextId && EmailsUnique(rows) && KeysBelow(rows, nextId)
    requires InsertOutcome(rows, nextId, row).Ok?
    ensures nextId !in rows
    ensures EmailsUnique(rows[nextId := row])
    ensures KeysBelow(rows[nextId := row], nextId + 1)
  {
    InsertKeepsEmailsUnique(rows, nextId, row);
  }

  /** A successful UPDATE keeps the UNIQUE constraint. */
  lemma UpdateKeepsTableValid(rows: map<Int32, Row>, id: Option<Int32>, row: Row)
    requires EmailsUnique(rows) && UpdateOutcome(rows, id, row) == Ok(1)
    ensures EmailsUnique(rows[id.value := row])
  {
    ReplaceKeepsEmailsUnique(rows, id.value, row);
  }

  // ---------------------------------------------------------------------------
  // A batch of INSERTs

  /** The table after a sequence of INSERTs run in order, with the keys they received,
      or the SQLException of the first one that fails, with the table as the INSERTs
      before it left it. */
  datatype BatchOutcome =
    | Inserted(rows: map<Int32, Row>, nextId: int, keys: seq<Int32>)
    | Rejected(error: SqlException, partial: map<Int32, Row>)

  function InsertAll(rows: map<Int32, Row>, nextId: int, batch: seq<Row>): (r: BatchOutcome)
    requires 1 <= nextId
    ensures r.Inserted? ==> r.nextId == nextId + |batch| && |r.keys| == |batch|
    decreases |batch|
  {
    if batch == [] then Inserted(rows, nextId, [])
    else
      match InsertAll(rows, nextId, batch[..|batch| - 1])
      case Rejected(e, partial) => Rejected(e, partial)
      case Inserted(before, next, keys) =>
        match InsertOutcome(before, next, batch[|batch| - 1])
        case Failed(e) => Rejected(e, before)
        case Ok(id) => Inserted(before[id := batch[|batch| - 1]], next + 1, keys + [id])
  }

  /** When every INSERT of a batch succeeds, the k-th row receives key nextId + k, the
      rows already there stay as they were, and nothing else is added. */
  lemma {:induction false} InsertAllAssignsConsecutiveKeys(rows: map<Int32, Row>, nextId: int, batch: seq<Row>)
    requires 1 <= nextId && KeysBelow(rows, nextId)
    requires InsertAll(rows, nextId, batch).Inserted?
    ensures var r := InsertAll(rows, nextId, batch);
            && (forall k :: 0 <= k < |batch| ==> r.keys[k] == nextId + k)
            && (forall k :: 0 <= k < |batch| ==> r.keys[k] in r.rows && r.rows[r.keys[k]] == batch[k])
            && (forall id :: id in rows ==> id in r.rows && r.rows[id] == rows[id])
            && (forall id :: id in r.rows ==> id in rows || nextId <= id < nextId + |batch|)
            && KeysBelow(r.rows, r.nextId)
    decreases |batch|
  {
    if batch != [] {
      var prefix := batch[..|batch| - 1];
      InsertAllAssignsConsecutiveKeys(rows, nextId, prefix);
      var p := InsertAll(rows, nextId, prefix);
      var last := batch[|batch| - 1];
      assert InsertOutcome(p.rows, p.nextId, last) == Ok(p.nextId);
      var r := InsertAll(rows, nextId, batch);
      assert r.rows == p.rows[p.nextId := last] && r.keys == p.keys + [p.nextId];
      forall k | 0 <= k < |batch|
        ensures r.keys[k] in r.rows && r.rows[r.keys[k]] == batch[k]
      {
        if k < |prefix| {
          assert prefix[k] == batch[k];
          assert r.keys[k] == p.keys[k] < p.nextId;
        }
      }
    }
  }

  /** Every row of a batch is complete and carries an e-mail the table does not hold
      and no other row of the batch carries, and the counter has room for all of them. */
  ghost predicate BatchAcceptable(rows: map<Int32, Row>, nextId: int, batch: seq<Row>) {
    && (forall k :: 0 <= k < |batch| ==> Complete(batch[k]) && !EmailInUse(rows, batch[k].email))
    && (forall i, j :: 0 <= i < j < |batch| ==> batch[i].email != batch[j].email)
    && nextId + |batch| - 1 <= MaxInt32
  }

  /** Acceptability of a batch, one row at a time from the end. */
  lemma BatchAcceptableSplit(rows: map<Int32, Row>, nextId: int, batch: seq<Row>)
    requires batch != []
    ensures var prefix, last := batch[..|batch| - 1], batch[|batch| - 1];
            BatchAcceptable(rows, nextId, batch) <==>
              && BatchAcceptable(rows, nextId, prefix)
              && Complete(last) && !EmailInUse(rows, last.email)
              && (forall k :: 0 <= k < |prefix| ==> prefix[k].email != last.email)
              && nextId + |prefix| <= MaxInt32
  {
    var prefix := batch[..|batch| - 1];
    assert forall k :: 0 <= k < |prefix| ==> prefix[k] == batch[k];
  }

  /** After a prefix of a batch went through, an e-mail is taken exactly when the table
      held it before or a row of the prefix carries it. */
  lemma EmailsAfterBatch(rows: map<Int32, Row>, nextId: int, prefix: seq<Row>, email: string)
    requires 1 <= nextId && KeysBelow(rows, nextId)
    requires InsertAll(rows, nextId, prefix).Inserted?
    ensures EmailInUse(InsertAll(rows, nextId, prefix).rows, Some(email)) <==>
            EmailInUse(rows, Some(email)) || exists k :: 0 <= k < |prefix| && prefix[k].email == Some(email)
  {
    var p := InsertAll(rows, nextId, prefix);
    InsertAllAssignsConsecutiveKeys(rows, nextId, prefix);
    if EmailInUse(p.rows, Some(email)) {
      var id :| id in p.rows && p.rows[id].email == Some(email);
      if id !in rows {
        var k := id - nextId;
        assert p.keys[k] == id && p.rows[id] == prefix[k];
      }
    }
    if exists k :: 0 <= k < |prefix| && prefix[k].email == Some(email) {
      var k :| 0 <= k < |prefix| && prefix[k].email == Some(email);
      assert p.rows[p.keys[k]].email == Some(email);
    }
    if EmailInUse(rows, Some(email)) {
      var id :| id in rows && rows[id].email == Some(email);
      assert p.rows[id].email == Some(email);
    }
  }

  /** A batch goes through exactly when it is acceptable: a duplicate e-mail (against
      the table or inside the batch), a NULL column or an exhausted counter anywhere
      makes it fail. */
  lemma {:induction false} InsertAllSucceedsIff(rows: map<Int32, Row>, nextId: int, batch: seq<Row>)
    requires 1 <= nextId <= MaxInt32 + 1 && KeysBelow(rows, nextId)
    ensures InsertAll(rows, nextId, batch).Inserted? <==> BatchAcceptable(rows, nextId, batch)
    decreases |batch|
  {
    if batch != [] {
      var prefix := batch[..|batch| - 1];
      var last := batch[|batch| - 1];
      InsertAllSucceedsIff(rows, nextId, prefix);
      BatchAcceptableSplit(rows, nextId, batch);
      var p := InsertAll(rows, nextId, prefix);
      if p.Rejected? {
        assert InsertAll(rows, nextId, batch) == p;
      } else {
        assert InsertAll(rows, nextId, batch).Inserted? <==> InsertOutcome(p.rows, p.nextId, last).Ok?;
        assert p.nextId == nextId + |prefix|;
        if last.email.Some? {
          EmailsAfterBatch(rows, nextId, prefix, last.email.value);
        }
      }
    }
  }

  /** A batch that goes through keeps the UNIQUE constraint. */
  lemma InsertAllKeepsEmailsUnique(rows: map<Int32, Row>, nextId: int, batch: seq<Row>)
    requires 1 <= nextId && KeysBelow(rows, nextId) && EmailsUnique(rows)
    requires InsertAll(rows, nextId, batch).Inserted?
    ensures EmailsUnique(InsertAll(rows, nextId, batch).rows)
    decreases |batch|
  {
    if batch != [] {
      var prefix := batch[..|batch| - 1];
      InsertAllKeepsEmailsUnique(rows, nextId, prefix);
      InsertAllAssignsConsecutiveKeys(rows, nextId, prefix);
      var p := InsertAll(rows, nextId, prefix);
      InsertKeepsEmailsUnique(p.rows, p.nextId, batch[|batch| - 1]);
    }
  }

  /** The batch stops at the first INSERT refused: once a prefix is rejected, the
      whole batch is rejected with the same error. */
  lemma {:induction false} RejectedPrefixRejectsBatch(rows: map<Int32, Row>, nextId: int, batch: seq<Row>, i: nat)
    requires 1 <= nextId && i <= |batch|
    requires InsertAll(rows, nextId, batch[..i]).Rejected?
    ensures InsertAll(rows, nextId, batch) == InsertAll(rows, nextId, batch[..i])
    decreases |batch| - i
  {
    if i < |batch| {
      var longer := batch[..i + 1];
      assert longer[..|longer| - 1] == batch[..i];
      RejectedPrefixRejectsBatch(rows, nextId, batch, i + 1);
    } else {
      assert batch[..i] == batch;
    }
  }

  /** The table a batch leaves, whole or cut short by a refused row. */
  function TableAfter(r: BatchOutcome): map<Int32, Row> {
    if r.Inserted? then r.rows else r.partial
  }

  /** A batch, whole or cut short, leaves behind only rows of the batch: the rows the
      table held are still there unchanged, and every row added is one of the batch,
      stored under a key the counter handed out. */
  lemma {:induction false} BatchAddsOnlyBatchRows(rows: map<Int32, Row>, nextId: int, batch: seq<Row>)
    requires 1 <= nextId && KeysBelow(rows, nextId)
    ensures var after := TableAfter(InsertAll(rows, nextId, batch));
            && (forall id :: id in rows ==> id in after && after[id] == rows[id])
            && (forall id :: id in after && id !in rows ==>
                  nextId <= id < nextId + |batch| && after[id] in batch)
    decreases |batch|
  {
    if batch != [] {
      var prefix := batch[..|batch| - 1];
      assert forall k :: 0 <= k < |prefix| ==> prefix[k] == batch[k];
      BatchAddsOnlyBatchRows(rows, nextId, prefix);
    }
  }
}
