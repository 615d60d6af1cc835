/** CustomerService: validation first, then one or two calls into the store; every
    SQLException from the store leaves as a RuntimeException with a fixed message and
    the SQLException as its cause, while validation errors leave unwrapped. */
module CustomerServiceModel {
  import opened JavaLang
  import opened Exceptions
  import opened CustomerModel
  import opened CustomerValidation
  import opened CustomerTable
  import opened CustomerStore

  const IdMustBePositive := "Customer ID must be positive"
  const IdRequiredForUpdate := "Valid customer ID is required for update"
  const CreateFailed := "Failed to create customer"
  const RetrieveFailed := "Failed to retrieve customer"
  const RetrieveAllFailed := "Failed to retrieve customers"
  const UpdateFailed := "Failed to update customer"
  const DeleteFailed := "Failed to delete customer"

  /** `new RuntimeException(message, e)`. */
  function Wrapped(message: string, e: SqlException): (t: Thrown)
    ensures t.Runtime? && t.message == message && t.cause == Some(SqlError(e))
  {
    Runtime(message, Some(SqlError(e)))
  }

  /** The message of the IllegalArgumentException for an e-mail already registered;
      the e-mail appears exactly as given, untrimmed. */
  function AlreadyExists(email: string): string {
    "Customer with email " + email + " already exists"
  }

  class CustomerService {
    const dao: CustomerDao

    constructor (dao: CustomerDao)
      ensures this.dao == dao
    {
      this.dao := dao;
    }

    /** CustomerService.createCustomer. */
    method CreateCustomer(customer: Customer?) returns (r: Outcome<Customer>)
      requires dao.Valid()
      modifies dao, customer
      ensures dao.Valid() && dao.failures == old(dao.failures)
      // a customer that fails validation never reaches the store
      ensures old(ValidateCustomer(customer)).Some? ==>
                && r == Throw(IllegalArgument(old(ValidateCustomer(customer)).value))
                && dao.calls == old(dao.calls) && dao.rows == old(dao.rows) && dao.nextId == old(dao.nextId)
                && (customer != null ==> customer.Record() == old(customer.Record()))
      // otherwise the store is asked once for the e-mail, exactly as given
      ensures old(ValidateCustomer(customer)).None? ==>
                customer != null && |dao.calls| > |old(dao.calls)|
                && dao.calls[..|old(dao.calls)| + 1] == old(dao.calls) + [FindByEmailCall(old(customer.email))]
      ensures old(ValidateCustomer(customer)).None? && FindByEmailOp in dao.failures ==>
                && r == Throw(Wrapped(CreateFailed, dao.failures[FindByEmailOp]))
                && dao.calls == old(dao.calls) + [FindByEmailCall(old(customer.email))]
                && dao.rows == old(dao.rows) && dao.nextId == old(dao.nextId)
                && customer.Record() == old(customer.Record())
      // a registered e-mail is refused and the store's create is never called
      ensures old(ValidateCustomer(customer)).None? && FindByEmailOp !in dao.failures
              && EmailInUse(old(dao.rows), old(customer.email)) ==>
                && r == Throw(IllegalArgument(AlreadyExists(old(customer.email).value)))
                && dao.calls == old(dao.calls) + [FindByEmailCall(old(customer.email))]
                && dao.rows == old(dao.rows) && dao.nextId == old(dao.nextId)
                && customer.Record() == old(customer.Record())
      // a new e-mail is inserted under a fresh id, which is written onto the customer
      ensures old(ValidateCustomer(customer)).None? && FindByEmailOp !in dao.failures
              && !EmailInUse(old(dao.rows), old(customer.email)) ==>
                dao.calls == old(dao.calls) + [FindByEmailCall(old(customer.email)), CreateCall(old(customer.Record()))]
      // the lookup answered but the store's create throws: nothing is inserted
      ensures old(ValidateCustomer(customer)).None? && FindByEmailOp !in dao.failures
              && !EmailInUse(old(dao.rows), old(customer.email)) && CreateOp in dao.failures ==>
                && r == Throw(Wrapped(CreateFailed, dao.failures[CreateOp]))
                && dao.rows == old(dao.rows) && dao.nextId == old(dao.nextId)
                && customer.Record() == old(customer.Record())
      ensures old(ValidateCustomer(customer)).None? && FindByEmailOp !in dao.failures
              && !EmailInUse(old(dao.rows), old(customer.email)) && CreateOp !in dao.failures
              && old(dao.nextId) > MaxInt32 ==>
                && r == Throw(Wrapped(CreateFailed, KeysExhausted))
                && dao.rows == old(dao.rows) && dao.nextId == old(dao.nextId)
                && customer.Record() == old(customer.Record())
      ensures old(ValidateCustomer(customer)).None? && FindByEmailOp !in dao.failures
              && !EmailInUse(old(dao.rows), old(customer.email)) && CreateOp !in dao.failures
              && old(dao.nextId) <= MaxInt32 ==>
                && r == Return(customer)
                && old(dao.nextId) !in old(dao.rows)
                && dao.rows == old(dao.rows)[old(dao.nextId) := RowOf(old(customer.Record()))]
                && dao.nextId == old(dao.nextId) + 1
                && customer.Record() == old(customer.Record()).(customerId := Some(old(dao.nextId)))
    {
      var invalid := ValidateCustomer(customer);
      if invalid.Some? {
        return Throw(IllegalArgument(invalid.value));
      }
      var existing := dao.FindByEmail(customer.email);
      if existing.Failed? {
        return Throw(Wrapped(CreateFailed, existing.error));
      }
      if existing.value.Some? {
        return Throw(IllegalArgument(AlreadyExists(customer.email.value)));
      }
      var created := dao.Create(customer);
      if created.Failed? {
        return Throw(Wrapped(CreateFailed, created.error));
      }
      return Return(customer);
    }

    /** CustomerService.getCustomerById. */
    method GetCustomerById(customerId: Int32) returns (r: Outcome<Option<CustomerRecord>>)
      modifies dao`calls
      ensures customerId <= 0 ==> r == Throw(IllegalArgument(IdMustBePositive)) && dao.calls == old(dao.calls)
      ensures customerId > 0 ==> dao.calls == old(dao.calls) + [FindByIdCall(customerId)]
      ensures customerId > 0 && FindByIdOp in dao.failures ==> r == Throw(Wrapped(RetrieveFailed, dao.failures[FindByIdOp]))
      ensures customerId > 0 && FindByIdOp !in dao.failures ==>
                r == Return(if customerId in dao.rows then Some(RecordOf(customerId, dao.rows[customerId])) else None)
    {
      if customerId <= 0 {
        return Throw(IllegalArgument(IdMustBePositive));
      }
      var found := dao.FindById(customerId);
      if found.Failed? {
        return Throw(Wrapped(RetrieveFailed, found.error));
      }
      return Return(found.value);
    }

    /** CustomerService.getAllCustomers: every stored customer exactly once. */
    method GetAllCustomers() returns (r: Outcome<seq<CustomerRecord>>)
      modifies dao`calls
      ensures dao.calls == old(dao.calls) + [FindAllCall]
      ensures FindAllOp in dao.failures ==> r == Throw(Wrapped(RetrieveAllFailed, dao.failures[FindAllOp]))
      ensures FindAllOp !in dao.failures ==> r.Return?
      ensures FindAllOp !in dao.failures ==> forall i :: 0 <= i < |r.value| ==>
                r.value[i].customerId.Some? && r.value[i].customerId.value in dao.rows
                && r.value[i] == RecordOf(r.value[i].customerId.value, dao.rows[r.value[i].customerId.value])
      ensures FindAllOp !in dao.failures ==> forall id :: id in dao.rows ==>
                exists i :: 0 <= i < |r.value| && r.value[i].customerId == Some(id)
      ensures FindAllOp !in dao.failures ==> forall i, j :: 0 <= i < j < |r.value| ==>
                r.value[i].customerId != r.value[j].customerId
    {
      var all := dao.FindAll();
      if all.Failed? {
        return Throw(Wrapped(RetrieveAllFailed, all.error));
      }
      return Return(all.value);
    }

    /** CustomerService.updateCustomer: the fields are validated before the id, so a
        customer with a bad field and no id reports the field. */
    method UpdateCustomer(customer: Customer?) returns (r: Outcome<bool>)
      requires dao.Valid()
      modifies dao
      ensures dao.Valid() && dao.failures == old(dao.failures)
      // an update never moves the AUTO_INCREMENT counter
      ensures dao.nextId == old(dao.nextId)
      ensures old(ValidateCustomer(customer)).Some? ==>
                && r == Throw(IllegalArgument(old(ValidateCustomer(customer)).value))
                && dao.calls == old(dao.calls) && dao.rows == old(dao.rows)
      ensures old(ValidateCustomer(customer)).None? && (customer.customerId.None? || customer.customerId.value <= 0) ==>
                && r == Throw(IllegalArgument(IdRequiredForUpdate))
                && dao.calls == old(dao.calls) && dao.rows == old(dao.rows)
      ensures old(ValidateCustomer(customer)).None? && customer.customerId.Some? && customer.customerId.value > 0 ==>
                dao.calls == old(dao.calls) + [UpdateCall(customer.Record())]
      ensures old(ValidateCustomer(customer)).None? && customer.customerId.Some? && customer.customerId.value > 0 ==>
                var id := customer.customerId.value;
                if UpdateOp in dao.failures then
                  r == Throw(Wrapped(UpdateFailed, dao.failures[UpdateOp])) && dao.rows == old(dao.rows)
                else if id !in old(dao.rows) then
                  r == Return(false) && dao.rows == old(dao.rows)
                else if EmailHeldByOther(old(dao.rows), id, customer.email) then
                  r == Throw(Wrapped(UpdateFailed, DuplicateEmail(customer.email.value))) && dao.rows == old(dao.rows)
                else
                  r == Return(true) && dao.rows == old(dao.rows)[id := RowOf(customer.Record())]
    {
      var invalid := ValidateCustomer(customer);
      if invalid.Some? {
        return Throw(IllegalArgument(invalid.value));
      }
      if customer.customerId.None? || customer.customerId.value <= 0 {
        return Throw(IllegalArgument(IdRequiredForUpdate));
      }
      var updated := dao.Update(customer);
      if updated.Failed? {
        return Throw(Wrapped(UpdateFailed, updated.error));
      }
      return Return(updated.value);
    }

    /** CustomerService.deleteCustomer. */
    method DeleteCustomer(customerId: Int32) returns (r: Outcome<bool>)
      requires dao.Valid()
      modifies dao
      ensures dao.Valid() && dao.failures == old(dao.failures)
      // a delete never moves the AUTO_INCREMENT counter
      ensures dao.nextId == old(dao.nextId)
      ensures customerId <= 0 ==>
                r == Throw(IllegalArgument(IdMustBePositive)) && dao.calls == old(dao.calls) && dao.rows == old(dao.rows)
      ensures customerId > 0 ==> dao.calls == old(dao.calls) + [DeleteCall(customerId)]
      ensures customerId > 0 && DeleteOp in dao.failures ==>
                r == Throw(Wrapped(DeleteFailed, dao.failures[DeleteOp])) && dao.rows == old(dao.rows)
      ensures customerId > 0 && DeleteOp !in dao.failures ==>
                r == Return(customerId in old(dao.rows)) && dao.rows == old(dao.rows) - {customerId}
    {
      if customerId <= 0 {
        return Throw(IllegalArgument(IdMustBePositive));
      }
      var deleted := dao.Delete(customerId);
      if deleted.Failed? {
        return Throw(Wrapped(DeleteFailed, deleted.error));
      }
      return Return(deleted.value);
    }
  }
}
