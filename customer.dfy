/** The Customer entity: a mutable object with a nullable Integer id and three
    nullable strings, whose identity (equals/hashCode) is the pair (customerId, email). */
module CustomerModel {
  import opened JavaLang

  /** The values one Customer object holds at a given moment. */
  datatype CustomerRecord = CustomerRecord(
    customerId: Option<Int32>,
    name: Option<string>,
    email: Option<string>,
    phoneNumber: Option<string>)

  /** What `equals` may be handed: null, an object of another class, or a Customer. */
  datatype Ref = Null | OtherObject | Cust(c: Customer) {
    function Objects(): set<Customer> {
      if Cust? then {c} else {}
    }
  }

  class Customer {
    var customerId: Option<Int32>
    var name: Option<string>
    var email: Option<string>
    var phoneNumber: Option<string>

    /** new Customer(): every field null. */
    constructor Empty()
      ensures Record() == CustomerRecord(None, None, None, None)
    {
      customerId, name, email, phoneNumber := None, None, None, None;
    }

    /** new Customer(name, email, phoneNumber): the id stays null until the store assigns one. */
    constructor (name: Option<string>, email: Option<string>, phoneNumber: Option<string>)
      ensures Record() == CustomerRecord(None, name, email, phoneNumber)
    {
      this.customerId := None;
      this.name := name;
      this.email := email;
      this.phoneNumber := phoneNumber;
    }

    /** new Customer(customerId, name, email, phoneNumber). */
    constructor WithId(customerId: Option<Int32>, name: Option<string>, email: Option<string>,
                       phoneNumber: Option<string>)
      ensures Record() == CustomerRecord(customerId, name, email, phoneNumber)
    {
      this.customerId := customerId;
      this.name := name;
      this.email := email;
      this.phoneNumber := phoneNumber;
    }

    function Record(): CustomerRecord
      reads this
    {
      CustomerRecord(customerId, name, email, phoneNumber)
    }

    method SetCustomerId(customerId: Option<Int32>)
      modifies this
      ensures Record() == old(Record()).(customerId := customerId)
    {
      this.customerId := customerId;
    }

    method SetName(name: Option<string>)
      modifies this
      ensures Record() == old(Record()).(name := name)
    {
      this.name := name;
    }

    method SetEmail(email: Option<string>)
      modifies this
      ensures Record() == old(Record()).(email := email)
    {
      this.email := email;
    }

    method SetPhoneNumber(phoneNumber: Option<string>)
      modifies this
      ensures Record() == old(Record()).(phoneNumber := phoneNumber)
    {
      this.phoneNumber := phoneNumber;
    }

    /** Customer.equals: the same object, or another Customer with the same id and
        email (null-safe); never null nor an object of another class. */
    predicate Equals(o: Ref)
      reads this, o.Objects()
    {
      if o.Cust? && o.c == this then true
      else if o.Null? || o.OtherObject? then false
      else customerId == o.c.customerId && email == o.c.email
    }

    /** Customer.hashCode: Objects.hash(customerId, email). */
    function HashCode(): Int32
      reads this
    {
      ObjectsHash2(IntegerHash(customerId), StringOrNullHash(email))
    }
  }

  /** Integer.hashCode is the value itself; null hashes to 0 in Objects.hash. */
  function IntegerHash(x: Option<Int32>): Int32 {
    if x.None? then 0 else x.value
  }

  function StringOrNullHash(x: Option<string>): Int32 {
    if x.None? then 0 else StringHash(x.value)
  }

  /** Objects.hash(a, b) == Arrays.hashCode(new Object[]{a, b}): 31 * (31 * 1 + ha) + hb
      in int arithmetic. */
  function ObjectsHash2(ha: Int32, hb: Int32): Int32 {
    Wrap32(31 * Wrap32(31 * 1 + ha) + hb)
  }

  /** equals looks at nothing but (customerId, email): two customers are equal exactly
      when those agree, whatever their names and phone numbers. */
  lemma EqualsMeansSameKey(a: Customer, b: Customer)
    ensures a.Equals(Cust(b)) <==> a.customerId == b.customerId && a.email == b.email
  {
  }

  lemma EqualsRejectsNullAndOtherClasses(a: Customer)
    ensures !a.Equals(Null) && !a.Equals(OtherObject)
  {
  }

  /** equals is an equivalence relation on customers. */
  lemma EqualsIsEquivalence(a: Customer, b: Customer, c: Customer)
    ensures a.Equals(Cust(a))
    ensures a.Equals(Cust(b)) ==> b.Equals(Cust(a))
    ensures a.Equals(Cust(b)) && b.Equals(Cust(c)) ==> a.Equals(Cust(c))
  {
  }

  /** Equal customers have equal hash codes. */
  lemma HashCodeAgreesWithEquals(a: Customer, b: Customer)
    requires a.Equals(Cust(b))
    ensures a.HashCode() == b.HashCode()
  {
  }

  /** A customer with neither id nor email (as new Customer() makes) hashes to
      31 * 31 = 961, whatever its name and phone number. */
  lemma HashOfBlankKey(a: Customer)
    requires a.customerId.None? && a.email.None?
    ensures a.HashCode() == 961
  {
  }
}
