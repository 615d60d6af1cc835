/** The pure half of CustomerService: the e-mail check and the ordered field guards
    that run before any database access. */
module CustomerValidation {
  import opened JavaLang
  import opened CustomerModel

  const CustomerNull := "Customer cannot be null"
  const NameRequired := "Customer name is required"
  const EmailRequired := "Customer email is required"
  const EmailInvalid := "Invalid email format"
  const PhoneRequired := "Customer phone number is required"
  const PhoneNotNumeric := "Customer phone number must be numeric"

  /** CustomerService.isValidEmail, computed as the source computes it: the first and
      the last '@' must coincide at an index of at least 1, and the LAST '.' of the
      whole string must lie at least two places after the '@' and before the final
      character. (The second `atIndex == 0` test of the source can never fire.) */
  predicate IsValidEmail(email: Option<string>) {
    if email.None? || IsBlank(email.value) then false
    else
      var s := email.value;
      var atIndex := IndexOf(s, '@');
      var lastDotIndex := LastIndexOf(s, '.');
      if atIndex <= 0 || atIndex != LastIndexOf(s, '@') then false
      else if atIndex == 0 then false
      else if lastDotIndex <= atIndex + 1 then false
      else if lastDotIndex >= |s| - 1 then false
      else true
  }

  /** What the check accepts, said without indexOf/lastIndexOf: exactly one '@',
      not at the start; some '.' at least two places after it and before the last
      character; and the last character is not a '.'. */
  ghost predicate WellFormedEmail(s: string) {
    exists a :: 0 < a < |s| && s[a] == '@'
      && (forall i :: 0 <= i < |s| && s[i] == '@' ==> i == a)
      && (exists d :: a + 2 <= d < |s| - 1 && s[d] == '.')
      && s[|s| - 1] != '.'
  }

  /** When a character occurs exactly once, indexOf and lastIndexOf both find it. */
  lemma OnlyOccurrence(s: string, c: char, a: int)
    requires 0 <= a < |s| && s[a] == c
    requires forall i :: 0 <= i < |s| && s[i] == c ==> i == a
    ensures IndexOf(s, c) == a && LastIndexOf(s, c) == a
  {
  }

  /** Each accepted address satisfies WellFormedEmail. */
  lemma ValidEmailIsWellFormed(s: string)
    requires IsValidEmail(Some(s))
    ensures WellFormedEmail(s)
  {
    var a, d := IndexOf(s, '@'), LastIndexOf(s, '.');
    assert 0 < a && a == LastIndexOf(s, '@') && a + 2 <= d < |s| - 1;
    IndexOfEqualsLastIndexOf(s, '@');
    assert s[d + 1..][|s| - 1 - (d + 1)] == s[|s| - 1];
    WellFormedByWitness(s, a, d);
  }

  /** WellFormedEmail from the positions of its '@' and of a '.'. */
  lemma WellFormedByWitness(s: string, a: int, d: int)
    requires 0 < a < |s| && s[a] == '@'
    requires forall i :: 0 <= i < |s| && s[i] == '@' ==> i == a
    requires a + 2 <= d < |s| - 1 && s[d] == '.' && s[|s| - 1] != '.'
    ensures WellFormedEmail(s)
  {
  }

  /** Each WellFormedEmail address is accepted. */
  lemma WellFormedEmailIsValid(s: string)
    requires WellFormedEmail(s)
    ensures IsValidEmail(Some(s))
  {
    var a :| 0 < a < |s| && s[a] == '@'
      && (forall i :: 0 <= i < |s| && s[i] == '@' ==> i == a)
      && (exists d :: a + 2 <= d < |s| - 1 && s[d] == '.')
      && s[|s| - 1] != '.';
    var d :| a + 2 <= d < |s| - 1 && s[d] == '.';
    NotBlankWhenVisible(s, a);
    OnlyOccurrence(s, '@', a);
    LastDotBetween(s, d);
  }

  /** A '.' at `d` and a last character that is no '.' pin lastIndexOf('.') between
      `d` and the last character. */
  lemma LastDotBetween(s: string, d: int)
    requires 0 <= d < |s| - 1 && s[d] == '.' && s[|s| - 1] != '.'
    ensures d <= LastIndexOf(s, '.') < |s| - 1
  {
    assert s[d] in s;
  }

  /** The index arithmetic of isValidEmail decides exactly WellFormedEmail. */
  lemma IsValidEmailIffWellFormed(s: string)
    ensures IsValidEmail(Some(s)) <==> WellFormedEmail(s)
  {
    if IsValidEmail(Some(s)) {
      ValidEmailIsWellFormed(s);
    }
    if WellFormedEmail(s) {
      WellFormedEmailIsValid(s);
    }
  }

  /** The e-mail formats the unit tests reject. */
  lemma RejectedEmailExamples()
    ensures !IsValidEmail(Some("invalid-email"))
    ensures !IsValidEmail(Some("test@"))
    ensures !IsValidEmail(Some("@example.com"))
    ensures !IsValidEmail(Some("test"))
  {
    assert '@' !in "invalid-email";
    assert '.' !in "test@";
    assert "@example.com"[0] == '@';
    assert '@' !in "test";
  }

  /** An address made of a local part without '@', one '@', and a domain without '@'
      that holds a '.' after its first character and does not end in one. */
  lemma AcceptedByParts(local: string, domain: string, d: int)
    requires local != [] && '@' !in local && '@' !in domain
    requires 1 <= d < |domain| - 1 && domain[d] == '.' && domain[|domain| - 1] != '.'
    ensures IsValidEmail(Some(local + "@" + domain))
  {
    var s := local + "@" + domain;
    var a := |local|;
    assert s[a] == '@' && s[a + 1 + d] == '.' && s[|s| - 1] == domain[|domain| - 1];
    assert forall i :: 0 <= i < a ==> s[i] == local[i];
    assert forall i :: a < i < |s| ==> s[i] == domain[i - a - 1];
    WellFormedEmailIsValid(s);
  }

  /** Addresses the unit tests accept: john.doe@example.com and special@example.com. */
  lemma AcceptedEmailExamples(local: string, domain: string)
    requires local == "john.doe" || local == "special"
    requires domain == "example.com"
    ensures IsValidEmail(Some(local + "@" + domain))
  {
    assert '@' !in "john.doe" && '@' !in "special" && '@' !in "example.com";
    assert domain[7] == '.' && domain[|domain| - 1] == 'm';
    AcceptedByParts(local, domain, 7);
  }

  /** A string with at least one character above U+0020. */
  ghost predicate HasVisibleChar(s: string) {
    exists i :: 0 <= i < |s| && !IsTrimmable(s[i])
  }

  /** A field that is present and holds a character above U+0020. */
  ghost predicate Present(field: Option<string>) {
    field.Some? && HasVisibleChar(field.value)
  }

  /** The source's presence test `field == null || field.trim().isEmpty()` fails
      exactly on the Present fields. */
  lemma PresentIffNotBlank(field: Option<string>)
    ensures Present(field) <==> field.Some? && !IsBlank(field.value)
  {
    if field.Some? {
      BlankIffAllTrimmable(field.value);
    }
  }

  /** Everything validateCustomer demands of a customer, as one declarative condition. */
  ghost predicate Acceptable(r: CustomerRecord) {
    && r.name.Some? && HasVisibleChar(r.name.value)
    && r.email.Some? && WellFormedEmail(r.email.value)
    && r.phoneNumber.Some? && MatchesDigits(r.phoneNumber.value)
  }

  /** The conjunction of the source's guards, each as the source writes it. */
  predicate PassesGuards(r: CustomerRecord) {
    && r.name.Some? && !IsBlank(r.name.value)
    && r.email.Some? && !IsBlank(r.email.value)
    && IsValidEmail(r.email)
    && r.phoneNumber.Some? && !IsBlank(r.phoneNumber.value)
    && MatchesDigits(r.phoneNumber.value)
  }

  /** The guards together accept exactly the Acceptable customers: the presence checks
      on email and phone add nothing to the format checks that follow them. */
  lemma GuardsDecideAcceptable(r: CustomerRecord)
    ensures PassesGuards(r) <==> Acceptable(r)
  {
    if r.name.Some? {
      BlankIffAllTrimmable(r.name.value);
    }
    if r.email.Some? {
      IsValidEmailIffWellFormed(r.email.value);
    }
    if r.phoneNumber.Some? {
      var p := r.phoneNumber.value;
      BlankIffAllTrimmable(p);
      if MatchesDigits(p) {
        assert !IsTrimmable(p[0]);
      }
    }
  }

  /** CustomerService.validateCustomer: None when the customer passes, otherwise the
      message of the first guard that fails, in the source's order: null customer,
      name, email present, email format, phone present, phone numeric. */
  function ValidateCustomer(c: Customer?): (r: Option<string>)
    reads c
    ensures r.None? <==> c != null && Acceptable(c.Record())
    ensures r.Some? ==> r.value in {CustomerNull, NameRequired, EmailRequired, EmailInvalid,
                                    PhoneRequired, PhoneNotNumeric}
  {
    if c == null then Some(CustomerNull)
    else
      GuardsDecideAcceptable(c.Record());
      if c.name.None? || IsBlank(c.name.value) then Some(NameRequired)
      else if c.email.None? || IsBlank(c.email.value) then Some(EmailRequired)
      else if !IsValidEmail(c.email) then Some(EmailInvalid)
      else if c.phoneNumber.None? || IsBlank(c.phoneNumber.value) then Some(PhoneRequired)
      else if !MatchesDigits(c.phoneNumber.value) then Some(PhoneNotNumeric)
      else None
  }

  /** Which message validateCustomer reports, guard by guard in the source's order,
      said with the declarative conditions: the first condition that fails decides. */
  lemma ValidationReportsFirstFailingGuard(c: Customer?)
    ensures c == null ==> ValidateCustomer(c) == Some(CustomerNull)
    ensures c != null && !Present(c.name) ==> ValidateCustomer(c) == Some(NameRequired)
    ensures c != null && Present(c.name) && !Present(c.email) ==> ValidateCustomer(c) == Some(EmailRequired)
    ensures (c != null && Present(c.name) && Present(c.email) && !WellFormedEmail(c.email.value))
            ==> ValidateCustomer(c) == Some(EmailInvalid)
    ensures (c != null && Present(c.name) && c.email.Some? && WellFormedEmail(c.email.value)
             && !Present(c.phoneNumber))
            ==> ValidateCustomer(c) == Some(PhoneRequired)
    ensures (c != null && Present(c.name) && c.email.Some? && WellFormedEmail(c.email.value)
             && Present(c.phoneNumber) && !MatchesDigits(c.phoneNumber.value))
            ==> ValidateCustomer(c) == Some(PhoneNotNumeric)
  {
    if c != null {
      PresentIffNotBlank(c.name);
      if Present(c.name) {
        PresentIffNotBlank(c.email);
        if c.email.Some? {
          IsValidEmailIffWellFormed(c.email.value);
          if WellFormedEmail(c.email.value) {
            PresentIffNotBlank(c.phoneNumber);
          }
        }
      }
    }
  }

  /** The four e-mails the unit tests expect to be refused, "invalid-email", "test@",
      "@example.com" and "test", are reported as badly formed once the name passes. */
  lemma TestEmailsReportedInvalid(c: Customer)
    requires c.name.Some? && !IsBlank(c.name.value)
    requires c.email.Some? && c.email.value in {"invalid-email", "test@", "@example.com", "test"}
    ensures ValidateCustomer(c) == Some(EmailInvalid)
  {
    RejectedEmailExamples();
    NotBlankWhenVisible(c.email.value, 0);
  }

  /** The names the unit tests expect to be refused as blank: "", "   ", "\t", "\n". */
  lemma BlankExamples(s: string)
    requires s in {"", "   ", "\t", "\n"}
    ensures IsBlank(s)
  {
    if s != "" {
      BlankIffAllTrimmable(s);
    }
  }

  /** A null or blank name is the first thing reported, whatever the other fields hold. */
  lemma BlankNameReported(c: Customer)
    requires c.name.None? || IsBlank(c.name.value)
    ensures ValidateCustomer(c) == Some(NameRequired)
  {
  }

  /** The customer of the unit tests, John Doe <john.doe@example.com>, passes the
      name and e-mail guards, so its phone number decides the outcome. */
  lemma TestCustomerPassesNameAndEmail(name: string, email: string)
    requires name == "John Doe" && email == "john.doe" + "@" + "example.com"
    ensures !IsBlank(name) && !IsBlank(email) && IsValidEmail(Some(email))
  {
    NotBlankWhenVisible(name, 0);
    NotBlankWhenVisible(email, 0);
    AcceptedEmailExamples("john.doe", "example.com");
  }

  /** Once name and e-mail pass, a null or blank phone is reported as missing and a
      present one that is not all digits as non-numeric. */
  lemma PhoneGuardsDecide(c: Customer)
    requires c.name.Some? && !IsBlank(c.name.value)
    requires c.email.Some? && !IsBlank(c.email.value) && IsValidEmail(c.email)
    ensures c.phoneNumber.None? ==> ValidateCustomer(c) == Some(PhoneRequired)
    ensures c.phoneNumber.Some? && !IsBlank(c.phoneNumber.value) && !MatchesDigits(c.phoneNumber.value)
            ==> ValidateCustomer(c) == Some(PhoneNotNumeric)
  {
  }

  /** The phone number "123-abc-!@#" of the unit tests is present but not numeric. */
  lemma NonNumericPhoneExample(p: string)
    requires p == "123-abc-!@#"
    ensures !IsBlank(p) && !MatchesDigits(p)
  {
    NotBlankWhenVisible(p, 0);
    assert !IsDigit(p[3]);
  }
}
