# Customer service over JDBC — a Dafny model

This project models the customer-management core of a small Java/JDBC application and proves properties of that model.

- **`Customer` entity** (`customer.dfy`). A mutable object with a nullable id, name, e-mail and phone number. Its identity (`equals`/`hashCode`) is the pair (id, e-mail).
- **`CustomerService`** (`customer_validation.dfy`, `customer_service.dfy`). This layer validates a customer before touching the store:
  - the e-mail check works by index arithmetic over `indexOf`/`lastIndexOf`, and is proved equal to a declarative definition;
  - the field guards run in a fixed order, and the first one that fails names the message.
  - It then calls a `CustomerDao`. The DAO is modelled as an abstract store over the Customer table (`customer_dao.dfy`, `customer_table.dfy`), with `NOT NULL` columns, a `UNIQUE` e-mail and an `AUTO_INCREMENT` key. Every `SQLException` is turned into a `RuntimeException` with a fixed message.
- **`CustomerServiceAdvanced`** (`advanced_service.dfy`). This service reaches the same database through JDBC connections (`jdbc.dfy`). A connection has auto-commit, committed and closed flags. The database holds the three relations Customer, `Order` and Order_Product, with their foreign keys (`relations.dfy`).
  - `createCustomer` and `updateCustomer` each run one auto-committed statement, followed by row-count checks.
  - `deleteCustomer` runs an explicit cascade (lines, then orders, then the customer) inside a transaction.
  - `batchCreateCustomers` sends one batch of INSERTs in a transaction and writes the generated keys back onto the list.
  - `searchCustomers` builds an SQL text and a parameter list (`search.dfy`).
  - Every `SQLException` leaves as a `DatabaseException` whose message is a fixed prefix followed by the driver's message.
- **`DatabaseConfig`** (`database_config.dfy`).
  - Each setting is looked up in `database.properties`, then in the JVM system property of the same name, then in a default.
  - The settings give the JDBC URL and the pool settings.
  - The class loads the file, starts one pool, and `shutdown` closes that pool at most once.

How Java appears in the model:

- **Java types.**
  - `null` is `Option.None`.
  - `int` and `long` are the subset types `Int32` and `Int64`.
  - `String.hashCode` and `Objects.hash` wrap around explicitly, through `Wrap32`.
  - `String.trim`, `indexOf`, `lastIndexOf`, `Integer.parseInt` and `Integer.toString` are written out in `java_lang.dfy`.
- **Exceptions** are results.
  - A Java call returns an `Outcome`, which is either `Return(value)` or `Throw(thrown)`.
  - A JDBC call returns a `DbResult`, which is either `Ok(value)` or `Failed(SqlException)`.
- **Driver failures are inputs.** Any JDBC call may throw, for reasons the model cannot see. A parameter `fault: Option<Fault<Step>>` names the one call that throws and the `SQLException` it throws. Inside the one run, `rollback`, `close` and `setAutoCommit(true)` each count as a single kind of call: when that kind fails, every call of it throws. For the DAO, a `failures` map names, per operation (`findByEmail`, `create`, ...), the SQLException that operation throws.
- **A second session.** `deleteCustomer` can be raced by another session. The `concurrentDelete` parameter says that another session deleted the same customer between the existence check and the DELETEs.
- **The JVM's system properties** are an input of the `DatabaseConfig` class.
- **The properties resource** (missing, unreadable, or its entries) is an input of `loadProperties`.
- **Starting the pool.** Whatever `new HikariDataSource(config)` throws is an input of `initializeDataSource`.

Behaviour of the code that a reader might not expect:

- **The e-mail check.** It looks at the *last* `.` of the whole string, not at a `.` after the `@`. That `.` must lie at least two places after the single `@` and before the last character.
- **Deleting a missing customer** answers `false` in both services; it is not reported as not found.
- **Constraint violations** are not classified into domain errors. Both services wrap every `SQLException` the same way: a generic `RuntimeException` or `DatabaseException`.
- **Batch failures.** The code rolls back the whole transaction on any `SQLException`, so normally nothing of a failed batch is committed. When the database refuses a row and that rollback itself throws, the INSERTs before the refused row are still pending, and the finally block's `setAutoCommit(true)` commits them.

## Model

| member | source | states |
|---|---|---|
| CustomerModel.Customer.Empty | src/main/java/org/ahmet/model/Customer.java:14 | `new Customer()` leaves every field null |
| CustomerModel.Customer.constructor | src/main/java/org/ahmet/model/Customer.java:16-20 | the three-argument constructor leaves the id null and stores name, e-mail and phone as given |
| CustomerModel.Customer.WithId | src/main/java/org/ahmet/model/Customer.java:22-27 | the four-argument constructor stores all four fields as given |
| CustomerModel.Customer.SetCustomerId | src/main/java/org/ahmet/model/Customer.java:34-36 | the id changes to the argument and no other field changes |
| CustomerModel.Customer.SetName | src/main/java/org/ahmet/model/Customer.java:42-44 | only the name changes |
| CustomerModel.Customer.SetEmail | src/main/java/org/ahmet/model/Customer.java:50-52 | only the e-mail changes |
| CustomerModel.Customer.SetPhoneNumber | src/main/java/org/ahmet/model/Customer.java:58-60 | only the phone number changes |
| CustomerModel.EqualsMeansSameKey | src/main/java/org/ahmet/model/Customer.java:62-69 | two customers are equal exactly when their ids and e-mails agree (null-safe), whatever their names and phones |
| CustomerModel.EqualsRejectsNullAndOtherClasses | src/main/java/org/ahmet/model/Customer.java:65 | a customer never equals null or an object of another class |
| CustomerModel.EqualsIsEquivalence | src/main/java/org/ahmet/model/Customer.java:62-69 | equals is reflexive, symmetric and transitive |
| CustomerModel.HashCodeAgreesWithEquals | src/main/java/org/ahmet/model/Customer.java:62-74 | equal customers have equal `Objects.hash(customerId, email)` in 32-bit arithmetic |
| CustomerModel.HashOfBlankKey | src/main/java/org/ahmet/model/Customer.java:71-74 | a customer with null id and null e-mail hashes to 961 |
| CustomerModel.Customer.Equals | src/main/java/org/ahmet/model/Customer.java:62-69 | the definition of equals: the same object, else never null nor another class, else null-safe agreement of id and e-mail; EqualsMeansSameKey and EqualsIsEquivalence state its meaning |
| CustomerModel.Customer.HashCode | src/main/java/org/ahmet/model/Customer.java:71-74 | the definition of hashCode as `Objects.hash(customerId, email)`; HashCodeAgreesWithEquals states that it agrees with equals |
| CustomerModel.ObjectsHash2 | src/main/java/org/ahmet/model/Customer.java:73 | `Objects.hash` of two values: 31 * (31 * 1 + ha) + hb in wrapped int arithmetic |
| JavaLang.TrimStart | src/main/java/org/ahmet/service/CustomerService.java:149 | the result is a suffix of the input; it starts with a character above U+0020; everything dropped is at most U+0020 |
| JavaLang.TrimEnd | src/main/java/org/ahmet/service/CustomerService.java:149 | the result is a prefix of the input; it ends with a character above U+0020; everything dropped is at most U+0020 |
| JavaLang.TrimIsInfix | src/main/java/org/ahmet/service/CustomerService.java:149 | `trim()` is the middle part of the string, after the leading run of characters at most U+0020 and before a trailing run of them |
| JavaLang.TrimmedEndsAreVisible | src/main/java/org/ahmet/service/CustomerService.java:149 | a trimmed string that is not empty starts and ends with a character above U+0020 |
| JavaLang.BlankIffAllTrimmable | src/main/java/org/ahmet/service/CustomerService.java:149 | `s.trim().isEmpty()` holds exactly when every character is at most U+0020 |
| JavaLang.NotBlankWhenVisible | src/main/java/org/ahmet/service/CustomerService.java:149 | a string with one character above U+0020 is not blank |
| JavaLang.Trim | src/main/java/org/ahmet/service/CustomerService.java:149 | `String.trim()` as TrimEnd after TrimStart; TrimIsInfix and TrimmedEndsAreVisible state what it keeps and drops |
| JavaLang.IsBlank | src/main/java/org/ahmet/service/CustomerService.java:149 | `s.trim().isEmpty()`; BlankIffAllTrimmable states it as "every character is at most U+0020" |
| JavaLang.MatchesDigits | src/main/java/org/ahmet/service/CustomerService.java:164 | `matches("\\d+")`: at least one character, all ASCII decimal digits |
| JavaLang.StringHash | src/main/java/org/ahmet/model/Customer.java:73 | `String.hashCode()`: s[0]*31^(n-1) + ... + s[n-1] in wrapped int arithmetic |
| JavaLang.IndexOf | src/main/java/org/ahmet/service/CustomerService.java:180 | the result is -1 exactly when the character is absent; otherwise it is its first position |
| JavaLang.LastIndexOf | src/main/java/org/ahmet/service/CustomerService.java:181 | the result is -1 exactly when the character is absent; otherwise it is its last position |
| JavaLang.IndexOfEqualsLastIndexOf | src/main/java/org/ahmet/service/CustomerService.java:184 | `indexOf == lastIndexOf` exactly when the character occurs once |
| JavaLang.DigitChar | src/main/java/org/ahmet/service/CustomerServiceAdvanced.java:224 | each digit value has an ASCII digit that reads back as that value |
| JavaLang.NatToDigits | src/main/java/org/ahmet/service/CustomerServiceAdvanced.java:224 | the decimal form of a natural number matches `\d+` |
| JavaLang.NatToDigitsRoundTrip | src/main/java/org/ahmet/service/CustomerServiceAdvanced.java:224 | reading the decimal digits of n gives n |
| JavaLang.ParseDecimal | src/main/java/org/ahmet/service/CustomerServiceAdvanced.java:235 | a parsed value lies in the range of the target type; the text starts with a sign or a digit |
| JavaLang.IntToString | src/main/java/org/ahmet/service/CustomerServiceAdvanced.java:224-225 | `String.valueOf(int)`: a minus sign for negative values, then the decimal digits of the magnitude; IntToStringRoundTrip states that parsing reads it back |
| JavaLang.ParseInt | src/main/java/org/ahmet/service/CustomerServiceAdvanced.java:235 | `Integer.parseInt`: ParseDecimal over the int range, so its result is always an int |
| JavaLang.ParseLong | src/main/java/org/ahmet/config/DatabaseConfig.java:58-60 | `Long.parseLong`: ParseDecimal over the long range |
| JavaLang.IntToStringRoundTrip | src/main/java/org/ahmet/service/CustomerServiceAdvanced.java:224-235 | parsing what `String.valueOf` printed gives the number back, for every value in range |
| JavaLang.ParseIntRoundTrip | src/main/java/org/ahmet/service/CustomerServiceAdvanced.java:224-235 | `Integer.parseInt(String.valueOf(n)) == n` for every int n |
| JavaLang.Wrap32 | src/main/java/org/ahmet/model/Customer.java:73 | the result is congruent to the input modulo 2^32, and equals it when it fits in an int |
| CustomerValidation.IsValidEmailIffWellFormed | src/main/java/org/ahmet/service/CustomerService.java:174-204 | isValidEmail accepts exactly the addresses that have one `@` not at the start, some `.` at least two places after it and before the last character, and no `.` at the end |
| CustomerValidation.ValidEmailIsWellFormed | src/main/java/org/ahmet/service/CustomerService.java:174-204 | every accepted address has that shape |
| CustomerValidation.WellFormedEmailIsValid | src/main/java/org/ahmet/service/CustomerService.java:174-204 | every address of that shape is accepted |
| CustomerValidation.OnlyOccurrence | src/main/java/org/ahmet/service/CustomerService.java:184 | a character that occurs once is found by both `indexOf` and `lastIndexOf` |
| CustomerValidation.IsValidEmail | src/main/java/org/ahmet/service/CustomerService.java:174-204 | isValidEmail as written: null or blank refused, then the first and last `@`, then the last `.`; IsValidEmailIffWellFormed states what it accepts |
| CustomerValidation.RejectedEmailExamples | src/main/java/org/ahmet/service/CustomerService.java:174-204 | "invalid-email", "test@", "@example.com" and "test" are rejected |
| CustomerValidation.AcceptedByParts | src/main/java/org/ahmet/service/CustomerService.java:174-204 | a non-empty local part, one `@`, and a domain with a `.` after its first character and not at its end is accepted |
| CustomerValidation.LastDotBetween | src/main/java/org/ahmet/service/CustomerService.java:174-204 | a `.` at some index before a last character that is no `.` pins `lastIndexOf('.')` between that index and the end |
| CustomerValidation.AcceptedEmailExamples | src/main/java/org/ahmet/service/CustomerService.java:174-204 | "john.doe@example.com" and "special@example.com" are accepted |
| CustomerValidation.GuardsDecideAcceptable | src/main/java/org/ahmet/service/CustomerService.java:149-166 | the guards together accept exactly the customers with a visible name, a well-formed e-mail and an all-digit phone |
| CustomerValidation.ValidateCustomer | src/main/java/org/ahmet/service/CustomerService.java:144-167 | no message exactly when the customer is non-null and acceptable; otherwise one of the six fixed messages |
| CustomerValidation.PresentIffNotBlank | src/main/java/org/ahmet/service/CustomerService.java:149-162 | the presence test `field == null \|\| field.trim().isEmpty()` fails exactly on a present field with a character above U+0020 |
| CustomerValidation.ValidationReportsFirstFailingGuard | src/main/java/org/ahmet/service/CustomerService.java:144-167 | the message, guard by guard in the source's order: null customer; name not present; e-mail not present; e-mail present but not well formed; phone not present; phone present but not all digits |
| CustomerValidation.TestEmailsReportedInvalid | src/main/java/org/ahmet/service/CustomerService.java:156-158 | with a name that passes, "invalid-email", "test@", "@example.com" and "test" give "Invalid email format" |
| CustomerValidation.BlankExamples | src/main/java/org/ahmet/service/CustomerService.java:149-151 | the empty, spaces-only, tab and newline names are blank |
| CustomerValidation.BlankNameReported | src/main/java/org/ahmet/service/CustomerService.java:149-151 | a null or blank name gives "Customer name is required" before any other field is looked at |
| CustomerValidation.TestCustomerPassesNameAndEmail | src/main/java/org/ahmet/service/CustomerService.java:149-159 | "John Doe" with "john.doe@example.com" passes the name and e-mail guards |
| CustomerValidation.PhoneGuardsDecide | src/main/java/org/ahmet/service/CustomerService.java:161-166 | once name and e-mail pass: a null phone is reported as missing, and a present non-digit phone as not numeric |
| CustomerValidation.NonNumericPhoneExample | src/main/java/org/ahmet/service/CustomerService.java:164-166 | "123-abc-!@#" is present but not numeric |
| Exceptions.Wrap | src/main/java/org/ahmet/service/CustomerServiceAdvanced.java:70-73 | a DatabaseException whose message is the prefix followed by the SQLException's message, with the SQLException as its cause |
| CustomerTable.NullColumnError | src/main/java/org/ahmet/database/DatabaseSetup.java:49-54 | there is no NOT NULL error exactly when name, email and phone_number are all present |
| CustomerTable.InsertOutcome | src/main/java/org/ahmet/database/DatabaseSetup.java:49-54 | an INSERT succeeds exactly when the row is complete, its e-mail is not held and the counter has room; the new key is the counter |
| CustomerTable.UpdateOutcome | src/main/java/org/ahmet/dao/CustomerDao.java:30-31 | an UPDATE affects 0 rows exactly when the id matches no row; it affects 1 row exactly when the row is complete and no other row holds its e-mail |
| CustomerTable.InsertKeepsEmailsUnique | src/main/java/org/ahmet/database/DatabaseSetup.java:52 | a row whose e-mail nobody holds keeps e-mails unique |
| CustomerTable.ReplaceKeepsEmailsUnique | src/main/java/org/ahmet/database/DatabaseSetup.java:52 | replacing a row with one whose e-mail no other row holds keeps e-mails unique |
| CustomerTable.InsertKeepsTableValid | src/main/java/org/ahmet/database/DatabaseSetup.java:49-54 | a successful INSERT keeps the UNIQUE constraint and keeps every key below the counter |
| CustomerTable.UpdateKeepsTableValid | src/main/java/org/ahmet/database/DatabaseSetup.java:52 | a successful UPDATE keeps the UNIQUE constraint |
| CustomerTable.InsertAll | src/main/java/org/ahmet/service/CustomerServiceAdvanced.java:281 | a batch that goes through advances the counter by its length and yields one key per row |
| CustomerTable.InsertAllAssignsConsecutiveKeys | src/main/java/org/ahmet/service/CustomerServiceAdvanced.java:281 | the k-th row of a batch gets key counter+k and is stored under it; old rows are kept and nothing else is added |
| CustomerTable.BatchAcceptableSplit | src/main/java/org/ahmet/service/CustomerServiceAdvanced.java:281 | a batch is acceptable exactly when its prefix is and its last row is complete, fresh, distinct and fits |
| CustomerTable.EmailsAfterBatch | src/main/java/org/ahmet/service/CustomerServiceAdvanced.java:281 | after a batch, an e-mail is taken exactly when the table held it or a row of the batch carries it |
| CustomerTable.InsertAllSucceedsIff | src/main/java/org/ahmet/service/CustomerServiceAdvanced.java:281 | a batch goes through exactly when no row has a NULL column, no e-mail is taken or repeated, and the counter has room |
| CustomerTable.InsertAllKeepsEmailsUnique | src/main/java/org/ahmet/service/CustomerServiceAdvanced.java:281 | a batch that goes through keeps e-mails unique |
| CustomerTable.RejectedPrefixRejectsBatch | src/main/java/org/ahmet/service/CustomerServiceAdvanced.java:281 | once a prefix of the batch is refused, the whole batch is refused with the same error |
| CustomerTable.BatchAddsOnlyBatchRows | src/main/java/org/ahmet/service/CustomerServiceAdvanced.java:281 | a batch, whole or cut short by a refused row, keeps every old row unchanged and adds only rows of the batch under keys from the counter |
| CustomerStore.CustomerDao.FindByEmail | src/main/java/org/ahmet/dao/CustomerDao.java:108-126 | finds a customer exactly when some row holds that e-mail, and returns that row with its id; throws the SQLException the store gives for this operation, changing nothing |
| CustomerStore.CustomerDao.FindById | src/main/java/org/ahmet/dao/CustomerDao.java:82-100 | returns the row stored under the id, if any |
| CustomerStore.CustomerDao.FindAll | src/main/java/org/ahmet/dao/CustomerDao.java:133-151 | returns every stored row exactly once, each with its id |
| CustomerStore.CustomerDao.Create | src/main/java/org/ahmet/dao/CustomerDao.java:45-74 | on success the row is stored under the counter, the counter advances and the id is written onto the argument; on failure nothing changes |
| CustomerStore.CustomerDao.Update | src/main/java/org/ahmet/dao/CustomerDao.java:159-171 | answers true exactly when a row was replaced, and false when no row has the id |
| CustomerStore.CustomerDao.Delete | src/main/java/org/ahmet/dao/CustomerDao.java:179-186 | answers true exactly when the id was stored; the row is gone afterwards |
| CustomerServiceModel.Wrapped | src/main/java/org/ahmet/service/CustomerService.java:49-52 | a RuntimeException with the message and the SQLException as cause |
| CustomerServiceModel.CustomerService.CreateCustomer | src/main/java/org/ahmet/service/CustomerService.java:36-53 | an invalid customer never reaches the store and is left unchanged; otherwise the store is asked once for the e-mail as given; a registered e-mail is refused ("Customer with email … already exists") without calling create; a new one is inserted under the next key, which is written onto the customer; a failing lookup or a failing create (also one that follows a clean lookup) becomes RuntimeException("Failed to create customer", e) with nothing stored; the AUTO_INCREMENT counter advances by one exactly when a row is inserted, and stays put on every other path |
| CustomerServiceModel.CustomerService.GetCustomerById | src/main/java/org/ahmet/service/CustomerService.java:62-73 | a non-positive id is refused before the store is asked; otherwise returns the stored row or nothing; store failures are wrapped |
| CustomerServiceModel.CustomerService.GetAllCustomers | src/main/java/org/ahmet/service/CustomerService.java:80-87 | returns every stored customer exactly once, or the wrapped failure |
| CustomerServiceModel.CustomerService.UpdateCustomer | src/main/java/org/ahmet/service/CustomerService.java:96-113 | validation comes before the id check; a missing id answers false; a taken e-mail is a wrapped failure; otherwise the row is replaced; the AUTO_INCREMENT counter never moves |
| CustomerServiceModel.CustomerService.DeleteCustomer | src/main/java/org/ahmet/service/CustomerService.java:122-137 | a non-positive id is refused without a call; otherwise answers whether the id was stored, and the row is gone; the AUTO_INCREMENT counter never moves |
| Relations.DeleteLinesOf | src/main/java/org/ahmet/service/CustomerServiceAdvanced.java:147-156 | exactly the order lines of the customer's orders go; nothing else changes |
| Relations.DeleteOrdersOf | src/main/java/org/ahmet/service/CustomerServiceAdvanced.java:159-164 | exactly the customer's orders and their lines go (ON DELETE CASCADE); customers are untouched |
| Relations.DeleteCustomerRow | src/main/java/org/ahmet/service/CustomerServiceAdvanced.java:167-172 | the customer row goes with its cascade; 1 row is affected exactly when the customer existed, else 0 |
| Relations.CascadeRemovesOwned | src/main/java/org/ahmet/service/CustomerServiceAdvanced.java:146-171 | after the three DELETEs nothing of the customer is left: not its row, not its orders, not their lines |
| Relations.CascadeKeepsOthers | src/main/java/org/ahmet/service/CustomerServiceAdvanced.java:146-171 | every other customer, order and line stays unchanged, and nothing is added |
| Relations.CascadeOfAbsentCustomerIsIdentity | src/main/java/org/ahmet/service/CustomerServiceAdvanced.java:146-171 | for a customer with no row and no orders the three DELETEs change nothing |
| Relations.CascadeIsIdempotent | src/main/java/org/ahmet/service/CustomerServiceAdvanced.java:146-177 | repeating the cascade after another session committed it changes nothing more |
| Relations.CascadeMatchesSchemaCascade | src/main/java/org/ahmet/database/DatabaseSetup.java:64-80 | the explicit three DELETEs remove exactly what the schema's ON DELETE CASCADE removes for the single customer DELETE |
| Relations.StatementsKeepKeysResolving | src/main/java/org/ahmet/database/DatabaseSetup.java:64-80 | each DELETE keeps every foreign key resolving |
| Relations.MoreCustomersKeepKeysResolving | src/main/java/org/ahmet/database/DatabaseSetup.java:64-69 | adding customers breaks no foreign key |
| Jdbc.Connection.constructor | src/main/java/org/ahmet/service/CustomerServiceAdvanced.java:136 | a new connection has auto-commit on and sees the committed tables |
| Jdbc.Connection.SetAutoCommit | src/main/java/org/ahmet/service/CustomerServiceAdvanced.java:137 | switching auto-commit on commits the open transaction; a failure changes nothing |
| Jdbc.Connection.Commit | src/main/java/org/ahmet/service/CustomerServiceAdvanced.java:173 | the open transaction becomes the committed state; a failure leaves the database as it was |
| Jdbc.Connection.Rollback | src/main/java/org/ahmet/service/CustomerServiceAdvanced.java:141 | the transaction's work is discarded; a rollback that throws leaves the open transaction as it was |
| Jdbc.Connection.Close | src/main/java/org/ahmet/service/CustomerServiceAdvanced.java:197 | the connection is closed and uncommitted work is lost; a close that throws leaves the connection open |
| Jdbc.Connection.Apply | src/main/java/org/ahmet/service/CustomerServiceAdvanced.java:152-156 | a statement's effect is durable at once under auto-commit, and pending otherwise |
| Jdbc.Connection.CustomerExists | src/main/java/org/ahmet/service/CustomerServiceAdvanced.java:370-378 | answers whether the connection sees the customer row |
| Jdbc.Connection.DeleteLines | src/main/java/org/ahmet/service/CustomerServiceAdvanced.java:147-156 | the connection's tables become `DeleteLinesOf` of what it saw |
| Jdbc.Connection.DeleteOrders | src/main/java/org/ahmet/service/CustomerServiceAdvanced.java:159-164 | the connection's tables become `DeleteOrdersOf` of what it saw |
| Jdbc.Connection.DeleteCustomer | src/main/java/org/ahmet/service/CustomerServiceAdvanced.java:167-170 | the customer row is deleted, and the number of rows affected is reported |
| Jdbc.Connection.OtherSessionDeletes | src/main/java/org/ahmet/service/CustomerServiceAdvanced.java:140-170 | another session commits the same cascade while this transaction is open |
| Jdbc.Connection.InsertCustomer | src/main/java/org/ahmet/service/CustomerServiceAdvanced.java:45-54 | an accepted INSERT reports 1 row and the counter as key, and advances the counter; a refused one changes nothing |
| Jdbc.Connection.UpdateCustomer | src/main/java/org/ahmet/service/CustomerServiceAdvanced.java:105-115 | the UPDATE reports the rows `UpdateOutcome` gives, and replaces the row only when 1 row is affected |
| Jdbc.Connection.ExecuteBatch | src/main/java/org/ahmet/service/CustomerServiceAdvanced.java:270-281 | the INSERTs run in order; the result is the batch's keys and tables, or the first refusal, with the INSERTs before it still in the open transaction |
| AdvancedService.CreateRowChecks | src/main/java/org/ahmet/service/CustomerServiceAdvanced.java:54-67 | the key is returned exactly when a row was affected and a key was read; otherwise "no rows affected", then the wrapped key-read failure, then "no ID obtained" |
| AdvancedService.AcceptedInsertPassesRowChecks | src/main/java/org/ahmet/service/CustomerServiceAdvanced.java:54-67 | after an INSERT the database accepts, neither DatabaseException of the row checks can be raised |
| AdvancedService.DeleteSpec | src/main/java/org/ahmet/service/CustomerServiceAdvanced.java:132-203 | the outcome and committed tables of deleteCustomer: a failing connect, begin, existence query or close of it throws; an absent customer answers false, or throws when that rollback throws; otherwise DeleteExistingSpec; the Delete lemmas state its properties |
| AdvancedService.DeleteExistingSpec | src/main/java/org/ahmet/service/CustomerServiceAdvanced.java:145-191 | after the customer was found: a failing DELETE throws with only the other session's work committed; a row count other than 1 answers false, or throws when the rollback throws; a failing commit throws; otherwise true with the cascade committed |
| AdvancedService.DeleteReturnsTrueIff | src/main/java/org/ahmet/service/CustomerServiceAdvanced.java:132-203 | deleteCustomer answers true exactly when the customer exists, no other session deleted it first, and no JDBC call on the way to true throws (a failing rollback is never reached there) |
| AdvancedService.DeleteIsAllOrNothing | src/main/java/org/ahmet/service/CustomerServiceAdvanced.java:132-203 | alone on the database, either the whole cascade is committed with answer true, or no table changes |
| AdvancedService.DeleteTrueRemovesExactlyTheCustomer | src/main/java/org/ahmet/service/CustomerServiceAdvanced.java:146-175 | after true, the customer, its orders and their lines are gone and everything else is unchanged |
| AdvancedService.DeleteOfMissingCustomerChangesNothing | src/main/java/org/ahmet/service/CustomerServiceAdvanced.java:140-143 | for an absent customer the answer is never true and no table changes; with no failing call it is false |
| AdvancedService.DeleteErrorsAreWrapped | src/main/java/org/ahmet/service/CustomerServiceAdvanced.java:182-191 | every exception thrown is the DatabaseException wrapping the failing call's SQLException, including a failing close of the existence check and a failing rollback before `return false`; the tables keep only what another session did |
| AdvancedService.DeleteKeepsKeysResolving | src/main/java/org/ahmet/service/CustomerServiceAdvanced.java:146-180 | whatever the outcome, every order names a customer and every line names an order |
| AdvancedService.RowsOf | src/main/java/org/ahmet/service/CustomerServiceAdvanced.java:273-278 | one row per customer, in list order |
| AdvancedService.LastIndexBelow | src/main/java/org/ahmet/service/CustomerServiceAdvanced.java:284-290 | the last position below m that holds the object, or -1 when none does |
| AdvancedService.DistinctListGetsKeysByIndex | src/main/java/org/ahmet/service/CustomerServiceAdvanced.java:284-290 | without repeated objects, the k-th key goes to the k-th customer for k < min(#keys, #customers); the customers beyond keep their id |
| AdvancedService.KeyFor | src/main/java/org/ahmet/service/CustomerServiceAdvanced.java:284-290 | the id the key loop leaves on a customer: the key at its last position below min(#keys, #customers), else its old id; DistinctListGetsKeysByIndex states the usual case |
| AdvancedService.AssignGeneratedKeys | src/main/java/org/ahmet/service/CustomerServiceAdvanced.java:284-290 | each customer ends with the key of its last position below min(#keys, #customers), or its old id; no other field changes |
| AdvancedService.BatchSpec | src/main/java/org/ahmet/service/CustomerServiceAdvanced.java:266-307 | the outcome of the batch transaction: exception, committed tables and keys written, for each failing call and for a refused row; the Batch lemmas state its properties |
| AdvancedService.BatchIsAllOrNothing | src/main/java/org/ahmet/service/CustomerServiceAdvanced.java:266-307 | the batch is committed whole or not at all, except when the database refuses a row and the rollback throws: then the INSERTs before the refused row are committed by setAutoCommit(true) |
| AdvancedService.BatchCommitsOnlyBatchRows | src/main/java/org/ahmet/service/CustomerServiceAdvanced.java:266-317 | whatever happens, what is committed is the old tables plus rows of the batch under keys from the counter; orders and lines are untouched |
| AdvancedService.BatchSucceedsIff | src/main/java/org/ahmet/service/CustomerServiceAdvanced.java:281-296 | the batch succeeds exactly when every row is complete, no e-mail is taken or repeated, the counter has room, and no JDBC call throws (executeBatch, the key read, the key ResultSet's close, the commit) |
| AdvancedService.BatchStoresEachRowUnderItsKey | src/main/java/org/ahmet/service/CustomerServiceAdvanced.java:281-294 | after success, the k-th row is stored under key counter+k, old rows are kept, and orders and lines are untouched |
| AdvancedService.CommitFailureLeavesRolledBackIds | src/main/java/org/ahmet/service/CustomerServiceAdvanced.java:284-301 | the keys are written before the key ResultSet is closed and before the commit, so a failure of either leaves every customer with the id of a row that was rolled back |
| AdvancedService.Release | src/main/java/org/ahmet/service/CustomerServiceAdvanced.java:309-318 | the finally block: auto-commit comes back on unless that call throws; the connection is closed unless setAutoCommit(true) or close() throws, a failing setAutoCommit(true) skipping close(); the committed tables become what the transaction still holds, unless setAutoCommit(true) throws |
| AdvancedService.RunDelete | src/main/java/org/ahmet/service/CustomerServiceAdvanced.java:145-191 | once the customer is found: result and committed tables are exactly what DeleteExistingSpec gives, including the rollback at line 177 that throws; the open transaction equals the committed tables; the connection has committed exactly when the answer is true |
| AdvancedService.AddBatch | src/main/java/org/ahmet/service/CustomerServiceAdvanced.java:273-278 | the batch is complete exactly when the list holds no null, and then it holds one row per customer in list order |
| AdvancedService.BatchTransaction | src/main/java/org/ahmet/service/CustomerServiceAdvanced.java:268-318 | from setAutoCommit(false) to the finally block: a failing begin or a null element changes nothing; otherwise result, committed tables and ids are what BatchSpec gives; auto-commit is back on unless setAutoCommit(true) throws, and the connection is closed unless setAutoCommit(true) or close() throws |
| AdvancedService.RunBatch | src/main/java/org/ahmet/service/CustomerServiceAdvanced.java:281-307 | the execute, key, key-close, commit and rollback steps produce the outcome and ids the batch specification gives; the open transaction holds the tables the batch specification gives, and they are committed exactly on success or once the rollback has not thrown |
| AdvancedService.CustomerServiceAdvanced.constructor | src/main/java/org/ahmet/service/CustomerServiceAdvanced.java:37-39 | the service is bound to its database |
| AdvancedService.CustomerServiceAdvanced.CreateCustomer | src/main/java/org/ahmet/service/CustomerServiceAdvanced.java:44-74 | a connection failure, a null customer (NullPointerException) or a failing or refused INSERT change nothing; an accepted INSERT is committed whatever follows, and the id is written onto the customer only when the key is read; a close() that throws after `return customer` turns the result into the wrapped DatabaseException, with the row committed and the id written |
| AdvancedService.CustomerServiceAdvanced.UpdateCustomer | src/main/java/org/ahmet/service/CustomerServiceAdvanced.java:104-127 | a null customer or id throws NullPointerException; an id matching no row throws EntityNotFoundException("Customer with ID <id> not found"); a refused UPDATE is wrapped with "Failed to update customer: "; otherwise the row is replaced and the customer returned; a close() that throws after `return customer` turns the result into the wrapped DatabaseException, with the row replaced |
| AdvancedService.CustomerServiceAdvanced.DeleteCustomer | src/main/java/org/ahmet/service/CustomerServiceAdvanced.java:132-203 | result and committed tables are exactly what DeleteSpec gives (whose properties the Delete lemmas prove); a connection is opened unless connecting fails, and it ends with auto-commit on and closed, having committed exactly when the answer is true; auto-commit ends on unless setAutoCommit(true) throws, and the connection ends closed unless setAutoCommit(true) or close() throws |
| AdvancedService.CustomerServiceAdvanced.BatchCreateCustomers | src/main/java/org/ahmet/service/CustomerServiceAdvanced.java:258-319 | a null or empty list gives a new empty list and opens no connection; a null element throws NullPointerException before any statement, with no rollback; otherwise result, committed tables and the id left on each customer are what BatchSpec and KeyFor give; the connection ends with auto-commit on and closed, committed exactly on success; auto-commit ends on unless setAutoCommit(true) throws, and the connection ends closed unless setAutoCommit(true) or close() throws |
| CustomerSearch.SelectAllHasNoPlaceholder | src/main/java/org/ahmet/service/CustomerServiceAdvanced.java:210 | the base query holds no `?` |
| CustomerSearch.FilterClausesHaveOnePlaceholder | src/main/java/org/ahmet/service/CustomerServiceAdvanced.java:214-219 | each LIKE clause holds one `?` |
| CustomerSearch.PageClauseHasTwoPlaceholders | src/main/java/org/ahmet/service/CustomerServiceAdvanced.java:223 | the ORDER BY/LIMIT/OFFSET clause holds two `?` |
| CustomerSearch.SearchSql | src/main/java/org/ahmet/service/CustomerServiceAdvanced.java:210-223 | the SQL text: the base query, the name clause, the e-mail clause, then the page clause; SearchSqlPlaceholders counts its placeholders |
| CustomerSearch.SearchSqlPlaceholders | src/main/java/org/ahmet/service/CustomerServiceAdvanced.java:210-223 | the query holds two placeholders plus one per filter that takes part |
| CustomerSearch.LikeParameter | src/main/java/org/ahmet/service/CustomerServiceAdvanced.java:215 | `"%" + pattern.trim() + "%"`; LikeParameterWrapsTrimmedText states its shape |
| CustomerSearch.PatternParameters | src/main/java/org/ahmet/service/CustomerServiceAdvanced.java:213-220 | the LIKE parameters, name before e-mail, one per pattern that is neither null nor blank |
| CustomerSearch.BuildSearchQuery | src/main/java/org/ahmet/service/CustomerServiceAdvanced.java:210-225 | the SQL is the base query, the name clause when the name pattern has text, the e-mail clause when the e-mail pattern has text, then the paging clause; the parameters are one `%trim%` per pattern with text (name first), then String.valueOf(limit) and String.valueOf(offset) |
| CustomerSearch.PlaceholdersMatchParameters | src/main/java/org/ahmet/service/CustomerServiceAdvanced.java:210-237 | the SQL text holds exactly as many `?` as there are parameters |
| CustomerSearch.BindParameters | src/main/java/org/ahmet/service/CustomerServiceAdvanced.java:231-237 | all but the last two parameters are bound as strings at position i+1, the last two through Integer.parseInt; binding succeeds exactly when those two parse, otherwise a NumberFormatException naming the text is thrown |
| CustomerSearch.SearchParametersShape | src/main/java/org/ahmet/service/CustomerServiceAdvanced.java:213-235 | the list has 2 + (name has text) + (e-mail has text) entries, the name parameter first and the e-mail parameter third from last, and the last two parse back as exactly limit and offset, so binding never throws |
| CustomerSearch.LikeParameterWrapsTrimmedText | src/main/java/org/ahmet/service/CustomerServiceAdvanced.java:215 | a LIKE parameter is the pattern's non-empty trimmed text between two `%` |
| DatabaseConfigModel.ResolveProperty | src/main/java/org/ahmet/config/DatabaseConfig.java:76-78 | the value is the key's entry in the overlay of the file over the system properties over the default |
| DatabaseConfigModel.DatabaseName | src/main/java/org/ahmet/config/DatabaseConfig.java:48 | "database.name" resolved over the file, the system properties and the default "testdb"; the same value feeds the URL and getDatabaseName, as UrlNamesTheReportedDatabase states |
| DatabaseConfigModel.JdbcUrl | src/main/java/org/ahmet/config/DatabaseConfig.java:49-50 | the MySQL URL: scheme, host, ":", port, "/", database, then the fixed SSL, time-zone and key-retrieval options; UrlNamesTheReportedDatabase reads the database back out of it |
| DatabaseConfigModel.ResolvePrecedence | src/main/java/org/ahmet/config/DatabaseConfig.java:76-78 | the file's value wins whatever the system says; otherwise the system property; otherwise the default |
| DatabaseConfigModel.UrlDatabase | src/main/java/org/ahmet/config/DatabaseConfig.java:49-50 | a database name read back from a URL holds no `/` |
| DatabaseConfigModel.LastSlashIsSeparator | src/main/java/org/ahmet/config/DatabaseConfig.java:49-50 | the last `/` of the URL path is the one before the database name |
| DatabaseConfigModel.UrlDatabaseRoundTrip | src/main/java/org/ahmet/config/DatabaseConfig.java:46-50 | the URL built from host, port and a name without `/` reads back as exactly that name |
| DatabaseConfigModel.BuildPoolConfig | src/main/java/org/ahmet/config/DatabaseConfig.java:44-66 | settings are built exactly when the size parses as an int and the three timeouts as longs, otherwise the NumberFormatException names the first value (in setter order) that does not parse, when no setter range check fails before it; the URL is built from the resolved host, port and database name; user and password default to root and empty; leak threshold 60000; the three statement-cache driver properties |
| DatabaseConfigModel.DefaultMaxSizeParses | src/main/java/org/ahmet/config/DatabaseConfig.java:57 | the default pool size "10" parses as 10 |
| DatabaseConfigModel.DefaultConnectionTimeoutParses | src/main/java/org/ahmet/config/DatabaseConfig.java:58 | the default connection timeout "30000" parses as 30000 |
| DatabaseConfigModel.DefaultIdleTimeoutParses | src/main/java/org/ahmet/config/DatabaseConfig.java:59 | the default idle timeout "600000" parses as 600000 |
| DatabaseConfigModel.DefaultMaxLifetimeParses | src/main/java/org/ahmet/config/DatabaseConfig.java:60 | the default maximum lifetime "1800000" parses as 1800000 |
| DatabaseConfigModel.DefaultPoolConfig | src/main/java/org/ahmet/config/DatabaseConfig.java:46-66 | with nothing configured: URL jdbc:mysql://localhost:3306/testdb?useSSL=true&serverTimezone=UTC&allowPublicKeyRetrieval=true, user root, empty password, pool size 10, timeouts 30000, 600000 and 1800000, leak threshold 60000 |
| DatabaseConfigModel.ConfiguredPoolSizeIsUsed | src/main/java/org/ahmet/config/DatabaseConfig.java:57 | a pool size written in the file as `Integer.toString(n)` becomes the pool's maximum size n |
| DatabaseConfigModel.UrlNamesTheReportedDatabase | src/main/java/org/ahmet/config/DatabaseConfig.java:46-50 | the database the URL names is the one getDatabaseName reports |
| DatabaseConfigModel.Pool.constructor | src/main/java/org/ahmet/config/DatabaseConfig.java:68 | a new pool keeps its settings, is open, and has not been closed yet |
| DatabaseConfigModel.Pool.Close | src/main/java/org/ahmet/config/DatabaseConfig.java:90 | the pool is closed, and one more close call is counted |
| DatabaseConfigModel.DatabaseConfig.constructor | src/main/java/org/ahmet/config/DatabaseConfig.java:20-21 | before the static initializer runs: empty properties and no pool |
| DatabaseConfigModel.DatabaseConfig.LoadProperties | src/main/java/org/ahmet/config/DatabaseConfig.java:28-40 | a missing file throws RuntimeException("Unable to find database.properties") unwrapped; an IOException becomes RuntimeException("Failed to load database configuration", e), keeping the entries read before it; otherwise the entries are added |
| DatabaseConfigModel.DatabaseConfig.InitializeDataSource | src/main/java/org/ahmet/config/DatabaseConfig.java:42-74 | a number that does not parse or a pool that refuses to start becomes RuntimeException("Database initialization failed", cause) and no pool is set; otherwise a new open pool is started with the built settings |
| DatabaseConfigModel.DatabaseConfig.Initialize | src/main/java/org/ahmet/config/DatabaseConfig.java:23-26 | the static initializer succeeds exactly when the file is found, its settings build and the pool starts; it then holds the file's entries and an open pool with those settings; on failure there is no pool and a RuntimeException is thrown |
| DatabaseConfigModel.DatabaseConfig.GetDatabaseName | src/main/java/org/ahmet/config/DatabaseConfig.java:84-86 | "database.name" from the file, else the system property, else "testdb" |
| DatabaseConfigModel.DatabaseConfig.Shutdown | src/main/java/org/ahmet/config/DatabaseConfig.java:88-93 | an open pool is closed once; a missing or already closed pool is left alone, so a second shutdown closes nothing |

## Left out

- Logging, and everything in the test classes, `Main`, `Product`, `DatabaseSetup`'s own statements (its schema is modelled only as the constraints of the three relations), `DatabaseUtil` and any pool registry.
- `getCustomerStats`, `findCustomerById` and `mapResultSetToCustomer` of the transactional service: they only read and map, and are not part of this model.
- The execution of the search query: LIKE matching, ordering by name, LIMIT/OFFSET, mapping the rows, and the "Failed to search customers: " wrapping of its SQLExceptions. Only the query text, the parameter list and the binding are modelled.
- The ordering of `findAll` by name: the model states only that every row appears exactly once. Collation (MySQL's case-insensitive comparison of e-mails) is not modelled: e-mails compare as exact strings.
- VARCHAR length limits of the columns, and which error MySQL reports when several constraints are broken at once. The model reports NOT NULL first, then the duplicate e-mail, then an exhausted counter. The texts of the SQLExceptions are placeholders, not the driver's exact wording.
- Two different kinds of JDBC call failing in the same run. The model injects one failing kind per run. Failures of `rollback`, `close` and `setAutoCommit(true)` are modelled, each on its own: a failing rollback leaves the work pending, a failing `setAutoCommit(true)` skips `close`, and a failing `close` of a try-with-resources after a normal body becomes the wrapped exception.
- An INSERT refused by the database may still consume an AUTO_INCREMENT value in MySQL. The model advances the counter only for rows that go in. A failing `getGeneratedKeys` part way through the key loop is also not modelled: the model fails the key read as a whole, before any id is written.
- MySQL's `continueBatchOnError` and partial batch results: the model stops a batch at the first refused row. The rows before it stay pending, so they are discarded by the rollback, or committed when the rollback throws.
- MySQL reports "rows matched" or "rows changed" for an UPDATE depending on a driver flag. The model counts a matching row as affected.
- Concurrency beyond one other session deleting the same customer during `deleteCustomer`.
- `DatabaseException` is assumed to be no subclass of `SQLException`. Its source file is not part of this model. The source's own `throw new DatabaseException(...)` inside the try blocks is therefore modelled as leaving unwrapped.
- Unicode: `String.trim`, `\d`, `Integer.parseInt`, `Long.parseLong` and `String.hashCode` are modelled over Dafny characters. `\d` and the digits that `parseInt` and `parseLong` accept are taken as ASCII digits; the Java methods also accept other Unicode decimal digits (through `Character.digit`), and the hash sums character codes rather than UTF-16 code units.
- The static initializer's `ExceptionInInitializerError`: the model reports the RuntimeException it would wrap.
- The syntax of `.properties` files: the resource is given as its parsed entries.
- HikariCP itself, including its own range checks of the settings. Any exception the pool raises at start-up is an input of `initializeDataSource`.
- `getDataSource`: it returns the field.
