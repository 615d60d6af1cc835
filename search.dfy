/** The query construction of CustomerServiceAdvanced.searchCustomers: the SQL text
    grows clause by clause in a StringBuilder while the parameters are collected in a
    list, and the parameters are then bound by position, the last two as ints. */
module CustomerSearch {
  import opened JavaLang
  import opened Exceptions

  const SelectAll := "SELECT customer_id, " + "name, email, phone_number" + " FROM Customer WHERE 1=1"
  const NameClause := " AND name LIKE " + "?"
  const EmailClause := " AND email LIKE " + "?"
  const PageClause := (" ORDER BY name LIMIT " + "?") + (" OFFSET " + "?")

  /** How many times `c` occurs in `s`. */
  function Occurrences(s: string, c: char): (n: nat)
    ensures n <= |s|
    ensures n == 0 <==> c !in s
  {
    if s == [] then 0 else (if s[0] == c then 1 else 0) + Occurrences(s[1..], c)
  }

  lemma {:induction false} OccurrencesOfConcat(a: string, b: string, c: char)
    ensures Occurrences(a + b, c) == Occurrences(a, c) + Occurrences(b, c)
    decreases |a|
  {
    if a != [] {
      assert (a + b)[1..] == a[1..] + b;
      OccurrencesOfConcat(a[1..], b, c);
    } else {
      assert a + b == b;
    }
  }

  /** Text without `c` followed by one `c` holds it once. */
  lemma OnceAtEnd(a: string, c: char)
    requires c !in a
    ensures Occurrences(a + [c], c) == 1
  {
    OccurrencesOfConcat(a, [c], c);
  }

  /** The fixed text of the query holds no placeholder. */
  lemma SelectAllHasNoPlaceholder()
    ensures Occurrences(SelectAll, '?') == 0
  {
    assert '?' !in "SELECT customer_id, " && '?' !in "name, email, phone_number";
    assert '?' !in " FROM Customer WHERE 1=1";
  }

  /** Each filter clause holds one placeholder. */
  lemma FilterClausesHaveOnePlaceholder()
    ensures Occurrences(NameClause, '?') == 1
    ensures Occurrences(EmailClause, '?') == 1
  {
    assert '?' !in " AND name LIKE " && '?' !in " AND email LIKE ";
    OnceAtEnd(" AND name LIKE ", '?');
    OnceAtEnd(" AND email LIKE ", '?');
  }

  /** The paging clause holds two placeholders, for limit and offset. */
  lemma PageClauseHasTwoPlaceholders()
    ensures Occurrences(PageClause, '?') == 2
  {
    assert '?' !in " ORDER BY name LIMIT " && '?' !in " OFFSET ";
    OnceAtEnd(" ORDER BY name LIMIT ", '?');
    OnceAtEnd(" OFFSET ", '?');
    OccurrencesOfConcat(" ORDER BY name LIMIT " + "?", " OFFSET " + "?", '?');
  }

  /** The SQL text of a search, by which patterns take part. */
  function SearchSql(withName: bool, withEmail: bool): string {
    var filtered := if withName then SelectAll + NameClause else SelectAll;
    var filtered' := if withEmail then filtered + EmailClause else filtered;
    filtered' + PageClause
  }

  /** The query holds one placeholder per filter that takes part, and two more. */
  lemma SearchSqlPlaceholders(withName: bool, withEmail: bool)
    ensures Occurrences(SearchSql(withName, withEmail), '?') == 2 + (if withName then 1 else 0) + (if withEmail then 1 else 0)
  {
    SelectAllHasNoPlaceholder();
    FilterClausesHaveOnePlaceholder();
    PageClauseHasTwoPlaceholders();
    var filtered := if withName then SelectAll + NameClause else SelectAll;
    if withName {
      OccurrencesOfConcat(SelectAll, NameClause, '?');
    }
    var filtered' := if withEmail then filtered + EmailClause else filtered;
    if withEmail {
      OccurrencesOfConcat(filtered, EmailClause, '?');
    }
    OccurrencesOfConcat(filtered', PageClause, '?');
  }

  /** A pattern that takes part in the search: not null and not blank. */
  predicate HasText(pattern: Option<string>) {
    pattern.Some? && !IsBlank(pattern.value)
  }

  /** The LIKE parameter made from a pattern: the trimmed text between two '%'. */
  function LikeParameter(pattern: string): string {
    "%" + Trim(pattern) + "%"
  }

  /** The string parameters, name before e-mail, one per pattern that has text. */
  function PatternParameters(namePattern: Option<string>, emailPattern: Option<string>): seq<string> {
    var byName := if HasText(namePattern) then [LikeParameter(namePattern.value)] else [];
    if HasText(emailPattern) then byName + [LikeParameter(emailPattern.value)] else byName
  }

  /** The first half of searchCustomers: the SQL text and its parameter list. */
  method BuildSearchQuery(namePattern: Option<string>, emailPattern: Option<string>, offset: Int32, limit: Int32)
    returns (sql: string, parameters: seq<string>)
    ensures parameters == PatternParameters(namePattern, emailPattern) + [IntToString(limit), IntToString(offset)]
    ensures sql == SearchSql(HasText(namePattern), HasText(emailPattern))
  {
    ghost var withName, withEmail := HasText(namePattern), HasText(emailPattern);
    sql := SelectAll;
    parameters := [];
    if namePattern.Some? && !IsBlank(namePattern.value) {
      sql := sql + NameClause;
      parameters := parameters + [LikeParameter(namePattern.value)];
    }
    ghost var filtered, byName := sql, parameters;
    assert filtered == if withName then SelectAll + NameClause else SelectAll;
    assert byName == if withName then [LikeParameter(namePattern.value)] else [];
    if emailPattern.Some? && !IsBlank(emailPattern.value) {
      sql := sql + EmailClause;
      parameters := parameters + [LikeParameter(emailPattern.value)];
    }
    assert sql == if withEmail then filtered + EmailClause else filtered;
    ghost var patterns := parameters;
    assert patterns == PatternParameters(namePattern, emailPattern);
    sql := sql + PageClause;
    var limitText, offsetText := IntToString(limit), IntToString(offset);
    parameters := parameters + [limitText, offsetText];
  }

  /** The text of a search holds exactly as many placeholders as there are parameters. */
  lemma PlaceholdersMatchParameters(namePattern: Option<string>, emailPattern: Option<string>, offset: Int32, limit: Int32)
    ensures Occurrences(SearchSql(HasText(namePattern), HasText(emailPattern)), '?')
            == |PatternParameters(namePattern, emailPattern) + [IntToString(limit), IntToString(offset)]|
  {
    SearchSqlPlaceholders(HasText(namePattern), HasText(emailPattern));
  }

  /** A value bound to a PreparedStatement placeholder. */
  datatype Binding = StringParam(s: string) | IntParam(n: Int32)

  /** The binding loop of searchCustomers: position i + 1 receives parameter i, as a
      string for all but the last two and through Integer.parseInt for those two. A
      NumberFormatException is no SQLException and would leave unwrapped. */
  method BindParameters(parameters: seq<string>) returns (r: Outcome<seq<Binding>>)
    ensures r.Return? <==> forall i :: |parameters| - 2 <= i < |parameters| && 0 <= i ==> ParseInt(parameters[i]).Some?
    ensures r.Return? ==> |r.value| == |parameters|
    ensures r.Return? ==> forall i :: 0 <= i < |parameters| - 2 ==> r.value[i] == StringParam(parameters[i])
    ensures r.Return? ==> forall i :: |parameters| - 2 <= i < |parameters| && 0 <= i ==>
              r.value[i] == IntParam(ParseInt(parameters[i]).value)
    ensures r.Throw? ==>
              exists i :: |parameters| - 2 <= i < |parameters| && 0 <= i
                          && ParseInt(parameters[i]).None? && r.thrown == NumberFormat(parameters[i])
  {
    var bound: seq<Binding> := [];
    var i := 0;
    while i < |parameters|
      invariant 0 <= i <= |parameters| && |bound| == i
      invariant forall k :: 0 <= k < i && k < |parameters| - 2 ==> bound[k] == StringParam(parameters[k])
      invariant forall k :: 0 <= k < i && |parameters| - 2 <= k ==>
                  ParseInt(parameters[k]).Some? && bound[k] == IntParam(ParseInt(parameters[k]).value)
    {
      if i < |parameters| - 2 {
        bound := bound + [StringParam(parameters[i])];
      } else {
        var n := ParseInt(parameters[i]);
        if n.None? {
          return Throw(NumberFormat(parameters[i]));
        }
        bound := bound + [IntParam(n.value)];
      }
      i := i + 1;
    }
    return Return(bound);
  }

  /** The parameter list of a search: one LIKE parameter per pattern with text (so a
      blank pattern adds nothing), name first, then limit and offset, and the two last
      ones read back through Integer.parseInt as exactly limit and offset. Binding
      them can therefore never throw. */
  lemma SearchParametersShape(namePattern: Option<string>, emailPattern: Option<string>, offset: Int32, limit: Int32)
    ensures var ps := PatternParameters(namePattern, emailPattern) + [IntToString(limit), IntToString(offset)];
            && |ps| == 2 + (if HasText(namePattern) then 1 else 0) + (if HasText(emailPattern) then 1 else 0)
            && (HasText(namePattern) ==> ps[0] == LikeParameter(namePattern.value))
            && (HasText(emailPattern) ==> ps[|ps| - 3] == LikeParameter(emailPattern.value))
            && ParseInt(ps[|ps| - 2]) == Some(limit)
            && ParseInt(ps[|ps| - 1]) == Some(offset)
  {
    ParseIntRoundTrip(limit);
    ParseIntRoundTrip(offset);
  }

  /** Every LIKE parameter is the pattern's trimmed text, which is not empty, between
      two '%' wildcards. */
  lemma LikeParameterWrapsTrimmedText(pattern: string)
    requires !IsBlank(pattern)
    ensures var p := LikeParameter(pattern);
            && |p| >= 3 && p[0] == '%' && p[|p| - 1] == '%'
            && p[1..|p| - 1] == Trim(pattern)
  {
    var p := LikeParameter(pattern);
    assert p[1..|p| - 1] == Trim(pattern);
  }
}
