/**
 * The SQL tool: only queries whose trimmed, upper-cased text starts with
 * SELECT are run; the JDBC URL is built from the datasource type; the rows
 * of the result set are read one by one into insertion-ordered maps from
 * column name to value.  Opening the connection and the result set are a
 * parameter; every `Err` they give is an `SQLException` and its message.
 */
module SqlTool {
  import opened Wrappers
  import opened JavaText

  /** A column value as `getObject` returns it. */
  datatype Value = Null | Integer(i: int) | Decimal(d: real) | Text(s: string) | Boolean(b: bool)

  /** A `LinkedHashMap<String, Object>`: entries in order of first insertion, no key twice. */
  type Row = seq<(string, Value)>

  datatype SqlToolRequest = SqlToolRequest(
    datasourceType: string, host: string, port: string, database: string,
    username: string, password: string, query: string)

  datatype SqlToolResponse = SqlToolResponse(success: bool, message: string, results: Option<seq<Row>>, rowCount: int)

  /**
   * An open result set: its column names (`getColumnName(1..n)`), how many
   * times `next()` answers true, the cell `getObject(i)` of row r, and what
   * the `next()` after the last row does (`None`: answers false; `Some(m)`:
   * throws with message m).
   */
  datatype Cursor = Cursor(
    columns: seq<string>,
    available: nat,
    cell: (nat, nat) -> Result<Value, string>,
    end: Option<string>)

  /** `DriverManager.getConnection(url, user, password)`, `createStatement()` and `executeQuery(query)`. */
  datatype Database = Database(open: (string, string, string, string) -> Result<Cursor, string>)

  const Select := "SELECT"
  const OnlySelect := "Only SELECT queries are allowed"
  const Executed := "Query executed successfully"

  // ----- the SELECT guard -----

  /** `isQueryAllowed` */
  predicate IsQueryAllowed(query: string) {
    StartsWith(Upper(Trim(query)), Select)
  }

  /** The first k characters are white space. */
  predicate LeadingSpace(query: string, k: nat)
    requires k <= |query|
  {
    forall i :: 0 <= i < k ==> IsTrimmable(query[i])
  }

  /** The six characters at k read "SELECT" once upper-cased. */
  predicate SelectAt(query: string, k: nat) {
    k + 6 <= |query| && forall i :: 0 <= i < 6 ==> UpperChar(query[k + i]) == Select[i]
  }

  /** A reference reading of the guard: white space, then "select" in any case. */
  predicate SelectAfterWhiteSpace(query: string) {
    exists k: nat :: k <= |query| && LeadingSpace(query, k) && SelectAt(query, k)
  }

  lemma StartsWithSelect(s: string)
    ensures StartsWith(Upper(s), Select) <==> SelectAt(s, 0)
  {
    if SelectAt(s, 0) {
      assert Upper(s)[..6] == Select;
    }
    if StartsWith(Upper(s), Select) {
      forall i | 0 <= i < 6
        ensures UpperChar(s[i]) == Select[i]
      {
        assert Upper(s)[..6][i] == Select[i];
      }
    }
  }

  /** No white-space character upper-cases to a letter of "SELECT". */
  lemma SelectStartsWithText(query: string, k: nat)
    requires SelectAt(query, k)
    ensures !IsTrimmable(query[k]) && !IsTrimmable(query[k + 5])
  {
    assert Select[0] == 'S' && Select[5] == 'T';
    assert UpperChar(query[k + 0]) == 'S';
    assert UpperChar(query[k + 5]) == 'T';
  }

  lemma AllowedHasSelect(query: string)
    requires IsQueryAllowed(query)
    ensures SelectAfterWhiteSpace(query)
  {
    var st := SkipLeading(query, 0);
    var t := Trim(query);
    assert t == query[st..SkipTrailing(query, st, |query|)];
    StartsWithSelect(t);
    assert forall i :: 0 <= i < 6 ==> t[i] == query[st + i];
    assert LeadingSpace(query, st) && SelectAt(query, st);
  }

  lemma SelectIsAllowed(query: string, k: nat)
    requires k <= |query| && LeadingSpace(query, k) && SelectAt(query, k)
    ensures IsQueryAllowed(query)
  {
    var st := SkipLeading(query, 0);
    var len := SkipTrailing(query, st, |query|);
    SelectStartsWithText(query, k);
    assert st == |query| || !IsTrimmable(query[st]);
    assert st == k;
    assert len > k + 5;
    var t := query[st..len];
    assert Trim(query) == t;
    assert forall i :: 0 <= i < 6 ==> t[i] == query[k + i];
    assert SelectAt(t, 0);
    StartsWithSelect(t);
  }

  lemma IsQueryAllowedExactly(query: string)
    ensures IsQueryAllowed(query) <==> SelectAfterWhiteSpace(query)
  {
    if IsQueryAllowed(query) {
      AllowedHasSelect(query);
    }
    if SelectAfterWhiteSpace(query) {
      var k: nat :| k <= |query| && LeadingSpace(query, k) && SelectAt(query, k);
      SelectIsAllowed(query, k);
    }
  }

  /** Case mapping keeps white space and the upper-case form of every character. */
  lemma CaseKeepsReading(query: string, k: nat)
    requires k <= |query|
    ensures LeadingSpace(Lower(query), k) == LeadingSpace(query, k)
    ensures LeadingSpace(Upper(query), k) == LeadingSpace(query, k)
    ensures SelectAt(Lower(query), k) == SelectAt(query, k)
    ensures SelectAt(Upper(query), k) == SelectAt(query, k)
  {
    assert forall i :: 0 <= i < |query| ==> UpperChar(Lower(query)[i]) == UpperChar(query[i]);
    assert forall i :: 0 <= i < |query| ==> UpperChar(Upper(query)[i]) == UpperChar(query[i]);
  }

  /** The guard ignores case: lower- or upper-casing the query does not change the decision. */
  lemma AllowedIgnoresCase(query: string)
    ensures IsQueryAllowed(Lower(query)) == IsQueryAllowed(query)
    ensures IsQueryAllowed(Upper(query)) == IsQueryAllowed(query)
  {
    IsQueryAllowedExactly(query);
    IsQueryAllowedExactly(Lower(query));
    IsQueryAllowedExactly(Upper(query));
    if SelectAfterWhiteSpace(query) {
      var k: nat :| k <= |query| && LeadingSpace(query, k) && SelectAt(query, k);
      CaseKeepsReading(query, k);
    }
    if SelectAfterWhiteSpace(Lower(query)) {
      var k: nat :| k <= |Lower(query)| && LeadingSpace(Lower(query), k) && SelectAt(Lower(query), k);
      CaseKeepsReading(query, k);
    }
    if SelectAfterWhiteSpace(Upper(query)) {
      var k: nat :| k <= |Upper(query)| && LeadingSpace(Upper(query), k) && SelectAt(Upper(query), k);
      CaseKeepsReading(query, k);
    }
  }

  /** Leading white space does not change the decision. */
  lemma AllowedAfterWhiteSpace(ws: string, query: string)
    requires forall i :: 0 <= i < |ws| ==> IsTrimmable(ws[i])
    ensures IsQueryAllowed(ws + query) == IsQueryAllowed(query)
  {
    IsQueryAllowedExactly(query);
    IsQueryAllowedExactly(ws + query);
    if SelectAfterWhiteSpace(query) {
      var k: nat :| k <= |query| && LeadingSpace(query, k) && SelectAt(query, k);
      SelectAfterPrefix(ws, query, k);
    }
    if SelectAfterWhiteSpace(ws + query) {
      var k: nat :| k <= |ws + query| && LeadingSpace(ws + query, k) && SelectAt(ws + query, k);
      SelectBeyondPrefix(ws, query, k);
    }
  }

  /** A "select" after white space stays one when more white space comes first. */
  lemma SelectAfterPrefix(ws: string, query: string, k: nat)
    requires forall i :: 0 <= i < |ws| ==> IsTrimmable(ws[i])
    requires k <= |query| && LeadingSpace(query, k) && SelectAt(query, k)
    ensures LeadingSpace(ws + query, |ws| + k) && SelectAt(ws + query, |ws| + k)
  {
    var q := ws + query;
    forall i | 0 <= i < |ws| + k
      ensures IsTrimmable(q[i])
    {
      if i >= |ws| {
        assert q[i] == query[i - |ws|];
      }
    }
    assert forall j :: |ws| <= j < |q| ==> q[j] == query[j - |ws|];
  }

  /** A "select" after white space in the padded query lies in the query itself. */
  lemma SelectBeyondPrefix(ws: string, query: string, k: nat)
    requires forall i :: 0 <= i < |ws| ==> IsTrimmable(ws[i])
    requires k <= |ws + query| && LeadingSpace(ws + query, k) && SelectAt(ws + query, k)
    ensures k >= |ws| && LeadingSpace(query, k - |ws|) && SelectAt(query, k - |ws|)
  {
    var q := ws + query;
    SelectStartsWithText(q, k);
    assert forall j :: 0 <= j < |query| ==> query[j] == q[|ws| + j];
  }

  /** A read-only statement passes in lower case after white space. */
  lemma GuardAcceptsPadded()
    ensures IsQueryAllowed("  select * from employees")
  {
    var a := "  select * from employees";
    assert LeadingSpace(a, 2) && SelectAt(a, 2);
    SelectIsAllowed(a, 2);
  }

  /** The guard reads a prefix, not a word: "SELECTED" passes too. */
  lemma GuardAcceptsLongerWord()
    ensures IsQueryAllowed("SELECTED")
  {
    var b := "SELECTED";
    assert LeadingSpace(b, 0) && SelectAt(b, 0);
    SelectIsAllowed(b, 0);
  }

  /** Other statements, and the empty query, do not pass. */
  lemma GuardRejectsExamples()
    ensures !IsQueryAllowed("DELETE FROM employees")
    ensures !IsQueryAllowed("")
  {
    var c := "DELETE FROM employees";
    IsQueryAllowedExactly(c);
    forall k: nat | k <= |c|
      ensures !(LeadingSpace(c, k) && SelectAt(c, k))
    {
      if k == 0 {
        assert UpperChar(c[0]) == 'D';
      } else {
        assert !IsTrimmable(c[0]);
      }
    }
    IsQueryAllowedExactly("");
  }

  // ----- the JDBC URL -----

  /** `buildJdbcUrl`: an `Err` is the `IllegalArgumentException` for any other type. */
  function BuildJdbcUrl(request: SqlToolRequest): (r: Result<string, string>)
    ensures var t := Lower(request.datasourceType);
      r.Ok? <==> t == "postgresql" || t == "mysql"
    ensures r.Ok? ==>
      r.value == "jdbc:" + Lower(request.datasourceType) + "://" + request.host + ":" + request.port + "/" + request.database
    ensures r.Err? ==> r.error == "Unsupported datasource type: " + Lower(request.datasourceType)
  {
    var t := Lower(request.datasourceType);
    var tail := request.host + ":" + request.port + "/" + request.database;
    if t == "postgresql" then
      assert "jdbc:postgresql://" == "jdbc:" + t + "://";
      Ok("jdbc:postgresql://" + tail)
    else if t == "mysql" then
      assert "jdbc:mysql://" == "jdbc:" + t + "://";
      Ok("jdbc:mysql://" + tail)
    else Err("Unsupported datasource type: " + t)
  }

  /** The type is matched regardless of case. */
  lemma UrlIgnoresCase(request: SqlToolRequest)
    ensures BuildJdbcUrl(request.(datasourceType := Upper(request.datasourceType))) == BuildJdbcUrl(request)
    ensures BuildJdbcUrl(request.(datasourceType := Lower(request.datasourceType))) == BuildJdbcUrl(request)
  {
    LowerCanonical(request.datasourceType);
  }

  // ----- rows -----

  function Keys(row: Row): (keys: seq<string>)
    ensures |keys| == |row|
  {
    if row == [] then [] else [row[0].0] + Keys(row[1..])
  }

  function Lookup(row: Row, key: string): Option<Value> {
    if row == [] then None else if row[0].0 == key then Some(row[0].1) else Lookup(row[1..], key)
  }

  predicate Distinct(keys: seq<string>) {
    forall i, j :: 0 <= i < j < |keys| ==> keys[i] != keys[j]
  }

  /** `row.put(key, value)`: a present key keeps its place and takes the new value; a new key goes last. */
  function Put(row: Row, key: string, value: Value): (r: Row)
    ensures Lookup(r, key) == Some(value)
    ensures forall k :: k != key ==> Lookup(r, k) == Lookup(row, k)
    ensures key in Keys(row) ==> Keys(r) == Keys(row)
    ensures key !in Keys(row) ==> Keys(r) == Keys(row) + [key]
  {
    if row == [] then [(key, value)]
    else if row[0].0 == key then [(key, value)] + row[1..]
    else
      var rest := Put(row[1..], key, value);
      assert ([row[0]] + rest)[1..] == rest;
      [row[0]] + rest
  }

  /** The names in order of first occurrence. */
  function FirstOccurrences(names: seq<string>): (r: seq<string>)
    ensures Distinct(r)
    ensures forall k :: k in r <==> k in names
  {
    if names == [] then []
    else
      var f := FirstOccurrences(names[..|names| - 1]);
      assert forall k :: k in names <==> k in names[..|names| - 1] || k == names[|names| - 1];
      if names[|names| - 1] in f then f else f + [names[|names| - 1]]
  }

  /** The row read so far: columns 1..i of row r, put in order. */
  function ReadCells(c: Cursor, r: nat, i: nat): Result<Row, string>
    requires i <= |c.columns|
  {
    if i == 0 then Ok([])
    else match ReadCells(c, r, i - 1)
      case Err(m) => Err(m)
      case Ok(row) =>
        match c.cell(r, i)
        case Err(m) => Err(m)
        case Ok(v) => Ok(Put(row, c.columns[i - 1], v))
  }

  /** The rows read by the first k iterations of the `while (resultSet.next())` loop. */
  function ReadRows(c: Cursor, k: nat): Result<seq<Row>, string>
    requires k <= c.available
  {
    if k == 0 then Ok([])
    else match ReadRows(c, k - 1)
      case Err(m) => Err(m)
      case Ok(rows) =>
        match ReadCells(c, k - 1, |c.columns|)
        case Err(m) => Err(m)
        case Ok(row) => Ok(rows + [row])
  }

  /** Every row, or the message of the first exception. */
  function Fetched(c: Cursor): Result<seq<Row>, string> {
    match ReadRows(c, c.available)
    case Err(m) => Err(m)
    case Ok(rows) => if c.end.Some? then Err(c.end.value) else Ok(rows)
  }

  function Failure(message: string): (r: SqlToolResponse)
    ensures !r.success && r.results.None? && r.rowCount == 0
  {
    SqlToolResponse(false, "Error: " + message, None, 0)
  }

  /** What `executeQuery` answers; an `Err` is the exception that escapes it. */
  function Execute(request: SqlToolRequest, db: Database): Result<SqlToolResponse, string> {
    if !IsQueryAllowed(request.query) then Ok(SqlToolResponse(false, OnlySelect, None, 0))
    else match BuildJdbcUrl(request)
      case Err(m) => Err(m)
      case Ok(url) =>
        match db.open(url, request.username, request.password, request.query)
        case Err(m) => Ok(Failure(m))
        case Ok(c) =>
          match Fetched(c)
          case Err(m) => Ok(Failure(m))
          case Ok(rows) => Ok(SqlToolResponse(true, Executed, Some(rows), |rows|))
  }

  // ----- properties -----

  /** No later column among the first i has the name of column j. */
  predicate LastOfName(names: seq<string>, j: nat, i: nat)
    requires j < i <= |names|
  {
    forall l :: j < l < i ==> names[l] != names[j]
  }

  /** A row read in full holds each column name once, in order of first occurrence. */
  lemma {:induction false} RowKeys(c: Cursor, r: nat, i: nat)
    requires i <= |c.columns|
    requires ReadCells(c, r, i).Ok?
    ensures Keys(ReadCells(c, r, i).value) == FirstOccurrences(c.columns[..i])
  {
    if i > 0 {
      ReadCellsStep(c, r, i);
      RowKeys(c, r, i - 1);
      KeysStep(ReadCells(c, r, i - 1).value, c.columns, i, c.cell(r, i).value);
    }
  }

  /** Putting the i-th name into a row keyed by the first occurrences of the names before it. */
  lemma KeysStep(row: Row, names: seq<string>, i: nat, value: Value)
    requires 0 < i <= |names|
    requires Keys(row) == FirstOccurrences(names[..i - 1])
    ensures Keys(Put(row, names[i - 1], value)) == FirstOccurrences(names[..i])
  {
    FirstOccurrencesPrefix(names, i);
    KeysAfterPut(row, FirstOccurrences(names[..i - 1]), names[i - 1], value);
  }

  /** A row read up to column i is the row up to column i - 1 with column i put in. */
  lemma ReadCellsStep(c: Cursor, r: nat, i: nat)
    requires 0 < i <= |c.columns|
    requires ReadCells(c, r, i).Ok?
    ensures ReadCells(c, r, i - 1).Ok? && c.cell(r, i).Ok?
    ensures ReadCells(c, r, i).value == Put(ReadCells(c, r, i - 1).value, c.columns[i - 1], c.cell(r, i).value)
  {
  }

  /** The first occurrences of a longer prefix add its last name when it is new. */
  lemma FirstOccurrencesPrefix(names: seq<string>, i: nat)
    requires 0 < i <= |names|
    ensures var before := FirstOccurrences(names[..i - 1]);
      FirstOccurrences(names[..i]) == if names[i - 1] in before then before else before + [names[i - 1]]
  {
    assert names[..i][..i - 1] == names[..i - 1];
  }

  /** Putting a key into a row whose keys are known. */
  lemma KeysAfterPut(row: Row, before: seq<string>, key: string, value: Value)
    requires Keys(row) == before
    ensures Keys(Put(row, key, value)) == if key in before then before else before + [key]
  {
  }

  /** The value under each name is the value of the last column of that name. */
  lemma {:induction false} RowValues(c: Cursor, r: nat, i: nat)
    requires i <= |c.columns|
    requires ReadCells(c, r, i).Ok?
    ensures forall j :: 0 <= j < i && LastOfName(c.columns, j, i) ==>
      Lookup(ReadCells(c, r, i).value, c.columns[j]).Some? &&
      c.cell(r, j + 1) == Ok(Lookup(ReadCells(c, r, i).value, c.columns[j]).value)
  {
    if i > 0 {
      RowValues(c, r, i - 1);
      var row := ReadCells(c, r, i - 1).value;
      var key := c.columns[i - 1];
      var after := ReadCells(c, r, i).value;
      assert after == Put(row, key, c.cell(r, i).value);
      forall j | 0 <= j < i && LastOfName(c.columns, j, i)
        ensures Lookup(after, c.columns[j]).Some? && c.cell(r, j + 1) == Ok(Lookup(after, c.columns[j]).value)
      {
        if j < i - 1 {
          assert c.columns[j] != key;
          assert LastOfName(c.columns, j, i - 1);
        }
      }
    }
  }

  /** Rows already read stay as they were: the rows of k iterations begin with the rows of fewer. */
  lemma {:induction false} RowsExtend(c: Cursor, k: nat, m: nat)
    requires m <= k <= c.available
    requires ReadRows(c, k).Ok?
    ensures ReadRows(c, m).Ok? && |ReadRows(c, k).value| == k
    ensures ReadRows(c, k).value[..m] == ReadRows(c, m).value
  {
    if k > 0 {
      RowsExtend(c, k - 1, if m == k then k - 1 else m);
      if m < k {
        assert ReadRows(c, k).value[..m] == ReadRows(c, k - 1).value[..m];
      }
    }
  }

  /** A guard rejection answers the fixed message without building a URL or opening anything. */
  lemma DisallowedQuery(request: SqlToolRequest, db: Database)
    requires !IsQueryAllowed(request.query)
    ensures Execute(request, db) == Ok(SqlToolResponse(false, OnlySelect, None, 0))
  {}

  /**
   * An allowed query with an unsupported type throws; otherwise executeQuery
   * answers, successfully exactly when the connection opens and every row is
   * read, and then with one result per row.
   */
  lemma ExecuteOutcome(request: SqlToolRequest, db: Database)
    requires IsQueryAllowed(request.query)
    ensures BuildJdbcUrl(request).Err? <==> Execute(request, db).Err?
    ensures Execute(request, db).Ok? ==>
      var response := Execute(request, db).value;
      var connection := db.open(BuildJdbcUrl(request).value, request.username, request.password, request.query);
      && (response.success <==> connection.Ok? && Fetched(connection.value).Ok?)
      && (response.success ==>
            && response.results == Some(Fetched(connection.value).value)
            && response.rowCount == |response.results.value| == connection.value.available)
      && (!response.success ==>
            && response.results.None? && response.rowCount == 0
            && StartsWith(response.message, "Error: "))
  {
    if BuildJdbcUrl(request).Ok? {
      var connection := db.open(BuildJdbcUrl(request).value, request.username, request.password, request.query);
      if connection.Ok? && Fetched(connection.value).Ok? {
        RowsExtend(connection.value, connection.value.available, connection.value.available);
      }
      if Execute(request, db).Ok? && !Execute(request, db).value.success {
        var message := Execute(request, db).value.message;
        assert message[..7] == "Error: ";
      }
    }
  }

  // ----- the method -----

  /** The `for (int i = 1; i <= columnCount; i++)` loop filling one row. */
  method ReadRow(c: Cursor, k: nat) returns (r: Result<Row, string>)
    ensures r == ReadCells(c, k, |c.columns|)
  {
    var columnCount := |c.columns|;
    var row: Row := [];
    var i := 1;
    while i <= columnCount
      invariant 1 <= i <= columnCount + 1
      invariant ReadCells(c, k, i - 1) == Ok(row)
    {
      var value := c.cell(k, i);
      if value.Err? {
        CellsFail(c, k, i, columnCount);
        return Err(value.error);
      }
      row := Put(row, c.columns[i - 1], value.value);
      i := i + 1;
    }
    return Ok(row);
  }

  /** The `while (resultSet.next())` loop: every row in order, or the first exception. */
  method FetchRows(c: Cursor) returns (r: Result<seq<Row>, string>)
    ensures r == Fetched(c)
  {
    var results: seq<Row> := [];
    var k := 0;
    while k < c.available
      invariant 0 <= k <= c.available
      invariant ReadRows(c, k) == Ok(results)
    {
      var row := ReadRow(c, k);
      if row.Err? {
        RowsStayFailed(c, k + 1, c.available, row.error);
        return Err(row.error);
      }
      results := results + [row.value];
      k := k + 1;
    }
    if c.end.Some? {
      return Err(c.end.value);
    }
    return Ok(results);
  }

  /** `executeQuery`: the guard, the URL (whose exception escapes), then the rows. */
  method ExecuteQuery(request: SqlToolRequest, db: Database) returns (r: Result<SqlToolResponse, string>)
    ensures r == Execute(request, db)
  {
    if !IsQueryAllowed(request.query) {
      return Ok(SqlToolResponse(false, OnlySelect, None, 0));
    }
    var url := BuildJdbcUrl(request);
    if url.Err? {
      return Err(url.error);
    }
    var connection := db.open(url.value, request.username, request.password, request.query);
    if connection.Err? {
      return Ok(Failure(connection.error));
    }
    var results := FetchRows(connection.value);
    if results.Err? {
      return Ok(Failure(results.error));
    }
    return Ok(SqlToolResponse(true, Executed, Some(results.value), |results.value|));
  }

  lemma {:induction false} CellsFail(c: Cursor, k: nat, i: nat, n: nat)
    requires 1 <= i <= n <= |c.columns|
    requires ReadCells(c, k, i - 1).Ok? && c.cell(k, i).Err?
    ensures ReadCells(c, k, n) == Err(c.cell(k, i).error)
  {
    if n > i {
      CellsFail(c, k, i, n - 1);
    }
  }

  lemma {:induction false} RowsStayFailed(c: Cursor, k: nat, n: nat, m: string)
    requires 1 <= k <= n <= c.available
    requires ReadRows(c, k) == Err(m)
    ensures ReadRows(c, n) == Err(m)
  {
    if n > k {
      RowsStayFailed(c, k, n - 1, m);
    }
  }
}
