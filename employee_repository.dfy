/**
 * The employee repository's queries as filters over the table, a map from the
 * generated id to the row.  A derived query with a null argument compares
 * with IS NULL, which is equality on `Option`; list results are id sets
 * because the database gives no order.
 */
module EmployeeRepository {
  import opened Wrappers
  import opened JavaText
  import opened EmployeeEntity

  type Table = map<int, Employee>

  /** The outcome of a query declared to return at most one row. */
  datatype Found = NoMatch | Single(id: int) | Several

  lemma Inhabited(ids: set<int>)
    requires ids != {}
    ensures exists x :: x in ids
  {
    if forall x :: x !in ids {
      assert false;
    }
  }

  /** An `Optional` query: empty, the one row, or an error for more than one. */
  function FindOne(ids: set<int>): (r: Found)
    ensures r.NoMatch? <==> ids == {}
    ensures r.Single? ==> ids == {r.id}
    ensures r.Several? ==> exists a, b :: a in ids && b in ids && a != b
  {
    if ids == {} then NoMatch
    else
      Inhabited(ids);
      var id :| id in ids;
      if ids == {id} then Single(id)
      else
        Inhabited(ids - {id});
        var other :| other in ids - {id};
        Several
  }

  function WithEmployeeId(rows: Table, employeeId: Option<string>): (ids: set<int>)
    ensures forall id :: id in ids <==> id in rows && rows[id].employeeId == employeeId
  {
    set id | id in rows && rows[id].employeeId == employeeId
  }

  function WithUserId(rows: Table, userId: Option<string>): (ids: set<int>)
    ensures forall id :: id in ids <==> id in rows && rows[id].userId == userId
  {
    set id | id in rows && rows[id].userId == userId
  }

  function WithEmail(rows: Table, email: Option<string>): (ids: set<int>)
    ensures forall id :: id in ids <==> id in rows && rows[id].email == email
  {
    set id | id in rows && rows[id].email == email
  }

  /** `findByDepartment` */
  function WithDepartment(rows: Table, department: Option<string>): (ids: set<int>)
    ensures forall id :: id in ids <==> id in rows && rows[id].department == department
  {
    set id | id in rows && rows[id].department == department
  }

  /** `findByStatus` */
  function WithStatus(rows: Table, status: Option<EmployeeStatus>): (ids: set<int>)
    ensures forall id :: id in ids <==> id in rows && rows[id].status == status
  {
    set id | id in rows && rows[id].status == status
  }

  /** `findByReportingManager` */
  function WithReportingManager(rows: Table, manager: Option<string>): (ids: set<int>)
    ensures forall id :: id in ids <==> id in rows && rows[id].reportingManager == manager
  {
    set id | id in rows && rows[id].reportingManager == manager
  }

  function FindByEmployeeId(rows: Table, employeeId: Option<string>): Found {
    FindOne(WithEmployeeId(rows, employeeId))
  }

  function FindByUserId(rows: Table, userId: Option<string>): Found {
    FindOne(WithUserId(rows, userId))
  }

  function FindByEmail(rows: Table, email: Option<string>): Found {
    FindOne(WithEmail(rows, email))
  }

  predicate ExistsByEmployeeId(rows: Table, employeeId: Option<string>) {
    exists id :: id in rows && rows[id].employeeId == employeeId
  }

  predicate ExistsByEmail(rows: Table, email: Option<string>) {
    exists id :: id in rows && rows[id].email == email
  }

  /** `existsBy…` holds exactly when the matching `findBy…` finds something. */
  lemma ExistsIffFound(rows: Table, employeeId: Option<string>, email: Option<string>)
    ensures ExistsByEmployeeId(rows, employeeId) <==> !FindByEmployeeId(rows, employeeId).NoMatch?
    ensures ExistsByEmail(rows, email) <==> !FindByEmail(rows, email).NoMatch?
  {
    var byId := WithEmployeeId(rows, employeeId);
    if ExistsByEmployeeId(rows, employeeId) {
      var id :| id in rows && rows[id].employeeId == employeeId;
      assert id in byId;
    }
    var byEmail := WithEmail(rows, email);
    if ExistsByEmail(rows, email) {
      var id :| id in rows && rows[id].email == email;
      assert id in byEmail;
    }
  }

  /** `LOWER(column) LIKE LOWER('%' || keyword || '%')`; a null column never matches. */
  predicate Like(column: Option<string>, keyword: string) {
    column.Some? && Contains(Lower(column.value), Lower(keyword))
  }

  predicate MatchesKeyword(e: Employee, keyword: string) {
    Like(e.firstName, keyword) || Like(e.lastName, keyword) || Like(e.email, keyword) || Like(e.employeeId, keyword)
  }

  /** `searchEmployees` */
  function Search(rows: Table, keyword: string): (ids: set<int>)
    ensures forall id :: id in ids <==> id in rows && MatchesKeyword(rows[id], keyword)
  {
    set id | id in rows && MatchesKeyword(rows[id], keyword)
  }

  /** The empty keyword finds every saved row (saved rows have a first name). */
  lemma EmptyKeywordMatchesAll(rows: Table)
    requires forall id :: id in rows ==> Complete(rows[id])
    ensures Search(rows, "") == rows.Keys
  {
    forall id | id in rows
      ensures id in Search(rows, "")
    {
      ContainsEmpty(Lower(rows[id].firstName.value));
    }
  }

  /** The search ignores the case of the keyword. */
  lemma SearchIgnoresCase(rows: Table, keyword: string)
    ensures Search(rows, Upper(keyword)) == Search(rows, keyword)
    ensures Search(rows, Lower(keyword)) == Search(rows, keyword)
  {
    LowerCanonical(keyword);
  }

  /** A keyword that contains another finds no more rows than it. */
  lemma LongerKeywordNarrows(rows: Table, short: string, long: string)
    requires Contains(Lower(long), Lower(short))
    ensures Search(rows, long) <= Search(rows, short)
  {
    forall id | id in Search(rows, long)
      ensures id in Search(rows, short)
    {
      var e := rows[id];
      if Like(e.firstName, long) {
        ContainsTransitive(Lower(e.firstName.value), Lower(long), Lower(short));
      } else if Like(e.lastName, long) {
        ContainsTransitive(Lower(e.lastName.value), Lower(long), Lower(short));
      } else if Like(e.email, long) {
        ContainsTransitive(Lower(e.email.value), Lower(long), Lower(short));
      } else {
        ContainsTransitive(Lower(e.employeeId.value), Lower(long), Lower(short));
      }
    }
  }

  /** With unique employee ids, `findByEmployeeId` never reports more than one row. */
  lemma UniqueEmployeeIdFindsOne(rows: Table, employeeId: Option<string>)
    requires forall a, b :: a in rows && b in rows && a != b ==> rows[a].employeeId != rows[b].employeeId
    ensures !FindByEmployeeId(rows, employeeId).Several?
  {}
}
