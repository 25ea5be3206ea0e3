/**
 * The employee service over the `employees` table.  Each operation runs in
 * one transaction: a failure, whether a rejection by the service or a NOT
 * NULL column refused at save, leaves the table as it was.  Ids come from a
 * counter standing for the identity column; `now` is the clock the
 * timestamps read.
 */
module EmployeeRecords {
  import opened Wrappers
  import opened JavaText
  import opened EmployeeEntity
  import opened EmployeeRequests
  import opened EmployeeResponses
  import opened EmployeeRepository

  /** What a not-found error names. */
  datatype Key = ById(id: int) | ByEmployeeId(employeeId: Option<string>) | ByUserId(userId: Option<string>)

  datatype EmployeeError =
    | EmployeeNotFound(key: Key)
    | EmployeeIdTaken(employeeId: Option<string>)
    | EmailTaken(email: Option<string>)
    | NotNullViolation
    | NonUniqueResult
  {
    /** The exception message (the last two are the persistence layer's own). */
    function Message(): string {
      match this
      case EmployeeNotFound(ById(id)) => "Employee not found with ID: " + IntToString(id)
      case EmployeeNotFound(ByEmployeeId(x)) => "Employee not found with employee ID: " + Concatenable(x)
      case EmployeeNotFound(ByUserId(x)) => "Employee not found with user ID: " + Concatenable(x)
      case EmployeeIdTaken(x) => "Employee with ID " + Concatenable(x) + " already exists"
      case EmailTaken(x) => "Employee with email " + Concatenable(x) + " already exists"
      case NotNullViolation => "not-null constraint violated"
      case NonUniqueResult => "query did not return a unique result"
    }
  }

  /** No two rows share an employee id or an email. */
  predicate UniqueKeys(rows: Table) {
    forall a, b :: a in rows && b in rows && a != b ==>
      rows[a].employeeId != rows[b].employeeId && rows[a].email != rows[b].email
  }

  /** Every row is stored under its own id, below the next id, with its NOT NULL columns filled. */
  predicate WellFormed(rows: Table, nextId: int) {
    forall id :: id in rows ==> rows[id].id == id && id < nextId && Complete(rows[id])
  }

  /** The row `createEmployee` builds: the request's fields, ACTIVE for a missing status, the caller as creator and updater. */
  function NewEmployee(r: EmployeeRequest, id: int, createdBy: Option<string>, now: Timestamp): (e: Employee)
    ensures e.id == id
    ensures e.status == (if r.status.Some? then r.status else Some(Active))
    ensures e.createdBy == createdBy && e.updatedBy == createdBy
    ensures e.createdAt == now && e.updatedAt == now
    ensures e.employeeId == r.employeeId && e.email == r.email && e.salary == r.salary
  {
    Employee(
      id := id, employeeId := r.employeeId, userId := r.userId, email := r.email,
      firstName := r.firstName, lastName := r.lastName, middleName := r.middleName,
      phoneNumber := r.phoneNumber, alternatePhone := r.alternatePhone,
      dateOfBirth := r.dateOfBirth, gender := r.gender, department := r.department,
      designation := r.designation, joiningDate := r.joiningDate, employmentType := r.employmentType,
      status := if r.status.Some? then r.status else Some(Active),
      reportingManager := r.reportingManager, salary := r.salary,
      address := r.address, city := r.city, state := r.state, country := r.country,
      postalCode := r.postalCode, emergencyContactName := r.emergencyContactName,
      emergencyContactPhone := r.emergencyContactPhone, emergencyContactRelation := r.emergencyContactRelation,
      bankName := r.bankName, bankAccountNumber := r.bankAccountNumber, bankIfscCode := r.bankIfscCode,
      skills := r.skills, qualifications := r.qualifications, certifications := r.certifications,
      notes := r.notes, profileImageUrl := r.profileImageUrl,
      createdAt := now, updatedAt := now, createdBy := createdBy, updatedBy := createdBy)
  }

  /**
   * The row after `updateEmployee`: the request's fields, the status only
   * when the request has one; id, employee id, user id and the creation
   * fields untouched.
   */
  function Updated(e: Employee, r: EmployeeRequest, updatedBy: Option<string>, now: Timestamp): (u: Employee)
    ensures u.id == e.id && u.employeeId == e.employeeId && u.userId == e.userId
    ensures u.createdBy == e.createdBy && u.createdAt == e.createdAt
    ensures u.status == (if r.status.Some? then r.status else e.status)
    ensures u.email == r.email && u.salary == r.salary
    ensures u.updatedBy == updatedBy && u.updatedAt == now
  {
    e.(email := r.email, firstName := r.firstName, lastName := r.lastName, middleName := r.middleName,
       phoneNumber := r.phoneNumber, alternatePhone := r.alternatePhone, dateOfBirth := r.dateOfBirth,
       gender := r.gender, department := r.department, designation := r.designation,
       joiningDate := r.joiningDate, employmentType := r.employmentType,
       status := if r.status.Some? then r.status else e.status,
       reportingManager := r.reportingManager, salary := r.salary,
       address := r.address, city := r.city, state := r.state, country := r.country,
       postalCode := r.postalCode, emergencyContactName := r.emergencyContactName,
       emergencyContactPhone := r.emergencyContactPhone, emergencyContactRelation := r.emergencyContactRelation,
       bankName := r.bankName, bankAccountNumber := r.bankAccountNumber, bankIfscCode := r.bankIfscCode,
       skills := r.skills, qualifications := r.qualifications, certifications := r.certifications,
       notes := r.notes, profileImageUrl := r.profileImageUrl,
       updatedBy := updatedBy, updatedAt := now)
  }

  /** The row after `updateEmployeeByHR`: the same writes as `updateEmployee`, except salary. */
  function UpdatedByHR(e: Employee, r: EmployeeRequest, updatedBy: Option<string>, now: Timestamp): (u: Employee)
    ensures u == Updated(e, r, updatedBy, now).(salary := e.salary)
    ensures u.salary == e.salary
  {
    e.(email := r.email, firstName := r.firstName, lastName := r.lastName, middleName := r.middleName,
       phoneNumber := r.phoneNumber, alternatePhone := r.alternatePhone, dateOfBirth := r.dateOfBirth,
       gender := r.gender, department := r.department, designation := r.designation,
       joiningDate := r.joiningDate, employmentType := r.employmentType,
       status := if r.status.Some? then r.status else e.status,
       reportingManager := r.reportingManager,
       address := r.address, city := r.city, state := r.state, country := r.country,
       postalCode := r.postalCode, emergencyContactName := r.emergencyContactName,
       emergencyContactPhone := r.emergencyContactPhone, emergencyContactRelation := r.emergencyContactRelation,
       bankName := r.bankName, bankAccountNumber := r.bankAccountNumber, bankIfscCode := r.bankIfscCode,
       skills := r.skills, qualifications := r.qualifications, certifications := r.certifications,
       notes := r.notes, profileImageUrl := r.profileImageUrl,
       updatedBy := updatedBy, updatedAt := now)
  }

  /** The email check of both updates: a changed email must not belong to any row. */
  predicate EmailClash(rows: Table, current: Employee, requested: Option<string>) {
    current.email != requested && ExistsByEmail(rows, requested)
  }

  // ----- the table invariant under each kind of change -----

  /** A new row whose employee id and email are not in the table keeps the keys unique. */
  lemma InsertKeepsUnique(rows: Table, id: int, e: Employee)
    requires UniqueKeys(rows) && id !in rows
    requires !ExistsByEmployeeId(rows, e.employeeId) && !ExistsByEmail(rows, e.email)
    ensures UniqueKeys(rows[id := e])
  {
    var t := rows[id := e];
    forall a, b | a in t && b in t && a != b
      ensures t[a].employeeId != t[b].employeeId && t[a].email != t[b].email
    {
      if a == id {
        assert b in rows;
      } else if b == id {
        assert a in rows;
      }
    }
  }

  /** Rewriting a row that keeps its employee id, and keeps its email or takes an unused one, keeps the keys unique. */
  lemma ReplaceKeepsUnique(rows: Table, id: int, e: Employee)
    requires UniqueKeys(rows) && id in rows
    requires e.employeeId == rows[id].employeeId
    requires !EmailClash(rows, rows[id], e.email)
    ensures UniqueKeys(rows[id := e])
  {
    var t := rows[id := e];
    forall a, b | a in t && b in t && a != b
      ensures t[a].employeeId != t[b].employeeId && t[a].email != t[b].email
    {
      if a == id {
        assert b in rows && rows[b].email != e.email;
      } else if b == id {
        assert a in rows && rows[a].email != e.email;
      }
    }
  }

  /** A valid request gives rows that satisfy every NOT NULL column, on create and on either update. */
  lemma ValidRequestSaves(r: EmployeeRequest, today: Date, isEmail: string -> bool,
                          e: Employee, id: int, caller: Option<string>, now: Timestamp)
    requires IsValid(r, today, isEmail)
    requires Complete(e)
    ensures Complete(NewEmployee(r, id, caller, now))
    ensures Complete(Updated(e, r, caller, now))
    ensures Complete(UpdatedByHR(e, r, caller, now))
  {
    ValidExactly(r, today, isEmail);
  }

  class EmployeeService {
    var rows: Table
    var nextId: int

    ghost predicate Valid()
      reads this
    {
      nextId >= 1 && WellFormed(rows, nextId) && UniqueKeys(rows)
    }

    constructor()
      ensures Valid() && rows == map[] && nextId == 1
    {
      rows := map[];
      nextId := 1;
    }

    /** `createEmployee`: the employee id is checked before the email. */
    method CreateEmployee(request: EmployeeRequest, createdBy: Option<string>, now: Timestamp)
      returns (r: Result<EmployeeResponse, EmployeeError>)
      requires Valid()
      modifies this
      ensures Valid()
      ensures ExistsByEmployeeId(old(rows), request.employeeId) ==>
        r == Err(EmployeeIdTaken(request.employeeId)) && rows == old(rows) && nextId == old(nextId)
      ensures !ExistsByEmployeeId(old(rows), request.employeeId) && ExistsByEmail(old(rows), request.email) ==>
        r == Err(EmailTaken(request.email)) && rows == old(rows) && nextId == old(nextId)
      ensures var e := NewEmployee(request, old(nextId), createdBy, now);
        !ExistsByEmployeeId(old(rows), request.employeeId) && !ExistsByEmail(old(rows), request.email) ==>
          if Complete(e) then
            r == Ok(FromEntity(e)) && rows == old(rows)[old(nextId) := e] && nextId == old(nextId) + 1
          else
            r == Err(NotNullViolation) && rows == old(rows) && nextId == old(nextId)
    {
      if ExistsByEmployeeId(rows, request.employeeId) {
        return Err(EmployeeIdTaken(request.employeeId));
      }
      if ExistsByEmail(rows, request.email) {
        return Err(EmailTaken(request.email));
      }
      var employee := NewEmployee(request, nextId, createdBy, now);
      if !Complete(employee) {
        return Err(NotNullViolation);
      }
      InsertKeepsUnique(rows, nextId, employee);
      rows := rows[nextId := employee];
      nextId := nextId + 1;
      return Ok(FromEntity(employee));
    }

    /** `updateEmployee` */
    method UpdateEmployee(id: int, request: EmployeeRequest, updatedBy: Option<string>, now: Timestamp)
      returns (r: Result<EmployeeResponse, EmployeeError>)
      requires Valid()
      modifies this
      ensures Valid() && nextId == old(nextId)
      ensures id !in old(rows) ==> r == Err(EmployeeNotFound(ById(id))) && rows == old(rows)
      ensures id in old(rows) && EmailClash(old(rows), old(rows)[id], request.email) ==>
        r == Err(EmailTaken(request.email)) && rows == old(rows)
      ensures id in old(rows) && !EmailClash(old(rows), old(rows)[id], request.email) ==>
        var u := Updated(old(rows)[id], request, updatedBy, now);
        if Complete(u) then r == Ok(FromEntity(u)) && rows == old(rows)[id := u]
        else r == Err(NotNullViolation) && rows == old(rows)
    {
      if id !in rows {
        return Err(EmployeeNotFound(ById(id)));
      }
      var employee := rows[id];
      if EmailClash(rows, employee, request.email) {
        return Err(EmailTaken(request.email));
      }
      employee := employee.(email := request.email);
      employee := employee.(firstName := request.firstName);
      employee := employee.(lastName := request.lastName);
      employee := employee.(middleName := request.middleName);
      employee := employee.(phoneNumber := request.phoneNumber);
      employee := employee.(alternatePhone := request.alternatePhone);
      employee := employee.(dateOfBirth := request.dateOfBirth);
      employee := employee.(gender := request.gender);
      employee := employee.(department := request.department);
      employee := employee.(designation := request.designation);
      employee := employee.(joiningDate := request.joiningDate);
      employee := employee.(employmentType := request.employmentType);
      if request.status.Some? {
        employee := employee.(status := request.status);
      }
      employee := employee.(reportingManager := request.reportingManager);
      employee := employee.(salary := request.salary);
      employee := employee.(address := request.address);
      employee := employee.(city := request.city);
      employee := employee.(state := request.state);
      employee := employee.(country := request.country);
      employee := employee.(postalCode := request.postalCode);
      employee := employee.(emergencyContactName := request.emergencyContactName);
      employee := employee.(emergencyContactPhone := request.emergencyContactPhone);
      employee := employee.(emergencyContactRelation := request.emergencyContactRelation);
      employee := employee.(bankName := request.bankName);
      employee := employee.(bankAccountNumber := request.bankAccountNumber);
      employee := employee.(bankIfscCode := request.bankIfscCode);
      employee := employee.(skills := request.skills);
      employee := employee.(qualifications := request.qualifications);
      employee := employee.(certifications := request.certifications);
      employee := employee.(notes := request.notes);
      employee := employee.(profileImageUrl := request.profileImageUrl);
      employee := employee.(updatedBy := updatedBy);
      employee := employee.(updatedAt := now);
      assert employee == Updated(rows[id], request, updatedBy, now);
      if !Complete(employee) {
        return Err(NotNullViolation);
      }
      ReplaceKeepsUnique(rows, id, employee);
      rows := rows[id := employee];
      return Ok(FromEntity(employee));
    }

    /** `updateEmployeeByHR`: as `updateEmployee`, but salary is never written. */
    method UpdateEmployeeByHR(id: int, request: EmployeeRequest, updatedBy: Option<string>, now: Timestamp)
      returns (r: Result<EmployeeResponse, EmployeeError>)
      requires Valid()
      modifies this
      ensures Valid() && nextId == old(nextId)
      ensures id !in old(rows) ==> r == Err(EmployeeNotFound(ById(id))) && rows == old(rows)
      ensures id in old(rows) && EmailClash(old(rows), old(rows)[id], request.email) ==>
        r == Err(EmailTaken(request.email)) && rows == old(rows)
      ensures id in old(rows) && !EmailClash(old(rows), old(rows)[id], request.email) ==>
        var u := UpdatedByHR(old(rows)[id], request, updatedBy, now);
        if Complete(u) then r == Ok(FromEntity(u)) && rows == old(rows)[id := u]
        else r == Err(NotNullViolation) && rows == old(rows)
    {
      if id !in rows {
        return Err(EmployeeNotFound(ById(id)));
      }
      var employee := rows[id];
      if EmailClash(rows, employee, request.email) {
        return Err(EmailTaken(request.email));
      }
      employee := employee.(email := request.email);
      employee := employee.(firstName := request.firstName);
      employee := employee.(lastName := request.lastName);
      employee := employee.(middleName := request.middleName);
      employee := employee.(phoneNumber := request.phoneNumber);
      employee := employee.(alternatePhone := request.alternatePhone);
      employee := employee.(dateOfBirth := request.dateOfBirth);
      employee := employee.(gender := request.gender);
      employee := employee.(department := request.department);
      employee := employee.(designation := request.designation);
      employee := employee.(joiningDate := request.joiningDate);
      employee := employee.(employmentType := request.employmentType);
      if request.status.Some? {
        employee := employee.(status := request.status);
      }
      employee := employee.(reportingManager := request.reportingManager);
      employee := employee.(address := request.address);
      employee := employee.(city := request.city);
      employee := employee.(state := request.state);
      employee := employee.(country := request.country);
      employee := employee.(postalCode := request.postalCode);
      employee := employee.(emergencyContactName := request.emergencyContactName);
      employee := employee.(emergencyContactPhone := request.emergencyContactPhone);
      employee := employee.(emergencyContactRelation := request.emergencyContactRelation);
      employee := employee.(bankName := request.bankName);
      employee := employee.(bankAccountNumber := request.bankAccountNumber);
      employee := employee.(bankIfscCode := request.bankIfscCode);
      employee := employee.(skills := request.skills);
      employee := employee.(qualifications := request.qualifications);
      employee := employee.(certifications := request.certifications);
      employee := employee.(notes := request.notes);
      employee := employee.(profileImageUrl := request.profileImageUrl);
      employee := employee.(updatedBy := updatedBy);
      employee := employee.(updatedAt := now);
      assert employee == UpdatedByHR(rows[id], request, updatedBy, now);
      if !Complete(employee) {
        return Err(NotNullViolation);
      }
      ReplaceKeepsUnique(rows, id, employee);
      rows := rows[id := employee];
      return Ok(FromEntity(employee));
    }

    /** `updateEmployeeSalary`: only salary and the updater change. */
    method UpdateEmployeeSalary(id: int, newSalary: real, updatedBy: Option<string>, now: Timestamp)
      returns (r: Result<EmployeeResponse, EmployeeError>)
      requires Valid()
      modifies this
      ensures Valid() && nextId == old(nextId)
      ensures id !in old(rows) ==> r == Err(EmployeeNotFound(ById(id))) && rows == old(rows)
      ensures id in old(rows) ==>
        var u := old(rows)[id].(salary := Some(newSalary), updatedBy := updatedBy, updatedAt := now);
        r == Ok(FromEntity(u)) && rows == old(rows)[id := u]
    {
      if id !in rows {
        return Err(EmployeeNotFound(ById(id)));
      }
      var employee := rows[id];
      employee := employee.(salary := Some(newSalary));
      employee := employee.(updatedBy := updatedBy);
      employee := employee.(updatedAt := now);
      ReplaceKeepsUnique(rows, id, employee);
      rows := rows[id := employee];
      return Ok(FromEntity(employee));
    }

    /** `updateEmployeeStatus`: only status and the updater change; status is a nullable column. */
    method UpdateEmployeeStatus(id: int, status: Option<EmployeeStatus>, updatedBy: Option<string>, now: Timestamp)
      returns (r: Result<EmployeeResponse, EmployeeError>)
      requires Valid()
      modifies this
      ensures Valid() && nextId == old(nextId)
      ensures id !in old(rows) ==> r == Err(EmployeeNotFound(ById(id))) && rows == old(rows)
      ensures id in old(rows) ==>
        var u := old(rows)[id].(status := status, updatedBy := updatedBy, updatedAt := now);
        r == Ok(FromEntity(u)) && rows == old(rows)[id := u]
    {
      if id !in rows {
        return Err(EmployeeNotFound(ById(id)));
      }
      var employee := rows[id];
      employee := employee.(status := status);
      employee := employee.(updatedBy := updatedBy);
      employee := employee.(updatedAt := now);
      ReplaceKeepsUnique(rows, id, employee);
      rows := rows[id := employee];
      return Ok(FromEntity(employee));
    }

    /** `deleteEmployee`: removes exactly that row. */
    method DeleteEmployee(id: int, deletedBy: Option<string>) returns (r: Option<EmployeeError>)
      requires Valid()
      modifies this
      ensures Valid() && nextId == old(nextId)
      ensures id !in old(rows) ==> r == Some(EmployeeNotFound(ById(id))) && rows == old(rows)
      ensures id in old(rows) ==> r.None? && rows == old(rows) - {id}
    {
      if id !in rows {
        return Some(EmployeeNotFound(ById(id)));
      }
      rows := rows - {id};
      return None;
    }

    /** `getEmployeeById` */
    function GetEmployeeById(id: int): (r: Result<EmployeeResponse, EmployeeError>)
      reads this
      ensures r.Ok? <==> id in rows
      ensures r.Ok? ==> r.value == FromEntity(rows[id])
      ensures r.Err? ==> r.error == EmployeeNotFound(ById(id))
    {
      if id in rows then Ok(FromEntity(rows[id])) else Err(EmployeeNotFound(ById(id)))
    }

    /** `getEmployeeByEmployeeId` */
    function GetEmployeeByEmployeeId(employeeId: Option<string>): (r: Result<EmployeeResponse, EmployeeError>)
      reads this
      ensures r.Ok? ==> exists id :: id in rows && rows[id].employeeId == employeeId && r.value == FromEntity(rows[id])
      ensures r == Err(EmployeeNotFound(ByEmployeeId(employeeId))) <==>
        forall id :: id in rows ==> rows[id].employeeId != employeeId
    {
      match FindByEmployeeId(rows, employeeId)
      case NoMatch => Err(EmployeeNotFound(ByEmployeeId(employeeId)))
      case Single(id) => assert id in WithEmployeeId(rows, employeeId); Ok(FromEntity(rows[id]))
      case Several => Err(NonUniqueResult)
    }

    /** `getEmployeeByUserId` (user ids are not unique, so several rows are an error) */
    function GetEmployeeByUserId(userId: Option<string>): (r: Result<EmployeeResponse, EmployeeError>)
      reads this
      ensures r.Ok? ==> exists id :: id in rows && rows[id].userId == userId && r.value == FromEntity(rows[id])
      ensures r == Err(EmployeeNotFound(ByUserId(userId))) <==> forall id :: id in rows ==> rows[id].userId != userId
    {
      match FindByUserId(rows, userId)
      case NoMatch => Err(EmployeeNotFound(ByUserId(userId)))
      case Single(id) => assert id in WithUserId(rows, userId); Ok(FromEntity(rows[id]))
      case Several => Err(NonUniqueResult)
    }

    /** `getAllEmployees`, keyed by id. */
    function GetAllEmployees(): (r: map<int, EmployeeResponse>)
      reads this
      ensures r.Keys == rows.Keys
      ensures forall id :: id in r ==> r[id] == FromEntity(rows[id])
    {
      map id | id in rows :: FromEntity(rows[id])
    }

    /** `getEmployeesByDepartment`, keyed by id. */
    function GetEmployeesByDepartment(department: Option<string>): (r: map<int, EmployeeResponse>)
      reads this
      ensures forall id :: id in r <==> id in rows && rows[id].department == department
      ensures forall id :: id in r ==> r[id] == FromEntity(rows[id])
    {
      map id | id in WithDepartment(rows, department) :: FromEntity(rows[id])
    }

    /** `searchEmployees`, keyed by id. */
    function SearchEmployees(keyword: string): (r: map<int, EmployeeResponse>)
      reads this
      ensures forall id :: id in r <==> id in rows && MatchesKeyword(rows[id], keyword)
      ensures forall id :: id in r ==> r[id] == FromEntity(rows[id])
    {
      map id | id in Search(rows, keyword) :: FromEntity(rows[id])
    }

    /** With the invariant, looking up by employee id finds the row exactly when one has it. */
    lemma EmployeeIdLookup(employeeId: Option<string>)
      requires Valid()
      ensures GetEmployeeByEmployeeId(employeeId).Ok? <==> ExistsByEmployeeId(rows, employeeId)
      ensures GetEmployeeByEmployeeId(employeeId).Ok? ==>
        exists id :: id in rows && rows[id].employeeId == employeeId &&
          GetEmployeeByEmployeeId(employeeId).value == FromEntity(rows[id])
    {
      ExistsIffFound(rows, employeeId, None);
      UniqueEmployeeIdFindsOne(rows, employeeId);
      var found := FindByEmployeeId(rows, employeeId);
      if found.Single? {
        assert found.id in WithEmployeeId(rows, employeeId);
      }
    }
  }
}
