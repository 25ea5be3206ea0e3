/**
 * The employee view returned by the service: the full projection of a row,
 * and the limited one that hides pay, bank and audit details.
 */
module EmployeeResponses {
  import opened Wrappers
  import opened EmployeeEntity

  datatype EmployeeResponse = EmployeeResponse(
    id: Option<int>,
    employeeId: Option<string>,
    userId: Option<string>,
    email: Option<string>,
    firstName: Option<string>,
    lastName: Option<string>,
    middleName: Option<string>,
    fullName: Option<string>,
    phoneNumber: Option<string>,
    alternatePhone: Option<string>,
    dateOfBirth: Option<Date>,
    gender: Option<Gender>,
    department: Option<string>,
    designation: Option<string>,
    joiningDate: Option<Date>,
    employmentType: Option<EmploymentType>,
    status: Option<EmployeeStatus>,
    reportingManager: Option<string>,
    salary: Option<real>,
    address: Option<string>,
    city: Option<string>,
    state: Option<string>,
    country: Option<string>,
    postalCode: Option<string>,
    emergencyContactName: Option<string>,
    emergencyContactPhone: Option<string>,
    emergencyContactRelation: Option<string>,
    bankName: Option<string>,
    bankAccountNumber: Option<string>,
    bankIfscCode: Option<string>,
    skills: Option<string>,
    qualifications: Option<string>,
    certifications: Option<string>,
    notes: Option<string>,
    profileImageUrl: Option<string>,
    createdAt: Option<Timestamp>,
    updatedAt: Option<Timestamp>,
    createdBy: Option<string>,
    updatedBy: Option<string>)

  /** Java string concatenation renders a null reference as "null". */
  function Concatenable(s: Option<string>): string {
    if s.Some? then s.value else "null"
  }

  /** First name, the middle name with a space before it when there is one, a space, last name. */
  function FullName(e: Employee): (name: string)
    ensures e.middleName.None? ==> name == Concatenable(e.firstName) + " " + Concatenable(e.lastName)
    ensures e.middleName.Some? ==>
      name == Concatenable(e.firstName) + " " + e.middleName.value + " " + Concatenable(e.lastName)
  {
    Concatenable(e.firstName) + (if e.middleName.Some? then " " + e.middleName.value else "") + " " + Concatenable(e.lastName)
  }

  /** `fromEntity`: every column, plus the full name. */
  function FromEntity(e: Employee): EmployeeResponse {
    EmployeeResponse(
      id := Some(e.id), employeeId := e.employeeId, userId := e.userId, email := e.email,
      firstName := e.firstName, lastName := e.lastName, middleName := e.middleName,
      fullName := Some(FullName(e)),
      phoneNumber := e.phoneNumber, alternatePhone := e.alternatePhone,
      dateOfBirth := e.dateOfBirth, gender := e.gender, department := e.department,
      designation := e.designation, joiningDate := e.joiningDate, employmentType := e.employmentType,
      status := e.status, reportingManager := e.reportingManager, salary := e.salary,
      address := e.address, city := e.city, state := e.state, country := e.country,
      postalCode := e.postalCode, emergencyContactName := e.emergencyContactName,
      emergencyContactPhone := e.emergencyContactPhone, emergencyContactRelation := e.emergencyContactRelation,
      bankName := e.bankName, bankAccountNumber := e.bankAccountNumber, bankIfscCode := e.bankIfscCode,
      skills := e.skills, qualifications := e.qualifications, certifications := e.certifications,
      notes := e.notes, profileImageUrl := e.profileImageUrl,
      createdAt := Some(e.createdAt), updatedAt := Some(e.updatedAt),
      createdBy := e.createdBy, updatedBy := e.updatedBy)
  }

  /** `fromEntityLimited`: the builder sets only these fields; the rest stay null. */
  function FromEntityLimited(e: Employee): EmployeeResponse {
    EmployeeResponse(
      id := Some(e.id), employeeId := e.employeeId, userId := None, email := e.email,
      firstName := e.firstName, lastName := e.lastName, middleName := e.middleName,
      fullName := Some(FullName(e)),
      phoneNumber := e.phoneNumber, alternatePhone := None,
      dateOfBirth := e.dateOfBirth, gender := e.gender, department := e.department,
      designation := e.designation, joiningDate := e.joiningDate, employmentType := e.employmentType,
      status := e.status, reportingManager := e.reportingManager, salary := None,
      address := e.address, city := e.city, state := e.state, country := e.country,
      postalCode := None, emergencyContactName := e.emergencyContactName,
      emergencyContactPhone := e.emergencyContactPhone, emergencyContactRelation := e.emergencyContactRelation,
      bankName := None, bankAccountNumber := None, bankIfscCode := None,
      skills := e.skills, qualifications := e.qualifications, certifications := e.certifications,
      notes := None, profileImageUrl := e.profileImageUrl,
      createdAt := None, updatedAt := None,
      createdBy := None, updatedBy := None)
  }

  /** The full view holds every column of the row under the same name. */
  lemma FromEntityCopies(e: Employee)
    ensures var r := FromEntity(e);
      && r.id == Some(e.id) && r.employeeId == e.employeeId && r.userId == e.userId
      && r.email == e.email && r.firstName == e.firstName && r.lastName == e.lastName
      && r.middleName == e.middleName && r.phoneNumber == e.phoneNumber
      && r.alternatePhone == e.alternatePhone && r.dateOfBirth == e.dateOfBirth
      && r.gender == e.gender && r.department == e.department && r.designation == e.designation
      && r.joiningDate == e.joiningDate && r.employmentType == e.employmentType
      && r.status == e.status && r.reportingManager == e.reportingManager && r.salary == e.salary
      && r.address == e.address && r.city == e.city && r.state == e.state && r.country == e.country
      && r.postalCode == e.postalCode && r.emergencyContactName == e.emergencyContactName
      && r.emergencyContactPhone == e.emergencyContactPhone
      && r.emergencyContactRelation == e.emergencyContactRelation
      && r.bankName == e.bankName && r.bankAccountNumber == e.bankAccountNumber
      && r.bankIfscCode == e.bankIfscCode && r.skills == e.skills
      && r.qualifications == e.qualifications && r.certifications == e.certifications
      && r.notes == e.notes && r.profileImageUrl == e.profileImageUrl
      && r.createdAt == Some(e.createdAt) && r.updatedAt == Some(e.updatedAt)
      && r.createdBy == e.createdBy && r.updatedBy == e.updatedBy
      && r.fullName == Some(FullName(e))
  {}

  /** Two rows with the same view are the same row: the full view loses nothing. */
  lemma FromEntityInjective(e1: Employee, e2: Employee)
    requires FromEntity(e1) == FromEntity(e2)
    ensures e1 == e2
  {
    FromEntityCopies(e1);
    FromEntityCopies(e2);
  }

  /**
   * The limited view is the full view with salary, bank details, user id,
   * alternate phone, postal code, notes and the four audit fields cleared.
   */
  lemma LimitedIsFullWithoutSensitive(e: Employee)
    ensures FromEntityLimited(e) == FromEntity(e).(
      salary := None, bankName := None, bankAccountNumber := None, bankIfscCode := None,
      userId := None, alternatePhone := None, postalCode := None, notes := None,
      createdAt := None, updatedAt := None, createdBy := None, updatedBy := None)
  {}

  /** Whatever the row holds, the limited view shows no salary or bank details. */
  lemma LimitedHidesPay(e: Employee)
    ensures var r := FromEntityLimited(e);
      r.salary.None? && r.bankName.None? && r.bankAccountNumber.None? && r.bankIfscCode.None?
  {}

  /** An empty middle name still gives two spaces between first and last name. */
  lemma EmptyMiddleName(e: Employee)
    requires e.firstName.Some? && e.lastName.Some? && e.middleName == Some("")
    ensures FullName(e) == e.firstName.value + "  " + e.lastName.value
  {
    assert " " + "" + " " == "  ";
  }
}
