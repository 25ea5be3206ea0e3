/**
 * The employee create/update request and its bean-validation constraints:
 * the set of violations a request has, and validity as having none.  The
 * `@Email` check is a parameter; "today", for `@Past`, is a parameter.
 */
module EmployeeRequests {
  import opened Wrappers
  import opened JavaText
  import opened EmployeeEntity

  datatype EmployeeRequest = EmployeeRequest(
    employeeId: Option<string>,
    userId: Option<string>,
    email: Option<string>,
    firstName: Option<string>,
    lastName: Option<string>,
    middleName: Option<string>,
    phoneNumber: Option<string>,
    alternatePhone: Option<string>,
    dateOfBirth: Option<Date>,
    gender: Option<Gender>,
    department: Option<string>,
    designation: Option<string>,
    joiningDate: Option<Date>,
    employmentType: Option<EmploymentType>,
    status: Option<EmployeeStatus>,
    reportingManager: Option<string>,
    salary: Option<real>,
    address: Option<string>,
    city: Option<string>,
    state: Option<string>,
    country: Option<string>,
    postalCode: Option<string>,
    emergencyContactName: Option<string>,
    emergencyContactPhone: Option<string>,
    emergencyContactRelation: Option<string>,
    bankName: Option<string>,
    bankAccountNumber: Option<string>,
    bankIfscCode: Option<string>,
    skills: Option<string>,
    qualifications: Option<string>,
    certifications: Option<string>,
    notes: Option<string>,
    profileImageUrl: Option<string>)

  /** The fields with a required-value constraint. */
  datatype Field =
    | EmployeeIdField | UserIdField | EmailField | FirstNameField | LastNameField | PhoneNumberField
    | DateOfBirthField | GenderField | DepartmentField | DesignationField | JoiningDateField | EmploymentTypeField

  datatype Violation = Required(field: Field) | InvalidEmail | InvalidPhone | NotInPast | NotPositive
  {
    function Message(): string {
      match this
      case Required(EmployeeIdField) => "Employee ID is required"
      case Required(UserIdField) => "User ID is required"
      case Required(EmailField) => "Email is required"
      case Required(FirstNameField) => "First name is required"
      case Required(LastNameField) => "Last name is required"
      case Required(PhoneNumberField) => "Phone number is required"
      case Required(DateOfBirthField) => "Date of birth is required"
      case Required(GenderField) => "Gender is required"
      case Required(DepartmentField) => "Department is required"
      case Required(DesignationField) => "Designation is required"
      case Required(JoiningDateField) => "Joining date is required"
      case Required(EmploymentTypeField) => "Employment type is required"
      case InvalidEmail => "Invalid email format"
      case InvalidPhone => "Invalid phone number"
      case NotInPast => "Date of birth must be in the past"
      case NotPositive => "Salary must be positive"
    }
  }

  /** `@NotBlank`: present, and not only characters that `trim` removes. */
  predicate NotBlank(s: Option<string>) {
    s.Some? && !IsBlank(s.value)
  }

  predicate IsDigit(c: char) {
    '0' <= c <= '9'
  }

  predicate AllDigits(s: string) {
    forall i :: 0 <= i < |s| ==> IsDigit(s[i])
  }

  /** The pattern `^[+]?[0-9]{10,15}$`, matched against the whole string. */
  predicate MatchesPhonePattern(s: string) {
    var digits := if |s| > 0 && s[0] == '+' then s[1..] else s;
    10 <= |digits| <= 15 && AllDigits(digits)
  }

  function RequiredText(field: Field, value: Option<string>): set<Violation> {
    if NotBlank(value) then {} else {Required(field)}
  }

  function RequiredValue<T>(field: Field, value: Option<T>): set<Violation> {
    if value.Some? then {} else {Required(field)}
  }

  /** Every constraint the request breaks; a null value passes every check except the required ones. */
  function Violations(r: EmployeeRequest, today: Date, isEmail: string -> bool): set<Violation> {
    RequiredText(EmployeeIdField, r.employeeId)
    + RequiredText(UserIdField, r.userId)
    + RequiredText(EmailField, r.email)
    + (if r.email.Some? && !isEmail(r.email.value) then {InvalidEmail} else {})
    + RequiredText(FirstNameField, r.firstName)
    + RequiredText(LastNameField, r.lastName)
    + RequiredText(PhoneNumberField, r.phoneNumber)
    + (if r.phoneNumber.Some? && !MatchesPhonePattern(r.phoneNumber.value) then {InvalidPhone} else {})
    + RequiredValue(DateOfBirthField, r.dateOfBirth)
    + (if r.dateOfBirth.Some? && !(r.dateOfBirth.value < today) then {NotInPast} else {})
    + RequiredValue(GenderField, r.gender)
    + RequiredText(DepartmentField, r.department)
    + RequiredText(DesignationField, r.designation)
    + RequiredValue(JoiningDateField, r.joiningDate)
    + RequiredValue(EmploymentTypeField, r.employmentType)
    + (if r.salary.Some? && !(r.salary.value > 0.0) then {NotPositive} else {})
  }

  predicate IsValid(r: EmployeeRequest, today: Date, isEmail: string -> bool) {
    Violations(r, today, isEmail) == {}
  }

  /** A request is valid exactly when every constraint holds. */
  lemma ValidExactly(r: EmployeeRequest, today: Date, isEmail: string -> bool)
    ensures IsValid(r, today, isEmail) <==>
      && NotBlank(r.employeeId) && NotBlank(r.userId)
      && NotBlank(r.email) && isEmail(r.email.value)
      && NotBlank(r.firstName) && NotBlank(r.lastName)
      && NotBlank(r.phoneNumber) && MatchesPhonePattern(r.phoneNumber.value)
      && r.dateOfBirth.Some? && r.dateOfBirth.value < today
      && r.gender.Some?
      && NotBlank(r.department) && NotBlank(r.designation)
      && r.joiningDate.Some? && r.employmentType.Some?
      && (r.salary.None? || r.salary.value > 0.0)
  {
    var v := Violations(r, today, isEmail);
    if !NotBlank(r.employeeId) { assert Required(EmployeeIdField) in v; }
    if !NotBlank(r.userId) { assert Required(UserIdField) in v; }
    if !NotBlank(r.email) { assert Required(EmailField) in v; }
    if r.email.Some? && !isEmail(r.email.value) { assert InvalidEmail in v; }
    if !NotBlank(r.firstName) { assert Required(FirstNameField) in v; }
    if !NotBlank(r.lastName) { assert Required(LastNameField) in v; }
    if !NotBlank(r.phoneNumber) { assert Required(PhoneNumberField) in v; }
    if r.phoneNumber.Some? && !MatchesPhonePattern(r.phoneNumber.value) { assert InvalidPhone in v; }
    if r.dateOfBirth.None? { assert Required(DateOfBirthField) in v; }
    if r.dateOfBirth.Some? && !(r.dateOfBirth.value < today) { assert NotInPast in v; }
    if r.gender.None? { assert Required(GenderField) in v; }
    if !NotBlank(r.department) { assert Required(DepartmentField) in v; }
    if !NotBlank(r.designation) { assert Required(DesignationField) in v; }
    if r.joiningDate.None? { assert Required(JoiningDateField) in v; }
    if r.employmentType.None? { assert Required(EmploymentTypeField) in v; }
    if r.salary.Some? && !(r.salary.value > 0.0) { assert NotPositive in v; }
  }

  /**
   * Status, middle name, alternate phone, reporting manager and the address,
   * contact, bank, skill and note fields are unconstrained: two requests that
   * agree on the constrained fields have the same violations.
   */
  lemma UnconstrainedFields(r1: EmployeeRequest, r2: EmployeeRequest, today: Date, isEmail: string -> bool)
    requires r1.employeeId == r2.employeeId && r1.userId == r2.userId && r1.email == r2.email
    requires r1.firstName == r2.firstName && r1.lastName == r2.lastName && r1.phoneNumber == r2.phoneNumber
    requires r1.dateOfBirth == r2.dateOfBirth && r1.gender == r2.gender && r1.department == r2.department
    requires r1.designation == r2.designation && r1.joiningDate == r2.joiningDate
    requires r1.employmentType == r2.employmentType && r1.salary == r2.salary
    ensures Violations(r1, today, isEmail) == Violations(r2, today, isEmail)
  {}

  /**
   * The phone pattern, character by character: 10 to 16 characters, every
   * one a digit except that the first may be '+', and 10 to 15 digits.
   */
  lemma PhonePatternShape(s: string)
    ensures MatchesPhonePattern(s) <==>
      && 10 <= |s| <= 16
      && (IsDigit(s[0]) || s[0] == '+')
      && (forall i :: 1 <= i < |s| ==> IsDigit(s[i]))
      && (IsDigit(s[0]) ==> |s| <= 15)
      && (s[0] == '+' ==> |s| >= 11)
  {
    if |s| > 0 && s[0] == '+' {
      var d := s[1..];
      assert forall i :: 1 <= i < |s| ==> s[i] == d[i - 1];
    }
  }

  /** The phone pattern on a few inputs. */
  lemma PhonePatternExamples()
    ensures MatchesPhonePattern("+919876543210")
    ensures MatchesPhonePattern("9876543210")
    ensures !MatchesPhonePattern("987654321")
    ensures !MatchesPhonePattern("++919876543210")
    ensures !MatchesPhonePattern("98765-43210")
    ensures !MatchesPhonePattern("+")
  {
    assert "+919876543210"[1..] == "919876543210";
    assert "++919876543210"[1..] == "+919876543210";
    assert !IsDigit("++919876543210"[1..][0]);
    assert !IsDigit("98765-43210"[5]);
  }
}
