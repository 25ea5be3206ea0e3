/**
 * The `employees` table row.  Every column is nullable in the object; the
 * columns declared `nullable = false` are enforced when a row is saved
 * (`Complete`).  Dates are day numbers, timestamps are instants, the
 * BigDecimal salary is a real.
 */
module EmployeeEntity {
  import opened Wrappers

  type Date = int
  type Timestamp = int

  datatype Gender = Male | Female | Other

  datatype EmploymentType = FullTime | PartTime | Contract | Intern | Consultant

  datatype EmployeeStatus = Active | Inactive | OnLeave | Terminated | Resigned

  datatype Employee = Employee(
    id: int,
    employeeId: Option<string>,
    userId: Option<string>,
    email: Option<string>,
    firstName: Option<string>,
    lastName: Option<string>,
    middleName: Option<string>,
    phoneNumber: Option<string>,
    alternatePhone: Option<string>,
    dateOfBirth: Option<Date>,
    gender: Option<Gender>,
    department: Option<string>,
    designation: Option<string>,
    joiningDate: Option<Date>,
    employmentType: Option<EmploymentType>,
    status: Option<EmployeeStatus>,
    reportingManager: Option<string>,
    salary: Option<real>,
    address: Option<string>,
    city: Option<string>,
    state: Option<string>,
    country: Option<string>,
    postalCode: Option<string>,
    emergencyContactName: Option<string>,
    emergencyContactPhone: Option<string>,
    emergencyContactRelation: Option<string>,
    bankName: Option<string>,
    bankAccountNumber: Option<string>,
    bankIfscCode: Option<string>,
    skills: Option<string>,
    qualifications: Option<string>,
    certifications: Option<string>,
    notes: Option<string>,
    profileImageUrl: Option<string>,
    createdAt: Timestamp,
    updatedAt: Timestamp,
    createdBy: Option<string>,
    updatedBy: Option<string>)

  /** The NOT NULL columns (the two timestamps are always filled in by the persistence layer). */
  predicate Complete(e: Employee) {
    && e.employeeId.Some?
    && e.userId.Some?
    && e.email.Some?
    && e.firstName.Some?
    && e.lastName.Some?
    && e.phoneNumber.Some?
    && e.dateOfBirth.Some?
    && e.gender.Some?
    && e.department.Some?
    && e.designation.Some?
    && e.joiningDate.Some?
  }
}
