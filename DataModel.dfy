/**
 * The directory records as the JSON layer delivers them
 * (data/model/Employee.kt and data/model/Response.kt).
 * Every field of Employee is nullable in the source, so every field is an Option.
 */
module DataModel {
  import opened Wrappers

  datatype EmployeeType = FullTime | PartTime | Contractor

  datatype Employee = Employee(
    uuid: Option<string>,
    name: Option<string>,
    phoneNumber: Option<string>,
    email: Option<string>,
    bio: Option<string>,
    photoSmall: Option<string>,
    photoLarge: Option<string>,
    team: Option<string>,
    employeeType: Option<EmployeeType>)

  /**
   * EmployeeDTO declares `employees` non-null, but the JSON deserialiser
   * leaves it null when the key is missing; the screen-state logic tests
   * for that (`isNullOrEmpty`), so the model keeps the null.
   */
  datatype EmployeeDto = EmployeeDto(employees: Option<seq<Employee>>)

  /** A thrown exception, observed only through its (nullable) message. */
  datatype Exception = Exception(message: Option<string>)

  /** The repository's sealed result type. */
  datatype Response<+T> = Success(data: T) | Error(exception: Exception)
}
