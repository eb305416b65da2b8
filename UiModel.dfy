/**
 * What the employee list screen renders (ui/model/EmployeeUiState.kt):
 * the screen state, one item per displayed employee, and error messages.
 */
module UiModel {
  import opened Wrappers
  import opened DataModel

  /** The four screen states, in declaration order. */
  datatype ScreenState = Loading | Error | Empty | Data

  datatype EmployeeItemUiState = EmployeeItemUiState(
    uuid: Option<string>,
    name: Option<string>,
    phoneNumber: Option<string>,
    email: Option<string>,
    bio: Option<string>,
    photoSmall: Option<string>,
    photoLarge: Option<string>,
    team: Option<string>,
    employeeType: Option<EmployeeType>)

  /** The Kotlin data class with its default arguments. */
  datatype EmployeeUiState = EmployeeUiState(
    screenState: ScreenState := ScreenState.Empty,
    employeeItems: seq<EmployeeItemUiState> := [],
    errorMessages: seq<string> := [])

  /** The record an item was made from: the partner of ToEmployeeItemUiState. */
  function ItemSource(item: EmployeeItemUiState): Employee {
    Employee(item.uuid, item.name, item.phoneNumber, item.email, item.bio,
             item.photoSmall, item.photoLarge, item.team, item.employeeType)
  }

  /** `Employee.toEmployeeItemUiState()`: a field-by-field copy. */
  function ToEmployeeItemUiState(e: Employee): (item: EmployeeItemUiState)
    ensures ItemSource(item) == e
    ensures item.uuid == e.uuid && item.name == e.name && item.email == e.email
         && item.team == e.team && item.employeeType == e.employeeType
         && item.phoneNumber == e.phoneNumber && item.bio == e.bio
         && item.photoSmall == e.photoSmall && item.photoLarge == e.photoLarge
  {
    EmployeeItemUiState(
      uuid := e.uuid,
      name := e.name,
      phoneNumber := e.phoneNumber,
      email := e.email,
      bio := e.bio,
      photoSmall := e.photoSmall,
      photoLarge := e.photoLarge,
      team := e.team,
      employeeType := e.employeeType)
  }

  /** Two records map to the same item exactly when they are the same record. */
  lemma ToEmployeeItemUiStateInjective(a: Employee, b: Employee)
    ensures ToEmployeeItemUiState(a) == ToEmployeeItemUiState(b) <==> a == b
  {
    if ToEmployeeItemUiState(a) == ToEmployeeItemUiState(b) {
      assert a == ItemSource(ToEmployeeItemUiState(a)) == ItemSource(ToEmployeeItemUiState(b)) == b;
    }
  }

  /** `employees.map { it.toEmployeeItemUiState() }`. */
  function ToEmployeeItems(employees: seq<Employee>): (items: seq<EmployeeItemUiState>)
    ensures |items| == |employees|
    ensures forall i :: 0 <= i < |items| ==> ItemSource(items[i]) == employees[i]
  {
    seq(|employees|, i requires 0 <= i < |employees| => ToEmployeeItemUiState(employees[i]))
  }

  /** The state a freshly created screen shows: EMPTY, nothing listed, no errors. */
  lemma DefaultUiStateIsEmpty()
    ensures EmployeeUiState().screenState == Empty
    ensures EmployeeUiState().employeeItems == [] && EmployeeUiState().errorMessages == []
  {
  }

  /** ScreenState has exactly the four values LOADING, ERROR, EMPTY and DATA. */
  lemma ScreenStateHasFourValues(s: ScreenState)
    ensures s == Loading || s == ScreenState.Error || s == Empty || s == Data
    ensures |{Loading, ScreenState.Error, Empty, Data}| == 4
  {
  }
}
