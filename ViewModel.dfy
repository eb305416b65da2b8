/**
 * The employee list view model (ui/viewmodel/EmployeeViewModel.kt): the
 * validity filter, the two first-occurrence dedups and the transition from a
 * repository response to the screen state.
 */
module ViewModel {
  import opened Wrappers
  import opened DataModel
  import opened UiModel
  import opened Collections

  /**
   * Kotlin's `Char.isWhitespace()` on the JVM: Java's `Character.isWhitespace`
   * or `Character.isSpaceChar`, i.e. the ASCII controls TAB..CR and FS..US plus
   * every space, line and paragraph separator of Unicode.
   */
  predicate IsWhitespace(c: char) {
    var cp := c as int;
    (0x09 <= cp <= 0x0D) || (0x1C <= cp <= 0x20) || cp == 0xA0 || cp == 0x1680
    || (0x2000 <= cp <= 0x200A) || cp == 0x2028 || cp == 0x2029 || cp == 0x202F
    || cp == 0x205F || cp == 0x3000
  }

  /** `isNullOrBlank()`: null, empty, or whitespace only. */
  predicate IsNullOrBlank(s: Option<string>) {
    match s
    case None => true
    case Some(str) => forall i :: 0 <= i < |str| ==> IsWhitespace(str[i])
  }

  /** The five removal conditions; `any` of them removes the record. */
  predicate MatchesAnyFilter(e: Employee) {
    IsNullOrBlank(e.uuid) || IsNullOrBlank(e.name) || IsNullOrBlank(e.email)
    || IsNullOrBlank(e.team) || e.employeeType == None
  }

  /** A present text with at least one non-whitespace character. */
  predicate IsPresentAndNotBlank(s: Option<string>) {
    s.Some? && exists i :: 0 <= i < |s.value| && !IsWhitespace(s.value[i])
  }

  /** A record that survives the filter: the four text keys present and not blank, a type present. */
  predicate IsDisplayable(e: Employee) {
    && IsPresentAndNotBlank(e.uuid)
    && IsPresentAndNotBlank(e.name)
    && IsPresentAndNotBlank(e.email)
    && IsPresentAndNotBlank(e.team)
    && e.employeeType.Some?
  }

  /** `removeEmployeesThatMatchFilters`: `filterNot { conditions.any { it(candidate) } }`. */
  function RemoveEmployeesThatMatchFilters(list: seq<Employee>): (kept: seq<Employee>)
    ensures IsSubsequence(kept, list)
    ensures forall e :: e in kept ==> IsDisplayable(e)
    ensures forall e :: IsDisplayable(e) ==> multiset(kept)[e] == multiset(list)[e]
    ensures forall e :: !IsDisplayable(e) ==> multiset(kept)[e] == 0
  {
    FilterNot(list, MatchesAnyFilter)
  }

  /** The filter looks at uuid, name, email, team and type only. */
  lemma FilterIgnoresOtherFields(a: Employee, b: Employee)
    requires a.uuid == b.uuid && a.name == b.name && a.email == b.email
    requires a.team == b.team && a.employeeType == b.employeeType
    ensures MatchesAnyFilter(a) == MatchesAnyFilter(b)
  {
  }

  function UuidOf(e: Employee): Option<string> { e.uuid }
  function EmailOf(e: Employee): Option<string> { e.email }

  /** `getDistinctEmployeeUuid`: `distinctBy { it.uuid }` (null is a key like any other). */
  function GetDistinctEmployeeUuid(list: seq<Employee>): (r: seq<Employee>)
    ensures IsSubsequence(r, list) && |r| <= |list|
    ensures forall i, j :: 0 <= i < j < |r| ==> r[i].uuid != r[j].uuid
    ensures forall u :: u in KeysOf(r, UuidOf) <==> u in KeysOf(list, UuidOf)
  {
    DistinctBy(list, UuidOf)
  }

  /** `getDistinctEmployeeEmail`: `distinctBy { it.email }`. */
  function GetDistinctEmployeeEmail(list: seq<Employee>): (r: seq<Employee>)
    ensures IsSubsequence(r, list) && |r| <= |list|
    ensures forall i, j :: 0 <= i < j < |r| ==> r[i].email != r[j].email
    ensures forall m :: m in KeysOf(r, EmailOf) <==> m in KeysOf(list, EmailOf)
  {
    DistinctBy(list, EmailOf)
  }

  /** Each dedup keeps the first record of every uuid (email), and applying it twice changes nothing. */
  lemma DedupsKeepFirstAndAreIdempotent(list: seq<Employee>)
    ensures GetDistinctEmployeeUuid(list) == FirstOccurrences(list, UuidOf)
    ensures GetDistinctEmployeeEmail(list) == FirstOccurrences(list, EmailOf)
    ensures GetDistinctEmployeeUuid(GetDistinctEmployeeUuid(list)) == GetDistinctEmployeeUuid(list)
    ensures GetDistinctEmployeeEmail(GetDistinctEmployeeEmail(list)) == GetDistinctEmployeeEmail(list)
  {
    DistinctByKeepsFirstOccurrences(list, UuidOf);
    DistinctByKeepsFirstOccurrences(list, EmailOf);
    DistinctByIdempotent(list, UuidOf);
    DistinctByIdempotent(list, EmailOf);
  }

  /** What the repository call produced: a response, or an IOException it threw. */
  datatype FetchOutcome = Delivered(response: Response<EmployeeDto>) | IoFailure(ioe: Exception)

  /** `exception.message ?: "Error"`. */
  function ErrorMessage(e: Exception): string {
    e.message.GetOr("Error")
  }

  /** The screen state chosen on Success: from the raw, unfiltered list. */
  function SuccessScreenState(employees: Option<seq<Employee>>): ScreenState {
    if employees.None? || |employees.value| == 0 then Empty else Data
  }

  /** Where getEmployees leaves the view model. */
  datatype Settled = Settled(screen: ScreenState, ui: EmployeeUiState, escaped: bool)

  /**
   * The end state of one getEmployees run. A Success whose list is null sets
   * the screen state, then fails Kotlin's null check on the filter's parameter:
   * the NullPointerException is not an IOException, escapes the coroutine, and
   * the UI state is left at LOADING.
   */
  function GetEmployeesOutcome(fetched: FetchOutcome): Settled {
    match fetched
    case IoFailure(ioe) =>
      Settled(ScreenState.Error, EmployeeUiState(ScreenState.Error, [], [ErrorMessage(ioe)]), false)
    case Delivered(Error(e)) =>
      Settled(ScreenState.Error, EmployeeUiState(ScreenState.Error, [], [ErrorMessage(e)]), false)
    case Delivered(Success(dto)) =>
      var screen := SuccessScreenState(dto.employees);
      if dto.employees.None? then Settled(screen, EmployeeUiState(Loading, []), true)
      else
        var items := ToEmployeeItems(RemoveEmployeesThatMatchFilters(dto.employees.value));
        Settled(screen, EmployeeUiState(screen, employeeItems := items), false)
  }

  /** On Success the screen is EMPTY iff the raw list is null or empty; the items are the filtered records. */
  lemma SuccessShowsFilteredRecords(dto: EmployeeDto)
    ensures var s := GetEmployeesOutcome(Delivered(Success(dto)));
      && (s.screen == Empty <==> dto.employees.None? || dto.employees.value == [])
      && (s.screen == Data <==> dto.employees.Some? && dto.employees.value != [])
      && (dto.employees.Some? ==>
            && !s.escaped
            && s.ui.screenState == s.screen
            && s.ui.errorMessages == []
            && |s.ui.employeeItems| == |RemoveEmployeesThatMatchFilters(dto.employees.value)|
            && forall i :: 0 <= i < |s.ui.employeeItems| ==>
                 ItemSource(s.ui.employeeItems[i]) == RemoveEmployeesThatMatchFilters(dto.employees.value)[i])
  {
  }

  /** DATA is shown even when the filter removes every record. */
  lemma DataEvenWhenAllFiltered(list: seq<Employee>)
    requires list != [] && forall e :: e in list ==> !IsDisplayable(e)
    ensures var s := GetEmployeesOutcome(Delivered(Success(EmployeeDto(Some(list)))));
      s.screen == Data && s.ui.screenState == Data && s.ui.employeeItems == []
  {
  }

  /** Both error paths show ERROR, no items, and the single message (or "Error"). */
  lemma ErrorPathsShowOneMessage(fetched: FetchOutcome)
    requires fetched.IoFailure? || fetched.response.Error?
    ensures var s := GetEmployeesOutcome(fetched);
      var e := if fetched.IoFailure? then fetched.ioe else fetched.response.exception;
      && s.screen == ScreenState.Error && !s.escaped
      && s.ui == EmployeeUiState(ScreenState.Error, [], [if e.message.Some? then e.message.value else "Error"])
  {
  }

  /** The two screen-state fields agree after every run that completes. */
  lemma CompletedRunsAgree(fetched: FetchOutcome)
    ensures var s := GetEmployeesOutcome(fetched);
      s.ui.screenState == s.screen <==> !s.escaped
  {
  }

  /**
   * The dedups' results are discarded (`.also`), so two displayable records
   * with the same uuid and email are both listed.
   */
  lemma DuplicatesStayListed(e: Employee)
    requires IsDisplayable(e)
    ensures var s := GetEmployeesOutcome(Delivered(Success(EmployeeDto(Some([e, e])))));
      |s.ui.employeeItems| == 2 && |GetDistinctEmployeeUuid([e, e])| == 1
  {
    var kept := RemoveEmployeesThatMatchFilters([e, e]);
    assert multiset(kept)[e] == 2;
    SubsequenceIsNoLonger(kept, [e, e]);
    assert |multiset(kept)| == |kept|;
    assert |kept| == 2;
    assert KeysDistinct(GetDistinctEmployeeUuid([e, e]), UuidOf);
    assert [e, e][..1] == [e] && [e][..0] == [];
    assert DistinctBy([e], UuidOf) == [e];
  }

  class EmployeeViewModel {
    var employeeUiState: EmployeeUiState
    var employeeUiScreenState: ScreenState

    constructor()
      ensures employeeUiState == EmployeeUiState() && employeeUiScreenState == Empty
    {
      employeeUiState := EmployeeUiState();
      employeeUiScreenState := Empty;
    }

    /**
     * One run of getEmployees, sequentially: the repository's outcome is given.
     * `escaped` is true when an exception other than IOException leaves the coroutine.
     */
    method GetEmployees(fetched: FetchOutcome) returns (escaped: bool)
      modifies this
      ensures var s := GetEmployeesOutcome(fetched);
        employeeUiScreenState == s.screen && employeeUiState == s.ui && escaped == s.escaped
    {
      escaped := false;
      match fetched {
        case IoFailure(ioe) =>
          employeeUiScreenState := ScreenState.Error;
          employeeUiState := EmployeeUiState(employeeUiScreenState, [], [ErrorMessage(ioe)]);
        case Delivered(employeeDto) =>
          employeeUiScreenState := Loading;
          employeeUiState := EmployeeUiState(employeeUiScreenState, []);
          match employeeDto {
            case Success(data) =>
              employeeUiScreenState :=
                if data.employees.None? || |data.employees.value| == 0 then Empty else Data;
              if data.employees.None? {
                escaped := true;
                return;
              }
              var employees := RemoveEmployeesThatMatchFilters(data.employees.value);
              var _ := GetDistinctEmployeeUuid(employees);
              var _ := GetDistinctEmployeeEmail(employees);
              var employeeUiItems := ToEmployeeItems(employees);
              employeeUiState := EmployeeUiState(employeeUiScreenState, employeeItems := employeeUiItems);
            case Error(exception) =>
              employeeUiScreenState := ScreenState.Error;
              employeeUiState := EmployeeUiState(employeeUiScreenState, [], [ErrorMessage(exception)]);
          }
      }
    }
  }
}
