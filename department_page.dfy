/** The Department screen of the styled UI (ui/tailwind-project/src/pages/Department.js).
    The screen keeps the list as last fetched (`departmentsWithoutFilter`) and the rows
    it displays (`departments`). Filtering and sorting both start again from the fetched
    list; a drag reorders the displayed rows only. */
module DepartmentPage {
  import opened Wrappers
  import opened JsText
  import opened Seqs
  import opened Ordering
  import opened Records

  /** The id filter's test: the id's decimal string contains the trimmed filter. */
  function IdMatches(idFilter: string): Department -> bool
  {
    (d: Department) => Includes(IntToString(d.departmentId), Trim(idFilter))
  }

  /** The name filter's test: the lower-cased name contains the lower-cased, trimmed filter. */
  function NameMatches(nameFilter: string): Department -> bool
  {
    (d: Department) => Includes(Lower(d.departmentName), Trim(Lower(nameFilter)))
  }

  /** `filterFn`: the fetched list, narrowed by the id filter when that is not blank,
      then by the name filter when that is not blank. */
  function FilterDepartments(canonical: seq<Department>, idFilter: string, nameFilter: string): seq<Department>
  {
    var byId := if Trim(idFilter) != "" then Filter(canonical, IdMatches(idFilter)) else canonical;
    if Trim(nameFilter) != "" then Filter(byId, NameMatches(nameFilter)) else byId
  }

  /** A department passes the filters: each filter that is not blank after `trim`
      matches it (logical AND). */
  predicate Shown(d: Department, idFilter: string, nameFilter: string)
  {
    (Trim(idFilter) == "" || IdMatches(idFilter)(d))
    && (Trim(nameFilter) == "" || NameMatches(nameFilter)(d))
  }

  function ShownBy(idFilter: string, nameFilter: string): Department -> bool
  {
    (d: Department) => Shown(d, idFilter, nameFilter)
  }

  /** The filtered rows are exactly the fetched rows that pass both active filters, in
      their fetched order and as often as they were fetched; with both filters blank the
      whole fetched list is shown. */
  lemma FilterDepartmentsSpec(canonical: seq<Department>, idFilter: string, nameFilter: string)
    ensures FilterDepartments(canonical, idFilter, nameFilter) == Filter(canonical, ShownBy(idFilter, nameFilter))
    ensures IsSubsequence(FilterDepartments(canonical, idFilter, nameFilter), canonical)
    ensures forall k :: 0 <= k < |FilterDepartments(canonical, idFilter, nameFilter)| ==>
      Shown(FilterDepartments(canonical, idFilter, nameFilter)[k], idFilter, nameFilter)
    ensures forall k :: 0 <= k < |canonical| && Shown(canonical[k], idFilter, nameFilter) ==>
      canonical[k] in FilterDepartments(canonical, idFilter, nameFilter)
    ensures forall d :: multiset(FilterDepartments(canonical, idFilter, nameFilter))[d]
              == if Shown(d, idFilter, nameFilter) then multiset(canonical)[d] else 0
    ensures Trim(idFilter) == "" && Trim(nameFilter) == "" ==>
      FilterDepartments(canonical, idFilter, nameFilter) == canonical
  {
    FilterDepartmentsIsOneFilter(canonical, idFilter, nameFilter);
    FilterIsSubsequence(canonical, ShownBy(idFilter, nameFilter));
    FilterMultiplicity(canonical, ShownBy(idFilter, nameFilter));
    if Trim(idFilter) == "" && Trim(nameFilter) == "" {
      FilterAllTrue(canonical, ShownBy(idFilter, nameFilter));
    }
  }

  /** The two filter passes of `filterFn` are one pass with the conjunction. */
  lemma FilterDepartmentsIsOneFilter(canonical: seq<Department>, idFilter: string, nameFilter: string)
    ensures FilterDepartments(canonical, idFilter, nameFilter) == Filter(canonical, ShownBy(idFilter, nameFilter))
  {
    var shown := ShownBy(idFilter, nameFilter);
    var byId, byName := IdMatches(idFilter), NameMatches(nameFilter);
    if Trim(idFilter) != "" && Trim(nameFilter) != "" {
      FilterThenFilter(canonical, byId, byName, shown);
    } else if Trim(idFilter) != "" {
      FilterSamePredicate(canonical, byId, shown);
    } else if Trim(nameFilter) != "" {
      FilterSamePredicate(canonical, byName, shown);
    } else {
      FilterAllTrue(canonical, shown);
    }
  }

  /** Two predicates that agree everywhere filter alike. */
  lemma {:induction false} FilterSamePredicate<T>(s: seq<T>, p: T -> bool, q: T -> bool)
    requires forall x :: p(x) == q(x)
    ensures Filter(s, p) == Filter(s, q)
  {
    if s != [] {
      FilterSamePredicate(s[1..], p, q);
    }
  }

  /** The id filter holds digits only, so trimming it changes nothing: a non-empty id
      filter keeps exactly the rows whose id's decimal string contains it. */
  lemma DigitFilterNeedsNoTrim(idFilter: string)
    requires AllDigits(idFilter)
    ensures Trim(idFilter) == idFilter
  {
    TrimNoSpace(idFilter);
  }

  /** The column a sort button sorts by. */
  datatype DepartmentProp = ByDepartmentId | ByDepartmentName

  function DepartmentKey(prop: DepartmentProp): Department -> Key
  {
    (d: Department) => if prop == ByDepartmentId then Num(d.departmentId) else Str(d.departmentName)
  }

  /** `sortResult`: a sorted copy of the fetched list. */
  function SortDepartments(canonical: seq<Department>, prop: DepartmentProp, ascending: bool): seq<Department>
  {
    SortBy(canonical, DepartmentKey(prop), ascending)
  }

  /** The sorted rows are a permutation of the fetched list (not of the rows on screen,
      so an active filter and a manual reorder are dropped), ordered by the column:
      ascending non-decreasing, descending non-increasing. Sorting again changes nothing. */
  lemma SortDepartmentsSpec(canonical: seq<Department>, prop: DepartmentProp, ascending: bool)
    ensures multiset(SortDepartments(canonical, prop, ascending)) == multiset(canonical)
    ensures var r := SortDepartments(canonical, prop, ascending);
      prop == ByDepartmentId ==> forall i, j :: 0 <= i < j < |r| ==>
        if ascending then r[i].departmentId <= r[j].departmentId else r[i].departmentId >= r[j].departmentId
    ensures var r := SortDepartments(canonical, prop, ascending);
      prop == ByDepartmentName ==> forall i, j :: 0 <= i < j < |r| ==>
        if ascending then !StrLess(r[j].departmentName, r[i].departmentName)
        else !StrLess(r[i].departmentName, r[j].departmentName)
    ensures SortDepartments(SortDepartments(canonical, prop, ascending), prop, ascending)
      == SortDepartments(canonical, prop, ascending)
  {
    var key := DepartmentKey(prop);
    assert OneKind(canonical, key) by {
      if prop == ByDepartmentId {
        assert forall i :: 0 <= i < |canonical| ==> key(canonical[i]).Num?;
      } else {
        assert forall i :: 0 <= i < |canonical| ==> key(canonical[i]).Str?;
      }
    }
    SortBySorted(canonical, key, ascending);
    SortByIdempotent(canonical, key, ascending);
  }

  /** What the create/update button sends: nothing while the name is blank (the button
      is disabled), a POST of the name when the id is the unsaved sentinel `0`, else a
      PUT of id and name to `department/<id>`. */
  function DepartmentSaveRequest(departmentId: int, departmentName: string): (r: Option<Request<DepartmentBody>>)
    ensures r.None? <==> Trim(departmentName) == ""
    ensures r.Some? ==> (r.value.verb == Post <==> departmentId == 0)
    ensures r.Some? && departmentId == 0 ==> r.value.path == "department" && r.value.body == CreateDepartment(departmentName)
    ensures r.Some? && departmentId != 0 ==>
      r.value.path == "department/" + IntToString(departmentId) && r.value.body == UpdateDepartment(departmentId, departmentName)
  {
    if Trim(departmentName) == "" then None
    else if departmentId == 0 then Some(Request(Post, "department", CreateDepartment(departmentName)))
    else Some(Request(Put, "department/" + IntToString(departmentId), UpdateDepartment(departmentId, departmentName)))
  }

  /** The PUT path names the record: two different ids never share a path. */
  lemma UpdatePathNamesRecord(id1: int, id2: int)
    requires "department/" + IntToString(id1) == "department/" + IntToString(id2)
    ensures id1 == id2
  {
    var p := "department/";
    assert IntToString(id1) == (p + IntToString(id1))[|p|..];
    assert IntToString(id2) == (p + IntToString(id2))[|p|..];
    IntToStringInjective(id1, id2);
  }

  /** The `name` of the filter input that changed. */
  datatype FilterInput = DepartmentIdFilter | DepartmentNameFilter

  class DepartmentScreen {
    /** The rows on screen. */
    var departments: seq<Department>
    /** The list as last fetched. */
    var departmentsWithoutFilter: seq<Department>
    var departmentIdFilter: string
    var departmentNameFilter: string
    /** The edit draft; id `0` marks a department not yet created. */
    var departmentId: int
    var departmentName: string
    var isModalOpen: bool
    /** The employee list, fetched only for the "Total Employees" count. */
    var employees: seq<Employee>
    /** Whether a fetch is in flight: the screen shows a spinner instead of the table. */
    var isLoading: bool

    /** Every row on screen comes from the fetched list (no row shown more often than
        it was fetched), and the id filter holds digits only. */
    ghost predicate Valid()
      reads this
    {
      multiset(departments) <= multiset(departmentsWithoutFilter) && AllDigits(departmentIdFilter)
    }

    constructor ()
      ensures Valid()
      ensures departments == [] && departmentsWithoutFilter == []
      ensures departmentIdFilter == "" && departmentNameFilter == ""
      ensures departmentId == 0 && departmentName == "" && !isModalOpen
      ensures employees == [] && isLoading
    {
      departments := [];
      departmentsWithoutFilter := [];
      departmentIdFilter := "";
      departmentNameFilter := "";
      departmentId := 0;
      departmentName := "";
      isModalOpen := false;
      employees := [];
      isLoading := true;
    }

    /** `filterFn`, run by the effect whenever the fetched list or a filter changes. */
    method FilterFn()
      requires Valid()
      modifies this`departments
      ensures Valid()
      ensures departments == FilterDepartments(departmentsWithoutFilter, departmentIdFilter, departmentNameFilter)
    {
      departments := FilterDepartments(departmentsWithoutFilter, departmentIdFilter, departmentNameFilter);
      FilterDepartmentsSpec(departmentsWithoutFilter, departmentIdFilter, departmentNameFilter);
      SubsequenceSubMultiset(departments, departmentsWithoutFilter);
    }

    /** Storing fetched departments: both lists take the data, and the filter effect
        re-derives the rows on screen. */
    method StoreDepartments(data: seq<Department>)
      requires Valid()
      modifies this`departments, this`departmentsWithoutFilter
      ensures Valid()
      ensures departmentsWithoutFilter == data
      ensures departments == FilterDepartments(data, departmentIdFilter, departmentNameFilter)
    {
      departments := data;
      departmentsWithoutFilter := data;
      FilterFn();
    }

    /** `refreshList`: loading is set while the fetches run and always cleared at the
        end. The departments are fetched first: on success both lists take the data and
        the filter effect re-derives the rows on screen. The employees are fetched only
        after that and stored on success. A failed fetch (`None`; the error is only
        logged) skips everything after it. */
    method RefreshList(response: Option<seq<Department>>, employeeResponse: Option<seq<Employee>>)
      requires Valid()
      modifies this`departments, this`departmentsWithoutFilter, this`employees, this`isLoading
      ensures Valid()
      ensures !isLoading
      ensures response.Some? ==> departmentsWithoutFilter == response.value
      ensures response.Some? ==>
        departments == FilterDepartments(response.value, departmentIdFilter, departmentNameFilter)
      ensures response.None? ==>
        departments == old(departments) && departmentsWithoutFilter == old(departmentsWithoutFilter)
      ensures employees ==
        if response.Some? && employeeResponse.Some? then employeeResponse.value else old(employees)
    {
      isLoading := true;
      if response.Some? {
        StoreDepartments(response.value);
        if employeeResponse.Some? {
          employees := employeeResponse.value;
        }
      }
      isLoading := false;
    }

    /** `handleFilterChange`: the id filter keeps only the digits typed; the name
        filter keeps the input as it is. When the stored value changes, the effect
        re-runs `filterFn`; when it does not, React keeps the old state and nothing
        is re-derived. */
    method HandleFilterChange(input: FilterInput, value: string)
      requires Valid()
      modifies this`departmentIdFilter, this`departmentNameFilter, this`departments
      ensures Valid()
      ensures input == DepartmentIdFilter ==>
        departmentIdFilter == DigitsOnly(value) && departmentNameFilter == old(departmentNameFilter)
      ensures input == DepartmentNameFilter ==>
        departmentNameFilter == value && departmentIdFilter == old(departmentIdFilter)
      ensures departments ==
        if departmentIdFilter == old(departmentIdFilter) && departmentNameFilter == old(departmentNameFilter)
        then old(departments)
        else FilterDepartments(departmentsWithoutFilter, departmentIdFilter, departmentNameFilter)
    {
      if input == DepartmentIdFilter {
        var numericValue := DigitsOnly(value);
        if numericValue != departmentIdFilter {
          departmentIdFilter := numericValue;
          FilterFn();
        }
      } else {
        if value != departmentNameFilter {
          departmentNameFilter := value;
          FilterFn();
        }
      }
    }

    /** `sortResult`: the rows on screen become the fetched list sorted by the column. */
    method SortResult(prop: DepartmentProp, ascending: bool)
      requires Valid()
      modifies this`departments
      ensures Valid()
      ensures departments == SortDepartments(departmentsWithoutFilter, prop, ascending)
    {
      departments := SortDepartments(departmentsWithoutFilter, prop, ascending);
    }

    /** `moveRow`: the row at `dragIndex` of the rows on screen is moved to
        `hoverIndex`; the fetched list is untouched. */
    method MoveRow(dragIndex: nat, hoverIndex: nat)
      requires Valid()
      requires dragIndex < |departments| && hoverIndex < |departments|
      modifies this`departments
      ensures Valid()
      ensures departments == Moved(old(departments), dragIndex, hoverIndex)
    {
      MovedIsPermutation(departments, dragIndex, hoverIndex);
      departments := SpliceMove(departments, dragIndex, hoverIndex);
    }

    /** `handleAddClick`: an empty draft with the unsaved id `0`; the save button stays
        disabled until a name is typed. */
    method HandleAddClick()
      modifies this`departmentId, this`departmentName, this`isModalOpen
      ensures departmentId == 0 && departmentName == "" && isModalOpen
      ensures DepartmentSaveRequest(departmentId, departmentName).None?
    {
      departmentId := 0;
      departmentName := "";
      isModalOpen := true;
    }

    /** `handleEditClick`: the draft takes the clicked department's id and name. */
    method HandleEditClick(dep: Department)
      modifies this`departmentId, this`departmentName, this`isModalOpen
      ensures departmentId == dep.departmentId && departmentName == dep.departmentName && isModalOpen
    {
      departmentId := dep.departmentId;
      departmentName := dep.departmentName;
      isModalOpen := true;
    }

    /** The name input's `onChange`. */
    method SetDepartmentName(value: string)
      modifies this`departmentName
      ensures departmentName == value
    {
      departmentName := value;
    }

    /** `handleCreateClick` or `handleUpdateClick`, as the draft's id selects, and
        returns the request sent (`None`: the button is disabled and nothing happens).
        `saved` is whether the server accepted it: then the modal closes and the list is
        fetched again (`refreshed`, then `refreshedEmployees`); otherwise only a toast is
        shown. The draft is never changed. */
    method HandleSaveClick(saved: bool, refreshed: Option<seq<Department>>, refreshedEmployees: Option<seq<Employee>>)
      returns (request: Option<Request<DepartmentBody>>)
      requires Valid()
      modifies this`isModalOpen, this`departments, this`departmentsWithoutFilter, this`employees, this`isLoading
      ensures Valid()
      ensures request == DepartmentSaveRequest(departmentId, departmentName)
      ensures request.Some? && saved ==> !isModalOpen && !isLoading
      ensures request.Some? && saved && refreshed.Some? ==>
        departmentsWithoutFilter == refreshed.value
        && departments == FilterDepartments(refreshed.value, departmentIdFilter, departmentNameFilter)
      ensures request.None? || !saved || refreshed.None? ==>
        departments == old(departments) && departmentsWithoutFilter == old(departmentsWithoutFilter)
      ensures employees ==
        if request.Some? && saved && refreshed.Some? && refreshedEmployees.Some? then refreshedEmployees.value
        else old(employees)
      ensures request.None? || !saved ==> isModalOpen == old(isModalOpen) && isLoading == old(isLoading)
    {
      request := DepartmentSaveRequest(departmentId, departmentName);
      if request.Some? && saved {
        RefreshList(refreshed, refreshedEmployees);
        isModalOpen := false;
      }
    }
  }
}
