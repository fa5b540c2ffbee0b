/** The Employee screen of the styled UI (ui/tailwind-project/src/pages/Employee.js).
    The screen keeps the list as last fetched (`employees`) and derives the rows it
    displays from it by the search filter; the edit modal works on a draft record. */
module EmployeePage {
  import opened Wrappers
  import opened JsText
  import opened Seqs
  import opened Records
  import Helpers
  import Admin

  /** The base URL of the stored photos (`PHOTO_URL`). */
  const PhotoUrl: string := "http://127.0.0.1:8000/Photos/"

  /** The photo stored for an employee without one of their own. */
  const AnonymousPhoto: string := "anonymous.jpg"

  /** `getPhotoUrl`: the photo under the base URL, or the anonymous photo when there is
      no file name or it is the anonymous one already. */
  function GetPhotoUrl(photoFileName: string): string
  {
    if photoFileName == "" || photoFileName == AnonymousPhoto then PhotoUrl + AnonymousPhoto
    else PhotoUrl + photoFileName
  }

  /** A row shows the photo the shared `getImageUrl` helper would give for the same file
      name, and it falls back to the anonymous photo exactly when the admin site shows
      a placeholder instead of the employee's own photo. */
  lemma GetPhotoUrlSpec(photoFileName: string)
    ensures GetPhotoUrl(photoFileName) == Helpers.GetImageUrl(photoFileName, PhotoUrl)
    ensures GetPhotoUrl(photoFileName)[..|PhotoUrl|] == PhotoUrl
    ensures GetPhotoUrl(photoFileName)[|PhotoUrl|..] == AnonymousPhoto <==> Admin.EmployeePhoto(photoFileName).Placeholder?
  {
    var r := GetPhotoUrl(photoFileName);
    assert r[|PhotoUrl|..] == (if photoFileName == "" then AnonymousPhoto else photoFileName);
  }

  /** The search test: the lower-cased name or the lower-cased department name contains
      the lower-cased filter text (logical OR; the text is not trimmed). */
  function EmployeeMatches(filter: string): Employee -> bool
  {
    (e: Employee) => Includes(Lower(e.employeeName), Lower(filter)) || Includes(Lower(e.department), Lower(filter))
  }

  /** `filteredEmployees`: the fetched employees that pass the search, in fetched order. */
  function FilterEmployees(employees: seq<Employee>, filter: string): seq<Employee>
  {
    Filter(employees, EmployeeMatches(filter))
  }

  /** An employee is found by the search: the lower-cased filter text occurs somewhere
      in the lower-cased name or department. */
  ghost predicate Found(e: Employee, filter: string)
  {
    (exists i :: OccursAt(Lower(e.employeeName), Lower(filter), i))
    || (exists i :: OccursAt(Lower(e.department), Lower(filter), i))
  }

  lemma MatchesIffFound(e: Employee, filter: string)
    ensures EmployeeMatches(filter)(e) <==> Found(e, filter)
  {
    IncludesIffOccurs(Lower(e.employeeName), Lower(filter));
    IncludesIffOccurs(Lower(e.department), Lower(filter));
  }

  /** The rows shown are fetched rows, in fetched order; each is found by the search, and
      every fetched row found by the search is shown as often as it was fetched. An empty
      search shows everyone. */
  lemma FilterEmployeesSpec(employees: seq<Employee>, filter: string)
    ensures IsSubsequence(FilterEmployees(employees, filter), employees)
    ensures forall k :: 0 <= k < |FilterEmployees(employees, filter)| ==> Found(FilterEmployees(employees, filter)[k], filter)
    ensures forall k :: 0 <= k < |employees| && Found(employees[k], filter) ==> employees[k] in FilterEmployees(employees, filter)
    ensures forall e :: multiset(FilterEmployees(employees, filter))[e]
              == if Found(e, filter) then multiset(employees)[e] else 0
    ensures |FilterEmployees(employees, filter)| <= |employees|
    ensures filter == "" ==> FilterEmployees(employees, filter) == employees
  {
    var p := EmployeeMatches(filter);
    var r := FilterEmployees(employees, filter);
    FilterIsSubsequence(employees, p);
    FilterMultiplicity(employees, p);
    forall e ensures multiset(r)[e] == if Found(e, filter) then multiset(employees)[e] else 0 {
      MatchesIffFound(e, filter);
    }
    forall k | 0 <= k < |r| ensures Found(r[k], filter) {
      MatchesIffFound(r[k], filter);
    }
    forall k | 0 <= k < |employees| && Found(employees[k], filter) ensures employees[k] in r {
      MatchesIffFound(employees[k], filter);
    }
    if filter == "" {
      forall k | 0 <= k < |employees| ensures p(employees[k]) {
        IncludesEmpty(Lower(employees[k].employeeName));
      }
      FilterAllTrue(employees, p);
    }
  }

  /** What the save button sends: a POST of the draft to `employee` when its id is the
      unsaved sentinel `0`, otherwise a PUT of the draft to `employee/<id>`. */
  function EmployeeSaveRequest(draft: Employee): Request<Employee>
  {
    if draft.employeeId == 0 then Request(Post, "employee", draft)
    else Request(Put, "employee/" + IntToString(draft.employeeId), draft)
  }

  /** A save creates exactly the drafts with id `0` and sends the whole draft. An update
      names its record: no update goes to the create path, and two updates share a
      path only when they are for the same id. */
  lemma EmployeeSaveRequestSpec(draft: Employee, other: Employee)
    ensures EmployeeSaveRequest(draft).verb == Post <==> draft.employeeId == 0
    ensures EmployeeSaveRequest(draft).body == draft
    ensures draft.employeeId != 0 ==> EmployeeSaveRequest(draft).path != "employee"
    ensures (draft.employeeId != 0 && other.employeeId != 0
             && EmployeeSaveRequest(draft).path == EmployeeSaveRequest(other).path)
      ==> draft.employeeId == other.employeeId
  {
    var p := "employee/";
    IntToStringSign(draft.employeeId);
    if draft.employeeId != 0 && other.employeeId != 0
      && EmployeeSaveRequest(draft).path == EmployeeSaveRequest(other).path
    {
      assert IntToString(draft.employeeId) == (p + IntToString(draft.employeeId))[|p|..];
      assert IntToString(other.employeeId) == (p + IntToString(other.employeeId))[|p|..];
      IntToStringInjective(draft.employeeId, other.employeeId);
    }
  }

  /** The full list after a drag from row `dragIndex` onto row `hoverIndex` of the rows on
      screen, when the move is made on the rows the screen actually shows at those
      indices. */
  function MovedInView(employees: seq<Employee>, filter: string, dragIndex: nat, hoverIndex: nat): seq<Employee>
    requires dragIndex < |FilterEmployees(employees, filter)| && hoverIndex < |FilterEmployees(employees, filter)|
  {
    var p := EmployeeMatches(filter);
    Moved(employees, Position(employees, p, dragIndex), Position(employees, p, hoverIndex))
  }

  /** The intended drag: the rows on screen are reordered exactly as the drag shows, and
      the full list keeps the same employees. */
  lemma MovedInViewSpec(employees: seq<Employee>, filter: string, dragIndex: nat, hoverIndex: nat)
    requires dragIndex < |FilterEmployees(employees, filter)| && hoverIndex < |FilterEmployees(employees, filter)|
    ensures FilterEmployees(MovedInView(employees, filter, dragIndex, hoverIndex), filter)
      == Moved(FilterEmployees(employees, filter), dragIndex, hoverIndex)
    ensures multiset(MovedInView(employees, filter, dragIndex, hoverIndex)) == multiset(employees)
  {
    var p := EmployeeMatches(filter);
    FilterOfMoved(employees, p, dragIndex, hoverIndex);
    MovedIsPermutation(employees, Position(employees, p, dragIndex), Position(employees, p, hoverIndex));
  }

  /** `moveRow` as written splices the full list at the indices of the rows on screen.
      Three employees Ann, Bob and Amy with the search "a" show Ann and Amy; dragging
      Amy (row 1) onto Ann (row 0) moves Bob instead, and the rows on screen stay as
      they were. */
  lemma DragMovesWrongRow()
    ensures var employees := [Employee(1, "Ann", "", "", AnonymousPhoto),
                              Employee(2, "Bob", "", "", AnonymousPhoto),
                              Employee(3, "Amy", "", "", AnonymousPhoto)];
      FilterEmployees(employees, "a") == [employees[0], employees[2]]
      && FilterEmployees(Moved(employees, 1, 0), "a") == FilterEmployees(employees, "a")
      && Moved(FilterEmployees(employees, "a"), 1, 0) != FilterEmployees(employees, "a")
  {
    var ann, bob, amy := Employee(1, "Ann", "", "", AnonymousPhoto), Employee(2, "Bob", "", "", AnonymousPhoto), Employee(3, "Amy", "", "", AnonymousPhoto);
    var p := EmployeeMatches("a");
    assert Lower("a") == "a";
    assert Lower("Ann") == "ann" && Lower("Bob") == "bob" && Lower("Amy") == "amy" && Lower("") == "";
    assert p(ann) && p(amy) by {
      assert "ann"[..1] == "a" && "amy"[..1] == "a";
    }
    assert !p(bob) by {
      assert "bob"[..1] == "b" && "bob"[1..][..1] == "o" && "bob"[1..][1..][..1] == "b";
      assert "b"[0] != "a"[0] && "o"[0] != "a"[0];
      assert "bob"[1..][1..][1..] == "";
    }
    var employees := [ann, bob, amy];
    assert FilterEmployees(employees, "a") == [ann, amy] by {
      assert employees[1..] == [bob, amy] && [bob, amy][1..] == [amy] && [amy][1..] == [];
      assert Filter([amy], p) == [amy] + Filter([], p);
      assert Filter([bob, amy], p) == Filter([amy], p);
      assert Filter(employees, p) == [ann] + Filter([bob, amy], p);
    }
    var moved := Moved(employees, 1, 0);
    assert moved == [bob, ann, amy];
    assert FilterEmployees(moved, "a") == [ann, amy] by {
      assert moved[1..] == [ann, amy] && [ann, amy][1..] == [amy] && [amy][1..] == [];
      assert Filter([amy], p) == [amy] + Filter([], p);
      assert Filter([ann, amy], p) == [ann] + Filter([amy], p);
      assert Filter(moved, p) == Filter([ann, amy], p);
    }
    assert Moved([ann, amy], 1, 0) == [amy, ann];
  }

  /** With an empty search every row is on screen, and the drag as written moves the row
      the user dragged. */
  lemma DragWithoutSearchIsIntended(employees: seq<Employee>, dragIndex: nat, hoverIndex: nat)
    requires dragIndex < |employees| && hoverIndex < |employees|
    ensures FilterEmployees(employees, "") == employees
    ensures FilterEmployees(Moved(employees, dragIndex, hoverIndex), "") == Moved(FilterEmployees(employees, ""), dragIndex, hoverIndex)
  {
    FilterEmployeesSpec(employees, "");
    FilterEmployeesSpec(Moved(employees, dragIndex, hoverIndex), "");
  }

  class EmployeeScreen {
    var departments: seq<Department>
    /** The list as last fetched, reordered by drags. */
    var employees: seq<Employee>
    var employeeFilter: string
    /** The edit draft; id `0` marks an employee not yet created. */
    var employeeDetails: Employee
    /** The URL of the photo previewed in the modal. */
    var photoPath: string
    var isModalOpen: bool
    var isLoading: bool

    /** The previewed photo always lies under the photo base URL. */
    ghost predicate Valid()
      reads this
    {
      |photoPath| >= |PhotoUrl| && photoPath[..|PhotoUrl|] == PhotoUrl
    }

    constructor ()
      ensures Valid()
      ensures departments == [] && employees == [] && employeeFilter == ""
      ensures employeeDetails == NewDraft(AnonymousPhoto)
      ensures photoPath == PhotoUrl && !isModalOpen && isLoading
    {
      departments := [];
      employees := [];
      employeeFilter := "";
      employeeDetails := Employee(0, "", "", "", AnonymousPhoto);
      photoPath := PhotoUrl;
      isModalOpen := false;
      isLoading := true;
    }

    /** The rows on screen. */
    function FilteredEmployees(): seq<Employee>
      reads this
    {
      FilterEmployees(employees, employeeFilter)
    }

    /** The search input's `onChange`. */
    method SetEmployeeFilter(value: string)
      modifies this`employeeFilter
      ensures employeeFilter == value
      ensures FilteredEmployees() == FilterEmployees(employees, value)
    {
      employeeFilter := value;
    }

    /** `refreshList`: the employees are fetched first and stored; only then are the
        departments fetched. A failed fetch (`None`) skips everything after it. Loading
        ends either way. */
    method RefreshList(employeeResponse: Option<seq<Employee>>, departmentResponse: Option<seq<Department>>)
      modifies this`employees, this`departments, this`isLoading
      ensures employees == if employeeResponse.Some? then employeeResponse.value else old(employees)
      ensures departments ==
        if employeeResponse.Some? && departmentResponse.Some? then departmentResponse.value else old(departments)
      ensures !isLoading
    {
      isLoading := true;
      if employeeResponse.Some? {
        employees := employeeResponse.value;
        if departmentResponse.Some? {
          departments := departmentResponse.value;
        }
      }
      isLoading := false;
    }

    /** `handleChange`: the input named `field` overwrites that field of the draft. */
    method HandleChange(field: EmployeeField, value: string)
      modifies this`employeeDetails
      ensures employeeDetails == SetField(old(employeeDetails), field, value)
    {
      employeeDetails := SetField(employeeDetails, field, value);
    }

    /** `handleAddClick`: a fresh draft with the unsaved id `0`, which a save will POST,
        and the anonymous photo previewed. */
    method HandleAddClick()
      requires Valid()
      modifies this`employeeDetails, this`photoPath, this`isModalOpen
      ensures Valid()
      ensures employeeDetails == NewDraft(AnonymousPhoto) && EmployeeSaveRequest(employeeDetails).verb == Post
      ensures photoPath == GetPhotoUrl(employeeDetails.photoFileName) && isModalOpen
    {
      employeeDetails := Employee(0, "", "", "", AnonymousPhoto);
      photoPath := PhotoUrl + AnonymousPhoto;
      isModalOpen := true;
    }

    /** `handleEditClick`: the draft takes all five fields of the clicked employee, and
        the modal previews the same photo as the employee's row. */
    method HandleEditClick(emp: Employee)
      requires Valid()
      modifies this`employeeDetails, this`photoPath, this`isModalOpen
      ensures Valid()
      ensures employeeDetails == emp
      ensures photoPath == GetPhotoUrl(emp.photoFileName) && isModalOpen
    {
      employeeDetails := Employee(emp.employeeId, emp.employeeName, emp.department, emp.dateOfJoining, emp.photoFileName);
      photoPath := if emp.photoFileName != "" && emp.photoFileName != AnonymousPhoto
        then PhotoUrl + emp.photoFileName
        else PhotoUrl + AnonymousPhoto;
      isModalOpen := true;
    }

    /** `handleSaveClick`: sends the draft and returns the request sent. `saved` is
        whether the server accepted it. On success the preview is reset to the base URL,
        the lists are refetched and the modal closes; on failure only a toast is shown.
        The draft itself is never changed. */
    method HandleSaveClick(saved: bool, employeeResponse: Option<seq<Employee>>, departmentResponse: Option<seq<Department>>)
      returns (request: Request<Employee>)
      requires Valid()
      modifies this`photoPath, this`employees, this`departments, this`isLoading, this`isModalOpen
      ensures Valid()
      ensures request == EmployeeSaveRequest(employeeDetails)
      ensures saved ==> photoPath == PhotoUrl && !isModalOpen && !isLoading
      ensures saved ==> employees == if employeeResponse.Some? then employeeResponse.value else old(employees)
      ensures saved ==>
        departments == if employeeResponse.Some? && departmentResponse.Some? then departmentResponse.value else old(departments)
      ensures !saved ==> photoPath == old(photoPath) && isModalOpen == old(isModalOpen) && isLoading == old(isLoading)
      ensures !saved ==> employees == old(employees) && departments == old(departments)
    {
      var verb := if employeeDetails.employeeId == 0 then Post else Put;
      var url := if employeeDetails.employeeId == 0 then "employee" else "employee/" + IntToString(employeeDetails.employeeId);
      request := Request(verb, url, employeeDetails);
      if saved {
        photoPath := PhotoUrl;
        assert photoPath[..|PhotoUrl|] == PhotoUrl;
        RefreshList(employeeResponse, departmentResponse);
        isModalOpen := false;
      }
    }

    /** `handleImageUpload`: `uploaded` is the file name the server returns, or `None`
        when the upload fails. On success the draft's photo becomes that name and the
        preview shows it; on failure nothing changes. */
    method HandleImageUpload(uploaded: Option<string>)
      requires Valid()
      modifies this`employeeDetails, this`photoPath
      ensures Valid()
      ensures uploaded.Some? ==>
        employeeDetails == SetField(old(employeeDetails), FieldPhotoFileName, uploaded.value)
        && photoPath == PhotoUrl + uploaded.value
      ensures uploaded.None? ==> employeeDetails == old(employeeDetails) && photoPath == old(photoPath)
    {
      if uploaded.Some? {
        employeeDetails := employeeDetails.(photoFileName := uploaded.value);
        photoPath := PhotoUrl + uploaded.value;
        assert photoPath[..|PhotoUrl|] == PhotoUrl;
      }
    }

    /** `moveRow` as written: the indices are rows on screen, but the splice is done on the
        full list. When a search is active this can move a row that is not the one
        dragged (see `DragMovesWrongRow`). */
    method MoveRow(dragIndex: nat, hoverIndex: nat)
      requires dragIndex < |FilteredEmployees()| && hoverIndex < |FilteredEmployees()|
      modifies this`employees
      ensures employees == Moved(old(employees), dragIndex, hoverIndex)
      ensures multiset(employees) == multiset(old(employees))
    {
      FilterEmployeesSpec(employees, employeeFilter);
      MovedIsPermutation(employees, dragIndex, hoverIndex);
      employees := SpliceMove(employees, dragIndex, hoverIndex);
    }

    /** The drag as evidently intended: the rows on screen at the two indices are located
        in the full list and the move is made there, so the screen shows exactly the
        dragged reorder. */
    method MoveRowInView(dragIndex: nat, hoverIndex: nat)
      requires dragIndex < |FilteredEmployees()| && hoverIndex < |FilteredEmployees()|
      modifies this`employees
      ensures employees == MovedInView(old(employees), employeeFilter, dragIndex, hoverIndex)
      ensures FilteredEmployees() == Moved(old(FilteredEmployees()), dragIndex, hoverIndex)
      ensures multiset(employees) == multiset(old(employees))
    {
      MovedInViewSpec(employees, employeeFilter, dragIndex, hoverIndex);
      var p := EmployeeMatches(employeeFilter);
      employees := SpliceMove(employees, Position(employees, p, dragIndex), Position(employees, p, hoverIndex));
    }
  }
}
