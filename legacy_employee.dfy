/** The Employee screen of the original UI (ui/my-app/src/Employee.js): the list as
    fetched and the edit draft. It has no search, no drag and no photo fallback: the
    preview is the photo base URL followed by the draft's file name. */
module LegacyEmployeePage {
  import opened Wrappers
  import opened JsText
  import opened Records
  import EmployeePage

  /** The photo a fresh draft names on this screen. */
  const LegacyAnonymousPhoto: string := "anonymous.png"

  /** What the save button sends: a POST of the draft when its id is the unsaved
      sentinel `0`, otherwise a PUT; both to `employee`. */
  function LegacySaveRequest(draft: Employee): Request<Employee>
  {
    Request(if draft.employeeId == 0 then Post else Put, "employee", draft)
  }

  /** The original screen creates exactly the drafts with id `0` and always sends the
      whole draft to the one `employee` path, so an update is identified by the id in
      its body only. The styled screen sends the same method and body and differs only
      in the path of an update. */
  lemma LegacySaveRequestSpec(draft: Employee)
    ensures LegacySaveRequest(draft).verb == Post <==> draft.employeeId == 0
    ensures LegacySaveRequest(draft).path == "employee" && LegacySaveRequest(draft).body == draft
    ensures EmployeePage.EmployeeSaveRequest(draft).verb == LegacySaveRequest(draft).verb
    ensures EmployeePage.EmployeeSaveRequest(draft).body == LegacySaveRequest(draft).body
    ensures EmployeePage.EmployeeSaveRequest(draft).path == LegacySaveRequest(draft).path <==> draft.employeeId == 0
  {
    EmployeePage.EmployeeSaveRequestSpec(draft, draft);
  }

  class LegacyEmployeeScreen {
    var departments: seq<Department>
    var employees: seq<Employee>
    /** The edit draft; id `0` marks an employee not yet created. */
    var employeeDetails: Employee
    /** The photo base URL (`PHOTO_URL`); it is never changed. */
    const photoPath: string

    /** `photoUrl` is the value of `PHOTO_URL`. */
    constructor (photoUrl: string)
      ensures departments == [] && employees == []
      ensures employeeDetails == NewDraft(LegacyAnonymousPhoto)
      ensures photoPath == photoUrl
    {
      departments := [];
      employees := [];
      employeeDetails := Employee(0, "", "", "", LegacyAnonymousPhoto);
      photoPath := photoUrl;
    }

    /** The `src` of the modal's photo preview. */
    function PreviewSrc(): string
      reads this
    {
      photoPath + employeeDetails.photoFileName
    }

    /** `refreshList`: the employees are fetched and stored first, then the departments;
        a failed fetch (`None`) skips everything after it. */
    method RefreshList(employeeResponse: Option<seq<Employee>>, departmentResponse: Option<seq<Department>>)
      modifies this`employees, this`departments
      ensures employees == if employeeResponse.Some? then employeeResponse.value else old(employees)
      ensures departments ==
        if employeeResponse.Some? && departmentResponse.Some? then departmentResponse.value else old(departments)
    {
      if employeeResponse.Some? {
        employees := employeeResponse.value;
        if departmentResponse.Some? {
          departments := departmentResponse.value;
        }
      }
    }

    /** `handleChange`: the input named `field` overwrites that field of the draft. */
    method HandleChange(field: EmployeeField, value: string)
      modifies this`employeeDetails
      ensures employeeDetails == SetField(old(employeeDetails), field, value)
    {
      employeeDetails := SetField(employeeDetails, field, value);
    }

    /** `handleAddClick`: a fresh draft with the unsaved id `0`, which a save will POST. */
    method HandleAddClick()
      modifies this`employeeDetails
      ensures employeeDetails == NewDraft(LegacyAnonymousPhoto)
      ensures LegacySaveRequest(employeeDetails).verb == Post
      ensures PreviewSrc() == photoPath + LegacyAnonymousPhoto
    {
      employeeDetails := Employee(0, "", "", "", LegacyAnonymousPhoto);
    }

    /** `handleEditClick`: the draft takes all five fields of the clicked employee. */
    method HandleEditClick(emp: Employee)
      modifies this`employeeDetails
      ensures employeeDetails == emp
      ensures PreviewSrc() == photoPath + emp.photoFileName
    {
      employeeDetails := Employee(emp.employeeId, emp.employeeName, emp.department, emp.dateOfJoining, emp.photoFileName);
    }

    /** `handleSaveClick`: sends the draft and returns the request sent. `saved` is
        whether the server answered; only then are the lists fetched again. The draft is
        never changed. */
    method HandleSaveClick(saved: bool, employeeResponse: Option<seq<Employee>>, departmentResponse: Option<seq<Department>>)
      returns (request: Request<Employee>)
      modifies this`employees, this`departments
      ensures request == LegacySaveRequest(employeeDetails)
      ensures saved ==> employees == if employeeResponse.Some? then employeeResponse.value else old(employees)
      ensures saved ==>
        departments == if employeeResponse.Some? && departmentResponse.Some? then departmentResponse.value else old(departments)
      ensures !saved ==> employees == old(employees) && departments == old(departments)
    {
      var verb := if employeeDetails.employeeId == 0 then Post else Put;
      request := Request(verb, "employee", employeeDetails);
      if saved {
        RefreshList(employeeResponse, departmentResponse);
      }
    }

    /** `handleImageUpload`: `uploaded` is the file name the server returns, or `None`
        when the upload fails. On success only the draft's photo changes, and the preview
        shows the new file; on failure the draft is as it was. */
    method HandleImageUpload(uploaded: Option<string>)
      modifies this`employeeDetails
      ensures uploaded.Some? ==> employeeDetails == SetField(old(employeeDetails), FieldPhotoFileName, uploaded.value)
      ensures uploaded.Some? ==> PreviewSrc() == photoPath + uploaded.value
      ensures uploaded.None? ==> employeeDetails == old(employeeDetails)
    {
      if uploaded.Some? {
        employeeDetails := employeeDetails.(photoFileName := uploaded.value);
      }
    }
  }
}
