/** The two record types exchanged with the REST backend, the employee edit draft,
    and the shape of a save request. */
module Records {
  import opened JsText

  /** A department as the `department` endpoint returns it
      (`{DepartmentId, DepartmentName}`). */
  datatype Department = Department(departmentId: int, departmentName: string)

  /** An employee as the `employee` endpoint returns it (`{EmployeeId, EmployeeName,
      Department, DateOfJoining, PhotoFileName}`); `department` holds the name of a
      department, not its id. */
  datatype Employee = Employee(
    employeeId: int,
    employeeName: string,
    department: string,
    dateOfJoining: string,
    photoFileName: string)

  /** The `name` attribute of an input of the employee form. */
  datatype EmployeeField = FieldEmployeeName | FieldDepartment | FieldDateOfJoining | FieldPhotoFileName

  function FieldValue(e: Employee, f: EmployeeField): string
  {
    match f
    case FieldEmployeeName => e.employeeName
    case FieldDepartment => e.department
    case FieldDateOfJoining => e.dateOfJoining
    case FieldPhotoFileName => e.photoFileName
  }

  /** `{...prevDetails, [name]: value}`: the draft with one field replaced. Exactly the
      named field takes the new value; the id and every other field are kept. */
  function SetField(e: Employee, f: EmployeeField, value: string): (r: Employee)
    ensures FieldValue(r, f) == value
    ensures forall g :: g != f ==> FieldValue(r, g) == FieldValue(e, g)
    ensures r.employeeId == e.employeeId
  {
    match f
    case FieldEmployeeName => e.(employeeName := value)
    case FieldDepartment => e.(department := value)
    case FieldDateOfJoining => e.(dateOfJoining := value)
    case FieldPhotoFileName => e.(photoFileName := value)
  }

  /** Two drafts with the same id and the same value in every field are the same draft. */
  lemma FieldsDetermineEmployee(a: Employee, b: Employee)
    requires a.employeeId == b.employeeId
    requires forall f :: FieldValue(a, f) == FieldValue(b, f)
    ensures a == b
  {
    assert FieldValue(a, FieldEmployeeName) == FieldValue(b, FieldEmployeeName);
    assert FieldValue(a, FieldDepartment) == FieldValue(b, FieldDepartment);
    assert FieldValue(a, FieldDateOfJoining) == FieldValue(b, FieldDateOfJoining);
    assert FieldValue(a, FieldPhotoFileName) == FieldValue(b, FieldPhotoFileName);
  }

  /** Setting a field to the value it already has changes nothing; setting it twice
      keeps the last value. */
  lemma SetFieldLaws(e: Employee, f: EmployeeField, v: string, w: string)
    ensures SetField(e, f, FieldValue(e, f)) == e
    ensures SetField(SetField(e, f, v), f, w) == SetField(e, f, w)
  {
  }

  /** A fresh draft: id `0` marks a record not yet created, every text field is empty,
      and the photo is the given default. */
  function NewDraft(defaultPhoto: string): (r: Employee)
    ensures r.employeeId == 0
    ensures r.employeeName == "" && r.department == "" && r.dateOfJoining == ""
    ensures r.photoFileName == defaultPhoto
  {
    Employee(0, "", "", "", defaultPhoto)
  }

  datatype HttpMethod = Post | Put

  /** One `fetch` call: the method, the path after the API base URL, and the body. */
  datatype Request<B> = Request(verb: HttpMethod, path: string, body: B)

  /** The body of a department save: a create carries only the name. */
  datatype DepartmentBody = CreateDepartment(name: string) | UpdateDepartment(id: int, name: string)
}
