/** The computed columns of the Django admin (api/DjangoAPI/EmployeeApp/admin.py): the
    tenure badge, the employee-count link, the member count and the photo cell. The
    HTML around each value is left out; what is modelled is the branch taken and the
    text and colour chosen. Python's `//` and `%` floor; for the positive divisors used
    here they agree with Dafny's `/` and `%` on every integer, negative ones included. */
module Admin {
  import opened JsText

  const Blue: string := "#1976d2"
  const Orange: string := "#ff9800"
  const Green: string := "#4caf50"
  const Purple: string := "#9c27b0"

  /** `tenure.days // 365`. */
  function TenureYears(days: int): int
  {
    days / 365
  }

  /** `(tenure.days % 365) // 30`. */
  function TenureMonths(days: int): int
  {
    (days % 365) / 30
  }

  /** The badge: its text and its colour. */
  datatype Tenure = Tenure(text: string, color: string)

  /** `tenure_display`, given the number of days since joining (negative for a joining
      date in the future). */
  function TenureDisplay(days: int): Tenure
  {
    var years := TenureYears(days);
    var months := TenureMonths(days);
    if years > 0 then Tenure(IntToString(years) + "y " + IntToString(months) + "m", if years >= 2 then Blue else Orange)
    else if months > 0 then Tenure(IntToString(months) + "m", Green)
    else Tenure(IntToString(days) + "d", Purple)
  }

  /** Years and months are floor quotients: the months are between 0 and 12, and the
      days split as whole years, whole months and fewer than 30 days left over. */
  lemma TenureParts(days: int)
    ensures 0 <= TenureMonths(days) <= 12
    ensures var rest := days - 365 * TenureYears(days) - 30 * TenureMonths(days);
      0 <= rest < 30
    ensures 365 * TenureYears(days) <= days < 365 * TenureYears(days) + 365
    ensures TenureMonths(days) == 12 ==> 360 <= days - 365 * TenureYears(days) < 365
  {
    var y, r := days / 365, days % 365;
    assert days == 365 * y + r && 0 <= r < 365;
    var m, d := r / 30, r % 30;
    assert r == 30 * m + d && 0 <= d < 30;
  }

  /** For a joining date in the past, the colour is chosen by the length of service:
      two years or more blue, one year orange, a month or more green, less purple. */
  lemma TenureColors(days: int)
    requires days >= 0
    ensures TenureDisplay(days).color == Blue <==> days >= 730
    ensures TenureDisplay(days).color == Orange <==> 365 <= days < 730
    ensures TenureDisplay(days).color == Green <==> 30 <= days < 365
    ensures TenureDisplay(days).color == Purple <==> days < 30
    ensures days < 30 ==> TenureDisplay(days).text == IntToString(days) + "d"
  {
    TenureParts(days);
  }

  /** The text names the years only when there is at least one; otherwise the months,
      and with no whole month the raw day count. */
  lemma TenureTexts(days: int)
    ensures TenureYears(days) > 0 ==>
      TenureDisplay(days).text == IntToString(TenureYears(days)) + "y " + IntToString(TenureMonths(days)) + "m"
    ensures TenureYears(days) <= 0 && TenureMonths(days) > 0 ==>
      TenureDisplay(days).text == IntToString(TenureMonths(days)) + "m" && TenureDisplay(days).color == Green
    ensures TenureYears(days) <= 0 && TenureMonths(days) <= 0 ==>
      TenureDisplay(days).text == IntToString(days) + "d" && TenureDisplay(days).color == Purple
    ensures TenureYears(days) > 0 ==> days >= 365
  {
    TenureParts(days);
  }

  /** A joining date in the future never shows years: ten days ahead reads as eleven
      months, and a date a whole number of years ahead reads as negative days. */
  lemma FutureJoinDate()
    ensures TenureDisplay(-10) == Tenure("11m", Green)
    ensures TenureDisplay(-365) == Tenure("-365d", Purple)
    ensures forall days :: days < 0 ==> TenureDisplay(days).color in {Green, Purple}
  {
    assert TenureYears(-10) == -1 && TenureMonths(-10) == 11;
    assert NatToString(11) == NatToString(1) + [DigitChar(1)];
    assert TenureYears(-365) == -1 && TenureMonths(-365) == 0;
    assert NatToString(365) == NatToString(36) + [DigitChar(5)];
    assert NatToString(36) == NatToString(3) + [DigitChar(6)];
  }

  /** `'s' if count != 1 else ''`. */
  function Plural(count: int): string
  {
    if count != 1 then "s" else ""
  }

  /** The text of the employee-count link: "👥 {count} Employee{s}". */
  function EmployeeLabel(count: nat): string
  {
    "\U{1F465} " + IntToString(count) + " Employee" + Plural(count)
  }

  /** The text under a department name: "{count} member{s}". */
  function MemberLabel(count: nat): string
  {
    IntToString(count) + " member" + Plural(count)
  }

  /** A label is plural exactly when the count is not one: it then ends in `s`, and
      otherwise in the singular noun. */
  lemma LabelsPlural(count: nat)
    ensures |EmployeeLabel(count)| > 0 && |MemberLabel(count)| > 0
    ensures EmployeeLabel(count)[|EmployeeLabel(count)| - 1] == 's' <==> count != 1
    ensures MemberLabel(count)[|MemberLabel(count)| - 1] == 's' <==> count != 1
  {
  }

  /** The cell of `employee_count`. */
  datatype CountCell = EmployeesLink(url: string, text: string) | NoEmployees

  /** `employee_count`: a link to the employees changelist filtered by the department
      when the department has employees, otherwise "No Employees". `changelistUrl` is
      what `reverse` returns. */
  function EmployeeCount(departmentName: string, count: nat, changelistUrl: string): CountCell
  {
    if count > 0 then EmployeesLink(changelistUrl + "?Department__exact=" + departmentName, EmployeeLabel(count))
    else NoEmployees
  }

  /** The link is shown exactly when there are employees; it filters the changelist by the
      department's name and its label is plural unless there is exactly one. */
  lemma EmployeeCountSpec(departmentName: string, count: nat, changelistUrl: string)
    ensures EmployeeCount(departmentName, count, changelistUrl).EmployeesLink? <==> count > 0
    ensures var c := EmployeeCount(departmentName, count, changelistUrl);
      c.EmployeesLink? ==>
        (c.url[|c.url| - |departmentName|..] == departmentName
         && c.url[..|changelistUrl|] == changelistUrl
         && (c.text[|c.text| - 1] == 's' <==> count != 1))
  {
    LabelsPlural(count);
  }

  /** The photo cell of an employee row. */
  datatype PhotoCell = Image(src: string) | Placeholder

  /** `employee_photo`: the stored photo, unless there is none or it is the default. */
  function EmployeePhoto(photoFileName: string): PhotoCell
  {
    if photoFileName != "" && photoFileName != "anonymous.jpg" then Image("/Photos/" + photoFileName)
    else Placeholder
  }

  /** An image is shown exactly for a stored, non-default file name, and its source is
      that file under `/Photos/`. */
  lemma EmployeePhotoSpec(photoFileName: string)
    ensures EmployeePhoto(photoFileName).Image? <==> photoFileName != "" && photoFileName != "anonymous.jpg"
    ensures var c := EmployeePhoto(photoFileName);
      c.Image? ==> c.src[..8] == "/Photos/" && c.src[8..] == photoFileName
  {
  }
}
