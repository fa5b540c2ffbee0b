/** The Department screen of the original UI (ui/my-app/src/Department.js). Like the
    styled screen it keeps the list as fetched (`departmentsWithoutFilter`) and the rows
    on screen (`departments`), but its two filters are always applied together, its
    filter handlers read the filter values from before the keystroke, and a save always
    goes to the `department` path. */
module LegacyDepartmentPage {
  import opened Wrappers
  import opened JsText
  import opened Seqs
  import opened Records
  import DepartmentPage

  /** `filterFn`'s test: the lower-cased id string contains the lower-cased, trimmed id
      filter, and the lower-cased name contains the lower-cased, trimmed name filter. */
  function LegacyMatches(idFilter: string, nameFilter: string): Department -> bool
  {
    (d: Department) =>
      Includes(Lower(IntToString(d.departmentId)), Trim(Lower(idFilter)))
      && Includes(Lower(d.departmentName), Trim(Lower(nameFilter)))
  }

  /** The rows `filterFn` computes for the given filter values. */
  function LegacyFilter(canonical: seq<Department>, idFilter: string, nameFilter: string): seq<Department>
  {
    Filter(canonical, LegacyMatches(idFilter, nameFilter))
  }

  /** The filtered rows are fetched rows in fetched order, each passing both tests; every
      fetched row passing both is kept, as often as it was fetched; blank filters keep
      the whole list. */
  lemma LegacyFilterSpec(canonical: seq<Department>, idFilter: string, nameFilter: string)
    ensures IsSubsequence(LegacyFilter(canonical, idFilter, nameFilter), canonical)
    ensures forall k :: 0 <= k < |LegacyFilter(canonical, idFilter, nameFilter)| ==>
      LegacyMatches(idFilter, nameFilter)(LegacyFilter(canonical, idFilter, nameFilter)[k])
    ensures forall k :: 0 <= k < |canonical| && LegacyMatches(idFilter, nameFilter)(canonical[k]) ==>
      canonical[k] in LegacyFilter(canonical, idFilter, nameFilter)
    ensures forall d :: multiset(LegacyFilter(canonical, idFilter, nameFilter))[d]
              == if LegacyMatches(idFilter, nameFilter)(d) then multiset(canonical)[d] else 0
    ensures Trim(idFilter) == "" && Trim(nameFilter) == "" ==> LegacyFilter(canonical, idFilter, nameFilter) == canonical
  {
    var p := LegacyMatches(idFilter, nameFilter);
    FilterIsSubsequence(canonical, p);
    FilterMultiplicity(canonical, p);
    if Trim(idFilter) == "" && Trim(nameFilter) == "" {
      TrimLowerBlank(idFilter);
      TrimLowerBlank(nameFilter);
      forall k | 0 <= k < |canonical| ensures p(canonical[k]) {
        IncludesEmpty(Lower(IntToString(canonical[k].departmentId)));
        IncludesEmpty(Lower(canonical[k].departmentName));
      }
      FilterAllTrue(canonical, p);
    }
  }

  /** Lower-casing keeps white space and only changes letters, so a string is blank
      after `trim` exactly when its lower-cased form is. */
  lemma TrimLowerBlank(s: string)
    ensures Trim(Lower(s)) == "" <==> Trim(s) == ""
  {
    TrimEmpty(s);
    TrimEmpty(Lower(s));
    assert forall i :: 0 <= i < |s| ==> (IsSpace(Lower(s)[i]) <==> IsSpace(s[i]));
  }

  /** A decimal numeral has no capital letters, so lower-casing leaves it alone. */
  lemma LowerOfNumeral(n: int)
    ensures Lower(IntToString(n)) == IntToString(n)
  {
    NatToStringDecimal(if n < 0 then -n else n);
    var s := IntToString(n);
    forall i | 0 <= i < |s| ensures !IsUpperAscii(s[i]) {
      if n < 0 && i > 0 {
        assert s[i] == NatToString(-n)[i - 1];
      }
    }
  }

  /** A filter of digits is unchanged by lower-casing and trimming. */
  lemma DigitFilterUnchanged(idFilter: string)
    requires AllDigits(idFilter)
    ensures Trim(Lower(idFilter)) == idFilter
  {
    assert Lower(idFilter) == idFilter;
    TrimNoSpace(idFilter);
  }

  /** Whenever the id filter holds only digits -- which the styled screen enforces --
      the original filter keeps the same rows as the styled screen's `filterFn`, whose
      blank filters are skipped rather than matched. */
  lemma LegacyAgreesWithStyled(canonical: seq<Department>, idFilter: string, nameFilter: string)
    requires AllDigits(idFilter)
    ensures LegacyFilter(canonical, idFilter, nameFilter) == DepartmentPage.FilterDepartments(canonical, idFilter, nameFilter)
  {
    var legacy := LegacyMatches(idFilter, nameFilter);
    var styled := DepartmentPage.ShownBy(idFilter, nameFilter);
    DigitFilterUnchanged(idFilter);
    DepartmentPage.DigitFilterNeedsNoTrim(idFilter);
    TrimLowerBlank(nameFilter);
    forall d: Department ensures legacy(d) == styled(d) {
      LowerOfNumeral(d.departmentId);
      IncludesEmpty(IntToString(d.departmentId));
      IncludesEmpty(Lower(d.departmentName));
      assert legacy(d) == (Includes(IntToString(d.departmentId), idFilter)
        && Includes(Lower(d.departmentName), Trim(Lower(nameFilter))));
    }
    DepartmentPage.FilterSamePredicate(canonical, legacy, styled);
    DepartmentPage.FilterDepartmentsIsOneFilter(canonical, idFilter, nameFilter);
  }

  /** What the create or update button sends: a POST of the name when the id is the
      unsaved sentinel `0`, otherwise a PUT of id and name; both to `department`. */
  function LegacySaveRequest(departmentId: int, departmentName: string): Request<DepartmentBody>
  {
    if departmentId == 0 then Request(Post, "department", CreateDepartment(departmentName))
    else Request(Put, "department", UpdateDepartment(departmentId, departmentName))
  }

  /** The original screen creates exactly the drafts with id `0`, always to the one
      `department` path, and carries the id in the body of an update. For a name that
      is not blank it sends the same method and body as the styled screen, which puts
      the id of an update in the path instead. */
  lemma LegacySaveRequestSpec(departmentId: int, departmentName: string)
    ensures LegacySaveRequest(departmentId, departmentName).verb == Post <==> departmentId == 0
    ensures LegacySaveRequest(departmentId, departmentName).path == "department"
    ensures departmentId != 0 ==> LegacySaveRequest(departmentId, departmentName).body.id == departmentId
    ensures var styled := DepartmentPage.DepartmentSaveRequest(departmentId, departmentName);
      styled.Some? ==>
        styled.value.verb == LegacySaveRequest(departmentId, departmentName).verb
        && styled.value.body == LegacySaveRequest(departmentId, departmentName).body
  {
  }

  /** Typing "I" into the blank name filter over the departments HR and IT still shows
      both: the handler filters with the value from before the keystroke. The next
      keystroke's handler would use "I". */
  lemma FilterLagsOneKeystroke()
    ensures var canonical := [Department(1, "HR"), Department(2, "IT")];
      LegacyFilter(canonical, "", "") == canonical
      && LegacyFilter(canonical, "", "I") == [Department(2, "IT")]
  {
    var hr, it := Department(1, "HR"), Department(2, "IT");
    var canonical := [hr, it];
    LegacyFilterSpec(canonical, "", "");
    var p := LegacyMatches("", "I");
    assert Trim(Lower("")) == "" && Trim(Lower("I")) == "i" by {
      assert Lower("I") == "i";
      TrimNoSpace("i");
    }
    IncludesEmpty(Lower(IntToString(1)));
    IncludesEmpty(Lower(IntToString(2)));
    assert Lower("HR") == "hr" && Lower("IT") == "it";
    assert !p(hr) by {
      assert "hr"[..1] == "h" && "hr"[1..][..1] == "r" && "hr"[1..][1..] == "";
      assert "h"[0] != "i"[0] && "r"[0] != "i"[0];
    }
    assert p(it) by {
      assert "it"[..1] == "i";
    }
    assert canonical[1..] == [it] && [it][1..] == [];
    assert Filter([it], p) == [it] + Filter([], p);
  }

  class LegacyDepartmentScreen {
    /** The rows on screen. */
    var departments: seq<Department>
    /** The list as last fetched. */
    var departmentsWithoutFilter: seq<Department>
    var departmentIdFilter: string
    var departmentNameFilter: string
    /** The edit draft; id `0` marks a department not yet created. */
    var departmentId: int
    var departmentName: string

    /** Every row on screen comes from the fetched list, no more often than fetched. */
    ghost predicate Valid()
      reads this
    {
      multiset(departments) <= multiset(departmentsWithoutFilter)
    }

    constructor ()
      ensures Valid()
      ensures departments == [] && departmentsWithoutFilter == []
      ensures departmentIdFilter == "" && departmentNameFilter == ""
      ensures departmentId == 0 && departmentName == ""
    {
      departments := [];
      departmentsWithoutFilter := [];
      departmentIdFilter := "";
      departmentNameFilter := "";
      departmentId := 0;
      departmentName := "";
    }

    /** `refreshList`: on success both lists take the fetched data, unfiltered whatever
        the filter inputs hold; on failure (only logged) nothing changes. */
    method RefreshList(response: Option<seq<Department>>)
      requires Valid()
      modifies this`departments, this`departmentsWithoutFilter
      ensures Valid()
      ensures response.Some? ==> departments == response.value && departmentsWithoutFilter == response.value
      ensures response.None? ==>
        departments == old(departments) && departmentsWithoutFilter == old(departmentsWithoutFilter)
    {
      if response.Some? {
        departments := response.value;
        departmentsWithoutFilter := response.value;
      }
    }

    /** The id filter's `onChange`: stores the value typed, then runs `filterFn`, which
        still sees the id filter from before the keystroke. */
    method OnIdFilterInput(value: string)
      requires Valid()
      modifies this`departmentIdFilter, this`departments
      ensures Valid()
      ensures departmentIdFilter == value
      ensures departments == LegacyFilter(departmentsWithoutFilter, old(departmentIdFilter), departmentNameFilter)
    {
      var staleId, staleName := departmentIdFilter, departmentNameFilter;
      departmentIdFilter := value;
      FilterFn(staleId, staleName);
    }

    /** The name filter's `onChange`, with the same stale read of the name filter. */
    method OnNameFilterInput(value: string)
      requires Valid()
      modifies this`departmentNameFilter, this`departments
      ensures Valid()
      ensures departmentNameFilter == value
      ensures departments == LegacyFilter(departmentsWithoutFilter, departmentIdFilter, old(departmentNameFilter))
    {
      var staleId, staleName := departmentIdFilter, departmentNameFilter;
      departmentNameFilter := value;
      FilterFn(staleId, staleName);
    }

    /** `filterFn` with the filter values its closure captured. */
    method FilterFn(idFilter: string, nameFilter: string)
      requires Valid()
      modifies this`departments
      ensures Valid()
      ensures departments == LegacyFilter(departmentsWithoutFilter, idFilter, nameFilter)
    {
      departments := LegacyFilter(departmentsWithoutFilter, idFilter, nameFilter);
      LegacyFilterSpec(departmentsWithoutFilter, idFilter, nameFilter);
      SubsequenceSubMultiset(departments, departmentsWithoutFilter);
    }

    /** `sortResult`: the same sort of the fetched list as on the styled screen. */
    method SortResult(prop: DepartmentPage.DepartmentProp, ascending: bool)
      requires Valid()
      modifies this`departments
      ensures Valid()
      ensures departments == DepartmentPage.SortDepartments(departmentsWithoutFilter, prop, ascending)
    {
      departments := DepartmentPage.SortDepartments(departmentsWithoutFilter, prop, ascending);
    }

    /** `handleAddClick`: an empty draft with the unsaved id `0`, which a save creates. */
    method HandleAddClick()
      modifies this`departmentId, this`departmentName
      ensures departmentId == 0 && departmentName == ""
      ensures LegacySaveRequest(departmentId, departmentName).verb == Post
    {
      departmentId := 0;
      departmentName := "";
    }

    /** `handleEditClick`: the draft takes the clicked department's id and name. */
    method HandleEditClick(dep: Department)
      modifies this`departmentId, this`departmentName
      ensures departmentId == dep.departmentId && departmentName == dep.departmentName
    {
      departmentId := dep.departmentId;
      departmentName := dep.departmentName;
    }

    /** The name input's `onChange`. */
    method SetDepartmentName(value: string)
      modifies this`departmentName
      ensures departmentName == value
    {
      departmentName := value;
    }

    /** `handleCreateClick` or `handleUpdateClick`, as the draft's id selects: sends the
        draft and returns the request sent. `saved` is whether the server answered; only
        then is the list fetched again (`refreshed`). The draft is never changed. */
    method HandleSaveClick(saved: bool, refreshed: Option<seq<Department>>) returns (request: Request<DepartmentBody>)
      requires Valid()
      modifies this`departments, this`departmentsWithoutFilter
      ensures Valid()
      ensures request == LegacySaveRequest(departmentId, departmentName)
      ensures saved && refreshed.Some? ==> departments == refreshed.value && departmentsWithoutFilter == refreshed.value
      ensures !saved || refreshed.None? ==>
        departments == old(departments) && departmentsWithoutFilter == old(departmentsWithoutFilter)
    {
      if departmentId == 0 {
        request := Request(Post, "department", CreateDepartment(departmentName));
      } else {
        request := Request(Put, "department", UpdateDepartment(departmentId, departmentName));
      }
      if saved {
        RefreshList(refreshed);
      }
    }
  }
}
