/** The pure helpers of the styled UI (ui/tailwind-project/src/utils/helpers.js):
    search filtering, sorting by a field, image URLs, word capitalisation and the
    e-mail check. */
module Helpers {
  import opened JsText
  import opened Seqs
  import opened Ordering

  /** `APP_CONSTANTS.DEFAULT_PHOTO`. */
  const DefaultPhoto: string := "anonymous.jpg"

  /** A JavaScript value held in a record field. Numbers are integers here. */
  datatype Value = Undefined | Null | Bool(b: bool) | Number(n: int) | Text(s: string)

  /** A record as a map from field name to value; a missing field reads as `undefined`. */
  type Item = map<string, Value>

  function Get(item: Item, field: string): Value
  {
    if field in item then item[field] else Undefined
  }

  /** JavaScript truthiness: `undefined`, `null`, `false`, `0` and `""` are falsy. */
  predicate Truthy(v: Value)
  {
    match v
    case Undefined => false
    case Null => false
    case Bool(b) => b
    case Number(n) => n != 0
    case Text(s) => s != ""
  }

  /** `toString` of a value. */
  function ValueToString(v: Value): string
  {
    match v
    case Undefined => "undefined"
    case Null => "null"
    case Bool(b) => if b then "true" else "false"
    case Number(n) => IntToString(n)
    case Text(s) => s
  }

  /** `item[field] && item[field].toString().toLowerCase().includes(term)`. */
  predicate FieldMatches(item: Item, field: string, term: string)
  {
    Truthy(Get(item, field)) && Includes(Lower(ValueToString(Get(item, field))), term)
  }

  /** `searchFields.some(field => ...)`, scanning the fields in order. */
  predicate AnyFieldMatches(item: Item, fields: seq<string>, term: string)
  {
    if fields == [] then false
    else FieldMatches(item, fields[0], term) || AnyFieldMatches(item, fields[1..], term)
  }

  /** `some` holds exactly when one of the listed fields matches. */
  lemma {:induction false} AnyFieldMatchesIff(item: Item, fields: seq<string>, term: string)
    ensures AnyFieldMatches(item, fields, term) <==> exists i :: 0 <= i < |fields| && FieldMatches(item, fields[i], term)
  {
    if fields != [] {
      AnyFieldMatchesIff(item, fields[1..], term);
      if AnyFieldMatches(item, fields[1..], term) {
        var i :| 0 <= i < |fields[1..]| && FieldMatches(item, fields[1..][i], term);
        assert FieldMatches(item, fields[i + 1], term);
      }
      forall i | 1 <= i < |fields| && FieldMatches(item, fields[i], term)
        ensures AnyFieldMatches(item, fields[1..], term)
      {
        assert fields[1..][i - 1] == fields[i];
      }
    }
  }

  function SearchPredicate(searchTerm: string, searchFields: seq<string>): Item -> bool
  {
    (item: Item) => AnyFieldMatches(item, searchFields, Lower(searchTerm))
  }

  /** `filterBySearch`: an empty term returns the array itself; otherwise the items in
      which some listed field matches the lower-cased term. */
  function FilterBySearch(items: seq<Item>, searchTerm: string, searchFields: seq<string>): seq<Item>
  {
    if searchTerm == "" then items else Filter(items, SearchPredicate(searchTerm, searchFields))
  }

  /** An item is a search hit: some listed field is truthy and its lower-cased string
      contains the lower-cased term. */
  predicate IsHit(item: Item, searchTerm: string, searchFields: seq<string>)
  {
    exists i :: 0 <= i < |searchFields| && FieldMatches(item, searchFields[i], Lower(searchTerm))
  }

  /** The result is the input for an empty term; otherwise it is an order-preserving
      subsequence holding exactly the hits. */
  lemma FilterBySearchSpec(items: seq<Item>, searchTerm: string, searchFields: seq<string>)
    ensures searchTerm == "" ==> FilterBySearch(items, searchTerm, searchFields) == items
    ensures IsSubsequence(FilterBySearch(items, searchTerm, searchFields), items)
    ensures searchTerm != "" ==> forall k :: 0 <= k < |FilterBySearch(items, searchTerm, searchFields)| ==>
      IsHit(FilterBySearch(items, searchTerm, searchFields)[k], searchTerm, searchFields)
    ensures searchTerm != "" ==> forall k :: 0 <= k < |items| && IsHit(items[k], searchTerm, searchFields) ==>
      items[k] in FilterBySearch(items, searchTerm, searchFields)
    ensures searchTerm != "" ==> forall x :: multiset(FilterBySearch(items, searchTerm, searchFields))[x]
                                   == if IsHit(x, searchTerm, searchFields) then multiset(items)[x] else 0
  {
    var r := FilterBySearch(items, searchTerm, searchFields);
    if searchTerm == "" {
      assert IsSubsequence(items, items) by { SubsequenceReflexive(items); }
    } else {
      FilterIsSubsequence(items, SearchPredicate(searchTerm, searchFields));
      forall k | 0 <= k < |r| ensures IsHit(r[k], searchTerm, searchFields) {
        AnyFieldMatchesIff(r[k], searchFields, Lower(searchTerm));
      }
      forall k | 0 <= k < |items| && IsHit(items[k], searchTerm, searchFields) ensures items[k] in r {
        AnyFieldMatchesIff(items[k], searchFields, Lower(searchTerm));
      }
      FilterMultiplicity(items, SearchPredicate(searchTerm, searchFields));
      forall x ensures multiset(r)[x] == if IsHit(x, searchTerm, searchFields) then multiset(items)[x] else 0 {
        AnyFieldMatchesIff(x, searchFields, Lower(searchTerm));
      }
    }
  }

  lemma {:induction false} SubsequenceReflexive<T>(s: seq<T>)
    ensures IsSubsequence(s, s)
  {
    if s != [] {
      SubsequenceReflexive(s[1..]);
    }
  }

  /** The sort key of a field value: a number or a string. */
  function ValueKey(v: Value): Key
  {
    match v
    case Number(n) => Num(n)
    case Text(s) => Str(s)
    // never reached: `SortByField` is applied to fields holding numbers or strings
    case _ => Num(0)
  }

  function FieldKey(field: string): Item -> Key
  {
    (item: Item) => ValueKey(Get(item, field))
  }

  /** JavaScript `a > b` on two numbers or on two strings. */
  predicate ValueGreater(a: Value, b: Value)
  {
    Greater(ValueKey(a), ValueKey(b))
  }

  /** Every item holds a number in `field`, or every item holds a string there. */
  predicate FieldOfOneKind(items: seq<Item>, field: string)
  {
    (forall i :: 0 <= i < |items| ==> Get(items[i], field).Number?)
    || (forall i :: 0 <= i < |items| ==> Get(items[i], field).Text?)
  }

  /** `sortByField`: a sorted copy, the input array is not touched. */
  function SortByField(items: seq<Item>, field: string, ascending: bool): seq<Item>
  {
    SortBy(items, FieldKey(field), ascending)
  }

  /** On a field holding values of one kind, the result is a permutation of the input,
      non-decreasing in the field when ascending and non-increasing when descending,
      and sorting it again changes nothing. */
  lemma SortByFieldSpec(items: seq<Item>, field: string, ascending: bool)
    requires FieldOfOneKind(items, field)
    ensures multiset(SortByField(items, field, ascending)) == multiset(items)
    ensures var r := SortByField(items, field, ascending);
      forall i, j :: 0 <= i < j < |r| ==>
        if ascending then !ValueGreater(Get(r[i], field), Get(r[j], field))
        else !ValueGreater(Get(r[j], field), Get(r[i], field))
    ensures SortByField(SortByField(items, field, ascending), field, ascending) == SortByField(items, field, ascending)
  {
    var key := FieldKey(field);
    assert OneKind(items, key) by {
      if forall i :: 0 <= i < |items| ==> Get(items[i], field).Number? {
        assert forall i :: 0 <= i < |items| ==> key(items[i]).Num?;
      } else {
        assert forall i :: 0 <= i < |items| ==> key(items[i]).Str?;
      }
    }
    SortBySorted(items, key, ascending);
    SortByIdempotent(items, key, ascending);
  }

  /** `getImageUrl`: the file under `baseUrl`, or the default photo when there is no
      file name. */
  function GetImageUrl(filename: string, baseUrl: string): (r: string)
    ensures |r| > |baseUrl| && r[..|baseUrl|] == baseUrl
    ensures filename != "" ==> r[|baseUrl|..] == filename
    ensures filename == "" ==> r[|baseUrl|..] == DefaultPhoto
  {
    if filename == "" then baseUrl + DefaultPhoto else baseUrl + filename
  }

  /** `\w`: an ASCII letter, a digit or `_`. */
  predicate IsWordChar(c: char)
  {
    IsUpperAscii(c) || IsLowerAscii(c) || IsDigit(c) || c == '_'
  }

  /** The length of the run of non-white-space characters at the start of `s`. */
  function RunLength(s: string): (n: nat)
    ensures n <= |s|
    ensures forall i :: 0 <= i < n ==> !IsSpace(s[i])
    ensures n < |s| ==> IsSpace(s[n])
  {
    if s == [] || IsSpace(s[0]) then 0 else 1 + RunLength(s[1..])
  }

  /** `str.replace(/\w\S*\/g, txt => upper(first) + lower(rest))`: each match starts at
      a word character and runs to the next white space. */
  function Capitalize(s: string): (r: string)
    ensures |r| == |s|
  {
    if s == [] then []
    else if IsWordChar(s[0]) then
      var n := RunLength(s);
      [UpperChar(s[0])] + Lower(s[1..n]) + Capitalize(s[n..])
    else [s[0]] + Capitalize(s[1..])
  }

  /** `capitalizeWords`: `''` for a falsy input, otherwise the capitalised string. */
  function CapitalizeWords(str: string): (r: string)
    ensures |r| == |str|
    ensures str == "" ==> r == ""
  {
    if str == "" then "" else Capitalize(str)
  }

  /** A left-to-right scan, the reference for `Capitalize`: outside a word, a word
      character is upper-cased and starts a word; inside a word, characters are
      lower-cased until white space ends it. Everything else is copied. */
  function CapitalizeScan(s: string, inWord: bool): (r: string)
  {
    if s == [] then []
    else if inWord && !IsSpace(s[0]) then [LowerChar(s[0])] + CapitalizeScan(s[1..], true)
    else if !inWord && IsWordChar(s[0]) then [UpperChar(s[0])] + CapitalizeScan(s[1..], true)
    else [s[0]] + CapitalizeScan(s[1..], false)
  }

  /** Inside a word, the scan lower-cases up to the next white space and then goes on
      as outside a word. */
  lemma {:induction false} ScanWordTail(t: string, m: nat)
    requires m <= |t| && (forall i :: 0 <= i < m ==> !IsSpace(t[i])) && (m < |t| ==> IsSpace(t[m]))
    ensures CapitalizeScan(t, true) == Lower(t[..m]) + CapitalizeScan(t[m..], false)
    decreases m
  {
    if m == 0 {
      if t != [] {
        assert !IsWordChar(t[0]);
      }
    } else {
      ScanWordTail(t[1..], m - 1);
      assert t[1..][m - 1..] == t[m..];
      assert Lower(t[..m]) == [LowerChar(t[0])] + Lower(t[1..][..m - 1]);
    }
  }

  /** From outside a word, the scan upper-cases a word character and lower-cases the
      rest of its run. */
  lemma {:induction false} ScanWordStart(s: string)
    requires s != [] && IsWordChar(s[0])
    ensures 1 <= RunLength(s)
    ensures CapitalizeScan(s, false)
      == [UpperChar(s[0])] + Lower(s[1..RunLength(s)]) + CapitalizeScan(s[RunLength(s)..], false)
  {
    var n := RunLength(s);
    assert CapitalizeScan(s, false) == [UpperChar(s[0])] + CapitalizeScan(s[1..], true);
    ScanWordTail(s[1..], n - 1);
    assert s[1..][..n - 1] == s[1..n];
    assert s[1..][n - 1..] == s[n..];
  }

  /** The regular-expression replacement and the scan agree on every string. */
  lemma {:induction false} CapitalizeIsScan(s: string)
    ensures Capitalize(s) == CapitalizeScan(s, false)
    decreases |s|
  {
    if s != [] {
      if IsWordChar(s[0]) {
        ScanWordStart(s);
        CapitalizeIsScan(s[RunLength(s)..]);
      } else {
        CapitalizeIsScan(s[1..]);
      }
    }
  }

  /** `[^\s@]+`: a non-empty run without white space and without `@`. */
  predicate PlainRun(t: string)
  {
    |t| > 0 && forall k :: 0 <= k < |t| ==> !IsSpace(t[k]) && t[k] != '@'
  }

  /** `email` splits as `local@domain.tld` at the `@` index `at` and the `.` index `dot`,
      each part matching `[^\s@]+`. */
  predicate EmailShape(email: string, at: nat, dot: nat)
  {
    at < dot < |email|
    && PlainRun(email[..at]) && email[at] == '@'
    && PlainRun(email[at + 1..dot]) && email[dot] == '.'
    && PlainRun(email[dot + 1..])
  }

  /** `isValidEmail`: `/^[^\s@]+@[^\s@]+\.[^\s@]+$/.test(email)`. */
  predicate IsValidEmail(email: string)
  {
    exists at: nat, dot: nat :: at < dot < |email| && EmailShape(email, at, dot)
  }

  /** No white space, exactly one `@`, not at the front, and a `.` after the `@` with at
      least one character on each side. */
  predicate EmailConditions(email: string)
  {
    (forall k :: 0 <= k < |email| ==> !IsSpace(email[k]))
    && (exists at :: 0 < at < |email| && SoleAt(email, at) && DotAfter(email, at))
  }

  /** `at` is the only index of `email` holding `@`. */
  predicate SoleAt(email: string, at: int)
  {
    0 <= at < |email| && email[at] == '@' && forall k :: 0 <= k < |email| && k != at ==> email[k] != '@'
  }

  /** Some `.` lies after index `at + 1` and before the last character. */
  predicate DotAfter(email: string, at: int)
  {
    0 <= at && exists dot :: at + 1 < dot < |email| - 1 && email[dot] == '.'
  }

  /** The pattern holds exactly when those conditions do. */
  lemma IsValidEmailIff(email: string)
    ensures IsValidEmail(email) <==> EmailConditions(email)
  {
    if IsValidEmail(email) {
      var at: nat, dot: nat :| at < dot < |email| && EmailShape(email, at, dot);
      forall k | 0 <= k < |email| && k != at
        ensures !IsSpace(email[k]) && email[k] != '@'
      {
        if k < at {
          assert email[..at][k] == email[k];
        } else if k < dot {
          assert email[at + 1..dot][k - at - 1] == email[k];
        } else if k > dot {
          assert email[dot + 1..][k - dot - 1] == email[k];
        }
      }
      assert SoleAt(email, at) && DotAfter(email, at);
    }
    if EmailConditions(email) {
      var at :| 0 < at < |email| && SoleAt(email, at) && DotAfter(email, at);
      var dot :| at + 1 < dot < |email| - 1 && email[dot] == '.';
      assert EmailShape(email, at, dot);
    }
  }

  /** Concrete cases of the check. */
  lemma EmailExamples()
    ensures IsValidEmail("a@b.c")
    ensures !IsValidEmail("a@b")
    ensures !IsValidEmail("@b.c")
    ensures !IsValidEmail("a@.c")
    ensures !IsValidEmail("a b@c.d")
  {
    assert EmailShape("a@b.c", 1, 3);
    IsValidEmailIff("a@b");
    IsValidEmailIff("@b.c");
    IsValidEmailIff("a@.c");
    IsValidEmailIff("a b@c.d");
    assert IsSpace("a b@c.d"[1]);
  }
}
