/** The comparator the screens and `sortByField` pass to `Array#sort`, and the sort
    itself. JavaScript's `Array#sort` is stable, so it is modelled as a stable insertion
    sort: the result is the unique stable ordering the comparator allows. */
module Ordering {

  /** A sort key: a number or a string (the values of `DepartmentId`, `DepartmentName`,
      or of a record field handed to `sortByField`). */
  datatype Key = Num(n: int) | Str(s: string)

  /** JavaScript `a < b` on two strings: lexicographic order on characters, a proper
      prefix coming first. */
  predicate StrLess(a: string, b: string)
    decreases |a|
  {
    if |b| == 0 then false
    else if |a| == 0 then true
    else if a[0] != b[0] then a[0] < b[0]
    else StrLess(a[1..], b[1..])
  }

  lemma {:induction false} StrLessIrreflexive(a: string)
    ensures !StrLess(a, a)
    decreases |a|
  {
    if |a| > 0 {
      StrLessIrreflexive(a[1..]);
    }
  }

  lemma {:induction false} StrLessTransitive(a: string, b: string, c: string)
    requires StrLess(a, b) && StrLess(b, c)
    ensures StrLess(a, c)
    decreases |a|
  {
    if |a| > 0 && a[0] == b[0] && b[0] == c[0] {
      StrLessTransitive(a[1..], b[1..], c[1..]);
    }
  }

  /** Two different strings are ordered one way or the other. */
  lemma {:induction false} StrLessTotal(a: string, b: string)
    ensures a == b || StrLess(a, b) || StrLess(b, a)
    decreases |a|
  {
    if |a| > 0 && |b| > 0 && a[0] == b[0] {
      StrLessTotal(a[1..], b[1..]);
      if a[1..] == b[1..] {
        assert a == [a[0]] + a[1..] && b == [b[0]] + b[1..];
      }
    }
  }

  lemma StrLessAsymmetric(a: string, b: string)
    ensures !(StrLess(a, b) && StrLess(b, a))
  {
    if StrLess(a, b) && StrLess(b, a) {
      StrLessTransitive(a, b, a);
      StrLessIrreflexive(a);
    }
  }

  /** JavaScript `a > b` on two numbers or on two strings. Keys of different kinds
      are never compared: every caller sorts keys of one kind. */
  predicate Greater(a: Key, b: Key)
  {
    match (a, b)
    case (Num(x), Num(y)) => x > y
    case (Str(x), Str(y)) => StrLess(y, x)
    case _ => false
  }

  /** The comparator `(a, b) => a > b ? 1 : a < b ? -1 : 0` (ascending) and
      `(a, b) => b > a ? 1 : b < a ? -1 : 0` (descending). */
  function Compare(a: Key, b: Key, ascending: bool): int
  {
    if ascending then (if Greater(a, b) then 1 else if Greater(b, a) then -1 else 0)
    else (if Greater(b, a) then 1 else if Greater(a, b) then -1 else 0)
  }

  predicate SameKind(a: Key, b: Key)
  {
    a.Num? == b.Num?
  }

  /** On keys of one kind the comparator is a three-way comparison: zero only for equal
      keys, antisymmetric, and descending is ascending with its arguments swapped. */
  lemma CompareThreeWay(a: Key, b: Key, ascending: bool)
    requires SameKind(a, b)
    ensures Compare(a, b, ascending) in {-1, 0, 1}
    ensures Compare(a, b, ascending) == 0 <==> a == b
    ensures Compare(a, b, ascending) == -Compare(b, a, ascending)
    ensures Compare(a, b, false) == Compare(b, a, true)
  {
    if a.Str? {
      StrLessTotal(a.s, b.s);
      StrLessAsymmetric(a.s, b.s);
      StrLessIrreflexive(a.s);
    }
  }

  /** `a` may stand before `b` in the sorted result. */
  predicate InOrder(a: Key, b: Key, ascending: bool)
  {
    Compare(a, b, ascending) <= 0
  }

  lemma InOrderFlip(a: Key, b: Key, ascending: bool)
    ensures !InOrder(a, b, ascending) ==> InOrder(b, a, ascending)
  {
    if a.Str? && b.Str? {
      StrLessAsymmetric(a.s, b.s);
    }
  }

  lemma InOrderTransitive(a: Key, b: Key, c: Key, ascending: bool)
    requires SameKind(a, b) && SameKind(b, c)
    requires InOrder(a, b, ascending) && InOrder(b, c, ascending)
    ensures InOrder(a, c, ascending)
  {
    if a.Str? {
      StrLessTotal(a.s, b.s);
      StrLessTotal(b.s, c.s);
      StrLessTotal(a.s, c.s);
      StrLessAsymmetric(a.s, b.s);
      StrLessAsymmetric(b.s, c.s);
      StrLessAsymmetric(a.s, c.s);
      if StrLess(a.s, b.s) && StrLess(b.s, c.s) { StrLessTransitive(a.s, b.s, c.s); }
      if StrLess(c.s, b.s) && StrLess(b.s, a.s) { StrLessTransitive(c.s, b.s, a.s); }
    }
  }

  /** Every element of `s` has a key of one kind: all numbers or all strings. */
  predicate OneKind<T>(s: seq<T>, key: T -> Key)
  {
    (forall i :: 0 <= i < |s| ==> key(s[i]).Num?) || (forall i :: 0 <= i < |s| ==> key(s[i]).Str?)
  }

  /** `s` is ordered by the comparator: ascending, non-decreasing keys; descending,
      non-increasing keys. */
  predicate Sorted<T>(s: seq<T>, key: T -> Key, ascending: bool)
  {
    forall i, j :: 0 <= i < j < |s| ==> InOrder(key(s[i]), key(s[j]), ascending)
  }

  /** Inserts `x` in front of the first element it does not sort after; `x` stood
      before every element of `r` in the input, so ties keep their input order. */
  function Insert<T>(x: T, r: seq<T>, key: T -> Key, ascending: bool): (q: seq<T>)
    ensures multiset(q) == multiset(r) + multiset{x}
    ensures |q| == |r| + 1
  {
    if r == [] then [x]
    else if InOrder(key(x), key(r[0]), ascending) then [x] + r
    else
      assert r == [r[0]] + r[1..];
      [r[0]] + Insert(x, r[1..], key, ascending)
  }

  /** `[...s].sort(comparator)`: a stable sort of a copy of `s`. */
  function SortBy<T>(s: seq<T>, key: T -> Key, ascending: bool): (r: seq<T>)
    ensures multiset(r) == multiset(s)
    ensures |r| == |s|
  {
    if s == [] then []
    else
      assert s == [s[0]] + s[1..];
      Insert(s[0], SortBy(s[1..], key, ascending), key, ascending)
  }

  /** Every key in `s` is a number (`num`) or every key is a string (`!num`). */
  predicate KeysOfKind<T>(s: seq<T>, key: T -> Key, num: bool)
  {
    forall i :: 0 <= i < |s| ==> key(s[i]).Num? == num
  }

  lemma SortedCons<T>(a: T, t: seq<T>, key: T -> Key, ascending: bool)
    requires Sorted(t, key, ascending)
    requires forall j :: 0 <= j < |t| ==> InOrder(key(a), key(t[j]), ascending)
    ensures Sorted([a] + t, key, ascending)
  {
    var q := [a] + t;
    forall i, j | 0 <= i < j < |q|
      ensures InOrder(key(q[i]), key(q[j]), ascending)
    {
      if i > 0 {
        assert q[i] == t[i - 1] && q[j] == t[j - 1];
      }
    }
  }

  lemma {:induction false} InsertMembers<T>(x: T, r: seq<T>, key: T -> Key, ascending: bool)
    ensures forall j :: 0 <= j < |Insert(x, r, key, ascending)| ==>
      Insert(x, r, key, ascending)[j] == x || Insert(x, r, key, ascending)[j] in r
    decreases |r|
  {
    if r != [] && !InOrder(key(x), key(r[0]), ascending) {
      InsertMembers(x, r[1..], key, ascending);
    }
  }

  lemma {:induction false} InsertSorted<T>(x: T, r: seq<T>, key: T -> Key, ascending: bool, num: bool)
    requires Sorted(r, key, ascending)
    requires KeysOfKind(r, key, num) && key(x).Num? == num
    ensures Sorted(Insert(x, r, key, ascending), key, ascending)
    decreases |r|
  {
    if r == [] {
    } else if InOrder(key(x), key(r[0]), ascending) {
      forall j | 0 <= j < |r|
        ensures InOrder(key(x), key(r[j]), ascending)
      {
        if j > 0 {
          InOrderTransitive(key(x), key(r[0]), key(r[j]), ascending);
        }
      }
      SortedCons(x, r, key, ascending);
    } else {
      InOrderFlip(key(x), key(r[0]), ascending);
      InsertSorted(x, r[1..], key, ascending, num);
      var t := Insert(x, r[1..], key, ascending);
      InsertMembers(x, r[1..], key, ascending);
      forall j | 0 <= j < |t|
        ensures InOrder(key(r[0]), key(t[j]), ascending)
      {
        if t[j] != x {
          var k :| 0 <= k < |r[1..]| && r[1..][k] == t[j];
          assert r[k + 1] == t[j];
        }
      }
      SortedCons(r[0], t, key, ascending);
    }
  }

  /** When all keys are of one kind, the result is ordered by the comparator. */
  lemma {:induction false} SortBySorted<T>(s: seq<T>, key: T -> Key, ascending: bool)
    requires OneKind(s, key)
    ensures Sorted(SortBy(s, key, ascending), key, ascending)
  {
    var num := s != [] && key(s[0]).Num?;
    SortBySortedOfKind(s, key, ascending, num);
  }

  lemma {:induction false} SortBySortedOfKind<T>(s: seq<T>, key: T -> Key, ascending: bool, num: bool)
    requires KeysOfKind(s, key, num)
    ensures Sorted(SortBy(s, key, ascending), key, ascending)
    ensures KeysOfKind(SortBy(s, key, ascending), key, num)
    decreases |s|
  {
    if s != [] {
      assert KeysOfKind(s[1..], key, num) by {
        forall i | 0 <= i < |s[1..]| ensures s[1..][i] == s[i + 1] { }
      }
      SortBySortedOfKind(s[1..], key, ascending, num);
      var t := SortBy(s[1..], key, ascending);
      InsertSorted(s[0], t, key, ascending, num);
      InsertMembers(s[0], t, key, ascending);
      var q := Insert(s[0], t, key, ascending);
      forall j | 0 <= j < |q| ensures key(q[j]).Num? == num {
        if q[j] != s[0] {
          var k :| 0 <= k < |t| && t[k] == q[j];
        }
      }
    }
  }

  /** Sorting a sequence that is already ordered leaves it as it is (stability). */
  lemma {:induction false} SortByOfSorted<T>(s: seq<T>, key: T -> Key, ascending: bool)
    requires Sorted(s, key, ascending)
    ensures SortBy(s, key, ascending) == s
    decreases |s|
  {
    if s != [] {
      assert Sorted(s[1..], key, ascending) by {
        forall i, j | 0 <= i < j < |s[1..]|
          ensures InOrder(key(s[1..][i]), key(s[1..][j]), ascending)
        {
          assert s[1..][i] == s[i + 1] && s[1..][j] == s[j + 1];
        }
      }
      SortByOfSorted(s[1..], key, ascending);
      assert s == [s[0]] + s[1..];
    }
  }

  /** Sorting twice by the same comparator gives what sorting once gave. */
  lemma SortByIdempotent<T>(s: seq<T>, key: T -> Key, ascending: bool)
    requires OneKind(s, key)
    ensures SortBy(SortBy(s, key, ascending), key, ascending) == SortBy(s, key, ascending)
  {
    SortBySorted(s, key, ascending);
    SortByOfSorted(SortBy(s, key, ascending), key, ascending);
  }
}
