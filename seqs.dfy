/** Sequence operations the list screens are built from: `Array#filter`, and the
    two `splice` calls of a drag-and-drop move. */
module Seqs {

  /** `r` is an order-preserving subsequence of `s`: it is `s` with some elements deleted. */
  predicate IsSubsequence<T(==)>(r: seq<T>, s: seq<T>)
    decreases |s|
  {
    if r == [] then true
    else if s == [] then false
    else (r[0] == s[0] && IsSubsequence(r[1..], s[1..])) || IsSubsequence(r, s[1..])
  }

  /** The number of elements of `s` that satisfy `p`. */
  function Count<T>(s: seq<T>, p: T -> bool): nat
  {
    if s == [] then 0 else (if p(s[0]) then 1 else 0) + Count(s[1..], p)
  }

  /** `Array#filter`: the elements of `s` that satisfy `p`, in their order. */
  function Filter<T>(s: seq<T>, p: T -> bool): (r: seq<T>)
    ensures forall i :: 0 <= i < |r| ==> p(r[i])
    ensures |r| == Count(s, p) && |r| <= |s|
  {
    if s == [] then []
    else if p(s[0]) then [s[0]] + Filter(s[1..], p)
    else Filter(s[1..], p)
  }

  /** The filtered list is a subsequence of `s`, and holds every element of `s` that
      satisfies `p` -- with the length and the predicate, these fix it uniquely. */
  lemma {:induction false} FilterIsSubsequence<T>(s: seq<T>, p: T -> bool)
    ensures IsSubsequence(Filter(s, p), s)
    ensures forall i :: 0 <= i < |Filter(s, p)| ==> Filter(s, p)[i] in s
    ensures forall i :: 0 <= i < |s| && p(s[i]) ==> s[i] in Filter(s, p)
  {
    if s != [] {
      FilterIsSubsequence(s[1..], p);
      var r := Filter(s, p);
      forall i | 0 <= i < |r| ensures r[i] in s {
        if p(s[0]) && i == 0 {
        } else {
          var k := if p(s[0]) then i - 1 else i;
          assert r[i] == Filter(s[1..], p)[k];
          assert r[i] in s[1..];
        }
      }
      forall i | 0 <= i < |s| && p(s[i]) ensures s[i] in r {
        if i > 0 {
          assert s[i] == s[1..][i - 1];
        }
      }
    }
  }

  /** The filtered list holds each value that satisfies `p` exactly as often as `s`
      does, and no other value; with `IsSubsequence` this fixes it uniquely. */
  lemma {:induction false} FilterMultiplicity<T>(s: seq<T>, p: T -> bool)
    ensures forall x :: multiset(Filter(s, p))[x] == if p(x) then multiset(s)[x] else 0
  {
    if s != [] {
      FilterMultiplicity(s[1..], p);
      assert s == [s[0]] + s[1..];
      assert multiset(s) == multiset{s[0]} + multiset(s[1..]);
      if p(s[0]) {
        assert multiset(Filter(s, p)) == multiset{s[0]} + multiset(Filter(s[1..], p));
      }
    }
  }

  lemma {:induction false} FilterAllTrue<T>(s: seq<T>, p: T -> bool)
    requires forall i :: 0 <= i < |s| ==> p(s[i])
    ensures Filter(s, p) == s
  {
    if s != [] {
      FilterAllTrue(s[1..], p);
    }
  }

  /** Filtering by `p` and then by `q` is filtering once by their conjunction. */
  lemma {:induction false} FilterThenFilter<T>(s: seq<T>, p: T -> bool, q: T -> bool, pq: T -> bool)
    requires forall x :: pq(x) == (p(x) && q(x))
    ensures Filter(Filter(s, p), q) == Filter(s, pq)
  {
    if s != [] {
      FilterThenFilter(s[1..], p, q, pq);
      if p(s[0]) {
        assert Filter(s, p) == [s[0]] + Filter(s[1..], p);
        assert Filter(s, p)[1..] == Filter(s[1..], p);
      }
    }
  }

  /** Filtering twice by the same predicate is filtering once. */
  lemma {:induction false} FilterIdempotent<T>(s: seq<T>, p: T -> bool)
    ensures Filter(Filter(s, p), p) == Filter(s, p)
  {
    FilterAllTrue(Filter(s, p), p);
  }

  /** A subsequence holds no element more often than the sequence does. */
  lemma {:induction false} SubsequenceSubMultiset<T>(r: seq<T>, s: seq<T>)
    requires IsSubsequence(r, s)
    ensures multiset(r) <= multiset(s)
    decreases |s|
  {
    if r != [] {
      assert s != [];
      if r[0] == s[0] && IsSubsequence(r[1..], s[1..]) {
        SubsequenceSubMultiset(r[1..], s[1..]);
        assert r == [r[0]] + r[1..];
        assert s == [s[0]] + s[1..];
      } else {
        SubsequenceSubMultiset(r, s[1..]);
        assert s == [s[0]] + s[1..];
      }
    }
  }

  /** Filtering distributes over concatenation. */
  lemma {:induction false} FilterAppend<T>(a: seq<T>, b: seq<T>, p: T -> bool)
    ensures Filter(a + b, p) == Filter(a, p) + Filter(b, p)
  {
    if a == [] {
      assert a + b == b;
    } else {
      assert (a + b)[0] == a[0];
      assert (a + b)[1..] == a[1..] + b;
      FilterAppend(a[1..], b, p);
    }
  }

  /** The index in `s` of the `k`-th element that satisfies `p`: the row of the full list
      shown at row `k` of the filtered list. */
  function Position<T>(s: seq<T>, p: T -> bool, k: nat): (i: nat)
    requires k < Count(s, p)
    ensures i < |s| && p(s[i])
    ensures Count(s[..i], p) == k
    ensures Filter(s, p)[k] == s[i]
  {
    if p(s[0]) && k == 0 then
      assert s[..0] == [];
      0
    else
      var k' := if p(s[0]) then k - 1 else k;
      var j := Position(s[1..], p, k');
      assert s[..j + 1][1..] == s[1..][..j];
      assert s[..j + 1] == [s[0]] + s[1..][..j];
      FilterAppend([s[0]], s[1..], p);
      assert s == [s[0]] + s[1..];
      j + 1
  }

  /** Moving the element after `a` to just after `b` of the rest, and back. */
  lemma MovedPastBlock<T>(a: seq<T>, x: T, b: seq<T>, c: seq<T>)
    requires b != []
    ensures Moved(a + [x] + b + c, |a|, |a| + |b|) == a + b + [x] + c
    ensures Moved(a + b + [x] + c, |a| + |b|, |a|) == a + [x] + b + c
  {
    var s := a + [x] + b + c;
    assert s[..|a|] == a && s[|a| + 1..] == b + c;
    var t := a + b + [x] + c;
    assert t[..|a| + |b|] == a + b && t[|a| + |b| + 1..] == c;
  }

  lemma FilterSingleton<T>(x: T, p: T -> bool)
    ensures Filter([x], p) == if p(x) then [x] else []
  {
    assert [x][1..] == [];
  }

  /** Filtering three pieces. */
  lemma FilterThree<T>(a: seq<T>, b: seq<T>, c: seq<T>, p: T -> bool)
    ensures Filter(a + b + c, p) == Filter(a, p) + Filter(b, p) + Filter(c, p)
  {
    FilterAppend(a + b, c, p);
    FilterAppend(a, b, p);
  }

  /** Filtering four pieces around one shown element, in either order. */
  lemma FilterAround<T>(a: seq<T>, x: T, b: seq<T>, c: seq<T>, p: T -> bool)
    requires p(x)
    ensures Filter(a + [x] + b + c, p) == Filter(a, p) + [x] + Filter(b, p) + Filter(c, p)
    ensures Filter(a + b + [x] + c, p) == Filter(a, p) + Filter(b, p) + [x] + Filter(c, p)
  {
    FilterSingleton(x, p);
    calc {
      Filter(a + [x] + b + c, p);
      { assert a + [x] + b + c == (a + [x]) + b + c; FilterThree(a + [x], b, c, p); }
      Filter(a + [x], p) + Filter(b, p) + Filter(c, p);
      { FilterAppend(a, [x], p); }
      Filter(a, p) + [x] + Filter(b, p) + Filter(c, p);
    }
    calc {
      Filter(a + b + [x] + c, p);
      { assert a + b + [x] + c == (a + b) + [x] + c; FilterThree(a + b, [x], c, p); }
      Filter(a + b, p) + [x] + Filter(c, p);
      { FilterAppend(a, b, p); }
      Filter(a, p) + Filter(b, p) + [x] + Filter(c, p);
    }
  }

  /** The pieces of a forward move: before `i`, the dragged element, up to `j`, the rest. */
  lemma MovedForwardPieces<T>(s: seq<T>, i: nat, j: nat)
    requires i < j < |s|
    ensures s == s[..i] + [s[i]] + s[i + 1..j + 1] + s[j + 1..]
    ensures Moved(s, i, j) == s[..i] + s[i + 1..j + 1] + [s[i]] + s[j + 1..]
    ensures s[..j] == s[..i] + [s[i]] + s[i + 1..j] + []
    ensures s[i + 1..j + 1] == s[i + 1..j] + [s[j]]
  {
  }

  /** The pieces of a backward move: before `j`, from `j` up to `i`, the dragged element,
      the rest. */
  lemma MovedBackwardPieces<T>(s: seq<T>, i: nat, j: nat)
    requires j < i < |s|
    ensures s == s[..j] + s[j..i] + [s[i]] + s[i + 1..]
    ensures Moved(s, i, j) == s[..j] + [s[i]] + s[j..i] + s[i + 1..]
    ensures s[..i] == s[..j] + s[j..i]
    ensures s[j..i] == [s[j]] + s[j + 1..i]
  {
  }

  /** The filtered list around a forward move, in pieces. */
  lemma ForwardPieces<T>(s: seq<T>, p: T -> bool, i: nat, j: nat) returns (fa: seq<T>, fb: seq<T>, fc: seq<T>)
    requires i < j < |s| && p(s[i]) && p(s[j])
    ensures Filter(s, p) == fa + [s[i]] + fb + fc
    ensures Filter(Moved(s, i, j), p) == fa + fb + [s[i]] + fc
    ensures |fa| == Count(s[..i], p) && |fa| + |fb| == Count(s[..j], p) && fb != []
  {
    var x := s[i];
    MovedForwardPieces(s, i, j);
    var a, b, b', c := s[..i], s[i + 1..j + 1], s[i + 1..j], s[j + 1..];
    fa, fb, fc := Filter(a, p), Filter(b, p), Filter(c, p);
    FilterAround(a, x, b, c, p);
    FilterAround(a, x, b', [], p);
    FilterAppend(b', [s[j]], p);
    FilterSingleton(s[j], p);
  }

  /** The filtered list around a backward move, in pieces. */
  lemma BackwardPieces<T>(s: seq<T>, p: T -> bool, i: nat, j: nat) returns (fa: seq<T>, fb: seq<T>, fc: seq<T>)
    requires j < i < |s| && p(s[i]) && p(s[j])
    ensures Filter(s, p) == fa + fb + [s[i]] + fc
    ensures Filter(Moved(s, i, j), p) == fa + [s[i]] + fb + fc
    ensures |fa| == Count(s[..j], p) && |fa| + |fb| == Count(s[..i], p) && fb != []
  {
    var x := s[i];
    MovedBackwardPieces(s, i, j);
    var a, b, b', c := s[..j], s[j..i], s[j + 1..i], s[i + 1..];
    fa, fb, fc := Filter(a, p), Filter(b, p), Filter(c, p);
    FilterAround(a, x, b, c, p);
    FilterAppend(a, b, p);
    FilterAppend([s[j]], b', p);
    FilterSingleton(s[j], p);
  }

  /** Moving a shown row of the full list onto the position of another shown row is,
      as far as the filtered list shows, the same move within the filtered list. */
  lemma FilterOfMoved<T>(s: seq<T>, p: T -> bool, d: nat, h: nat)
    requires d < Count(s, p) && h < Count(s, p)
    ensures Filter(Moved(s, Position(s, p, d), Position(s, p, h)), p) == Moved(Filter(s, p), d, h)
  {
    var i, j := Position(s, p, d), Position(s, p, h);
    if i < j {
      FilterOfMovedForward(s, p, i, j);
    } else if j < i {
      FilterOfMovedBackward(s, p, i, j);
    } else {
      MovedInPlaceIsIdentity(s, i);
      MovedInPlaceIsIdentity(Filter(s, p), d);
    }
  }

  lemma FilterOfMovedForward<T>(s: seq<T>, p: T -> bool, i: nat, j: nat)
    requires i < j < |s| && p(s[i]) && p(s[j])
    ensures Count(s[..i], p) < |Filter(s, p)| && Count(s[..j], p) < |Filter(s, p)|
    ensures Filter(Moved(s, i, j), p) == Moved(Filter(s, p), Count(s[..i], p), Count(s[..j], p))
  {
    var fa, fb, fc := ForwardPieces(s, p, i, j);
    MovedPastBlock(fa, s[i], fb, fc);
  }

  lemma FilterOfMovedBackward<T>(s: seq<T>, p: T -> bool, i: nat, j: nat)
    requires j < i < |s| && p(s[i]) && p(s[j])
    ensures Count(s[..i], p) < |Filter(s, p)| && Count(s[..j], p) < |Filter(s, p)|
    ensures Filter(Moved(s, i, j), p) == Moved(Filter(s, p), Count(s[..i], p), Count(s[..j], p))
  {
    var fa, fb, fc := BackwardPieces(s, p, i, j);
    MovedPastBlock(fa, s[i], fb, fc);
  }

  /** Dropping a row onto itself changes nothing. */
  lemma MovedInPlaceIsIdentity<T>(s: seq<T>, i: nat)
    requires i < |s|
    ensures Moved(s, i, i) == s
  {
    assert s == s[..i] + [s[i]] + s[i + 1..];
  }

  /** `s` without its element at index `i` (`splice(i, 1)`). */
  function RemoveAt<T>(s: seq<T>, i: nat): seq<T>
    requires i < |s|
  {
    s[..i] + s[i + 1..]
  }

  /** `s` with `x` inserted before index `i` (`splice(i, 0, x)`). */
  function InsertAt<T>(s: seq<T>, i: nat, x: T): seq<T>
    requires i <= |s|
  {
    s[..i] + [x] + s[i..]
  }

  /** The list after dragging the row at `from` onto the row at `to`: the element is
      spliced out, then spliced back in at `to` of the shortened list. */
  function Moved<T>(s: seq<T>, from: nat, to: nat): seq<T>
    requires from < |s| && to < |s|
  {
    InsertAt(RemoveAt(s, from), to, s[from])
  }

  /** A move is a permutation that puts the dragged element at `to` and keeps every
      other element in its relative order. */
  lemma MovedIsPermutation<T>(s: seq<T>, from: nat, to: nat)
    requires from < |s| && to < |s|
    ensures |Moved(s, from, to)| == |s|
    ensures multiset(Moved(s, from, to)) == multiset(s)
    ensures Moved(s, from, to)[to] == s[from]
    ensures RemoveAt(Moved(s, from, to), to) == RemoveAt(s, from)
  {
    var rest := RemoveAt(s, from);
    assert s == s[..from] + [s[from]] + s[from + 1..];
    calc {
      multiset(Moved(s, from, to));
      multiset(rest[..to]) + multiset{s[from]} + multiset(rest[to..]);
      { assert rest == rest[..to] + rest[to..]; }
      multiset(rest) + multiset{s[from]};
      multiset(s[..from]) + multiset(s[from + 1..]) + multiset{s[from]};
      multiset(s);
    }
    var m := Moved(s, from, to);
    assert m[..to] == rest[..to];
    assert m[to + 1..] == rest[to..];
  }

  /** Element-wise description of a move, used to prove the in-place version. */
  lemma MovedAt<T>(s: seq<T>, from: nat, to: nat, k: nat)
    requires from < |s| && to < |s| && k < |s|
    ensures Moved(s, from, to)[k] ==
      if k == to then s[from]
      else if from < to && from <= k < to then s[k + 1]
      else if to < from && to < k <= from then s[k - 1]
      else s[k]
  {
  }

  /** The two `splice` calls done in place on an array: the elements between the two
      indices shift by one and the dragged element lands at `to`. */
  method MoveInPlace<T>(a: array<T>, from: nat, to: nat)
    requires from < a.Length && to < a.Length
    modifies a
    ensures a[..] == Moved(old(a[..]), from, to)
  {
    var x := a[from];
    if from < to {
      var i := from;
      while i < to
        invariant from <= i <= to
        invariant forall k :: 0 <= k < from ==> a[k] == old(a[k])
        invariant forall k :: from <= k < i ==> a[k] == old(a[k + 1])
        invariant forall k :: i <= k < a.Length ==> a[k] == old(a[k])
      {
        a[i] := a[i + 1];
        i := i + 1;
      }
    } else if to < from {
      var i := from;
      while i > to
        invariant to <= i <= from
        invariant forall k :: 0 <= k <= i ==> a[k] == old(a[k])
        invariant forall k :: i < k <= from ==> a[k] == old(a[k - 1])
        invariant forall k :: from < k < a.Length ==> a[k] == old(a[k])
      {
        a[i] := a[i - 1];
        i := i - 1;
      }
    }
    a[to] := x;
    forall k | 0 <= k < a.Length
      ensures a[k] == Moved(old(a[..]), from, to)[k]
    {
      MovedAt(old(a[..]), from, to, k);
    }
  }

  /** `const copy = [...list]; copy.splice(from, 1); copy.splice(to, 0, list[from])`:
      the move done on a fresh copy, leaving `s` itself as it was. */
  method SpliceMove<T>(s: seq<T>, from: nat, to: nat) returns (r: seq<T>)
    requires from < |s| && to < |s|
    ensures r == Moved(s, from, to)
  {
    var copy := new T[|s|](i requires 0 <= i < |s| => s[i]);
    assert copy[..] == s;
    MoveInPlace(copy, from, to);
    r := copy[..];
  }
}
