/** sort.Slice: rows come back in order, and callers may count on nothing else. */
module Sorting {

  /** `before` is a strict weak order, as sort.Slice asks of its callers. */
  ghost predicate StrictWeak<T(!new)>(before: (T, T) -> bool) {
    && (forall x, y :: before(x, y) ==> !before(y, x))
    && (forall x, y, z :: !before(y, x) && !before(z, y) ==> !before(z, x))
  }

  predicate SortedBy<T>(rows: seq<T>, before: (T, T) -> bool) {
    forall i, j :: 0 <= i < j < |rows| ==> !before(rows[j], rows[i])
  }

  method SortSlice<T(!new)>(rows: seq<T>, before: (T, T) -> bool) returns (sorted: seq<T>)
    requires StrictWeak(before)
    ensures multiset(sorted) == multiset(rows) && |sorted| == |rows|
    ensures SortedBy(sorted, before)
  {
    sorted := [];
    for i := 0 to |rows|
      invariant multiset(sorted) == multiset(rows[..i]) && |sorted| == i
      invariant SortedBy(sorted, before)
    {
      assert rows[..i + 1] == rows[..i] + [rows[i]];
      sorted := Insert(sorted, rows[i], before);
    }
    assert rows[..|rows|] == rows;
  }

  method Insert<T(!new)>(rows: seq<T>, x: T, before: (T, T) -> bool) returns (r: seq<T>)
    requires StrictWeak(before) && SortedBy(rows, before)
    ensures multiset(r) == multiset(rows) + multiset{x} && |r| == |rows| + 1
    ensures SortedBy(r, before)
  {
    var n := |rows|;
    while n > 0 && before(x, rows[n - 1])
      invariant 0 <= n <= |rows|
      invariant forall i :: n <= i < |rows| ==> before(x, rows[i])
    {
      n := n - 1;
    }
    r := rows[..n] + [x] + rows[n..];
    SameElements(rows, n, x);
    InsertedSorted(rows, n, x, before);
  }

  lemma SameElements<T>(rows: seq<T>, n: nat, x: T)
    requires n <= |rows|
    ensures multiset(rows[..n] + [x] + rows[n..]) == multiset(rows) + multiset{x}
  {
    assert rows == rows[..n] + rows[n..];
  }

  lemma InsertedSorted<T(!new)>(rows: seq<T>, n: nat, x: T, before: (T, T) -> bool)
    requires StrictWeak(before) && SortedBy(rows, before) && n <= |rows|
    requires n > 0 ==> !before(x, rows[n - 1])
    requires forall i :: n <= i < |rows| ==> before(x, rows[i])
    ensures SortedBy(rows[..n] + [x] + rows[n..], before)
  {
    forall i | 0 <= i < n
      ensures !before(x, rows[i])
    {
      assert i < n - 1 ==> !before(rows[n - 1], rows[i]);
    }
  }

  /** One element's place is fixed once no two elements tie. */
  lemma {:induction false} SortedByUnique<T(!new)>(a: seq<T>, b: seq<T>, before: (T, T) -> bool)
    requires StrictWeak(before) && SortedBy(a, before) && multiset(a) == multiset(b)
    requires forall i, j :: 0 <= i < j < |b| ==> before(b[i], b[j])
    ensures a == b
  {
    assert |a| == |multiset(a)| == |multiset(b)| == |b|;
    if a != [] {
      SameFirst(a, b, before);
      assert a == [a[0]] + a[1..] && b == [b[0]] + b[1..];
      SameRest(a, b);
      SortedByUnique(a[1..], b[1..], before);
    }
  }

  lemma SameRest<T>(a: seq<T>, b: seq<T>)
    requires a != [] && b != [] && a[0] == b[0] && multiset(a) == multiset(b)
    ensures multiset(a[1..]) == multiset(b[1..])
  {
    WithoutFirst(a);
    WithoutFirst(b);
  }

  lemma WithoutFirst<T>(a: seq<T>)
    requires a != []
    ensures multiset(a[1..]) == multiset(a) - multiset{a[0]}
  {
    assert a == [a[0]] + a[1..];
  }

  lemma SameFirst<T(!new)>(a: seq<T>, b: seq<T>, before: (T, T) -> bool)
    requires a != [] && b != []
    requires StrictWeak(before) && SortedBy(a, before) && multiset(a) == multiset(b)
    requires forall i, j :: 0 <= i < j < |b| ==> before(b[i], b[j])
    ensures a[0] == b[0]
  {
    assert a[0] in multiset(b) && b[0] in multiset(a);
    var i :| 0 <= i < |b| && b[i] == a[0];
    var j :| 0 <= j < |a| && a[j] == b[0];
    assert !before(a[j], a[0]);
    FirstIsFirst(b, i, before);
  }

  lemma FirstIsFirst<T(!new)>(b: seq<T>, i: nat, before: (T, T) -> bool)
    requires i < |b|
    requires forall i, j :: 0 <= i < j < |b| ==> before(b[i], b[j])
    ensures b[i] == b[0] || before(b[0], b[i])
  {
  }

  lemma TwiceInMultiset<T>(rows: seq<T>, i: nat, j: nat)
    requires i < j < |rows| && rows[i] == rows[j]
    ensures multiset(rows)[rows[i]] >= 2
  {
    assert rows == rows[..j] + rows[j..];
    assert rows[i] == rows[..j][i] && rows[j] == rows[j..][0];
    assert rows[i] in multiset(rows[..j]) && rows[i] in multiset(rows[j..]);
  }

  lemma {:induction false} OnceInDistinct<T>(rows: seq<T>, x: T)
    requires forall i, j :: 0 <= i < j < |rows| ==> rows[i] != rows[j]
    ensures multiset(rows)[x] <= 1
  {
    if rows != [] {
      var init, last := rows[..|rows| - 1], rows[|rows| - 1];
      assert rows == init + [last];
      OnceInDistinct(init, x);
      assert x == last ==> x !in init;
    }
  }
}
