/** Aggregates over table rows, as the database computes them. */
module Sums {
  import opened Wrappers

  function Sum<T>(rows: seq<T>, f: T -> int): int {
    if rows == [] then 0 else Sum(rows[..|rows| - 1], f) + f(rows[|rows| - 1])
  }

  function SumReal<T>(rows: seq<T>, f: T -> real): real {
    if rows == [] then 0.0 else SumReal(rows[..|rows| - 1], f) + f(rows[|rows| - 1])
  }

  /** The position of the first row that satisfies `p`. */
  function FindFirst<T>(rows: seq<T>, p: T -> bool): (r: Option<nat>)
    ensures match r
      case Some(i) => i < |rows| && p(rows[i]) && forall j :: 0 <= j < i ==> !p(rows[j])
      case None => forall j :: 0 <= j < |rows| ==> !p(rows[j])
  {
    if rows == [] then None
    else
      match FindFirst(rows[..|rows| - 1], p)
      case Some(i) => Some(i)
      case None => if p(rows[|rows| - 1]) then Some(|rows| - 1) else None
  }

  lemma SumAdd<T>(rows: seq<T>, f: T -> int, x: T)
    ensures Sum(rows + [x], f) == Sum(rows, f) + f(x)
  {
    assert (rows + [x])[..|rows|] == rows;
  }

  lemma SumRealAdd<T>(rows: seq<T>, f: T -> real, x: T)
    ensures SumReal(rows + [x], f) == SumReal(rows, f) + f(x)
  {
    assert (rows + [x])[..|rows|] == rows;
  }

  lemma {:induction false} SumReplace<T>(rows: seq<T>, f: T -> int, i: nat, x: T)
    requires i < |rows|
    ensures Sum(rows[i := x], f) == Sum(rows, f) - f(rows[i]) + f(x)
  {
    var n := |rows| - 1;
    if i < n {
      SumReplace(rows[..n], f, i, x);
      assert rows[i := x][..n] == rows[..n][i := x];
    } else {
      assert rows[i := x][..n] == rows[..n];
    }
  }

  lemma {:induction false} SumRealReplace<T>(rows: seq<T>, f: T -> real, i: nat, x: T)
    requires i < |rows|
    ensures SumReal(rows[i := x], f) == SumReal(rows, f) - f(rows[i]) + f(x)
  {
    var n := |rows| - 1;
    if i < n {
      SumRealReplace(rows[..n], f, i, x);
      assert rows[i := x][..n] == rows[..n][i := x];
    } else {
      assert rows[i := x][..n] == rows[..n];
    }
  }

  lemma {:induction false} SumWithout<T>(rows: seq<T>, f: T -> int, i: nat)
    requires i < |rows|
    ensures Sum(rows[..i] + rows[i + 1..], f) == Sum(rows, f) - f(rows[i])
  {
    var n := |rows| - 1;
    if i < n {
      SumWithout(rows[..n], f, i);
      assert (rows[..i] + rows[i + 1..])[..n - 1] == rows[..n][..i] + rows[..n][i + 1..];
    } else {
      assert rows[..i] + rows[i + 1..] == rows[..n];
    }
  }

  /** A sum of zeros and ones counts rows. */
  lemma {:induction false} CountRange<T>(rows: seq<T>, f: T -> int)
    requires forall x :: x in rows ==> 0 <= f(x) <= 1
    ensures 0 <= Sum(rows, f) <= |rows|
    ensures (forall x :: x in rows ==> f(x) == 0) ==> Sum(rows, f) == 0
    ensures (forall x :: x in rows ==> f(x) == 1) ==> Sum(rows, f) == |rows|
  {
    if rows != [] { CountRange(rows[..|rows| - 1], f); }
  }

  lemma {:induction false} SameSum<T>(rows: seq<T>, f: T -> int, g: T -> int)
    requires forall x :: x in rows ==> f(x) == g(x)
    ensures Sum(rows, f) == Sum(rows, g)
  {
    if rows != [] { SameSum(rows[..|rows| - 1], f, g); }
  }
}
