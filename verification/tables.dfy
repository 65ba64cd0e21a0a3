/** In-memory stand-ins for the database's row queries: find the first row
    matching a condition, count matching rows, update matching rows. */
module Tables {
  import opened Wrappers

  /** `findFirst`: the index of the first row satisfying `p`. */
  function FirstWhere<T>(rows: seq<T>, p: T -> bool): (r: Option<nat>)
    ensures r.Some? ==> r.value < |rows| && p(rows[r.value])
    ensures r.Some? ==> forall j :: 0 <= j < r.value ==> !p(rows[j])
    ensures r.None? <==> forall j :: 0 <= j < |rows| ==> !p(rows[j])
    decreases |rows|
  {
    if rows == [] then None
    else if p(rows[0]) then Some(0)
    else match FirstWhere(rows[1..], p)
      case None => None
      case Some(k) => Some(k + 1)
  }

  /** `count`: the number of rows satisfying `p`. */
  function CountWhere<T>(rows: seq<T>, p: T -> bool): (n: nat)
    ensures n <= |rows|
    ensures n == 0 <==> forall j :: 0 <= j < |rows| ==> !p(rows[j])
    ensures n == |rows| <==> forall j :: 0 <= j < |rows| ==> p(rows[j])
    decreases |rows|
  {
    if rows == [] then 0
    else (if p(rows[0]) then 1 else 0) + CountWhere(rows[1..], p)
  }

  /** `updateMany`: applies `f` to every row satisfying `p`, in place. */
  function UpdateWhere<T>(rows: seq<T>, p: T -> bool, f: T -> T): (r: seq<T>)
    ensures |r| == |rows|
    ensures forall i :: 0 <= i < |rows| ==> r[i] == if p(rows[i]) then f(rows[i]) else rows[i]
    decreases |rows|
  {
    if rows == [] then []
    else [if p(rows[0]) then f(rows[0]) else rows[0]] + UpdateWhere(rows[1..], p, f)
  }

  /** Appending a row adds one to the count exactly when the row matches. */
  lemma {:induction false} CountAppend<T>(rows: seq<T>, x: T, p: T -> bool)
    ensures CountWhere(rows + [x], p) == CountWhere(rows, p) + if p(x) then 1 else 0
    decreases |rows|
  {
    if rows != [] {
      assert (rows + [x])[1..] == rows[1..] + [x];
      CountAppend(rows[1..], x, p);
    }
  }

  /** Counts agree on two tables whose rows agree on the condition, row by row. */
  lemma {:induction false} CountPointwise<T, U>(a: seq<T>, p: T -> bool, b: seq<U>, q: U -> bool)
    requires |a| == |b|
    requires forall i :: 0 <= i < |a| ==> (p(a[i]) <==> q(b[i]))
    ensures CountWhere(a, p) == CountWhere(b, q)
    decreases |a|
  {
    if a != [] {
      CountPointwise(a[1..], p, b[1..], q);
    }
  }
}
