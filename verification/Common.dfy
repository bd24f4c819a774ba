/** Small vocabulary shared by the models. */
module Common {

  datatype Option<+T> = None | Some(value: T)

  datatype Result<+T, +E> = Ok(value: T) | Err(error: E)

  function Abs(x: real): real {
    if x < 0.0 then -x else x
  }

  function Sum(xs: seq<real>): real {
    if xs == [] then 0.0 else Sum(xs[..|xs| - 1]) + xs[|xs| - 1]
  }

  ghost predicate Increasing(xs: seq<int>) {
    forall i, j :: 0 <= i < j < |xs| ==> xs[i] < xs[j]
  }

  lemma WithoutLast(xs: seq<int>, x: int)
    requires Increasing(xs) && xs != []
    ensures x in xs[..|xs| - 1] <==> x in xs && x != xs[|xs| - 1]
  {
    if x in xs && x != xs[|xs| - 1] {
      var k :| 0 <= k < |xs| && xs[k] == x;
      assert xs[..|xs| - 1][k] == x;
    }
  }

  lemma SameLast(a: seq<int>, b: seq<int>)
    requires Increasing(a) && Increasing(b) && (forall x :: x in a <==> x in b) && (a != [] || b != [])
    ensures a != [] && b != [] && a[|a| - 1] == b[|b| - 1]
  {
    assert a != [] ==> a[|a| - 1] in a;
    assert b != [] ==> b[|b| - 1] in b;
    var j :| 0 <= j < |b| && b[j] == a[|a| - 1];
    var i :| 0 <= i < |a| && a[i] == b[|b| - 1];
  }

  /** Two increasing sequences with the same members are equal. */
  lemma {:induction false} SortedIsUnique(a: seq<int>, b: seq<int>)
    requires Increasing(a) && Increasing(b) && forall x :: x in a <==> x in b
    ensures a == b
  {
    if a != [] || b != [] {
      SameLast(a, b);
      var u, v := a[..|a| - 1], b[..|b| - 1];
      forall x
        ensures x in u <==> x in v
      {
        WithoutLast(a, x);
        WithoutLast(b, x);
      }
      SortedIsUnique(u, v);
      assert a == u + [a[|a| - 1]] && b == v + [b[|b| - 1]];
    }
  }

  /** The registered relative tolerance of a split ratio. */
  const TOLERANCE: real := 0.000001

  predicate WithinTolerance(base: real, ratio: real) {
    Abs(ratio - base) <= Abs(base) * TOLERANCE
  }

  /** A positive base is kept to within a millionth of itself. */
  lemma ToleranceExactly(base: real, ratio: real)
    requires base > 0.0
    ensures WithinTolerance(base, ratio) <==> base * 0.999999 <= ratio <= base * 1.000001
  {
  }
}
