/** The order in which `std::set` and `std::map` visit their keys. */
module OrderedSets {

  ghost predicate StrictTotal<T(!new)>(less: (T, T) -> bool) {
    && (forall x, y :: !(less(x, y) && less(y, x)))
    && (forall x, y :: less(x, y) || less(y, x) || x == y)
    && (forall x, y, z :: less(x, y) && less(y, z) ==> less(x, z))
  }

  lemma {:induction false} FindLeast<T(!new)>(s: set<T>, less: (T, T) -> bool) returns (least: T)
    requires s != {} && StrictTotal(less)
    ensures least in s && forall y :: y in s ==> !less(y, least)
    decreases |s|
  {
    least :| least in s;
    if s != {least} {
      var rest := s - {least};
      assert s == rest + {least};
      var other := FindLeast(rest, less);
      least := if less(other, least) then other else least;
    }
  }

  lemma LeastExists<T(!new)>(s: set<T>, less: (T, T) -> bool)
    requires s != {} && StrictTotal(less)
    ensures exists x :: x in s && forall y :: y in s ==> !less(y, x)
  {
    var least := FindLeast(s, less);
  }

  /** `*begin()`. */
  function Least<T(!new)>(s: set<T>, less: (T, T) -> bool): (x: T)
    requires s != {} && StrictTotal(less)
    ensures x in s && forall y :: y in s ==> !less(y, x)
  {
    LeastExists(s, less);
    var x :| x in s && forall y :: y in s ==> !less(y, x);
    x
  }

  /** All elements in order. */
  function Ascending<T(!new)>(s: set<T>, less: (T, T) -> bool): (r: seq<T>)
    requires StrictTotal(less)
    ensures |r| == |s|
    ensures forall x :: x in r <==> x in s
    ensures forall i, j :: 0 <= i < j < |r| ==> less(r[i], r[j])
    decreases |s|
  {
    if s == {} then []
    else
      var x := Least(s, less);
      var rest := Ascending(s - {x}, less);
      Prepend(s, x, rest, less);
      [x] + rest
  }

  lemma Prepend<T(!new)>(s: set<T>, x: T, rest: seq<T>, less: (T, T) -> bool)
    requires StrictTotal(less) && x in s && forall y :: y in s ==> !less(y, x)
    requires |rest| == |s - {x}| && forall y :: y in rest <==> y in s - {x}
    requires forall i, j :: 0 <= i < j < |rest| ==> less(rest[i], rest[j])
    ensures |[x] + rest| == |s|
    ensures forall y :: y in [x] + rest <==> y in s
    ensures forall i, j :: 0 <= i < j < |rest| + 1 ==> less(([x] + rest)[i], ([x] + rest)[j])
  {
    assert s == (s - {x}) + {x};
    forall j | 0 <= j < |rest| ensures less(x, rest[j]) {
      assert rest[j] in rest;
    }
  }
}
