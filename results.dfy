/** The Result algebra: a decode attempt either succeeded with a value (`Ok`)
    or failed with an error value (`Err`). Results are immutable and compared by
    tag and content; every combinator builds a new Result. */
module Results {

  datatype Result<T, E> = Ok(value: T) | Err(error: E) {

    /** `ok?`: exactly one of `ok?` and `err?` holds. */
    predicate IsOk()
      ensures IsOk() <==> !IsErr()
    {
      Ok?
    }

    /** `err?` */
    predicate IsErr()
    {
      Err?
    }

    /** `unwrap(default)`: the value of an `Ok`, the default for an `Err`. */
    function Unwrap(default: T): (x: T)
      ensures Ok? ==> x == value
      ensures Err? ==> x == default
    {
      match this
      case Ok(v) => v
      case Err(_) => default
    }

    /** `map { f }`: transforms the value of an `Ok`; an `Err` passes through. */
    function Map<U>(f: T -> U): (r: Result<U, E>)
      ensures r.Ok? <==> Ok?
      ensures Ok? ==> r.value == f(value)
      ensures Err? ==> r.error == error
    {
      match this
      case Ok(v) => Ok(f(v))
      case Err(e) => Err(e)
    }

    /** `map_err { g }`: transforms the error of an `Err`; an `Ok` passes through. */
    function MapErr<F>(g: E -> F): (r: Result<T, F>)
      ensures r.Ok? <==> Ok?
      ensures Ok? ==> r.value == value
      ensures Err? ==> r.error == g(error)
    {
      match this
      case Ok(v) => Ok(v)
      case Err(e) => Err(g(e))
    }

    /** `and(other) { f }`: both values combined when both are `Ok`, otherwise
        the receiver's error if it has one, otherwise the other's. */
    function And<U, V>(other: Result<U, E>, f: (T, U) -> V): (r: Result<V, E>)
      ensures r.Ok? <==> Ok? && other.Ok?
      ensures r.Ok? ==> r.value == f(value, other.value)
      ensures Err? ==> r.error == error
      ensures Ok? && other.Err? ==> r.error == other.error
    {
      match this
      case Err(e) => Err(e)
      case Ok(a) =>
        match other
        case Err(e) => Err(e)
        case Ok(b) => Ok(f(a, b))
    }

    /** `and_then { k }`: monadic bind. */
    function AndThen<U>(k: T -> Result<U, E>): (r: Result<U, E>)
      ensures Ok? ==> r == k(value)
      ensures Err? ==> r.Err? && r.error == error
    {
      match this
      case Ok(v) => k(v)
      case Err(e) => Err(e)
    }
  }

  /** `Result.ok(v)` */
  function MakeOk<T, E>(v: T): (r: Result<T, E>)
    ensures r.IsOk() && r.Unwrap(v) == v
  {
    Ok(v)
  }

  /** `Result.err(e)` */
  function MakeErr<T, E>(e: E): (r: Result<T, E>)
    ensures r.IsErr() && r.error == e
  {
    Err(e)
  }

  /** Every result in `rs` is an `Ok`. */
  ghost predicate AllOk<T, E>(rs: seq<Result<T, E>>)
  {
    forall i :: 0 <= i < |rs| ==> rs[i].Ok?
  }

  /** `e` is the error of the first `Err` in `rs`. */
  ghost predicate FirstErr<T, E>(rs: seq<Result<T, E>>, e: E)
  {
    exists j :: 0 <= j < |rs| && rs[j] == Err(e) && forall i :: 0 <= i < j ==> rs[i].Ok?
  }

  /** The step of `Result.all`'s fold: `acc.and(el) { [*_1, _2] }`. */
  function Snoc<T>(xs: seq<T>, x: T): seq<T>
  {
    xs + [x]
  }

  /** `rs.reduce(acc) { |acc, el| acc.and(el) { [*_1, _2] } }`. Once the
      accumulator is an `Err` it stays that error; starting from `Ok(xs)` the
      fold appends every value, or stops at the first `Err`. */
  function Fold<T, E>(acc: Result<seq<T>, E>, rs: seq<Result<T, E>>): (r: Result<seq<T>, E>)
    ensures acc.Err? ==> r == acc
    ensures acc.Ok? ==> (r.Ok? <==> AllOk(rs))
    ensures acc.Ok? && r.Ok? ==>
      |r.value| == |acc.value| + |rs| && r.value[..|acc.value|] == acc.value &&
      forall i :: 0 <= i < |rs| ==> r.value[|acc.value| + i] == rs[i].value
    ensures acc.Ok? && r.Err? ==> FirstErr(rs, r.error)
    decreases |rs|
  {
    if rs == [] then acc
    else
      var r := Fold(acc.And(rs[0], Snoc), rs[1..]);
      assert forall i :: 1 <= i < |rs| ==> rs[i] == rs[1..][i - 1];
      assert acc.Ok? && r.Err? ==> FirstErr(rs, r.error) by {
        if acc.Ok? && r.Err? && rs[0].Err? {
          assert rs[0] == Err(r.error);
        } else if acc.Ok? && r.Err? {
          var j :| 0 <= j < |rs[1..]| && rs[1..][j] == Err(r.error) && forall i :: 0 <= i < j ==> rs[1..][i].Ok?;
          assert rs[j + 1] == Err(r.error);
          assert forall i :: 0 <= i < j + 1 ==> rs[i].Ok?;
        }
      }
      r
  }

  /** `Result.all(results)`: `Ok` of all the values, in order, when every
      element is `Ok`; otherwise the first `Err` in sequence order. */
  function All<T, E>(rs: seq<Result<T, E>>): (r: Result<seq<T>, E>)
    ensures r.Ok? <==> AllOk(rs)
    ensures r.Ok? ==> |r.value| == |rs| && forall i :: 0 <= i < |rs| ==> r.value[i] == rs[i].value
    ensures r.Err? ==> FirstErr(rs, r.error)
  {
    Fold(Ok([]), rs)
  }

  lemma AllEmpty<T, E>()
    ensures All<T, E>([]) == Ok([])
  {
  }

  /** `all([a, b])` is `a.and(b)` collecting both values: the first error wins. */
  lemma AllOfTwo<T, E>(a: Result<T, E>, b: Result<T, E>)
    ensures All([a, b]) == a.And(b, (x, y) => [x, y])
  {
    var r := All([a, b]);
    assert [a, b][0] == a && [a, b][1] == b;
    if r.Ok? {
      assert r.value == [a.value, b.value];
    }
  }

  /** Results are equal exactly when their tags and contents are. */
  lemma StructuralEquality<T>(x: T, y: T)
    ensures (Result<T, T>.Ok(x) == Result<T, T>.Ok(y)) <==> x == y
    ensures (Result<T, T>.Err(x) == Result<T, T>.Err(y)) <==> x == y
    ensures Result<T, T>.Ok(x) != Result<T, T>.Err(x)
  {
  }
}
