/** Failure-compatible wrappers used throughout the model: `Option` for values
    that may be absent (the dataset store before the first load, a lookup that
    finds nothing) and `Result` for steps that may raise in the original
    program (a transport error, `int()` rejecting a cell, a missing cell). */
module Results {

  datatype Option<+T> = None | Some(value: T)

  datatype Result<+T, +E> = Ok(value: T) | Err(error: E) {

    predicate IsFailure() {
      Err?
    }

    function PropagateFailure<U>(): Result<U, E>
      requires Err?
    {
      Err(error)
    }

    function Extract(): T
      requires Ok?
    {
      value
    }
  }

  /** Fail-fast collection, the shape of a loop that stops at the first
      exception: the values of `rs` in order when every entry is `Ok`,
      otherwise the error of the first `Err`. */
  function Collect<T, E>(rs: seq<Result<T, E>>): (r: Result<seq<T>, E>)
    ensures r.Ok? ==> |r.value| == |rs|
  {
    if rs == [] then Ok([])
    else
      var x :- rs[0];
      var rest :- Collect(rs[1..]);
      Ok([x] + rest)
  }

  /** Entry `j` is the first `Err` of `rs`. */
  predicate FirstErr<T, E>(rs: seq<Result<T, E>>, j: nat) {
    j < |rs| && rs[j].Err? && forall i :: 0 <= i < j ==> rs[i].Ok?
  }

  /** `Collect` succeeds exactly when every entry is `Ok`, and then returns
      their values in order; otherwise it returns the error of the first
      `Err`. */
  lemma {:induction false} CollectSpec<T, E>(rs: seq<Result<T, E>>)
    ensures Collect(rs).Ok? <==> forall i :: 0 <= i < |rs| ==> rs[i].Ok?
    ensures Collect(rs).Ok? ==> forall i :: 0 <= i < |rs| ==> rs[i] == Ok(Collect(rs).value[i])
    ensures Collect(rs).Err? ==> exists j: nat :: FirstErr(rs, j) && Collect(rs).error == rs[j].error
  {
    if rs != [] {
      var tail := rs[1..];
      CollectSpec(tail);
      assert forall i :: 0 < i < |rs| ==> rs[i] == tail[i - 1];
      if rs[0].Err? {
        assert FirstErr(rs, 0);
      } else if Collect(tail).Err? {
        var j: nat :| FirstErr(tail, j) && Collect(tail).error == tail[j].error;
        assert FirstErr(rs, j + 1);
      } else {
        assert Collect(rs).value == [rs[0].value] + Collect(tail).value;
      }
    }
  }

  /** Collecting a concatenation is collecting the first part and, only if
      that succeeds, the second. */
  lemma {:induction false} CollectAppend<T, E>(a: seq<Result<T, E>>, b: seq<Result<T, E>>)
    ensures Collect(a + b) ==
      match Collect(a)
      case Err(e) => Err(e)
      case Ok(x) =>
        match Collect(b)
        case Err(e) => Err(e)
        case Ok(y) => Ok(x + y)
  {
    if a == [] {
      assert a + b == b;
      if Collect(b).Ok? {
        assert [] + Collect(b).value == Collect(b).value;
      }
    } else {
      assert (a + b)[0] == a[0];
      assert (a + b)[1..] == a[1..] + b;
      CollectAppend(a[1..], b);
      if a[0].Ok? && Collect(a[1..]).Ok? && Collect(b).Ok? {
        assert [a[0].value] + (Collect(a[1..]).value + Collect(b).value)
          == ([a[0].value] + Collect(a[1..]).value) + Collect(b).value;
      }
    }
  }

  /** Collecting one result is that result, its value wrapped in a list. */
  lemma CollectSingle<T, E>(x: Result<T, E>)
    ensures Collect([x]) == match x case Err(e) => Err(e) case Ok(v) => Ok([v])
  {
    assert [x][1..] == [];
    if x.Ok? {
      assert [x.value] + [] == [x.value];
    }
  }
}
