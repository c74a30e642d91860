/** Option and Result values for the error paths of the solvers (a Rust
    `unwrap`, an index out of range or a `panic!` becomes an `Err`). */
module Common {

  datatype Option<+T> = None | Some(value: T)

  datatype Result<+T, +E> = Ok(value: T) | Err(error: E)

  /** Sum of a sequence of integers, folded from the front. */
  function Sum(xs: seq<int>): int
  {
    if xs == [] then 0 else xs[0] + Sum(xs[1..])
  }

  /** Product of a sequence of integers, folded from the front. */
  function Product(xs: seq<int>): int
  {
    if xs == [] then 1 else xs[0] * Product(xs[1..])
  }

  lemma {:induction false} SumAppend(xs: seq<int>, x: int)
    ensures Sum(xs + [x]) == Sum(xs) + x
  {
    if xs != [] {
      assert (xs + [x])[1..] == xs[1..] + [x];
      SumAppend(xs[1..], x);
    }
  }

  lemma {:induction false} ProductAppend(xs: seq<int>, x: int)
    ensures Product(xs + [x]) == Product(xs) * x
  {
    if xs != [] {
      assert (xs + [x])[1..] == xs[1..] + [x];
      ProductAppend(xs[1..], x);
      assert Product(xs + [x]) == xs[0] * (Product(xs[1..]) * x);
    }
  }

  /** All values of a sequence of options, or `None` when one is missing
      (collecting an iterator of `Option`s). */
  function AllSome<T>(xs: seq<Option<T>>): Option<seq<T>>
  {
    if xs == [] then Some([])
    else match AllSome(xs[..|xs| - 1])
      case None => None
      case Some(vs) =>
        match xs[|xs| - 1]
        case None => None
        case Some(v) => Some(vs + [v])
  }

  /** `AllSome` succeeds exactly when no element is missing, and then lists
      the elements' values in order. */
  lemma {:induction false} AllSomeSpec<T>(xs: seq<Option<T>>)
    ensures AllSome(xs).Some? <==> forall k :: 0 <= k < |xs| ==> xs[k].Some?
    ensures AllSome(xs).Some? ==>
      |AllSome(xs).value| == |xs| &&
      forall k :: 0 <= k < |xs| ==> xs[k] == Some(AllSome(xs).value[k])
  {
    if xs != [] {
      var front := xs[..|xs| - 1];
      AllSomeSpec(front);
      assert forall k :: 0 <= k < |front| ==> front[k] == xs[k];
    }
  }

  /** Once a prefix has a missing element, so does every longer prefix. */
  lemma {:induction false} AllSomeFailsLater<T>(xs: seq<Option<T>>, i: nat)
    requires i <= |xs| && AllSome(xs[..i]).None?
    ensures AllSome(xs).None?
    decreases |xs|
  {
    if i < |xs| {
      var front := xs[..|xs| - 1];
      assert front[..i] == xs[..i];
      AllSomeFailsLater(front, i);
    } else {
      assert xs[..i] == xs;
    }
  }
}
