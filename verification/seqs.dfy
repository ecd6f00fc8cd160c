/** Two sequence combinators the queries are built from: keeping the rows a
    predicate accepts, and converting every row while stopping at the first
    conversion that throws (as a Java stream's `map` followed by `collect` does). */
module Seqs {
  import opened Wrappers

  function Filter<T(!new)>(xs: seq<T>, keep: T -> bool): (ys: seq<T>)
    ensures forall y :: y in ys <==> y in xs && keep(y)
    ensures forall y :: keep(y) ==> multiset(ys)[y] == multiset(xs)[y]
    ensures |ys| <= |xs|
  {
    if xs == [] then []
    else
      assert xs == [xs[0]] + xs[1..];
      (if keep(xs[0]) then [xs[0]] else []) + Filter(xs[1..], keep)
  }

  function MapResult<A(!new), B(!new), E>(xs: seq<A>, f: A -> Result<B, E>): (r: Result<seq<B>, E>)
    ensures r.Success? <==> forall i :: 0 <= i < |xs| ==> f(xs[i]).Success?
    ensures r.Success? ==> |r.value| == |xs|
    ensures r.Success? ==> forall i :: 0 <= i < |xs| ==> r.value[i] == f(xs[i]).value
    ensures r.Success? ==> forall b :: b in r.value <==> exists a :: a in xs && f(a) == Success(b)
    ensures r.Failure? ==> exists i :: 0 <= i < |xs| && f(xs[i]) == Failure(r.error)
                                       && forall j :: 0 <= j < i ==> f(xs[j]).Success?
  {
    if xs == [] then Success([])
    else
      var head :- f(xs[0]);
      var tail := MapResult(xs[1..], f);
      if tail.Failure? then
        ghost var i :| 0 <= i < |xs| - 1 && f(xs[1..][i]) == Failure(tail.error)
                       && forall j :: 0 <= j < i ==> f(xs[1..][j]).Success?;
        assert f(xs[i + 1]) == Failure(tail.error);
        assert forall j :: 0 <= j < i + 1 ==> f(xs[j]).Success? by {
          forall j | 0 <= j < i + 1 ensures f(xs[j]).Success? {
            if j > 0 { assert xs[j] == xs[1..][j - 1]; }
          }
        }
        Failure(tail.error)
      else
        var ys := [head] + tail.value;
        assert forall i :: 0 <= i < |xs| ==> ys[i] == f(xs[i]).value by {
          forall i | 0 <= i < |xs| ensures ys[i] == f(xs[i]).value {
            if i > 0 { assert xs[i] == xs[1..][i - 1]; }
          }
        }
        assert forall b :: b in ys <==> exists a :: a in xs && f(a) == Success(b) by {
          forall b ensures b in ys <==> exists a :: a in xs && f(a) == Success(b) {
            if b in ys {
              var i :| 0 <= i < |ys| && ys[i] == b;
              assert xs[i] in xs && f(xs[i]) == Success(b);
            }
            if exists a :: a in xs && f(a) == Success(b) {
              var a :| a in xs && f(a) == Success(b);
              var i :| 0 <= i < |xs| && xs[i] == a;
              assert ys[i] == b;
            }
          }
        }
        Success(ys)
  }

  /** Converting a concatenation converts each part, in order. */
  lemma {:induction false} MapResultAppend<A(!new), B(!new), E>(xs: seq<A>, ys: seq<A>, f: A -> Result<B, E>)
    requires MapResult(xs, f).Success? && MapResult(ys, f).Success?
    ensures MapResult(xs + ys, f) == Success(MapResult(xs, f).value + MapResult(ys, f).value)
  {
    var r := MapResult(xs + ys, f);
    assert r.Success? by {
      forall i | 0 <= i < |xs + ys| ensures f((xs + ys)[i]).Success? {
        if i < |xs| { assert (xs + ys)[i] == xs[i]; } else { assert (xs + ys)[i] == ys[i - |xs|]; }
      }
    }
    var expected := MapResult(xs, f).value + MapResult(ys, f).value;
    assert |r.value| == |expected|;
    forall i | 0 <= i < |expected| ensures r.value[i] == expected[i] {
      if i < |xs| { assert (xs + ys)[i] == xs[i]; } else { assert (xs + ys)[i] == ys[i - |xs|]; }
    }
    assert r.value == expected;
  }
  /** A concatenation converts only when each part does, and then to the parts' conversions in order. */
  lemma MapResultSplit<A(!new), B(!new), E>(xs: seq<A>, ys: seq<A>, f: A -> Result<B, E>)
    ensures MapResult(xs + ys, f).Success? ==>
              && MapResult(xs, f).Success? && MapResult(ys, f).Success?
              && MapResult(xs + ys, f).value == MapResult(xs, f).value + MapResult(ys, f).value
  {
    if MapResult(xs + ys, f).Success? {
      forall i | 0 <= i < |xs| ensures f(xs[i]).Success? { assert (xs + ys)[i] == xs[i]; }
      forall i | 0 <= i < |ys| ensures f(ys[i]).Success? { assert (xs + ys)[|xs| + i] == ys[i]; }
      MapResultAppend(xs, ys, f);
    }
  }


  /** Selecting with two predicates that never both hold, and concatenating,
      selects the same rows, counted with multiplicity, as one pass with
      their disjunction `either`. */
  lemma {:induction false} FilterDisjointUnion<T(!new)>(xs: seq<T>, p: T -> bool, q: T -> bool, either: T -> bool)
    requires forall x :: !(p(x) && q(x))
    requires forall x :: either(x) == (p(x) || q(x))
    ensures multiset(Filter(xs, p) + Filter(xs, q)) == multiset(Filter(xs, either))
    decreases |xs|
  {
    if xs != [] {
      FilterDisjointUnion(xs[1..], p, q, either);
    }
  }

  /** Selecting with two predicates that agree everywhere selects the same rows. */
  lemma {:induction false} FilterSamePredicate<T(!new)>(xs: seq<T>, p: T -> bool, q: T -> bool)
    requires forall x :: p(x) == q(x)
    ensures Filter(xs, p) == Filter(xs, q)
    decreases |xs|
  {
    if xs != [] {
      FilterSamePredicate(xs[1..], p, q);
    }
  }
}
