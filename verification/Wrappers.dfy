/** Failure-free optional values and two-sided results, shared by every component. */
module Wrappers {
  datatype Option<+T> = None | Some(value: T)

  datatype Result<+T, +E> = Ok(value: T) | Err(error: E)
}

/** Facts about finite sets that several components need. */
module Sets {
  lemma Inhabited<T>(s: set<T>) returns (x: T)
    requires s != {}
    ensures x in s
  {
    x :| x in s;
  }

  /** A one-to-one image of a set is as large as the set. */
  lemma {:induction false} SameSize<A(!new), B(!new)>(a: set<A>, b: set<B>, f: A -> B)
    requires forall x | x in a :: f(x) in b
    requires forall y | y in b :: exists x :: x in a && f(x) == y
    requires forall x, x' | x in a && x' in a && f(x) == f(x') :: x == x'
    ensures |a| == |b|
    decreases |a|
  {
    if a == {} {
      if b != {} { var y := Inhabited(b); assert false; }
    } else {
      var x := Inhabited(a);
      forall y | y in b - {f(x)} ensures exists x' :: x' in a - {x} && f(x') == y {
        var x' :| x' in a && f(x') == y;
        assert x' in a - {x};
      }
      SameSize(a - {x}, b - {f(x)}, f);
    }
  }

  lemma SizeMonotone<T>(a: set<T>, b: set<T>)
    requires a <= b
    ensures |a| <= |b| && (|a| == |b| <==> a == b)
  {
    assert b == a + (b - a);
  }
}
