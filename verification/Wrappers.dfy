/** A value that may be absent. */
module Options {

  datatype Option<+T> = None | Some(value: T)
}

/** A value or an error. */
module Results {

  datatype Result<+T> = Ok(value: T) | Error
  {
    predicate IsFailure() { Error? }
    function PropagateFailure<U>(): Result<U> requires Error? { Error }
    function Extract(): T requires Ok? { value }
  }
}

/** Walks over a set, such as the keys of a map, in the order the runtime picks. */
module Walks {

  lemma {:induction false} HasElement<T>(s: set<T>)
    ensures s != {} ==> exists x :: x in s
  {
    if forall x :: x !in s { assert s == {}; }
  }

  lemma {:induction false} Element<T>(s: set<T>) returns (x: T)
    requires s != {}
    ensures x in s
  {
    HasElement(s);
    x :| x in s;
  }

  /** The next element of a walk. */
  method Pick<T(==)>(s: set<T>) returns (x: T)
    requires s != {}
    ensures x in s
  {
    HasElement(s);
    x :| x in s;
  }
}
