/** The optional value and the run of events used throughout the model. */
module Wrappers {
  datatype Option<+T> = None | Some(value: T)

  /** A run: the events so far, latest last. */
  datatype Run<+E> = Start | Then(past: Run<E>, last: E)

  function Repeated<E>(past: Run<E>, e: E, n: nat): Run<E> {
    if n == 0 then past else Then(Repeated(past, e, n - 1), e)
  }

  ghost predicate NoDup<T>(s: seq<T>) {
    forall i, j :: 0 <= i < j < |s| ==> s[i] != s[j]
  }
}
