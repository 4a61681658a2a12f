/** Declarations shared by the other modules. */
module Collections {

  datatype Option<+T> = None | Some(value: T)

  /** No element of the sequence occurs twice. */
  ghost predicate NoDup<T>(s: seq<T>)
  {
    forall i, j :: 0 <= i < j < |s| ==> s[i] != s[j]
  }
}
