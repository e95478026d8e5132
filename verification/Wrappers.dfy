/** The values and facts shared by the models. */
module Wrappers {
  // Python's `None`, SQL's NULL, JavaScript's `null`.
  datatype Option<+T> = None | Some(value: T)

  lemma AnyOf<T>(s: set<T>) returns (x: T)
    requires s != {}
    ensures x in s
  {
    x :| x in s;
  }
}
