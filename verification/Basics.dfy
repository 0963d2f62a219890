/** What several components share: optional values and the sizes of sets. */
module Basics {
  datatype Option<+T> = None | Some(value: T)

  lemma {:induction false} NotLarger<T>(a: set<T>, b: set<T>)
    requires a <= b
    ensures |a| <= |b|
  {
    if a != {} {
      var x :| x in a;
      NotLarger(a - {x}, b - {x});
    }
  }
}
