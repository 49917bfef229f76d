/** What several modules share. */
module Common {

  datatype Option<+T> = None | Some(value: T)

  /** Marks the places where a folded invariant is opened. */
  predicate Unfold(u: int)
  {
    true
  }

  lemma {:induction false} SubsetSize<T>(a: set<T>, b: set<T>)
    requires a <= b
    ensures |a| <= |b|
    decreases a
  {
    if x :| x in a {
      SubsetSize(a - {x}, b - {x});
    }
  }
}
