/** Picking from sets. */
module Sets {
  /** A set that is not empty has a member; named, so that a loop may go on to choose one. */
  lemma SomeMember<T>(s: set<T>) returns (x: T)
    requires s != {}
    ensures x in s
  {
    x :| x in s;
  }
}
