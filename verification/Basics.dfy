/** What several modules share. */
module Basics {
  datatype Option<+T> = None | Some(value: T)

  /** One element moves from those to do to those done. */
  lemma TakeOne<T>(all: set<T>, todo: set<T>, x: T)
    requires todo <= all && x in todo
    ensures all - (todo - {x}) == (all - todo) + {x}
  {
  }
}
