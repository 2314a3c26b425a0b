/** Loops over the elements of a set: those that are done and those that are left. */
module Partition {

  ghost predicate Split<T>(all: set<T>, done: set<T>, rest: set<T>) {
    done + rest == all && done !! rest
  }

  lemma SplitStart<T>(all: set<T>)
    ensures Split(all, {}, all)
  {
  }

  lemma SplitStep<T>(all: set<T>, done: set<T>, rest: set<T>, x: T)
    requires Split(all, done, rest) && x in rest
    ensures x in all && x !in done && done <= all && Split(all, done + {x}, rest - {x})
  {
  }

  lemma SplitEnd<T>(all: set<T>, done: set<T>)
    requires Split(all, done, {})
    ensures done == all
  {
  }
}
