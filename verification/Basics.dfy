/** Vocabulary shared by the other modules. */
module Basics {

  /** A timestamp, in whole units of whatever clock the component reads. */
  type Time = int

  /** A nullable column, or a query that may return no row. */
  datatype Option<+T> = None | Some(value: T)

  lemma Element<T>(s: set<T>) returns (x: T)
    requires s != {}
    ensures x in s
  {
    x :| x in s;
  }

  lemma {:induction false} SubsetSize<T>(small: set<T>, big: set<T>)
    requires small <= big
    ensures |small| <= |big|
  {
    if x :| x in small {
      SubsetSize(small - {x}, big - {x});
    }
  }
}
