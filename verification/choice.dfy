/** Choosing an arbitrary element, for definitions that take a finite
    collection apart one element at a time. */
module Choice {

  /** Some element of a non-empty set. */
  ghost function Pick<T>(s: set<T>): (x: T)
    requires s != {}
    ensures x in s
  {
    var x :| x in s; x
  }
}
