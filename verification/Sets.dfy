/** Counting the elements of sets. */
module Sets {
  lemma {:induction false} FewerInside<T>(a: set<T>, b: set<T>)
    requires a <= b
    ensures |a| <= |b|
  {
    if a != {} {
      var x :| x in a;
      FewerInside(a - {x}, b - {x});
    }
  }
}
