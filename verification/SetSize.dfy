/** How subsets compare in size: the measure of every walk that marks what it has seen. */
module SetSize {
  lemma {:induction false} NoMore<T>(a: set<T>, b: set<T>)
    requires a <= b
    ensures |a| <= |b|
  {
    if a != {} {
      var x :| x in a;
      NoMore(a - {x}, b - {x});
    }
  }

  lemma Fewer<T>(a: set<T>, b: set<T>, x: T)
    requires a <= b && x in b && x !in a
    ensures |a| < |b|
  {
    NoMore(a, b - {x});
  }
}
