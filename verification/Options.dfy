// A value that may be missing, and how sets compare in size.
module Options {
  datatype Option<+T> = None | Some(value: T)

  lemma {:induction false} FewerMembers<T>(a: set<T>, b: set<T>)
    requires a <= b
    ensures |a| <= |b|
  {
    if a != {} {
      var x :| x in a;
      FewerMembers(a - {x}, b - {x});
    }
  }
}
