/**
 Two facts about the sizes of sets.
 */
module Sets {
  lemma TwoMembers<T>(s: set<T>, x: T)
    requires x in s && s != {x}
    ensures |s| > 1
  {
    var y :| y in s && y != x;
    assert {x, y} <= s;
    SubsetSize({x, y}, s);
  }

  lemma SubsetSize<T>(a: set<T>, b: set<T>)
    requires a <= b
    ensures |a| <= |b| && (a != b ==> |a| < |b|)
  {
    if a != {} {
      var x :| x in a;
      SubsetSize(a - {x}, b - {x});
    }
  }
}
