/** Sizes of finite sets. */
module Sets {
  lemma Member<T>(s: set<T>) returns (x: T)
    requires s != {}
    ensures x in s
  {
    x :| x in s;
  }

  lemma {:induction false} SubsetSize<T>(s: set<T>, t: set<T>)
    requires s <= t
    ensures |s| <= |t|
  {
    if s != {} {
      var v :| v in s;
      SubsetSize(s - {v}, t - {v});
    }
  }

  lemma Interval(lo: int, hi: int) returns (s: set<int>)
    requires lo <= hi
    ensures |s| == hi - lo && forall v :: v in s <==> lo <= v < hi
    decreases hi - lo
  {
    if lo == hi {
      s := {};
    } else {
      s := Interval(lo, hi - 1);
      s := s + {hi - 1};
    }
  }
}
