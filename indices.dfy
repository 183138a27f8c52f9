/** Sets of indices below a bound, as `Object.keys` of an index map or a
    `Set` of card positions. */
module Indices {

  /** A set of indices below n has at most n members, and exactly n when it
      holds every index below n. */
  lemma {:induction false} FullRange(s: set<nat>, n: nat)
    requires forall x :: x in s ==> x < n
    ensures |s| <= n
    ensures |s| == n <==> forall i :: 0 <= i < n ==> i in s
  {
    if n > 0 {
      var rest := s - {n - 1};
      FullRange(rest, n - 1);
      if n - 1 in s {
        assert s == rest + {n - 1};
        assert |s| == |rest| + 1;
      } else {
        assert rest == s;
      }
    } else {
      assert s == {};
    }
  }
}
