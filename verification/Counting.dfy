/** Sets of numbers against lists. */
module Counting {

  /** A list with every element of a set is at least as long as the set. */
  lemma {:induction false} ListedAtMost(s: set<nat>, list: seq<nat>)
    requires forall i :: i in s ==> i in list
    ensures |s| <= |list|
    decreases |list|
  {
    if |list| > 0 {
      var rest := s - {list[0]};
      forall i | i in rest ensures i in list[1..] {
        assert list == [list[0]] + list[1..];
      }
      ListedAtMost(rest, list[1..]);
      assert |s| <= |rest| + 1 by {
        if list[0] in s {
          assert s == rest + {list[0]};
        } else {
          assert s == rest;
        }
      }
    } else {
      assert s == {};
    }
  }

  function Below(n: nat): (ids: set<nat>)
    ensures |ids| == n && forall k: nat :: k in ids <==> k < n
  {
    if n == 0 then {} else Below(n - 1) + {n - 1}
  }
}
