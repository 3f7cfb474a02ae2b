/** Sequences without repetition. */
module Sequences {

  ghost predicate NoDuplicates<T>(s: seq<T>) {
    forall i, j :: 0 <= i < j < |s| ==> s[i] != s[j]
  }

  function Members<T(==)>(s: seq<T>): set<T> {
    set x | x in s
  }

  /** A sequence has as many members as elements exactly when none repeats. */
  lemma {:induction false} SizeOfMembers<T>(s: seq<T>)
    ensures |Members(s)| <= |s|
    ensures |Members(s)| == |s| <==> NoDuplicates(s)
  {
    if s != [] {
      var init, last := s[..|s| - 1], s[|s| - 1];
      var small, all := Members(init), Members(s);
      SizeOfMembers(init);
      assert s == init + [last];
      assert all == small + {last};
      if last in small {
        assert all == small;
        var i :| 0 <= i < |init| && init[i] == last;
        assert s[i] == s[|s| - 1];
      } else {
        assert |all| == |small| + 1;
        assert forall i :: 0 <= i < |init| ==> s[i] == init[i] && s[i] in small;
        assert NoDuplicates(init) ==> NoDuplicates(s);
        assert NoDuplicates(s) ==> NoDuplicates(init);
      }
    }
  }
}
