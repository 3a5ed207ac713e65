/** The elements of a list that have a property, and how often a list holds an element. */
module Filters {

  function Filtered<T>(p: T -> bool, s: seq<T>): seq<T>
  {
    if s == [] then []
    else
      var front, last := Filtered(p, s[..|s| - 1]), s[|s| - 1];
      if p(last) then front + [last] else front
  }

  lemma {:induction false} FilteredIff<T>(p: T -> bool, s: seq<T>, x: T)
    ensures x in Filtered(p, s) <==> x in s && p(x)
  {
    if s != [] {
      FilteredIff(p, s[..|s| - 1], x);
      assert s == s[..|s| - 1] + [s[|s| - 1]];
    }
  }

  /** Every element with the property is kept as often as it occurs, and no other. */
  lemma {:induction false} FilteredCount<T>(p: T -> bool, s: seq<T>, x: T)
    ensures multiset(Filtered(p, s))[x] == if p(x) then multiset(s)[x] else 0
  {
    if s != [] {
      FilteredCount(p, s[..|s| - 1], x);
      assert s == s[..|s| - 1] + [s[|s| - 1]];
    }
  }

  /** The places at which a list holds an element. */
  function Places<T(==)>(s: seq<T>, x: T): set<nat>
  {
    set i: nat | i < |s| && s[i] == x
  }

  lemma {:induction false} PlacesCount<T>(s: seq<T>, x: T)
    ensures |Places(s, x)| == multiset(s)[x]
  {
    if s != [] {
      var front, n := s[..|s| - 1], |s| - 1;
      PlacesCount(front, x);
      assert s == front + [s[n]];
      if s[n] == x {
        assert Places(s, x) == Places(front, x) + {n};
      } else {
        assert Places(s, x) == Places(front, x);
      }
    }
  }
}
