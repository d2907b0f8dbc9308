/** Sequence helpers shared by the page model: searching, and the "active"
    class flags of a list of DOM elements, represented as a seq<bool>. */
module Seqs {

  /** Position of the first occurrence of x in s, or |s| when x does not
      occur (the DOM lookups and String.prototype.indexOf both stop at the
      first match). */
  function IndexOf<T(==)>(s: seq<T>, x: T): (r: nat)
    ensures r <= |s|
    ensures r < |s| <==> x in s
    ensures r < |s| ==> s[r] == x
    ensures forall j :: 0 <= j < r ==> s[j] != x
  {
    if s == [] then 0
    else if s[0] == x then 0
    else 1 + IndexOf(s[1..], x)
  }

  /** Number of set flags, i.e. how many elements carry the class. */
  function CountTrue(s: seq<bool>): nat
  {
    if s == [] then 0 else CountTrue(s[..|s| - 1]) + (if s[|s| - 1] then 1 else 0)
  }

  /** Exactly the element at position k carries the class. */
  predicate OnlyAt(s: seq<bool>, k: int)
  {
    0 <= k < |s| && forall j :: 0 <= j < |s| ==> s[j] == (j == k)
  }

  /** Every flag other than the one at position k is clear. */
  predicate ClearExcept(s: seq<bool>, k: int)
  {
    forall j :: 0 <= j < |s| && j != k ==> !s[j]
  }

  lemma {:induction false} CountTrueAtMostOne(s: seq<bool>, k: int)
    requires ClearExcept(s, k)
    ensures CountTrue(s) <= 1
    ensures CountTrue(s) == (if 0 <= k < |s| && s[k] then 1 else 0)
  {
    if s != [] {
      var p := s[..|s| - 1];
      assert ClearExcept(p, k) by {
        forall j | 0 <= j < |p| && j != k ensures !p[j] { assert p[j] == s[j]; }
      }
      CountTrueAtMostOne(p, k);
      if 0 <= k < |p| {
        assert p[k] == s[k];
      }
    }
  }

  /** An OnlyAt flag list has exactly one element active. */
  lemma OnlyAtCountsOne(s: seq<bool>, k: int)
    requires OnlyAt(s, k)
    ensures CountTrue(s) == 1
  {
    CountTrueAtMostOne(s, k);
  }
}
