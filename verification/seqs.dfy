/** Facts about duplicate-free sequences, used for instance pools, replica
    groups and the instances chosen for one segment. */
module Seqs {

  /** No element occurs twice. */
  predicate Distinct<T(==)>(s: seq<T>) {
    forall i, j :: 0 <= i < j < |s| ==> s[i] != s[j]
  }

  /** The set of elements of a sequence. */
  function Elems<T(==)>(s: seq<T>): set<T> {
    set x | x in s
  }

  /** A sequence has at most as many distinct elements as it has positions. */
  lemma {:induction false} ElemsCardBound<T>(s: seq<T>)
    ensures |Elems(s)| <= |s|
  {
    if s != [] {
      ElemsCardBound(s[1..]);
      assert Elems(s) == {s[0]} + Elems(s[1..]);
    }
  }

  /** A duplicate-free sequence has exactly as many elements as positions. */
  lemma {:induction false} DistinctCard<T>(s: seq<T>)
    requires Distinct(s)
    ensures |Elems(s)| == |s|
  {
    if s != [] {
      assert Distinct(s[1..]);
      DistinctCard(s[1..]);
      assert Elems(s) == {s[0]} + Elems(s[1..]);
    }
  }

  /** Pigeonhole: a duplicate-free sequence cannot fit inside a shorter one. */
  lemma NotCovered<T>(big: seq<T>, small: seq<T>)
    requires Distinct(big)
    requires |small| < |big|
    ensures exists i :: 0 <= i < |big| && big[i] !in small
  {
    if forall i :: 0 <= i < |big| ==> big[i] in small {
      assert Elems(big) <= Elems(small);
      assert Elems(small) == Elems(big) + (Elems(small) - Elems(big));
      ElemsCardBound(small);
      DistinctCard(big);
    }
  }
}
