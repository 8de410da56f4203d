/**
  Operations on ordered piles (Rust `Vec`s), stated as values:
  `Vec::remove`, `Vec::swap`, and the sequence that remains once a set of
  positions has been taken out of a pile.
 */
module Piles {

  /** `Vec::remove(i)`: the pile with its `i`-th element taken out and later ones shifted down. */
  function RemoveAt<T>(s: seq<T>, i: nat): (r: seq<T>)
    requires i < |s|
    ensures |r| == |s| - 1
    ensures forall k :: 0 <= k < i ==> r[k] == s[k]
    ensures forall k :: i <= k < |r| ==> r[k] == s[k + 1]
    ensures multiset(r) + multiset{s[i]} == multiset(s)
  {
    assert s == s[..i] + [s[i]] + s[i + 1..];
    s[..i] + s[i + 1..]
  }

  /** `Vec::swap(i, j)`: the two elements exchanged, everything else in place. */
  function SwapAt<T>(s: seq<T>, i: nat, j: nat): (r: seq<T>)
    requires i < |s| && j < |s|
    ensures |r| == |s|
    ensures r[i] == s[j] && r[j] == s[i]
    ensures forall k :: 0 <= k < |s| && k != i && k != j ==> r[k] == s[k]
    ensures multiset(r) == multiset(s)
  {
    s[i := s[j]][j := s[i]]
  }

  /** The elements of `s` whose positions are not in `idx`, in their original order. */
  function Without<T>(s: seq<T>, idx: set<nat>): (r: seq<T>)
    ensures |r| <= |s|
    decreases |s|
  {
    if s == [] then []
    else Without(s[..|s| - 1], idx) + (if |s| - 1 in idx then [] else [s[|s| - 1]])
  }

  /** Positions that do not exist in `s` take nothing out of it. */
  lemma {:induction false} WithoutNothing<T>(s: seq<T>, idx: set<nat>)
    requires forall j :: j in idx ==> j >= |s|
    ensures Without(s, idx) == s
    decreases |s|
  {
    if s != [] {
      WithoutNothing(s[..|s| - 1], idx);
      assert s == s[..|s| - 1] + [s[|s| - 1]];
    }
  }

  /**
    Removing position `i` from a pile out of which only positions above `i`
    have been taken finds the original element at `i`, and leaves the pile
    with positions `J + {i}` taken out. This is why the source removes in
    descending index order.
   */
  lemma {:induction false} WithoutThenRemove<T>(s: seq<T>, J: set<nat>, i: nat)
    requires i < |s|
    requires forall j :: j in J ==> j > i
    ensures i < |Without(s, J)|
    ensures Without(s, J)[i] == s[i]
    ensures RemoveAt(Without(s, J), i) == Without(s, J + {i})
    decreases |s|
  {
    if i == |s| - 1 {
      LastRemoved(s, J);
    } else {
      WithoutThenRemove(s[..|s| - 1], J, i);
      InnerRemoved(s, J, i);
    }
  }

  /** The base case of `WithoutThenRemove`: `i` is the last position, so nothing has been taken yet. */
  lemma LastRemoved<T>(s: seq<T>, J: set<nat>)
    requires |s| > 0
    requires forall j :: j in J ==> j > |s| - 1
    ensures Without(s, J) == s
    ensures RemoveAt(s, |s| - 1) == Without(s, J + {|s| - 1})
  {
    var init := s[..|s| - 1];
    WithoutNothing(s, J);
    WithoutNothing(init, J + {|s| - 1});
    assert Without(s, J + {|s| - 1}) == Without(init, J + {|s| - 1});
  }

  /** The step of `WithoutThenRemove`: the last element is kept or dropped alike on both sides. */
  lemma InnerRemoved<T>(s: seq<T>, J: set<nat>, i: nat)
    requires i < |s| - 1
    requires i < |Without(s[..|s| - 1], J)| && Without(s[..|s| - 1], J)[i] == s[i]
    requires RemoveAt(Without(s[..|s| - 1], J), i) == Without(s[..|s| - 1], J + {i})
    ensures i < |Without(s, J)|
    ensures Without(s, J)[i] == s[i]
    ensures RemoveAt(Without(s, J), i) == Without(s, J + {i})
  {
    var init := s[..|s| - 1];
    var w := Without(init, J);
    var tail := if |s| - 1 in J then [] else [s[|s| - 1]];
    assert Without(s, J) == w + tail;
    assert Without(s, J + {i}) == Without(init, J + {i}) + tail;
    RemoveAtAppend(w, tail, i);
  }

  lemma RemoveAtAppend<T>(a: seq<T>, b: seq<T>, i: nat)
    requires i < |a|
    ensures RemoveAt(a + b, i) == RemoveAt(a, i) + b
  {
  }

  /** The pile reversed: the order `insert(0, …)` applied element by element leaves. */
  function Reversed<T>(s: seq<T>): (r: seq<T>)
    ensures |r| == |s|
    decreases |s|
  {
    if s == [] then [] else [s[|s| - 1]] + Reversed(s[..|s| - 1])
  }

  lemma {:induction false} ReversedIndex<T>(s: seq<T>, k: nat)
    requires k < |s|
    ensures Reversed(s)[k] == s[|s| - 1 - k]
    decreases |s|
  {
    if k > 0 {
      ReversedIndex(s[..|s| - 1], k - 1);
    }
  }

  lemma {:induction false} ReversedMultiset<T>(s: seq<T>)
    ensures multiset(Reversed(s)) == multiset(s)
    decreases |s|
  {
    if s != [] {
      ReversedMultiset(s[..|s| - 1]);
      assert s == s[..|s| - 1] + [s[|s| - 1]];
    }
  }
}
