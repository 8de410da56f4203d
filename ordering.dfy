/**
  Strict total orders and the ascending enumeration of a finite set under one.
  The source collects a `HashSet` into a `Vec` and calls `sort()` on it
  (src/state.rs:634-636, 656-658); `SortedSet` is the value that sort produces.
 */
module Ordering {

  ghost predicate StrictTotalOrder<T(!new)>(lt: (T, T) -> bool)
  {
    && (forall a :: !lt(a, a))
    && (forall a, b, c :: lt(a, b) && lt(b, c) ==> lt(a, c))
    && (forall a, b :: a != b ==> lt(a, b) || lt(b, a))
  }

  ghost predicate StrictlySorted<T>(v: seq<T>, lt: (T, T) -> bool)
  {
    forall i, j :: 0 <= i < j < |v| ==> lt(v[i], v[j])
  }

  /** `m` is the greatest element of `s`. */
  predicate IsGreatest<T(==)>(m: T, s: set<T>, lt: (T, T) -> bool)
  {
    m in s && forall y :: y in s && y != m ==> lt(y, m)
  }

  lemma {:induction false} GreatestExists<T(!new)>(s: set<T>, lt: (T, T) -> bool)
    requires StrictTotalOrder(lt)
    requires s != {}
    ensures exists m :: IsGreatest(m, s, lt)
    decreases s
  {
    var x :| x in s;
    if s != {x} {
      GreatestExists(s - {x}, lt);
      var m' :| IsGreatest(m', s - {x}, lt);
      if lt(m', x) {
        assert IsGreatest(x, s, lt);
      } else {
        assert IsGreatest(m', s, lt);
      }
    } else {
      assert IsGreatest(x, s, lt);
    }
  }

  /** The elements of `s` in strictly ascending order. */
  function SortedSet<T(==,!new)>(s: set<T>, lt: (T, T) -> bool): (v: seq<T>)
    requires StrictTotalOrder(lt)
    ensures |v| == |s|
    ensures forall x :: x in v <==> x in s
    ensures StrictlySorted(v, lt)
    decreases s
  {
    if s == {} then []
    else
      GreatestExists(s, lt);
      var m :| IsGreatest(m, s, lt);
      var rest := SortedSet(s - {m}, lt);
      AppendGreatest(rest, s, m, lt);
      rest + [m]
  }

  /** A sorted enumeration of the rest of `s`, then its greatest element, enumerates `s` in order. */
  lemma AppendGreatest<T(!new)>(rest: seq<T>, s: set<T>, m: T, lt: (T, T) -> bool)
    requires IsGreatest(m, s, lt)
    requires |rest| == |s - {m}| && (forall x :: x in rest <==> x in s - {m})
    requires StrictlySorted(rest, lt)
    ensures |rest + [m]| == |s|
    ensures forall x :: x in rest + [m] <==> x in s
    ensures StrictlySorted(rest + [m], lt)
  {
    assert forall i :: 0 <= i < |rest| ==> rest[i] in s - {m};
  }

  /** Two strictly sorted sequences with the same elements are the same sequence. */
  lemma {:induction false} SortedUnique<T(!new)>(v: seq<T>, w: seq<T>, lt: (T, T) -> bool)
    requires StrictTotalOrder(lt)
    requires StrictlySorted(v, lt) && StrictlySorted(w, lt)
    requires |v| == |w|
    requires forall x :: x in v <==> x in w
    ensures v == w
    decreases |v|
  {
    if v != [] {
      var a, b := v[|v| - 1], w[|w| - 1];
      assert a in w && b in v;
      var v', w' := v[..|v| - 1], w[..|w| - 1];
      forall x ensures x in v' <==> x in w' {
        if x in v' {
          var i :| 0 <= i < |v'| && v'[i] == x;
          assert lt(x, a);
          assert x in w;
        }
        if x in w' {
          var j :| 0 <= j < |w'| && w'[j] == x;
          assert lt(x, b);
          assert x in v;
        }
      }
      SortedUnique(v', w', lt);
      assert v == v' + [a] && w == w' + [b];
    }
  }

  function NatLess(a: nat, b: nat): bool
  {
    a < b
  }

  lemma NatLessIsStrictTotalOrder()
    ensures StrictTotalOrder(NatLess)
  {
  }
}
