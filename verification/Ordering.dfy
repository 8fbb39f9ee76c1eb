/** Finite sets of numbers in ascending order. */
module Ordering {
  ghost predicate Ascends(xs: seq<nat>) {
    forall i, j :: 0 <= i < j < |xs| ==> xs[i] < xs[j]
  }

  predicate IsLeast(keys: set<nat>, m: nat) {
    m in keys && forall k :: k in keys ==> m <= k
  }

  lemma {:induction false} HasLeast(keys: set<nat>)
    requires keys != {}
    ensures exists m :: IsLeast(keys, m)
  {
    var x :| x in keys;
    var rest := keys - {x};
    if rest == {} {
      assert keys == {x};
      assert IsLeast(keys, x);
    } else {
      HasLeast(rest);
      var m :| IsLeast(rest, m);
      forall k | k in keys ensures m <= k || x <= k { assert k == x || k in rest; }
      assert IsLeast(keys, if m < x then m else x);
    }
  }

  function Least(keys: set<nat>): (m: nat)
    requires keys != {}
    ensures IsLeast(keys, m)
  {
    HasLeast(keys);
    var m :| IsLeast(keys, m);
    m
  }

  function Ordered(keys: set<nat>): (xs: seq<nat>)
    ensures Ascends(xs) && |xs| == |keys|
    ensures forall k :: k in xs <==> k in keys
  {
    if keys == {} then [] else [Least(keys)] + Ordered(keys - {Least(keys)})
  }

  lemma EmptyIff(xs: seq<nat>)
    ensures xs == [] <==> forall k :: k !in xs
  {
    if xs != [] { assert xs[0] in xs; }
  }

  /** Ascending sequences of the same values are equal. */
  lemma {:induction false} AscendsUnique(xs: seq<nat>, ys: seq<nat>)
    requires Ascends(xs) && Ascends(ys) && forall k :: k in xs <==> k in ys
    ensures xs == ys
  {
    EmptyIff(xs);
    EmptyIff(ys);
    if xs != [] {
      assert xs[0] in ys;
      assert ys[0] in xs;
      assert xs[0] == ys[0];
      var a, b := xs[1..], ys[1..];
      forall k ensures k in a <==> k in b {
        assert k in a <==> k in xs && k != xs[0];
        assert k in b <==> k in ys && k != ys[0];
      }
      AscendsUnique(a, b);
    }
  }

  lemma Subsets<T>(a: set<T>, b: set<T>)
    requires a <= b
    ensures |a| <= |b|
  {
    assert b == a + (b - a);
  }
}
