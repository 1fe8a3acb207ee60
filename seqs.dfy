/** Sequence facts shared by the ordered collections of the model. */
module Seqs {

  /** No element occurs twice. */
  predicate Distinct<X(==)>(s: seq<X>) {
    forall i, j :: 0 <= i < j < |s| ==> s[i] != s[j]
  }

  /** `s` with every occurrence of `x` removed, the others kept in order. */
  function Without<X(==)>(s: seq<X>, x: X): (r: seq<X>)
    ensures forall y :: y in r ==> y in s && y != x
    ensures forall y :: y in s && y != x ==> y in r
    ensures Distinct(s) ==> Distinct(r)
    ensures x in s && Distinct(s) ==> |r| == |s| - 1
    ensures x !in s ==> r == s
  {
    if s == [] then []
    else if s[0] == x then Without(s[1..], x)
    else
      var rest := Without(s[1..], x);
      assert Distinct(s) ==> Distinct(s[1..]) && s[0] !in rest;
      [s[0]] + rest
  }

  /** Removing the head of a sequence without repetitions leaves its tail. */
  lemma WithoutHead<X>(s: seq<X>)
    requires s != [] && Distinct(s)
    ensures Without(s, s[0]) == s[1..]
  {
    assert s[0] !in s[1..];
  }

  /** `s` with the LAST occurrence of `x` removed: how .NET takes a handler off a multicast delegate. */
  function RemoveLast<X(==)>(s: seq<X>, x: X): (r: seq<X>)
    ensures x !in s ==> r == s
    ensures x in s ==> |r| == |s| - 1 && multiset(r) == multiset(s) - multiset{x}
  {
    if s == [] then []
    else
      assert s == s[..|s| - 1] + [s[|s| - 1]];
      if s[|s| - 1] == x then s[..|s| - 1]
      else RemoveLast(s[..|s| - 1], x) + [s[|s| - 1]]
  }

  /**
   * What RemoveLast drops is the last occurrence of `x`: the elements before
   * and after it stay, in their order.
   */
  lemma {:induction false} RemoveLastDropsLast<X>(s: seq<X>, x: X) returns (k: nat)
    requires x in s
    ensures k < |s| && s[k] == x && x !in s[k + 1..]
    ensures RemoveLast(s, x) == s[..k] + s[k + 1..]
  {
    var t, y := s[..|s| - 1], s[|s| - 1];
    assert s == t + [y];
    if y == x {
      k := |t|;
      assert s[k + 1..] == [];
    } else {
      assert x in t;
      k := RemoveLastDropsLast(t, x);
      SliceAroundInit(t, y, k);
    }
  }

  /** Slicing `t + [y]` around a position of `t`. */
  lemma SliceAroundInit<X>(t: seq<X>, y: X, k: nat)
    requires k < |t|
    ensures (t + [y])[k] == t[k]
    ensures (t + [y])[..k] == t[..k]
    ensures (t + [y])[k + 1..] == t[k + 1..] + [y]
  {
  }
}
