/** Sums of reals, and that their order does not matter. */
module Sums {
  import opened Tensors

  function SumOf(s: seq<real>): (r: real) {
    if s == [] then 0.0 else SumOf(s[..|s| - 1]) + s[|s| - 1]
  }

  /** The elements of s in the order of the table. */
  function Gather<T>(s: seq<T>, p: seq<nat>): (r: seq<T>)
    requires forall i :: 0 <= i < |p| ==> p[i] < |s|
    ensures |r| == |p| && forall i :: 0 <= i < |p| ==> r[i] == s[p[i]]
  {
    seq(|p|, i requires 0 <= i < |p| => s[p[i]])
  }

  lemma {:induction false} SumRemove(s: seq<real>, i: nat)
    requires i < |s|
    ensures SumOf(s) == SumOf(s[..i] + s[i + 1..]) + s[i]
  {
    var n := |s| - 1;
    if i == n {
      assert s[..i] + s[i + 1..] == s[..n];
    } else {
      var t := s[..i] + s[i + 1..];
      assert t[..n - 1] == s[..n][..i] + s[..n][i + 1..] && t[n - 1] == s[n];
      SumRemove(s[..n], i);
    }
  }

  /** A permutation without its largest value, which stands at place i. */
  lemma SmallerPermutation(p: seq<nat>, i: nat)
    requires IsPermutation(p) && i < |p| && p[i] == |p| - 1
    ensures IsPermutation(p[..i] + p[i + 1..])
  {
    var q := p[..i] + p[i + 1..];
    assert forall j :: 0 <= j < |q| ==> q[j] == p[if j < i then j else j + 1];
    forall e | 0 <= e < |q| ensures e in q {
      var j := Position(p, e);
      assert j != i;
      assert q[if j < i then j else j - 1] == e;
    }
  }

  /** Taking the elements in another order does not change their sum. */
  lemma {:induction false} SumPermuted(s: seq<real>, p: seq<nat>)
    requires IsPermutation(p) && |p| == |s|
    ensures SumOf(Gather(s, p)) == SumOf(s)
    decreases |s|
  {
    if s == [] {
    } else {
      var n := |s| - 1;
      assert n in p;
      var i := Position(p, n);
      var q, g := p[..i] + p[i + 1..], Gather(s, p);
      SmallerPermutation(p, i);
      assert g[..i] + g[i + 1..] == Gather(s[..n], q);
      SumRemove(g, i);
      SumPermuted(s[..n], q);
    }
  }
}
