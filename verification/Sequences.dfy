/** Facts about sequences that several components share. */
module Sequences {

  /** The concatenation of a list of sequences. */
  function Flatten<T>(parts: seq<seq<T>>): (r: seq<T>) {
    if parts == [] then [] else parts[0] + Flatten(parts[1..])
  }

  lemma {:induction false} FlattenAppend<T>(a: seq<seq<T>>, b: seq<seq<T>>)
    ensures Flatten(a + b) == Flatten(a) + Flatten(b)
  {
    if a == [] {
      assert a + b == b;
    } else {
      assert (a + b)[0] == a[0] && (a + b)[1..] == a[1..] + b;
      FlattenAppend(a[1..], b);
    }
  }

  /** `n` elements at the front of `a` and `b` agree. */
  predicate AgreeFront<T(==)>(a: seq<T>, b: seq<T>, n: nat) {
    n <= |a| && n <= |b| && forall i :: 0 <= i < n ==> a[i] == b[i]
  }

  /** Element `i`, counted from the end. */
  function FromBack<T>(a: seq<T>, i: nat): (x: T)
    requires i < |a|
  {
    a[|a| - 1 - i]
  }

  /** `n` elements at the back of `a` and `b` agree. */
  predicate AgreeBack<T(==)>(a: seq<T>, b: seq<T>, n: nat) {
    n <= |a| && n <= |b| && forall i :: 0 <= i < n ==> FromBack(a, i) == FromBack(b, i)
  }

  /** The length of the longest common prefix. */
  function CommonPrefix<T(==)>(a: seq<T>, b: seq<T>): (n: nat)
    ensures n <= |a| && n <= |b| && AgreeFront(a, b, n)
    ensures n < |a| && n < |b| ==> a[n] != b[n]
  {
    if a == [] || b == [] || a[0] != b[0] then 0 else 1 + CommonPrefix(a[1..], b[1..])
  }

  /** The length of the longest common suffix. */
  function CommonSuffix<T(==)>(a: seq<T>, b: seq<T>): (n: nat)
    ensures n <= |a| && n <= |b| && AgreeBack(a, b, n)
    ensures n < |a| && n < |b| ==> FromBack(a, n) != FromBack(b, n)
  {
    if a == [] || b == [] || a[|a| - 1] != b[|b| - 1] then 0
    else
      var a', b' := a[..|a| - 1], b[..|b| - 1];
      assert forall i :: 1 <= i < |a| ==> FromBack(a, i) == FromBack(a', i - 1);
      assert forall i :: 1 <= i < |b| ==> FromBack(b, i) == FromBack(b', i - 1);
      1 + CommonSuffix(a', b')
  }

  /** Exactly the agreements at the front are within the longest common prefix. */
  lemma WithinCommonPrefix<T>(a: seq<T>, b: seq<T>, n: nat)
    ensures AgreeFront(a, b, n) <==> n <= CommonPrefix(a, b)
    ensures AgreeFront(b, a, n) <==> n <= CommonPrefix(a, b)
  {
    assert AgreeFront(a, b, CommonPrefix(a, b));
  }

  /** Exactly the agreements at the back are within the longest common suffix. */
  lemma WithinCommonSuffix<T>(a: seq<T>, b: seq<T>, n: nat)
    ensures AgreeBack(a, b, n) <==> n <= CommonSuffix(a, b)
    ensures AgreeBack(b, a, n) <==> n <= CommonSuffix(a, b)
  {
    assert AgreeBack(a, b, CommonSuffix(a, b));
  }

  /** Agreement at the back, as equal slices. */
  lemma BackSlices<T>(a: seq<T>, b: seq<T>, n: nat)
    requires AgreeBack(a, b, n)
    ensures n <= |a| && n <= |b| && a[|a| - n..] == b[|b| - n..]
  {
    var x, y := a[|a| - n..], b[|b| - n..];
    forall i | 0 <= i < n ensures x[i] == y[i] {
      assert FromBack(a, n - 1 - i) == FromBack(b, n - 1 - i);
    }
  }
}
