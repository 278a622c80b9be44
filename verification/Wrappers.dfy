/** Small helpers shared by the modules. */
module Wrappers {

  /** A value that may be missing. */
  datatype Option<T> = None | Some(value: T)

  function Filled<T>(x: T, n: nat): (s: seq<T>)
    ensures |s| == n && forall i :: 0 <= i < n ==> s[i] == x
  {
    seq(n, _ => x)
  }

  /** The first place where the test holds, or the length. */
  function FirstIndex<T>(xs: seq<T>, hit: T -> bool): (i: nat)
    ensures i <= |xs|
    ensures i < |xs| ==> hit(xs[i])
    ensures forall j :: 0 <= j < i ==> !hit(xs[j])
  {
    if xs == [] || hit(xs[0]) then 0 else 1 + FirstIndex(xs[1..], hit)
  }
}
