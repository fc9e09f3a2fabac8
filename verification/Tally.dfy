/** Sums of a weight over the threads of a pool. */
module Tally {

  function Total<T>(s: seq<T>, weight: T -> nat): nat {
    if s == [] then 0 else Total(s[..|s| - 1], weight) + weight(s[|s| - 1])
  }

  /** Replacing one element changes the total by the difference of the weights. */
  lemma {:induction false} TotalUpdate<T>(s: seq<T>, weight: T -> nat, i: nat, t: T)
    requires i < |s|
    ensures Total(s[i := t], weight) + weight(s[i]) == Total(s, weight) + weight(t)
  {
    var n := |s| - 1;
    if i == n {
      assert s[i := t][..n] == s[..n];
    } else {
      assert s[i := t][..n] == s[..n][i := t];
      TotalUpdate(s[..n], weight, i, t);
    }
  }

  /** With weights at most 1, the total lies between 0 and the length; it is zero
      exactly when every weight is 0 and full exactly when every weight is 1. */
  lemma {:induction false} TotalBounds<T>(s: seq<T>, weight: T -> nat)
    requires forall t :: t in s ==> weight(t) <= 1
    ensures 0 <= Total(s, weight) <= |s|
    ensures Total(s, weight) == 0 <==> forall i :: 0 <= i < |s| ==> weight(s[i]) == 0
    ensures Total(s, weight) == |s| <==> forall i :: 0 <= i < |s| ==> weight(s[i]) == 1
  {
    if s == [] {
    } else {
      var n := |s| - 1;
      assert s == s[..n] + [s[n]];
      TotalBounds(s[..n], weight);
      assert forall i :: 0 <= i < n ==> s[..n][i] == s[i];
    }
  }

  /** A pool of equals. */
  lemma {:induction false} TotalOfEquals<T>(s: seq<T>, weight: T -> nat, w: nat)
    requires forall i :: 0 <= i < |s| ==> weight(s[i]) == w
    ensures Total(s, weight) == |s| * w
  {
    if s == [] {
    } else {
      var n := |s| - 1;
      TotalOfEquals(s[..n], weight, w);
      assert |s| * w == n * w + w;
    }
  }
}
