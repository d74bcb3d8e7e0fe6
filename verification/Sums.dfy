/** Sums of sequences of counts. */
module Sums {

  ghost function Sum(s: seq<nat>): nat {
    if s == [] then 0 else Sum(s[..|s| - 1]) + s[|s| - 1]
  }

  lemma {:induction false} SumUpdate(s: seq<nat>, i: nat, v: nat)
    requires i < |s|
    ensures Sum(s[i := v]) == Sum(s) - s[i] + v
  {
    var n := |s| - 1;
    if i == n {
      assert s[i := v][..n] == s[..n];
    } else {
      assert s[i := v][..n] == s[..n][i := v];
      SumUpdate(s[..n], i, v);
    }
  }

  lemma {:induction false} SumAtLeast(s: seq<nat>, i: nat)
    requires i < |s|
    ensures Sum(s) >= s[i]
  {
    if i < |s| - 1 {
      SumAtLeast(s[..|s| - 1], i);
    }
  }

  lemma SumAppend(s: seq<nat>, v: nat)
    ensures Sum(s + [v]) == Sum(s) + v
  {
    assert (s + [v])[..|s|] == s;
  }

  // The averaging argument: some element is not below average and not zero.
  lemma {:induction false} NotBelowAverage(s: seq<nat>, a: nat) returns (i: nat)
    requires Sum(s) > 0 && Sum(s) >= |s| * a
    ensures i < |s| && s[i] > 0 && s[i] >= a
  {
    i := |s| - 1;
    if s[i] == 0 || s[i] < a {
      assert |s| * a == i * a + a;
      i := NotBelowAverage(s[..i], a);
    }
  }
}
