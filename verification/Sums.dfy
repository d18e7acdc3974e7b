/** Sums over sequences, and how one changed element changes them. */
module Sums {

  function Sum<T>(s: seq<T>, f: T -> nat): nat {
    if s == [] then 0 else f(s[0]) + Sum(s[1..], f)
  }

  lemma {:induction false} SumUpdate<T>(s: seq<T>, f: T -> nat, k: nat, x: T)
    requires k < |s|
    ensures Sum(s[k := x], f) + f(s[k]) == Sum(s, f) + f(x)
  {
    if k == 0 {
      assert s[k := x][1..] == s[1..];
    } else {
      assert s[k := x][1..] == s[1..][k - 1 := x];
      SumUpdate(s[1..], f, k - 1, x);
    }
  }

  lemma {:induction false} SumAppend<T>(s: seq<T>, f: T -> nat, x: T)
    ensures Sum(s + [x], f) == Sum(s, f) + f(x)
  {
    if s == [] {
      assert s + [x] == [x];
      assert Sum([x], f) == f(x) + Sum([], f);
    } else {
      assert (s + [x])[1..] == s[1..] + [x];
      SumAppend(s[1..], f, x);
    }
  }

  /** Every element's share is at most the whole. */
  lemma {:induction false} SumAtLeast<T>(s: seq<T>, f: T -> nat, k: nat)
    requires k < |s|
    ensures f(s[k]) <= Sum(s, f)
  {
    if k > 0 {
      SumAtLeast(s[1..], f, k - 1);
    }
  }

  lemma {:induction false} SumPair<T>(s: seq<T>, f: T -> nat, i: nat, k: nat)
    requires i < k < |s|
    ensures f(s[i]) + f(s[k]) <= Sum(s, f)
  {
    if i == 0 {
      SumAtLeast(s[1..], f, k - 1);
    } else {
      SumPair(s[1..], f, i - 1, k - 1);
    }
  }

  /** A positive sum has a positive element. */
  lemma {:induction false} SumPositive<T>(s: seq<T>, f: T -> nat) returns (k: nat)
    requires Sum(s, f) > 0
    ensures k < |s| && f(s[k]) > 0
  {
    if f(s[0]) > 0 {
      k := 0;
    } else {
      k := SumPositive(s[1..], f);
      k := k + 1;
    }
  }

  lemma {:induction false} SumAllZero<T>(s: seq<T>, f: T -> nat)
    requires forall k :: 0 <= k < |s| ==> f(s[k]) == 0
    ensures Sum(s, f) == 0
  {
    if s != [] {
      SumAllZero(s[1..], f);
    }
  }

  lemma {:induction false} SumAtMostOnes<T>(s: seq<T>, f: T -> nat)
    requires forall k :: 0 <= k < |s| ==> f(s[k]) <= 1
    ensures Sum(s, f) <= |s|
    ensures Sum(s, f) == |s| ==> forall k :: 0 <= k < |s| ==> f(s[k]) == 1
  {
    if s != [] {
      SumAtMostOnes(s[1..], f);
      if Sum(s, f) == |s| {
        forall k | 0 <= k < |s| ensures f(s[k]) == 1 {
          if k > 0 { assert s[k] == s[1..][k - 1]; }
        }
      }
    }
  }
}
