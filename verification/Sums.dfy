/** Sums and duplicate-free sequences of naturals, shared by the protocol and arena modules. */
module Sums {

  function Sum(s: seq<nat>): nat {
    if s == [] then 0 else s[0] + Sum(s[1..])
  }

  /** Changing one entry changes the sum by the difference. */
  lemma {:induction false} SumUpdate(s: seq<nat>, i: nat, v: nat)
    requires i < |s|
    ensures Sum(s[i := v]) + s[i] == Sum(s) + v
  {
    if i > 0 {
      SumUpdate(s[1..], i - 1, v);
      assert s[i := v][1..] == s[1..][i - 1 := v];
    } else {
      assert s[i := v][1..] == s[1..];
    }
  }

  lemma {:induction false} SumMono(a: seq<nat>, b: seq<nat>)
    requires |a| == |b| && forall k :: 0 <= k < |a| ==> a[k] <= b[k]
    ensures Sum(a) <= Sum(b)
  {
    if a == [] {
    } else {
      SumMono(a[1..], b[1..]);
    }
  }

  lemma {:induction false} SumMonoStrict(a: seq<nat>, b: seq<nat>, i: nat)
    requires |a| == |b| && forall k :: 0 <= k < |a| ==> a[k] <= b[k]
    requires i < |a| && a[i] < b[i]
    ensures Sum(a) < Sum(b)
  {
    SumMono(a, b[i := a[i]]);
    SumUpdate(b, i, a[i]);
  }

  lemma {:induction false} SumZero(s: seq<nat>)
    requires forall k :: 0 <= k < |s| ==> s[k] == 0
    ensures Sum(s) == 0
  {
    if s == [] {
    } else {
      SumZero(s[1..]);
    }
  }

  lemma {:induction false} SumAtLeast(s: seq<nat>, i: nat)
    requires i < |s|
    ensures s[i] <= Sum(s)
  {
    SumUpdate(s, i, 0);
  }

  /** A sum of bits that vanish from m on is at most m, and reaches m only when all of them are set. */
  lemma {:induction false} SumOfBits(s: seq<nat>, m: nat)
    requires m <= |s|
    requires forall k :: 0 <= k < |s| ==> s[k] <= if k < m then 1 else 0
    ensures Sum(s) <= m
    ensures Sum(s) == m ==> forall k :: 0 <= k < m ==> s[k] == 1
  {
    if m == 0 {
      SumZero(s);
    } else {
      SumOfBits(s[1..], m - 1);
      assert forall k :: 1 <= k < m ==> s[k] == s[1..][k - 1];
    }
  }

  lemma {:induction false} SumOfOnes(s: seq<nat>, m: nat)
    requires m <= |s|
    requires forall k :: 0 <= k < |s| ==> s[k] == if k < m then 1 else 0
    ensures Sum(s) == m
  {
    if m == 0 {
      SumZero(s);
    } else {
      SumOfOnes(s[1..], m - 1);
    }
  }

  ghost predicate NoDup<T(!new)>(s: seq<T>) {
    forall i, j :: 0 <= i < j < |s| ==> s[i] != s[j]
  }

  /** Distinct naturals below n: there are at most n of them. */
  lemma {:induction false} NoDupBounded(s: seq<nat>, n: nat)
    requires NoDup(s) && forall x :: x in s ==> x < n
    ensures |s| <= n
  {
    if s == [] {
    } else {
      assert s[0] in s;
      if n - 1 in s {
        var i :| 0 <= i < |s| && s[i] == n - 1;
        var t := s[..i] + s[i + 1..];
        assert forall k :: 0 <= k < |t| ==> t[k] == (if k < i then s[k] else s[k + 1]) && t[k] in s;
        NoDupBounded(t, n - 1);
      } else {
        NoDupBounded(s, n - 1);
      }
    }
  }

  /** In a duplicate-free sequence every element is counted once. */
  lemma {:induction false} NoDupCount<T(!new)>(s: seq<T>, x: T)
    requires NoDup(s)
    ensures multiset(s)[x] == if x in s then 1 else 0
  {
    if s == [] {
    } else {
      NoDupCount(s[1..], x);
      assert s == [s[0]] + s[1..];
    }
  }
}
