/**
 What several of the models share: optional values, scripts, reversal, and counting.
 */
module Basics {
  datatype Option<+T> = None | Some(value: T)

  /** A script by its bytes. */
  type Script = seq<int>

  function Reversed<T>(s: seq<T>): (r: seq<T>)
    ensures |r| == |s| && forall i :: 0 <= i < |s| ==> r[i] == s[|s| - 1 - i]
  {
    seq(|s|, i requires 0 <= i < |s| => s[|s| - 1 - i])
  }

  /** A sequence without repetition is as long as the set it lists. */
  lemma {:induction false} ListSize(o: seq<int>, ids: set<int>)
    requires forall i, j :: 0 <= i < j < |o| ==> o[i] != o[j]
    requires forall i :: 0 <= i < |o| ==> o[i] in ids
    requires forall id :: id in ids ==> id in o
    ensures |o| == |ids|
  {
    if o == [] {
      assert forall id :: id !in ids;
    } else {
      var last := o[|o| - 1];
      forall id | id in ids - {last} ensures id in o[..|o| - 1] {
        var i :| 0 <= i < |o| && o[i] == id;
        assert o[..|o| - 1][i] == id;
      }
      ListSize(o[..|o| - 1], ids - {last});
    }
  }

  /** Of more numbers than there are below `n`, two are the same. */
  lemma Repeats(v: seq<int>, n: nat)
    requires |v| > n && forall i :: 0 <= i < |v| ==> 0 <= v[i] < n
    ensures exists i, j :: 0 <= i < j < |v| && v[i] == v[j]
  {
    if forall i, j :: 0 <= i < j < |v| ==> v[i] != v[j] {
      var seen := set i | 0 <= i < |v| :: v[i];
      forall x | x in seen ensures x in v {
        var i :| 0 <= i < |v| && v[i] == x;
      }
      ListSize(v, seen);
      AtMost(seen, n);
    }
  }

  /** There are at most `n` numbers below `n`. */
  lemma {:induction false} AtMost(s: set<int>, n: nat)
    requires forall x :: x in s ==> 0 <= x < n
    ensures |s| <= n
  {
    if n == 0 {
      assert forall x :: x !in s;
    } else {
      AtMost(s - {n - 1}, n - 1);
    }
  }
}
