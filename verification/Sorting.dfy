/**
 What the library sort does, for any order: the same elements, arranged. Where the order
 leaves ties, one of the arrangements the library may return.
 */
module Sorting {

  /** `le` compares any two elements, and transitively. */
  ghost predicate Orders<T(!new)>(le: (T, T) -> bool) {
    (forall x, y :: le(x, y) || le(y, x)) && (forall x, y, z :: le(x, y) && le(y, z) ==> le(x, z))
  }

  ghost predicate InOrder<T>(v: seq<T>, le: (T, T) -> bool) {
    forall i, j :: 0 <= i < j < |v| ==> le(v[i], v[j])
  }

  function Sorted<T(!new)>(v: seq<T>, le: (T, T) -> bool): (r: seq<T>)
    requires Orders(le)
    ensures InOrder(r, le) && forall i :: 0 <= i < |r| ==> r[i] in v
  {
    if v == [] then [] else Insert(v[0], Sorted(v[1..], le), le)
  }

  function Insert<T(!new)>(x: T, v: seq<T>, le: (T, T) -> bool): (r: seq<T>)
    requires Orders(le) && InOrder(v, le)
    ensures InOrder(r, le) && forall i :: 0 <= i < |r| ==> r[i] == x || r[i] in v
  {
    if v == [] || le(x, v[0]) then [x] + v else [v[0]] + Insert(x, v[1..], le)
  }

  /** Sorting loses and adds nothing. */
  lemma {:induction false} SortedPermutes<T(!new)>(v: seq<T>, le: (T, T) -> bool)
    requires Orders(le)
    ensures multiset(Sorted(v, le)) == multiset(v)
  {
    if v != [] {
      SortedPermutes(v[1..], le);
      InsertPermutes(v[0], Sorted(v[1..], le), le);
      assert v == [v[0]] + v[1..];
    }
  }

  lemma {:induction false} InsertPermutes<T(!new)>(x: T, v: seq<T>, le: (T, T) -> bool)
    requires Orders(le) && InOrder(v, le)
    ensures multiset(Insert(x, v, le)) == multiset(v) + multiset{x}
  {
    if v != [] && !le(x, v[0]) {
      InsertPermutes(x, v[1..], le);
      assert v == [v[0]] + v[1..];
    }
  }

  ghost predicate DistinctKeys<T, K>(v: seq<T>, key: T -> K) {
    forall i, j :: 0 <= i < j < |v| ==> key(v[i]) != key(v[j])
  }

  /** Keys that are distinct before are distinct after. */
  lemma {:induction false} SortedDistinct<T(!new), K>(v: seq<T>, le: (T, T) -> bool, key: T -> K)
    requires Orders(le) && DistinctKeys(v, key)
    ensures DistinctKeys(Sorted(v, le), key) && |Sorted(v, le)| == |v|
  {
    if v != [] {
      SortedDistinct(v[1..], le, key);
      var rest := Sorted(v[1..], le);
      forall i | 0 <= i < |rest| ensures key(rest[i]) != key(v[0]) {
        var j :| 0 <= j < |v[1..]| && v[1..][j] == rest[i];
        assert v[j + 1] == rest[i];
      }
      InsertDistinct(v[0], rest, le, key);
    }
  }

  lemma {:induction false} InsertDistinct<T(!new), K>(x: T, v: seq<T>, le: (T, T) -> bool, key: T -> K)
    requires Orders(le) && InOrder(v, le) && DistinctKeys(v, key) && forall i :: 0 <= i < |v| ==> key(v[i]) != key(x)
    ensures DistinctKeys(Insert(x, v, le), key) && |Insert(x, v, le)| == |v| + 1
  {
    if v != [] && !le(x, v[0]) {
      InsertDistinct(x, v[1..], le, key);
      var rest := Insert(x, v[1..], le);
      forall i | 0 <= i < |rest| ensures key(rest[i]) != key(v[0]) {
        if rest[i] != x {
          var j :| 0 <= j < |v[1..]| && v[1..][j] == rest[i];
          assert v[j + 1] == rest[i];
        }
      }
    }
  }
}
