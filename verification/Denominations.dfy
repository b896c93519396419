/**
 Coin selection over fixed denominations. Values are listed in ascending order and each
 divides the next one; a selection is a count per denomination. Everything the code does
 is built from one greedy pass from the highest denomination down, limited by what is held.
 */
module Denominations {

  /** What `n` coins of value `d` are worth. */
  function Worth(n: int, d: int): (w: int)
    ensures n >= 0 && d >= 0 ==> w >= 0
    ensures n == 0 || d == 0 ==> w == 0
    ensures n == 1 ==> w == d
  {
    n * d
  }

  ghost predicate Multiple(m: int, d: int) {
    exists k: nat :: m == Worth(k, d)
  }

  /** Ascending values, each dividing all later ones. */
  ghost predicate Chain(vals: seq<nat>) {
    && (forall i :: 0 <= i < |vals| ==> vals[i] >= 1)
    && (forall i, j :: 0 <= i < j < |vals| ==> vals[i] < vals[j] && Multiple(vals[j], vals[i]))
  }

  /** What a selection is worth; it covers the lowest `|u|` denominations. */
  function Value(u: seq<nat>, vals: seq<nat>): (v: nat)
    requires |u| <= |vals|
  {
    if u == [] then 0 else Value(u[..|u| - 1], vals) + Worth(u[|u| - 1], vals[|u| - 1])
  }

  function Count(u: seq<nat>): (n: nat) {
    if u == [] then 0 else Count(u[..|u| - 1]) + u[|u| - 1]
  }

  predicate Within(u: seq<nat>, h: seq<nat>) {
    |u| == |h| && forall i :: 0 <= i < |u| ==> u[i] <= h[i]
  }

  /** How many coins of value `d`, of `h` held, fit into `t`. */
  function Quota(t: int, d: nat, h: nat): (k: nat)
    requires d >= 1
    ensures k <= h && (k > 0 ==> Worth(k, d) <= t) && (k < h ==> t - Worth(k, d) < d)
  {
    if t < d then 0
    else
      FitsOf(t, d);
      if t / d < h then t / d else h
  }

  lemma FitsOf(t: nat, d: nat)
    requires d >= 1
    ensures t / d >= 0 && Worth(t / d, d) <= t && t - Worth(t / d, d) < d
    ensures forall h: nat :: h <= t / d ==> Worth(h, d) <= t
  {
    var q := t / d;
    assert t == Worth(d, q) + t % d;
    Commute(d, q);
    QuotientSign(t, d, q, t % d);
    forall h: nat | h <= q ensures Worth(h, d) <= t {
      MulLe(h, q, d);
    }
  }

  lemma QuotientSign(t: nat, d: nat, q: int, r: int)
    requires t == Worth(d, q) + r && 0 <= r < d
    ensures q >= 0
  {
    if q < 0 {
      MulLe(q, -1, d);
      Commute(d, q);
    }
  }

  lemma Commute(a: int, b: int)
    ensures Worth(a, b) == Worth(b, a)
  {}

  lemma MulLe(x: int, y: int, d: int)
    requires x <= y && d >= 0
    ensures Worth(x, d) <= Worth(y, d)
  {
    hide Worth;
    Split(y, x, d);
  }

  lemma Associate(a: int, b: int, c: int)
    ensures Worth(a, Worth(b, c)) == Worth(Worth(a, b), c)
  {
    assert a * (b * c) == (a * b) * c;
  }

  lemma MulLt(x: int, y: int, d: int)
    requires x < y && d >= 1
    ensures Worth(x, d) + d <= Worth(y, d)
  {
    hide Worth;
    Split(x, 1, d);
    MulLe(x + 1, y, d);
  }

  lemma Split(a: int, b: int, d: int)
    ensures Worth(a + b, d) == Worth(a, d) + Worth(b, d) && Worth(a - b, d) == Worth(a, d) - Worth(b, d)
  {}

  /** The quota is the only count that leaves neither room nor coins for one more. */
  lemma QuotaUnique(t: int, d: nat, h: nat, k: nat)
    requires d >= 1 && k <= h && (k > 0 ==> Worth(k, d) <= t) && (k < h ==> t - Worth(k, d) < d)
    ensures Quota(t, d, h) == k
  {
    hide Worth;
    var q := Quota(t, d, h);
    hide Quota;
    if q < k {
      MulLt(q, k, d);
    } else if k < q {
      MulLt(k, q, d);
    }
  }

  /** From the highest denomination down, as many coins as fit and are held. */
  function Greedy(t: int, h: seq<nat>, vals: seq<nat>): (u: seq<nat>)
    requires Chain(vals) && |h| <= |vals|
    ensures Within(u, h)
  {
    if h == [] then []
    else
      var n := |h| - 1;
      var k := Quota(t, vals[n], h[n]);
      Greedy(t - Worth(k, vals[n]), h[..n], vals) + [k]
  }

  lemma ValueAppend(u: seq<nat>, k: nat, vals: seq<nat>)
    requires |u| < |vals|
    ensures Value(u + [k], vals) == Value(u, vals) + Worth(k, vals[|u|])
    ensures Count(u + [k]) == Count(u) + k
  {
    hide Worth;
    assert (u + [k])[..|u|] == u;
  }

  lemma ValueUnfold(u: seq<nat>, vals: seq<nat>)
    requires 0 < |u| <= |vals|
    ensures var n := |u| - 1; Value(u, vals) == Value(u[..n], vals) + Worth(u[n], vals[n]) && Count(u) == Count(u[..n]) + u[n]
  {}

  lemma ValueEmpty(t: int, vals: seq<nat>)
    requires Chain(vals)
    ensures Greedy(t, [], vals) == [] && Value([], vals) == 0 && Count([]) == 0
  {}

  lemma GreedyUnfold(t: int, h: seq<nat>, vals: seq<nat>)
    requires Chain(vals) && 0 < |h| <= |vals|
    ensures var n := |h| - 1; var k := Quota(t, vals[n], h[n]); var low := Greedy(t - Worth(k, vals[n]), h[..n], vals);
            && Greedy(t, h, vals) == low + [k]
            && Value(Greedy(t, h, vals), vals) == Value(low, vals) + Worth(k, vals[n])
            && Count(Greedy(t, h, vals)) == Count(low) + k
  {
    hide Worth;
    var n := |h| - 1;
    var k := Quota(t, vals[n], h[n]);
    ValueAppend(Greedy(t - Worth(k, vals[n]), h[..n], vals), k, vals);
  }

  /** The greedy pass never overshoots. */
  lemma {:induction false} GreedyAtMost(t: int, h: seq<nat>, vals: seq<nat>)
    requires Chain(vals) && |h| <= |vals|
    ensures Value(Greedy(t, h, vals), vals) <= if t < 0 then 0 else t
  {
    hide Worth;
    hide Value;
    hide Greedy;
    hide Quota;
    hide Count;
    ValueEmpty(t, vals);
    if h != [] {
      var n := |h| - 1;
      var k := Quota(t, vals[n], h[n]);
      GreedyAtMost(t - Worth(k, vals[n]), h[..n], vals);
      GreedyUnfold(t, h, vals);
    }
  }

  /** Where coins of a denomination are left over, the rest is smaller than that denomination. */
  lemma {:induction false} GreedyLeftover(t: int, h: seq<nat>, vals: seq<nat>, i: nat)
    requires Chain(vals) && i < |h| <= |vals|
    requires Greedy(t, h, vals)[i] < h[i]
    ensures t - Value(Greedy(t, h, vals), vals) < vals[i]
  {
    hide Worth;
    hide Value;
    hide Greedy;
    hide Quota;
    hide Count;
    var n := |h| - 1;
    var k := Quota(t, vals[n], h[n]);
    GreedyUnfold(t, h, vals);
    if i < n {
      GreedyLeftover(t - Worth(k, vals[n]), h[..n], vals, i);
    }
  }

  lemma MultipleTransitive(m: nat, d: nat, e: nat)
    requires Multiple(d, e) && Multiple(m, d)
    ensures Multiple(m, e)
  {
    var a: nat :| d == Worth(a, e);
    var b: nat :| m == Worth(b, d);
    Associate(b, a, e);
    assert m == Worth(Worth(b, a), e);
  }

  lemma MultipleMinus(m: nat, k: nat, d: nat)
    requires Multiple(m, d) && Worth(k, d) <= m && d >= 1
    ensures Multiple(m - Worth(k, d), d)
  {
    hide Worth;
    var b: nat :| m == Worth(b, d);
    Split(b, k, d);
    if b < k {
      MulLt(b, k, d);
    }
    assert m - Worth(k, d) == Worth(b - k, d);
  }

  lemma {:induction false} GreedyOfNothing(t: int, h: seq<nat>, vals: seq<nat>)
    requires Chain(vals) && |h| <= |vals| && t <= 0
    ensures Value(Greedy(t, h, vals), vals) == 0 && Count(Greedy(t, h, vals)) == 0
  {
    hide Worth;
    hide Value;
    hide Greedy;
    hide Count;
    ValueEmpty(t, vals);
    if h != [] {
      var n := |h| - 1;
      GreedyOfNothing(t, h[..n], vals);
      GreedyUnfold(t, h, vals);
    }
  }

  /** Coins worth at least `m` contain coins worth exactly `m`, when every denomination among them divides `m`. */
  lemma {:induction false} GreedyHitsMultiple(m: nat, h: seq<nat>, vals: seq<nat>)
    requires Chain(vals) && |h| <= |vals|
    requires forall i :: 0 <= i < |h| ==> Multiple(m, vals[i])
    requires Value(h, vals) >= m
    ensures Value(Greedy(m, h, vals), vals) == m
  {
    hide Worth;
    hide Value;
    hide Greedy;
    hide Quota;
    hide Count;
    ValueEmpty(m, vals);
    if h != [] {
      var n := |h| - 1;
      var d := vals[n];
      var k := Quota(m, d, h[n]);
      ValueUnfold(h, vals);
      GreedyUnfold(m, h, vals);
      MultipleMinus(m, k, d);
      var rest := m - Worth(k, d);
      if k < h[n] {
        MultipleBelow(rest, d);
        GreedyOfNothing(rest, h[..n], vals);
      } else {
        forall i | 0 <= i < n ensures Multiple(rest, vals[i]) {
          MultipleTransitive(rest, d, vals[i]);
        }
        GreedyHitsMultiple(rest, h[..n], vals);
      }
    }
  }

  lemma MultipleBelow(m: nat, d: nat)
    requires Multiple(m, d) && m < d
    ensures m == 0
  {
    hide Worth;
    var b: nat :| m == Worth(b, d);
    if b >= 1 {
      MulLe(1, b, d);
    }
  }

  function Minus(u: seq<nat>, w: seq<nat>): (r: seq<nat>)
    requires Within(w, u)
    ensures Within(r, u)
  {
    seq(|u|, i requires 0 <= i < |u| => u[i] - w[i])
  }

  lemma {:induction false} MinusValue(u: seq<nat>, w: seq<nat>, vals: seq<nat>)
    requires Within(w, u) && |u| <= |vals|
    ensures Value(Minus(u, w), vals) == Value(u, vals) - Value(w, vals)
    ensures Count(Minus(u, w)) == Count(u) - Count(w)
  {
    hide Worth;
    if u != [] {
      var n := |u| - 1;
      MinusValue(u[..n], w[..n], vals);
      assert Minus(u, w)[..n] == Minus(u[..n], w[..n]);
      Split(u[n], w[n], vals[n]);
    }
  }

  lemma {:induction false} ValueAtMostCount(w: seq<nat>, vals: seq<nat>, d: nat)
    requires |w| <= |vals| && forall i :: 0 <= i < |w| ==> vals[i] <= d
    ensures Value(w, vals) <= Worth(Count(w), d)
  {
    hide Worth;
    if w != [] {
      var n := |w| - 1;
      ValueAtMostCount(w[..n], vals, d);
      Split(Count(w[..n]), w[n], d);
      MulLe(vals[n], d, w[n]);
      Commute(w[n], vals[n]);
      Commute(w[n], d);
    } else {
      assert Worth(Count(w), d) == 0;
    }
  }

  /** The exchange: coins `u` below `d` worth `m * d` more than needed contain `m * d` exactly, in at least `m` coins. */
  lemma Exchange(u: seq<nat>, vals: seq<nat>, m: nat) returns (v: seq<nat>)
    requires Chain(vals) && |u| < |vals| && Value(u, vals) >= Worth(m, vals[|u|])
    ensures Within(v, u)
    ensures Value(v, vals) == Value(u, vals) - Worth(m, vals[|u|]) && Count(v) + m <= Count(u)
  {
    hide Worth;
    var d := vals[|u|];
    forall i | 0 <= i < |u| ensures Multiple(Worth(m, d), vals[i]) {
      assert Multiple(Worth(m, d), d);
      MultipleTransitive(Worth(m, d), d, vals[i]);
    }
    GreedyHitsMultiple(Worth(m, d), u, vals);
    var w := Greedy(Worth(m, d), u, vals);
    MinusValue(u, w, vals);
    ValueAtMostCount(w, vals, d);
    if Count(w) < m {
      MulLt(Count(w), m, d);
    }
    v := Minus(u, w);
  }

  /** The greedy pass meets every amount that some coins among those held meet, and with no more coins. */
  lemma {:induction false} GreedyIsExact(t: int, h: seq<nat>, vals: seq<nat>, u: seq<nat>)
    requires Chain(vals) && |h| <= |vals| && Within(u, h) && Value(u, vals) == t
    ensures Value(Greedy(t, h, vals), vals) == t
    ensures Count(Greedy(t, h, vals)) <= Count(u)
  {
    hide Worth;
    hide Value;
    hide Greedy;
    hide Quota;
    hide Count;
    ValueEmpty(t, vals);
    if h != [] {
      var n := |h| - 1;
      var d, a := vals[n], u[n];
      var k := Quota(t, d, h[n]);
      GreedyUnfold(t, h, vals);
      ValueUnfold(u, vals);
      if k < a {
        MulLt(k, a, d);
      }
      Split(k, a, d);
      var v := Exchange(u[..n], vals, k - a);
      GreedyIsExact(t - Worth(k, d), h[..n], vals, v);
    }
  }

  // ---- change: the same with nothing to limit it

  function Plenty(t: int, n: nat): (h: seq<nat>) {
    seq(n, _ => if t < 0 then 0 else t)
  }

  function Change(t: int, vals: seq<nat>): (u: seq<nat>)
    requires Chain(vals)
    ensures |u| == |vals|
  {
    Greedy(t, Plenty(t, |vals|), vals)
  }

  lemma {:induction false} CountsAtMostValue(u: seq<nat>, vals: seq<nat>, i: nat)
    requires Chain(vals) && i < |u| <= |vals|
    ensures u[i] <= Value(u, vals)
  {
    hide Worth;
    var n := |u| - 1;
    MulLe(1, vals[n], u[n]);
    Commute(u[n], vals[n]);
    if i < n {
      CountsAtMostValue(u[..n], vals, i);
    }
  }

  /** No way of making up an amount uses fewer coins than the change given for it. */
  lemma ChangeIsMinimal(vals: seq<nat>, u: seq<nat>)
    requires Chain(vals) && |u| == |vals|
    ensures var t := Value(u, vals); Value(Change(t, vals), vals) == t && Count(Change(t, vals)) <= Count(u)
  {
    hide Worth;
    var t := Value(u, vals);
    forall i | 0 <= i < |u| ensures u[i] <= t {
      CountsAtMostValue(u, vals, i);
    }
    GreedyIsExact(t, Plenty(t, |vals|), vals, u);
  }

  /** Change is complete exactly for the multiples of the lowest denomination. */
  lemma ChangeIsComplete(vals: seq<nat>, t: nat)
    requires Chain(vals) && |vals| >= 1
    ensures Value(Change(t, vals), vals) == t <==> Multiple(t, vals[0])
  {
    hide Worth;
    if Multiple(t, vals[0]) {
      var k: nat :| t == Worth(k, vals[0]);
      var u := [k] + seq(|vals| - 1, _ => 0);
      OneDenomination(k, u, vals);
      ChangeIsMinimal(vals, u);
    }
    ValueIsMultiple(Change(t, vals), vals);
  }

  lemma {:induction false} OneDenomination(k: nat, u: seq<nat>, vals: seq<nat>)
    requires 1 <= |u| <= |vals| && u[0] == k && forall i :: 1 <= i < |u| ==> u[i] == 0
    ensures Value(u, vals) == Worth(k, vals[0])
  {
    hide Worth;
    var n := |u| - 1;
    if n == 0 {
      assert u[..0] == [];
    } else {
      OneDenomination(k, u[..n], vals);
      assert Worth(u[n], vals[n]) == 0;
    }
  }

  lemma {:induction false} ValueIsMultiple(u: seq<nat>, vals: seq<nat>)
    requires Chain(vals) && |vals| >= 1 && |u| <= |vals|
    ensures Multiple(Value(u, vals), vals[0])
  {
    hide Worth;
    hide Value;
    if u == [] {
      ValueEmpty(0, vals);
      assert Value(u, vals) == Worth(0, vals[0]);
    } else {
      var n := |u| - 1;
      ValueIsMultiple(u[..n], vals);
      ValueUnfold(u, vals);
      var a: nat :| Value(u[..n], vals) == Worth(a, vals[0]);
      assert Multiple(vals[n], vals[0]) by { assert vals[0] == Worth(1, vals[0]); }
      var b: nat :| vals[n] == Worth(b, vals[0]);
      Split(a, Worth(u[n], b), vals[0]);
      Associate(u[n], b, vals[0]);
      assert Value(u, vals) == Worth(a + Worth(u[n], b), vals[0]);
    }
  }
}
