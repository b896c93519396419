/**
 The selection routines themselves, as the loops they are. A denomination is its position
 in the list of values; the position -1 stands for "none".
 */
module CoinSelection {
  import opened Denominations

  datatype Mint = Mint(denom: nat, isUsed: bool)

  predicate KnownMints(mints: seq<Mint>, n: nat) {
    forall i :: 0 <= i < |mints| ==> mints[i].denom < n
  }

  // ---- one denomination at a time

  /** Coins are taken while one more fits and is held. */
  method TakeHeld(t: int, d: nat, h: nat) returns (k: nat, rest: int)
    requires d >= 1
    ensures k == Quota(t, d, h) && rest == t - Worth(k, d)
  {
    hide Worth;
    k, rest := 0, t;
    while rest >= d && k < h
      invariant k <= h && rest == t - Worth(k, d) && (k > 0 ==> rest >= 0)
      decreases h - k
    {
      Split(k, 1, d);
      k, rest := k + 1, rest - d;
    }
    QuotaUnique(t, d, h, k);
  }

  /** The same with no limit. */
  method TakeAny(t: int, d: nat) returns (k: nat, rest: int)
    requires d >= 1
    ensures k == Quota(t, d, if t < 0 then 0 else t) && rest == t - Worth(k, d)
  {
    hide Worth;
    k, rest := 0, t;
    while rest >= d
      invariant rest == t - Worth(k, d) && (k > 0 ==> rest >= 0)
      decreases rest
    {
      Split(k, 1, d);
      k, rest := k + 1, rest - d;
    }
    if k > 0 {
      MulLe(1, d, k);
      CommuteWorth(k, d);
    }
    QuotaUnique(t, d, if t < 0 then 0 else t, k);
  }

  lemma CommuteWorth(k: int, d: int)
    ensures Worth(k, d) == Worth(d, k)
  {
    Commute(k, d);
  }

  /** The same, but something must remain. */
  method TakeShort(t: int, d: nat, h: nat) returns (k: nat, rest: int)
    requires d >= 1
    ensures k == Quota(t - 1, d, h) && rest == t - Worth(k, d)
  {
    hide Worth;
    k, rest := 0, t;
    while rest > d && k < h
      invariant k <= h && rest == t - Worth(k, d) && (k > 0 ==> rest > 0)
      decreases h - k
    {
      Split(k, 1, d);
      k, rest := k + 1, rest - d;
    }
    QuotaUnique(t - 1, d, h, k);
  }

  // ---- whole passes

  /** `used` above `i` and what is left for the denominations below make up the greedy selection. */
  ghost predicate Halfway(t: int, h: seq<nat>, vals: seq<nat>, i: nat, rest: int, used: seq<nat>)
    requires Chain(vals) && |h| == |vals|
  {
    i <= |h| && |used| == |h| - i && Greedy(t, h, vals) == Greedy(rest, h[..i], vals) + used
    && rest == t - (Value(Greedy(t, h, vals), vals) - Value(Greedy(rest, h[..i], vals), vals))
  }

  lemma HalfwayStart(t: int, h: seq<nat>, vals: seq<nat>)
    requires Chain(vals) && |h| == |vals|
    ensures Halfway(t, h, vals, |h|, t, [])
  {
    assert h[..|h|] == h;
  }

  lemma HalfwayStep(t: int, h: seq<nat>, vals: seq<nat>, i: nat, rest: int, used: seq<nat>)
    requires Chain(vals) && |h| == |vals| && 0 < i && Halfway(t, h, vals, i, rest, used)
    ensures var k := Quota(rest, vals[i - 1], h[i - 1]); Halfway(t, h, vals, i - 1, rest - Worth(k, vals[i - 1]), [k] + used)
  {
    hide Worth;
    GreedyUnfold(rest, h[..i], vals);
    hide Greedy;
    hide Value;
    hide Quota;
    assert h[..i][..i - 1] == h[..i - 1];
  }

  lemma HalfwayEnd(t: int, h: seq<nat>, vals: seq<nat>, rest: int, used: seq<nat>)
    requires Chain(vals) && |h| == |vals| && Halfway(t, h, vals, 0, rest, used)
    ensures used == Greedy(t, h, vals) && rest == t - Value(used, vals)
  {
    assert h[..0] == [];
  }

  /** `getSpendCoins`. */
  method GetSpendCoins(nValueTarget: int, held: seq<nat>, vals: seq<nat>) returns (used: seq<nat>)
    requires Chain(vals) && |held| == |vals|
    ensures used == Greedy(nValueTarget, held, vals)
  {
    hide Greedy;
    hide Halfway;
    var rest, i := nValueTarget, |vals|;
    used := [];
    HalfwayStart(nValueTarget, held, vals);
    while i > 0
      invariant 0 <= i <= |vals|
      invariant Halfway(nValueTarget, held, vals, i, rest, used)
    {
      HalfwayStep(nValueTarget, held, vals, i, rest, used);
      i := i - 1;
      var k, left := TakeHeld(rest, vals[i], held[i]);
      used, rest := [k] + used, left;
    }
    HalfwayEnd(nValueTarget, held, vals, rest, used);
  }

  /** `getChange`. */
  method GetChange(nValueTarget: int, vals: seq<nat>) returns (change: seq<nat>)
    requires Chain(vals)
    ensures change == Change(nValueTarget, vals)
  {
    hide Greedy;
    hide Halfway;
    hide Quota;
    ghost var h := Plenty(nValueTarget, |vals|);
    var rest, i := nValueTarget, |vals|;
    change := [];
    HalfwayStart(nValueTarget, h, vals);
    while i > 0
      invariant 0 <= i <= |vals|
      invariant rest <= nValueTarget && Halfway(nValueTarget, h, vals, i, rest, change)
    {
      HalfwayStep(nValueTarget, h, vals, i, rest, change);
      i := i - 1;
      var k, left := TakeAny(rest, vals[i]);
      QuotaWithPlenty(rest, nValueTarget, vals[i]);
      change, rest := [k] + change, left;
    }
    HalfwayEnd(nValueTarget, h, vals, rest, change);
  }

  lemma QuotaWithPlenty(rest: int, t: int, d: nat)
    requires d >= 1 && rest <= t
    ensures Quota(rest, d, if t < 0 then 0 else t) == Quota(rest, d, if rest < 0 then 0 else rest)
  {
    var k := Quota(rest, d, if rest < 0 then 0 else rest);
    hide Worth;
    hide Quota;
    if k == rest > 0 {
      MulLe(1, d, k);
      CommuteWorth(k, d);
    }
    QuotaUnique(rest, d, if t < 0 then 0 else t, k);
  }

  // ---- mints and payments from them

  function CountOf(mints: seq<Mint>, i: nat): (n: nat) {
    if mints == [] then 0
    else
      var m := mints[|mints| - 1];
      CountOf(mints[..|mints| - 1], i) + if !m.isUsed && m.denom == i then 1 else 0
  }

  /** How many unused mints there are of each denomination. */
  function Holdings(mints: seq<Mint>, n: nat): (h: seq<nat>)
    ensures |h| == n && forall i :: 0 <= i < n ==> h[i] == CountOf(mints, i)
  {
    seq(n, i requires 0 <= i < n => CountOf(mints, i))
  }

  /** A sub-collection of the unused mints. */
  predicate IsPick(mints: seq<Mint>, p: seq<bool>) {
    |p| == |mints| && forall i :: 0 <= i < |p| && p[i] ==> !mints[i].isUsed
  }

  function PickedValue(mints: seq<Mint>, p: seq<bool>, vals: seq<nat>): (v: nat)
    requires |p| == |mints| && KnownMints(mints, |vals|)
  {
    if p == [] then 0
    else
      var n := |p| - 1;
      PickedValue(mints[..n], p[..n], vals) + if p[n] then vals[mints[n].denom] else 0
  }

  lemma {:induction false} ValueUpdate(u: seq<nat>, i: nat, x: nat, vals: seq<nat>)
    requires i < |u| <= |vals|
    ensures Value(u[i := x], vals) == Value(u, vals) + Worth(x - u[i], vals[i])
    ensures Count(u[i := x]) == Count(u) + x - u[i]
  {
    hide Worth;
    var n := |u| - 1;
    if i < n {
      ValueUpdate(u[..n], i, x, vals);
      assert u[i := x][..n] == u[..n][i := x];
    } else {
      assert u[i := x][..n] == u[..n];
      Split(x, u[n], vals[n]);
    }
  }

  lemma {:induction false} ValueOfNone(u: seq<nat>, vals: seq<nat>)
    requires |u| <= |vals| && forall i :: 0 <= i < |u| ==> u[i] == 0
    ensures Value(u, vals) == 0 && Count(u) == 0
  {
    hide Worth;
    if u != [] {
      ValueOfNone(u[..|u| - 1], vals);
    }
  }

  /** The counts of a pick are within the holdings and worth the same. */
  lemma {:induction false} PickIsSelection(mints: seq<Mint>, p: seq<bool>, vals: seq<nat>) returns (u: seq<nat>)
    requires IsPick(mints, p) && KnownMints(mints, |vals|)
    ensures Within(u, Holdings(mints, |vals|)) && Value(u, vals) == PickedValue(mints, p, vals)
  {
    hide Worth;
    hide Value;
    if p == [] {
      u := seq(|vals|, _ => 0);
      ValueOfNone(u, vals);
    } else {
      var n := |p| - 1;
      u := PickIsSelection(mints[..n], p[..n], vals);
      if p[n] {
        var d := mints[n].denom;
        ValueUpdate(u, d, u[d] + 1, vals);
        u := u[d := u[d] + 1];
      }
    }
  }

  /** Every selection within the holdings is the counts of some pick. */
  lemma {:induction false} SelectionIsPick(mints: seq<Mint>, u: seq<nat>, vals: seq<nat>) returns (p: seq<bool>)
    requires KnownMints(mints, |vals|) && Within(u, Holdings(mints, |vals|))
    ensures IsPick(mints, p) && PickedValue(mints, p, vals) == Value(u, vals)
  {
    hide Worth;
    hide Value;
    if mints == [] {
      p := [];
      ValueOfNone(u, vals);
    } else {
      var n := |mints| - 1;
      var m := mints[n];
      if !m.isUsed && u[m.denom] > 0 {
        var u' := u[m.denom := u[m.denom] - 1];
        ValueUpdate(u, m.denom, u[m.denom] - 1, vals);
        Split(0, 1, vals[m.denom]);
        var q := SelectionIsPick(mints[..n], u', vals);
        p := q + [true];
        assert p[..n] == q;
      } else {
        var q := SelectionIsPick(mints[..n], u, vals);
        p := q + [false];
        assert p[..n] == q;
      }
    }
  }

  /** One denomination of `getIdealSpends`: the list is walked until the rest is too small. */
  method TakeMints(mints: seq<Mint>, coin: nat, t: int, d: nat) returns (k: nat, rest: int)
    requires d >= 1
    ensures k == Quota(t, d, CountOf(mints, coin)) && rest == t - Worth(k, d)
  {
    hide Worth;
    k, rest := 0, t;
    var j := 0;
    while j < |mints|
      invariant 0 <= j <= |mints| && k <= CountOf(mints[..j], coin)
      invariant rest == t - Worth(k, d) && (k > 0 ==> rest >= 0)
      invariant rest >= d || j == 0 ==> k == CountOf(mints[..j], coin)
    {
      assert mints[..j + 1][..j] == mints[..j];
      var mint := mints[j];
      j := j + 1;
      if mint.isUsed {
        continue;
      }
      if rest >= d && coin == mint.denom {
        Split(k, 1, d);
        k, rest := k + 1, rest - d;
      }
      if rest < d {
        CountGrows(mints, j, coin);
        break;
      }
    }
    assert mints[..|mints|] == mints;
    QuotaUnique(t, d, CountOf(mints, coin), k);
  }

  lemma {:induction false} CountGrows(mints: seq<Mint>, j: nat, coin: nat)
    requires j <= |mints|
    ensures CountOf(mints[..j], coin) <= CountOf(mints, coin)
  {
    if j == |mints| {
      assert mints[..j] == mints;
    } else {
      CountGrows(mints[..|mints| - 1], j, coin);
      assert mints[..|mints| - 1][..j] == mints[..j];
    }
  }

  /** `getIdealSpends`: true if and only if some sub-collection of the unused mints is worth the target; then
      the counts found are worth it, with the fewest mints. */
  method GetIdealSpends(nValueTarget: int, mints: seq<Mint>, vals: seq<nat>) returns (exact: bool, used: seq<nat>)
    requires Chain(vals) && KnownMints(mints, |vals|)
    ensures used == Greedy(nValueTarget, Holdings(mints, |vals|), vals)
    ensures exact <==> exists p :: IsPick(mints, p) && PickedValue(mints, p, vals) == nValueTarget
    ensures exact <==> Value(used, vals) == nValueTarget
  {
    hide Greedy;
    hide Halfway;
    hide Quota;
    ghost var h := Holdings(mints, |vals|);
    var rest, i := nValueTarget, |vals|;
    used := [];
    HalfwayStart(nValueTarget, h, vals);
    while i > 0
      invariant 0 <= i <= |vals|
      invariant Halfway(nValueTarget, h, vals, i, rest, used)
    {
      HalfwayStep(nValueTarget, h, vals, i, rest, used);
      i := i - 1;
      var k, left := TakeMints(mints, i, rest, vals[i]);
      used, rest := [k] + used, left;
    }
    HalfwayEnd(nValueTarget, h, vals, rest, used);
    exact := rest == 0;
    if exact {
      var p := SelectionIsPick(mints, used, vals);
    }
    NoPickUnlessGreedy(nValueTarget, mints, vals);
  }

  lemma NoPickUnlessGreedy(t: int, mints: seq<Mint>, vals: seq<nat>)
    requires Chain(vals) && KnownMints(mints, |vals|)
    ensures (exists p :: IsPick(mints, p) && PickedValue(mints, p, vals) == t) ==>
              Value(Greedy(t, Holdings(mints, |vals|), vals), vals) == t
  {
    forall p | IsPick(mints, p) && PickedValue(mints, p, vals) == t
      ensures Value(Greedy(t, Holdings(mints, |vals|), vals), vals) == t
    {
      var u := PickIsSelection(mints, p, vals);
      GreedyIsExact(t, Holdings(mints, |vals|), vals, u);
    }
  }

  // ---- overpaying

  /** Some coins among those held are worth exactly `t`. */
  ghost predicate Payable(t: int, held: seq<nat>, vals: seq<nat>)
    requires |held| == |vals|
  {
    exists u :: Within(u, held) && Value(u, vals) == t
  }

  function UpTo(held: seq<nat>, limit: int): (h: seq<nat>)
    ensures Within(h, held)
  {
    seq(|held|, i requires 0 <= i < |held| => if i <= limit then held[i] else 0)
  }

  /** The first pass of `minimizeChange`: coins up to `limit`, staying below the target. */
  function ShortOf(t: int, held: seq<nat>, vals: seq<nat>, limit: int): (u: seq<nat>)
    requires Chain(vals) && |held| == |vals|
    ensures Within(u, held)
  {
    Greedy(t - 1, UpTo(held, limit), vals)
  }

  /** A coin still held that is worth more than what the first pass left open. */
  predicate Covers(t: int, held: seq<nat>, vals: seq<nat>, limit: int, i: nat)
    requires Chain(vals) && |held| == |vals|
  {
    var u := ShortOf(t, held, vals, limit);
    i < |vals| && u[i] < held[i] && vals[i] > t - Value(u, vals)
  }

  method ShortPass(t: int, held: seq<nat>, vals: seq<nat>, limit: int) returns (used: seq<nat>, rest: int)
    requires Chain(vals) && |held| == |vals|
    ensures used == ShortOf(t, held, vals, limit) && rest == t - Value(used, vals)
  {
    hide Greedy;
    hide Halfway;
    hide Worth;
    ghost var h := UpTo(held, limit);
    rest := t;
    var i := |vals|;
    used := [];
    HalfwayStart(t - 1, h, vals);
    while i > 0
      invariant 0 <= i <= |vals|
      invariant Halfway(t - 1, h, vals, i, rest - 1, used)
    {
      HalfwayStep(t - 1, h, vals, i, rest - 1, used);
      i := i - 1;
      if i <= limit {
        var k, left := TakeShort(rest, vals[i], held[i]);
        used, rest := [k] + used, left;
      } else {
        used := [0] + used;
      }
    }
    HalfwayEnd(t - 1, h, vals, rest - 1, used);
  }

  /** The selection with the lowest coin from `i` on that covers the rest, if there is one. */
  function Topped(used: seq<nat>, rest: int, held: seq<nat>, vals: seq<nat>, i: nat): (r: seq<nat>)
    requires |used| == |held| == |vals| && Within(used, held)
    ensures Within(r, held)
    decreases |vals| - i
  {
    if i >= |vals| then used
    else if vals[i] > rest && used[i] < held[i] then used[i := used[i] + 1]
    else Topped(used, rest, held, vals, i + 1)
  }

  lemma {:induction false} ToppedFrom(used: seq<nat>, rest: int, held: seq<nat>, vals: seq<nat>, i: nat, k: nat)
    requires |used| == |held| == |vals| && Within(used, held) && i <= k <= |vals|
    requires forall j :: i <= j < k ==> !(vals[j] > rest && used[j] < held[j])
    ensures Topped(used, rest, held, vals, i) == Topped(used, rest, held, vals, k)
    decreases k - i
  {
    if i < k {
      ToppedFrom(used, rest, held, vals, i + 1, k);
    }
  }

  /** The second pass: the lowest coin that covers the rest, once; -1 when there is none. */
  method FillUp(used: seq<nat>, rest: nat, held: seq<nat>, vals: seq<nat>) returns (r: seq<nat>, coin: int)
    requires |used| == |held| == |vals| && Within(used, held)
    ensures r == Topped(used, rest, held, vals, 0)
    ensures coin == -1 ==> r == used && forall i :: 0 <= i < |vals| ==> !(vals[i] > rest && used[i] < held[i])
    ensures coin != -1 ==> 0 <= coin < |vals| && vals[coin] > rest && used[coin] < held[coin]
                           && r == used[coin := used[coin] + 1]
                           && forall i :: 0 <= i < coin ==> !(vals[i] > rest && used[i] < held[i])
  {
    r, coin := used, -1;
    var left: int := rest;
    for i := 0 to |vals|
      invariant r == used && coin == -1 && left == rest
      invariant forall j :: 0 <= j < i ==> !(vals[j] > rest && used[j] < held[j])
    {
      ToppedFrom(used, rest, held, vals, 0, i);
      if vals[i] > left && r[i] < held[i] {
        r := r[i := r[i] + 1];
        left := left - vals[i];
        coin := i;
      }
      if left < 0 {
        return;
      }
    }
    ToppedFrom(used, rest, held, vals, 0, |vals|);
  }

  function Lesser(u: seq<nat>, w: seq<nat>): (r: seq<nat>)
    requires |u| == |w|
    ensures Within(r, u) && Within(r, w)
  {
    seq(|u|, i requires 0 <= i < |u| => if u[i] < w[i] then u[i] else w[i])
  }

  /** Coins that are both paid and given back as change are neither. */
  method RemoveOverlap(used: seq<nat>, change: seq<nat>) returns (r: seq<nat>)
    requires |used| == |change|
    ensures r == Minus(used, Lesser(used, change))
  {
    r := used;
    var left := change;
    for i := 0 to |used|
      invariant |r| == |left| == |used|
      invariant forall j :: 0 <= j < i ==> r[j] == used[j] - Lesser(used, change)[j]
      invariant forall j :: i <= j < |used| ==> r[j] == used[j] && left[j] == change[j]
    {
      while left[i] > 0 && r[i] > 0
        invariant |r| == |left| == |used| && r[i] <= used[i] && left[i] <= change[i] && used[i] - r[i] == change[i] - left[i]
        invariant forall j :: 0 <= j < i ==> r[j] == used[j] - Lesser(used, change)[j]
        invariant forall j :: i < j < |used| ==> r[j] == used[j] && left[j] == change[j]
        decreases r[i]
      {
        r := r[i := r[i] - 1];
        left := left[i := left[i] - 1];
      }
    }
  }

  lemma {:induction false} ValueMonotone(u: seq<nat>, w: seq<nat>, vals: seq<nat>)
    requires Within(u, w) && |u| <= |vals|
    ensures Value(u, vals) <= Value(w, vals)
  {
    hide Worth;
    if u != [] {
      var n := |u| - 1;
      ValueMonotone(u[..n], w[..n], vals);
      MulLe(u[n], w[n], vals[n]);
    }
  }

  /** Removing the overlap with the change for the surplus leaves at least the target. */
  lemma OverlapIsSurplus(t: int, used: seq<nat>, vals: seq<nat>)
    requires Chain(vals) && |used| == |vals|
    ensures var change := Change(Value(used, vals) - t, vals);
            var r := Minus(used, Lesser(used, change));
            && Within(r, used)
            && (Value(used, vals) >= t ==> Value(r, vals) >= t)
            && (Value(used, vals) <= t ==> Value(r, vals) == Value(used, vals))
  {
    hide Greedy;
    var surplus := Value(used, vals) - t;
    var change := Change(surplus, vals);
    var both := Lesser(used, change);
    MinusValue(used, both, vals);
    ValueMonotone(both, change, vals);
    GreedyAtMost(surplus, Plenty(surplus, |vals|), vals);
  }

  /** The selection `minimizeChange` tries: short of the target, one coin to cover the rest, without what would come back
      as change. */
  function Alternative(t: int, held: seq<nat>, vals: seq<nat>, limit: int): (u: seq<nat>)
    requires Chain(vals) && |held| == |vals|
  {
    var short := ShortOf(t, held, vals, limit);
    var topped := Topped(short, t - Value(short, vals), held, vals, 0);
    var left := Minus(topped, Lesser(topped, Change(Value(topped, vals) - t, vals)));
    Greedy(Value(left, vals), held, vals)
  }

  /** The number of coins that the surplus of a selection comes back in. */
  function ChangeCount(u: seq<nat>, t: int, vals: seq<nat>): (n: nat)
    requires Chain(vals) && |u| <= |vals|
  {
    Count(Change(Value(u, vals) - t, vals))
  }

  /** `minimizeChange`: either the selection it was given, or one within the holdings with less change. When a
      coin covers the rest, exactly one is added and the new selection is worth at least the target. */
  method MinimizeChange(nMaxNumberOfSpends: int, nChangeCount: int, limit: int, t: nat, held: seq<nat>, vals: seq<nat>, saved: seq<nat>)
      returns (r: int, used: seq<nat>)
    requires Chain(vals) && |held| == |vals|
    ensures (r == nChangeCount && used == saved)
            || (r < nChangeCount && Within(used, held) && Count(used) <= nMaxNumberOfSpends
                && r == Count(Change(Value(used, vals) - t, vals))
                && (Value(used, vals) >= t || (r == 0 && forall i: nat :: i < |vals| ==> !Covers(t, held, vals, limit, i))))
    ensures var alt := Alternative(t, held, vals, limit);
            used == if ChangeCount(alt, t, vals) < nChangeCount && Count(alt) <= nMaxNumberOfSpends then alt else saved
  {
    hide Greedy;
    hide Value;
    hide Count;
    hide Covers;
    hide Alternative;
    var amount := AltAmount(limit, t, held, vals);
    used := GetSpendCoins(amount, held, vals);
    var nCoinCount := CountCoins(used);
    var altChange := GetChange(amount - t, vals);
    var altChangeCount := CountCoins(altChange);
    if altChangeCount < nChangeCount && nCoinCount <= nMaxNumberOfSpends {
      r := altChangeCount;
      if amount < t {
        GreedyOfNothing(amount - t, Plenty(amount - t, |vals|), vals);
      }
    } else {
      r, used := nChangeCount, saved;
    }
  }

  /** The amount both passes and the removal of the overlap arrive at: one that coins held can pay exactly, at
      least the target when a coin covered the rest. */
  method AltAmount(limit: int, t: nat, held: seq<nat>, vals: seq<nat>) returns (amount: nat)
    requires Chain(vals) && |held| == |vals|
    ensures Value(Greedy(amount, held, vals), vals) == amount && Greedy(amount, held, vals) == Alternative(t, held, vals, limit)
    ensures amount >= t || forall i: nat :: i < |vals| ==> !Covers(t, held, vals, limit, i)
  {
    hide Greedy;
    hide Value;
    hide Count;
    hide Topped;
    hide Lesser;
    hide Minus;
    hide Change;
    var first, rest := ShortPass(t, held, vals, limit);
    GreedyAtMost(t - 1, UpTo(held, limit), vals);
    var filled, coin := FillUp(first, rest, held, vals);
    hide Worth;
    if coin != -1 {
      ValueUpdate(first, coin, first[coin] + 1, vals);
    }
    amount := ValueOf(filled, vals);
    var altChange := GetChange(amount - t, vals);
    var left := RemoveOverlap(filled, altChange);
    OverlapIsSurplus(t, filled, vals);
    amount := ValueOf(left, vals);
    GreedyIsExact(amount, held, vals, left);
  }

  /** `getNumberOfCoinsUsed`. */
  method CountCoins(u: seq<nat>) returns (n: nat)
    ensures n == Count(u)
  {
    n := 0;
    for i := 0 to |u|
      invariant n == Count(u[..i])
    {
      assert u[..i + 1][..i] == u[..i];
      n := n + u[i];
    }
    assert u[..|u|] == u;
  }

  /** The running `AmountUsed`. */
  method ValueOf(u: seq<nat>, vals: seq<nat>) returns (v: nat)
    requires |u| == |vals|
    ensures v == Value(u, vals)
  {
    hide Worth;
    v := 0;
    for i := 0 to |u|
      invariant v == Value(u[..i], vals)
    {
      assert u[..i + 1][..i] == u[..i];
      v := v + Worth(u[i], vals[i]);
    }
    assert u[..|u|] == u;
  }

  /** A coin worth more than the target and above the limit always covers. */
  lemma BigCoinCovers(t: nat, held: seq<nat>, vals: seq<nat>, limit: int, i: nat)
    requires Chain(vals) && |held| == |vals| && limit < i < |vals| && held[i] > 0 && vals[i] > t
    ensures Covers(t, held, vals, limit, i)
  {
    hide Greedy;
    assert UpTo(held, limit)[i] == 0;
  }

  /** When what is held is worth more than the target and nothing held is worth exactly that, some coin covers. */
  lemma SomeCoinCovers(t: nat, held: seq<nat>, vals: seq<nat>, limit: int) returns (i: nat)
    requires Chain(vals) && |held| == |vals| && UpTo(held, limit) == held
    requires Value(held, vals) > t && !Payable(t, held, vals)
    ensures i < |vals| && Covers(t, held, vals, limit, i)
  {
    hide Greedy;
    hide Value;
    var u, none := ShortOf(t, held, vals, limit), seq(|vals|, _ => 0);
    GreedyAtMost(t - 1, held, vals);
    ValueOfNone(none, vals);
    assert Within(none, held);
    if u == held {
      assert false;
    }
    i :| 0 <= i < |vals| && u[i] != held[i];
    GreedyLeftover(t - 1, held, vals, i);
    ValueUpdate(u, i, u[i] + 1, vals);
    assert Within(u[i := u[i] + 1], held);
  }

  /** The lowest denomination held that is worth more than `t`, or -1. */
  method MinDenomOver(t: nat, held: seq<nat>, vals: seq<nat>) returns (i: int)
    requires |held| == |vals|
    ensures -1 <= i < |vals|
    ensures i >= 0 ==> vals[i] > t && held[i] > 0 && forall j :: 0 <= j < i ==> !(vals[j] > t && held[j] > 0)
    ensures i == -1 ==> forall j :: 0 <= j < |vals| ==> !(vals[j] > t && held[j] > 0)
  {
    for k := 0 to |vals|
      invariant forall j :: 0 <= j < k ==> !(vals[j] > t && held[j] > 0)
    {
      if t < vals[k] && held[k] > 0 {
        return k;
      }
    }
    i := -1;
  }

  /** The highest denomination held below position `top`, or -1 (`getNextLowerDenomHeld`, `getMaxDenomHeld`). */
  method HighestHeldBelow(top: nat, held: seq<nat>) returns (i: int)
    requires top <= |held|
    ensures -1 <= i < top && (i >= 0 ==> held[i] > 0) && forall j :: i < j < top ==> held[j] == 0
  {
    i := top - 1;
    while i >= 0 && held[i] == 0
      invariant -1 <= i < top && forall j :: i < j < top ==> held[j] == 0
    {
      i := i - 1;
    }
  }

  /** How many coins of value `d`, of `h` held, it takes to meet or pass `rest`. */
  function Take(rest: int, d: nat, h: nat): (k: nat)
    ensures k <= h
    decreases h
  {
    if rest <= 0 || h == 0 then 0 else 1 + Take(rest - d, d, h - 1)
  }

  /** The selection that takes the highest denominations first, until the target is met or passed. */
  function Over(rest: int, held: seq<nat>, vals: seq<nat>): (u: seq<nat>)
    requires |held| <= |vals|
    ensures |u| == |held|
  {
    if held == [] then []
    else
      var n := |held| - 1;
      var k := Take(rest, vals[n], held[n]);
      Over(rest - Worth(k, vals[n]), held[..n], vals) + [k]
  }

  lemma {:induction false} OverOfNothing(rest: int, held: seq<nat>, vals: seq<nat>)
    requires |held| <= |vals| && rest <= 0
    ensures forall i :: 0 <= i < |held| ==> Over(rest, held, vals)[i] == 0
  {
    hide Worth;
    if held != [] {
      OverOfNothing(rest, held[..|held| - 1], vals);
    }
  }

  /** It stays within the holdings and, if they are worth the target, meets or passes it. */
  lemma {:induction false} OverReaches(rest: int, held: seq<nat>, vals: seq<nat>)
    requires |held| <= |vals|
    ensures Within(Over(rest, held, vals), held)
    ensures Value(held, vals) >= rest ==> Value(Over(rest, held, vals), vals) >= rest
  {
    hide Worth;
    if held != [] {
      var n := |held| - 1;
      var k, u := Take(rest, vals[n], held[n]), Over(rest, held, vals);
      OverReaches(rest - Worth(k, vals[n]), held[..n], vals);
      TakeReaches(rest, vals[n], held[n]);
      assert u[..n] == Over(rest - Worth(k, vals[n]), held[..n], vals);
    }
  }

  lemma {:induction false} TakeReaches(rest: int, d: nat, h: nat)
    ensures var k := Take(rest, d, h); k == h || rest - Worth(k, d) <= 0
    decreases h
  {
    if rest > 0 && h > 0 {
      TakeReaches(rest - d, d, h - 1);
      Split(Take(rest - d, d, h - 1), 1, d);
    }
  }

  method TakeOver(t: int, d: nat, h: nat) returns (k: nat, rest: int)
    ensures k == Take(t, d, h) && rest == t - Worth(k, d)
  {
    hide Worth;
    k, rest := 0, t;
    while rest > 0 && k < h
      invariant k <= h && rest == t - Worth(k, d)
      invariant k + Take(rest, d, h - k) == Take(t, d, h)
      decreases h - k
    {
      Split(k, 1, d);
      k, rest := k + 1, rest - d;
    }
  }

  /** Highest denominations first, until the target is met or passed. */
  method OverPass(t: nat, held: seq<nat>, vals: seq<nat>) returns (used: seq<nat>)
    requires |held| == |vals|
    ensures used == Over(t, held, vals)
  {
    hide Worth;
    hide Over;
    hide Take;
    var rest: int := t;
    var i := |vals|;
    used := [];
    assert held[..i] == held;
    while i > 0 && rest >= 0
      invariant 0 <= i <= |vals| && |used| == |vals| - i
      invariant Over(t, held, vals) == Over(rest, held[..i], vals) + used
    {
      OverStep(rest, held, vals, i);
      i := i - 1;
      var k, left := TakeOver(rest, vals[i], held[i]);
      used, rest := [k] + used, left;
    }
    OverEnd(rest, held, vals, i);
    used := seq(i, _ => 0) + used;
  }

  lemma OverStep(rest: int, held: seq<nat>, vals: seq<nat>, i: nat)
    requires 0 < i <= |held| <= |vals|
    ensures var k := Take(rest, vals[i - 1], held[i - 1]);
            Over(rest, held[..i], vals) == Over(rest - Worth(k, vals[i - 1]), held[..i - 1], vals) + [k]
  {
    assert held[..i][..i - 1] == held[..i - 1];
  }

  lemma OverEnd(rest: int, held: seq<nat>, vals: seq<nat>, i: nat)
    requires i <= |held| <= |vals| && (i == 0 || rest <= 0)
    ensures Over(rest, held[..i], vals) == seq(i, _ => 0)
  {
    if i > 0 {
      OverOfNothing(rest, held[..i], vals);
    }
  }

  function One(n: nat, i: nat): (u: seq<nat>)
    requires i < n
  {
    seq(n, _ => 0)[i := 1]
  }

  lemma OneCoin(vals: seq<nat>, i: nat)
    requires i < |vals|
    ensures Value(One(|vals|, i), vals) == vals[i] && Count(One(|vals|, i)) == 1
  {
    hide Worth;
    var z := seq(|vals|, _ => 0);
    ValueOfNone(z, vals);
    ValueUpdate(z, i, 1, vals);
  }

  /** When an overpayment keeps to the limit. With a coin worth more than the target, one is spent. Otherwise what is
      spent is not limited, unless the alternative with less change is within the limit. */
  predicate Manageable(nMaxNumberOfSpends: int, t: nat, held: seq<nat>, vals: seq<nat>)
    requires Chain(vals) && |held| == |vals|
  {
    if exists i :: 0 <= i < |vals| && vals[i] > t && held[i] > 0 then nMaxNumberOfSpends >= 1
    else
      var over, alt := Over(t, held, vals), Alternative(t, held, vals, |held|);
      || Count(over) <= nMaxNumberOfSpends
      || (Count(alt) <= nMaxNumberOfSpends && ChangeCount(alt, t, vals) < ChangeCount(over, t, vals))
  }

  /** With every coin held below the limit, it does not matter. */
  lemma AnyLimit(t: int, held: seq<nat>, vals: seq<nat>, limit: int)
    requires Chain(vals) && |held| == |vals| && UpTo(held, limit) == held
    ensures Alternative(t, held, vals, limit) == Alternative(t, held, vals, |held|)
  {
    hide ShortOf;
    hide Greedy;
    hide Value;
    hide Topped;
    hide Minus;
    hide Lesser;
    hide Change;
    ShortAnyLimit(t, held, vals, limit);
  }

  lemma ShortAnyLimit(t: int, held: seq<nat>, vals: seq<nat>, limit: int)
    requires Chain(vals) && |held| == |vals| && UpTo(held, limit) == held
    ensures ShortOf(t, held, vals, limit) == ShortOf(t, held, vals, |held|)
  {
    hide Greedy;
    assert UpTo(held, |held|) == held;
  }

  lemma BigCoinManageable(nMaxNumberOfSpends: int, t: nat, held: seq<nat>, vals: seq<nat>, i: nat)
    requires Chain(vals) && |held| == |vals| && i < |vals| && vals[i] > t && held[i] > 0
    ensures Manageable(nMaxNumberOfSpends, t, held, vals) <==> nMaxNumberOfSpends >= 1
  {
    hide Alternative;
    hide Over;
    hide Count;
    hide ChangeCount;
  }

  lemma OverManageable(nMaxNumberOfSpends: int, t: nat, held: seq<nat>, vals: seq<nat>)
    requires Chain(vals) && |held| == |vals| && forall i :: 0 <= i < |vals| ==> !(vals[i] > t && held[i] > 0)
    ensures var over, alt := Over(t, held, vals), Alternative(t, held, vals, |held|);
            Manageable(nMaxNumberOfSpends, t, held, vals) <==>
              || Count(over) <= nMaxNumberOfSpends
              || (Count(alt) <= nMaxNumberOfSpends && ChangeCount(alt, t, vals) < ChangeCount(over, t, vals))
  {
    hide Alternative;
    hide Over;
    hide Count;
    hide ChangeCount;
  }

  lemma NegativeLimit(nMaxNumberOfSpends: int, t: nat, held: seq<nat>, vals: seq<nat>)
    requires Chain(vals) && |held| == |vals| && nMaxNumberOfSpends < 0
    ensures !Manageable(nMaxNumberOfSpends, t, held, vals)
  {
    hide Alternative;
    hide Over;
    hide Count;
    hide ChangeCount;
  }

  /** A selection worth something has a coin. */
  lemma WorthACoin(u: seq<nat>, vals: seq<nat>)
    requires Chain(vals) && 1 <= |u| == |vals| && Value(u, vals) > 0
    ensures Count(u) >= 1
  {
    hide Value;
    hide Count;
    hide Worth;
    hide Multiple;
    if Count(u) == 0 {
      ValueAtMostCount(u, vals, vals[|vals| - 1]);
    }
  }

  /** The second branch of `calculateChange`, without a coin worth more than the target. */
  method MeetDifferently(nMaxNumberOfSpends: int, fMinimizeChange: bool, t: nat, held: seq<nat>, vals: seq<nat>)
      returns (r: int, used: seq<nat>)
    requires Chain(vals) && |held| == |vals| && forall i :: 0 <= i < |vals| ==> !(vals[i] > t && held[i] > 0)
    ensures Within(used, held)
    ensures r == Count(Change(Value(used, vals) - t, vals))
    ensures r != 0 || (Value(held, vals) > t && !Payable(t, held, vals)) ==> Value(used, vals) > t
    ensures Count(used) <= nMaxNumberOfSpends <==> Manageable(nMaxNumberOfSpends, t, held, vals)
  {
    hide Greedy;
    hide Value;
    hide Count;
    hide Covers;
    hide Over;
    hide Change;
    hide Alternative;
    hide Manageable;
    used := OverPass(t, held, vals);
    OverReaches(t, held, vals);
    var amount := ValueOf(used, vals);
    var nCoinCount := CountCoins(used);
    var mapChange := GetChange(amount - t, vals);
    var nMaxChangeCount := CountCoins(mapChange);
    var maxDenomHeld := HighestHeldBelow(|held|, held);
    var nChangeCount, used' := MinimizeChange(nMaxNumberOfSpends, nMaxChangeCount, maxDenomHeld, t, held, vals, used);
    assert UpTo(held, maxDenomHeld) == held;
    AnyLimit(t, held, vals, maxDenomHeld);
    OverManageable(nMaxNumberOfSpends, t, held, vals);
    if Value(held, vals) > t && !Payable(t, held, vals) {
      var i := SomeCoinCovers(t, held, vals, maxDenomHeld);
    }
    var nNumSpends := CountCoins(used');
    SurplusIfChange(nMaxChangeCount, used, t, held, vals);
    SurplusIfChange(nChangeCount, used', t, held, vals);
    if !fMinimizeChange && nCoinCount < nNumSpends {
      return nMaxChangeCount, used;
    }
    used, r := used', nChangeCount;
  }

  /** `calculateChange`: a selection within the holdings, with the number of coins its surplus comes back in.
      When more than the target is held and no coins held are worth exactly the target, the selection is worth more. */
  method CalculateChange(nMaxNumberOfSpends: int, fMinimizeChange: bool, t: nat, held: seq<nat>, vals: seq<nat>)
      returns (r: int, used: seq<nat>)
    requires Chain(vals) && |held| == |vals|
    ensures Within(used, held)
    ensures r == Count(Change(Value(used, vals) - t, vals))
    ensures r != 0 || (Value(held, vals) > t && !Payable(t, held, vals)) ==> Value(used, vals) > t
    ensures r != 0 ==> (Count(used) <= nMaxNumberOfSpends <==> Manageable(nMaxNumberOfSpends, t, held, vals))
  {
    hide Greedy;
    hide Value;
    hide Count;
    hide Covers;
    hide Over;
    hide Alternative;
    hide Manageable;
    var minOver := MinDenomOver(t, held, vals);
    if minOver != -1 {
      used := One(|vals|, minOver);
      OneCoin(vals, minOver);
      BigCoinManageable(nMaxNumberOfSpends, t, held, vals, minOver);
      var mapChange := GetChange(vals[minOver] - t, vals);
      r := CountCoins(mapChange);
      if fMinimizeChange {
        var nextToMax := HighestHeldBelow(minOver, held);
        var r', used' := MinimizeChange(nMaxNumberOfSpends, r, nextToMax, t, held, vals, used);
        BigCoinCovers(t, held, vals, nextToMax, minOver);
        if r' < r {
          SurplusIfChange(r', used', t, held, vals);
          assert Value(used', vals) >= t;
          if r' != 0 {
            WorthACoin(used', vals);
          }
          return r', used';
        }
      }
    } else {
      r, used := MeetDifferently(nMaxNumberOfSpends, fMinimizeChange, t, held, vals);
    }
  }

  /** Change given back means a surplus, and a selection worth exactly the target is a payment. */
  lemma SurplusIfChange(r: int, used: seq<nat>, t: nat, held: seq<nat>, vals: seq<nat>)
    requires Chain(vals) && Within(used, held) && |held| == |vals| && r == Count(Change(Value(used, vals) - t, vals))
    ensures r != 0 ==> Value(used, vals) > t
    ensures Value(used, vals) == t ==> Payable(t, held, vals)
  {
    hide Greedy;
    if Value(used, vals) <= t {
      GreedyOfNothing(Value(used, vals) - t, Plenty(Value(used, vals) - t, |vals|), vals);
    }
  }

  // ---- from counts back to mints

  /** Positions of distinct unused mints. */
  predicate IsSelection(mints: seq<Mint>, sel: seq<nat>) {
    && (forall k :: 0 <= k < |sel| ==> sel[k] < |mints| && !mints[sel[k]].isUsed)
    && (forall k, l :: 0 <= k < l < |sel| ==> sel[k] != sel[l])
  }

  function SumOf(mints: seq<Mint>, sel: seq<nat>, vals: seq<nat>): (v: nat)
    requires KnownMints(mints, |vals|) && forall k :: 0 <= k < |sel| ==> sel[k] < |mints|
  {
    if sel == [] then 0 else SumOf(mints, sel[..|sel| - 1], vals) + vals[mints[sel[|sel| - 1]].denom]
  }

  /** One walk over the list takes the first `want` unused mints of a denomination. */
  method PickCoins(mints: seq<Mint>, coin: nat, want: nat) returns (sel: seq<nat>)
    requires want <= CountOf(mints, coin)
    ensures |sel| == want && IsSelection(mints, sel)
    ensures forall k :: 0 <= k < |sel| ==> mints[sel[k]].denom == coin
  {
    sel := [];
    for j := 0 to |mints|
      invariant |sel| == if want < CountOf(mints[..j], coin) then want else CountOf(mints[..j], coin)
      invariant forall k :: 0 <= k < |sel| ==> sel[k] < j && !mints[sel[k]].isUsed && mints[sel[k]].denom == coin
      invariant forall k, l :: 0 <= k < l < |sel| ==> sel[k] != sel[l]
    {
      assert mints[..j + 1][..j] == mints[..j];
      if !mints[j].isUsed && mints[j].denom == coin && |sel| < want {
        sel := sel + [j];
      }
    }
    assert mints[..|mints|] == mints;
  }

  lemma {:induction false} SumAppend(mints: seq<Mint>, a: seq<nat>, b: seq<nat>, vals: seq<nat>, coin: nat)
    requires KnownMints(mints, |vals|) && coin < |vals|
    requires forall k :: 0 <= k < |a| ==> a[k] < |mints|
    requires forall k :: 0 <= k < |b| ==> b[k] < |mints| && mints[b[k]].denom == coin
    ensures SumOf(mints, a + b, vals) == SumOf(mints, a, vals) + Worth(|b|, vals[coin])
    decreases |b|
  {
    hide Worth;
    if b == [] {
      assert a + b == a;
    } else {
      var n := |b| - 1;
      SumAppend(mints, a, b[..n], vals, coin);
      assert (a + b)[..|a + b| - 1] == a + b[..n];
      Split(n, 1, vals[coin]);
    }
  }

  /** `getSpends`: as many unused mints of each denomination as asked for, all different. The repetition of the
      walk over the list is never needed, because no more are asked for than there are. */
  method GetSpends(mints: seq<Mint>, used: seq<nat>, vals: seq<nat>) returns (sel: seq<nat>, nCoinsSpentValue: nat)
    requires KnownMints(mints, |vals|) && Within(used, Holdings(mints, |vals|))
    ensures IsSelection(mints, sel) && |sel| == Count(used)
    ensures nCoinsSpentValue == SumOf(mints, sel, vals) == Value(used, vals)
  {
    hide Worth;
    hide Value;
    hide Count;
    sel, nCoinsSpentValue := [], 0;
    var i := |vals|;
    assert used[..i] == used;
    while i > 0
      invariant 0 <= i <= |vals| && IsSelection(mints, sel)
      invariant forall k :: 0 <= k < |sel| ==> mints[sel[k]].denom >= i
      invariant |sel| == Count(used) - Count(used[..i])
      invariant nCoinsSpentValue == SumOf(mints, sel, vals) == Value(used, vals) - Value(used[..i], vals)
    {
      ValueUnfold(used[..i], vals);
      assert used[..i][..i - 1] == used[..i - 1];
      i := i - 1;
      var more := PickCoins(mints, i, used[i]);
      SumAppend(mints, sel, more, vals, i);
      sel := sel + more;
      nCoinsSpentValue := nCoinsSpentValue + Worth(used[i], vals[i]);
    }
    NoCoins(used, vals);
  }

  lemma NoCoins(used: seq<nat>, vals: seq<nat>)
    requires |used| <= |vals|
    ensures Value(used[..0], vals) == 0 && Count(used[..0]) == 0
  {}

  /** `SelectMintsFromList`: different unused mints worth at least the target, together with the number of coins
      the surplus comes back in; or none. An exact payment within the limit is always found, with as few mints as
      possible; and when the target is a multiple of the lowest denomination, more is held and no exact payment
      exists, a selection that pays more is always found. The limit is kept exactly by exact payments within it and by
      manageable overpayments; a negative limit, compared as an unsigned number, is none for exact payments. */
  method SelectMintsFromList(t: nat, nMaxNumberOfSpends: int, fMinimizeChange: bool, mints: seq<Mint>, vals: seq<nat>)
      returns (sel: seq<nat>, nCoinsReturned: int, nNeededSpends: nat)
    requires Chain(vals) && |vals| >= 1 && KnownMints(mints, |vals|)
    ensures IsSelection(mints, sel)
    ensures sel != [] ==> SumOf(mints, sel, vals) >= t && nCoinsReturned == Count(Change(SumOf(mints, sel, vals) - t, vals))
    ensures forall u :: Within(u, Holdings(mints, |vals|)) && Value(u, vals) == t
                        && (Count(u) <= nMaxNumberOfSpends || nMaxNumberOfSpends < 0) ==>
                          SumOf(mints, sel, vals) == t && |sel| <= Count(u) && nCoinsReturned == 0
    ensures sel != [] ==> (|sel| <= nMaxNumberOfSpends <==>
              || Manageable(nMaxNumberOfSpends, t, Holdings(mints, |vals|), vals)
              || exists u :: Within(u, Holdings(mints, |vals|)) && Value(u, vals) == t && Count(u) <= nMaxNumberOfSpends)
    ensures nNeededSpends > 0 ==> Payable(t, Holdings(mints, |vals|), vals) && 0 <= nMaxNumberOfSpends < nNeededSpends
    ensures forall u :: Within(u, Holdings(mints, |vals|)) && Value(u, vals) == t ==> nNeededSpends <= Count(u)
    ensures Value(Holdings(mints, |vals|), vals) > t && !Payable(t, Holdings(mints, |vals|), vals) && Multiple(t, vals[0])
            ==> SumOf(mints, sel, vals) > t
  {
    hide Greedy;
    hide Value;
    hide Count;
    hide SumOf;
    hide Manageable;
    var held := Holdings(mints, |vals|);
    nNeededSpends := 0;
    var exact, used := GetIdealSpends(t, mints, vals);
    forall u | Within(u, held) && Value(u, vals) == t ensures exact && Count(used) <= Count(u) {
      GreedyIsExact(t, held, vals, u);
    }
    var spent;
    if exact {
      nCoinsReturned := 0;
      sel, spent := GetSpends(mints, used, vals);
      if nMaxNumberOfSpends < 0 || |sel| <= nMaxNumberOfSpends {
        GreedyOfNothing(0, Plenty(0, |vals|), vals);
        assert Within(used, held) && Value(used, vals) == t;
        if nMaxNumberOfSpends < 0 {
          NegativeLimit(nMaxNumberOfSpends, t, held, vals);
        }
        return;
      } else {
        nNeededSpends := |sel|;
      }
    }
    nCoinsReturned, used := CalculateChange(nMaxNumberOfSpends, fMinimizeChange, t, held, vals);
    SurplusIfChange(nCoinsReturned, used, t, held, vals);
    if nCoinsReturned == 0 {
      sel := [];
      if Value(used, vals) > t && Multiple(t, vals[0]) {
        SurplusComesBack(t, used, vals);
      }
      EmptySum(mints, vals);
    } else {
      sel, spent := GetSpends(mints, used, vals);
    }
  }

  /** The limit is not always kept: with denominations of one and five, three mints of five and a target of seven, a
      limit of one is passed. */
  method LimitPassed() returns (sel: seq<nat>)
    ensures IsSelection([Mint(1, false), Mint(1, false), Mint(1, false)], sel) && |sel| > 1
  {
    var mints, vals := [Mint(1, false), Mint(1, false), Mint(1, false)], [1, 5];
    ThreeFives(mints, vals);
    hide Chain;
    hide Holdings;
    hide Payable;
    hide Value;
    hide Count;
    hide Greedy;
    hide Change;
    hide Manageable;
    hide SumOf;
    var nCoinsReturned, nNeededSpends;
    sel, nCoinsReturned, nNeededSpends := SelectMintsFromList(7, 1, false, mints, vals);
    OneMintAtMost(mints, sel, vals, 5);
  }

  lemma OneMintAtMost(mints: seq<Mint>, sel: seq<nat>, vals: seq<nat>, d: nat)
    requires KnownMints(mints, |vals|) && IsSelection(mints, sel) && forall i :: 0 <= i < |vals| ==> vals[i] <= d
    ensures |sel| <= 1 ==> SumOf(mints, sel, vals) <= d
  {
    if |sel| == 1 {
      assert SumOf(mints, sel[..0], vals) == 0;
    }
  }

  lemma ThreeFives(mints: seq<Mint>, vals: seq<nat>)
    requires mints == [Mint(1, false), Mint(1, false), Mint(1, false)] && vals == [1, 5]
    ensures Chain(vals) && Multiple(7, vals[0])
    ensures Value(Holdings(mints, 2), vals) > 7 && !Payable(7, Holdings(mints, 2), vals)
  {
    assert 7 == Worth(7, 1) && 5 == Worth(5, 1);
    assert mints[..2] == [Mint(1, false), Mint(1, false)] && mints[..2][..1] == [Mint(1, false)] && mints[..2][..1][..0] == [];
    assert CountOf(mints[..2][..1], 1) == 1 && CountOf(mints[..2][..1], 0) == 0;
    assert CountOf(mints[..2], 1) == 2 && CountOf(mints[..2], 0) == 0;
    var held := Holdings(mints, 2);
    assert held == [0, 3];
    forall u: seq<nat> | Within(u, held) ensures Value(u, vals) == 5 * u[1] {
      assert u[..1] == [u[0]] && u[..1][..0] == [];
      assert Value(u[..1], vals) == 0;
    }
    assert Within(held, held);
  }

  lemma EmptySum(mints: seq<Mint>, vals: seq<nat>)
    requires KnownMints(mints, |vals|)
    ensures SumOf(mints, [], vals) == 0
  {}

  /** A surplus over a multiple of the lowest denomination is given back in at least one coin. */
  lemma SurplusComesBack(t: nat, used: seq<nat>, vals: seq<nat>)
    requires Chain(vals) && 1 <= |used| == |vals| && Value(used, vals) > t && Multiple(t, vals[0])
    ensures Count(Change(Value(used, vals) - t, vals)) > 0
  {
    hide Greedy;
    hide Worth;
    hide Value;
    hide Count;
    hide Change;
    var v := Value(used, vals);
    ValueIsMultiple(used, vals);
    var b: nat :| t == Worth(b, vals[0]);
    MultipleMinus(v, b, vals[0]);
    ChangeIsComplete(vals, v - t);
    WorthACoin(Change(v - t, vals), vals);
  }
}
