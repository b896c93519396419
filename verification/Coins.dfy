/**
 What is known of one transaction's outputs (`CCoins`): which are unspent, spending
 one of them, and taking that back from the undo record.
 */
module Coins {
  import opened Basics

  datatype TxOut = TxOut(nValue: int, scriptPubKey: Script) {
    predicate IsNull() {
      nValue == -1
    }
  }

  const NULL_OUT := TxOut(-1, [])

  datatype Coins = Coins(fCoinBase: bool, fCoinStake: bool, vout: seq<TxOut>, nHeight: int, nVersion: int) {
    predicate IsPruned() {
      forall i :: 0 <= i < |vout| ==> vout[i].IsNull()
    }

    predicate IsAvailable(n: nat) {
      n < |vout| && !vout[n].IsNull()
    }

    /** No spent output at the end of the array. */
    predicate IsTidy() {
      vout != [] ==> !vout[|vout| - 1].IsNull()
    }

    /** Spent outputs carry nothing. */
    predicate NullsAreBare() {
      forall i :: 0 <= i < |vout| && vout[i].IsNull() ==> vout[i] == NULL_OUT
    }

    /** `Cleanup`: spent outputs at the end are dropped, so what is available is unchanged. */
    function Tidied(): (r: Coins)
      ensures r.IsTidy() && r == this.(vout := r.vout)
      ensures |r.vout| <= |vout| && r.vout == vout[..|r.vout|]
      ensures forall i :: |r.vout| <= i < |vout| ==> vout[i].IsNull()
      ensures r.IsPruned() == IsPruned()
      decreases |vout|
    {
      if vout == [] || !vout[|vout| - 1].IsNull() then this
      else this.(vout := vout[..|vout| - 1]).Tidied()
    }
  }

  const NO_COINS := Coins(false, false, [], 0, 0)

  lemma TidyPrunedIsEmpty(c: Coins)
    requires c.IsTidy()
    ensures c.IsPruned() <==> c.vout == []
  {}

  /** The loop of `Cleanup`. */
  method Cleanup(c: Coins) returns (r: Coins)
    ensures r == c.Tidied()
  {
    r := c;
    while |r.vout| > 0 && r.vout[|r.vout| - 1].IsNull()
      invariant r == c.(vout := r.vout) && r.Tidied() == c.Tidied()
      decreases |r.vout|
    {
      r := r.(vout := r.vout[..|r.vout| - 1]);
    }
  }

  datatype Undo = Undo(txout: TxOut, fCoinBase: bool, fCoinStake: bool, nHeight: int, nVersion: int)

  /** Spends output `n`: it and only it stops being available. The undo record holds the output, and the
      transaction's own data when nothing of it is left. */
  method Spend(c: Coins, n: nat) returns (ok: bool, r: Coins, undo: Option<Undo>)
    ensures ok == c.IsAvailable(n)
    ensures !ok ==> r == c && undo == None
    ensures ok ==> r == Spent(c, n) && undo == Some(UndoOf(c, n))
    ensures ok ==> forall i: nat :: r.IsAvailable(i) <==> c.IsAvailable(i) && i != n
  {
    if n >= |c.vout| {
      return false, c, None;
    }
    if c.vout[n].IsNull() {
      return false, c, None;
    }
    var u := Undo(c.vout[n], false, false, 0, 0);
    r := Cleanup(c.(vout := c.vout[n := NULL_OUT]));
    if |r.vout| == 0 {
      u := u.(nHeight := c.nHeight, fCoinBase := c.fCoinBase, fCoinStake := c.fCoinStake, nVersion := c.nVersion);
    }
    undo := Some(u);
    ok := true;
    SpentAvailability(c, n);
  }

  function Spent(c: Coins, n: nat): (r: Coins)
    requires c.IsAvailable(n)
  {
    c.(vout := c.vout[n := NULL_OUT]).Tidied()
  }

  function UndoOf(c: Coins, n: nat): (u: Undo)
    requires c.IsAvailable(n)
  {
    if Spent(c, n).vout == [] then Undo(c.vout[n], c.fCoinBase, c.fCoinStake, c.nHeight, c.nVersion)
    else Undo(c.vout[n], false, false, 0, 0)
  }

  lemma SpentAvailability(c: Coins, n: nat)
    requires c.IsAvailable(n)
    ensures forall i: nat :: Spent(c, n).IsAvailable(i) <==> c.IsAvailable(i) && i != n
  {
    var r, w := Spent(c, n), c.vout[n := NULL_OUT];
    forall i: nat ensures r.IsAvailable(i) <==> c.IsAvailable(i) && i != n {
      if |r.vout| <= i < |w| {
        assert w[i].IsNull();
      } else if i < |r.vout| {
        assert r.vout[i] == w[i];
      }
    }
  }

  /** What disconnecting a block makes of coins from which `undo` took output `n`. */
  function Restored(c: Coins, undo: Undo, n: nat): (r: Coins) {
    var base := if undo.nHeight != 0 then Coins(undo.fCoinBase, false, [], undo.nHeight, undo.nVersion) else c;
    var vout := if |base.vout| < n + 1 then base.vout + seq(n + 1 - |base.vout|, _ => NULL_OUT) else base.vout;
    base.(vout := vout[n := undo.txout])
  }

  predicate SameTransaction(a: Coins, b: Coins) {
    a.fCoinBase == b.fCoinBase && a.fCoinStake == b.fCoinStake && a.nHeight == b.nHeight && a.nVersion == b.nVersion
  }

  /** Undoing a spend gives the coins back unless the spend took the last output: then it does exactly when
      the transaction was no coinstake (the flag is in the undo record, and is not restored), or, at height
      zero, when what the view kept of the transaction (`left`, all spent) still says what it was. */
  lemma UndoGivesBack(c: Coins, n: nat, left: Coins)
    requires c.IsAvailable(n) && c.IsTidy() && c.NullsAreBare()
    requires if Spent(c, n).vout == [] then left.vout == [] else left == Spent(c, n)
    ensures Restored(left, UndoOf(c, n), n) == c <==>
              || (exists i: nat :: i != n && c.IsAvailable(i))
              || (if c.nHeight != 0 then !c.fCoinStake else SameTransaction(left, c))
  {
    var s := Spent(c, n);
    SpentAvailability(c, n);
    var r := Restored(left, UndoOf(c, n), n);
    if s.vout == [] {
      forall i: nat | i != n ensures !c.IsAvailable(i) {
        assert !s.IsAvailable(i);
      }
      OnlyOutput(c, n);
      assert r.vout == c.vout;
    } else {
      assert s.IsAvailable(|s.vout| - 1);
      SpentVout(c, n);
      assert r.vout == c.vout;
    }
  }

  /** An input for which it fails: a coinstake transaction whose empty first output is spent, when its other output is. */
  lemma CoinStakeFlagIsLost(c: Coins)
    requires c == Coins(false, true, [NULL_OUT, TxOut(5, [])], 301, 1)
    ensures c.IsAvailable(1) && Spent(c, 1).IsPruned()
    ensures Restored(Spent(c, 1), UndoOf(c, 1), 1) == c.(fCoinStake := false)
  {
    var w := c.(vout := [NULL_OUT, NULL_OUT]);
    assert c.vout[1 := NULL_OUT] == w.vout;
    assert w.vout[..1] == [NULL_OUT] && [NULL_OUT][..0] == [];
    assert w.Tidied() == c.(vout := []);
  }

  lemma OnlyOutput(c: Coins, n: nat)
    requires c.IsAvailable(n) && c.IsTidy() && c.NullsAreBare()
    requires forall i: nat :: i != n ==> !c.IsAvailable(i)
    ensures c.vout == seq(n, _ => NULL_OUT) + [c.vout[n]]
  {
    assert c.IsAvailable(|c.vout| - 1);
    forall i | 0 <= i < n ensures c.vout[i] == NULL_OUT {
      assert !c.IsAvailable(i);
    }
  }

  lemma SpentVout(c: Coins, n: nat)
    requires c.IsAvailable(n) && c.IsTidy() && c.NullsAreBare()
    ensures var s := Spent(c, n);
            (if |s.vout| < n + 1 then s.vout + seq(n + 1 - |s.vout|, _ => NULL_OUT) else s.vout)[n := c.vout[n]] == c.vout
  {
    var s, w := Spent(c, n), c.vout[n := NULL_OUT];
    if n < |c.vout| - 1 {
      assert !w[|w| - 1].IsNull();
      assert s.vout == w;
    } else {
      forall i | |s.vout| <= i < n ensures c.vout[i] == NULL_OUT {
        assert w[i].IsNull();
      }
    }
  }
}
