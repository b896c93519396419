/**
 Masternode payments: the votes for who is paid at which height and their tally, the payee
 of a block, the transaction that pays it, and the check other nodes make of that
 transaction.
 */
module Payments {
  import opened Basics
  import opened Coins
  import Numerals

  const SIGNATURES_REQUIRED: int := 2
  const COIN: nat := 100_000_000

  datatype Payee = Payee(script: Script, nVotes: int)
  datatype Winner = Winner(masternode: nat, nBlockHeight: int, payee: Script)

  /** The votes by hash, and what they add up to by height. */
  datatype State = State(votes: map<nat, Winner>, blocks: map<int, seq<Payee>>)

  // ---- one tally

  /** One payee's count raised, or a new payee at the end. */
  function Credited(vec: seq<Payee>, script: Script, n: int): (r: seq<Payee>) {
    if vec == [] then [Payee(script, n)]
    else if vec[0].script == script then [vec[0].(nVotes := vec[0].nVotes + n)] + vec[1..]
    else [vec[0]] + Credited(vec[1..], script, n)
  }

  method AddPayee(vec: seq<Payee>, script: Script, n: int) returns (r: seq<Payee>)
    ensures r == Credited(vec, script, n)
  {
    hide Credited;
    var i := 0;
    while i < |vec|
      invariant 0 <= i <= |vec| && forall j :: 0 <= j < i ==> vec[j].script != script
    {
      if vec[i].script == script {
        CreditedWhere(vec, script, n, i);
        return vec[i := vec[i].(nVotes := vec[i].nVotes + n)];
      }
      i := i + 1;
    }
    CreditedWhere(vec, script, n, i);
    r := vec + [Payee(script, n)];
  }

  /** The first payee with this script is the one credited. */
  lemma {:induction false} CreditedWhere(vec: seq<Payee>, script: Script, n: int, k: nat)
    requires k <= |vec| && (forall j :: 0 <= j < k ==> vec[j].script != script) && (k < |vec| ==> vec[k].script == script)
    ensures Credited(vec, script, n) ==
              if k < |vec| then vec[k := vec[k].(nVotes := vec[k].nVotes + n)] else vec + [Payee(script, n)]
  {
    if vec != [] && k > 0 {
      CreditedWhere(vec[1..], script, n, k - 1);
      assert vec == [vec[0]] + vec[1..];
    }
  }

  /** The votes that name a payee for a height. */
  ghost function VotesFor(votes: map<nat, Winner>, height: int, script: Script): (r: set<nat>) {
    set hash | hash in votes && votes[hash].nBlockHeight == height && votes[hash].payee == script
  }

  /** The tally lists every payee voted for at the height once, with the number of votes. */
  ghost predicate Tallies(vec: seq<Payee>, votes: map<nat, Winner>, height: int) {
    && (forall i, j :: 0 <= i < j < |vec| ==> vec[i].script != vec[j].script)
    && (forall i :: 0 <= i < |vec| ==> vec[i].nVotes == |VotesFor(votes, height, vec[i].script)| && vec[i].nVotes >= 1)
    && (forall hash :: hash in votes && votes[hash].nBlockHeight == height ==> IsListed(vec, votes[hash].payee))
  }

  ghost predicate IsListed(vec: seq<Payee>, script: Script) {
    exists i :: 0 <= i < |vec| && vec[i].script == script
  }

  /** The blocks are the tally of the votes, height by height. */
  ghost predicate Inv(s: State) {
    && (forall h :: h in s.blocks ==> s.blocks[h] != [] && Tallies(s.blocks[h], s.votes, h))
    && (forall hash :: hash in s.votes ==> s.votes[hash].nBlockHeight in s.blocks)
  }

  lemma VotesGrow(votes: map<nat, Winner>, hash: nat, w: Winner, height: int, script: Script)
    requires hash !in votes
    ensures |VotesFor(votes[hash := w], height, script)| ==
              |VotesFor(votes, height, script)| + if w.nBlockHeight == height && w.payee == script then 1 else 0
  {
    var a, b := VotesFor(votes, height, script), VotesFor(votes[hash := w], height, script);
    if w.nBlockHeight == height && w.payee == script {
      assert b == a + {hash};
    } else {
      assert b == a;
    }
  }

  ghost function FirstWith(vec: seq<Payee>, script: Script): (k: nat)
    ensures k <= |vec| && (forall j :: 0 <= j < k ==> vec[j].script != script) && (k < |vec| ==> vec[k].script == script)
  {
    if vec == [] || vec[0].script == script then 0 else 1 + FirstWith(vec[1..], script)
  }

  lemma CreditTallies(vec: seq<Payee>, votes: map<nat, Winner>, hash: nat, w: Winner)
    requires Tallies(vec, votes, w.nBlockHeight) && hash !in votes
    ensures Tallies(Credited(vec, w.payee, 1), votes[hash := w], w.nBlockHeight)
  {
    hide Credited;
    hide VotesFor;
    hide IsListed;
    hide FirstWith;
    var k, r := FirstWith(vec, w.payee), Credited(vec, w.payee, 1);
    CreditedWhere(vec, w.payee, 1, k);
    CreditCounts(vec, votes, hash, w, k, r);
    CreditLists(vec, votes, hash, w, k, r);
  }

  /** The counts are those of the votes with the new one. */
  lemma CreditCounts(vec: seq<Payee>, votes: map<nat, Winner>, hash: nat, w: Winner, k: nat, r: seq<Payee>)
    requires Tallies(vec, votes, w.nBlockHeight) && hash !in votes && k <= |vec| && forall j :: 0 <= j < k ==> vec[j].script != w.payee
    requires if k < |vec| then vec[k].script == w.payee && r == vec[k := vec[k].(nVotes := vec[k].nVotes + 1)]
             else r == vec + [Payee(w.payee, 1)]
    ensures forall i :: 0 <= i < |r| ==> r[i].nVotes == |VotesFor(votes[hash := w], w.nBlockHeight, r[i].script)| && r[i].nVotes >= 1
  {
    hide IsListed;
    forall i | 0 <= i < |r|
      ensures r[i].nVotes == |VotesFor(votes[hash := w], w.nBlockHeight, r[i].script)| && r[i].nVotes >= 1
    {
      VotesGrow(votes, hash, w, w.nBlockHeight, r[i].script);
      if i == |vec| {
        Unvoted(vec, votes, w.nBlockHeight, w.payee);
      }
    }
  }

  /** Everyone voted for is still listed, and the new vote's payee is too. */
  lemma CreditLists(vec: seq<Payee>, votes: map<nat, Winner>, hash: nat, w: Winner, k: nat, r: seq<Payee>)
    requires forall x :: x in votes && votes[x].nBlockHeight == w.nBlockHeight ==> IsListed(vec, votes[x].payee)
    requires k < |r| && r[k].script == w.payee && |vec| <= |r| && forall i :: 0 <= i < |vec| ==> r[i].script == vec[i].script
    ensures var v := votes[hash := w]; forall x :: x in v && v[x].nBlockHeight == w.nBlockHeight ==> IsListed(r, v[x].payee)
  {
    var v := votes[hash := w];
    forall x | x in v && v[x].nBlockHeight == w.nBlockHeight ensures IsListed(r, v[x].payee) {
      if x != hash {
        assert IsListed(vec, votes[x].payee);
      }
    }
  }

  lemma Unvoted(vec: seq<Payee>, votes: map<nat, Winner>, height: int, script: Script)
    requires Tallies(vec, votes, height) && forall i :: 0 <= i < |vec| ==> vec[i].script != script
    ensures VotesFor(votes, height, script) == {}
  {
    forall x ensures x !in VotesFor(votes, height, script) {
      if x in votes && votes[x].nBlockHeight == height && votes[x].payee == script {
        assert IsListed(vec, votes[x].payee);
      }
    }
  }

  /** The votes for other heights do not matter to a tally. */
  lemma TalliesLocal(vec: seq<Payee>, votes: map<nat, Winner>, votes': map<nat, Winner>, height: int)
    requires Tallies(vec, votes, height)
    requires forall x :: (x in votes && votes[x].nBlockHeight == height) <==> (x in votes' && votes'[x].nBlockHeight == height)
    requires forall x :: x in votes && x in votes' ==> votes[x] == votes'[x]
    ensures Tallies(vec, votes', height)
  {
    forall script ensures VotesFor(votes', height, script) == VotesFor(votes, height, script) {
    }
  }

  // ---- the operations

  function Added(s: State, hash: nat, w: Winner, known: bool): (r: State) {
    if !known || hash in s.votes then s
    else State(s.votes[hash := w],
               s.blocks[w.nBlockHeight := Credited(if w.nBlockHeight in s.blocks then s.blocks[w.nBlockHeight] else [], w.payee, 1)])
  }

  lemma AddKeeps(s: State, hash: nat, w: Winner, known: bool)
    requires Inv(s)
    ensures Inv(Added(s, hash, w, known))
  {
    hide Tallies;
    hide Credited;
    if known && hash !in s.votes {
      var r, h := Added(s, hash, w, known), w.nBlockHeight;
      var vec := if h in s.blocks then s.blocks[h] else [];
      if h !in s.blocks {
        NoVotesNoTally(s.votes, h);
      }
      CreditTallies(vec, s.votes, hash, w);
      CreditedSome(vec, w.payee, 1);
      forall h' | h' in r.blocks && h' != h ensures r.blocks[h'] != [] && Tallies(r.blocks[h'], r.votes, h') {
        TalliesLocal(s.blocks[h'], s.votes, r.votes, h');
      }
    }
  }

  lemma NoVotesNoTally(votes: map<nat, Winner>, height: int)
    requires forall x :: x in votes ==> votes[x].nBlockHeight != height
    ensures Tallies([], votes, height)
  {}

  lemma CreditedSome(vec: seq<Payee>, script: Script, n: int)
    ensures Credited(vec, script, n) != []
  {}

  /** Too old at height `tip` to be kept. */
  predicate Old(w: Winner, tip: int, limit: int) {
    tip - w.nBlockHeight > limit
  }

  /** Old votes go, and with each the tally of its height. */
  ghost function Cleaned(s: State, tip: int, limit: int): (r: State) {
    State(map hash | hash in s.votes && !Old(s.votes[hash], tip, limit) :: s.votes[hash],
          map h | h in s.blocks && !(exists hash :: hash in s.votes && Old(s.votes[hash], tip, limit) && s.votes[hash].nBlockHeight == h)
            :: s.blocks[h])
  }

  lemma CleanKeeps(s: State, tip: int, limit: int)
    requires Inv(s)
    ensures Inv(Cleaned(s, tip, limit))
  {
    hide Tallies;
    var r := Cleaned(s, tip, limit);
    forall h | h in r.blocks ensures r.blocks[h] != [] && Tallies(r.blocks[h], r.votes, h) {
      TalliesLocal(s.blocks[h], s.votes, r.votes, h);
    }
  }

  class Registry {
    var mapMasternodePayeeVotes: map<nat, Winner>
    var mapMasternodeBlocks: map<int, seq<Payee>>

    ghost function Model(): (s: State)
      reads this
    {
      State(mapMasternodePayeeVotes, mapMasternodeBlocks)
    }

    constructor ()
      ensures Model() == State(map[], map[]) && Inv(Model())
    {
      mapMasternodePayeeVotes, mapMasternodeBlocks := map[], map[];
    }

    method Clear()
      modifies this
      ensures Model() == State(map[], map[])
    {
      mapMasternodeBlocks := map[];
      mapMasternodePayeeVotes := map[];
    }

    /** A vote, counted once. `known`: the block a hundred before its height is. */
    method AddWinningMasternode(hash: nat, winner: Winner, known: bool) returns (fAdded: bool)
      requires Inv(Model())
      modifies this
      ensures Inv(Model()) && Model() == Added(old(Model()), hash, winner, known)
      ensures fAdded == (known && hash !in old(mapMasternodePayeeVotes))
    {
      hide Credited;
      hide Inv;
      AddKeeps(Model(), hash, winner, known);
      if !known || hash in mapMasternodePayeeVotes {
        return false;
      }
      mapMasternodePayeeVotes := mapMasternodePayeeVotes[hash := winner];
      if winner.nBlockHeight !in mapMasternodeBlocks {
        mapMasternodeBlocks := mapMasternodeBlocks[winner.nBlockHeight := []];
      }
      var vec := AddPayee(mapMasternodeBlocks[winner.nBlockHeight], winner.payee, 1);
      mapMasternodeBlocks := mapMasternodeBlocks[winner.nBlockHeight := vec];
      assert mapMasternodeBlocks == old(mapMasternodeBlocks)[winner.nBlockHeight := vec];
      return true;
    }

    /** Erases old votes one by one while going through them. */
    method CleanPaymentList(tip: int, limit: int)
      requires Inv(Model())
      modifies this
      ensures Inv(Model()) && Model() == Cleaned(old(Model()), tip, limit)
    {
      hide Inv;
      hide CleanedOf;
      CleanKeeps(Model(), tip, limit);
      ghost var s := Model();
      CleanedNone(s, tip, limit);
      var todo := mapMasternodePayeeVotes.Keys;
      ghost var done: set<nat> := {};
      while todo != {}
        invariant todo !! done && todo + done == s.votes.Keys && Model() == CleanedOf(s, done, tip, limit)
        decreases |todo|
      {
        var hash :| hash in todo;
        CleanedStep(s, done, tip, limit, hash);
        var winner := mapMasternodePayeeVotes[hash];
        todo, done := todo - {hash}, done + {hash};
        if tip - winner.nBlockHeight > limit {
          mapMasternodePayeeVotes := mapMasternodePayeeVotes - {hash};
          mapMasternodeBlocks := mapMasternodeBlocks - {winner.nBlockHeight};
        }
      }
      assert done == s.votes.Keys;
      CleanedAll(s, tip, limit);
    }

    /** The payee with the most votes for the height, if there are any. */
    method GetBlockPayee(nBlockHeight: int) returns (payee: Option<Script>)
      requires Inv(Model())
      ensures payee.None? <==> forall x :: x in mapMasternodePayeeVotes ==> mapMasternodePayeeVotes[x].nBlockHeight != nBlockHeight
      ensures payee.Some? ==> nBlockHeight in mapMasternodeBlocks
                              && exists k :: Leads(mapMasternodeBlocks[nBlockHeight], k) && mapMasternodeBlocks[nBlockHeight][k].script == payee.value
      ensures payee.Some? ==> IsPlurality(mapMasternodePayeeVotes, nBlockHeight, payee.value)
    {
      if nBlockHeight in mapMasternodeBlocks {
        ghost var k;
        payee, k := GetPayee(mapMasternodeBlocks[nBlockHeight]);
        LeaderIsPlurality(mapMasternodeBlocks[nBlockHeight], mapMasternodePayeeVotes, nBlockHeight, k);
      } else {
        payee := None;
      }
    }

    /** The check of a transaction for a height; without a tally anything passes. */
    method CheckTransaction(vout: seq<TxOut>, nBlockHeight: int, lastPow: int) returns (ok: bool)
      ensures ok <==> nBlockHeight in mapMasternodeBlocks ==>
                Accepts(mapMasternodeBlocks[nBlockHeight], vout, GetMasternodePayment(nBlockHeight, lastPow))
    {
      if nBlockHeight in mapMasternodeBlocks {
        ok := IsTransactionValid(mapMasternodeBlocks[nBlockHeight], vout, GetMasternodePayment(nBlockHeight, lastPow));
      } else {
        ok := true;
      }
    }

    /** A node fills in a payee on top of its tip, voted for or (`fallback`) its own choice, and checks the result: it
        passes exactly if there is no vote for the height, or the payment does not change there, or no payee is binding,
        or another output happens to pay one that is. */
    method FillAndCheck(vout: seq<TxOut>, fallback: Option<Script>, prevHeight: int, lastPow: int, fProofOfStake: bool)
      returns (r: seq<TxOut>, ok: bool)
      requires Inv(Model())
      ensures ok <==> prevHeight + 1 in mapMasternodeBlocks && !SamePayment(prevHeight, lastPow) ==>
                var vec := mapMasternodeBlocks[prevHeight + 1];
                (forall i :: 0 <= i < |vec| ==> !Binding(vec[i])) || OthersPay(vec, vout, prevHeight, lastPow, fProofOfStake)
    {
      hide GetMasternodePayment;
      hide Filled;
      hide OthersPay;
      hide Accepts;
      hide SamePayment;
      hide IsPlurality;
      hide Tallies;
      var payee := GetBlockPayee(prevHeight + 1);
      ghost var voted := payee;
      if payee.None? {
        payee := fallback;
      }
      r := FillBlockPayee(vout, payee, prevHeight, lastPow, fProofOfStake);
      ok := CheckTransaction(r, prevHeight + 1, lastPow);
      if prevHeight + 1 in mapMasternodeBlocks {
        ghost var vec := mapMasternodeBlocks[prevHeight + 1];
        TallyHasVotes(Model(), prevHeight + 1);
        ghost var k :| Leads(vec, k) && vec[k].script == voted.value;
        FilledAccepted(vec, k, vout, prevHeight, lastPow, fProofOfStake, r);
      }
    }
  }

  lemma TallyHasVotes(s: State, height: int)
    requires Inv(s) && height in s.blocks
    ensures exists x :: x in s.votes && s.votes[x].nBlockHeight == height
  {
    LeaderIsPlurality(s.blocks[height], s.votes, height, 0);
  }

  ghost predicate GoneAt(votes: map<nat, Winner>, done: set<nat>, tip: int, limit: int, h: int) {
    exists x :: x in done && x in votes && Old(votes[x], tip, limit) && votes[x].nBlockHeight == h
  }

  /** The state when the votes in `done` have been looked at. */
  ghost function CleanedOf(s: State, done: set<nat>, tip: int, limit: int): (r: State) {
    State(map x | x in s.votes && !(x in done && Old(s.votes[x], tip, limit)) :: s.votes[x],
          map h | h in s.blocks && !GoneAt(s.votes, done, tip, limit, h) :: s.blocks[h])
  }

  lemma CleanedNone(s: State, tip: int, limit: int)
    ensures CleanedOf(s, {}, tip, limit) == s
  {
    var r := CleanedOf(s, {}, tip, limit);
    assert r.votes == s.votes;
    assert r.blocks == s.blocks;
  }

  lemma CleanedAll(s: State, tip: int, limit: int)
    ensures CleanedOf(s, s.votes.Keys, tip, limit) == Cleaned(s, tip, limit)
  {
    var r, c := CleanedOf(s, s.votes.Keys, tip, limit), Cleaned(s, tip, limit);
    assert r.votes == c.votes;
    forall h | h in s.blocks ensures h in r.blocks <==> h in c.blocks {
      assert GoneAt(s.votes, s.votes.Keys, tip, limit, h)
        <==> exists hash :: hash in s.votes && Old(s.votes[hash], tip, limit) && s.votes[hash].nBlockHeight == h;
    }
    assert r.blocks == c.blocks;
  }

  lemma CleanedStep(s: State, done: set<nat>, tip: int, limit: int, hash: nat)
    requires hash in s.votes && hash !in done
    ensures var w, r := CleanedOf(s, done, tip, limit), CleanedOf(s, done + {hash}, tip, limit);
            && hash in w.votes && w.votes[hash] == s.votes[hash]
            && r == if Old(s.votes[hash], tip, limit)
                    then State(w.votes - {hash}, w.blocks - {s.votes[hash].nBlockHeight})
                    else w
  {
    var w, r := CleanedOf(s, done, tip, limit), CleanedOf(s, done + {hash}, tip, limit);
    GoneGrows(s.votes, done, tip, limit, hash);
    hide GoneAt;
    if Old(s.votes[hash], tip, limit) {
      assert r.votes == w.votes - {hash};
      assert r.blocks == w.blocks - {s.votes[hash].nBlockHeight};
    } else {
      assert r.votes == w.votes;
      assert r.blocks == w.blocks;
    }
  }

  lemma GoneGrows(votes: map<nat, Winner>, done: set<nat>, tip: int, limit: int, hash: nat)
    requires hash in votes
    ensures forall h :: GoneAt(votes, done + {hash}, tip, limit, h) <==>
                        GoneAt(votes, done, tip, limit, h) || (Old(votes[hash], tip, limit) && votes[hash].nBlockHeight == h)
  {
    forall h | Old(votes[hash], tip, limit) && votes[hash].nBlockHeight == h ensures GoneAt(votes, done + {hash}, tip, limit, h) {
      assert hash in done + {hash};
    }
    forall h | GoneAt(votes, done, tip, limit, h) ensures GoneAt(votes, done + {hash}, tip, limit, h) {
      var x :| x in done && x in votes && Old(votes[x], tip, limit) && votes[x].nBlockHeight == h;
      assert x in done + {hash};
    }
  }

  /** Entry `k` has the most votes, and is the first that does. */
  predicate Leads(vec: seq<Payee>, k: int) {
    && 0 <= k < |vec| && vec[k].nVotes > -1
    && (forall j :: 0 <= j < |vec| ==> vec[j].nVotes <= vec[k].nVotes)
    && (forall j :: 0 <= j < k ==> vec[j].nVotes < vec[k].nVotes)
  }

  method GetPayee(vec: seq<Payee>) returns (payee: Option<Script>, ghost k: int)
    ensures payee.None? <==> forall j :: 0 <= j < |vec| ==> vec[j].nVotes <= -1
    ensures payee.Some? ==> Leads(vec, k) && payee.value == vec[k].script
  {
    var nVotes := -1;
    payee, k := None, -1;
    var i := 0;
    while i < |vec|
      invariant 0 <= i <= |vec| && nVotes >= -1
      invariant forall j :: 0 <= j < i ==> vec[j].nVotes <= nVotes
      invariant payee.None? <==> nVotes == -1
      invariant payee.Some? ==> 0 <= k < i && vec[k] == Payee(payee.value, nVotes) && forall j :: 0 <= j < k ==> vec[j].nVotes < nVotes
    {
      if vec[i].nVotes > nVotes {
        payee, nVotes, k := Some(vec[i].script), vec[i].nVotes, i;
      }
      i := i + 1;
    }
  }

  /** No payee has more votes for the height, and this one has some. */
  ghost predicate IsPlurality(votes: map<nat, Winner>, height: int, script: Script) {
    |VotesFor(votes, height, script)| >= 1
    && forall other :: |VotesFor(votes, height, other)| <= |VotesFor(votes, height, script)|
  }

  lemma LeaderIsPlurality(vec: seq<Payee>, votes: map<nat, Winner>, height: int, k: int)
    requires Tallies(vec, votes, height)
    ensures vec != [] ==> exists x :: x in votes && votes[x].nBlockHeight == height
    ensures Leads(vec, k) ==> IsPlurality(votes, height, vec[k].script)
  {
    if vec != [] {
      var x :| x in VotesFor(votes, height, vec[0].script);
    }
    if Leads(vec, k) {
      forall other ensures |VotesFor(votes, height, other)| <= |VotesFor(votes, height, vec[k].script)| {
        var i := FirstWith(vec, other);
        if i == |vec| {
          Unvoted(vec, votes, height, other);
        }
      }
    }
  }

  // ---- runs

  datatype Op = Add(hash: nat, w: Winner, known: bool) | Clean(tip: int, limit: int) | Clear

  ghost function Applied(s: State, op: Op): (r: State) {
    match op
    case Add(hash, w, known) => Added(s, hash, w, known)
    case Clean(tip, limit) => Cleaned(s, tip, limit)
    case Clear => State(map[], map[])
  }

  ghost function After(ops: seq<Op>): (s: State) {
    if ops == [] then State(map[], map[]) else Applied(After(ops[..|ops| - 1]), ops[|ops| - 1])
  }

  /** After any operations the blocks are exactly the tally of the votes. */
  lemma {:induction false} RunsTally(ops: seq<Op>)
    ensures Inv(After(ops))
  {
    if ops != [] {
      var s, op := After(ops[..|ops| - 1]), ops[|ops| - 1];
      RunsTally(ops[..|ops| - 1]);
      match op
      case Add(hash, w, known) => AddKeeps(s, hash, w, known);
      case Clean(tip, limit) => CleanKeeps(s, tip, limit);
      case Clear =>
    }
  }

  // ---- the payment

  function GetBlockValue(nHeight: int): (r: nat) {
    if nHeight <= 161 then 500_000 * COIN else 5 * COIN
  }

  /** Sixty per cent of the block value, once proof of work is over. */
  function GetMasternodePayment(nHeight: int, lastPow: int): (r: nat) {
    if nHeight <= lastPow then 0 else GetBlockValue(nHeight) * 6 / 10
  }

  /** The payment is the same at a height and the next but at the end of proof of work, or of the swap if that is later. */
  lemma PaymentChanges(nHeight: int, lastPow: int)
    ensures GetMasternodePayment(nHeight, lastPow) == GetMasternodePayment(nHeight + 1, lastPow)
            <==> nHeight != lastPow && (nHeight != 161 || nHeight < lastPow)
  {}

  function Total(vout: seq<TxOut>): (r: int) {
    if vout == [] then 0 else Total(vout[..|vout| - 1]) + vout[|vout| - 1].nValue
  }

  /** What output `j` of a stake with `n` outputs gives up: an equal part, the last one also the remainder. */
  function Share(payment: nat, n: nat, j: nat): (r: int)
    requires n >= 2 && j < n
  {
    if j == 0 then 0 else payment / (n - 1) + if j == n - 1 then payment % (n - 1) else 0
  }

  /** The outputs of a stake after paying; a stake with fewer than two outputs gives nothing up. */
  ghost predicate Reduced(vout: seq<TxOut>, payment: nat, r: seq<TxOut>) {
    |r| == |vout| && forall j :: 0 <= j < |vout| ==>
      r[j] == vout[j].(nValue := vout[j].nValue - if |vout| >= 2 then Share(payment, |vout|, j) else 0)
  }

  /** The outputs of a transaction after its block's payee has been filled in at the height of the previous block: the
      payment is the last output of a stake, which pays for it, or the second output of a mined block. */
  ghost predicate Filled(vout: seq<TxOut>, payee: Option<Script>, prevHeight: int, lastPow: int, fProofOfStake: bool, r: seq<TxOut>) {
    var payment := GetMasternodePayment(prevHeight, lastPow);
    if payee.None? then r == vout
    else if fProofOfStake then
      |r| == |vout| + 1 && r[|vout|] == TxOut(payment, payee.value) && Reduced(vout, payment, r[..|vout|])
    else
      && |r| == 2 && r[1] == TxOut(payment, payee.value) && r[0].nValue == GetBlockValue(prevHeight) - payment
      && r[0].scriptPubKey == if vout == [] then [] else vout[0].scriptPubKey
  }

  /** Adds the payment to a stake, or makes it the second output of a mined block. */
  method FillBlockPayee(vout: seq<TxOut>, payee: Option<Script>, prevHeight: int, lastPow: int, fProofOfStake: bool) returns (r: seq<TxOut>)
    ensures Filled(vout, payee, prevHeight, lastPow, fProofOfStake, r)
  {
    if payee.None? {
      return vout;
    }
    var blockValue, masternodePayment := GetBlockValue(prevHeight), GetMasternodePayment(prevHeight, lastPow);
    hide GetMasternodePayment;
    hide GetBlockValue;
    if fProofOfStake {
      var i := |vout|;
      r := vout + [TxOut(masternodePayment, payee.value)];
      if i == 2 {
        Halves(masternodePayment);
        r := r[1 := r[1].(nValue := r[1].nValue - masternodePayment)];
      } else if i > 2 {
        var outputs := i - 1;
        var mnPaymentSplit := masternodePayment / outputs;
        var mnPaymentRemainder := masternodePayment - mnPaymentSplit * outputs;
        Numerals.DivModSum(masternodePayment, outputs);
        var j := 1;
        while j <= outputs
          invariant 1 <= j <= outputs + 1 && |r| == i + 1 && r[i] == TxOut(masternodePayment, payee.value)
          invariant forall q :: 0 <= q < i ==>
                      r[q] == vout[q].(nValue := vout[q].nValue - if 1 <= q < j then mnPaymentSplit else 0)
        {
          r := r[j := r[j].(nValue := r[j].nValue - mnPaymentSplit)];
          j := j + 1;
        }
        r := r[outputs := r[outputs].(nValue := r[outputs].nValue - mnPaymentRemainder)];
      }
    } else {
      r := if |vout| == 0 then [NULL_OUT, NULL_OUT] else if |vout| == 1 then vout + [NULL_OUT] else vout[..2];
      r := r[1 := TxOut(masternodePayment, payee.value)];
      r := r[0 := r[0].(nValue := blockValue - masternodePayment)];
    }
  }

  lemma Halves(payment: nat)
    ensures payment / 1 == payment && payment % 1 == 0
  {}

  /** Every output but the first gives up `split`, the last one also `rest`. */
  ghost predicate GivesUp(vout: seq<TxOut>, split: int, rest: int, r: seq<TxOut>) {
    |r| == |vout| && forall j :: 0 <= j < |vout| ==>
      r[j].nValue == vout[j].nValue - (if j == 0 then 0 else if j == |vout| - 1 then split + rest else split)
  }

  /** `k` times `split`. */
  function Times(k: nat, split: int): (r: int)
    ensures r == k * split
  {
    if k == 0 then 0 else Times(k - 1, split) + split
  }

  lemma {:induction false} GivenUpBefore(vout: seq<TxOut>, split: int, rest: int, r: seq<TxOut>, k: nat)
    requires GivesUp(vout, split, rest, r) && 1 <= k < |vout|
    ensures Total(r[..k]) == Total(vout[..k]) - Times(k - 1, split)
  {
    assert r[..k][..k - 1] == r[..k - 1] && vout[..k][..k - 1] == vout[..k - 1];
    if k > 1 {
      GivenUpBefore(vout, split, rest, r, k - 1);
    } else {
      assert r[..0] == [] && vout[..0] == [];
    }
  }

  lemma GivenUp(vout: seq<TxOut>, split: int, rest: int, r: seq<TxOut>)
    requires GivesUp(vout, split, rest, r) && |vout| >= 2
    ensures Total(r) == Total(vout) - Times(|vout| - 1, split) - rest
  {
    var n := |vout|;
    GivenUpBefore(vout, split, rest, r, n - 1);
    assert r[..n] == r && vout[..n] == vout;
  }

  lemma PartsMakeWhole(payment: nat, n: nat)
    requires n >= 1
    ensures Times(n, payment / n) + payment % n == payment
  {
    Numerals.DivModSum(payment, n);
  }

  /** A stake pays the masternode out of its reward: the total stays the same exactly if there are two outputs or more,
      or nothing to pay. */
  lemma FillConserves(vout: seq<TxOut>, payment: nat, payee: Script, r: seq<TxOut>)
    requires |r| == |vout| + 1 && r[|vout|] == TxOut(payment, payee) && Reduced(vout, payment, r[..|vout|])
    ensures Total(r) == Total(vout) <==> |vout| >= 2 || payment == 0
    ensures |vout| < 2 ==> Total(r) == Total(vout) + payment
  {
    var head := r[..|vout|];
    if |vout| >= 2 {
      GivenUp(vout, payment / (|vout| - 1), payment % (|vout| - 1), head);
      PartsMakeWhole(payment, |vout| - 1);
    } else {
      assert head == vout;
    }
  }

  // ---- the check

  predicate Pays(vout: seq<TxOut>, script: Script, amount: int) {
    exists i :: 0 <= i < |vout| && vout[i] == TxOut(amount, script)
  }

  /** Enough votes to be binding. */
  predicate Binding(p: Payee) {
    p.nVotes >= SIGNATURES_REQUIRED
  }

  /** The check of a transaction against a tally: once a payee has enough votes, some such payee is paid exactly. */
  ghost predicate Accepts(vec: seq<Payee>, vout: seq<TxOut>, required: int) {
    (forall i :: 0 <= i < |vec| ==> !Binding(vec[i]))
    || exists i :: 0 <= i < |vec| && Binding(vec[i]) && Pays(vout, vec[i].script, required)
  }

  method IsTransactionValid(vec: seq<Payee>, vout: seq<TxOut>, required: int) returns (ok: bool)
    ensures ok <==> Accepts(vec, vout, required)
  {
    var nMaxSignatures := 0;
    var i := 0;
    while i < |vec|
      invariant 0 <= i <= |vec| && nMaxSignatures >= 0
      invariant nMaxSignatures < SIGNATURES_REQUIRED <==> forall j :: 0 <= j < i ==> !Binding(vec[j])
    {
      if vec[i].nVotes >= nMaxSignatures && vec[i].nVotes >= SIGNATURES_REQUIRED {
        nMaxSignatures := vec[i].nVotes;
      }
      i := i + 1;
    }
    if nMaxSignatures < SIGNATURES_REQUIRED {
      return true;
    }
    i := 0;
    while i < |vec|
      invariant 0 <= i <= |vec| && forall j :: 0 <= j < i ==> !(Binding(vec[j]) && Pays(vout, vec[j].script, required))
    {
      var found, o := false, 0;
      while o < |vout|
        invariant 0 <= o <= |vout| && (found <==> exists q :: 0 <= q < o && vout[q] == TxOut(required, vec[i].script))
      {
        if vec[i].script == vout[o].scriptPubKey && vout[o].nValue == required {
          found := true;
        }
        o := o + 1;
      }
      if vec[i].nVotes >= SIGNATURES_REQUIRED && found {
        return true;
      }
      i := i + 1;
    }
    return false;
  }

  /** A transaction that pays the leader of a tally is accepted by that tally if it pays what the check requires. */
  lemma LeaderAccepted(vec: seq<Payee>, k: int, r: seq<TxOut>, required: int)
    requires Leads(vec, k) && |r| > 0 && r[|r| - 1] == TxOut(required, vec[k].script)
    ensures Accepts(vec, r, required)
  {
    if Binding(vec[k]) {
      assert Pays(r, vec[k].script, required);
    }
  }

  /** If it pays anything else, and no other output happens to pay a binding payee, only a tally without one accepts it. */
  lemma UnderpaidRefused(vec: seq<Payee>, k: int, r: seq<TxOut>, paid: int, required: int)
    requires Leads(vec, k) && |r| > 0 && r[|r| - 1] == TxOut(paid, vec[k].script) && paid != required
    requires forall i, o :: 0 <= i < |vec| && Binding(vec[i]) && 0 <= o < |r| - 1 ==> r[o] != TxOut(required, vec[i].script)
    ensures Accepts(vec, r, required) <==> !Binding(vec[k])
  {}

  /** The payment is the same at a height and at the next. */
  predicate SamePayment(prev: int, lastPow: int) {
    prev != lastPow && (prev != 161 || prev < lastPow)
  }

  /** What an output of a transaction is worth after the filling. */
  function Left(vout: seq<TxOut>, payment: nat, o: nat): (r: int)
    requires o < |vout|
  {
    vout[o].nValue - if |vout| >= 2 then Share(payment, |vout|, o) else 0
  }

  /** An output that is there before the filling, or the first output of a mined block, goes to a binding payee and is
      worth the required amount afterwards. */
  ghost predicate OthersPay(vec: seq<Payee>, vout: seq<TxOut>, prev: int, lastPow: int, fProofOfStake: bool) {
    var payment, required := GetMasternodePayment(prev, lastPow), GetMasternodePayment(prev + 1, lastPow);
    exists i :: 0 <= i < |vec| && Binding(vec[i]) &&
      if fProofOfStake then exists o :: 0 <= o < |vout| && vout[o].scriptPubKey == vec[i].script && Left(vout, payment, o) == required
      else vec[i].script == (if vout == [] then [] else vout[0].scriptPubKey) && GetBlockValue(prev) - payment == required
  }

  /** An output other than the last pays a binding payee the required amount. */
  ghost predicate AnotherPays(vec: seq<Payee>, r: seq<TxOut>, required: int) {
    exists i, o :: 0 <= i < |vec| && Binding(vec[i]) && 0 <= o < |r| - 1 && r[o] == TxOut(required, vec[i].script)
  }

  /** Whether another output pays can be told before the filling. */
  lemma OthersAreGiven(vec: seq<Payee>, vout: seq<TxOut>, payee: Script, prev: int, lastPow: int, fProofOfStake: bool, r: seq<TxOut>)
    requires Filled(vout, Some(payee), prev, lastPow, fProofOfStake, r)
    ensures AnotherPays(vec, r, GetMasternodePayment(prev + 1, lastPow)) <==> OthersPay(vec, vout, prev, lastPow, fProofOfStake)
  {
    hide GetMasternodePayment;
    hide GetBlockValue;
    hide Share;
    hide Binding;
    var payment, required := GetMasternodePayment(prev, lastPow), GetMasternodePayment(prev + 1, lastPow);
    if fProofOfStake {
      forall o | 0 <= o < |vout| ensures r[o] == TxOut(Left(vout, payment, o), vout[o].scriptPubKey) {
        assert r[..|vout|][o] == r[o];
      }
      if AnotherPays(vec, r, required) {
        var i, o :| 0 <= i < |vec| && Binding(vec[i]) && 0 <= o < |r| - 1 && r[o] == TxOut(required, vec[i].script);
        assert vout[o].scriptPubKey == vec[i].script && Left(vout, payment, o) == required;
      }
      if OthersPay(vec, vout, prev, lastPow, true) {
        var i :| 0 <= i < |vec| && Binding(vec[i])
                 && exists o :: 0 <= o < |vout| && vout[o].scriptPubKey == vec[i].script && Left(vout, payment, o) == required;
        var o :| 0 <= o < |vout| && vout[o].scriptPubKey == vec[i].script && Left(vout, payment, o) == required;
        assert r[o] == TxOut(required, vec[i].script);
      }
    } else if OthersPay(vec, vout, prev, lastPow, false) {
      var i :| 0 <= i < |vec| && Binding(vec[i]) && vec[i].script == (if vout == [] then [] else vout[0].scriptPubKey);
      assert r[0] == TxOut(required, vec[i].script);
    }
  }

  /** A node fills in the leader of the tally at the height of its tip, and is checked by that tally at the next height. The
      check accepts exactly if the payment is the same at both, or no payee is binding, or another output happens to pay
      one that is. */
  lemma FilledAccepted(vec: seq<Payee>, k: int, vout: seq<TxOut>, prev: int, lastPow: int, fProofOfStake: bool, r: seq<TxOut>)
    requires Leads(vec, k) && Filled(vout, Some(vec[k].script), prev, lastPow, fProofOfStake, r)
    ensures Accepts(vec, r, GetMasternodePayment(prev + 1, lastPow)) <==>
              SamePayment(prev, lastPow) || !Binding(vec[k]) || OthersPay(vec, vout, prev, lastPow, fProofOfStake)
  {
    var paid, required := GetMasternodePayment(prev, lastPow), GetMasternodePayment(prev + 1, lastPow);
    PaymentChanges(prev, lastPow);
    OthersAreGiven(vec, vout, vec[k].script, prev, lastPow, fProofOfStake, r);
    assert |r| > 0 && r[|r| - 1] == TxOut(paid, vec[k].script);
    hide GetMasternodePayment;
    hide Filled;
    hide OthersPay;
    if paid == required {
      LeaderAccepted(vec, k, r, required);
    } else if AnotherPays(vec, r, required) {
      var i, o :| 0 <= i < |vec| && Binding(vec[i]) && 0 <= o < |r| - 1 && r[o] == TxOut(required, vec[i].script);
      assert Pays(r, vec[i].script, required);
    } else {
      UnderpaidRefused(vec, k, r, paid, required);
    }
  }

  /** No other output pays a binding payee if none went to one before, a mined block's first output included. */
  lemma NoOtherPays(vec: seq<Payee>, vout: seq<TxOut>, payee: Script, prev: int, lastPow: int, fProofOfStake: bool, r: seq<TxOut>)
    requires Filled(vout, Some(payee), prev, lastPow, fProofOfStake, r)
    requires forall i :: 0 <= i < |vec| && Binding(vec[i]) ==>
               vec[i].script != [] && forall o :: 0 <= o < |vout| ==> vout[o].scriptPubKey != vec[i].script
    ensures !AnotherPays(vec, r, GetMasternodePayment(prev + 1, lastPow))
  {
    hide GetMasternodePayment;
    hide GetBlockValue;
    hide AnotherPays;
    hide Left;
    OthersAreGiven(vec, vout, payee, prev, lastPow, fProofOfStake, r);
  }

  /** The first proof-of-stake block is the exception: whatever the tally, if its leader is binding and no other output pays
      a binding payee, the block is refused. */
  lemma FirstStakeRefused(vec: seq<Payee>, k: int, vout: seq<TxOut>, lastPow: int, r: seq<TxOut>)
    requires Leads(vec, k) && Binding(vec[k]) && Filled(vout, Some(vec[k].script), lastPow, lastPow, true, r)
    requires !OthersPay(vec, vout, lastPow, lastPow, true)
    ensures r[|r| - 1].nValue == 0 && !Accepts(vec, r, GetMasternodePayment(lastPow + 1, lastPow))
  {
    FilledAccepted(vec, k, vout, lastPow, lastPow, true, r);
  }

  /** An input: one payee with two votes, and a stake of five hundred coins on top of block 300, the last with proof of work. */
  lemma FirstStakeAt301(vec: seq<Payee>, vout: seq<TxOut>)
    requires vec == [Payee([9], 2)] && vout == [TxOut(0, []), TxOut(500 * COIN, [7])]
    ensures var r := vout + [TxOut(0, [9])]; Filled(vout, Some([9]), 300, 300, true, r) && !Accepts(vec, r, GetMasternodePayment(301, 300))
  {
    var r := vout + [TxOut(0, [9])];
    assert r[..2] == vout;
    assert Filled(vout, Some([9]), 300, 300, true, r);
    FirstStakeRefused(vec, 0, vout, 300, r);
  }
}
