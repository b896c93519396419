/**
 The budget: proposals ranked by net votes share out what a cycle may pay, and the
 finalized budget a node submits from that is checked by the others.
 */
module Budget {
  import opened Basics
  import Numerals
  import Sorting

  datatype Choice = Yes | No | Abstain
  datatype Vote = Vote(nVote: Choice, fValid: bool)

  datatype Proposal = Proposal(hash: nat, nFeeTXHash: nat, nBlockStart: int, nBlockEnd: int, payee: Script, nAmount: nat, nTime: int,
                               mapVotes: map<nat, Vote>, fValid: bool, nAllotted: int)

  // ---- votes

  ghost function VotesOf(votes: map<nat, Vote>, choice: Choice): (r: set<nat>) {
    set x | x in votes && votes[x] == Vote(choice, true)
  }

  /** The valid votes for a choice (`GetYeas`, `GetNays`). */
  method CountVotes(votes: map<nat, Vote>, choice: Choice) returns (n: int)
    ensures n == |VotesOf(votes, choice)|
  {
    hide VotesOf;
    n := 0;
    var todo := votes.Keys;
    NoneLeft(votes, choice);
    while todo != {}
      invariant todo <= votes.Keys && n == |VotesOf(votes, choice) - todo|
      decreases |todo|
    {
      var x :| x in todo;
      OneSeen(votes, choice, todo, x);
      todo := todo - {x};
      if votes[x].nVote == choice && votes[x].fValid {
        n := n + 1;
      }
    }
    assert VotesOf(votes, choice) - {} == VotesOf(votes, choice);
  }

  lemma NoneLeft(votes: map<nat, Vote>, choice: Choice)
    ensures VotesOf(votes, choice) - votes.Keys == {}
  {}

  lemma OneSeen(votes: map<nat, Vote>, choice: Choice, todo: set<nat>, x: nat)
    requires x in todo && x in votes
    ensures |VotesOf(votes, choice) - (todo - {x})| == |VotesOf(votes, choice) - todo| + if votes[x] == Vote(choice, true) then 1 else 0
  {
    var a, b := VotesOf(votes, choice) - todo, VotesOf(votes, choice) - (todo - {x});
    if votes[x] == Vote(choice, true) {
      assert b == a + {x};
    } else {
      assert b == a;
    }
  }

  ghost function Net(p: Proposal): (r: int) {
    |VotesOf(p.mapVotes, Yes)| - |VotesOf(p.mapVotes, No)|
  }

  /** What a proposal is ranked by. */
  datatype Ranked = Ranked(proposal: Proposal, net: int)

  /** More net votes first, then the greater fee hash. */
  predicate Before(a: Ranked, b: Ranked) {
    a.net > b.net || (a.net == b.net && a.proposal.nFeeTXHash > b.proposal.nFeeTXHash)
  }

  predicate NotBehind(a: Ranked, b: Ranked) {
    !Before(b, a)
  }

  /** No later entry comes before an earlier one. */
  ghost predicate InOrder(v: seq<Ranked>) {
    Sorting.InOrder(v, NotBehind)
  }

  lemma RanksOrdered()
    ensures Sorting.Orders(NotBehind)
  {}

  /** The entries by net votes, then by fee hash. */
  function ByVotes(v: seq<Ranked>): (r: seq<Ranked>)
    ensures InOrder(r)
  {
    RanksOrdered();
    Sorting.Sorted(v, NotBehind)
  }

  /** Ranking keeps every proposal, however the votes fall. */
  lemma ByVotesPermutes(v: seq<Ranked>)
    ensures multiset(ByVotes(v)) == multiset(v)
  {
    RanksOrdered();
    Sorting.SortedPermutes(v, NotBehind);
  }

  /** No two entries tie. */
  ghost predicate NoTies(v: seq<Ranked>) {
    forall i, j :: 0 <= i < |v| && 0 <= j < |v| && v[i] != v[j] ==> Before(v[i], v[j]) || Before(v[j], v[i])
  }

  /** Without ties the order does not depend on where the sort started: nodes rank alike. */
  lemma {:induction false} OrderIsUnique(a: seq<Ranked>, b: seq<Ranked>)
    requires InOrder(a) && InOrder(b) && multiset(a) == multiset(b) && NoTies(a)
    ensures a == b
  {
    if a == [] {
      EmptyAlike(a, b);
    } else {
      assert a == [a[0]] + a[1..];
      assert a[0] in multiset(b);
      assert b != [];
      assert b == [b[0]] + b[1..];
      assert b[0] in multiset(a);
      HeadsAgree(a, b);
      assert multiset(a[1..]) == multiset(a) - multiset{a[0]};
      assert multiset(b[1..]) == multiset(b) - multiset{b[0]};
      OrderIsUnique(a[1..], b[1..]);
    }
  }

  lemma EmptyAlike(a: seq<Ranked>, b: seq<Ranked>)
    requires multiset(a) == multiset(b) && a == []
    ensures b == []
  {
    assert |multiset(a)| == |a| && |multiset(b)| == |b|;
  }

  lemma HeadsAgree(a: seq<Ranked>, b: seq<Ranked>)
    requires a != [] && b != [] && InOrder(a) && InOrder(b) && NoTies(a) && a[0] in b && b[0] in a
    ensures a[0] == b[0]
  {
    var i :| 0 <= i < |a| && a[i] == b[0];
    var j :| 0 <= j < |b| && b[j] == a[0];
  }

  // ---- sharing out

  /** The conditions under which a proposal is paid at all. `support` is a tenth of the masternodes. */
  predicate Passes(r: Ranked, start: int, end: int, support: int, established: int) {
    r.proposal.fValid && r.proposal.nBlockStart <= start && r.proposal.nBlockEnd >= end && r.net > support && r.proposal.nTime < established
  }

  /** The amounts of the entries marked. */
  function Sum(v: seq<Ranked>, marks: seq<bool>): (r: nat)
    requires |v| == |marks|
  {
    if v == [] then 0
    else Sum(v[..|v| - 1], marks[..|v| - 1]) + if marks[|v| - 1] then v[|v| - 1].proposal.nAmount else 0
  }

  /** Going down the ranking, an entry is marked exactly when it passes and what is left of the total covers it. */
  ghost predicate Shares(v: seq<Ranked>, marks: seq<bool>, total: int, start: int, end: int, support: int, established: int) {
    |marks| == |v| && forall i :: 0 <= i < |v| ==>
      (marks[i] <==> Passes(v[i], start, end, support, established) && v[i].proposal.nAmount + Sum(v[..i], marks[..i]) <= total)
  }

  /** The marks, decided from the top of the ranking down. */
  function Marks(v: seq<Ranked>, total: int, start: int, end: int, support: int, established: int): (m: seq<bool>)
    ensures |m| == |v|
  {
    if v == [] then []
    else
      var n := |v| - 1;
      var m := Marks(v[..n], total, start, end, support, established);
      m + [Passes(v[n], start, end, support, established) && v[n].proposal.nAmount + Sum(v[..n], m) <= total]
  }

  /** They share out as prescribed. */
  lemma {:induction false} MarksShare(v: seq<Ranked>, total: int, start: int, end: int, support: int, established: int)
    ensures Shares(v, Marks(v, total, start, end, support, established), total, start, end, support, established)
  {
    if v != [] {
      var n := |v| - 1;
      MarksShare(v[..n], total, start, end, support, established);
      var m, all := Marks(v[..n], total, start, end, support, established), Marks(v, total, start, end, support, established);
      assert v[..n + 1] == v;
      ShareStep(v, m, all[n], total, start, end, support, established, n);
    }
  }

  /** The proposals marked, with their amounts allotted, in order. */
  function Chosen(v: seq<Ranked>, marks: seq<bool>): (r: seq<Proposal>)
    requires |v| == |marks|
  {
    if v == [] then []
    else
      var n := |v| - 1;
      Chosen(v[..n], marks[..n]) + if marks[n] then [v[n].proposal.(nAllotted := v[n].proposal.nAmount)] else []
  }

  function Allotted(ps: seq<Proposal>): (r: int) {
    if ps == [] then 0 else Allotted(ps[..|ps| - 1]) + ps[|ps| - 1].nAllotted
  }

  /** What is allotted is the sum of the amounts marked, */
  lemma {:induction false} ChosenSum(v: seq<Ranked>, marks: seq<bool>)
    requires |v| == |marks|
    ensures Allotted(Chosen(v, marks)) == Sum(v, marks)
  {
    if v != [] {
      var n := |v| - 1;
      ChosenSum(v[..n], marks[..n]);
      var a := Chosen(v[..n], marks[..n]);
      if marks[n] {
        var p := v[n].proposal.(nAllotted := v[n].proposal.nAmount);
        assert (a + [p])[..|a|] == a;
      } else {
        assert Chosen(v, marks) == a;
      }
    }
  }

  /** and never more than the total. */
  lemma {:induction false} SharesFit(v: seq<Ranked>, marks: seq<bool>, total: nat, start: int, end: int, support: int, established: int, k: nat)
    requires Shares(v, marks, total, start, end, support, established) && k <= |v|
    ensures Sum(v[..k], marks[..k]) <= total
  {
    if k > 0 {
      SharesFit(v, marks, total, start, end, support, established, k - 1);
      assert v[..k][..k - 1] == v[..k - 1] && marks[..k][..k - 1] == marks[..k - 1];
    }
  }

  /** There is one way to share out. */
  lemma {:induction false} SharesUnique(v: seq<Ranked>, a: seq<bool>, b: seq<bool>, total: int, start: int, end: int, support: int, established: int, k: nat)
    requires Shares(v, a, total, start, end, support, established) && Shares(v, b, total, start, end, support, established) && k <= |v|
    ensures a[..k] == b[..k]
  {
    if k > 0 {
      SharesUnique(v, a, b, total, start, end, support, established, k - 1);
      assert a[..k] == a[..k - 1] + [a[k - 1]] && b[..k] == b[..k - 1] + [b[k - 1]];
    }
  }

  ghost function Ranking(ps: seq<Proposal>): (v: seq<Ranked>) {
    ByVotes(seq(|ps|, i requires 0 <= i < |ps| => Ranked(ps[i], Net(ps[i]))))
  }

  /** The start of the cycle after a height. */
  function NextCycle(height: nat, cycle: nat): (start: nat)
    requires cycle > 0
  {
    height - height % cycle + cycle
  }

  lemma NextCycleStarts(height: nat, cycle: nat)
    requires cycle > 0
    ensures NextCycle(height, cycle) % cycle == 0 && height < NextCycle(height, cycle) <= height + cycle
  {
    Numerals.DivModSum(height, cycle);
    NextMultiple(height / cycle, cycle);
  }

  lemma NextMultiple(q: nat, cycle: nat)
    requires cycle > 0
    ensures (q * cycle + cycle) % cycle == 0
  {
    Numerals.DivModUnique(q + 1, 0, cycle);
    assert (q + 1) * cycle == q * cycle + cycle;
  }

  /** The marks of the ranking of the proposals for the cycle after a height. */
  ghost function MarksAt(ps: seq<Proposal>, height: nat, cycle: nat, mnCount: nat, total: int -> nat, established: int): (m: seq<bool>)
    requires cycle > 0
    ensures |m| == |Ranking(ps)|
  {
    var start := NextCycle(height, cycle);
    Marks(Ranking(ps), total(start), start, start + cycle - 1, mnCount / 10, established)
  }

  /** Ranks the proposals and shares the total of the next cycle out among them. */
  method GetBudget(proposals: seq<Proposal>, height: nat, cycle: nat, mnCount: nat, total: int -> nat, established: int)
    returns (chosen: seq<Proposal>)
    requires cycle > 0
    ensures chosen == Chosen(Ranking(proposals), MarksAt(proposals, height, cycle, mnCount, total, established))
  {
    var v := [];
    var i := 0;
    while i < |proposals|
      invariant 0 <= i <= |proposals| && |v| == i && forall j :: 0 <= j < i ==> v[j] == Ranked(proposals[j], Net(proposals[j]))
    {
      var yeas := CountVotes(proposals[i].mapVotes, Yes);
      var nays := CountVotes(proposals[i].mapVotes, No);
      v := v + [Ranked(proposals[i], yeas - nays)];
      i := i + 1;
    }
    assert v == seq(|proposals|, j requires 0 <= j < |proposals| => Ranked(proposals[j], Net(proposals[j])));
    v := ByVotes(v);
    var start := NextCycle(height, cycle);
    chosen := ShareOut(v, total(start), start, start + cycle - 1, mnCount / 10, established);
  }

  method ShareOut(v: seq<Ranked>, total: nat, start: int, end: int, support: int, established: int) returns (chosen: seq<Proposal>)
    ensures chosen == Chosen(v, Marks(v, total, start, end, support, established))
  {
    chosen := [];
    var nBudgetAllocated, i := 0, 0;
    while i < |v|
      invariant 0 <= i <= |v|
      invariant var m := Marks(v[..i], total, start, end, support, established);
                chosen == Chosen(v[..i], m) && nBudgetAllocated == Sum(v[..i], m)
    {
      var p := v[i].proposal;
      assert v[..i + 1][..i] == v[..i];
      ghost var m := Marks(v[..i], total, start, end, support, established);
      assert Marks(v[..i + 1], total, start, end, support, established)[..i] == m;
      if Passes(v[i], start, end, support, established) {
        if p.nAmount + nBudgetAllocated <= total {
          nBudgetAllocated := nBudgetAllocated + p.nAmount;
          chosen := chosen + [p.(nAllotted := p.nAmount)];
        }
      }
      i := i + 1;
    }
    assert v[..i] == v;
  }

  lemma ShareStep(v: seq<Ranked>, marks: seq<bool>, mark: bool, total: int, start: int, end: int, support: int, established: int, i: nat)
    requires i < |v| && Shares(v[..i], marks, total, start, end, support, established)
    requires mark <==> Passes(v[i], start, end, support, established) && v[i].proposal.nAmount + Sum(v[..i], marks) <= total
    ensures Shares(v[..i + 1], marks + [mark], total, start, end, support, established)
  {
    var w, m := v[..i + 1], marks + [mark];
    assert w[..i] == v[..i] && m[..i] == marks;
    forall j | 0 <= j < |w|
      ensures m[j] <==> Passes(w[j], start, end, support, established) && w[j].proposal.nAmount + Sum(w[..j], m[..j]) <= total
    {
      if j < i {
        assert w[..j] == v[..i][..j] && m[..j] == marks[..j] && w[j] == v[..i][j] && m[j] == marks[j];
      }
    }
  }

  // ---- the finalized budget

  datatype Payment = Payment(nProposalHash: nat, payee: Script, nAmount: int)

  datatype Finalized = Finalized(strBudgetName: string, nBlockStart: int, payments: seq<Payment>, nFeeTXHash: nat)

  function BlockEnd(f: Finalized): (r: int) {
    f.nBlockStart + |f.payments| - 1
  }

  function Payout(ps: seq<Payment>): (r: int) {
    if ps == [] then 0 else Payout(ps[..|ps| - 1]) + ps[|ps| - 1].nAmount
  }

  method GetTotalPayout(ps: seq<Payment>) returns (ret: int)
    ensures ret == Payout(ps)
  {
    ret := 0;
    var i := 0;
    while i < |ps|
      invariant 0 <= i <= |ps| && ret == Payout(ps[..i])
    {
      assert ps[..i + 1][..i] == ps[..i];
      ret := ret + ps[i].nAmount;
      i := i + 1;
    }
    assert ps[..i] == ps;
  }

  /** The conditions on a finalized budget, at a tip of height `height`. */
  ghost predicate Acceptable(f: Finalized, height: nat, cycle: nat, total: int -> nat)
    requires cycle > 0
  {
    && f.nBlockStart % cycle == 0 && BlockEnd(f) - f.nBlockStart <= 100 && |f.payments| <= 100
    && f.strBudgetName != "" && f.nBlockStart != 0 && f.nFeeTXHash != 0
    && Payout(f.payments) <= total(f.nBlockStart) && BlockEnd(f) >= NextCycle(height, cycle) - 2 * cycle
  }

  method IsValid(f: Finalized, height: nat, cycle: nat, total: int -> nat) returns (ok: bool)
    requires cycle > 0
    ensures ok <==> Acceptable(f, height, cycle, total)
  {
    if f.nBlockStart % cycle != 0 {
      return false;
    }
    if BlockEnd(f) - f.nBlockStart > 100 || |f.payments| > 100 {
      return false;
    }
    if f.strBudgetName == "" || f.nBlockStart == 0 || f.nFeeTXHash == 0 {
      return false;
    }
    var payout := GetTotalPayout(f.payments);
    if payout > total(f.nBlockStart) {
      return false;
    }
    var nMaxAge := NextCycle(height, cycle) - 2 * cycle;
    if BlockEnd(f) < nMaxAge {
      return false;
    }
    return true;
  }

  /** The budget a node submits at a height, if any proposal is chosen; `fee` is the hash of its collateral. */
  method SubmitFinalBudget(proposals: seq<Proposal>, height: nat, cycle: nat, mnCount: nat, total: int -> nat, established: int, fee: nat)
    returns (submitted: bool, f: Finalized)
    requires cycle > 0
    ensures var chosen := Chosen(Ranking(proposals), MarksAt(proposals, height, cycle, mnCount, total, established));
            && submitted == (chosen != [])
            && (submitted ==> f == Finalized("main", NextCycle(height, cycle), PaymentsOf(chosen), fee))
  {
    hide Chosen;
    hide MarksAt;
    var chosen := GetBudget(proposals, height, cycle, mnCount, total, established);
    var payments := [];
    var i := 0;
    while i < |chosen|
      invariant 0 <= i <= |chosen| && payments == PaymentsOf(chosen[..i])
    {
      assert chosen[..i + 1][..i] == chosen[..i];
      payments := payments + [Payment(chosen[i].hash, chosen[i].payee, chosen[i].nAllotted)];
      i := i + 1;
    }
    assert chosen[..i] == chosen;
    f := Finalized("main", NextCycle(height, cycle), payments, fee);
    submitted := |payments| >= 1;
    PaymentsSize(chosen);
  }

  function PaymentsOf(ps: seq<Proposal>): (r: seq<Payment>) {
    if ps == [] then []
    else
      var n := |ps| - 1;
      PaymentsOf(ps[..n]) + [Payment(ps[n].hash, ps[n].payee, ps[n].nAllotted)]
  }

  lemma {:induction false} PaymentsSize(ps: seq<Proposal>)
    ensures |PaymentsOf(ps)| == |ps|
  {
    if ps != [] {
      PaymentsSize(ps[..|ps| - 1]);
    }
  }

  /** A payment list pays out what was allotted. */
  lemma {:induction false} PayoutIsAllotted(ps: seq<Proposal>)
    ensures Payout(PaymentsOf(ps)) == Allotted(ps)
  {
    if ps != [] {
      var n := |ps| - 1;
      PayoutIsAllotted(ps[..n]);
      var a := PaymentsOf(ps[..n]);
      assert PaymentsOf(ps)[..|a|] == a;
    }
  }

  /** What is paid out is within the total. */
  lemma PayoutFits(v: seq<Ranked>, marks: seq<bool>, total: nat, start: int, end: int, support: int, established: int)
    requires |marks| == |v| && Shares(v, marks, total, start, end, support, established)
    ensures Payout(PaymentsOf(Chosen(v, marks))) <= total
  {
    SharesFit(v, marks, total, start, end, support, established, |v|);
    assert v[..|v|] == v && marks[..|v|] == marks;
    ChosenSum(v, marks);
    PayoutIsAllotted(Chosen(v, marks));
  }

  /** At an unchanged tip the submitted budget meets every condition, but for the number of payments: it is acceptable
      exactly if there are at most a hundred. */
  lemma SubmittedAcceptable(ps: seq<Proposal>, height: nat, cycle: nat, mnCount: nat, total: int -> nat, established: int, fee: nat)
    requires cycle > 0 && fee != 0
    requires Chosen(Ranking(ps), MarksAt(ps, height, cycle, mnCount, total, established)) != []
    ensures var chosen := Chosen(Ranking(ps), MarksAt(ps, height, cycle, mnCount, total, established));
            Acceptable(Finalized("main", NextCycle(height, cycle), PaymentsOf(chosen), fee), height, cycle, total) <==> |chosen| <= 100
  {
    hide NextCycle;
    hide Chosen;
    hide Payout;
    hide PaymentsOf;
    hide Sum;
    hide Ranking;
    hide Marks;
    hide Shares;
    var start, v := NextCycle(height, cycle), Ranking(ps);
    NextCycleStarts(height, cycle);
    MarksShare(v, total(start), start, start + cycle - 1, mnCount / 10, established);
    PayoutFits(v, MarksAt(ps, height, cycle, mnCount, total, established), total(start), start, start + cycle - 1, mnCount / 10, established);
    PaymentsSize(Chosen(v, MarksAt(ps, height, cycle, mnCount, total, established)));
  }

  // ---- a budget that is not acceptable

  const COIN: nat := 100_000_000
  const CYCLE: nat := 43_200

  /** `GetTotalBudget` on the main network, whose last proof-of-work block is 300. */
  function MainnetTotal(nHeight: int): (r: nat) {
    if nHeight <= 172_800 then 648_000 * COIN else MainnetSubsidy(nHeight) / 100 * 10 * 1440 * 30
  }

  function MainnetSubsidy(nHeight: int): (r: nat) {
    if 300 < nHeight <= 302_399 then 50 * COIN
    else if 302_400 <= nHeight <= 345_599 then 45 * COIN
    else if 345_600 <= nHeight <= 388_799 then 40 * COIN
    else if 388_800 <= nHeight <= 431_999 then 35 * COIN
    else if 432_000 <= nHeight <= 475_199 then 30 * COIN
    else if 475_200 <= nHeight <= 518_399 then 25 * COIN
    else if 518_400 <= nHeight <= 561_599 then 20 * COIN
    else if 561_600 <= nHeight <= 604_799 then 15 * COIN
    else if 604_800 <= nHeight <= 647_999 then 10 * COIN
    else 5 * COIN
  }

  /** Proposals that pass and together fit are all chosen. */
  lemma {:induction false} AllChosen(v: seq<Ranked>, amount: nat, total: nat, start: int, end: int, support: int, established: int)
    requires forall i :: 0 <= i < |v| ==> Passes(v[i], start, end, support, established) && v[i].proposal.nAmount == amount
    requires |v| * amount <= total
    ensures var m := Marks(v, total, start, end, support, established); |Chosen(v, m)| == |v| && Sum(v, m) == |v| * amount
  {
    if v != [] {
      var n := |v| - 1;
      assert |v| * amount == n * amount + amount;
      AllChosen(v[..n], amount, total, start, end, support, established);
      var m := Marks(v, total, start, end, support, established);
      assert m[..n] == Marks(v[..n], total, start, end, support, established);
    }
  }

  /** A proposal for one payment of the least amount allowed, in the cycle that starts at 129600, with one vote for it. */
  function Modest(i: nat): (p: Proposal) {
    Proposal(i, i + 1, 129_600, 172_801, [1], 10 * COIN, 0, map[0 := Vote(Yes, true)], true, 0)
  }

  lemma ModestNet(i: nat)
    ensures Net(Modest(i)) == 1
  {
    var votes := Modest(i).mapVotes;
    assert VotesOf(votes, Yes) == {0};
    assert VotesOf(votes, No) == {};
  }

  /** An input: with 101 such proposals and five masternodes, what a node submits at height 129000 has 101 payments, within the
      total, and is not acceptable. */
  lemma TooManyPayments(fee: nat)
    requires fee != 0
    ensures var ps := seq(101, i requires 0 <= i < 101 => Modest(i));
            var chosen := Chosen(Ranking(ps), MarksAt(ps, 129_000, CYCLE, 5, MainnetTotal, 1));
            && |chosen| == 101
            && !Acceptable(Finalized("main", NextCycle(129_000, CYCLE), PaymentsOf(chosen), fee), 129_000, CYCLE, MainnetTotal)
  {
    var ps := seq(101, i requires 0 <= i < 101 => Modest(i));
    var w := seq(|ps|, i requires 0 <= i < |ps| => Ranked(ps[i], Net(ps[i])));
    var v, start := Ranking(ps), NextCycle(129_000, CYCLE);
    assert start == 129_600;
    assert MainnetTotal(start) == 648_000 * COIN;
    ByVotesPermutes(w);
    assert |multiset(v)| == |v| && |multiset(w)| == |w|;
    forall i | 0 <= i < |v| ensures Passes(v[i], start, start + CYCLE - 1, 5 / 10, 1) && v[i].proposal.nAmount == 10 * COIN {
      assert v[i] in multiset(v);
      var j :| 0 <= j < |w| && w[j] == v[i];
      ModestNet(j);
    }
    hide ByVotes;
    hide MainnetTotal;
    AllChosen(v, 10 * COIN, 648_000 * COIN, start, start + CYCLE - 1, 5 / 10, 1);
    SubmittedAcceptable(ps, 129_000, CYCLE, 5, MainnetTotal, 1, fee);
  }
}
