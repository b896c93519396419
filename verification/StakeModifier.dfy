/**
 The stake modifier: 64 bits drawn from past blocks, recomputed once per time interval and
 carried by every block in between. A chain is the sequence of its block index entries from
 the genesis block on, so the previous block of entry `h` is entry `h - 1`.
 */
module StakeModifier {
  import opened Basics
  import opened Numerals
  import Sorting

  const MODIFIER_INTERVAL: nat := 60
  const MODIFIER_INTERVAL_RATIO: nat := 3
  const ROUNDS: nat := 64

  datatype Block = Block(hash: nat, nTime: nat, proofOfStake: bool, hashProofOfStake: nat, entropy: bool,
                         nStakeModifier: nat, generated: bool)

  /** The hash of a proof hash and the previous modifier: any function. */
  type Hash = (nat, nat) -> nat

  // ---- the selection interval

  /** The seconds that round `n` adds to the time up to which candidates are considered. */
  function Section(n: nat): (r: nat)
    requires n < ROUNDS
  {
    var d := 63 + (63 - n) * (MODIFIER_INTERVAL_RATIO - 1);
    DivBounds(MODIFIER_INTERVAL * 63, d);
    MODIFIER_INTERVAL * 63 / d
  }

  /** The sum of the first `n` sections. */
  function Sections(n: nat): (r: nat)
    requires n <= ROUNDS
  {
    if n == 0 then 0 else Sections(n - 1) + Section(n - 1)
  }

  method GetSelectionInterval() returns (nSelectionInterval: nat)
    ensures nSelectionInterval == Sections(ROUNDS)
  {
    nSelectionInterval := 0;
    for nSection := 0 to ROUNDS
      invariant nSelectionInterval == Sections(nSection)
    {
      nSelectionInterval := nSelectionInterval + Section(nSection);
    }
  }

  // ---- one round

  /** What candidates are compared by; proof-of-stake blocks have theirs divided by 2^32. */
  function SelectionHash(h: Hash, b: Block, prev: nat): (r: nat) {
    if b.proofOfStake then h(b.hashProofOfStake, prev) / 0x1_0000_0000 else h(b.hash, prev)
  }

  /** Candidate `j` is not selected yet and early enough. */
  predicate InTime(c: seq<Block>, selected: set<nat>, stop: int, j: int) {
    0 <= j < |c| && c[j].hash !in selected && c[j].nTime <= stop
  }

  /** Candidate `k` comes before candidate `j` in the order of selection hashes, ties going to the earlier. */
  predicate Precedes(h: Hash, c: seq<Block>, prev: nat, k: int, j: int)
    requires 0 <= k < |c| && 0 <= j < |c|
  {
    var a, b := SelectionHash(h, c[k], prev), SelectionHash(h, c[j], prev);
    a < b || (a == b && k <= j)
  }

  /** Of the first `n` candidates, `k` is the choice: the one with the least selection hash among those in time, or
      the first unselected one if none is in time. */
  ghost predicate BestOf(h: Hash, c: seq<Block>, n: int, selected: set<nat>, stop: int, prev: nat, k: int)
    requires n <= |c|
  {
    && 0 <= k < n && c[k].hash !in selected
    && if c[k].nTime <= stop then forall j :: 0 <= j < n && InTime(c, selected, stop, j) ==> Precedes(h, c, prev, k, j)
       else forall j :: 0 <= j < n && c[j].hash !in selected ==> k <= j && !InTime(c, selected, stop, j)
  }

  ghost predicate Best(h: Hash, c: seq<Block>, selected: set<nat>, stop: int, prev: nat, k: int) {
    BestOf(h, c, |c|, selected, stop, prev, k)
  }

  /** The choice is unique. */
  lemma BestIsUnique(h: Hash, c: seq<Block>, selected: set<nat>, stop: int, prev: nat, k: int, k': int)
    requires Best(h, c, selected, stop, prev, k) && Best(h, c, selected, stop, prev, k')
    ensures k == k'
  {
    hide SelectionHash;
    if c[k].nTime <= stop {
      assert InTime(c, selected, stop, k);
    }
    if c[k'].nTime <= stop {
      assert InTime(c, selected, stop, k');
    }
  }

  ghost predicate SortedByTime(c: seq<Block>) {
    forall i, j :: 0 <= i < j < |c| ==> c[i].nTime <= c[j].nTime
  }

  /** The candidates a vector of times and hashes stands for. */
  ghost predicate Resolves(index: map<nat, Block>, v: seq<(nat, nat)>, c: seq<Block>) {
    |v| == |c| && forall i :: 0 <= i < |v| ==> v[i].1 in index && index[v[i].1] == c[i] && c[i].hash == v[i].1 && c[i].nTime == v[i].0
  }

  /** Selects one of the candidates, which are sorted by time. Succeeds exactly when one is left. */
  method SelectBlockFromCandidates(h: Hash, index: map<nat, Block>, v: seq<(nat, nat)>, selected: set<nat>, stop: int, prev: nat,
                                   ghost c: seq<Block>) returns (fSelected: bool, k: int)
    requires Resolves(index, v, c) && SortedByTime(c)
    ensures fSelected <==> exists j :: 0 <= j < |c| && c[j].hash !in selected
    ensures fSelected ==> Best(h, c, selected, stop, prev, k)
  {
    hide SelectionHash;
    fSelected, k := false, -1;
    var hashBest := 0;
    var i := 0;
    while i < |v|
      invariant 0 <= i <= |v|
      invariant !fSelected ==> forall j :: 0 <= j < i ==> c[j].hash in selected
      invariant fSelected ==> BestOf(h, c, i, selected, stop, prev, k) && hashBest == SelectionHash(h, c[k], prev)
    {
      var block := index[v[i].1];
      if fSelected && block.nTime > stop {
        break;
      }
      if block.hash !in selected {
        var hashSelection := SelectionHash(h, block, prev);
        if fSelected && hashSelection < hashBest {
          hashBest, k := hashSelection, i;
        } else if !fSelected {
          fSelected, hashBest, k := true, hashSelection, i;
        }
      }
      i := i + 1;
    }
  }

  /** The division by 2^32 favours proof-of-stake blocks, not always: among candidates in time one of them is chosen
      exactly when some proof-of-stake candidate comes before every proof-of-work candidate. */
  lemma StakeWins(h: Hash, c: seq<Block>, selected: set<nat>, stop: int, prev: nat, k: int)
    requires Best(h, c, selected, stop, prev, k) && exists i :: InTime(c, selected, stop, i)
    ensures c[k].proofOfStake <==> exists j :: StakeAhead(h, c, selected, stop, prev, j)
  {
    hide SelectionHash;
    var i :| InTime(c, selected, stop, i);
    assert InTime(c, selected, stop, k);
    if c[k].proofOfStake {
      assert StakeAhead(h, c, selected, stop, prev, k);
    } else {
      forall j | InTime(c, selected, stop, j) && c[j].proofOfStake ensures !Precedes(h, c, prev, j, k) {
        assert Precedes(h, c, prev, k, j);
      }
    }
  }

  /** A proof-of-stake candidate in time that comes before every proof-of-work candidate in time. */
  ghost predicate StakeAhead(h: Hash, c: seq<Block>, selected: set<nat>, stop: int, prev: nat, j: int) {
    && InTime(c, selected, stop, j) && c[j].proofOfStake
    && forall i :: InTime(c, selected, stop, i) && !c[i].proofOfStake ==> Precedes(h, c, prev, j, i)
  }

  /** So a proof-of-work block chosen although a proof-of-stake block is in time has a selection hash below 2^224. */
  lemma StakeFavoured(h: Hash, c: seq<Block>, selected: set<nat>, stop: int, prev: nat, k: int, j: int)
    requires Best(h, c, selected, stop, prev, k) && !c[k].proofOfStake
    requires InTime(c, selected, stop, j) && c[j].proofOfStake && h(c[j].hashProofOfStake, prev) < Pow(2, 256)
    ensures h(c[k].hash, prev) < Pow(2, 224)
  {
    hide Pow;
    assert Precedes(h, c, prev, k, j);
    PowAdd(2, 224, 32);
    SmallPow();
    QuotientBelow(h(c[j].hashProofOfStake, prev), 0x1_0000_0000, Pow(2, 224));
  }

  /** "Always favoured" is too strong for some hash functions: this one, made up for the purpose, prefers a proof-of-work
      block. For the hash in use `StakeWins` says which inputs do. */
  lemma StakeNotAlwaysFavoured()
    ensures var work := Block(1, 0, false, 0, false, 0, false); var stake := Block(2, 0, true, 3, false, 0, false);
            exists h: Hash :: Best(h, [work, stake], {}, 0, 0, 0)
  {
    var work, stake := Block(1, 0, false, 0, false, 0, false), Block(2, 0, true, 3, false, 0, false);
    var h: Hash := (p, _) => if p == 3 then 0x1_0000_0000 else 0;
    assert SelectionHash(h, [work, stake][1], 0) == 1;
    assert Best(h, [work, stake], {}, 0, 0, 0);
  }

  /** Of one candidate of each kind, both in time and the proof-of-work block first, that one is chosen exactly if its hash
      is at most the other's divided by 2^32. */
  lemma TwoCandidates(h: Hash, work: Block, stake: Block, stop: int, prev: nat)
    requires !work.proofOfStake && stake.proofOfStake && work.nTime <= stop && stake.nTime <= stop
    ensures Best(h, [work, stake], {}, stop, prev, 0) <==> h(work.hash, prev) <= h(stake.hashProofOfStake, prev) / 0x1_0000_0000
  {
    var c := [work, stake];
    assert InTime(c, {}, stop, 0) && InTime(c, {}, stop, 1);
    assert SelectionHash(h, c[0], prev) == h(work.hash, prev);
    assert SelectionHash(h, c[1], prev) == h(stake.hashProofOfStake, prev) / 0x1_0000_0000;
    assert Precedes(h, c, prev, 0, 1) <==> h(work.hash, prev) <= h(stake.hashProofOfStake, prev) / 0x1_0000_0000;
  }

  lemma SmallPow()
    ensures Pow(2, 32) == 0x1_0000_0000
  {
    assert Pow(2, 4) == 16;
    PowAdd(2, 4, 4);
    PowAdd(2, 8, 8);
    PowAdd(2, 16, 16);
  }

  lemma QuotientBelow(a: nat, d: nat, q: nat)
    requires d > 0 && a < q * d
    ensures a / d < q
  {
    DivModSum(a, d);
    if q <= a / d {
      MulMonotone(q, a / d, d, d);
    }
  }

  // ---- candidates

  /** Pairs of time and hash are ordered by time, then by hash. */
  predicate PairLess(a: (nat, nat), b: (nat, nat)) {
    a.0 < b.0 || (a.0 == b.0 && a.1 <= b.1)
  }

  lemma PairsOrdered()
    ensures Sorting.Orders(PairLess)
  {}

  function ByTime(v: seq<(nat, nat)>): (r: seq<(nat, nat)>)
    ensures (forall i, j :: 0 <= i < j < |r| ==> r[i].0 <= r[j].0) && forall i :: 0 <= i < |r| ==> r[i] in v
  {
    PairsOrdered();
    Sorting.Sorted(v, PairLess)
  }

  /** No two blocks of a chain have the same hash, and all of them are indexed. */
  ghost predicate Indexed(index: map<nat, Block>, chain: seq<Block>) {
    && (forall i :: 0 <= i < |chain| ==> chain[i].hash in index && index[chain[i].hash] == chain[i])
    && (forall i, j :: 0 <= i < j < |chain| ==> chain[i].hash != chain[j].hash)
  }

  /** The first block of the unbroken run of blocks up to `tip` that are not older than `start`. */
  function First(chain: seq<Block>, tip: nat, start: int): (f: nat)
    requires tip < |chain|
    ensures f <= tip + 1 && forall i :: f <= i <= tip ==> chain[i].nTime >= start
    ensures f > 0 ==> chain[f - 1].nTime < start
  {
    if chain[tip].nTime < start then tip + 1 else if tip == 0 then 0 else First(chain, tip - 1, start)
  }

  function Pairs(blocks: seq<Block>): (v: seq<(nat, nat)>) {
    seq(|blocks|, i requires 0 <= i < |blocks| => (blocks[i].nTime, blocks[i].hash))
  }

  /** The candidates for the modifier after `tip`, by time. */
  function Candidates(chain: seq<Block>, tip: nat): (v: seq<(nat, nat)>)
    requires tip < |chain|
  {
    ByTime(Pairs(chain[First(chain, tip, SelectionStart(chain[tip]))..tip + 1]))
  }

  function SelectionStart(b: Block): (r: int) {
    b.nTime / MODIFIER_INTERVAL * MODIFIER_INTERVAL - Sections(ROUNDS)
  }

  /** Walks back from `tip` over the blocks that are recent enough, and returns them in chain order. */
  method CollectRecent(chain: seq<Block>, tip: nat, start: int) returns (v: seq<(nat, nat)>)
    requires tip < |chain|
    ensures v == Pairs(chain[First(chain, tip, start)..tip + 1])
  {
    hide Reversed;
    v := [];
    var p: int := tip;
    while p >= 0 && chain[p].nTime >= start
      invariant -1 <= p <= tip && |v| == tip - p
      invariant forall i :: 0 <= i < |v| ==> v[i] == (chain[tip - i].nTime, chain[tip - i].hash)
      invariant First(chain, tip, start) == if p < 0 then 0 else First(chain, p, start)
    {
      v := v + [(chain[p].nTime, chain[p].hash)];
      p := p - 1;
    }
    v := Reversed(v);
    assert p >= 0 ==> First(chain, p, start) == p + 1;
  }

  /** Sorting keeps distinct hashes distinct. */
  lemma ByTimeDistinct(v: seq<(nat, nat)>)
    requires forall i, j :: 0 <= i < j < |v| ==> v[i].1 != v[j].1
    ensures var r := ByTime(v); |r| == |v| && (forall i, j :: 0 <= i < j < |r| ==> r[i].1 != r[j].1) && multiset(r) == multiset(v)
  {
    PairsOrdered();
    var key := (p: (nat, nat)) => p.1;
    Sorting.SortedDistinct(v, PairLess, key);
    Sorting.SortedPermutes(v, PairLess);
    var r := ByTime(v);
    forall i, j | 0 <= i < j < |r| ensures r[i].1 != r[j].1 {
      assert key(r[i]) != key(r[j]);
    }
  }

  /** The blocks that pairs of time and hash stand for. */
  ghost function Blocks(index: map<nat, Block>, v: seq<(nat, nat)>): (c: seq<Block>)
    requires forall i :: 0 <= i < |v| ==> v[i].1 in index
  {
    seq(|v|, i requires 0 <= i < |v| => index[v[i].1])
  }

  ghost predicate Distinct(c: seq<Block>) {
    forall i, j :: 0 <= i < j < |c| ==> c[i].hash != c[j].hash
  }

  /** The candidates are blocks of the chain, each once and sorted by time, and there is at least one. */
  lemma CandidatesResolve(index: map<nat, Block>, chain: seq<Block>, tip: nat)
    requires tip < |chain| && Indexed(index, chain[..tip + 1])
    ensures var v := Candidates(chain, tip);
            && (forall i :: 0 <= i < |v| ==> v[i].1 in index)
            && var c := Blocks(index, v); |v| >= 1 && Resolves(index, v, c) && SortedByTime(c) && Distinct(c)
  {
    hide ByTime;
    hide Sections;
    hide SelectionStart;
    var f := First(chain, tip, SelectionStart(chain[tip]));
    StartBefore(chain[tip]);
    var p := Pairs(chain[f..tip + 1]);
    forall i | 0 <= i < |p| ensures p[i] == (chain[..tip + 1][f + i].nTime, chain[..tip + 1][f + i].hash) {
    }
    ByTimeDistinct(p);
    var v := ByTime(p);
    forall i | 0 <= i < |v| ensures v[i].1 in index && index[v[i].1].hash == v[i].1 && index[v[i].1].nTime == v[i].0 {
      var j :| 0 <= j < |p| && p[j] == v[i];
      assert chain[..tip + 1][f + j].hash in index;
    }
  }

  /** The selection starts no later than the block it is for. */
  lemma StartBefore(b: Block)
    ensures SelectionStart(b) <= b.nTime
  {
    DivModSum(b.nTime, MODIFIER_INTERVAL);
  }

  // ---- all rounds

  ghost function Hashes(c: seq<Block>, picks: seq<int>): (r: set<nat>)
  {
    set q | 0 <= q < |picks| && 0 <= picks[q] < |c| :: c[picks[q]].hash
  }

  ghost predicate InRange(c: seq<Block>, picks: seq<int>) {
    forall q :: 0 <= q < |picks| ==> 0 <= picks[q] < |c|
  }

  /** The picks of successive rounds, each the choice among what the earlier rounds left. */
  ghost predicate IsSelection(h: Hash, c: seq<Block>, start: int, prev: nat, picks: seq<int>) {
    && |picks| <= ROUNDS && InRange(c, picks)
    && forall r :: 0 <= r < |picks| ==> RoundOk(h, c, start, prev, picks, r)
  }

  /** The number of rounds. */
  function Rounds(c: seq<Block>): (n: nat) {
    if |c| < ROUNDS then |c| else ROUNDS
  }

  lemma {:induction false} SelectionIsUnique(h: Hash, c: seq<Block>, start: int, prev: nat, a: seq<int>, b: seq<int>, r: nat)
    requires IsSelection(h, c, start, prev, a) && IsSelection(h, c, start, prev, b) && |a| == |b| && r <= |a|
    ensures a[..r] == b[..r]
  {
    hide Best;
    hide Sections;
    hide Hashes;
    if r > 0 {
      SelectionIsUnique(h, c, start, prev, a, b, r - 1);
      assert RoundOk(h, c, start, prev, a, r - 1) && RoundOk(h, c, start, prev, b, r - 1);
      BestIsUnique(h, c, Hashes(c, a[..r - 1]), start + Sections(r), prev, a[r - 1], b[r - 1]);
      assert a[..r] == a[..r - 1] + [a[r - 1]];
      assert b[..r] == b[..r - 1] + [b[r - 1]];
    }
  }

  /** No block is picked twice. */
  lemma PicksDistinct(h: Hash, c: seq<Block>, start: int, prev: nat, picks: seq<int>, q: nat, r: nat)
    requires IsSelection(h, c, start, prev, picks) && q < r < |picks|
    ensures c[picks[q]].hash != c[picks[r]].hash && picks[q] != picks[r]
  {
    hide Sections;
    assert RoundOk(h, c, start, prev, picks, r);
    assert picks[..r][q] == picks[q];
    assert c[picks[q]].hash in Hashes(c, picks[..r]);
  }

  /** While fewer blocks are selected than there are, one is left. */
  lemma OneLeft(c: seq<Block>, selected: set<nat>)
    requires Distinct(c) && |selected| < |c|
    ensures exists j :: 0 <= j < |c| && c[j].hash !in selected
  {
    if forall j :: 0 <= j < |c| ==> c[j].hash in selected {
      AllSelected(c, selected);
    }
  }

  lemma {:induction false} AllSelected(c: seq<Block>, selected: set<nat>)
    requires Distinct(c) && forall j :: 0 <= j < |c| ==> c[j].hash in selected
    ensures |c| <= |selected|
  {
    if c != [] {
      var last := c[|c| - 1].hash;
      AllSelected(c[..|c| - 1], selected - {last});
    }
  }

  lemma HashesGrow(c: seq<Block>, picks: seq<int>, k: int)
    requires InRange(c, picks) && 0 <= k < |c|
    ensures Hashes(c, picks + [k]) == Hashes(c, picks) + {c[k].hash}
  {
    var a, b := Hashes(c, picks), Hashes(c, picks + [k]);
    forall x | x in a ensures x in b {
      var q :| 0 <= q < |picks| && 0 <= picks[q] < |c| && c[picks[q]].hash == x;
      assert (picks + [k])[q] == picks[q];
    }
    assert (picks + [k])[|picks|] == k;
  }

  /** Round `r` made the choice it should. */
  ghost predicate RoundOk(h: Hash, c: seq<Block>, start: int, prev: nat, picks: seq<int>, r: nat)
    requires r < |picks| <= ROUNDS
  {
    Best(h, c, Hashes(c, picks[..r]), start + Sections(r + 1), prev, picks[r])
  }

  lemma SelectionGrows(h: Hash, c: seq<Block>, start: int, prev: nat, picks: seq<int>, k: int)
    requires IsSelection(h, c, start, prev, picks) && |picks| < ROUNDS
    requires Best(h, c, Hashes(c, picks), start + Sections(|picks| + 1), prev, k)
    ensures IsSelection(h, c, start, prev, picks + [k])
  {
    var all := picks + [k];
    BestIsFresh(h, c, Hashes(c, picks), start + Sections(|picks| + 1), prev, k);
    hide Best;
    hide Sections;
    hide Hashes;
    assert all[..|picks|] == picks;
    forall r | 0 <= r < |all| ensures RoundOk(h, c, start, prev, all, r) {
      if r < |picks| {
        assert RoundOk(h, c, start, prev, picks, r);
        assert all[..r] == picks[..r];
      }
    }
  }

  // ---- the bits

  /** The number whose binary digits, from the lowest, are `bits`. */
  function Value(bits: seq<bool>): (r: nat) {
    if bits == [] then 0
    else Value(bits[..|bits| - 1]) + if bits[|bits| - 1] then Pow(2, |bits| - 1) else 0
  }

  /** The modifier fits its bits, */
  lemma {:induction false} ValueFits(bits: seq<bool>)
    ensures Value(bits) < Pow(2, |bits|)
  {
    if bits != [] {
      ValueFits(bits[..|bits| - 1]);
    }
  }

  /** and bit `r` of it is the one that round `r` contributed. */
  lemma {:induction false} BitOfValue(bits: seq<bool>, r: nat)
    requires r < |bits|
    ensures Value(bits) / Pow(2, r) % 2 == if bits[r] then 1 else 0
  {
    var n := |bits| - 1;
    var low := Value(bits[..n]);
    ValueFits(bits[..n]);
    if r == n {
      if bits[r] {
        DivModUnique(1, low, Pow(2, r));
      } else {
        DivModUnique(0, low, Pow(2, r));
      }
    } else {
      BitOfValue(bits[..n], r);
      if bits[n] {
        HigherBit(low, r, n);
      }
    }
  }

  lemma HigherBit(low: nat, r: nat, n: nat)
    requires r < n
    ensures (low + Pow(2, n)) / Pow(2, r) % 2 == low / Pow(2, r) % 2
  {
    PowAdd(2, r, n - r);
    assert Pow(2, n - r) == 2 * Pow(2, n - r - 1);
    hide Pow;
    ShiftOut(low, Pow(2, r), Pow(2, n - r - 1));
  }

  lemma ShiftOut(low: nat, p: nat, q: nat)
    requires p >= 1
    ensures (low + p * (2 * q)) / p % 2 == low / p % 2
  {
    DivModSum(low, p);
    Regroup(low, low / p, low % p, p, 2 * q);
    DivModUnique(low / p + 2 * q, low % p, p);
  }

  lemma Regroup(low: nat, a: nat, d: nat, p: nat, k: nat)
    requires low == a * p + d
    ensures low + p * k == (a + k) * p + d
  {}

  // ---- the modifier of a block

  /** The nearest generating block at or before `k`, or -1. */
  function LastGenerator(chain: seq<Block>, k: int): (g: int)
    requires k < |chain|
    ensures -1 <= g < |chain| && (k >= 0 ==> g <= k) && (g >= 0 ==> chain[g].generated)
    ensures forall i :: g < i <= k && 0 <= i ==> !chain[i].generated
    decreases k + 1
  {
    if k < 0 then -1 else if chain[k].generated then k else LastGenerator(chain, k - 1)
  }

  function ModifierAt(chain: seq<Block>, g: int): (m: nat)
    requires g < |chain|
  {
    if g < 0 then 0 else chain[g].nStakeModifier
  }

  function TimeAt(chain: seq<Block>, g: int): (t: nat)
    requires g < |chain|
  {
    if g < 0 then 0 else chain[g].nTime
  }

  method GetLastStakeModifier(chain: seq<Block>, k: nat) returns (nStakeModifier: nat, nModifierTime: nat)
    requires k < |chain|
    ensures nStakeModifier == ModifierAt(chain, LastGenerator(chain, k)) && nModifierTime == TimeAt(chain, LastGenerator(chain, k))
  {
    var p := k;
    while p > 0 && !chain[p].generated
      invariant 0 <= p <= k && LastGenerator(chain, k) == LastGenerator(chain, p)
    {
      p := p - 1;
    }
    if !chain[p].generated {
      return 0, 0;
    }
    return chain[p].nStakeModifier, chain[p].nTime;
  }

  function Interval(t: nat): (n: nat) {
    t / MODIFIER_INTERVAL
  }

  /** After the blocks `past`, a new modifier is due at a block of time `nTime` once both it and the block before are in
      a later interval than the last one generated. */
  predicate Due(past: seq<Block>, nTime: nat)
    requires past != []
  {
    var last := Interval(TimeAt(past, LastGenerator(past, |past| - 1)));
    last < Interval(past[|past| - 1].nTime) && last < Interval(nTime)
  }

  /** The bits of the blocks picked. */
  ghost function Bits(c: seq<Block>, picks: seq<int>): (r: seq<bool>)
  {
    seq(|picks|, q requires 0 <= q < |picks| => 0 <= picks[q] < |c| && c[picks[q]].entropy)
  }

  /** `m` is drawn from the candidates among `past`, in as many rounds as there are candidates, up to 64. */
  ghost predicate Drawn(h: Hash, index: map<nat, Block>, past: seq<Block>, m: nat, picks: seq<int>)
    requires past != [] && Indexed(index, past)
  {
    assert past[..|past| - 1 + 1] == past;
    CandidatesResolve(index, past, |past| - 1);
    var c := Blocks(index, Candidates(past, |past| - 1));
    && |picks| == Rounds(c)
    && IsSelection(h, c, SelectionStart(past[|past| - 1]), ModifierAt(past, LastGenerator(past, |past| - 1)), picks)
    && m == Value(Bits(c, picks))
  }

  /** What is computed for a block of time `nTime` after the blocks `past`. */
  ghost predicate Computed(h: Hash, index: map<nat, Block>, past: seq<Block>, nTime: nat, m: nat, generated: bool)
    requires Indexed(index, past)
  {
    if past == [] then m == 0 && generated
    else
      && generated == Due(past, nTime)
      && if generated then exists picks :: Drawn(h, index, past, m, picks)
         else m == ModifierAt(past, LastGenerator(past, |past| - 1))
  }

  /** Selects up to 64 blocks and packs their bits; no round runs out of candidates. */
  method DrawBits(h: Hash, index: map<nat, Block>, v: seq<(nat, nat)>, start: int, prev: nat, ghost c: seq<Block>)
    returns (ok: bool, m: nat, ghost picks: seq<int>)
    requires Resolves(index, v, c) && SortedByTime(c) && Distinct(c)
    ensures ok && |picks| == Rounds(c) && IsSelection(h, c, start, prev, picks) && m == Value(Bits(c, picks))
  {
    hide Best;
    hide Hashes;
    hide SortedByTime;
    hide Distinct;
    hide IsSelection;
    hide Value;
    hide Bits;
    hide Pow;
    hide Section;
    NoPicks(h, c, start, prev);
    m, picks := 0, [];
    var stop, selected: set<nat>, nRound := start, {}, 0;
    while nRound < ROUNDS && nRound < |v|
      invariant |picks| == nRound <= Rounds(c) && IsSelection(h, c, start, prev, picks)
      invariant stop == start + Sections(nRound) && selected == Hashes(c, picks) && |selected| == nRound
      invariant m == Value(Bits(c, picks))
    {
      stop := stop + Section(nRound);
      OneLeft(c, selected);
      var fSelected, k := SelectBlockFromCandidates(h, index, v, selected, stop, prev, c);
      assert fSelected;
      SelectionGrows(h, c, start, prev, picks, k);
      PicksInRange(h, c, start, prev, picks);
      BestIsFresh(h, c, selected, stop, prev, k);
      HashesGrow(c, picks, k);
      var block := index[v[k].1];
      BitsGrow(c, picks, k);
      m := m + if block.entropy then Pow(2, nRound) else 0;
      selected := selected + {block.hash};
      picks := picks + [k];
      nRound := nRound + 1;
    }
    ok := true;
  }

  lemma NoPicks(h: Hash, c: seq<Block>, start: int, prev: nat)
    ensures Hashes(c, []) == {} && IsSelection(h, c, start, prev, []) && Value(Bits(c, [])) == 0
  {}

  lemma PicksInRange(h: Hash, c: seq<Block>, start: int, prev: nat, picks: seq<int>)
    requires IsSelection(h, c, start, prev, picks)
    ensures InRange(c, picks)
  {}

  lemma BestIsFresh(h: Hash, c: seq<Block>, selected: set<nat>, stop: int, prev: nat, k: int)
    requires Best(h, c, selected, stop, prev, k)
    ensures 0 <= k < |c| && c[k].hash !in selected
  {}

  lemma BitsGrow(c: seq<Block>, picks: seq<int>, k: int)
    requires 0 <= k < |c|
    ensures Value(Bits(c, picks + [k])) == Value(Bits(c, picks)) + if c[k].entropy then Pow(2, |picks|) else 0
  {
    hide Value;
    hide Pow;
    ValueSnoc(Bits(c, picks), c[k].entropy);
    assert Bits(c, picks + [k]) == Bits(c, picks) + [c[k].entropy];
  }

  lemma ValueSnoc(bits: seq<bool>, x: bool)
    ensures Value(bits + [x]) == Value(bits) + if x then Pow(2, |bits|) else 0
  {
    hide Pow;
    assert (bits + [x])[..|bits|] == bits;
  }

  /** Computes the modifier of a block; the error exit is never taken. */
  method ComputeNextStakeModifier(h: Hash, index: map<nat, Block>, past: seq<Block>, nTime: nat)
    returns (ok: bool, nStakeModifier: nat, fGenerated: bool)
    requires Indexed(index, past)
    ensures ok && Computed(h, index, past, nTime, nStakeModifier, fGenerated)
  {
    hide IsSelection;
    hide Value;
    hide ByTime;
    hide First;
    hide Pairs;
    hide Indexed;
    hide Sections;
    if past == [] {
      return true, 0, true;
    }
    var tip := |past| - 1;
    var nModifierTime;
    nStakeModifier, nModifierTime := GetLastStakeModifier(past, tip);
    if nModifierTime / MODIFIER_INTERVAL >= past[tip].nTime / MODIFIER_INTERVAL {
      return true, nStakeModifier, false;
    }
    if nModifierTime / MODIFIER_INTERVAL >= nTime / MODIFIER_INTERVAL {
      return true, nStakeModifier, false;
    }
    var nSelectionInterval := GetSelectionInterval();
    var nStart := past[tip].nTime / MODIFIER_INTERVAL * MODIFIER_INTERVAL - nSelectionInterval;
    var v := CollectRecent(past, tip, nStart);
    v := ByTime(v);
    assert past[..tip + 1] == past;
    CandidatesResolve(index, past, tip);
    ghost var picks;
    var m;
    ok, m, picks := DrawBits(h, index, v, nStart, nStakeModifier, Blocks(index, v));
    assert Drawn(h, index, past, m, picks);
    return ok, m, true;
  }

  // ---- whole chains

  /** A chain whose blocks were given their modifiers one after the other; the genesis block is given none. */
  ghost predicate Grown(h: Hash, index: map<nat, Block>, chain: seq<Block>) {
    && |chain| > 0 && !chain[0].generated && chain[0].nStakeModifier == 0 && Indexed(index, chain)
    && forall k :: 0 < k < |chain| ==> GrownAt(h, index, chain, k)
  }

  ghost predicate GrownAt(h: Hash, index: map<nat, Block>, chain: seq<Block>, k: nat)
    requires 0 < k < |chain|
  {
    Indexed(index, chain[..k]) && Computed(h, index, chain[..k], chain[k].nTime, chain[k].nStakeModifier, chain[k].generated)
  }

  /** Gives a new block its modifier and adds it to the chain. */
  method AddToChain(h: Hash, index: map<nat, Block>, chain: seq<Block>, block: Block)
    returns (index': map<nat, Block>, chain': seq<Block>)
    requires Grown(h, index, chain) && block.hash !in index && !block.generated
    ensures Grown(h, index', chain')
    ensures |chain'| == |chain| + 1 && chain'[..|chain|] == chain
    ensures chain'[|chain|] == block.(nStakeModifier := chain'[|chain|].nStakeModifier, generated := chain'[|chain|].generated)
    ensures index' == index[block.hash := chain'[|chain|]]
  {
    hide Computed;
    hide Indexed;
    var ok, nStakeModifier, fGenerated := ComputeNextStakeModifier(h, index, chain, block.nTime);
    var b := block.(nStakeModifier := nStakeModifier, generated := fGenerated);
    index', chain' := index[block.hash := b], chain + [b];
    GrowsIndexed(index, chain, b);
    assert chain'[..|chain|] == chain;
    forall k | 0 < k < |chain'| ensures GrownAt(h, index', chain', k) {
      assert chain'[..k] == chain[..k];
      assert chain[..|chain|] == chain;
      PrefixIndexed(index, chain, k);
      PrefixIndexed(index', chain, k);
      if k < |chain| {
        assert GrownAt(h, index, chain, k);
      }
      IndexAgrees(h, index, index', chain[..k], chain'[k].nTime, chain'[k].nStakeModifier, chain'[k].generated);
    }
  }

  lemma PrefixIndexed(index: map<nat, Block>, chain: seq<Block>, k: nat)
    requires Indexed(index, chain) && k <= |chain|
    ensures Indexed(index, chain[..k])
  {}

  lemma GrowsIndexed(index: map<nat, Block>, chain: seq<Block>, b: Block)
    requires Indexed(index, chain) && b.hash !in index
    ensures Indexed(index[b.hash := b], chain + [b]) && Indexed(index[b.hash := b], chain)
  {}

  /** Only the blocks of the chain matter of the index. */
  lemma IndexAgrees(h: Hash, index: map<nat, Block>, index': map<nat, Block>, past: seq<Block>, nTime: nat, m: nat, generated: bool)
    requires Indexed(index, past) && Indexed(index', past) && Computed(h, index, past, nTime, m, generated)
    ensures Computed(h, index', past, nTime, m, generated)
  {
    hide IsSelection;
    hide Value;
    hide Indexed;
    if past != [] && generated {
      SameCandidates(index, index', past);
      var picks :| Drawn(h, index, past, m, picks);
      assert Drawn(h, index', past, m, picks);
    }
  }

  lemma SameCandidates(index: map<nat, Block>, index': map<nat, Block>, past: seq<Block>)
    requires past != [] && Indexed(index, past) && Indexed(index', past)
    ensures var v := Candidates(past, |past| - 1);
            (forall i :: 0 <= i < |v| ==> v[i].1 in index && v[i].1 in index') && Blocks(index, v) == Blocks(index', v)
  {
    hide ByTime;
    hide Sections;
    hide SelectionStart;
    hide SortedByTime;
    hide Distinct;
    hide First;
    assert past[..|past| - 1 + 1] == past;
    CandidatesResolve(index, past, |past| - 1);
    CandidatesResolve(index', past, |past| - 1);
    var f := First(past, |past| - 1, SelectionStart(past[|past| - 1]));
    var p := Pairs(past[f..|past|]);
    var v := Candidates(past, |past| - 1);
    assert v == ByTime(p);
    forall i | 0 <= i < |v| ensures index[v[i].1] == index'[v[i].1] {
      assert v[i] in p;
      var j :| 0 <= j < |p| && p[j] == v[i];
      assert past[f + j].hash == v[i].1;
    }
  }

  /** Every block carries the modifier of the nearest generating block up to itself, and 0 before the first. */
  lemma CarriesLast(h: Hash, index: map<nat, Block>, chain: seq<Block>, k: nat)
    requires Grown(h, index, chain) && k < |chain|
    ensures chain[k].nStakeModifier == ModifierAt(chain, LastGenerator(chain, k))
  {
    hide Indexed;
    hide Due;
    if k > 0 && !chain[k].generated {
      assert GrownAt(h, index, chain, k);
      GeneratorLocal(chain, chain[..k], k - 1);
    }
  }

  lemma {:induction false} GeneratorLocal(a: seq<Block>, b: seq<Block>, k: int)
    requires k < |a| && k < |b| && forall i :: 0 <= i <= k ==> a[i] == b[i]
    ensures LastGenerator(a, k) == LastGenerator(b, k) <= k || k < 0
    decreases k + 1
  {
    if k >= 0 {
      GeneratorLocal(a, b, k - 1);
    }
  }

  /** A block after the first generates a modifier exactly when it and its parent are in later intervals than the
      last generator. */
  lemma GeneratesWhenDue(h: Hash, index: map<nat, Block>, chain: seq<Block>, k: nat)
    requires Grown(h, index, chain) && 0 < k < |chain|
    ensures var last := Interval(TimeAt(chain, LastGenerator(chain, k - 1)));
            chain[k].generated <==> last < Interval(chain[k - 1].nTime) && last < Interval(chain[k].nTime)
  {
    hide Indexed;
    assert GrownAt(h, index, chain, k);
    GeneratorLocal(chain, chain[..k], k - 1);
  }

  /** Generating blocks lie in strictly later and later intervals. */
  lemma {:induction false} GeneratorsAdvance(h: Hash, index: map<nat, Block>, chain: seq<Block>, i: nat, j: nat)
    requires Grown(h, index, chain) && i < j < |chain| && chain[i].generated && chain[j].generated
    ensures Interval(chain[i].nTime) < Interval(chain[j].nTime)
    decreases j
  {
    hide Grown;
    GeneratesWhenDue(h, index, chain, j);
    var g := LastGenerator(chain, j - 1);
    if i < g {
      GeneratorsAdvance(h, index, chain, i, g);
    }
  }

  /** What a block is, its modifier aside. */
  predicate SameHeader(a: Block, b: Block) {
    a == b.(nStakeModifier := a.nStakeModifier, generated := a.generated)
  }

  /** The modifiers of a chain are a function of its blocks: nodes that agree on these agree on those. */
  lemma {:induction false} ModifiersDetermined(h: Hash, index: map<nat, Block>, chain: seq<Block>, index': map<nat, Block>, chain': seq<Block>, k: nat)
    requires Grown(h, index, chain) && Grown(h, index', chain') && |chain| == |chain'| && k <= |chain|
    requires forall i :: 0 <= i < |chain| ==> SameHeader(chain[i], chain'[i])
    ensures chain[..k] == chain'[..k]
  {
    hide Indexed;
    hide Computed;
    if k > 0 {
      ModifiersDetermined(h, index, chain, index', chain', k - 1);
      var n := k - 1;
      assert chain[..k] == chain[..n] + [chain[n]];
      assert chain'[..k] == chain'[..n] + [chain'[n]];
      assert SameHeader(chain[n], chain'[n]);
      if n > 0 {
        assert GrownAt(h, index, chain, n) && GrownAt(h, index', chain', n);
        IndexAgrees(h, index', index, chain[..n], chain[n].nTime, chain'[n].nStakeModifier, chain'[n].generated);
        ComputedOnce(h, index, chain[..n], chain[n].nTime, chain[n].nStakeModifier, chain[n].generated,
                     chain'[n].nStakeModifier, chain'[n].generated);
      }
    }
  }

  lemma ComputedOnce(h: Hash, index: map<nat, Block>, past: seq<Block>, nTime: nat, m: nat, g: bool, m': nat, g': bool)
    requires Indexed(index, past) && Computed(h, index, past, nTime, m, g) && Computed(h, index, past, nTime, m', g')
    ensures m == m' && g == g'
  {
    hide IsSelection;
    hide Value;
    hide Indexed;
    hide Candidates;
    hide SelectionStart;
    hide LastGenerator;
    hide Bits;
    hide SortedByTime;
    hide Distinct;
    hide Due;
    if past != [] && g {
      assert past[..|past| - 1 + 1] == past;
      CandidatesResolve(index, past, |past| - 1);
      var a :| Drawn(h, index, past, m, a);
      var b :| Drawn(h, index, past, m', b);
      var c := Blocks(index, Candidates(past, |past| - 1));
      SelectionIsUnique(h, c, SelectionStart(past[|past| - 1]), ModifierAt(past, LastGenerator(past, |past| - 1)), a, b, |a|);
      assert a[..|a|] == a && b[..|a|] == b;
    }
  }
}
