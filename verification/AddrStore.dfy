/**
 Saving and restoring the address manager. What is written are the entries without their
 memory-only fields, new ones first, and for each new bucket the ranks of the entries in
 it; what is read back has its ids renumbered. A file is modelled as the record of what a
 stream holds; how numbers and addresses become bytes is not.
 */
module AddrStore {
  import opened AddrState
  import opened Basics

  /** The part of an entry that is written. */
  datatype Saved = Saved(service: Service, nServices: set<nat>, nTime: int, source: NetAddr, nLastSuccess: int, nAttempts: int)

  datatype File = File(nVersion: nat, nKeySize: nat, nKey: nat, nNew: int, nTried: int, nUBuckets: int,
                       news: seq<Saved>, trieds: seq<Saved>, rows: seq<seq<int>>)

  function SavedOf(n: Entry): (r: Saved) {
    Saved(n.service, n.nServices, n.nTime, n.source, n.nLastSuccess, n.nAttempts)
  }

  function EntryOf(r: Saved): (n: Entry) {
    Entry(r.service, r.nServices, r.nTime, r.source, r.nLastSuccess, 0, r.nAttempts, 0, false)
  }

  const BIT_30: int := 0x4000_0000

  /** Exclusive or with two to the thirtieth, in two's complement. */
  function FlipBit30(n: int): (r: int) {
    if (n / BIT_30) % 2 == 0 then n + BIT_30 else n - BIT_30
  }

  lemma FlipTwice(n: int)
    ensures FlipBit30(FlipBit30(n)) == n
  {}

  // ---- the order in which entries are written

  /** Which entries a pass writes: those with references, or the tried ones. */
  predicate Wanted(n: Entry, tried: bool) {
    if tried then n.fInTried else n.nRefCount != 0
  }

  /** The ids below `k` that a pass writes, ascending. */
  function Order(info: map<int, Entry>, k: nat, tried: bool): (r: seq<int>) {
    if k == 0 then []
    else Order(info, k - 1, tried) + if k - 1 in info && Wanted(info[k - 1], tried) then [k - 1] else []
  }

  ghost predicate Ascends(info: map<int, Entry>, o: seq<int>, k: nat, tried: bool) {
    && (forall i :: 0 <= i < |o| ==> 0 <= o[i] < k && o[i] in info && Wanted(info[o[i]], tried))
    && (forall i, j :: 0 <= i < j < |o| ==> o[i] < o[j])
  }

  /** Ids are written in ascending order, so none twice, */
  lemma {:induction false} OrderAscends(info: map<int, Entry>, k: nat, tried: bool)
    ensures Ascends(info, Order(info, k, tried), k, tried)
  {
    if k > 0 {
      OrderAscends(info, k - 1, tried);
      var a, o := Order(info, k - 1, tried), Order(info, k, tried);
      forall i | 0 <= i < |o| ensures if i < |a| then o[i] == a[i] else o[i] == k - 1 && k - 1 in info && Wanted(info[k - 1], tried) {
      }
    }
  }

  /** and an id is written at its rank, the number of ids written before it. */
  lemma {:induction false} OrderRank(info: map<int, Entry>, id: nat, k: nat, tried: bool)
    requires id < k && id in info && Wanted(info[id], tried)
    ensures var o, rank := Order(info, k, tried), |Order(info, id, tried)|; rank < |o| && o[rank] == id
    decreases k
  {
    if id < k - 1 {
      OrderRank(info, id, k - 1, tried);
    }
  }

  /** All ids of a state in the order they are written. */
  ghost function Listing(s: State): (r: seq<int>)
    requires s.nIdCount >= 0
  {
    Order(s.info, s.nIdCount, false) + Order(s.info, s.nIdCount, true)
  }

  /** A listing: `o` lists the ids of `info` once each, the first `m` being the new ones. */
  ghost predicate Lists(info: map<int, Entry>, o: seq<int>, m: int) {
    && 0 <= m <= |o|
    && (forall i :: 0 <= i < |o| ==> o[i] in info && (info[o[i]].fInTried <==> m <= i))
    && (forall i, j :: 0 <= i < j < |o| ==> o[i] != o[j])
    && (forall id :: id in info ==> id in o)
  }

  /** The two passes share the entries out between them. */
  lemma OrderSplits(info: map<int, Entry>, k: nat)
    requires Live(info, {}) && forall id :: id in info ==> 0 <= id < k
    ensures var a, b := Order(info, k, false), Order(info, k, true);
            |a| == |NewIds(info)| && |b| == |TriedIds(info)| && Lists(info, a + b, |a|)
  {
    var a, b := Order(info, k, false), Order(info, k, true);
    OrderAscends(info, k, false);
    OrderAscends(info, k, true);
    forall id | id in info ensures if info[id].fInTried then id in b else id in a {
      OrderRank(info, id, k, info[id].fInTried);
    }
    forall i | 0 <= i < |a| ensures a[i] in NewIds(info) {
      assert info[a[i]].nRefCount != 0;
    }
    ListSize(a, NewIds(info));
    ListSize(b, TriedIds(info));
  }

  /** Of a consistent state each entry is written once, new ones first, and the counters written are exact. */
  lemma ListingLists(e: Env, s: State)
    requires Consistent(e, s)
    ensures Lists(s.info, Listing(s), s.nNew)
    ensures |Order(s.info, s.nIdCount, false)| == s.nNew && |Order(s.info, s.nIdCount, true)| == s.nTried
  {
    hide RandomOk;
    hide AddrOk;
    hide TriedOk;
    hide NewOk;
    hide Live;
    hide Order;
    hide Lists;
    OrderSplits(s.info, s.nIdCount);
  }

  // ---- what is written

  ghost function Records(info: map<int, Entry>, o: seq<int>): (r: seq<Saved>)
    requires forall i :: 0 <= i < |o| ==> o[i] in info
  {
    seq(|o|, i requires 0 <= i < |o| => SavedOf(info[o[i]]))
  }

  /** The number under which a new entry is referred to. */
  function Rank(info: map<int, Entry>, id: int): (r: nat) {
    if id < 0 then 0 else |Order(info, id, false)|
  }

  /** The ranks of the entries in the first `i` positions of a bucket. */
  function Row(info: map<int, Entry>, news: map<Slot, int>, b: int, i: nat): (r: seq<int>) {
    if i == 0 then []
    else Row(info, news, b, i - 1) + if (b, i - 1) in news then [Rank(info, news[(b, i - 1)])] else []
  }

  function Rows(info: map<int, Entry>, news: map<Slot, int>, b: nat): (r: seq<seq<int>>)
    ensures |r| == b
  {
    if b == 0 then [] else Rows(info, news, b - 1) + [Row(info, news, b - 1, BUCKET_SIZE)]
  }

  ghost function Saving(key: nat, s: State): (f: File)
    requires s.nIdCount >= 0
  {
    OrderAscends(s.info, s.nIdCount, false);
    OrderAscends(s.info, s.nIdCount, true);
    File(1, 32, key, s.nNew, s.nTried, FlipBit30(NEW_BUCKET_COUNT), Records(s.info, Order(s.info, s.nIdCount, false)),
         Records(s.info, Order(s.info, s.nIdCount, true)), Rows(s.info, s.news, NEW_BUCKET_COUNT))
  }

  // ---- what is read

  /** The number of rows a file announces. */
  function Buckets(f: File): (r: int) {
    if f.nVersion != 0 then FlipBit30(f.nUBuckets) else f.nUBuckets
  }

  /** Rows are of use only if they speak of the same buckets. */
  predicate Usable(f: File) {
    f.nVersion == 1 && Buckets(f) == NEW_BUCKET_COUNT
  }

  /** A file holds as many records and rows as it announces. */
  predicate Complete(f: File) {
    |f.news| == f.nNew && |f.trieds| == f.nTried && (|f.rows| == Buckets(f) || (Buckets(f) < 0 && f.rows == []))
  }

  ghost function Enter(s: State, id: int, n: Entry): (r: State) {
    s.(info := s.info[id := n], addr := s.addr[n.service.addr := id], random := s.random + [id], pos := s.pos[id := |s.random|])
  }

  /** A new entry; without usable rows it takes the slot of its source, if that is free. */
  ghost function LoadNew(e: Env, s: State, id: int, r: Saved, rebuild: bool): (w: State) {
    var slot := NewSlot(e, r.service, r.source);
    if rebuild && slot !in s.news
    then Enter(s, id, EntryOf(r).(nRefCount := 1)).(news := s.news[slot := id])
    else Enter(s, id, EntryOf(r))
  }

  ghost function LoadNews(e: Env, s: State, news: seq<Saved>, rebuild: bool): (w: State) {
    if news == [] then s
    else LoadNew(e, LoadNews(e, s, news[..|news| - 1], rebuild), |news| - 1, news[|news| - 1], rebuild)
  }

  /** A tried entry, lost if its slot is taken. */
  ghost function LoadTried(e: Env, s: State, r: Saved): (w: State) {
    var slot := TriedSlot(e, r.service);
    if slot in s.tried then s.(nTried := s.nTried - 1)
    else Enter(s, s.nIdCount, EntryOf(r).(fInTried := true)).(tried := s.tried[slot := s.nIdCount], nIdCount := s.nIdCount + 1)
  }

  ghost function LoadTrieds(e: Env, s: State, trieds: seq<Saved>): (w: State) {
    if trieds == [] then s else LoadTried(e, LoadTrieds(e, s, trieds[..|trieds| - 1]), trieds[|trieds| - 1])
  }

  /** A reference from a bucket to the new entry `x`, ignored if it cannot be kept. */
  ghost function LoadIndex(e: Env, s: State, nNew: int, usable: bool, b: int, x: int): (w: State) {
    if 0 <= x < nNew && x in s.info && usable && (b, Position(e, true, b, s.info[x].service)) !in s.news
       && s.info[x].nRefCount < NEW_BUCKETS_PER_ADDRESS
    then s.(news := s.news[(b, Position(e, true, b, s.info[x].service)) := x], info := WithRefs(s.info, x, s.info[x].nRefCount + 1))
    else s
  }

  ghost function LoadRow(e: Env, s: State, nNew: int, usable: bool, b: int, row: seq<int>): (w: State) {
    if row == [] then s else LoadIndex(e, LoadRow(e, s, nNew, usable, b, row[..|row| - 1]), nNew, usable, b, row[|row| - 1])
  }

  ghost function LoadRows(e: Env, s: State, nNew: int, usable: bool, rows: seq<seq<int>>): (w: State) {
    if rows == [] then s
    else LoadRow(e, LoadRows(e, s, nNew, usable, rows[..|rows| - 1]), nNew, usable, |rows| - 1, rows[|rows| - 1])
  }

  /** The ids and the random order agree; all that deletion asks for. */
  ghost predicate Indexed(s: State) {
    IdsOk(s) && RandomOk(s.random, s.pos)
  }

  predicate Unheld(s: State, id: int) {
    id in s.info && !s.info[id].fInTried && s.info[id].nRefCount == 0
  }

  /** Entries below `k` that no table holds are dropped. */
  ghost function Pruned(s: State, k: nat): (r: State)
    requires Indexed(s)
    ensures Indexed(r)
  {
    hide RandomOk;
    hide Deleted;
    if k == 0 then s
    else
      var w := Pruned(s, k - 1);
      if Unheld(w, k - 1) then DeleteKeepsRandom(w, k - 1); Deleted(w, k - 1) else w
  }

  lemma EnterKeepsIndexed(s: State, id: int, n: Entry)
    requires RandomOk(s.random, s.pos) && s.pos.Keys == s.info.Keys && id !in s.info
    ensures var r := Enter(s, id, n); RandomOk(r.random, r.pos) && r.pos.Keys == r.info.Keys
  {
    assert id !in s.pos.Keys;
    AppendKeepsRandom(s.random, s.pos, id);
    hide RandomOk;
    KeysGrow(s.info, s.pos, id, n, |s.random|);
  }

  lemma NoneIndexed()
    ensures RandomOk([], map[])
  {}

  /** Loading new entries numbers them in order. */
  lemma {:induction false} NewsIndexed(e: Env, s: State, news: seq<Saved>, rebuild: bool)
    requires s == EMPTY.(nNew := s.nNew, nTried := s.nTried)
    ensures var w := LoadNews(e, s, news, rebuild);
            && RandomOk(w.random, w.pos) && w.pos.Keys == w.info.Keys && w.nIdCount == 0
            && (forall id :: id in w.info <==> 0 <= id < |news|)
  {
    hide NewSlot;
    hide RandomOk;
    if news == [] {
      NoneIndexed();
    } else {
      NewsIndexed(e, s, news[..|news| - 1], rebuild);
      var w, id := LoadNews(e, s, news[..|news| - 1], rebuild), |news| - 1;
      EnterKeepsIndexed(w, id, EntryOf(news[id]));
      EnterKeepsIndexed(w, id, EntryOf(news[id]).(nRefCount := 1));
    }
  }

  lemma {:induction false} TriedsIndexed(e: Env, s: State, trieds: seq<Saved>)
    requires Indexed(s)
    ensures Indexed(LoadTrieds(e, s, trieds))
  {
    hide TriedSlot;
    hide RandomOk;
    if trieds != [] {
      TriedsIndexed(e, s, trieds[..|trieds| - 1]);
      var w := LoadTrieds(e, s, trieds[..|trieds| - 1]);
      EnterKeepsIndexed(w, w.nIdCount, EntryOf(trieds[|trieds| - 1]).(fInTried := true));
    }
  }

  lemma {:induction false} RowIndexed(e: Env, s: State, nNew: int, usable: bool, b: int, row: seq<int>)
    requires Indexed(s)
    ensures Indexed(LoadRow(e, s, nNew, usable, b, row))
  {
    hide Position;
    hide RandomOk;
    if row != [] {
      RowIndexed(e, s, nNew, usable, b, row[..|row| - 1]);
      var w, x := LoadRow(e, s, nNew, usable, b, row[..|row| - 1]), row[|row| - 1];
      assert x in w.info ==> WithRefs(w.info, x, w.info[x].nRefCount + 1).Keys == w.info.Keys;
    }
  }

  lemma {:induction false} RowsIndexed(e: Env, s: State, nNew: int, usable: bool, rows: seq<seq<int>>)
    requires Indexed(s)
    ensures Indexed(LoadRows(e, s, nNew, usable, rows))
  {
    hide Indexed;
    hide LoadRow;
    if rows != [] {
      RowsIndexed(e, s, nNew, usable, rows[..|rows| - 1]);
      RowIndexed(e, LoadRows(e, s, nNew, usable, rows[..|rows| - 1]), nNew, usable, |rows| - 1, rows[|rows| - 1]);
    }
  }

  /** The state before the rows are read. */
  ghost function LoadedEntries(h: Hasher, f: File): (s: State) {
    var e := Env(h, f.nKey);
    var s1 := LoadNews(e, EMPTY.(nNew := f.nNew, nTried := f.nTried), f.news, !Usable(f));
    LoadTrieds(e, s1.(nIdCount := f.nNew), f.trieds)
  }

  /** The state before pruning. */
  ghost function Loaded(h: Hasher, f: File): (s: State) {
    LoadRows(Env(h, f.nKey), LoadedEntries(h, f), f.nNew, Usable(f), f.rows)
  }

  lemma LoadedIndexed(h: Hasher, f: File)
    requires f.nNew == |f.news|
    ensures Indexed(LoadedEntries(h, f)) && Indexed(Loaded(h, f))
  {
    var e, s0 := Env(h, f.nKey), EMPTY.(nNew := f.nNew, nTried := f.nTried);
    var s1 := LoadNews(e, s0, f.news, !Usable(f)).(nIdCount := f.nNew);
    NewsIndexed(e, s0, f.news, !Usable(f));
    TriedsIndexed(e, s1, f.trieds);
    RowsIndexed(e, LoadTrieds(e, s1, f.trieds), f.nNew, Usable(f), f.rows);
  }

  /** Ids below the number of new entries are entries. */
  lemma EntriesThere(h: Hasher, f: File)
    requires f.nNew == |f.news|
    ensures forall x :: 0 <= x < f.nNew ==> x in LoadedEntries(h, f).info
  {
    var e, s0 := Env(h, f.nKey), EMPTY.(nNew := f.nNew, nTried := f.nTried);
    var s1 := LoadNews(e, s0, f.news, !Usable(f)).(nIdCount := f.nNew);
    NewsIndexed(e, s0, f.news, !Usable(f));
    TriedsKeepIds(e, s1, f.trieds);
  }

  lemma {:induction false} TriedsKeepIds(e: Env, s: State, trieds: seq<Saved>)
    ensures forall x :: x in s.info ==> x in LoadTrieds(e, s, trieds).info
  {
    hide TriedSlot;
    if trieds != [] {
      TriedsKeepIds(e, s, trieds[..|trieds| - 1]);
    }
  }

  /** The count of tried entries does not affect what is loaded. */
  lemma LoadTriedCount(e: Env, s: State, count: int, r: Saved)
    ensures var w, v := LoadTried(e, s, r), LoadTried(e, s.(nTried := count), r);
            v == w.(nTried := v.nTried) && w.nTried - s.nTried == v.nTried - count
  {
    hide TriedSlot;
    hide Enter;
    EnterAnyCount(s, s.nIdCount, EntryOf(r).(fInTried := true), count);
  }

  lemma EnterAnyCount(s: State, id: int, n: Entry, count: int)
    ensures Enter(s.(nTried := count), id, n) == Enter(s, id, n).(nTried := count)
    ensures Enter(s, id, n).nTried == s.nTried
  {}

  /** `Unserialize` on a new manager; whatever the file says, the result is indexed. */
  ghost function Restored(h: Hasher, f: File): (s: State)
    requires f.nNew == |f.news|
    ensures Indexed(s)
  {
    LoadedIndexed(h, f);
    Pruned(Loaded(h, f), Loaded(h, f).nIdCount)
  }

  // ---- reading back what was written

  /** An entry as it is before its references are read. */
  function Bare(n: Entry): (r: Entry) {
    n.(nLastTry := 0, nRefCount := 0)
  }

  ghost predicate InfoBack(info: map<int, Entry>, r: map<int, Entry>, o: seq<int>, n: int)
    requires n <= |o| && forall i :: 0 <= i < |o| ==> o[i] in info
  {
    (forall j :: j in r <==> 0 <= j < n) && (forall j :: 0 <= j < n ==> j in r && r[j] == Bare(info[o[j]]))
  }

  ghost predicate AddrBack(info: map<int, Entry>, r: map<NetAddr, int>, o: seq<int>, n: int)
    requires n <= |o| && forall i :: 0 <= i < |o| ==> o[i] in info
  {
    && (forall j :: 0 <= j < n ==> info[o[j]].service.addr in r && r[info[o[j]].service.addr] == j)
    && (forall a :: a in r ==> 0 <= r[a] < n && info[o[r[a]]].service.addr == a)
  }

  ghost predicate TriedBack(e: Env, info: map<int, Entry>, r: map<Slot, int>, o: seq<int>, n: int)
    requires n <= |o| && forall i :: 0 <= i < |o| ==> o[i] in info
  {
    && (forall j :: 0 <= j < n && info[o[j]].fInTried ==>
          TriedSlot(e, info[o[j]].service) in r && r[TriedSlot(e, info[o[j]].service)] == j)
    && (forall slot :: slot in r ==>
          0 <= r[slot] < n && info[o[r[slot]]].fInTried && slot == TriedSlot(e, info[o[r[slot]]].service))
  }

  ghost predicate RandomBack(random: seq<int>, pos: map<int, int>, n: int) {
    && |random| == n && (forall i :: 0 <= i < n ==> random[i] == i)
    && (forall j :: j in pos <==> 0 <= j < n) && (forall j :: 0 <= j < n ==> j in pos && pos[j] == j)
  }

  /** The first `n` listed entries are back, numbered in order, and no new slot yet. */
  ghost predicate Back(e: Env, s: State, r: State, o: seq<int>, n: int)
    requires n <= |o| && forall i :: 0 <= i < |o| ==> o[i] in s.info
  {
    && InfoBack(s.info, r.info, o, n) && AddrBack(s.info, r.addr, o, n) && TriedBack(e, s.info, r.tried, o, n)
    && RandomBack(r.random, r.pos, n) && r.news == map[] && r.nNew == s.nNew && r.nTried == s.nTried
  }

  lemma InfoEnters(info: map<int, Entry>, r: map<int, Entry>, o: seq<int>, n: int)
    requires 0 <= n < |o| && (forall i :: 0 <= i < |o| ==> o[i] in info) && InfoBack(info, r, o, n)
    ensures InfoBack(info, r[n := Bare(info[o[n]])], o, n + 1)
  {}

  lemma AddrEnters(info: map<int, Entry>, addr: map<NetAddr, int>, r: map<NetAddr, int>, o: seq<int>, n: int, m: int)
    requires AddrOk(info, addr) && Lists(info, o, m) && 0 <= n < |o| && AddrBack(info, r, o, n)
    ensures AddrBack(info, r[info[o[n]].service.addr := n], o, n + 1)
  {
    forall j | 0 <= j < n ensures info[o[j]].service.addr != info[o[n]].service.addr {
      assert addr[info[o[j]].service.addr] == o[j] != o[n];
    }
  }

  /** No tried entry is lost: their slots are distinct. */
  lemma TriedEnters(e: Env, info: map<int, Entry>, tried: map<Slot, int>, r: map<Slot, int>, o: seq<int>, n: int, m: int)
    requires TriedOk(e, info, tried) && Lists(info, o, m) && 0 <= n < |o| && TriedBack(e, info, r, o, n)
    ensures if info[o[n]].fInTried
            then TriedSlot(e, info[o[n]].service) !in r && TriedBack(e, info, r[TriedSlot(e, info[o[n]].service) := n], o, n + 1)
            else TriedBack(e, info, r, o, n + 1)
  {
    hide TriedSlot;
    forall j | 0 <= j < n && info[o[j]].fInTried && info[o[n]].fInTried
      ensures TriedSlot(e, info[o[j]].service) != TriedSlot(e, info[o[n]].service)
    {
      assert tried[TriedSlot(e, info[o[j]].service)] == o[j] != o[n];
    }
  }

  lemma RandomEnters(random: seq<int>, pos: map<int, int>, n: int)
    requires 0 <= n && RandomBack(random, pos, n)
    ensures RandomBack(random + [n], pos[n := |random|], n + 1)
  {}

  lemma {:induction false} NewsBack(e: Env, s: State, s0: State, o: seq<int>, n: nat)
    requires Consistent(e, s) && Lists(s.info, o, s.nNew) && n <= s.nNew
    requires s0 == EMPTY.(nNew := s.nNew, nTried := s.nTried)
    ensures Back(e, s, LoadNews(e, s0, Records(s.info, o)[..n], false), o, n)
  {
    hide RandomOk;
    hide AddrOk;
    hide TriedOk;
    hide NewOk;
    hide InfoBack;
    hide AddrBack;
    hide TriedBack;
    hide RandomBack;
    hide LoadNew;
    hide Live;
    if n == 0 {
      NothingBack(e, s, s0, o);
    } else {
      NewsBack(e, s, s0, o, n - 1);
      var recs := Records(s.info, o);
      assert recs[..n][..n - 1] == recs[..n - 1];
      assert recs[..n][n - 1] == SavedOf(s.info[o[n - 1]]);
      var w := LoadNews(e, s0, recs[..n - 1], false);
      EntersNew(e, s, w, o, n - 1);
    }
  }

  lemma NothingBack(e: Env, s: State, r: State, o: seq<int>)
    requires r == EMPTY.(nNew := s.nNew, nTried := s.nTried) && forall i :: 0 <= i < |o| ==> o[i] in s.info
    ensures Back(e, s, r, o, 0)
  {}

  lemma EntersNew(e: Env, s: State, w: State, o: seq<int>, n: nat)
    requires Consistent(e, s) && Lists(s.info, o, s.nNew) && n < s.nNew && Back(e, s, w, o, n)
    ensures Back(e, s, LoadNew(e, w, n, SavedOf(s.info[o[n]]), false), o, n + 1)
  {
    InfoEnters(s.info, w.info, o, n);
    AddrEnters(s.info, s.addr, w.addr, o, n, s.nNew);
    TriedEnters(e, s.info, s.tried, w.tried, o, n, s.nNew);
    RandomEnters(w.random, w.pos, n);
    assert |w.random| == n;
    hide RandomOk;
    hide AddrOk;
    hide TriedOk;
    hide NewOk;
    hide InfoBack;
    hide AddrBack;
    hide TriedBack;
    hide RandomBack;
    hide NewSlot;
    hide Live;
    assert EntryOf(SavedOf(s.info[o[n]])) == Bare(s.info[o[n]]);
  }

  lemma EntersTried(e: Env, s: State, w: State, o: seq<int>, n: nat)
    requires Consistent(e, s) && Lists(s.info, o, s.nNew) && s.nNew <= n < |o| && Back(e, s, w, o, n) && w.nIdCount == n
    ensures var r := LoadTried(e, w, SavedOf(s.info[o[n]])); Back(e, s, r, o, n + 1) && r.nIdCount == n + 1
  {
    InfoEnters(s.info, w.info, o, n);
    AddrEnters(s.info, s.addr, w.addr, o, n, s.nNew);
    TriedEnters(e, s.info, s.tried, w.tried, o, n, s.nNew);
    RandomEnters(w.random, w.pos, n);
    assert |w.random| == n;
    hide RandomOk;
    hide AddrOk;
    hide TriedOk;
    hide NewOk;
    hide InfoBack;
    hide AddrBack;
    hide TriedBack;
    hide RandomBack;
    hide TriedSlot;
    hide Live;
    assert EntryOf(SavedOf(s.info[o[n]])).(fInTried := true) == Bare(s.info[o[n]]);
  }

  lemma {:induction false} TriedsBack(e: Env, s: State, w: State, o: seq<int>, k: nat)
    requires Consistent(e, s) && Lists(s.info, o, s.nNew) && s.nNew + k <= |o|
    requires Back(e, s, w, o, s.nNew) && w.nIdCount == s.nNew
    ensures var r := LoadTrieds(e, w, Records(s.info, o)[s.nNew..s.nNew + k]);
            Back(e, s, r, o, s.nNew + k) && r.nIdCount == s.nNew + k
  {
    hide Consistent;
    hide Back;
    hide LoadTried;
    if k > 0 {
      TriedsBack(e, s, w, o, k - 1);
      var recs := Records(s.info, o)[s.nNew..s.nNew + k];
      assert recs[..k - 1] == Records(s.info, o)[s.nNew..s.nNew + k - 1];
      assert |recs| == k && recs[k - 1] == SavedOf(s.info[o[s.nNew + k - 1]]);
      assert LoadTrieds(e, w, recs) == LoadTried(e, LoadTrieds(e, w, recs[..k - 1]), recs[k - 1]);
      EntersTried(e, s, LoadTrieds(e, w, recs[..k - 1]), o, s.nNew + k - 1);
    }
  }

  /** The slots written before position `i` of bucket `b`. */
  ghost function Before(news: map<Slot, int>, b: int, i: int): (r: set<Slot>) {
    set slot | slot in news && (slot.0 < b || (slot.0 == b && slot.1 < i))
  }

  /** Those of them that hold `id`. */
  ghost function Held(news: map<Slot, int>, before: set<Slot>, id: int): (r: set<Slot>) {
    set slot | slot in before && slot in news && news[slot] == id
  }

  /** The slots in `before` are back, and counted. */
  ghost predicate RefsBack(info: map<int, Entry>, news: map<Slot, int>, rinfo: map<int, Entry>, rnews: map<Slot, int>, o: seq<int>,
                           before: set<Slot>)
    requires forall i :: 0 <= i < |o| ==> o[i] in info
  {
    && (forall slot :: slot in rnews <==> slot in before)
    && (forall slot :: slot in rnews ==> slot in news && 0 <= rnews[slot] < |o| && o[rnews[slot]] == news[slot])
    && (forall j :: j in rinfo <==> 0 <= j < |o|)
    && (forall j :: 0 <= j < |o| ==> j in rinfo && rinfo[j] == Bare(info[o[j]]).(nRefCount := |Held(news, before, o[j])|))
  }

  lemma HeldGrows(news: map<Slot, int>, before: set<Slot>, slot: Slot, id: int)
    requires slot in news && slot !in before
    ensures |Held(news, before + {slot}, id)| == |Held(news, before, id)| + if news[slot] == id then 1 else 0
  {
    var a, b := Held(news, before, id), Held(news, before + {slot}, id);
    if news[slot] == id {
      assert b == a + {slot};
    } else {
      assert b == a;
    }
  }

  lemma HeldBelowSlots(news: map<Slot, int>, before: set<Slot>, slot: Slot)
    requires slot in news && slot !in before
    ensures |Held(news, before, news[slot])| < |Slots(news, news[slot])|
  {
    var a, b := Held(news, before, news[slot]), Slots(news, news[slot]);
    assert b == a + (b - a);
    assert slot in b - a;
  }

  lemma RefEnters(info: map<int, Entry>, news: map<Slot, int>, rinfo: map<int, Entry>, rnews: map<Slot, int>, o: seq<int>,
                  before: set<Slot>, slot: Slot, x: int, m: int)
    requires Lists(info, o, m) && RefsBack(info, news, rinfo, rnews, o, before)
    requires slot in news && slot !in before && 0 <= x < |o| && o[x] == news[slot]
    ensures x in rinfo
    ensures RefsBack(info, news, WithRefs(rinfo, x, rinfo[x].nRefCount + 1), rnews[slot := x], o, before + {slot})
  {
    var rinfo' := WithRefs(rinfo, x, rinfo[x].nRefCount + 1);
    forall j | 0 <= j < |o|
      ensures j in rinfo' && rinfo'[j] == Bare(info[o[j]]).(nRefCount := |Held(news, before + {slot}, o[j])|)
    {
      HeldGrows(news, before, slot, o[j]);
      assert o[j] == o[x] <==> j == x;
    }
  }

  lemma SlotFacts(e: Env, info: map<int, Entry>, news: map<Slot, int>, slot: Slot)
    requires NewOk(e, info, news) && Live(info, {}) && slot in news
    ensures news[slot] in info && slot.1 == Position(e, true, slot.0, info[news[slot]].service)
    ensures |Slots(news, news[slot])| <= NEW_BUCKETS_PER_ADDRESS
  {
    hide Position;
    hide Slots;
  }

  lemma RefAt(info: map<int, Entry>, news: map<Slot, int>, rinfo: map<int, Entry>, rnews: map<Slot, int>, o: seq<int>,
              before: set<Slot>, x: int)
    requires (forall i :: 0 <= i < |o| ==> o[i] in info) && RefsBack(info, news, rinfo, rnews, o, before) && 0 <= x < |o|
    ensures x in rinfo && rinfo[x].service == info[o[x]].service && rinfo[x].nRefCount == |Held(news, before, o[x])|
    ensures forall slot :: slot in rnews <==> slot in before
  {
    hide Held;
  }

  /** A reference that was written is taken back where it was. */
  lemma IndexBack(e: Env, s: State, w: State, o: seq<int>, before: set<Slot>, slot: Slot, x: int)
    requires Consistent(e, s) && Lists(s.info, o, s.nNew) && RefsBack(s.info, s.news, w.info, w.news, o, before)
    requires slot in s.news && slot !in before && 0 <= x < s.nNew && o[x] == s.news[slot]
    ensures var r := LoadIndex(e, w, s.nNew, true, slot.0, x);
            && r == w.(info := r.info, news := r.news) && RefsBack(s.info, s.news, r.info, r.news, o, before + {slot})
  {
    hide RandomOk;
    hide AddrOk;
    hide TriedOk;
    hide NewOk;
    hide Position;
    hide Slots;
    hide Live;
    hide Held;
    hide RefsBack;
    HeldBelowSlots(s.news, before, slot);
    SlotFacts(e, s.info, s.news, slot);
    RefAt(s.info, s.news, w.info, w.news, o, before, x);
    RefEnters(s.info, s.news, w.info, w.news, o, before, slot, x, s.nNew);
    assert slot == (slot.0, Position(e, true, slot.0, w.info[x].service));
  }

  lemma BeforeStep(news: map<Slot, int>, b: int, i: int)
    ensures var slot := (b, i);
            slot !in Before(news, b, i)
            && Before(news, b, i + 1) == if slot in news then Before(news, b, i) + {slot} else Before(news, b, i)
  {
    forall x: Slot ensures x in Before(news, b, i + 1) <==> x in Before(news, b, i) || (x == (b, i) && x in news) {
    }
  }

  /** A bucket with nothing more in it. */
  lemma BeforeNext(e: Env, info: map<int, Entry>, news: map<Slot, int>, b: int)
    requires NewOk(e, info, news)
    ensures Before(news, b, BUCKET_SIZE) == Before(news, b + 1, 0)
    ensures Before(news, 0, 0) == {} && Before(news, NEW_BUCKET_COUNT, 0) == news.Keys
  {
    hide Slots;
    forall slot | slot in news ensures 0 <= slot.0 < NEW_BUCKET_COUNT && 0 <= slot.1 < BUCKET_SIZE {
      assert slot.1 == Position(e, true, slot.0, info[news[slot]].service);
    }
    hide NewOk;
    forall x: Slot ensures x in Before(news, b, BUCKET_SIZE) <==> x in Before(news, b + 1, 0) {
    }
    forall x: Slot ensures x !in Before(news, 0, 0) && (x in Before(news, NEW_BUCKET_COUNT, 0) <==> x in news.Keys) {
    }
  }

  /** Ranks point at the entries they are of. */
  lemma RankPoints(e: Env, s: State, slot: Slot)
    requires Consistent(e, s) && slot in s.news
    ensures var x := Rank(s.info, s.news[slot]); 0 <= x < s.nNew && x < |Listing(s)| && Listing(s)[x] == s.news[slot]
  {
    OwnerIsNew(e, s, {}, slot);
    ListingLists(e, s);
    hide RandomOk;
    hide AddrOk;
    hide TriedOk;
    hide NewOk;
    hide Live;
    hide Lists;
    OrderRank(s.info, s.news[slot], s.nIdCount, false);
    hide Order;
  }

  /** All of the state but the references of entries. */
  ghost predicate OnlyRefs(w: State, r: State) {
    r == w.(info := r.info, news := r.news)
  }

  lemma {:induction false} RowBack(e: Env, s: State, w: State, b: int, i: nat)
    requires Consistent(e, s) && Lists(s.info, Listing(s), s.nNew)
    requires RefsBack(s.info, s.news, w.info, w.news, Listing(s), Before(s.news, b, 0))
    ensures var r := LoadRow(e, w, s.nNew, true, b, Row(s.info, s.news, b, i));
            OnlyRefs(w, r) && RefsBack(s.info, s.news, r.info, r.news, Listing(s), Before(s.news, b, i))
  {
    hide RandomOk;
    hide AddrOk;
    hide TriedOk;
    hide NewOk;
    hide Live;
    hide TimesOk;
    hide Counted;
    hide Lists;
    hide RefsBack;
    hide LoadIndex;
    hide Rank;
    hide Before;
    hide Listing;
    if i > 0 {
      RowBack(e, s, w, b, i - 1);
      BeforeStep(s.news, b, i - 1);
      var row, slot := Row(s.info, s.news, b, i - 1), (b, i - 1);
      if slot in s.news {
        RankPoints(e, s, slot);
        var x := Rank(s.info, s.news[slot]);
        assert (row + [x])[..|row|] == row;
        IndexBack(e, s, LoadRow(e, w, s.nNew, true, b, row), Listing(s), Before(s.news, b, i - 1), slot, x);
      } else {
        assert Row(s.info, s.news, b, i) == row;
      }
    }
  }

  lemma {:induction false} RowsBack(e: Env, s: State, w: State, b: nat)
    requires Consistent(e, s) && Lists(s.info, Listing(s), s.nNew)
    requires RefsBack(s.info, s.news, w.info, w.news, Listing(s), {})
    ensures var r := LoadRows(e, w, s.nNew, true, Rows(s.info, s.news, b));
            OnlyRefs(w, r) && RefsBack(s.info, s.news, r.info, r.news, Listing(s), Before(s.news, b, 0))
  {
    hide TimesOk;
    hide Counted;
    hide Lists;
    hide RefsBack;
    hide Before;
    hide Listing;
    hide LoadRow;
    hide Row;
    hide RandomOk;
    hide AddrOk;
    hide TriedOk;
    hide NewOk;
    hide Live;
    hide IdsOk;
    if b == 0 {
      BeforeNext(e, s.info, s.news, 0);
    } else {
      RowsBack(e, s, w, b - 1);
      BeforeNext(e, s.info, s.news, b - 1);
      var rows := Rows(s.info, s.news, b - 1);
      assert Rows(s.info, s.news, b)[..b - 1] == rows;
      RowBack(e, s, LoadRows(e, w, s.nNew, true, rows), b - 1, BUCKET_SIZE);
    }
  }

  // ---- the round trip

  /** The same index, with ids renumbered. */
  ghost predicate SameIndex<K>(a: map<K, int>, r: map<K, int>, o: seq<int>) {
    r.Keys == a.Keys && forall k :: k in r ==> k in a && 0 <= r[k] < |o| && o[r[k]] == a[k]
  }

  /** The same entries, renumbered, but for the time of the last try. */
  ghost predicate SameInfo(info: map<int, Entry>, r: map<int, Entry>, o: seq<int>) {
    && (forall j :: j in r <==> 0 <= j < |o|)
    && (forall j :: 0 <= j < |o| ==> j in r && o[j] in info && r[j] == info[o[j]].(nLastTry := 0))
  }

  /** `r` is `s` with ids renumbered, the random order reset and the time of the last try forgotten. Nothing else is lost. */
  ghost predicate Renumbers(s: State, r: State, o: seq<int>) {
    && Lists(s.info, o, s.nNew) && r.nIdCount == |o|
    && SameInfo(s.info, r.info, o)
    && SameIndex(s.addr, r.addr, o) && SameIndex(s.tried, r.tried, o) && SameIndex(s.news, r.news, o)
    && RandomBack(r.random, r.pos, |o|) && r.nNew == s.nNew && r.nTried == s.nTried
  }

  lemma AddrSame(info: map<int, Entry>, addr: map<NetAddr, int>, r: map<NetAddr, int>, o: seq<int>, m: int)
    requires AddrOk(info, addr) && Lists(info, o, m) && AddrBack(info, r, o, |o|)
    ensures SameIndex(addr, r, o)
  {
    forall a ensures a in r.Keys <==> a in addr.Keys {
      if a in addr {
        var j :| 0 <= j < |o| && o[j] == addr[a];
        assert info[o[j]].service.addr in r;
      }
    }
  }

  lemma TriedSame(e: Env, info: map<int, Entry>, tried: map<Slot, int>, r: map<Slot, int>, o: seq<int>, m: int)
    requires TriedOk(e, info, tried) && Lists(info, o, m) && TriedBack(e, info, r, o, |o|)
    ensures SameIndex(tried, r, o)
  {
    hide TriedSlot;
    forall slot ensures slot in r.Keys <==> slot in tried.Keys {
      if slot in tried {
        var j :| 0 <= j < |o| && o[j] == tried[slot];
        assert TriedSlot(e, info[o[j]].service) in r;
      }
    }
  }

  lemma NewsSame(e: Env, info: map<int, Entry>, news: map<Slot, int>, rinfo: map<int, Entry>, rnews: map<Slot, int>, o: seq<int>, m: int)
    requires NewOk(e, info, news) && Lists(info, o, m) && RefsBack(info, news, rinfo, rnews, o, news.Keys)
    ensures SameIndex(news, rnews, o) && SameInfo(info, rinfo, o)
  {
    hide Position;
    forall slot ensures slot in rnews.Keys <==> slot in news.Keys {
    }
    forall j | 0 <= j < |o| ensures j in rinfo && rinfo[j] == info[o[j]].(nLastTry := 0) {
      assert Held(news, news.Keys, o[j]) == Slots(news, o[j]);
    }
  }

  lemma RefsStart(info: map<int, Entry>, news: map<Slot, int>, rinfo: map<int, Entry>, o: seq<int>)
    requires (forall i :: 0 <= i < |o| ==> o[i] in info) && InfoBack(info, rinfo, o, |o|)
    ensures RefsBack(info, news, rinfo, map[], o, {})
  {
    forall j | 0 <= j < |o| ensures rinfo[j] == Bare(info[o[j]]).(nRefCount := |Held(news, {}, o[j])|) {
      assert Held(news, {}, o[j]) == {};
    }
  }

  /** Pruning finds nothing to drop. */
  lemma {:induction false} NothingPruned(s: State, k: nat)
    requires Indexed(s) && forall id :: !Unheld(s, id)
    ensures Pruned(s, k) == s
  {
    hide Indexed;
    hide Unheld;
    hide Deleted;
    if k > 0 {
      NothingPruned(s, k - 1);
    }
  }

  /** The file of a consistent manager holds the records it announces: the asserts on the counters do not fire. */
  lemma SavedComplete(e: Env, s: State)
    requires Consistent(e, s)
    ensures Complete(Saving(e.key, s)) && Usable(Saving(e.key, s))
  {
    ListingLists(e, s);
    FlipTwice(NEW_BUCKET_COUNT);
    hide Core;
    hide Order;
  }

  /** All entries are back before the rows are read. */
  lemma EntriesBack(e: Env, s: State, o: seq<int>, s0: State)
    requires Consistent(e, s) && Lists(s.info, o, s.nNew) && |o| == s.nNew + s.nTried
    requires s0 == EMPTY.(nNew := s.nNew, nTried := s.nTried)
    ensures var recs := Records(s.info, o);
            var r := LoadTrieds(e, LoadNews(e, s0, recs[..s.nNew], false).(nIdCount := s.nNew), recs[s.nNew..|o|]);
            r.nIdCount == |o| && Back(e, s, r, o, |o|)
  {
    hide Core;
    hide TimesOk;
    hide Counted;
    hide LoadNews;
    hide LoadTrieds;
    hide AddrBack;
    hide TriedBack;
    hide InfoBack;
    hide RandomBack;
    NewsBack(e, s, s0, o, s.nNew);
    var w := LoadNews(e, s0, Records(s.info, o)[..s.nNew], false).(nIdCount := s.nNew);
    assert Back(e, s, w, o, s.nNew);
    TriedsBack(e, s, w, o, s.nTried);
  }

  /** With the rows read, so is everything else. */
  lemma ReferencesBack(e: Env, s: State, w: State)
    requires Consistent(e, s) && Lists(s.info, Listing(s), s.nNew)
    requires w.nIdCount == |Listing(s)| && Back(e, s, w, Listing(s), |Listing(s)|)
    ensures Renumbers(s, LoadRows(e, w, s.nNew, true, Rows(s.info, s.news, NEW_BUCKET_COUNT)), Listing(s))
  {
    hide RandomOk;
    hide AddrOk;
    hide TriedOk;
    hide NewOk;
    hide Live;
    hide TimesOk;
    hide Counted;
    hide LoadRows;
    hide Rows;
    hide AddrBack;
    hide TriedBack;
    hide InfoBack;
    hide RefsBack;
    hide RandomBack;
    hide SameIndex;
    hide SameInfo;
    hide Before;
    hide Listing;
    var o := Listing(s);
    RefsStart(s.info, s.news, w.info, o);
    RowsBack(e, s, w, NEW_BUCKET_COUNT);
    var r := LoadRows(e, w, s.nNew, true, Rows(s.info, s.news, NEW_BUCKET_COUNT));
    BeforeNext(e, s.info, s.news, 0);
    AddrSame(s.info, s.addr, r.addr, o, s.nNew);
    TriedSame(e, s.info, s.tried, r.tried, o, s.nNew);
    NewsSame(e, s.info, s.news, r.info, r.news, o, s.nNew);
  }

  lemma LoadedBack(e: Env, s: State)
    requires Consistent(e, s)
    ensures Renumbers(s, Loaded(e.h, Saving(e.key, s)), Listing(s))
  {
    hide RandomOk;
    hide AddrOk;
    hide TriedOk;
    hide NewOk;
    hide Live;
    hide TimesOk;
    hide Counted;
    hide Order;
    hide Records;
    hide LoadNews;
    hide LoadTrieds;
    hide LoadRows;
    hide Rows;
    hide Renumbers;
    hide Back;
    hide Indexed;
    ListingLists(e, s);
    SavedComplete(e, s);
    SplitRecords(e.key, s);
    var f, s0 := Saving(e.key, s), EMPTY.(nNew := s.nNew, nTried := s.nTried);
    EntriesBack(e, s, Listing(s), s0);
    ReferencesBack(e, s, LoadTrieds(e, LoadNews(e, s0, f.news, false).(nIdCount := s.nNew), f.trieds));
  }

  /** The two parts of the listing, written one after the other. */
  lemma SplitRecords(key: nat, s: State)
    requires s.nIdCount >= 0 && forall i :: 0 <= i < |Listing(s)| ==> Listing(s)[i] in s.info
    ensures var f, m, recs := Saving(key, s), |Order(s.info, s.nIdCount, false)|, Records(s.info, Listing(s));
            |recs| == |Listing(s)| && m <= |recs| && f.news == recs[..m] && f.trieds == recs[m..|recs|]
  {
    hide Order;
  }

  /** Renumbering keeps a manager consistent. */
  lemma RenumberKeeps(e: Env, s: State, r: State, o: seq<int>)
    requires Consistent(e, s) && Renumbers(s, r, o)
    ensures Consistent(e, r)
  {
    hide RandomOk;
    hide AddrOk;
    hide TriedOk;
    hide NewOk;
    hide Live;
    hide TimesOk;
    hide SameInfo;
    hide SameIndex;
    hide RandomBack;
    hide Lists;
    hide TriedIds;
    hide NewIds;
    RenumberedAddr(s.info, s.addr, r.info, r.addr, o, s.nNew);
    RenumberedTried(e, s.info, s.tried, r.info, r.tried, o, s.nNew);
    RenumberedNews(e, s.info, s.news, r.info, r.news, o, s.nNew);
    RenumberedRandom(s.info, r.info, r.random, r.pos, o);
    RenumberedSets(s.info, r.info, o, s.nNew);
    RenumberedEntries(s.info, r.info, o);
  }

  lemma RenumberedEntries(info: map<int, Entry>, r: map<int, Entry>, o: seq<int>)
    requires Live(info, {}) && TimesOk(info) && SameInfo(info, r, o)
    ensures Live(r, {}) && TimesOk(r) && forall j :: j in r ==> 0 <= j < |o|
  {
    forall j | j in r
      ensures r[j].nLastTry >= 0 && r[j].nLastSuccess >= 0 && (r[j].fInTried ==> r[j].nLastSuccess > 0 && r[j].nRefCount == 0)
      ensures !r[j].fInTried ==> 1 <= r[j].nRefCount <= NEW_BUCKETS_PER_ADDRESS
    {
      var id := o[j];
      assert id in info;
      assert r[j] == info[id].(nLastTry := 0);
    }
  }

  lemma RenumberedAddr(info: map<int, Entry>, addr: map<NetAddr, int>, rinfo: map<int, Entry>, raddr: map<NetAddr, int>, o: seq<int>, m: int)
    requires AddrOk(info, addr) && Lists(info, o, m) && SameInfo(info, rinfo, o) && SameIndex(addr, raddr, o)
    ensures AddrOk(rinfo, raddr)
  {
    forall j | j in rinfo ensures rinfo[j].service.addr in raddr && raddr[rinfo[j].service.addr] == j {
      var a := info[o[j]].service.addr;
      assert rinfo[j].service.addr == a;
      assert addr[a] == o[j];
      assert a in addr.Keys;
      assert o[raddr[a]] == o[j];
    }
  }

  lemma RenumberedTried(e: Env, info: map<int, Entry>, tried: map<Slot, int>, rinfo: map<int, Entry>, rtried: map<Slot, int>, o: seq<int>, m: int)
    requires TriedOk(e, info, tried) && Lists(info, o, m) && SameInfo(info, rinfo, o) && SameIndex(tried, rtried, o)
    ensures TriedOk(e, rinfo, rtried)
  {
    hide TriedSlot;
    forall j | j in rinfo && rinfo[j].fInTried
      ensures TriedSlot(e, rinfo[j].service) in rtried && rtried[TriedSlot(e, rinfo[j].service)] == j
    {
      var slot := TriedSlot(e, info[o[j]].service);
      assert slot in tried.Keys;
      assert o[rtried[slot]] == tried[slot] == o[j];
    }
  }

  lemma RenumberedNews(e: Env, info: map<int, Entry>, news: map<Slot, int>, rinfo: map<int, Entry>, rnews: map<Slot, int>, o: seq<int>, m: int)
    requires NewOk(e, info, news) && Lists(info, o, m) && SameInfo(info, rinfo, o) && SameIndex(news, rnews, o)
    ensures NewOk(e, rinfo, rnews)
  {
    hide Position;
    forall j | j in rinfo ensures rinfo[j].nRefCount == |Slots(rnews, j)| {
      forall slot ensures slot in Slots(rnews, j) <==> slot in Slots(news, o[j]) {
        assert slot in rnews.Keys <==> slot in news.Keys;
        if slot in rnews && rnews[slot] != j {
          assert o[rnews[slot]] != o[j];
        }
      }
      assert Slots(rnews, j) == Slots(news, o[j]);
    }
    forall slot | slot in rnews
      ensures 0 <= slot.0 < NEW_BUCKET_COUNT && rnews[slot] in rinfo && slot.1 == Position(e, true, slot.0, rinfo[rnews[slot]].service)
    {
      assert slot in news.Keys;
    }
  }

  lemma RenumberedRandom(info: map<int, Entry>, r: map<int, Entry>, random: seq<int>, pos: map<int, int>, o: seq<int>)
    requires RandomBack(random, pos, |o|) && SameInfo(info, r, o)
    ensures RandomOk(random, pos) && pos.Keys == r.Keys
  {
    forall j | j in pos.Keys ensures j in random {
      assert random[j] == j;
    }
    ListSize(random, pos.Keys);
    forall j ensures j in pos.Keys <==> j in r.Keys {
    }
  }

  lemma RenumberedSets(info: map<int, Entry>, r: map<int, Entry>, o: seq<int>, m: int)
    requires Lists(info, o, m) && SameInfo(info, r, o)
    ensures |NewIds(r)| == |NewIds(info)| && |TriedIds(r)| == |TriedIds(info)|
  {
    forall id | id in info ensures if info[id].fInTried then id in o[m..] else id in o[..m] {
      var i :| 0 <= i < |o| && o[i] == id;
      assert if i < m then o[..m][i] == id else o[m..][i - m] == id;
    }
    assert o[0..m] == o[..m] && o[m..|o|] == o[m..];
    PartSize(info, r, o, m, 0, m, NewIds(info), NewIds(r));
    PartSize(info, r, o, m, m, |o|, TriedIds(info), TriedIds(r));
  }

  lemma PartSize(info: map<int, Entry>, r: map<int, Entry>, o: seq<int>, m: int, lo: nat, hi: nat, ids: set<int>, rids: set<int>)
    requires Lists(info, o, m) && SameInfo(info, r, o) && lo <= hi <= |o|
    requires forall id :: id in ids <==> id in info && id in o[lo..hi]
    requires forall j :: j in rids <==> lo <= j < hi
    ensures |ids| == |rids|
  {
    var part := o[lo..hi];
    forall i | 0 <= i < |part| ensures part[i] in ids {
      assert part[i] == o[lo + i];
    }
    ListSize(part, ids);
    var js := seq(hi - lo, i => lo + i);
    forall j | j in rids ensures j in js {
      assert js[j - lo] == j;
    }
    ListSize(js, rids);
  }

  lemma AllHeld(e: Env, s: State)
    requires Consistent(e, s)
    ensures forall id :: !Unheld(s, id)
  {
    hide RandomOk;
    hide AddrOk;
    hide TriedOk;
    hide NewOk;
  }

  /** Saving a consistent manager and restoring it gives the manager back, consistent and equal but for the names of
      ids, the random order and the times of last tries. */
  lemma RestoreInvertsSave(e: Env, s: State)
    requires Consistent(e, s)
    ensures var f := Saving(e.key, s);
            && Complete(f) && f.nKey == e.key && f.nKeySize == 32
            && Renumbers(s, Restored(e.h, f), Listing(s)) && Consistent(e, Restored(e.h, f))
  {
    hide RandomOk;
    hide AddrOk;
    hide TriedOk;
    hide NewOk;
    hide Renumbers;
    hide Loaded;
    hide Order;
    hide Records;
    hide Rows;
    hide Pruned;
    hide Live;
    var f := Saving(e.key, s);
    var r := Loaded(e.h, f);
    LoadedBack(e, s);
    SavedComplete(e, s);
    RenumberKeeps(e, s, r, Listing(s));
    AllHeld(e, r);
    NothingPruned(r, r.nIdCount);
  }
}
