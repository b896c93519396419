/**
 Restoring files that no manager need have written: from another number of buckets, from a
 later format, with entries that compete for slots, or with one address twice. Whatever a
 file holds, all indexes of the restored manager but that of the addresses agree; the whole
 manager is consistent exactly under a condition on the file.
 */
module AddrRestore {
  import opened AddrState
  import opened AddrStore
  import AddrOps

  // ---- what of a file is kept

  /** The records of a file in the order they are read. */
  function AllRecords(f: File): (r: seq<Saved>) {
    f.news + f.trieds
  }

  /** A record of a tried entry is entered if no earlier one has its slot. */
  predicate Entered(e: Env, trieds: seq<Saved>, n: int) {
    0 <= n < |trieds| && forall m :: 0 <= m < n ==> TriedSlot(e, trieds[m].service) != TriedSlot(e, trieds[n].service)
  }

  /** Without usable rows: the slot of its source goes to the first new record that wants it. */
  function BySource(e: Env, news: seq<Saved>): (t: map<Slot, int>) {
    if news == [] then map[]
    else
      var n := |news| - 1;
      var t, slot := BySource(e, news[..n]), NewSlot(e, news[n].service, news[n].source);
      if slot in t then t else t[slot := n]
  }

  /** With usable rows: a reference is kept if it is to a record with fewer than eight so far, and its slot is free. */
  function ByIndex(e: Env, news: seq<Saved>, t: map<Slot, int>, b: int, x: int): (r: map<Slot, int>) {
    if 0 <= x < |news| && (b, Position(e, true, b, news[x].service)) !in t && |Slots(t, x)| < NEW_BUCKETS_PER_ADDRESS
    then t[(b, Position(e, true, b, news[x].service)) := x]
    else t
  }

  function ByRow(e: Env, news: seq<Saved>, t: map<Slot, int>, b: int, row: seq<int>): (r: map<Slot, int>) {
    if row == [] then t else ByIndex(e, news, ByRow(e, news, t, b, row[..|row| - 1]), b, row[|row| - 1])
  }

  function ByRows(e: Env, news: seq<Saved>, rows: seq<seq<int>>): (t: map<Slot, int>) {
    if rows == [] then map[]
    else ByRow(e, news, ByRows(e, news, rows[..|rows| - 1]), |rows| - 1, rows[|rows| - 1])
  }

  /** The slots a file gives its new records. */
  function NewTable(e: Env, f: File): (t: map<Slot, int>) {
    if Usable(f) then ByRows(e, f.news, f.rows) else BySource(e, f.news)
  }

  /** A record that becomes an entry, at first. */
  predicate Read(e: Env, f: File, n: int) {
    0 <= n < |f.news| || Entered(e, f.trieds, n - |f.news|)
  }

  /** A record whose entry ends in a table. */
  predicate Placed(e: Env, f: File, n: int) {
    if 0 <= n < |f.news| then exists slot :: slot in NewTable(e, f) && NewTable(e, f)[slot] == n else Entered(e, f.trieds, n - |f.news|)
  }

  /** What makes a file restorable: a key, sensible times of the records that end in a table, and no other record read
      that has the address of one of them. */
  ghost predicate Restorable(e: Env, f: File) {
    var rs := AllRecords(f);
    && e.key != 0
    && (forall n :: Placed(e, f, n) ==> rs[n].nLastSuccess >= if n < |f.news| then 0 else 1)
    && (forall m, n :: Placed(e, f, m) && Read(e, f, n) && m != n ==> rs[m].service.addr != rs[n].service.addr)
  }

  // ---- agreement without addresses

  /** All indexes but that of the addresses agree, except that entries in limbo may be in no table. */
  ghost predicate Agrees(e: Env, s: State, limbo: set<int>) {
    IdsOk(s) && RandomOk(s.random, s.pos) && TriedOk(e, s.info, s.tried) && NewOk(e, s.info, s.news) && Live(s.info, limbo)
  }

  /** An address leads to the entry read last. */
  ghost predicate LeadsToLast(info: map<int, Entry>, addr: map<NetAddr, int>) {
    && (forall id :: id in info ==> info[id].service.addr in addr && id <= addr[info[id].service.addr])
    && (forall a :: a in addr ==> addr[a] in info && info[addr[a]].service.addr == a)
  }

  lemma LastEnters(info: map<int, Entry>, addr: map<NetAddr, int>, id: int, n: Entry)
    requires LeadsToLast(info, addr) && forall x :: x in info ==> x < id
    ensures LeadsToLast(info[id := n], addr[n.service.addr := id])
  {}

  lemma LastShape(a: map<int, Entry>, b: map<int, Entry>, addr: map<NetAddr, int>)
    requires LeadsToLast(a, addr) && SameShape(a, b)
    ensures LeadsToLast(b, addr)
  {
    forall x ensures x in b <==> x in a {
      assert x in b.Keys <==> x in a.Keys;
    }
  }

  /** An entry that no table holds yet. */
  lemma EnterAgrees(e: Env, s: State, n: Entry)
    requires Agrees(e, s, s.info.Keys) && LeadsToLast(s.info, s.addr) && !n.fInTried && n.nRefCount == 0
    ensures var w := Enter(s, s.nIdCount, n).(nIdCount := s.nIdCount + 1);
            && Agrees(e, w, w.info.Keys) && LeadsToLast(w.info, w.addr)
            && |NewIds(w.info)| == |NewIds(s.info)| + 1 && |TriedIds(w.info)| == |TriedIds(s.info)|
  {
    hide RandomOk;
    hide LeadsToLast;
    hide TriedOk;
    hide NewOk;
    hide Live;
    hide NewIds;
    hide TriedIds;
    var id := s.nIdCount;
    LastEnters(s.info, s.addr, id, n);
    assert id !in s.info;
    EnterKeepsIndexed(s, id, n);
    AddEntryTables(e, s.info, s.tried, s.news, s.info.Keys, id, n);
    IdSetsGrow(s.info, id, n);
    assert s.info[id := n].Keys == s.info.Keys + {id};
  }

  /** A new slot for a new entry. */
  lemma SlotAgrees(e: Env, s: State, id: int, slot: Slot)
    requires Agrees(e, s, s.info.Keys) && LeadsToLast(s.info, s.addr)
    requires id in s.info && !s.info[id].fInTried && s.info[id].nRefCount < NEW_BUCKETS_PER_ADDRESS
    requires slot !in s.news && 0 <= slot.0 < NEW_BUCKET_COUNT && slot.1 == Position(e, true, slot.0, s.info[id].service)
    ensures var w := s.(news := s.news[slot := id], info := WithRefs(s.info, id, s.info[id].nRefCount + 1));
            && Agrees(e, w, w.info.Keys) && LeadsToLast(w.info, w.addr)
            && NewIds(w.info) == NewIds(s.info) && TriedIds(w.info) == TriedIds(s.info)
  {
    var m := s.info[id].nRefCount + 1;
    var w := s.(news := s.news[slot := id], info := WithRefs(s.info, id, m));
    SlotKeeps(e, s.info, s.news, slot, id);
    WithRefsShape(s.info, id, m);
    SameShapeSets(s.info, w.info);
    SameShapeTried(e, s.info, w.info, s.tried);
    LastShape(s.info, w.info, s.addr);
    AddrOps.LiveSlotted(s.info, s.info.Keys, id);
    LiveShrinks(w.info, s.info.Keys - {id}, w.info.Keys);
    hide RandomOk;
    hide LeadsToLast;
    hide TriedOk;
    hide NewOk;
    hide Live;
    hide SameShape;
    hide NewIds;
    hide TriedIds;
    hide Position;
  }

  /** An entry that no table holds takes its tried slot, which is free. */
  lemma TryAgrees(e: Env, s: State, id: int)
    requires Agrees(e, s, s.info.Keys) && LeadsToLast(s.info, s.addr)
    requires id in s.info && !s.info[id].fInTried && s.info[id].nRefCount == 0 && TriedSlot(e, s.info[id].service) !in s.tried
    ensures var w := AddrOps.Promoted(e, s, id);
            && Agrees(e, w, w.info.Keys) && LeadsToLast(w.info, w.addr)
            && |NewIds(w.info)| == |NewIds(s.info)| - 1 && |TriedIds(w.info)| == |TriedIds(s.info)| + 1
  {
    var w := AddrOps.Promoted(e, s, id);
    AddrOps.PromoteTables(e, s.info, s.tried, s.news, s.info.Keys, id);
    AddrOps.FlipSets(s.info, id);
    assert LeadsToLast(w.info, w.addr);
    assert w.info.Keys == s.info.Keys;
    LiveShrinks(w.info, s.info.Keys - {id}, w.info.Keys);
    hide RandomOk;
    hide LeadsToLast;
    hide TriedOk;
    hide NewOk;
    hide Live;
    hide TriedSlot;
    hide NewIds;
    hide TriedIds;
  }

  // ---- the stages of loading

  /** The entries of the first `n` new records, as they are read but for the references. */
  ghost predicate NewsRead(info: map<int, Entry>, news: seq<Saved>, n: int) {
    n <= |news| && forall x :: 0 <= x < n ==> x in info && info[x] == EntryOf(news[x]).(nRefCount := info[x].nRefCount)
  }

  /** After `n` new records. */
  ghost predicate NewsLoaded(e: Env, s: State, news: seq<Saved>, n: int) {
    && Agrees(e, s, s.info.Keys) && LeadsToLast(s.info, s.addr) && s.nIdCount == n
    && |NewIds(s.info)| == n && |TriedIds(s.info)| == 0 && s.tried == map[]
    && NewsRead(s.info, news, n) && forall x :: x in s.info ==> x < n
  }

  lemma LoadNewAgrees(e: Env, s: State, news: seq<Saved>, rebuild: bool)
    requires NewsLoaded(e, s, news, s.nIdCount) && s.nIdCount < |news|
    ensures var w := LoadNew(e, s, s.nIdCount, news[s.nIdCount], rebuild).(nIdCount := s.nIdCount + 1);
            NewsLoaded(e, w, news, s.nIdCount + 1)
  {
    hide Agrees;
    hide LeadsToLast;
    hide NewIds;
    hide TriedIds;
    hide Position;
    hide NewBucket;
    var id, r := s.nIdCount, news[s.nIdCount];
    var slot := NewSlot(e, r.service, r.source);
    var w := Enter(s, id, EntryOf(r)).(nIdCount := id + 1);
    EnterAgrees(e, s, EntryOf(r));
    if rebuild && slot !in s.news {
      SlotAgrees(e, w, id, slot);
      assert s.info[id := EntryOf(r).(nRefCount := 1)] == WithRefs(w.info, id, 1);
    }
  }

  lemma NothingLoaded(e: Env, s: State, news: seq<Saved>)
    requires s == EMPTY.(nNew := s.nNew, nTried := s.nTried)
    ensures NewsLoaded(e, s, news, 0)
  {
    assert NewIds(s.info) == {} && TriedIds(s.info) == {};
  }

  /** Loading an entry does not look at the next id or the counters. */
  lemma LoadNewFields(e: Env, v: State, id: int, r: Saved, rebuild: bool)
    ensures var w := LoadNew(e, v, id, r, rebuild);
            && w.nNew == v.nNew && w.nTried == v.nTried
            && forall k: int :: LoadNew(e, v.(nIdCount := k), id, r, rebuild) == w.(nIdCount := k)
    ensures var slot := NewSlot(e, r.service, r.source);
            LoadNew(e, v, id, r, rebuild).news == if rebuild && slot !in v.news then v.news[slot := id] else v.news
  {
    hide NewSlot;
  }

  lemma {:induction false} LoadNewsAgrees(e: Env, s: State, news: seq<Saved>, n: nat, rebuild: bool)
    requires s == EMPTY.(nNew := s.nNew, nTried := s.nTried) && n <= |news|
    ensures NewsLoaded(e, LoadNews(e, s, news[..n], rebuild).(nIdCount := n), news, n)
    ensures var w := LoadNews(e, s, news[..n], rebuild); w.nNew == s.nNew && w.nTried == s.nTried
    ensures LoadNews(e, s, news[..n], rebuild).news == if rebuild then BySource(e, news[..n]) else map[]
  {
    hide NewsLoaded;
    hide LoadNew;
    hide NewSlot;
    if n == 0 {
      NothingLoaded(e, s, news);
    } else {
      LoadNewsAgrees(e, s, news, n - 1, rebuild);
      assert news[..n][..n - 1] == news[..n - 1];
      var v := LoadNews(e, s, news[..n - 1], rebuild);
      LoadNewAgrees(e, v.(nIdCount := n - 1), news, rebuild);
      LoadNewFields(e, v, n - 1, news[n - 1], rebuild);
    }
  }

  /** The tried table holds the first record for each slot, among the first `k`. */
  ghost predicate TriedsRead(e: Env, info: map<int, Entry>, tried: map<Slot, int>, trieds: seq<Saved>, k: int) {
    && (forall n :: 0 <= n < k && Entered(e, trieds, n) ==>
          var slot := TriedSlot(e, trieds[n].service);
          slot in tried && tried[slot] in info && info[tried[slot]] == EntryOf(trieds[n]).(fInTried := true))
    && (forall slot :: slot in tried ==> exists n :: 0 <= n < k && Entered(e, trieds, n) && TriedSlot(e, trieds[n].service) == slot)
  }

  /** After `k` tried records: what is in the table is counted, with the rest to come. */
  ghost predicate TriedsLoaded(e: Env, s: State, f: File, k: int) {
    && Agrees(e, s, s.info.Keys) && LeadsToLast(s.info, s.addr) && |f.news| <= s.nIdCount
    && |NewIds(s.info)| == |f.news| == s.nNew && s.nTried == |TriedIds(s.info)| + |f.trieds| - k
    && NewsRead(s.info, f.news, |f.news|) && (forall x :: x in s.info && x >= |f.news| ==> s.info[x].fInTried)
    && TriedsRead(e, s.info, s.tried, f.trieds, k)
  }

  /** A slot is taken exactly if an earlier record has it. */
  lemma {:induction false} FirstEntered(e: Env, trieds: seq<Saved>, n: int) returns (m: int)
    requires 0 <= n < |trieds|
    ensures 0 <= m <= n && Entered(e, trieds, m) && TriedSlot(e, trieds[m].service) == TriedSlot(e, trieds[n].service)
    decreases n
  {
    if Entered(e, trieds, n) {
      m := n;
    } else {
      var i :| 0 <= i < n && TriedSlot(e, trieds[i].service) == TriedSlot(e, trieds[n].service);
      m := FirstEntered(e, trieds, i);
    }
  }

  lemma SlotTaken(e: Env, info: map<int, Entry>, tried: map<Slot, int>, trieds: seq<Saved>, k: int)
    requires TriedsRead(e, info, tried, trieds, k) && 0 <= k < |trieds|
    ensures TriedSlot(e, trieds[k].service) in tried <==> !Entered(e, trieds, k)
  {
    hide TriedSlot;
    if !Entered(e, trieds, k) {
      var m := FirstEntered(e, trieds, k);
    }
  }

  lemma TriedEntersRead(e: Env, info: map<int, Entry>, tried: map<Slot, int>, trieds: seq<Saved>, k: int, id: int)
    requires TriedsRead(e, info, tried, trieds, k) && Entered(e, trieds, k) && id !in info
    ensures TriedsRead(e, info[id := EntryOf(trieds[k]).(fInTried := true)], tried[TriedSlot(e, trieds[k].service) := id], trieds, k + 1)
  {
    hide TriedSlot;
    var tried' := tried[TriedSlot(e, trieds[k].service) := id];
    forall slot | slot in tried'
      ensures exists n :: 0 <= n < k + 1 && Entered(e, trieds, n) && TriedSlot(e, trieds[n].service) == slot
    {
      if slot in tried {
        var n :| 0 <= n < k && Entered(e, trieds, n) && TriedSlot(e, trieds[n].service) == slot;
        assert Entered(e, trieds, n);
      } else {
        assert Entered(e, trieds, k);
      }
    }
  }

  lemma TriedSkipsRead(e: Env, info: map<int, Entry>, tried: map<Slot, int>, trieds: seq<Saved>, k: int)
    requires TriedsRead(e, info, tried, trieds, k) && !Entered(e, trieds, k)
    ensures TriedsRead(e, info, tried, trieds, k + 1)
  {
    hide TriedSlot;
    hide Entered;
  }

  lemma LoadTriedAgrees(e: Env, s: State, f: File, k: nat)
    requires TriedsLoaded(e, s, f, k) && k < |f.trieds|
    ensures var w := LoadTried(e, s, f.trieds[k]); TriedsLoaded(e, w, f, k + 1) && w.news == s.news
  {
    hide RandomOk;
    hide TriedOk;
    hide NewOk;
    hide Live;
    hide LeadsToLast;
    hide NewIds;
    hide TriedIds;
    hide TriedSlot;
    hide TriedsRead;
    hide Entered;
    var r, id := f.trieds[k], s.nIdCount;
    SlotTaken(e, s.info, s.tried, f.trieds, k);
    if !Entered(e, f.trieds, k) {
      TriedSkipsRead(e, s.info, s.tried, f.trieds, k);
    } else {
      EnterAgrees(e, s, EntryOf(r));
      var v := Enter(s, id, EntryOf(r)).(nIdCount := id + 1);
      TryAgrees(e, v, id);
      TriedEntersRead(e, s.info, s.tried, f.trieds, k, id);
      assert s.info[id := EntryOf(r).(fInTried := true)] == v.info[id := v.info[id].(fInTried := true)];
    }
  }

  lemma {:induction false} LoadTriedsAgrees(e: Env, s: State, f: File, k: nat)
    requires k <= |f.trieds| && TriedsLoaded(e, s, f, 0)
    ensures var w := LoadTrieds(e, s, f.trieds[..k]); TriedsLoaded(e, w, f, k) && w.news == s.news
  {
    hide TriedsLoaded;
    hide LoadTried;
    if k > 0 {
      LoadTriedsAgrees(e, s, f, k - 1);
      assert f.trieds[..k][..k - 1] == f.trieds[..k - 1];
      LoadTriedAgrees(e, LoadTrieds(e, s, f.trieds[..k - 1]), f, k - 1);
    }
  }

  /** With all records read, and these references so far. */
  ghost predicate RowsLoaded(e: Env, s: State, f: File, t: map<Slot, int>) {
    TriedsLoaded(e, s, f, |f.trieds|) && s.news == t
  }

  /** References of new entries do not matter to the tried table. */
  lemma TriedsReadSame(e: Env, a: map<int, Entry>, b: map<int, Entry>, tried: map<Slot, int>, trieds: seq<Saved>, k: int)
    requires TriedsRead(e, a, tried, trieds, k) && TriedOk(e, a, tried)
    requires forall x :: x in a && a[x].fInTried ==> x in b && b[x] == a[x]
    ensures TriedsRead(e, b, tried, trieds, k)
  {
    hide TriedSlot;
    forall n | 0 <= n < k && Entered(e, trieds, n)
      ensures var slot := TriedSlot(e, trieds[n].service);
              slot in tried && tried[slot] in b && b[tried[slot]] == EntryOf(trieds[n]).(fInTried := true)
    {
      var x := tried[TriedSlot(e, trieds[n].service)];
      assert x in a && a[x].fInTried;
      assert x in b;
    }
  }

  lemma LoadIndexAgrees(e: Env, s: State, f: File, t: map<Slot, int>, b: int, x: int)
    requires RowsLoaded(e, s, f, t) && 0 <= b < NEW_BUCKET_COUNT
    ensures RowsLoaded(e, LoadIndex(e, s, |f.news|, true, b, x), f, ByIndex(e, f.news, t, b, x))
  {
    hide RandomOk;
    hide TriedOk;
    hide Live;
    hide LeadsToLast;
    hide NewIds;
    hide TriedIds;
    hide TriedsRead;
    hide Position;
    hide Slots;
    if 0 <= x < |f.news| {
      var slot := (b, Position(e, true, b, s.info[x].service));
      if slot !in s.news && s.info[x].nRefCount < NEW_BUCKETS_PER_ADDRESS {
        SlotAgrees(e, s, x, slot);
        TriedsReadSame(e, s.info, WithRefs(s.info, x, s.info[x].nRefCount + 1), s.tried, f.trieds, |f.trieds|);
      }
    }
  }

  lemma {:induction false} LoadRowAgrees(e: Env, s: State, f: File, t: map<Slot, int>, b: int, row: seq<int>)
    requires RowsLoaded(e, s, f, t) && 0 <= b < NEW_BUCKET_COUNT
    ensures RowsLoaded(e, LoadRow(e, s, |f.news|, true, b, row), f, ByRow(e, f.news, t, b, row))
  {
    hide RowsLoaded;
    hide LoadIndex;
    hide ByIndex;
    if row != [] {
      var n := |row| - 1;
      LoadRowAgrees(e, s, f, t, b, row[..n]);
      LoadIndexAgrees(e, LoadRow(e, s, |f.news|, true, b, row[..n]), f, ByRow(e, f.news, t, b, row[..n]), b, row[n]);
    }
  }

  lemma {:induction false} LoadRowsAgrees(e: Env, s: State, f: File, rows: seq<seq<int>>)
    requires RowsLoaded(e, s, f, map[]) && |rows| <= NEW_BUCKET_COUNT
    ensures RowsLoaded(e, LoadRows(e, s, |f.news|, true, rows), f, ByRows(e, f.news, rows))
  {
    hide RowsLoaded;
    hide LoadRow;
    hide ByRow;
    if rows != [] {
      var n := |rows| - 1;
      LoadRowsAgrees(e, s, f, rows[..n]);
      LoadRowAgrees(e, LoadRows(e, s, |f.news|, true, rows[..n]), f, ByRows(e, f.news, rows[..n]), n, rows[n]);
    }
  }

  lemma {:induction false} RowIgnored(e: Env, s: State, nNew: int, b: int, row: seq<int>)
    ensures LoadRow(e, s, nNew, false, b, row) == s
  {
    if row != [] {
      RowIgnored(e, s, nNew, b, row[..|row| - 1]);
    }
  }

  lemma {:induction false} RowsIgnored(e: Env, s: State, nNew: int, rows: seq<seq<int>>)
    ensures LoadRows(e, s, nNew, false, rows) == s
  {
    if rows != [] {
      var n := |rows| - 1;
      RowsIgnored(e, s, nNew, rows[..n]);
      RowIgnored(e, s, nNew, n, rows[n]);
    }
  }

  lemma TriedsStart(e: Env, s: State, f: File)
    requires NewsLoaded(e, s, f.news, |f.news|) && s.nNew == |f.news| && s.nTried == |f.trieds|
    ensures TriedsLoaded(e, s, f, 0)
  {
    hide Agrees;
    hide LeadsToLast;
    hide NewIds;
    hide TriedIds;
  }

  /** Whatever a complete file holds, before pruning all indexes but that of the addresses agree, and the entries are
      those the file says. */
  lemma LoadedAgrees(h: Hasher, f: File)
    requires Complete(f)
    ensures RowsLoaded(Env(h, f.nKey), Loaded(h, f), f, NewTable(Env(h, f.nKey), f))
  {
    var e := Env(h, f.nKey);
    hide TriedsLoaded;
    hide NewsLoaded;
    hide LoadNews;
    hide LoadTrieds;
    hide LoadRows;
    hide ByRows;
    hide BySource;
    var s0 := EMPTY.(nNew := f.nNew, nTried := f.nTried);
    LoadNewsAgrees(e, s0, f.news, |f.news|, !Usable(f));
    assert f.news[..|f.news|] == f.news && f.trieds[..|f.trieds|] == f.trieds;
    var s1 := LoadNews(e, s0, f.news, !Usable(f)).(nIdCount := f.nNew);
    TriedsStart(e, s1, f);
    LoadTriedsAgrees(e, s1, f, |f.trieds|);
    var s2 := LoadTrieds(e, s1, f.trieds);
    if Usable(f) {
      LoadRowsAgrees(e, s2, f, f.rows);
    } else {
      RowsIgnored(e, s2, f.nNew, f.rows);
    }
  }

  // ---- pruning

  /** An entry below `k` with this address is pruned. */
  ghost predicate Drops(s: State, k: int, a: NetAddr) {
    exists id :: 0 <= id < k && Unheld(s, id) && s.info[id].service.addr == a
  }

  ghost predicate InfoPruned(s: State, info: map<int, Entry>, k: int) {
    forall id :: (id in info <==> id in s.info && (id >= k || !Unheld(s, id))) && (id in info ==> info[id] == s.info[id])
  }

  ghost predicate AddrPruned(s: State, addr: map<NetAddr, int>, k: int) {
    forall a :: (a in addr <==> a in s.addr && !Drops(s, k, a)) && (a in addr ==> addr[a] == s.addr[a])
  }

  lemma DropsMore(s: State, k: nat, a: NetAddr)
    ensures Drops(s, k + 1, a) <==> Drops(s, k, a) || (Unheld(s, k) && s.info[k].service.addr == a)
  {
    if Drops(s, k + 1, a) {
      var id :| 0 <= id < k + 1 && Unheld(s, id) && s.info[id].service.addr == a;
      assert id == k || Drops(s, k, a);
    }
  }

  lemma AddrPrunes(s: State, addr: map<NetAddr, int>, k: nat)
    requires AddrPruned(s, addr, k)
    ensures AddrPruned(s, if Unheld(s, k) then addr - {s.info[k].service.addr} else addr, k + 1)
  {
    hide Drops;
    forall a ensures Drops(s, k + 1, a) <==> Drops(s, k, a) || (Unheld(s, k) && s.info[k].service.addr == a) {
      DropsMore(s, k, a);
    }
  }

  /** Pruning takes out exactly the entries that no table holds, and every address that one of them has. */
  lemma {:induction false} PrunedShape(s: State, k: nat)
    requires Indexed(s)
    ensures var r := Pruned(s, k);
            && InfoPruned(s, r.info, k) && AddrPruned(s, r.addr, k)
            && r.tried == s.tried && r.news == s.news && r.nTried == s.nTried && r.nIdCount == s.nIdCount
  {
    hide RandomOk;
    hide Deleted;
    hide AddrPruned;
    if k == 0 {
      NothingDropped(s);
    } else {
      PrunedShape(s, k - 1);
      var w := Pruned(s, k - 1);
      assert Unheld(w, k - 1) <==> Unheld(s, k - 1);
      AddrPrunes(s, w.addr, k - 1);
      if Unheld(w, k - 1) {
        DeletedFields(w, k - 1);
      }
    }
  }

  lemma NothingDropped(s: State)
    ensures AddrPruned(s, s.addr, 0)
  {}

  /** The ids from `k` on. */
  ghost function From(ids: set<int>, k: int): (r: set<int>) {
    set id | id in ids && id >= k
  }

  lemma DeleteAgrees(e: Env, s: State, limbo: set<int>, id: int)
    requires Agrees(e, s, limbo) && Counted(s, 0) && Unheld(s, id)
    ensures Agrees(e, Deleted(s, id), limbo - {id}) && Counted(Deleted(s, id), 0)
  {
    DeletedFields(s, id);
    DeleteKeepsRandom(s, id);
    RemoveEntryTables(e, s.info, s.tried, s.news, limbo, id);
    assert Deleted(s, id).nNew == s.nNew - 1;
    IdSetsShrink(s.info, id);
    hide Deleted;
    hide RandomOk;
    hide TriedOk;
    hide NewOk;
    hide Live;
    hide NewIds;
    hide TriedIds;
  }

  /** Pruning leaves in limbo only what it has not come to. */
  lemma {:induction false} PruneAgrees(e: Env, s: State, k: nat)
    requires Indexed(s) && Agrees(e, s, s.info.Keys) && Counted(s, 0)
    ensures var r := Pruned(s, k); Agrees(e, r, From(s.info.Keys, k)) && Counted(r, 0)
  {
    hide Agrees;
    hide Counted;
    hide Deleted;
    hide Indexed;
    hide From;
    if k == 0 {
      FromStart(s);
    } else {
      PruneAgrees(e, s, k - 1);
      var w := Pruned(s, k - 1);
      FromNext(s.info.Keys, k - 1);
      if Unheld(w, k - 1) {
        DeleteAgrees(e, w, From(s.info.Keys, k - 1), k - 1);
      } else {
        HeldAgrees(e, w, From(s.info.Keys, k - 1), k - 1);
      }
    }
  }

  lemma FromStart(s: State)
    requires Indexed(s)
    ensures From(s.info.Keys, 0) == s.info.Keys
  {
    hide RandomOk;
    forall id ensures id in From(s.info.Keys, 0) <==> id in s.info.Keys {
      if id in s.info.Keys {
        assert id in s.info;
      }
    }
  }

  lemma FromNext(ids: set<int>, k: int)
    ensures From(ids, k) - {k} == From(ids, k + 1)
  {}

  /** An entry that a table holds is out of limbo. */
  lemma HeldAgrees(e: Env, s: State, limbo: set<int>, id: int)
    requires Agrees(e, s, limbo) && !Unheld(s, id)
    ensures Agrees(e, s, limbo - {id})
  {
    hide RandomOk;
    hide TriedOk;
    hide Position;
    if id in s.info {
      assert s.info[id].nRefCount >= 0;
    }
  }

  // ---- the entries, exactly

  /** Entries that a table holds have sensible times, and their addresses to themselves. */
  ghost predicate Sane(e: Env, s: State) {
    && e.key != 0
    && (forall id :: id in s.info && !Unheld(s, id) ==>
          s.info[id].nLastTry >= 0 && s.info[id].nLastSuccess >= if s.info[id].fInTried then 1 else 0)
    && (forall x, y :: x in s.info && y in s.info && x != y && !Unheld(s, x) ==> s.info[x].service.addr != s.info[y].service.addr)
  }

  /** In a state that passes the check every entry left is the one its address leads to, so no other had that address. */
  lemma PassesOnlySane(e: Env, s: State, r: State)
    requires LeadsToLast(s.info, s.addr) && Indexed(s) && InfoPruned(s, r.info, s.nIdCount) && AddrPruned(s, r.addr, s.nIdCount)
    requires CheckPasses(e, r)
    ensures Sane(e, s)
  {
    hide RandomOk;
    hide TriedSlot;
    hide Position;
    hide Slots;
    forall x | x in s.info && !Unheld(s, x)
      ensures x in r.info && r.info[x] == s.info[x] && s.addr[s.info[x].service.addr] == x
      ensures !Drops(s, s.nIdCount, s.info[x].service.addr)
    {
      assert r.info[x].service.addr in r.addr && r.addr[r.info[x].service.addr] == x;
    }
    forall y | Unheld(s, y) ensures Drops(s, s.nIdCount, s.info[y].service.addr) {
      assert y in s.info;
    }
  }

  lemma SaneAddresses(e: Env, s: State, r: State)
    requires LeadsToLast(s.info, s.addr) && Indexed(s) && InfoPruned(s, r.info, s.nIdCount) && AddrPruned(s, r.addr, s.nIdCount)
    requires Sane(e, s)
    ensures AddrOk(r.info, r.addr) && TimesOk(r.info)
  {
    hide RandomOk;
    forall id | id in r.info ensures r.info[id].service.addr in r.addr && r.addr[r.info[id].service.addr] == id {
      var a := s.info[id].service.addr;
      assert !Unheld(s, id);
      assert !Drops(s, s.nIdCount, a);
      assert s.addr[a] in s.info && s.info[s.addr[a]].service.addr == a;
    }
    forall a | a in r.addr ensures r.addr[a] in r.info && r.info[r.addr[a]].service.addr == a {
      var id := s.addr[a];
      assert Unheld(s, id) ==> Drops(s, s.nIdCount, a);
    }
  }

  lemma SaneIsConsistent(e: Env, s: State)
    requires Indexed(s) && Agrees(e, s, s.info.Keys) && LeadsToLast(s.info, s.addr) && Counted(s, 0) && Sane(e, s)
    ensures Consistent(e, Pruned(s, s.nIdCount))
  {
    hide RandomOk;
    hide AddrOk;
    hide TriedOk;
    hide NewOk;
    hide Live;
    hide TimesOk;
    hide Counted;
    hide LeadsToLast;
    hide InfoPruned;
    hide AddrPruned;
    PrunedShape(s, s.nIdCount);
    PruneAgrees(e, s, s.nIdCount);
    SaneAddresses(e, s, Pruned(s, s.nIdCount));
    NoneFrom(s);
  }

  /** With everything looked at, nothing is in limbo. */
  lemma NoneFrom(s: State)
    requires Indexed(s)
    ensures From(s.info.Keys, s.nIdCount) == {}
  {
    hide RandomOk;
    forall id ensures id !in From(s.info.Keys, s.nIdCount) {
      if id in s.info.Keys {
        assert id in s.info;
      }
    }
  }

  // ---- the records, exactly

  /** The id a record gets. */
  ghost function RecordId(e: Env, s: State, f: File, n: int): (id: int)
    requires Read(e, f, n) && (n >= |f.news| ==> TriedSlot(e, f.trieds[n - |f.news|].service) in s.tried)
  {
    if n < |f.news| then n else s.tried[TriedSlot(e, f.trieds[n - |f.news|].service)]
  }

  /** The entry of a record is what it says, and in a table exactly if the file gives it a place. */
  lemma RecordRead(e: Env, s: State, f: File, n: int)
    requires RowsLoaded(e, s, f, NewTable(e, f)) && Read(e, f, n)
    ensures n >= |f.news| ==> TriedSlot(e, f.trieds[n - |f.news|].service) in s.tried
    ensures var id, r := RecordId(e, s, f, n), AllRecords(f)[n];
            && id in s.info && s.info[id].service == r.service && s.info[id].nLastSuccess == r.nLastSuccess && s.info[id].nLastTry == 0
            && (s.info[id].fInTried <==> n >= |f.news|) && (Unheld(s, id) <==> !Placed(e, f, n))
  {
    hide RandomOk;
    hide LeadsToLast;
    hide Live;
    hide TriedIds;
    hide NewIds;
    hide TriedSlot;
    hide Position;
    hide NewTable;
    if n < |f.news| {
      if slot :| slot in s.news && s.news[slot] == n {
        assert slot in Slots(s.news, n);
      } else {
        assert Slots(s.news, n) == {};
      }
    }
  }

  lemma RecordsDiffer(e: Env, s: State, f: File, m: int, n: int)
    requires RowsLoaded(e, s, f, NewTable(e, f)) && Read(e, f, m) && Read(e, f, n) && m != n
    ensures m >= |f.news| ==> TriedSlot(e, f.trieds[m - |f.news|].service) in s.tried
    ensures n >= |f.news| ==> TriedSlot(e, f.trieds[n - |f.news|].service) in s.tried
    ensures RecordId(e, s, f, m) != RecordId(e, s, f, n)
  {
    RecordRead(e, s, f, m);
    RecordRead(e, s, f, n);
    hide Agrees;
    hide LeadsToLast;
    hide TriedIds;
    hide NewIds;
    hide TriedSlot;
    hide NewTable;
    hide Placed;
    assert TriedOk(e, s.info, s.tried) by { OnlyTried(e, s, f); }
  }

  lemma OnlyTried(e: Env, s: State, f: File)
    requires RowsLoaded(e, s, f, NewTable(e, f))
    ensures TriedOk(e, s.info, s.tried) && forall id :: id in s.info ==> id >= 0
  {}

  /** Every entry comes from a record. */
  lemma EntryRecord(e: Env, s: State, f: File, id: int) returns (n: int)
    requires RowsLoaded(e, s, f, NewTable(e, f)) && id in s.info
    ensures Read(e, f, n) && (n >= |f.news| ==> TriedSlot(e, f.trieds[n - |f.news|].service) in s.tried)
    ensures RecordId(e, s, f, n) == id
  {
    OnlyTried(e, s, f);
    hide Agrees;
    hide LeadsToLast;
    hide TriedIds;
    hide NewIds;
    hide TriedSlot;
    hide NewTable;
    if id < |f.news| {
      n := id;
    } else {
      var slot := TriedSlot(e, s.info[id].service);
      var m :| 0 <= m < |f.trieds| && Entered(e, f.trieds, m) && TriedSlot(e, f.trieds[m].service) == slot;
      n := |f.news| + m;
    }
  }

  lemma SaneIsRestorable(e: Env, s: State, f: File)
    requires RowsLoaded(e, s, f, NewTable(e, f))
    ensures Sane(e, s) <==> Restorable(e, f)
  {
    hide RowsLoaded;
    hide NewTable;
    hide Unheld;
    hide RecordId;
    hide TriedSlot;
    if Sane(e, s) {
      forall n | Placed(e, f, n) ensures AllRecords(f)[n].nLastSuccess >= if n < |f.news| then 0 else 1 {
        PlacedIsRead(e, f, n);
        RecordRead(e, s, f, n);
      }
      forall m, n | Placed(e, f, m) && Read(e, f, n) && m != n
        ensures AllRecords(f)[m].service.addr != AllRecords(f)[n].service.addr
      {
        PlacedIsRead(e, f, m);
        RecordRead(e, s, f, m);
        RecordRead(e, s, f, n);
        RecordsDiffer(e, s, f, m, n);
      }
    }
    if Restorable(e, f) {
      forall id | id in s.info && !Unheld(s, id)
        ensures s.info[id].nLastTry >= 0 && s.info[id].nLastSuccess >= if s.info[id].fInTried then 1 else 0
      {
        var n := EntryRecord(e, s, f, id);
        RecordRead(e, s, f, n);
      }
      forall x, y | x in s.info && y in s.info && x != y && !Unheld(s, x) ensures s.info[x].service.addr != s.info[y].service.addr {
        var m := EntryRecord(e, s, f, x);
        var n := EntryRecord(e, s, f, y);
        RecordRead(e, s, f, m);
        RecordRead(e, s, f, n);
      }
    }
  }

  lemma PlacedIsRead(e: Env, f: File, n: int)
    requires Placed(e, f, n)
    ensures Read(e, f, n)
  {}

  // ---- the whole

  /** For every complete file, of whatever version and number of buckets: the restored manager is consistent, and passes
      its own check, if and only if the file is restorable. */
  lemma RestoreIsExact(h: Hasher, f: File)
    requires Complete(f)
    ensures Consistent(Env(h, f.nKey), Restored(h, f)) <==> Restorable(Env(h, f.nKey), f)
    ensures CheckPasses(Env(h, f.nKey), Restored(h, f)) <==> Restorable(Env(h, f.nKey), f)
  {
    var e, s := Env(h, f.nKey), Loaded(h, f);
    hide Loaded;
    hide Agrees;
    hide LeadsToLast;
    hide Sane;
    hide Restorable;
    hide Consistent;
    hide CheckPasses;
    hide TriedsRead;
    hide NewsRead;
    LoadedAgrees(h, f);
    LoadedIndexed(h, f);
    SaneIsRestorable(e, s, f);
    var r := Restored(h, f);
    if Sane(e, s) {
      SaneIsConsistent(e, s);
      ConsistentPassesCheck(e, r);
    }
    if Consistent(e, r) {
      ConsistentPassesCheck(e, r);
    }
    if CheckPasses(e, r) {
      PrunedShape(s, s.nIdCount);
      PassesOnlySane(e, s, r);
    }
  }

  /** No address twice, and times that make sense: enough whatever the slots. */
  ghost predicate Sound(f: File) {
    && f.nKey != 0
    && (forall i, j :: 0 <= i < j < |AllRecords(f)| ==> AllRecords(f)[i].service.addr != AllRecords(f)[j].service.addr)
    && (forall i :: 0 <= i < |f.news| ==> f.news[i].nLastSuccess >= 0)
    && (forall i :: 0 <= i < |f.trieds| ==> f.trieds[i].nLastSuccess > 0)
  }

  lemma RestoreIsConsistent(h: Hasher, f: File)
    requires Complete(f) && Sound(f)
    ensures Consistent(Env(h, f.nKey), Restored(h, f))
  {
    hide Consistent;
    hide Restored;
    hide NewTable;
    hide TriedSlot;
    RestoreIsExact(h, f);
  }

  /** The same address twice breaks consistency if both records are of tried entries and get different slots, */
  lemma TwiceIsNotConsistent(h: Hasher, f: File)
    requires Complete(f) && |f.trieds| >= 2 && f.trieds[0].service.addr == f.trieds[1].service.addr
    requires TriedSlot(Env(h, f.nKey), f.trieds[0].service) != TriedSlot(Env(h, f.nKey), f.trieds[1].service)
    ensures !Consistent(Env(h, f.nKey), Restored(h, f))
  {
    hide Consistent;
    hide Restored;
    hide NewTable;
    hide TriedSlot;
    var e, n := Env(h, f.nKey), |f.news|;
    RestoreIsExact(h, f);
    assert Placed(e, f, n) && Read(e, f, n + 1);
    assert AllRecords(f)[n] == f.trieds[0] && AllRecords(f)[n + 1] == f.trieds[1];
  }

  /** but not if it is the very same record: the second one is lost. */
  lemma TwiceTheSameIsLost(h: Hasher, f: File)
    requires Complete(f) && f.nKey != 0 && f.news == [] && |f.trieds| == 2 && f.trieds[0] == f.trieds[1] && f.trieds[0].nLastSuccess > 0
    ensures Consistent(Env(h, f.nKey), Restored(h, f))
  {
    hide Consistent;
    hide Restored;
    hide NewTable;
    hide TriedSlot;
    var e := Env(h, f.nKey);
    RestoreIsExact(h, f);
    assert !Entered(e, f.trieds, 1);
  }

  function SourceSlot(e: Env, r: Saved): (slot: Slot) {
    NewSlot(e, r.service, r.source)
  }

  /** Each slot goes to the first record that wants it. */
  lemma {:induction false} FirstBySource(e: Env, news: seq<Saved>)
    ensures var t := BySource(e, news);
            && (forall m :: 0 <= m < |news| ==> SourceSlot(e, news[m]) in t)
            && (forall slot :: slot in t ==>
                  && 0 <= t[slot] < |news| && SourceSlot(e, news[t[slot]]) == slot
                  && forall m :: 0 <= m < t[slot] ==> SourceSlot(e, news[m]) != slot)
  {
    hide NewSlot;
    if news != [] {
      var n := |news| - 1;
      FirstBySource(e, news[..n]);
      assert forall m :: 0 <= m < n ==> news[..n][m] == news[m];
    }
  }

  /** Without usable rows a new record is placed exactly if no earlier one has the slot of its source. */
  lemma SourcePlaces(e: Env, f: File, n: int)
    requires !Usable(f) && 0 <= n < |f.news|
    ensures Placed(e, f, n) <==> forall m :: 0 <= m < n ==> SourceSlot(e, f.news[m]) != SourceSlot(e, f.news[n])
  {
    hide NewSlot;
    hide BySource;
    FirstBySource(e, f.news);
    var t, slot := NewTable(e, f), SourceSlot(e, f.news[n]);
    assert slot in t && (t[slot] < n ==> SourceSlot(e, f.news[t[slot]]) == slot);
  }
}
