/**
 The address manager (`CAddrMan`) as a value: five indexes over the same entries, and what
 its operations make of them. Ids name entries; `addr` finds the id of a network address,
 `random` lists all ids and `pos` says where; an entry is in the tried table at the one
 slot its hash gives, or in the new table at up to eight slots, counted by its reference
 count. Slots without an id are not in the tables here.
 */
module AddrState {

  datatype NetAddr = NetAddr(ip: nat)
  datatype Service = Service(addr: NetAddr, port: nat)
  type Slot = (int, int)

  const TRIED_BUCKETS_PER_GROUP: nat := 8
  const NEW_BUCKETS_PER_SOURCE_GROUP: nat := 64
  const TRIED_BUCKET_COUNT: nat := 256
  const NEW_BUCKET_COUNT: nat := 1024
  const BUCKET_SIZE: nat := 64
  const NEW_BUCKETS_PER_ADDRESS: int := 8
  const HORIZON_DAYS: int := 30
  const RETRIES: int := 3
  const MAX_FAILURES: int := 10
  const MIN_FAIL_DAYS: int := 7

  /** The hashes that place entries, under a secret key: any functions. */
  datatype Hasher = Hasher(
    group: NetAddr -> nat,
    service: (nat, Service) -> nat,
    inGroup: (nat, nat, nat) -> nat,
    pair: (nat, nat, nat) -> nat,
    fromSource: (nat, nat, nat) -> nat,
    position: (nat, bool, int, Service) -> nat)

  /** A hasher with the key in use. */
  datatype Env = Env(h: Hasher, key: nat)

  function TriedBucket(e: Env, s: Service): (b: nat)
    ensures b < TRIED_BUCKET_COUNT
  {
    e.h.inGroup(e.key, e.h.group(s.addr), e.h.service(e.key, s) % TRIED_BUCKETS_PER_GROUP) % TRIED_BUCKET_COUNT
  }

  function NewBucket(e: Env, s: Service, source: NetAddr): (b: nat)
    ensures b < NEW_BUCKET_COUNT
  {
    var from := e.h.group(source);
    e.h.fromSource(e.key, from, e.h.pair(e.key, e.h.group(s.addr), from) % NEW_BUCKETS_PER_SOURCE_GROUP) % NEW_BUCKET_COUNT
  }

  function Position(e: Env, isNew: bool, bucket: int, s: Service): (p: nat)
    ensures p < BUCKET_SIZE
  {
    e.h.position(e.key, isNew, bucket, s) % BUCKET_SIZE
  }

  function TriedSlot(e: Env, s: Service): (slot: Slot) {
    (TriedBucket(e, s), Position(e, false, TriedBucket(e, s), s))
  }

  function NewSlot(e: Env, s: Service, source: NetAddr): (slot: Slot) {
    (NewBucket(e, s, source), Position(e, true, NewBucket(e, s, source), s))
  }

  /** An address as it is announced. */
  datatype Address = Address(service: Service, nServices: set<nat>, nTime: int)

  /** What is known of an address, its place in the random order aside. */
  datatype Entry = Entry(service: Service, nServices: set<nat>, nTime: int, source: NetAddr, nLastSuccess: int, nLastTry: int,
                         nAttempts: int, nRefCount: int, fInTried: bool)

  datatype State = State(nIdCount: int, info: map<int, Entry>, addr: map<NetAddr, int>, random: seq<int>, pos: map<int, int>,
                         nTried: int, tried: map<Slot, int>, nNew: int, news: map<Slot, int>)

  // ---- the invariant, in parts

  /** The random order is a permutation of the ids, with back-pointers. */
  ghost predicate RandomOk(random: seq<int>, pos: map<int, int>) {
    && |random| == |pos|
    && (forall id :: id in pos ==> 0 <= pos[id] < |random| && random[pos[id]] == id)
    && (forall p :: 0 <= p < |random| ==> random[p] in pos && pos[random[p]] == p)
  }

  /** Addresses and ids determine each other. */
  ghost predicate AddrOk(info: map<int, Entry>, addr: map<NetAddr, int>) {
    && (forall id :: id in info ==> info[id].service.addr in addr && addr[info[id].service.addr] == id)
    && (forall a :: a in addr ==> addr[a] in info && info[addr[a]].service.addr == a)
  }

  ghost predicate TriedOk(e: Env, info: map<int, Entry>, tried: map<Slot, int>) {
    && (forall slot :: slot in tried ==>
          tried[slot] in info && info[tried[slot]].fInTried && slot == TriedSlot(e, info[tried[slot]].service))
    && (forall id :: id in info && info[id].fInTried ==>
          TriedSlot(e, info[id].service) in tried && tried[TriedSlot(e, info[id].service)] == id)
  }

  /** The new-table slots that hold `id`. */
  function Slots(table: map<Slot, int>, id: int): (r: set<Slot>) {
    set slot | slot in table && table[slot] == id
  }

  ghost predicate NewOk(e: Env, info: map<int, Entry>, table: map<Slot, int>) {
    && (forall slot :: slot in table ==>
          && 0 <= slot.0 < NEW_BUCKET_COUNT && table[slot] in info
          && slot.1 == Position(e, true, slot.0, info[table[slot]].service))
    && (forall id :: id in info ==> info[id].nRefCount == |Slots(table, id)|)
  }

  /** Entries outside `limbo` are in exactly one of the tables, in the new one at one to eight slots. */
  ghost predicate Live(info: map<int, Entry>, limbo: set<int>) {
    forall id :: id in info ==>
      && (info[id].fInTried ==> info[id].nRefCount == 0)
      && (!info[id].fInTried ==> info[id].nRefCount <= NEW_BUCKETS_PER_ADDRESS && (id in limbo || info[id].nRefCount >= 1))
  }

  ghost predicate TimesOk(info: map<int, Entry>) {
    forall id :: id in info ==>
      info[id].nLastTry >= 0 && info[id].nLastSuccess >= 0 && (info[id].fInTried ==> info[id].nLastSuccess > 0)
  }

  function TriedIds(info: map<int, Entry>): (r: set<int>) {
    set id | id in info && info[id].fInTried
  }

  function NewIds(info: map<int, Entry>): (r: set<int>) {
    set id | id in info && !info[id].fInTried
  }

  ghost predicate IdsOk(s: State) {
    && s.nIdCount >= 0 && s.pos.Keys == s.info.Keys
    && forall id :: id in s.info ==> 0 <= id < s.nIdCount
  }

  /** Everything but the counters and the entries in limbo. */
  ghost predicate Core(e: Env, s: State, limbo: set<int>) {
    && IdsOk(s) && RandomOk(s.random, s.pos) && AddrOk(s.info, s.addr)
    && TriedOk(e, s.info, s.tried) && NewOk(e, s.info, s.news)
    && Live(s.info, limbo)
  }

  /** The counters are exact, `nNew` being short by `short`. */
  ghost predicate Counted(s: State, short: int) {
    s.nTried == |TriedIds(s.info)| && s.nNew + short == |NewIds(s.info)|
  }

  ghost predicate Consistent(e: Env, s: State) {
    Core(e, s, {}) && TimesOk(s.info) && Counted(s, 0) && e.key != 0
  }

  const EMPTY := State(0, map[], map[], [], map[], 0, map[], 0, map[])

  lemma EmptyIsConsistent(e: Env)
    requires e.key != 0
    ensures Consistent(e, EMPTY)
  {}

  /** The conditions of `Check_`, in its order and with its error codes. */
  ghost predicate CheckPasses(e: Env, s: State) {
    && |s.random| == s.nTried + s.nNew                                                            // -7
    && (forall id :: id in s.info && s.info[id].fInTried ==>
          s.info[id].nLastSuccess != 0 && s.info[id].nRefCount == 0)                              // -1, -2
    && (forall id :: id in s.info && !s.info[id].fInTried ==>
          0 <= s.info[id].nRefCount <= NEW_BUCKETS_PER_ADDRESS && s.info[id].nRefCount != 0)      // -3, -4
    && (forall id :: id in s.info ==>
          s.info[id].service.addr in s.addr && s.addr[s.info[id].service.addr] == id)             // -5
    && (forall id :: id in s.info ==>
          id in s.pos && 0 <= s.pos[id] < |s.random| && s.random[s.pos[id]] == id)                // -14
    && (forall id :: id in s.info ==> s.info[id].nLastTry >= 0 && s.info[id].nLastSuccess >= 0)   // -6, -8
    && |TriedIds(s.info)| == s.nTried && |NewIds(s.info)| == s.nNew                               // -9, -10
    && (forall slot :: slot in s.tried ==>
          s.tried[slot] in s.info && s.info[s.tried[slot]].fInTried
          && slot == TriedSlot(e, s.info[s.tried[slot]].service))                                 // -11, -17, -18
    && (forall id :: id in s.info && s.info[id].fInTried ==>
          exists slot :: slot in s.tried && s.tried[slot] == id)                                  // -13
    && (forall slot :: slot in s.news ==>
          s.news[slot] in s.info && !s.info[s.news[slot]].fInTried
          && slot.1 == Position(e, true, slot.0, s.info[s.news[slot]].service))                   // -12, -19
    && (forall id :: id in s.info && !s.info[id].fInTried ==>
          |Slots(s.news, id)| == s.info[id].nRefCount)                                            // -12, -15
    && e.key != 0                                                                                 // -16
  }

  lemma IdsSplit(info: map<int, Entry>)
    ensures |TriedIds(info)| + |NewIds(info)| == |info|
  {
    assert TriedIds(info) + NewIds(info) == info.Keys;
    assert TriedIds(info) !! NewIds(info);
  }

  lemma OwnerIsNew(e: Env, s: State, limbo: set<int>, slot: Slot)
    requires Core(e, s, limbo) && slot in s.news
    ensures var id := s.news[slot]; id in s.info && !s.info[id].fInTried && s.info[id].nRefCount >= 1
  {
    assert slot in Slots(s.news, s.news[slot]);
  }

  lemma ConsistentPassesCheck(e: Env, s: State)
    requires Consistent(e, s)
    ensures CheckPasses(e, s)
  {
    IdsSplit(s.info);
    assert |s.pos| == |s.pos.Keys| == |s.info.Keys| == |s.info|;
    forall slot | slot in s.news ensures s.news[slot] in s.info && !s.info[s.news[slot]].fInTried {
      OwnerIsNew(e, s, {}, slot);
    }
    forall id | id in s.info && s.info[id].fInTried ensures exists slot :: slot in s.tried && s.tried[slot] == id {
      assert s.tried[TriedSlot(e, s.info[id].service)] == id;
    }
  }

  // ---- operations on the random order

  ghost function SwapRandom(s: State, p1: int, p2: int): (r: State)
    requires RandomOk(s.random, s.pos) && 0 <= p1 < |s.random| && 0 <= p2 < |s.random|
    ensures RandomOk(r.random, r.pos) && r.pos.Keys == s.pos.Keys && r == s.(random := r.random, pos := r.pos)
    ensures |r.random| == |s.random| && r.random[p1] == s.random[p2] && r.random[p2] == s.random[p1]
  {
    var id1, id2 := s.random[p1], s.random[p2];
    var r := s.(random := s.random[p1 := id2][p2 := id1], pos := s.pos[id1 := p2][id2 := p1]);
    assert r.pos.Keys == s.pos.Keys;
    r
  }

  // ---- creating and deleting entries

  ghost function Created(s: State, a: Address, source: NetAddr, nTime: int): (r: State) {
    var id := s.nIdCount;
    s.(nIdCount := id + 1,
       info := s.info[id := Entry(a.service, a.nServices, nTime, source, 0, 0, 0, 0, false)],
       addr := s.addr[a.service.addr := id],
       random := s.random + [id],
       pos := s.pos[id := |s.random|],
       nNew := s.nNew + 1)
  }

  lemma AppendKeepsRandom(random: seq<int>, pos: map<int, int>, id: int)
    requires RandomOk(random, pos) && id !in pos
    ensures RandomOk(random + [id], pos[id := |random|])
  {
    var r, q := random + [id], pos[id := |random|];
    assert q.Keys == pos.Keys + {id};
    assert |q| == |q.Keys| == |pos| + 1;
    forall p | 0 <= p < |r| ensures r[p] in q && q[r[p]] == p {
      if p < |random| {
        assert r[p] == random[p] && random[p] in pos;
      }
    }
  }

  lemma CreateKeepsRandom(s: State, a: Address, source: NetAddr, nTime: int)
    requires IdsOk(s) && RandomOk(s.random, s.pos)
    ensures var r := Created(s, a, source, nTime); IdsOk(r) && RandomOk(r.random, r.pos)
  {
    assert s.nIdCount !in s.pos.Keys;
    AppendKeepsRandom(s.random, s.pos, s.nIdCount);
    hide RandomOk;
    KeysGrow(s.info, s.pos, s.nIdCount, Created(s, a, source, nTime).info[s.nIdCount], |s.random|);
  }

  lemma KeysGrow(info: map<int, Entry>, pos: map<int, int>, id: int, n: Entry, p: int)
    requires info.Keys == pos.Keys
    ensures info[id := n].Keys == pos[id := p].Keys
  {
    assert info[id := n].Keys == info.Keys + {id};
    assert pos[id := p].Keys == pos.Keys + {id};
  }

  lemma IdSetsGrow(info: map<int, Entry>, id: int, n: Entry)
    requires id !in info && !n.fInTried
    ensures |TriedIds(info[id := n])| == |TriedIds(info)| && |NewIds(info[id := n])| == |NewIds(info)| + 1
  {
    var b := info[id := n];
    forall x ensures (x in TriedIds(b) <==> x in TriedIds(info)) && (x in NewIds(b) <==> x in NewIds(info) || x == id) {
      assert x != id ==> (x in b <==> x in info);
    }
    assert TriedIds(b) == TriedIds(info);
    assert NewIds(b) == NewIds(info) + {id};
  }

  lemma IdSetsShrink(info: map<int, Entry>, id: int)
    requires id in info && !info[id].fInTried
    ensures |TriedIds(info - {id})| == |TriedIds(info)| && |NewIds(info - {id})| == |NewIds(info)| - 1
  {
    assert TriedIds(info - {id}) == TriedIds(info);
    assert NewIds(info - {id}) == NewIds(info) - {id};
  }

  lemma AddEntryKeeps(e: Env, info: map<int, Entry>, addr: map<NetAddr, int>, tried: map<Slot, int>, news: map<Slot, int>,
                      limbo: set<int>, id: int, n: Entry)
    requires AddrOk(info, addr) && TriedOk(e, info, tried) && NewOk(e, info, news) && Live(info, limbo)
    requires id !in info && n.service.addr !in addr && !n.fInTried && n.nRefCount == 0
    ensures AddrOk(info[id := n], addr[n.service.addr := id])
    ensures TriedOk(e, info[id := n], tried)
    ensures NewOk(e, info[id := n], news)
    ensures Live(info[id := n], limbo + {id})
  {
    AddEntryAddr(info, addr, id, n);
    AddEntryTables(e, info, tried, news, limbo, id, n);
  }

  lemma AddEntryTables(e: Env, info: map<int, Entry>, tried: map<Slot, int>, news: map<Slot, int>, limbo: set<int>, id: int, n: Entry)
    requires TriedOk(e, info, tried) && NewOk(e, info, news) && Live(info, limbo)
    requires id !in info && !n.fInTried && n.nRefCount == 0
    ensures TriedOk(e, info[id := n], tried) && NewOk(e, info[id := n], news) && Live(info[id := n], limbo + {id})
  {
    hide TriedSlot;
    hide Position;
    assert Slots(news, id) == {};
    hide Slots;
    assert TriedOk(e, info[id := n], tried);
    assert NewOk(e, info[id := n], news);
  }

  lemma AddEntryAddr(info: map<int, Entry>, addr: map<NetAddr, int>, id: int, n: Entry)
    requires AddrOk(info, addr) && id !in info && n.service.addr !in addr
    ensures AddrOk(info[id := n], addr[n.service.addr := id])
  {}

  lemma CreateKeepsCore(e: Env, s: State, a: Address, source: NetAddr, nTime: int)
    requires Core(e, s, {}) && TimesOk(s.info) && Counted(s, 0) && a.service.addr !in s.addr
    ensures var r := Created(s, a, source, nTime); Core(e, r, {s.nIdCount}) && TimesOk(r.info) && Counted(r, 0)
  {
    var r, id := Created(s, a, source, nTime), s.nIdCount;
    assert id !in s.info;
    CreateKeepsRandom(s, a, source, nTime);
    AddEntryKeeps(e, s.info, s.addr, s.tried, s.news, {}, id, r.info[id]);
    assert {} + {id} == {id};
    hide RandomOk;
    hide AddrOk;
    hide TriedOk;
    hide NewOk;
    hide Live;
    IdSetsGrow(s.info, id, r.info[id]);
  }

  ghost function Deleted(s: State, id: int): (r: State)
    requires IdsOk(s) && RandomOk(s.random, s.pos) && id in s.info
  {
    var last := |s.random| - 1;
    var w := SwapRandom(s, s.pos[id], last);
    w.(random := w.random[..last], pos := w.pos - {id}, addr := w.addr - {w.info[id].service.addr}, info := w.info - {id},
       nNew := w.nNew - 1)
  }

  lemma DeleteKeepsRandom(s: State, id: int)
    requires IdsOk(s) && RandomOk(s.random, s.pos) && id in s.info
    ensures var r := Deleted(s, id); RandomOk(r.random, r.pos) && IdsOk(r)
  {
    var last := |s.random| - 1;
    var w, r := SwapRandom(s, s.pos[id], last), Deleted(s, id);
    assert w.random[last] == id && w.pos[id] == last;
    assert |r.pos| == |w.pos| - 1 by {
      assert r.pos.Keys == w.pos.Keys - {id};
    }
    forall p | 0 <= p < |r.random| ensures r.random[p] in r.pos && r.pos[r.random[p]] == p {
      assert r.random[p] == w.random[p] != id;
    }
  }

  lemma RemoveEntryKeeps(e: Env, info: map<int, Entry>, addr: map<NetAddr, int>, tried: map<Slot, int>, news: map<Slot, int>, limbo: set<int>, id: int)
    requires AddrOk(info, addr) && TriedOk(e, info, tried) && NewOk(e, info, news) && Live(info, limbo)
    requires id in info && !info[id].fInTried && info[id].nRefCount == 0
    ensures AddrOk(info - {id}, addr - {info[id].service.addr})
    ensures TriedOk(e, info - {id}, tried)
    ensures NewOk(e, info - {id}, news)
    ensures Live(info - {id}, limbo - {id})
  {
    RemoveEntryAddr(info, addr, id);
    RemoveEntryTables(e, info, tried, news, limbo, id);
  }

  lemma RemoveEntryTables(e: Env, info: map<int, Entry>, tried: map<Slot, int>, news: map<Slot, int>, limbo: set<int>, id: int)
    requires TriedOk(e, info, tried) && NewOk(e, info, news) && Live(info, limbo)
    requires id in info && !info[id].fInTried && info[id].nRefCount == 0
    ensures TriedOk(e, info - {id}, tried) && NewOk(e, info - {id}, news) && Live(info - {id}, limbo - {id})
  {
    hide TriedSlot;
    hide Position;
    assert forall slot :: slot in news && news[slot] == id ==> slot in Slots(news, id);
    assert |Slots(news, id)| == 0;
    hide Slots;
    assert TriedOk(e, info - {id}, tried);
    assert NewOk(e, info - {id}, news);
  }

  lemma RemoveEntryAddr(info: map<int, Entry>, addr: map<NetAddr, int>, id: int)
    requires AddrOk(info, addr) && id in info
    ensures AddrOk(info - {id}, addr - {info[id].service.addr})
  {}

  /** Deleting an entry that no table holds any more. */
  lemma DeleteKeepsCore(e: Env, s: State, limbo: set<int>, id: int, short: int)
    requires Core(e, s, limbo) && Counted(s, short)
    requires id in s.info && !s.info[id].fInTried && s.info[id].nRefCount == 0
    ensures var r := Deleted(s, id); Core(e, r, limbo - {id}) && (TimesOk(s.info) ==> TimesOk(r.info)) && Counted(r, short)
  {
    DeletedFields(s, id);
    DeleteKeepsRandom(s, id);
    RemoveEntryKeeps(e, s.info, s.addr, s.tried, s.news, limbo, id);
    var r := Deleted(s, id);
    assert r.nNew == s.nNew - 1;
    hide Deleted;
    hide RandomOk;
    hide AddrOk;
    hide TriedOk;
    hide NewOk;
    hide Live;
    IdSetsShrink(s.info, id);
  }

  // ---- entries that change without moving

  /** The same entries under the same addresses, in the same table. */
  ghost predicate SameShape(a: map<int, Entry>, b: map<int, Entry>) {
    a.Keys == b.Keys && forall id :: id in a ==> a[id].service == b[id].service && a[id].fInTried == b[id].fInTried
  }

  lemma SameShapeSets(a: map<int, Entry>, b: map<int, Entry>)
    requires SameShape(a, b)
    ensures TriedIds(a) == TriedIds(b) && NewIds(a) == NewIds(b)
  {
    forall x ensures (x in TriedIds(a) <==> x in TriedIds(b)) && (x in NewIds(a) <==> x in NewIds(b)) {
      assert x in a.Keys <==> x in b.Keys;
    }
  }

  lemma SameShapeAddr(a: map<int, Entry>, b: map<int, Entry>, addr: map<NetAddr, int>)
    requires SameShape(a, b) && AddrOk(a, addr)
    ensures AddrOk(b, addr)
  {
    forall x ensures x in b <==> x in a {
      assert x in b.Keys <==> x in a.Keys;
    }
  }

  lemma SameShapeTried(e: Env, a: map<int, Entry>, b: map<int, Entry>, tried: map<Slot, int>)
    requires SameShape(a, b) && TriedOk(e, a, tried)
    ensures TriedOk(e, b, tried)
  {
    hide TriedSlot;
    forall x | x in b ensures x in a && a[x].service == b[x].service && a[x].fInTried == b[x].fInTried {
      assert x in b.Keys;
    }
    forall x | x in a ensures x in b {
      assert x in a.Keys;
    }
  }

  lemma SameShapeKeeps(e: Env, s: State, r: State, short: int)
    requires SameShape(s.info, r.info) && IdsOk(s) && AddrOk(s.info, s.addr) && TriedOk(e, s.info, s.tried) && Counted(s, short)
    requires r == s.(info := r.info, news := r.news)
    ensures IdsOk(r) && AddrOk(r.info, r.addr) && TriedOk(e, r.info, r.tried) && Counted(r, short)
  {
    SameShapeSets(s.info, r.info);
    SameShapeAddr(s.info, r.info, s.addr);
    SameShapeTried(e, s.info, r.info, s.tried);
    hide TriedOk;
    hide AddrOk;
    hide TriedIds;
    hide NewIds;
  }

  function WithRefs(info: map<int, Entry>, id: int, n: int): (r: map<int, Entry>)
    requires id in info
  {
    info[id := info[id].(nRefCount := n)]
  }

  lemma WithRefsShape(info: map<int, Entry>, id: int, n: int)
    requires id in info
    ensures SameShape(info, WithRefs(info, id, n)) && WithRefs(info, id, n).Keys == info.Keys
    ensures TimesOk(info) ==> TimesOk(WithRefs(info, id, n))
  {
    assert WithRefs(info, id, n).Keys == info.Keys;
  }

  /** One slot less. */
  lemma UnslotKeeps(e: Env, info: map<int, Entry>, table: map<Slot, int>, slot: Slot)
    requires NewOk(e, info, table) && slot in table
    ensures var id := table[slot]; NewOk(e, WithRefs(info, id, info[id].nRefCount - 1), table - {slot})
  {
    var id := table[slot];
    ReferencedLess(info, table, {slot}, id);
    assert Slots(table, id) - {slot} == Slots(table - {slot}, id);
    hide Position;
    hide Slots;
  }

  /** All slots of an entry emptied. */
  lemma UnslotAllKeeps(e: Env, info: map<int, Entry>, table: map<Slot, int>, id: int)
    requires NewOk(e, info, table) && id in info
    ensures NewOk(e, WithRefs(info, id, 0), table - Slots(table, id))
  {
    ReferencedLess(info, table, Slots(table, id), id);
    assert Slots(table - Slots(table, id), id) == {};
    hide Position;
    hide Slots;
  }

  /** Slots of one entry taken out do not touch the others. */
  lemma ReferencedLess(info: map<int, Entry>, table: map<Slot, int>, out: set<Slot>, id: int)
    requires id in info && out <= Slots(table, id) && forall x :: x in info ==> info[x].nRefCount == |Slots(table, x)|
    ensures forall x :: x in info && x != id ==> info[x].nRefCount == |Slots(table - out, x)|
  {
    forall x | x in info && x != id ensures info[x].nRefCount == |Slots(table - out, x)| {
      assert Slots(table - out, x) == Slots(table, x);
    }
  }

  /** One slot more. */
  lemma SlotKeeps(e: Env, info: map<int, Entry>, table: map<Slot, int>, slot: Slot, id: int)
    requires NewOk(e, info, table) && slot !in table && id in info
    requires 0 <= slot.0 < NEW_BUCKET_COUNT && slot.1 == Position(e, true, slot.0, info[id].service)
    ensures NewOk(e, WithRefs(info, id, info[id].nRefCount + 1), table[slot := id])
  {
    hide Position;
    var table' := table[slot := id];
    assert Slots(table', id) == Slots(table, id) + {slot};
    forall x | x in info && x != id ensures info[x].nRefCount == |Slots(table', x)| {
      assert Slots(table', x) == Slots(table, x);
    }
    hide Slots;
  }

  // ---- ClearNew

  ghost function Cleared(e: Env, s: State, limbo: set<int>, slot: Slot): (r: State)
    requires Core(e, s, limbo)
  {
    if slot !in s.news then s
    else
      var id, w := s.news[slot], Released(s, slot);
      assert w.info.Keys == s.info.Keys;
      if w.info[id].nRefCount == 0 then Deleted(w, id) else w
  }

  /** Releasing one slot, before the entry is looked at again. */
  ghost function Released(s: State, slot: Slot): (w: State)
    requires slot in s.news && s.news[slot] in s.info
  {
    var id := s.news[slot];
    s.(news := s.news - {slot}, info := WithRefs(s.info, id, s.info[id].nRefCount - 1))
  }

  lemma ReleaseKeepsCore(e: Env, s: State, limbo: set<int>, slot: Slot, short: int)
    requires Core(e, s, limbo) && Counted(s, short) && slot in s.news
    ensures var w := Released(s, slot); Core(e, w, limbo + {s.news[slot]}) && (TimesOk(s.info) ==> TimesOk(w.info)) && Counted(w, short)
  {
    var id, w := s.news[slot], Released(s, slot);
    OwnerIsNew(e, s, limbo, slot);
    hide RandomOk;
    hide TriedOk;
    hide NewOk;
    hide AddrOk;
    hide IdsOk;
    hide Counted;
    hide TimesOk;
    UnslotKeeps(e, s.info, s.news, slot);
    WithRefsShape(s.info, id, s.info[id].nRefCount - 1);
    hide SameShape;
    SameShapeKeeps(e, s, w, short);
  }

  /** What clearing a slot does to the entries: the owner has one reference less, or is gone if it had one. */
  ghost predicate OneLess(a: map<int, Entry>, b: map<int, Entry>, id: int)
    requires id in a
  {
    b == if a[id].nRefCount == 1 then a - {id} else WithRefs(a, id, a[id].nRefCount - 1)
  }

  /** The slot is emptied; its entry, and no other, is forgotten if that was its last slot. */
  lemma ClearKeepsCore(e: Env, s: State, limbo: set<int>, slot: Slot, short: int)
    requires Core(e, s, limbo) && Counted(s, short)
    ensures var r := Cleared(e, s, limbo, slot);
            && Core(e, r, limbo) && (TimesOk(s.info) ==> TimesOk(r.info)) && Counted(r, short)
            && r.tried == s.tried && r.nTried == s.nTried && r.nIdCount == s.nIdCount && r.news == s.news - {slot}
            && (slot !in s.news ==> r == s)
            && (slot in s.news ==> s.news[slot] in s.info && !s.info[s.news[slot]].fInTried && OneLess(s.info, r.info, s.news[slot]))
  {
    hide RandomOk;
    hide TriedOk;
    hide NewOk;
    hide AddrOk;
    hide IdsOk;
    hide Counted;
    hide Live;
    hide TimesOk;
    if slot in s.news {
      OwnerIsNew(e, s, limbo, slot);
      ReleaseKeepsCore(e, s, limbo, slot, short);
      ClearedOwned(e, s, limbo, slot);
      var id, w := s.news[slot], Released(s, slot);
      if w.info[id].nRefCount == 0 {
        DeleteKeepsCore(e, w, limbo + {id}, id, short);
        DeletedFields(w, id);
        hide Deleted;
        LiveShrinks(Deleted(w, id).info, (limbo + {id}) - {id}, limbo);
        WithoutOwner(s.info, id, s.info[id].nRefCount - 1);
      } else {
        LiveFull(w.info, limbo, id);
      }
    } else {
      assert s.news - {slot} == s.news;
    }
  }

  lemma ClearedOwned(e: Env, s: State, limbo: set<int>, slot: Slot)
    requires Core(e, s, limbo) && slot in s.news
    ensures s.news[slot] in s.info && IdsOk(Released(s, slot))
    ensures var id, w := s.news[slot], Released(s, slot);
            Cleared(e, s, limbo, slot) == if w.info[id].nRefCount == 0 then Deleted(w, id) else w
  {
    OwnerIsNew(e, s, limbo, slot);
    assert Released(s, slot).info.Keys == s.info.Keys;
  }

  lemma WithoutOwner(info: map<int, Entry>, id: int, n: int)
    requires id in info
    ensures WithRefs(info, id, n) - {id} == info - {id}
  {}

  lemma LiveFull(info: map<int, Entry>, limbo: set<int>, id: int)
    requires Live(info, limbo + {id}) && id in info && (info[id].fInTried || info[id].nRefCount >= 1)
    ensures Live(info, limbo)
  {}

  lemma LiveShrinks(info: map<int, Entry>, small: set<int>, large: set<int>)
    requires Live(info, small) && small <= large
    ensures Live(info, large)
  {}

  lemma DeletedFields(s: State, id: int)
    requires IdsOk(s) && RandomOk(s.random, s.pos) && id in s.info
    ensures var r := Deleted(s, id);
            r.info == s.info - {id} && r.tried == s.tried && r.news == s.news && r.nTried == s.nTried && r.nIdCount == s.nIdCount
            && r.addr == s.addr - {s.info[id].service.addr}
  {}
}
