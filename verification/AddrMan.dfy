/**
 The address manager as an object: maps, a vector and two bucket arrays updated in place.
 `Model` reads it off as the value of module AddrState (an empty array position, -1, is a
 slot without an id), and every method does to it what modules AddrState and AddrOps say.
 */
module AddrMan {
  import opened AddrState
  import AddrOps
  import AddrStore

  datatype Info = Info(entry: Entry, nRandomPos: int)

  ghost function Table(a: array2<int>): (t: map<Slot, int>)
    reads a
  {
    map b, p | 0 <= b < a.Length0 && 0 <= p < a.Length1 && a[b, p] != -1 :: (b, p) := a[b, p]
  }

  ghost function Entries(m: map<int, Info>): (r: map<int, Entry>) {
    map id | id in m :: m[id].entry
  }

  ghost function Places(m: map<int, Info>): (r: map<int, int>) {
    map id | id in m :: m[id].nRandomPos
  }

  lemma InfoAt(m: map<int, Info>, id: int)
    ensures (id in Entries(m) <==> id in m) && (id in Places(m) <==> id in m)
    ensures id in m ==> Entries(m)[id] == m[id].entry && Places(m)[id] == m[id].nRandomPos
  {}

  lemma RandomAt(random: seq<int>, pos: map<int, int>, id: int)
    requires RandomOk(random, pos) && id in pos
    ensures 0 <= pos[id] < |random| && random[pos[id]] == id
  {}

  lemma StoredEntry(m: map<int, Info>, id: int, n: Entry)
    requires id in m
    ensures Entries(m[id := Info(n, m[id].nRandomPos)]) == Entries(m)[id := n]
    ensures Places(m[id := Info(n, m[id].nRandomPos)]) == Places(m)
  {}

  lemma StoredPlace(m: map<int, Info>, id: int, p: int)
    requires id in m
    ensures Entries(m[id := Info(m[id].entry, p)]) == Entries(m)
    ensures Places(m[id := Info(m[id].entry, p)]) == Places(m)[id := p]
  {
    assert Entries(m[id := Info(m[id].entry, p)]) == Entries(m);
  }

  lemma StoredNew(m: map<int, Info>, id: int, n: Info)
    ensures Entries(m[id := n]) == Entries(m)[id := n.entry] && Places(m[id := n]) == Places(m)[id := n.nRandomPos]
  {}

  lemma Dropped(m: map<int, Info>, id: int)
    ensures Entries(m - {id}) == Entries(m) - {id} && Places(m - {id}) == Places(m) - {id}
  {}

  /** Writes one position of a bucket array. */
  method SetSlot(a: array2<int>, b: int, p: int, v: int)
    requires 0 <= b < a.Length0 && 0 <= p < a.Length1
    modifies a
    ensures Table(a) == if v == -1 then old(Table(a)) - {(b, p)} else old(Table(a))[(b, p) := v]
  {
    a[b, p] := v;
    ghost var t := if v == -1 then old(Table(a)) - {(b, p)} else old(Table(a))[(b, p) := v];
    forall x: Slot ensures (x in Table(a) <==> x in t) && (x in t ==> Table(a)[x] == t[x]) {
    }
  }

  lemma TableAt(a: array2<int>, b: int, p: int)
    requires 0 <= b < a.Length0 && 0 <= p < a.Length1
    ensures (b, p) in Table(a) <==> a[b, p] != -1
    ensures (b, p) in Table(a) ==> Table(a)[(b, p)] == a[b, p]
  {}

  class Manager {
    const hasher: Hasher
    var nKey: nat
    var nIdCount: int
    var mapInfo: map<int, Info>
    var mapAddr: map<NetAddr, int>
    var vRandom: seq<int>
    var nTried: int
    var nNew: int
    const vvTried: array2<int>
    const vvNew: array2<int>

    ghost predicate Shape() {
      && vvTried.Length0 == TRIED_BUCKET_COUNT && vvNew.Length0 == NEW_BUCKET_COUNT
      && vvTried.Length1 == BUCKET_SIZE && vvNew.Length1 == BUCKET_SIZE && vvTried != vvNew
    }

    ghost function Keyed(): (e: Env)
      reads this
    {
      Env(hasher, nKey)
    }

    ghost function Model(): (s: State)
      reads this, vvTried, vvNew
    {
      State(nIdCount, Entries(mapInfo), mapAddr, vRandom, Places(mapInfo), nTried, Table(vvTried), nNew, Table(vvNew))
    }

    ghost predicate Valid()
      reads this, vvTried, vvNew
    {
      Shape() && Consistent(Keyed(), Model())
    }

    /** A new manager has nothing in it. */
    constructor (h: Hasher, key: nat)
      requires key != 0
      ensures Valid() && Model() == EMPTY && fresh(vvTried) && fresh(vvNew) && nKey == key && hasher == h
    {
      hasher, nKey := h, key;
      nIdCount, mapInfo, mapAddr, vRandom, nTried, nNew := 0, map[], map[], [], 0, 0;
      vvTried := new int[TRIED_BUCKET_COUNT, BUCKET_SIZE]((_, _) => -1);
      vvNew := new int[NEW_BUCKET_COUNT, BUCKET_SIZE]((_, _) => -1);
      new;
      assert Table(vvTried) == map[] && Table(vvNew) == map[];
      EmptyIsConsistent(Keyed());
    }

    /** Rewrites one entry, its place in the random order aside. */
    method Store(id: int, n: Entry)
      requires id in mapInfo
      modifies this`mapInfo
      ensures Model() == old(Model()).(info := old(Model()).info[id := n]) && mapInfo.Keys == old(mapInfo.Keys)
    {
      StoredEntry(mapInfo, id, n);
      mapInfo := mapInfo[id := Info(n, mapInfo[id].nRandomPos)];
    }

    /** A new entry, not counted yet. */
    method Create(a: Address, source: NetAddr) returns (nId: int)
      modifies this
      ensures nId == old(nIdCount) && nId in mapInfo && mapInfo[nId].entry.nTime == a.nTime && nKey == old(nKey)
      ensures Model() == Created(old(Model()), a, source, a.nTime).(nNew := old(nNew))
    {
      nId := nIdCount;
      nIdCount := nIdCount + 1;
      var n := Entry(a.service, a.nServices, a.nTime, source, 0, 0, 0, 0, false);
      StoredNew(mapInfo, nId, Info(n, |vRandom|));
      mapInfo := mapInfo[nId := Info(n, |vRandom|)];
      mapAddr := mapAddr[a.service.addr := nId];
      vRandom := vRandom + [nId];
    }

    method SwapRandom(nRndPos1: int, nRndPos2: int)
      requires RandomOk(Model().random, Model().pos)
      requires 0 <= nRndPos1 < |vRandom| && 0 <= nRndPos2 < |vRandom|
      modifies this`mapInfo, this`vRandom
      ensures Model() == AddrState.SwapRandom(old(Model()), nRndPos1, nRndPos2)
    {
      if nRndPos1 == nRndPos2 {
        assert vRandom[nRndPos1 := vRandom[nRndPos1]] == vRandom;
        assert Places(mapInfo)[vRandom[nRndPos1] := nRndPos1] == Places(mapInfo);
        return;
      }
      var nId1, nId2 := vRandom[nRndPos1], vRandom[nRndPos2];
      assert nId1 in Model().pos && nId2 in Model().pos;
      StoredPlace(mapInfo, nId1, nRndPos2);
      mapInfo := mapInfo[nId1 := Info(mapInfo[nId1].entry, nRndPos2)];
      StoredPlace(mapInfo, nId2, nRndPos1);
      mapInfo := mapInfo[nId2 := Info(mapInfo[nId2].entry, nRndPos1)];
      vRandom := vRandom[nRndPos1 := nId2][nRndPos2 := nId1];
    }

    method Delete(nId: int)
      requires IdsOk(Model()) && RandomOk(Model().random, Model().pos)
      requires nId in mapInfo && !mapInfo[nId].entry.fInTried && mapInfo[nId].entry.nRefCount == 0
      modifies this`mapInfo, this`mapAddr, this`vRandom, this`nNew
      ensures Model() == Deleted(old(Model()), nId)
    {
      hide Entries;
      hide Places;
      hide Table;
      hide RandomOk;
      hide AddrState.SwapRandom;
      InfoAt(mapInfo, nId);
      RandomAt(vRandom, Places(mapInfo), nId);
      SwapRandom(mapInfo[nId].nRandomPos, |vRandom| - 1);
      InfoAt(mapInfo, nId);
      vRandom := vRandom[..|vRandom| - 1];
      mapAddr := mapAddr - {mapInfo[nId].entry.service.addr};
      Dropped(mapInfo, nId);
      mapInfo := mapInfo - {nId};
      nNew := nNew - 1;
    }

    /** Empties a new slot; the entry there is deleted if that was its last one. */
    method ClearNew(nUBucket: int, nUBucketPos: int, ghost limbo: set<int>)
      requires Shape() && Core(Keyed(), Model(), limbo)
      requires 0 <= nUBucket < NEW_BUCKET_COUNT && 0 <= nUBucketPos < BUCKET_SIZE
      modifies this`mapInfo, this`mapAddr, this`vRandom, this`nNew, vvNew
      ensures Model() == Cleared(old(Keyed()), old(Model()), limbo, (nUBucket, nUBucketPos))
    {
      hide NewOk;
      hide TriedOk;
      hide AddrOk;
      hide Live;
      hide Entries;
      hide Places;
      hide Table;
      TableAt(vvNew, nUBucket, nUBucketPos);
      if vvNew[nUBucket, nUBucketPos] != -1 {
        var nIdDelete := vvNew[nUBucket, nUBucketPos];
        ghost var slot := (nUBucket, nUBucketPos);
        OwnerIsNew(Keyed(), Model(), limbo, slot);
        ClearedOwned(Keyed(), Model(), limbo, slot);
        InfoAt(mapInfo, nIdDelete);
        var n := mapInfo[nIdDelete].entry;
        assert n.nRefCount > 0;
        Store(nIdDelete, n.(nRefCount := n.nRefCount - 1));
        SetSlot(vvNew, nUBucket, nUBucketPos, -1);
        assert Model() == Released(old(Model()), slot);
        if n.nRefCount - 1 == 0 {
          InfoAt(mapInfo, nIdDelete);
          Delete(nIdDelete);
        }
      }
    }

    /** One new slot of an entry emptied. */
    method Unslot(nId: int, bucket: int, pos: int)
      requires Shape() && nId in mapInfo && 0 <= bucket < NEW_BUCKET_COUNT && 0 <= pos < BUCKET_SIZE
      modifies this`mapInfo, vvNew
      ensures var s := old(Model());
              Model() == s.(news := s.news - {(bucket, pos)}, info := WithRefs(s.info, nId, s.info[nId].nRefCount - 1))
      ensures nId in mapInfo
    {
      SetSlot(vvNew, bucket, pos, -1);
      var n := mapInfo[nId].entry;
      Store(nId, n.(nRefCount := n.nRefCount - 1));
    }

    /** Takes the entry out of all its new buckets. */
    method LeaveNew(nId: int)
      requires Shape() && Core(Keyed(), Model(), {}) && nId in mapInfo
      modifies this`mapInfo, this`nNew, vvNew
      ensures Model() == AddrOps.Unbucketed(old(Model()), nId) && nId in mapInfo && mapInfo[nId].entry.nRefCount == 0
    {
      hide Core;
      hide Leaving;
      hide WithRefs;
      hide Entries;
      hide Places;
      hide Table;
      hide Position;
      hide AddrOps.Unbucketed;
      ghost var e, s := Keyed(), Model();
      InfoAt(mapInfo, nId);
      IdIsNatural(e, s, {}, nId);
      LeaveNone(e, s, nId);
      var bucket := 0;
      while bucket < NEW_BUCKET_COUNT
        invariant 0 <= bucket <= NEW_BUCKET_COUNT && nId in mapInfo
        invariant Model() == Leaving(s, nId, bucket)
      {
        InfoAt(mapInfo, nId);
        var pos := Position(Env(hasher, nKey), true, bucket, mapInfo[nId].entry.service);
        TableAt(vvNew, bucket, pos);
        LeaveStep(e, s, nId, bucket);
        if vvNew[bucket, pos] == nId {
          Unslot(nId, bucket, pos);
        }
        bucket := bucket + 1;
      }
      LeftAll(e, s, nId);
      InfoAt(mapInfo, nId);
      nNew := nNew - 1;
    }

    /** Empties a tried slot: the entry there goes to the new slot of its source, in place of what that held. */
    method MakeRoom(nId: int, nKBucket: int, nKBucketPos: int)
      requires Shape() && Core(Keyed(), Model(), {nId}) && Counted(Model(), 1)
      requires 0 <= nKBucket < TRIED_BUCKET_COUNT && 0 <= nKBucketPos < BUCKET_SIZE
      modifies this`mapInfo, this`mapAddr, this`vRandom, this`nTried, this`nNew, vvTried, vvNew
      ensures Model() == AddrOps.MadeRoom(old(Keyed()), old(Model()), nId, (nKBucket, nKBucketPos))
    {
      hide Core;
      hide TimesOk;
      hide Counted;
      hide Entries;
      hide Places;
      hide Table;
      hide Cleared;
      hide Position;
      hide NewBucket;
      ghost var e, s, slot := Keyed(), Model(), (nKBucket, nKBucketPos);
      TableAt(vvTried, nKBucket, nKBucketPos);
      if vvTried[nKBucket, nKBucketPos] != -1 {
        var nIdEvict := vvTried[nKBucket, nKBucketPos];
        AddrOps.EvictKeeps(e, s, {nId}, slot, 1);
        InfoAt(mapInfo, nIdEvict);
        var infoOld := mapInfo[nIdEvict].entry;
        Store(nIdEvict, infoOld.(fInTried := false));
        SetSlot(vvTried, nKBucket, nKBucketPos, -1);
        nTried := nTried - 1;
        ghost var w := AddrOps.Evicted(s, slot);
        assert Model() == w;
        var nUBucket := NewBucket(Env(hasher, nKey), infoOld.service, infoOld.source);
        var nUBucketPos := Position(Env(hasher, nKey), true, nUBucket, infoOld.service);
        assert {nId} + {nIdEvict} == {nId, nIdEvict};
        EvictedFits(e, w, {nId, nIdEvict}, nIdEvict, (nUBucket, nUBucketPos));
        ClearNew(nUBucket, nUBucketPos, {nId, nIdEvict});
        TableAt(vvNew, nUBucket, nUBucketPos);
        assert vvNew[nUBucket, nUBucketPos] == -1;
        InfoAt(mapInfo, nIdEvict);
        Store(nIdEvict, mapInfo[nIdEvict].entry.(nRefCount := 1));
        SetSlot(vvNew, nUBucket, nUBucketPos, nIdEvict);
        nNew := nNew + 1;
      }
    }

    /** Moves an entry from the new table to the tried table. */
    method MakeTried(nId: int)
      requires Shape() && Core(Keyed(), Model(), {}) && Counted(Model(), 0)
      requires nId in mapInfo && !mapInfo[nId].entry.fInTried
      modifies this`mapInfo, this`mapAddr, this`vRandom, this`nTried, this`nNew, vvTried, vvNew
      ensures nId in old(Model()).info && Model() == AddrOps.MadeTried(old(Keyed()), old(Model()), nId)
    {
      hide Core;
      hide TimesOk;
      hide Counted;
      hide Entries;
      hide Places;
      hide Table;
      hide Position;
      hide TriedBucket;
      hide AddrOps.MadeRoom;
      ghost var e, s := Keyed(), Model();
      InfoAt(mapInfo, nId);
      IdIsNatural(e, s, {}, nId);
      AddrOps.UnbucketKeeps(e, s, nId);
      LeaveNew(nId);
      assert mapInfo[nId].entry.nRefCount == 0;
      InfoAt(mapInfo, nId);
      var nKBucket := TriedBucket(Env(hasher, nKey), mapInfo[nId].entry.service);
      var nKBucketPos := Position(Env(hasher, nKey), false, nKBucket, mapInfo[nId].entry.service);
      AddrOps.RoomKeeps(e, Model(), nId, (nKBucket, nKBucketPos));
      AddrOps.RoomSparesPromoted(e, Model(), nId, (nKBucket, nKBucketPos));
      MakeRoom(nId, nKBucket, nKBucketPos);
      InfoAt(mapInfo, nId);
      TableAt(vvTried, nKBucket, nKBucketPos);
      assert vvTried[nKBucket, nKBucketPos] == -1;
      SetSlot(vvTried, nKBucket, nKBucketPos, nId);
      nTried := nTried + 1;
      Store(nId, mapInfo[nId].entry.(fInTried := true));
    }

    /** Looks for a bucket that holds the entry, from a random one on. */
    method FindBucket(nId: int, nRnd: int) returns (nUBucket: int)
      requires Shape() && nId in mapInfo && nId != -1 && 0 <= nRnd < NEW_BUCKET_COUNT
      ensures nId in Model().info
      ensures if nUBucket == -1 then forall b :: 0 <= b < NEW_BUCKET_COUNT ==> !AddrOps.Holds(Keyed(), Model(), nId, b)
              else 0 <= nUBucket < NEW_BUCKET_COUNT && AddrOps.Holds(Keyed(), Model(), nId, nUBucket)
    {
      hide Entries;
      hide Places;
      hide Table;
      hide Position;
      InfoAt(mapInfo, nId);
      ghost var e, s := Keyed(), Model();
      nUBucket := -1;
      var n := 0;
      while n < NEW_BUCKET_COUNT
        invariant 0 <= n <= NEW_BUCKET_COUNT && nUBucket == -1
        invariant forall m :: 0 <= m < n ==> !AddrOps.Holds(e, s, nId, Around(m, nRnd))
      {
        var nB := Around(n, nRnd);
        var nBpos := Position(Env(hasher, nKey), true, nB, mapInfo[nId].entry.service);
        TableAt(vvNew, nB, nBpos);
        if vvNew[nB, nBpos] == nId {
          nUBucket := nB;
          return;
        }
        n := n + 1;
      }
      forall b | 0 <= b < NEW_BUCKET_COUNT ensures !AddrOps.Holds(e, s, nId, b) {
        assert Around(Around(b, NEW_BUCKET_COUNT - nRnd), nRnd) == b;
      }
    }

    /** A successful connection. A time of zero or less is stored like any other, and breaks consistency if the service is
        known. */
    method Good(addr: Service, nTime: int, nRnd: int)
      requires Valid() && 0 <= nRnd < NEW_BUCKET_COUNT
      modifies this`mapInfo, this`mapAddr, this`vRandom, this`nTried, this`nNew, vvTried, vvNew
      ensures Model() == AddrOps.MarkedGood(old(Keyed()), old(Model()), addr, nTime)
      ensures Shape() && (Valid() <==> nTime > 0 || !AddrOps.Knows(old(Model()), addr))
    {
      hide Core;
      hide TimesOk;
      hide Counted;
      hide Entries;
      hide Places;
      hide Table;
      hide AddrOps.MadeTried;
      hide AddrOps.Holds;
      ghost var e, s := Keyed(), Model();
      AddrOps.GoodKeeps(e, s, addr, nTime);
      if addr.addr !in mapAddr {
        return;
      }
      var nId := mapAddr[addr.addr];
      InfoAt(mapInfo, nId);
      if nId !in mapInfo || mapInfo[nId].entry.service != addr {
        return;
      }
      var n := mapInfo[nId].entry.(nLastSuccess := nTime, nLastTry := nTime, nAttempts := 0);
      AddrOps.TouchKeeps(e, s, nId, n);
      Store(nId, n);
      if n.fInTried {
        return;
      }
      IdIsNatural(e, Model(), {}, nId);
      InfoAt(mapInfo, nId);
      var nUBucket := FindBucket(nId, nRnd);
      assert nUBucket != -1 by {
        AddrOps.NewIsSomewhere(Keyed(), Model(), nId);
      }
      MakeTried(nId);
    }

    /** A new slot for the entry, if it is free or the entry there is the worse one; an entry left without any slot
        is deleted. */
    method TakeSlot(nId: int, nUBucket: int, nUBucketPos: int, now: int, ghost limbo: set<int>)
      requires Shape() && Core(Keyed(), Model(), limbo) && TimesOk(Model().info) && Counted(Model(), 0)
      requires nId in mapInfo && !mapInfo[nId].entry.fInTried && mapInfo[nId].entry.nRefCount < NEW_BUCKETS_PER_ADDRESS
      requires 0 <= nUBucket < NEW_BUCKET_COUNT
      requires nUBucketPos == Position(Keyed(), true, nUBucket, mapInfo[nId].entry.service)
      modifies this`mapInfo, this`mapAddr, this`vRandom, this`nNew, vvNew
      ensures nId in old(Model()).info
      ensures Model() == AddrOps.Slotted(old(Keyed()), old(Model()), limbo, nId, (nUBucket, nUBucketPos), now)
    {
      hide Core;
      hide TimesOk;
      hide Counted;
      hide Entries;
      hide Places;
      hide Table;
      hide Cleared;
      hide Position;
      hide Deleted;
      hide AddrOps.IsTerrible;
      ghost var e, s, slot := Keyed(), Model(), (nUBucket, nUBucketPos);
      InfoAt(mapInfo, nId);
      IdIsNatural(e, s, limbo, nId);
      TableAt(vvNew, nUBucket, nUBucketPos);
      var existing := vvNew[nUBucket, nUBucketPos];
      if existing != nId {
        var fInsert := existing == -1;
        if !fInsert {
          OwnerIsNew(e, s, limbo, slot);
          InfoAt(mapInfo, existing);
          var infoExisting := mapInfo[existing].entry;
          if AddrOps.IsTerrible(infoExisting, now) || (infoExisting.nRefCount > 1 && mapInfo[nId].entry.nRefCount == 0) {
            fInsert := true;
          }
        }
        if fInsert {
          AddrOps.InsertKeeps(e, s, limbo, nId, slot, 0);
          ClearNew(nUBucket, nUBucketPos, limbo);
          InfoAt(mapInfo, nId);
          var n := mapInfo[nId].entry;
          Store(nId, n.(nRefCount := n.nRefCount + 1));
          SetSlot(vvNew, nUBucket, nUBucketPos, nId);
        } else if mapInfo[nId].entry.nRefCount == 0 {
          DeleteReady(e, s, limbo);
          Delete(nId);
        }
      }
    }

    /** A new entry, counted, its time reduced by the penalty. */
    method AddUnknown(addr: Address, source: NetAddr, nTimePenalty: int) returns (nId: int)
      modifies this
      ensures nId == old(nIdCount) && nKey == old(nKey)
      ensures Model() == Created(old(Model()), addr, source, AddrOps.NonNegative(addr.nTime - nTimePenalty))
    {
      hide Entries;
      hide Places;
      hide Table;
      CreatedLater(Model(), addr, source, nTimePenalty);
      nId := Create(addr, source);
      InfoAt(mapInfo, nId);
      var n := mapInfo[nId].entry;
      Store(nId, n.(nTime := AddrOps.NonNegative(n.nTime - nTimePenalty)));
      nNew := nNew + 1;
    }

    /** An announcement. The result says whether the address was unknown, and stays true when the entry is dropped at
        once for want of a slot. */
    method Add(addr: Address, routable: bool, source: NetAddr, nTimePenalty: int, now: int, lucky: bool) returns (fNew: bool)
      requires Valid()
      modifies this, vvNew
      ensures Valid() && nKey == old(nKey)
      ensures Model() == AddrOps.Added(old(Keyed()), old(Model()), addr, routable, source, nTimePenalty, now, lucky)
      ensures fNew <==> routable && addr.service.addr !in old(mapAddr)
    {
      hide Core;
      hide Counted;
      hide Entries;
      hide Places;
      hide Table;
      hide Position;
      hide NewBucket;
      hide AddrOps.Slotted;
      ghost var e, s := Keyed(), Model();
      AddrOps.AddKeeps(e, s, addr, routable, source, nTimePenalty, now, lucky);
      if !routable {
        return false;
      }
      if addr.service.addr in mapAddr {
        var nId := mapAddr[addr.service.addr];
        FoundIsKnown(e, s, {}, addr.service.addr);
        InfoAt(mapInfo, nId);
        var n := AddrOps.Refreshed(mapInfo[nId].entry, addr, nTimePenalty, now);
        AddrOps.TouchKeeps(e, s, nId, n);
        Store(nId, n);
        InfoAt(mapInfo, nId);
        if AddrOps.MayMultiply(n, addr, lucky) {
          RefsBound(e, Model(), {}, nId);
          var nUBucket := NewBucket(Env(hasher, nKey), n.service, source);
          TakeSlot(nId, nUBucket, Position(Env(hasher, nKey), true, nUBucket, n.service), now, {});
        }
        fNew := false;
      } else {
        var nId := AddUnknown(addr, source, nTimePenalty);
        CreateKeepsCore(e, s, addr, source, AddrOps.NonNegative(addr.nTime - nTimePenalty));
        InfoAt(mapInfo, nId);
        var nUBucket := NewBucket(Env(hasher, nKey), addr.service, source);
        TakeSlot(nId, nUBucket, Position(Env(hasher, nKey), true, nUBucket, addr.service), now, {nId});
        fNew := true;
      }
    }

    /** A connection attempt. A negative time is stored like any other, and breaks consistency if the service is known. */
    method Attempt(addr: Service, nTime: int)
      requires Valid()
      modifies this`mapInfo
      ensures Model() == AddrOps.Attempted(old(Model()), addr, nTime)
      ensures Valid() <==> nTime >= 0 || !AddrOps.Knows(old(Model()), addr)
    {
      hide Core;
      hide Counted;
      hide Entries;
      hide Places;
      hide Table;
      ghost var s := Model();
      if nTime >= 0 {
        AddrOps.StepKeeps(Keyed(), s, AddrOps.Attempt(addr, nTime), AddrOps.Attempted(s, addr, nTime));
      }
      if addr.addr !in mapAddr {
        return;
      }
      var nId := mapAddr[addr.addr];
      InfoAt(mapInfo, nId);
      if nId in mapInfo && mapInfo[nId].entry.service == addr {
        var n := mapInfo[nId].entry;
        Store(nId, n.(nLastTry := nTime, nAttempts := n.nAttempts + 1));
        assert Model().info[nId].nLastTry == nTime;
      }
    }

    /** A peer still connected. */
    method Connected(addr: Service, nTime: int)
      requires Valid()
      modifies this`mapInfo
      ensures Valid() && Model() == AddrOps.ConnectedTo(old(Model()), addr, nTime)
    {
      hide Core;
      hide Counted;
      hide Entries;
      hide Places;
      hide Table;
      ghost var s := Model();
      AddrOps.StepKeeps(Keyed(), s, AddrOps.Connected(addr, nTime), AddrOps.ConnectedTo(s, addr, nTime));
      if addr.addr !in mapAddr {
        return;
      }
      var nId := mapAddr[addr.addr];
      InfoAt(mapInfo, nId);
      if nId in mapInfo && mapInfo[nId].entry.service == addr {
        var n := mapInfo[nId].entry;
        if nTime - n.nTime > 20 * 60 {
          Store(nId, n.(nTime := nTime));
        }
      }
    }

    /** A random sample of good addresses: the shuffled order is walked to some point `n`, and what is left out of the
        walk is left out because the sample is full. */
    method GetAddr(rolls: nat -> nat, now: int) returns (vAddr: seq<Address>, ghost n: nat)
      requires Valid()
      modifies this`mapInfo, this`vRandom
      ensures Valid() && AddrOps.Shuffled(old(Model()), Model())
      ensures n <= |vRandom| && vAddr == AddrOps.Sample(Model().info, vRandom[..n], now)
      ensures |vAddr| <= AddrOps.SampleSize(|vRandom|) && (n < |vRandom| ==> |vAddr| == AddrOps.SampleSize(|vRandom|))
    {
      hide Entries;
      hide Places;
      hide Table;
      hide Core;
      hide TimesOk;
      hide Counted;
      hide AddrState.SwapRandom;
      hide RandomOk;
      hide AddrOps.IsTerrible;
      hide AddrOps.Sample;
      hide AddrOps.Shuffled;
      ghost var s := Model();
      AddrOps.Unshuffled(Keyed(), s, now);
      var nNodes := 23 * |vRandom| / 100;
      if nNodes > 2500 {
        nNodes := 2500;
      }
      vAddr := [];
      var i := 0;
      while i < |vRandom|
        invariant 0 <= i <= |vRandom| == |s.random| && AddrOps.Shuffled(s, Model())
        invariant vAddr == AddrOps.Sample(s.info, vRandom[..i], now) && |vAddr| <= nNodes
      {
        if |vAddr| >= nNodes {
          break;
        }
        var nRndPos := rolls(i) % (|vRandom| - i) + i;
        AddrOps.ShuffledRandom(s, Model());
        AddrOps.SwapShuffles(s, Model(), i, nRndPos);
        SwapRandom(i, nRndPos);
        AddrOps.ShuffledRandom(s, Model());
        RandomFrom(vRandom, Places(mapInfo), i);
        InfoAt(mapInfo, vRandom[i]);
        AddrOps.SampleSnoc(s.info, vRandom, i, now);
        var ai := mapInfo[vRandom[i]].entry;
        if !AddrOps.IsTerrible(ai, now) {
          vAddr := vAddr + [Address(ai.service, ai.nServices, ai.nTime)];
        }
        i := i + 1;
      }
      n := i;
      AddrOps.ShuffledRandom(s, Model());
      AddrOps.StepKeeps(Keyed(), s, AddrOps.GetAddr, Model());
    }

    /** The records of the new entries, and the number each goes by. */
    method WriteNew() returns (news: seq<AddrStore.Saved>, mapUnkIds: map<int, int>)
      requires Valid()
      ensures Ordered(Entries(mapInfo), nIdCount) && news == Recorded(Entries(mapInfo), nIdCount, false)
      ensures forall x :: x in mapInfo ==> x in mapUnkIds && mapUnkIds[x] == AddrStore.Rank(Entries(mapInfo), x)
    {
      hide Entries;
      hide Core;
      hide AddrStore.Order;
      ghost var info := Entries(mapInfo);
      IdsAreNatural(Keyed(), Model());
      AddrStore.ListingLists(Keyed(), Model());
      news, mapUnkIds := [], map[];
      RecordedNone(info, false);
      var id := 0;
      while id < nIdCount
        invariant 0 <= id <= nIdCount && Ordered(info, id) && news == Recorded(info, id, false)
        invariant forall x :: x in mapInfo && 0 <= x < id ==> x in mapUnkIds && mapUnkIds[x] == AddrStore.Rank(info, x)
      {
        InfoAt(mapInfo, id);
        RecordedStep(info, id, false);
        if id in mapInfo {
          mapUnkIds := mapUnkIds[id := |news|];
          if mapInfo[id].entry.nRefCount != 0 {
            AddrStore.OrderRank(info, id, nIdCount, false);
            assert |news| != nNew;
            news := news + [AddrStore.SavedOf(mapInfo[id].entry)];
          }
        }
        id := id + 1;
      }
      forall x | x in mapInfo ensures 0 <= x < nIdCount {
        InfoAt(mapInfo, x);
      }
    }

    /** The records of the tried entries. */
    method WriteTried() returns (trieds: seq<AddrStore.Saved>)
      requires Valid()
      ensures Ordered(Entries(mapInfo), nIdCount) && trieds == Recorded(Entries(mapInfo), nIdCount, true)
    {
      hide Entries;
      hide Core;
      hide AddrStore.Order;
      ghost var info := Entries(mapInfo);
      IdsAreNatural(Keyed(), Model());
      AddrStore.ListingLists(Keyed(), Model());
      trieds := [];
      RecordedNone(info, true);
      var id := 0;
      while id < nIdCount
        invariant 0 <= id <= nIdCount && Ordered(info, id) && trieds == Recorded(info, id, true)
      {
        InfoAt(mapInfo, id);
        RecordedStep(info, id, true);
        if id in mapInfo && mapInfo[id].entry.fInTried {
          AddrStore.OrderRank(info, id, nIdCount, true);
          assert |trieds| != nTried;
          trieds := trieds + [AddrStore.SavedOf(mapInfo[id].entry)];
        }
        id := id + 1;
      }
    }

    /** The numbers of the entries in one bucket. */
    method WriteRow(bucket: int, mapUnkIds: map<int, int>) returns (row: seq<int>)
      requires Valid() && 0 <= bucket < NEW_BUCKET_COUNT
      requires forall x :: x in mapInfo ==> x in mapUnkIds && mapUnkIds[x] == AddrStore.Rank(Entries(mapInfo), x)
      ensures row == AddrStore.Row(Entries(mapInfo), Table(vvNew), bucket, BUCKET_SIZE)
    {
      hide Entries;
      hide Table;
      hide Core;
      hide TimesOk;
      hide Counted;
      hide AddrStore.Rank;
      row := [];
      var i := 0;
      while i < BUCKET_SIZE
        invariant 0 <= i <= BUCKET_SIZE && row == AddrStore.Row(Entries(mapInfo), Table(vvNew), bucket, i)
      {
        TableAt(vvNew, bucket, i);
        if vvNew[bucket, i] != -1 {
          OwnerIsNew(Keyed(), Model(), {}, (bucket, i));
          InfoAt(mapInfo, vvNew[bucket, i]);
          row := row + [mapUnkIds[vvNew[bucket, i]]];
        }
        i := i + 1;
      }
    }

    /** Writes the manager out. */
    method Serialize() returns (f: AddrStore.File)
      requires Valid()
      ensures Model().nIdCount >= 0 && f == AddrStore.Saving(nKey, Model())
    {
      hide Entries;
      hide Places;
      hide Table;
      hide Core;
      hide TimesOk;
      hide Counted;
      hide AddrStore.Order;
      hide AddrStore.Row;
      hide AddrStore.Rank;
      IdsAreNatural(Keyed(), Model());
      var news, mapUnkIds := WriteNew();
      var trieds := WriteTried();
      var rows := [];
      var bucket := 0;
      while bucket < NEW_BUCKET_COUNT
        invariant 0 <= bucket <= NEW_BUCKET_COUNT && rows == AddrStore.Rows(Entries(mapInfo), Table(vvNew), bucket)
      {
        var row := WriteRow(bucket, mapUnkIds);
        rows := rows + [row];
        bucket := bucket + 1;
      }
      f := AddrStore.File(1, 32, nKey, nNew, nTried, AddrStore.FlipBit30(NEW_BUCKET_COUNT), news, trieds, rows);
    }

    /** One entry more in the maps and the random order. */
    method EnterEntry(nId: int, n: Entry)
      modifies this`mapInfo, this`mapAddr, this`vRandom
      ensures Model() == AddrStore.Enter(old(Model()), nId, n) && nId in mapInfo && mapInfo[nId].entry == n
    {
      hide Table;
      StoredNew(mapInfo, nId, Info(n, |vRandom|));
      mapInfo := mapInfo[nId := Info(n, |vRandom|)];
      mapAddr := mapAddr[n.service.addr := nId];
      vRandom := vRandom + [nId];
    }

    /** A new entry read; without usable rows it is given the slot of its source, if that is free. */
    method ReadNew(n: int, r: AddrStore.Saved, rebuild: bool)
      requires Shape() && n >= 0
      modifies this`mapInfo, this`mapAddr, this`vRandom, vvNew
      ensures Model() == AddrStore.LoadNew(Keyed(), old(Model()), n, r, rebuild)
    {
      hide Entries;
      hide Places;
      hide Table;
      hide Position;
      hide NewBucket;
      EnterEntry(n, AddrStore.EntryOf(r));
      if rebuild {
        var nUBucket := NewBucket(Env(hasher, nKey), r.service, r.source);
        var nUBucketPos := Position(Env(hasher, nKey), true, nUBucket, r.service);
        TableAt(vvNew, nUBucket, nUBucketPos);
        if vvNew[nUBucket, nUBucketPos] == -1 {
          SetSlot(vvNew, nUBucket, nUBucketPos, n);
          Store(n, mapInfo[n].entry.(nRefCount := 1));
        }
      }
    }

    /** A tried entry read, unless its slot is taken. */
    method ReadTried(r: AddrStore.Saved) returns (lost: bool)
      requires Shape() && nIdCount >= 0
      modifies this`mapInfo, this`mapAddr, this`vRandom, this`nIdCount, vvTried
      ensures Model() == AddrStore.LoadTried(Keyed(), old(Model()), r).(nTried := nTried)
      ensures AddrStore.LoadTried(Keyed(), old(Model()), r).nTried == nTried - if lost then 1 else 0
      ensures nIdCount >= 0
    {
      hide Entries;
      hide Places;
      hide Table;
      hide Position;
      hide TriedBucket;
      var nKBucket := TriedBucket(Env(hasher, nKey), r.service);
      var nKBucketPos := Position(Env(hasher, nKey), false, nKBucket, r.service);
      TableAt(vvTried, nKBucket, nKBucketPos);
      if vvTried[nKBucket, nKBucketPos] == -1 {
        EnterEntry(nIdCount, AddrStore.EntryOf(r).(fInTried := true));
        SetSlot(vvTried, nKBucket, nKBucketPos, nIdCount);
        nIdCount := nIdCount + 1;
        lost := false;
      } else {
        lost := true;
      }
    }

    /** A reference read, kept if it can be. */
    method ReadIndex(nFileNew: int, usable: bool, bucket: int, nIndex: int)
      requires Shape() && (usable ==> 0 <= bucket < NEW_BUCKET_COUNT) && forall x :: 0 <= x < nFileNew ==> x in mapInfo
      modifies this`mapInfo, vvNew
      ensures Model() == AddrStore.LoadIndex(Keyed(), old(Model()), nFileNew, usable, bucket, nIndex)
      ensures mapInfo.Keys == old(mapInfo.Keys)
    {
      hide Entries;
      hide Places;
      hide Table;
      hide Position;
      if 0 <= nIndex < nFileNew {
        InfoAt(mapInfo, nIndex);
        var info := mapInfo[nIndex].entry;
        var nUBucketPos := Position(Env(hasher, nKey), true, bucket, info.service);
        if usable {
          TableAt(vvNew, bucket, nUBucketPos);
          if vvNew[bucket, nUBucketPos] == -1 && info.nRefCount < NEW_BUCKETS_PER_ADDRESS {
            Store(nIndex, info.(nRefCount := info.nRefCount + 1));
            SetSlot(vvNew, bucket, nUBucketPos, nIndex);
          }
        }
      }
    }

    method ReadRow(nFileNew: int, usable: bool, bucket: int, row: seq<int>)
      requires Shape() && (usable ==> 0 <= bucket < NEW_BUCKET_COUNT) && forall x :: 0 <= x < nFileNew ==> x in mapInfo
      modifies this`mapInfo, vvNew
      ensures Model() == AddrStore.LoadRow(Keyed(), old(Model()), nFileNew, usable, bucket, row)
      ensures mapInfo.Keys == old(mapInfo.Keys)
    {
      hide Entries;
      hide Places;
      hide Table;
      hide AddrStore.LoadIndex;
      ghost var e, s := Keyed(), Model();
      var n := 0;
      while n < |row|
        invariant 0 <= n <= |row| && mapInfo.Keys == old(mapInfo.Keys)
        invariant Model() == AddrStore.LoadRow(e, s, nFileNew, usable, bucket, row[..n])
      {
        assert row[..n + 1][..n] == row[..n];
        ReadIndex(nFileNew, usable, bucket, row[n]);
        n := n + 1;
      }
      assert row[..n] == row;
    }

    /** Drops the entries that ended up in no table. */
    method Prune()
      requires AddrStore.Indexed(Model())
      modifies this`mapInfo, this`mapAddr, this`vRandom, this`nNew
      ensures AddrStore.Indexed(old(Model())) && old(nIdCount) >= 0
      ensures Model() == AddrStore.Pruned(old(Model()), old(nIdCount))
    {
      hide Entries;
      hide Places;
      hide Table;
      hide RandomOk;
      hide Deleted;
      ghost var s := Model();
      var id := 0;
      while id < nIdCount
        invariant 0 <= id <= nIdCount && AddrStore.Indexed(s) && Model() == AddrStore.Pruned(s, id)
      {
        InfoAt(mapInfo, id);
        if id in mapInfo && !mapInfo[id].entry.fInTried && mapInfo[id].entry.nRefCount == 0 {
          Delete(id);
        }
        id := id + 1;
      }
    }

    /** Reads a file into a new manager; it fails, leaving it anyhow, for a key of another size and for a file that ends
        before all it announces has been read. */
    method Unserialize(f: AddrStore.File) returns (ok: bool)
      requires Shape() && Model() == EMPTY && f.nNew >= 0 && f.nTried >= 0
      modifies this, vvTried, vvNew
      ensures ok == (f.nKeySize == 32 && AddrStore.Complete(f))
      ensures ok ==> nKey == f.nKey && Model() == AddrStore.Restored(hasher, f)
    {
      hide Entries;
      hide Places;
      hide Table;
      hide AddrStore.LoadedEntries;
      hide AddrStore.Loaded;
      hide AddrStore.Indexed;
      hide AddrStore.Pruned;
      if f.nKeySize != 32 || !AddrStore.Complete(f) {
        return false;
      }
      AddrStore.LoadedIndexed(hasher, f);
      nKey, nNew, nTried := f.nKey, f.nNew, f.nTried;
      ReadEntries(f);
      ReadRows(f);
      Prune();
      ok := true;
    }

    /** The records of a file, new and tried. */
    method ReadEntries(f: AddrStore.File)
      requires Shape() && AddrStore.Complete(f) && nKey == f.nKey
      requires Model() == EMPTY.(nNew := f.nNew, nTried := f.nTried)
      modifies this, vvTried, vvNew
      ensures Model() == AddrStore.LoadedEntries(hasher, f) && nKey == f.nKey
    {
      hide Entries;
      hide Places;
      hide Table;
      hide AddrStore.LoadNew;
      hide AddrStore.LoadTried;
      ghost var e, s0 := Keyed(), Model();
      var rebuild := !AddrStore.Usable(f);
      var n := 0;
      while n < f.nNew
        invariant 0 <= n <= f.nNew && nKey == f.nKey && Model() == AddrStore.LoadNews(e, s0, f.news[..n], rebuild)
      {
        assert f.news[..n + 1][..n] == f.news[..n];
        ReadNew(n, f.news[n], rebuild);
        n := n + 1;
      }
      assert f.news[..n] == f.news;
      nIdCount := f.nNew;
      ghost var s1 := Model();
      var nLost := 0;
      n := 0;
      while n < f.nTried
        invariant 0 <= n <= f.nTried && nKey == f.nKey && nIdCount >= 0
        invariant var w := AddrStore.LoadTrieds(e, s1, f.trieds[..n]); Model() == w.(nTried := nTried) && w.nTried == nTried - nLost
      {
        assert f.trieds[..n + 1][..n] == f.trieds[..n];
        AddrStore.LoadTriedCount(e, AddrStore.LoadTrieds(e, s1, f.trieds[..n]), nTried, f.trieds[n]);
        var lost := ReadTried(f.trieds[n]);
        nLost := nLost + if lost then 1 else 0;
        n := n + 1;
      }
      assert f.trieds[..n] == f.trieds;
      nTried := nTried - nLost;
    }

    /** The rows of a file. */
    method ReadRows(f: AddrStore.File)
      requires Shape() && AddrStore.Complete(f) && nKey == f.nKey && Model() == AddrStore.LoadedEntries(hasher, f)
      modifies this`mapInfo, vvNew
      ensures Model() == AddrStore.Loaded(hasher, f)
    {
      hide Entries;
      hide Places;
      hide Table;
      hide AddrStore.LoadRow;
      hide AddrStore.LoadedEntries;
      ghost var e, s := Keyed(), Model();
      AddrStore.EntriesThere(hasher, f);
      forall x | 0 <= x < f.nNew ensures x in mapInfo {
        InfoAt(mapInfo, x);
      }
      var usable := AddrStore.Usable(f);
      var bucket := 0;
      while bucket < |f.rows|
        invariant 0 <= bucket <= |f.rows| && mapInfo.Keys == old(mapInfo.Keys)
        invariant Model() == AddrStore.LoadRows(e, s, f.nNew, usable, f.rows[..bucket])
      {
        assert f.rows[..bucket + 1][..bucket] == f.rows[..bucket];
        ReadRow(f.nNew, usable, bucket, f.rows[bucket]);
        bucket := bucket + 1;
      }
      assert f.rows[..bucket] == f.rows;
    }
  }

  /** Below `k`, the ids of a pass are ids of entries. */
  ghost predicate Ordered(info: map<int, Entry>, k: int) {
    k >= 0 && forall t: bool, i :: 0 <= i < |AddrStore.Order(info, k, t)| ==> AddrStore.Order(info, k, t)[i] in info
  }

  ghost function Recorded(info: map<int, Entry>, k: int, tried: bool): (r: seq<AddrStore.Saved>)
    requires Ordered(info, k)
  {
    AddrStore.Records(info, AddrStore.Order(info, k, tried))
  }

  lemma RecordedNone(info: map<int, Entry>, tried: bool)
    ensures Ordered(info, 0) && Recorded(info, 0, tried) == []
  {}

  lemma RecordedStep(info: map<int, Entry>, k: nat, tried: bool)
    requires Ordered(info, k)
    ensures Ordered(info, k + 1)
    ensures Recorded(info, k + 1, tried) ==
              Recorded(info, k, tried) + if k in info && AddrStore.Wanted(info[k], tried) then [AddrStore.SavedOf(info[k])] else []
  {
    AddrStore.OrderAscends(info, k + 1, false);
    AddrStore.OrderAscends(info, k + 1, true);
  }

  lemma IdsAreNatural(e: Env, s: State)
    requires Consistent(e, s)
    ensures s.nIdCount >= 0 && forall id :: id in s.info ==> 0 <= id < s.nIdCount
  {}

  lemma RandomFrom(random: seq<int>, pos: map<int, int>, p: int)
    requires RandomOk(random, pos) && 0 <= p < |random|
    ensures random[p] in pos
  {}

  /** The time of a new entry set after its creation. */
  lemma CreatedLater(s: State, a: Address, source: NetAddr, penalty: int)
    ensures var w, t, id := Created(s, a, source, a.nTime), AddrOps.NonNegative(a.nTime - penalty), s.nIdCount;
            w.(info := w.info[id := w.info[id].(nTime := t)]) == Created(s, a, source, t)
  {}

  lemma DeleteReady(e: Env, s: State, limbo: set<int>)
    requires Core(e, s, limbo)
    ensures IdsOk(s) && RandomOk(s.random, s.pos)
  {}

  lemma FoundIsKnown(e: Env, s: State, limbo: set<int>, a: NetAddr)
    requires Core(e, s, limbo) && a in s.addr
    ensures s.addr[a] in s.info && s.info[s.addr[a]].service.addr == a
  {}

  lemma RefsBound(e: Env, s: State, limbo: set<int>, id: int)
    requires Core(e, s, limbo) && id in s.info && !s.info[id].fInTried
    ensures s.info[id].nRefCount <= NEW_BUCKETS_PER_ADDRESS
  {}

  /** Bucket `n` steps on from `start`. */
  function Around(n: int, start: int): (b: int)
    ensures 0 <= b < NEW_BUCKET_COUNT
  {
    (n + start) % NEW_BUCKET_COUNT
  }

  /** The evicted entry survives the clearing of its new slot unchanged. */
  lemma EvictedFits(e: Env, w: State, limbo: set<int>, id: int, slot: Slot)
    requires Core(e, w, limbo) && Counted(w, 2)
    requires id in w.info && !w.info[id].fInTried && w.info[id].nRefCount == 0 && id != -1
    requires 0 <= slot.0 < NEW_BUCKET_COUNT && slot.1 == Position(e, true, slot.0, w.info[id].service)
    ensures var c := Cleared(e, w, limbo, slot);
            && id in c.info && c.info[id] == w.info[id] && slot !in c.news
            && AddrOps.Inserted(e, w, limbo, id, slot) == c.(news := c.news[slot := id], info := WithRefs(c.info, id, 1))
  {
    hide Core;
    hide TimesOk;
    hide Counted;
    hide Cleared;
    hide Position;
    if slot in w.news {
      OwnerIsNew(e, w, limbo, slot);
    }
    ClearKeepsCore(e, w, limbo, slot, 2);
    AddrOps.InsertKeeps(e, w, limbo, id, slot, 2);
  }

  /** The slots of `id` in buckets below `bucket`. */
  ghost function SlotsBelow(news: map<Slot, int>, id: int, bucket: int): (r: set<Slot>) {
    set slot | slot in news && news[slot] == id && slot.0 < bucket
  }

  ghost function Leaving(s: State, id: int, bucket: int): (r: State)
    requires id in s.info
  {
    s.(news := s.news - SlotsBelow(s.news, id, bucket),
       info := WithRefs(s.info, id, s.info[id].nRefCount - |SlotsBelow(s.news, id, bucket)|))
  }

  lemma IdIsNatural(e: Env, s: State, limbo: set<int>, id: int)
    requires Core(e, s, limbo) && id in s.info
    ensures id != -1
  {}

  lemma LeaveNone(e: Env, s: State, id: int)
    requires Core(e, s, {}) && id in s.info
    ensures Leaving(s, id, 0) == s
  {
    hide RandomOk;
    hide TriedOk;
    hide AddrOk;
    hide Position;
    hide Slots;
    assert SlotsBelow(s.news, id, 0) == {};
    assert s.news - {} == s.news;
  }

  lemma LeaveStep(e: Env, s: State, id: int, bucket: int)
    requires Core(e, s, {}) && id in s.info && 0 <= bucket < NEW_BUCKET_COUNT
    ensures var w := Leaving(s, id, bucket);
            && id in w.info && w.info[id].service == s.info[id].service
            && var slot := (bucket, Position(e, true, bucket, s.info[id].service));
               Leaving(s, id, bucket + 1) ==
                 if slot in w.news && w.news[slot] == id
                 then w.(news := w.news - {slot}, info := WithRefs(w.info, id, w.info[id].nRefCount - 1))
                 else w
  {
    hide RandomOk;
    hide TriedOk;
    hide AddrOk;
    hide NewOk;
    hide Live;
    hide IdsOk;
    hide Position;
    hide SlotsBelow;
    var slot := (bucket, Position(e, true, bucket, s.info[id].service));
    BelowStep(e, s.info, s.news, id, bucket, slot);
    var a, b := SlotsBelow(s.news, id, bucket), SlotsBelow(s.news, id, bucket + 1);
    var w := Leaving(s, id, bucket);
    if slot in s.news && s.news[slot] == id {
      assert s.news - b == (s.news - a) - {slot};
      assert |b| == |a| + 1;
    }
  }

  lemma BelowStep(e: Env, info: map<int, Entry>, news: map<Slot, int>, id: int, bucket: int, slot: Slot)
    requires NewOk(e, info, news) && id in info && slot == (bucket, Position(e, true, bucket, info[id].service))
    ensures SlotsBelow(news, id, bucket + 1) ==
              if slot in news && news[slot] == id then SlotsBelow(news, id, bucket) + {slot} else SlotsBelow(news, id, bucket)
    ensures slot !in SlotsBelow(news, id, bucket)
  {
    hide Position;
    hide Slots;
    var a, b := SlotsBelow(news, id, bucket), SlotsBelow(news, id, bucket + 1);
    forall x: Slot ensures x in b <==> x in a || (x == slot && slot in news && news[slot] == id) {
      if x in news && news[x] == id && x.0 == bucket {
        assert x == slot;
      }
    }
  }

  lemma LeftAll(e: Env, s: State, id: int)
    requires Core(e, s, {}) && id in s.info
    ensures var w := Leaving(s, id, NEW_BUCKET_COUNT); w.(nNew := w.nNew - 1) == AddrOps.Unbucketed(s, id)
    ensures AddrOps.Unbucketed(s, id).info[id].nRefCount == 0
  {
    hide RandomOk;
    hide TriedOk;
    hide AddrOk;
    hide Position;
    forall x: Slot ensures x in SlotsBelow(s.news, id, NEW_BUCKET_COUNT) <==> x in Slots(s.news, id) {
    }
    assert SlotsBelow(s.news, id, NEW_BUCKET_COUNT) == Slots(s.news, id);
  }
}
